/** Decimal division: long division to one guard digit more than the precision, a sticky last digit, one
    final rounding; the result is the correctly rounded quotient. */
module Division {
  import opened PowersOfTen
  import opened Decimals

  /** Drop trailing zeros while the exponent is below the ideal one. */
  function Strip(c: nat, exp: int, ideal: int): (nat, int)
    decreases if exp < ideal then ideal - exp else 0
  {
    if exp < ideal && c % 10 == 0 then Strip(c / 10, exp + 1, ideal) else (c, exp)
  }

  function Sticky(q: nat): nat {
    if q % 5 == 0 then q + 1 else q
  }

  /** num/den * 10^exp, exactly if it ends, otherwise with a sticky last digit; then one rounding. */
  function RoundedQuotient(p: nat, neg: bool, num: nat, den: nat, exp: int, ideal: int): Dec
    requires p >= 1 && den > 0
  {
    if num % den != 0 then Fix(p, Dec(neg, Sticky(num / den), exp))
    else
      var (c, e) := Strip(num / den, exp, ideal);
      Fix(p, Dec(neg, c, e))
  }

  function Divide(p: nat, a: Dec, b: Dec): Dec
    requires p >= 1 && b.coef != 0
  {
    var neg, ideal := a.neg != b.neg, a.exp - b.exp;
    var shift := Digits(b.coef) - Digits(a.coef) + p + 1;
    if a.coef == 0 then Dec(neg, 0, ideal)
    else if shift >= 0 then RoundedQuotient(p, neg, Scale(a.coef, shift), b.coef, ideal - shift, ideal)
    else RoundedQuotient(p, neg, a.coef, Scale(b.coef, -shift), ideal - shift, ideal)
  }

  // ----- a quotient as a real number -----

  /** x is num/den in units of u. */
  ghost predicate IsQuotient(x: real, num: nat, den: nat, u: real) {
    den > 0 && Units(den, x) == Units(num, u)
  }

  lemma {:induction false} UnitsOrderInSize(n: nat, y: real, z: real)
    requires y <= z
    ensures Units(n, y) <= Units(n, z)
    ensures y < z && n > 0 ==> Units(n, y) < Units(n, z)
  {
    UnitsStep(n, y);
    UnitsStep(n, z);
    if n > 0 {
      UnitsOrderInSize(n - 1, y, z);
    }
  }

  lemma {:induction false} UnitsNested(d: nat, n: nat, u: real, k: nat)
    requires k == d * n
    ensures Units(d, Units(n, u)) == Units(k, u)
  {
    UnitsStep(d, Units(n, u));
    UnitsOne(u);
    if d > 0 {
      var less := OneFewer(d, n, k);
      UnitsNested(d - 1, n, u, less);
      UnitsAdd(less, n, u);
    }
  }

  lemma AtMostQuotient(x: real, num: nat, den: nat, u: real, n: nat, k: nat)
    requires IsQuotient(x, num, den, u) && u > 0.0 && k == den * n
    ensures k <= num ==> Units(n, u) <= x
    ensures k > num ==> Units(n, u) > x
    ensures k == num ==> Units(n, u) == x
  {
    UnitsNested(den, n, u, k);
    if k <= num { UnitsLe(k, num, u); } else { UnitsGap(num, k, u); }
    var y := Units(n, u);
    if y < x { UnitsOrderInSize(den, y, x); }
    if x < y { UnitsOrderInSize(den, x, y); }
  }

  lemma FloorOfQuotient(num: nat, den: nat) returns (q: nat, k: nat, m: nat)
    requires den > 0
    ensures q == num / den && k == den * q && m == den * (q + 1) && k <= num < m
    ensures num % den == 0 <==> k == num
  {
    q, k, m := num / den, den * (num / den), den * (num / den + 1);
  }

  /** The integer quotient brackets the real one. */
  lemma Bracket(x: real, num: nat, den: nat, u: real)
    requires IsQuotient(x, num, den, u) && u > 0.0
    ensures Units(num / den, u) <= x < Units(num / den + 1, u)
    ensures num % den == 0 ==> Units(num / den, u) == x
  {
    var q, k, m := FloorOfQuotient(num, den);
    AtMostQuotient(x, num, den, u, q, k);
    AtMostQuotient(x, num, den, u, q + 1, m);
  }

  // ----- rounding a quotient through its sticky integer part -----

  lemma StickyCut(q: nat, k: nat)
    requires k >= 1
    ensures Scale(HalfUp(Sticky(q), k), k) <= q + Scale(5, k - 1)
    ensures q + 1 <= Scale(HalfUp(Sticky(q), k), k) + Scale(5, k - 1)
  {
    var s := Sticky(q);
    var r := HalfUp(s, k);
    HalfUpBounds(s, k);
    ScaleSum(r, 1, k);
  }

  lemma StickyOnGrid(x: real, q: nat, e: int, k: nat)
    requires k >= 1 && Units(q, P(e)) <= x < Units(q + 1, P(e))
    ensures OnGrid(x, Units(HalfUp(Sticky(q), k), P(e + k)), P(e + k))
  {
    var r, h, u := HalfUp(Sticky(q), k), Scale(5, k - 1), P(e);
    StickyCut(q, k);
    HalfUpBounds(q, k);
    UnitsScale(r, k, e, e + k);
    UnitsScale(1, k, e, e + k);
    UnitsAdd(h, h, u);
    UnitsAdd(q, h, u);
    UnitsAdd(Scale(r, k), h, u);
    UnitsOne(P(e + k));
    UnitsLe(Scale(r, k), q + h, u);
    UnitsLe(q + 1, Scale(r, k) + h, u);
  }

  lemma StickyDigits(q: nat, p: nat)
    requires q >= Pow10(p) && p >= 1
    ensures Digits(Sticky(q)) == Digits(q) > p
  {
    DigitsAtMost(q, p);
    if q % 5 == 0 {
      DigitsNext(q);
    }
  }

  lemma {:induction false} DigitsNext(q: nat)
    requires q % 10 != 9
    ensures Digits(q + 1) == Digits(q)
  {
    assert (q + 1) / 10 == q / 10;
  }

  lemma InexactRounds(p: nat, x: real, q: nat, exp: int)
    requires p >= 1 && q >= Pow10(p) && Units(q, P(exp)) <= x < Units(q + 1, P(exp))
    ensures Rounds(p, x, Fix(p, Dec(false, Sticky(q), exp))) && WithinHalfUnit(p, x, Fix(p, Dec(false, Sticky(q), exp)))
  {
    var d := Dec(false, Sticky(q), exp);
    StickyDigits(q, p);
    var k := Digits(q) - p;
    StickyOnGrid(x, q, exp, k);
    DigitsBounds(q);
    ScaleMore(1, p - 1, k);
    UnitsScale(Pow10(p - 1), k, exp, exp + k);
    UnitsLe(Pow10(p - 1 + k), q, P(exp));
    FixOnGrid(p, d, x);
  }

  lemma {:induction false} StripValue(c: nat, exp: int, ideal: int)
    ensures var (d, e) := Strip(c, exp, ideal); Units(d, P(e)) == Units(c, P(exp))
    decreases if exp < ideal then ideal - exp else 0
  {
    if exp < ideal && c % 10 == 0 {
      StripValue(c / 10, exp + 1, ideal);
      PStep(exp + 1);
      UnitsTen(c / 10, P(exp), P(exp + 1));
    }
  }

  // ----- the digits of the integer quotient -----

  lemma DivAtLeast(num: nat, den: nat, t: nat, k: nat)
    requires den > 0 && k == den * t && k <= num
    ensures num / den >= t
  {
    if num / den < t {
      TimesMonotone(den, num / den + 1, t);
    }
  }

  lemma TimesMonotone(d: nat, a: nat, b: nat)
    requires a <= b
    ensures d * a <= d * b
  {
  }

  lemma {:induction false} DigitsOfScale(c: nat, k: nat)
    requires c > 0
    ensures Digits(Scale(c, k)) == Digits(c) + k
  {
    if k > 0 {
      DigitsOfScale(c, k - 1);
      assert Scale(c, k) / 10 == Scale(c, k - 1);
    }
  }

  lemma QuotientLong(num: nat, den: nat, p: nat)
    requires num > 0 && den > 0 && Digits(num) == Digits(den) + p + 1
    ensures num / den >= Pow10(p)
  {
    DigitsBounds(num);
    DigitsBounds(den);
    ScaleMore(1, Digits(den), p);
    ScaleMonotone(den, Pow10(Digits(den)), p);
    ScaleIsTimes(den, p);
    DivAtLeast(num, den, Pow10(p), Scale(den, p));
  }

  // ----- connecting with the values of the operands -----

  lemma {:induction false} ScaleBoth(c: nat, d: nat, m: nat, y: real, e: int)
    requires Units(c, y) == Units(d, P(e))
    ensures Units(Scale(c, m), y) == Units(d, P(e + m))
    decreases m
  {
    if m > 0 {
      ScaleBoth(c, d, m - 1, y, e);
      UnitsTen(Scale(c, m - 1), y, 10.0 * y);
      PStep(e + m);
      UnitsTen(d, P(e + m - 1), P(e + m));
    }
  }

  lemma CancelFactor(u: real, y: real, z: real, s: real)
    requires u > 0.0 && u * y == s && u * z == s
    ensures y == z
  {
  }

  lemma DistributeLeft(u: real, y: real, v: real, z: real)
    requires z == y + v
    ensures u * z == u * y + u * v
  {
  }

  lemma {:induction false} TwoFactorings(n: nat, x: real, v: real, s: real)
    requires s == x * Units(n, v)
    ensures s == v * Units(n, x)
    decreases n
  {
    UnitsStep(n, x);
    UnitsStep(n, v);
    if n > 0 {
      TwoFactorings(n - 1, x, v, x * Units(n - 1, v));
      DistributeLeft(x, Units(n - 1, v), v, Units(n, v));
      DistributeLeft(v, Units(n - 1, x), x, Units(n, x));
    }
  }

  lemma QuotientStep(m: nat, n: nat, u: real, v: real, x: real, s: real)
    requires v > 0.0 && v * Units(m, u) == s && s == x * Units(n, v)
    ensures Units(n, x) == Units(m, u)
  {
    TwoFactorings(n, x, v, s);
    CancelFactor(v, Units(n, x), Units(m, u), s);
  }

  /** From x * n*10^f = m*10^g to n*x = m*10^(g-f). */
  lemma QuotientUnits(m: nat, n: nat, e: int, f: int, g: int, x: real)
    requires g == f + e && x * Units(n, P(f)) == Units(m, P(g))
    ensures Units(n, x) == Units(m, P(e))
  {
    PowerTimesUnits(f, m, e, g);
    QuotientStep(m, n, P(e), P(f), x, Units(m, P(g)));
  }

  lemma RoundedQuotientRounds(p: nat, x: real, num: nat, den: nat, exp: int, ideal: int)
    requires p >= 1 && IsQuotient(x, num, den, P(exp)) && num / den >= Pow10(p)
    ensures var r := RoundedQuotient(p, false, num, den, exp, ideal);
            Rounds(p, x, r) && WithinHalfUnit(p, x, r)
  {
    Bracket(x, num, den, P(exp));
    if num % den != 0 {
      InexactRounds(p, x, num / den, exp);
    } else {
      StripValue(num / den, exp, ideal);
      var (c, e) := Strip(num / den, exp, ideal);
      FixRounds(p, Dec(false, c, e));
    }
  }

  /** Which integer quotient the division computes. */
  lemma DivideIsQuotient(p: nat, a: Dec, b: Dec) returns (num: nat, den: nat, shift: int)
    requires p >= 1 && a.coef != 0 && b.coef != 0
    ensures shift == Digits(b.coef) - Digits(a.coef) + p + 1
    ensures num == (if shift >= 0 then Scale(a.coef, shift) else a.coef)
            && den == if shift >= 0 then b.coef else Scale(b.coef, -shift)
    ensures num > 0 && den > 0 && Digits(num) == Digits(den) + p + 1
    ensures Divide(p, a, b) == RoundedQuotient(p, a.neg != b.neg, num, den, a.exp - b.exp - shift, a.exp - b.exp)
  {
    shift := Digits(b.coef) - Digits(a.coef) + p + 1;
    if shift >= 0 {
      DigitsOfScale(a.coef, shift);
      num, den := Scale(a.coef, shift), b.coef;
    } else {
      DigitsOfScale(b.coef, -shift);
      num, den := a.coef, Scale(b.coef, -shift);
    }
  }

  /** Moving the shift to one side keeps the quotient. */
  lemma ShiftedQuotient(m: nat, n: nat, shift: int, ideal: int, x: real)
    requires Units(n, x) == Units(m, P(ideal))
    ensures shift >= 0 ==> Units(n, x) == Units(Scale(m, shift), P(ideal - shift))
    ensures shift < 0 ==> Units(Scale(n, -shift), x) == Units(m, P(ideal - shift))
  {
    if shift >= 0 {
      UnitsScale(m, shift, ideal - shift, ideal);
    } else {
      ScaleBoth(n, m, -shift, x, ideal);
    }
  }

  lemma PositiveDivide(p: nat, a: Dec, b: Dec, x: real)
    requires p >= 1 && b.coef != 0 && a.coef != 0 && a.neg == b.neg
    requires x * Units(b.coef, P(b.exp)) == Units(a.coef, P(a.exp))
    ensures Rounds(p, x, Divide(p, a, b)) && WithinHalfUnit(p, x, Divide(p, a, b))
  {
    var ideal := a.exp - b.exp;
    QuotientUnits(a.coef, b.coef, ideal, b.exp, a.exp, x);
    var num, den, shift := DivideIsQuotient(p, a, b);
    ShiftedQuotient(a.coef, b.coef, shift, ideal, x);
    QuotientLong(num, den, p);
    RoundedQuotientRounds(p, x, num, den, ideal - shift, ideal);
  }

  lemma RoundedQuotientSign(p: nat, neg: bool, num: nat, den: nat, exp: int, ideal: int)
    requires p >= 1 && den > 0
    ensures RoundedQuotient(p, !neg, num, den, exp, ideal) == Negate(RoundedQuotient(p, neg, num, den, exp, ideal))
  {
  }

  lemma DivideSign(p: nat, a: Dec, b: Dec)
    requires p >= 1 && b.coef != 0 && a.coef != 0
    ensures Divide(p, Negate(a), b) == Negate(Divide(p, a, b))
  {
    var num, den, shift := DivideIsQuotient(p, a, b);
    var num', den', shift' := DivideIsQuotient(p, Negate(a), b);
    assert num' == num && den' == den && shift' == shift;
    RoundedQuotientSign(p, a.neg != b.neg, num, den, a.exp - b.exp - shift, a.exp - b.exp);
  }

  lemma RealQuotient(y: real, z: real) returns (x: real)
    requires z != 0.0
    ensures x == y / z && x * z == y
  {
    x := y / z;
  }

  lemma Magnitudes(m: bool, n: bool, x: real, y: real, z: real, va: real, vb: real)
    requires vb == WithSign(n, z) && va == WithSign(m, y) && x * vb == va
    ensures (if m == n then x else -x) * z == y
  {
  }

  lemma QuotientRounds(p: nat, a: Dec, b: Dec, x: real)
    requires p >= 1 && b.coef != 0 && a.coef != 0 && x * V(b) == V(a)
    ensures Rounds(p, x, Divide(p, a, b)) && WithinHalfUnit(p, x, Divide(p, a, b))
  {
    Magnitudes(a.neg, b.neg, x, Units(a.coef, P(a.exp)), Units(b.coef, P(b.exp)), V(a), V(b));
    var m := if a.neg == b.neg then x else -x;
    SignedRounds(p, a, b, m);
  }

  lemma SignedRounds(p: nat, a: Dec, b: Dec, x: real)
    requires p >= 1 && b.coef != 0 && a.coef != 0
    requires x * Units(b.coef, P(b.exp)) == Units(a.coef, P(a.exp))
    ensures var r := if a.neg == b.neg then x else -x;
            Rounds(p, r, Divide(p, a, b)) && WithinHalfUnit(p, r, Divide(p, a, b))
  {
    if a.neg == b.neg {
      PositiveDivide(p, a, b, x);
    } else {
      PositiveDivide(p, Negate(a), b, x);
      DivideSign(p, a, b);
      Mirror(p, x, Divide(p, Negate(a), b));
    }
  }

  lemma ZeroQuotient(z: real, x: real)
    requires z != 0.0 && x * z == 0.0
    ensures x == 0.0
  {
  }

  /** Every quotient is the correctly rounded one. */
  lemma DivideRounds(p: nat, a: Dec, b: Dec)
    requires p >= 1 && b.coef != 0
    ensures V(b) != 0.0
    ensures Rounds(p, V(a) / V(b), Divide(p, a, b)) && WithinHalfUnit(p, V(a) / V(b), Divide(p, a, b))
  {
    SignOfValue(a);
    SignOfValue(b);
    var x := RealQuotient(V(a), V(b));
    if a.coef == 0 {
      ZeroQuotient(V(b), x);
    } else {
      QuotientRounds(p, a, b, x);
    }
  }
}
