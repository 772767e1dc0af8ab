/** Exponents and signs of exact results, which decide how a result is written: "1.50" and "1.5" stand for the
    same number. The General Decimal Arithmetic specification fixes them as ideal exponents. */
module IdealExponents {
  import opened PowersOfTen
  import opened Decimals
  import opened Division
  import opened Rounding

  /** The number has at most p digits at this exponent. */
  ghost predicate ExactAt(p: nat, x: real, exp: int) {
    exists m: nat :: m < Pow10(p) && Abs(x) == Units(m, P(exp))
  }

  lemma SameUnits(m: nat, n: nat, u: real)
    requires u > 0.0 && Units(m, u) == Units(n, u)
    ensures m == n
  {
    if m < n { UnitsGap(m, n, u); }
    if n < m { UnitsGap(n, m, u); }
  }

  lemma ShortIsFixed(p: nat, d: Dec)
    requires p >= 1 && ExactAt(p, V(d), d.exp)
    ensures d.coef < Pow10(p) && Fix(p, d) == d
  {
    var m: nat :| m < Pow10(p) && Abs(V(d)) == Units(m, P(d.exp));
    UnitsNotNegative(d.coef, P(d.exp));
    SameUnits(m, d.coef, P(d.exp));
    DigitsAtMost(d.coef, p);
  }

  /** An exact sum keeps the smaller exponent; a sum that is zero is negative only if both operands are. */
  lemma SumIsIdeal(p: nat, a: Dec, b: Dec)
    requires p >= 1 && ExactAt(p, V(a) + V(b), if a.exp <= b.exp then a.exp else b.exp)
    ensures V(Add(p, a, b)) == V(a) + V(b) && Add(p, a, b).exp == if a.exp <= b.exp then a.exp else b.exp
    ensures V(a) + V(b) == 0.0 ==> (Add(p, a, b).neg <==> a.neg && b.neg)
  {
    ExactSumValue(a, b);
    ShortIsFixed(p, ExactSum(a, b));
    SignOfValue(ExactSum(a, b));
  }

  /** Exponents of an exact product add up; its sign is that of the operands' signs, also for zero. */
  lemma ProductIsIdeal(p: nat, a: Dec, b: Dec)
    requires p >= 1 && ExactAt(p, V(a) * V(b), a.exp + b.exp)
    ensures V(Multiply(p, a, b)) == V(a) * V(b) && Multiply(p, a, b).exp == a.exp + b.exp
    ensures Multiply(p, a, b).neg <==> a.neg != b.neg
  {
    ExactProductValue(a, b);
    ShortIsFixed(p, ExactProduct(a, b));
  }

  lemma {:induction false} StripScaled(m: nat, k: nat, exp: int, ideal: int)
    requires ideal == exp + k
    ensures Strip(Scale(m, k), exp, ideal) == (m, ideal)
    decreases k
  {
    if k > 0 {
      StripScaled(m, k - 1, exp + 1, ideal);
    }
  }

  lemma {:induction false} ScaleProduct(n: nat, m: nat, k: nat, c: nat)
    requires c == n * m
    ensures Scale(c, k) == n * Scale(m, k)
    decreases k
  {
    if k > 0 {
      ScaleProduct(n, m, k - 1, c);
    }
  }

  lemma DivExact(num: nat, den: nat, q: nat)
    requires den > 0 && num == den * q
    ensures num / den == q && num % den == 0
  {
    var r, k, m := FloorOfQuotient(num, den);
    if r < q { TimesMonotone(den, r + 1, q); }
    if q < r { TimesMonotone(den, q + 1, r); }
  }

  /** What it means for the coefficients that a quotient is a whole number of units of the ideal exponent. */
  lemma WholeQuotient(a: Dec, b: Dec, m: nat)
    requires b.coef != 0 && V(b) != 0.0 && Abs(V(a) / V(b)) == Units(m, P(a.exp - b.exp))
    ensures a.coef == b.coef * m
  {
    var x, k := Units(m, P(a.exp - b.exp)), b.coef * m;
    UnitsNotNegative(a.coef, P(a.exp));
    UnitsNotNegative(b.coef, P(b.exp));
    assert x * Units(b.coef, P(b.exp)) == Units(a.coef, P(a.exp)) by { AbsQuotient(V(a), V(b), x); }
    QuotientUnits(a.coef, b.coef, a.exp - b.exp, b.exp, a.exp, x);
    UnitsNested(b.coef, m, P(a.exp - b.exp), k);
    SameUnits(a.coef, k, P(a.exp - b.exp));
  }

  lemma AbsQuotient(y: real, z: real, x: real)
    requires z != 0.0 && Abs(y / z) == x
    ensures x * Abs(z) == Abs(y)
  {
    var q := y / z;
    assert q * z == y;
  }

  /** An exact quotient keeps the difference of the exponents if it fits there; its sign is that of the
      operands' signs. */
  lemma QuotientIsIdeal(p: nat, a: Dec, b: Dec)
    requires p >= 1 && b.coef != 0 && V(b) != 0.0 && ExactAt(p, V(a) / V(b), a.exp - b.exp)
    ensures V(Divide(p, a, b)) == V(a) / V(b) && Divide(p, a, b).exp == a.exp - b.exp
    ensures Divide(p, a, b).neg <==> a.neg != b.neg
  {
    var m: nat :| m < Pow10(p) && Abs(V(a) / V(b)) == Units(m, P(a.exp - b.exp));
    WholeQuotient(a, b, m);
    if a.coef != 0 {
      ExactDivision(p, a, b, m);
    }
    DivideRounds(p, a, b);
    RoundsExact(p, V(a) / V(b), Divide(p, a, b)) by { QuotientRepresentable(p, a, b, m); }
  }

  lemma QuotientRepresentable(p: nat, a: Dec, b: Dec, m: nat)
    requires m < Pow10(p) && V(b) != 0.0 && Abs(V(a) / V(b)) == Units(m, P(a.exp - b.exp))
    ensures Representable(p, V(a) / V(b))
  {
    var d := Dec(V(a) / V(b) < 0.0, m, a.exp - b.exp);
    assert Short(p, d) && V(d) == V(a) / V(b);
  }

  lemma ExactDivision(p: nat, a: Dec, b: Dec, m: nat)
    requires p >= 1 && a.coef != 0 && b.coef != 0 && a.coef == b.coef * m && m < Pow10(p)
    ensures Divide(p, a, b) == Dec(a.neg != b.neg, m, a.exp - b.exp)
  {
    var num, den, shift := DivideIsQuotient(p, a, b);
    QuotientLong(num, den, p);
    if shift >= 0 {
      ScaleProduct(b.coef, m, shift, a.coef);
      DivExact(num, den, Scale(m, shift));
      StripScaled(m, shift, a.exp - b.exp - shift, a.exp - b.exp);
      DigitsAtMost(m, p);
    } else {
      AtMostFactor(num, b.coef, den, m);
      assert false;
    }
  }

  lemma AtMostFactor(num: nat, n: nat, den: nat, m: nat)
    requires 0 < n <= den && num == n * m
    ensures num / den <= m
  {
    TimesMonotone(m, n, den);
    var r, k, above := FloorOfQuotient(num, den);
    if m < r { TimesMonotone(den, m + 1, r); }
  }
}
