/** Finite decimals in a context of bounded precision, rounding half up, as in the General Decimal
    Arithmetic specification. `p` is the number of digits the context keeps. */
module Decimals {
  import opened PowersOfTen

  /** (-1)^neg * coef * 10^exp. Zero keeps its sign and exponent. */
  datatype Dec = Dec(neg: bool, coef: nat, exp: int)

  function Negate(d: Dec): Dec {
    d.(neg := !d.neg)
  }

  // ----- rounding to the context -----

  /** Keep all but the last k digits, looking at the first digit dropped. */
  function HalfUp(c: nat, k: nat): nat {
    if k == 0 then c else (Drop(c, k - 1) + 5) / 10
  }

  /** Finish an operation: keep at most p digits, with carry. */
  function Fix(p: nat, d: Dec): Dec
    requires p >= 1
  {
    if Digits(d.coef) <= p then d
    else
      var k := Digits(d.coef) - p;
      var q := HalfUp(d.coef, k);
      if q == Pow10(p) then Dec(d.neg, Pow10(p - 1), d.exp + k + 1) else Dec(d.neg, q, d.exp + k)
  }

  // ----- the operations -----

  function FromSigned(s: int, negZero: bool, exp: int): Dec {
    if s < 0 then Dec(true, -s, exp) else if s > 0 then Dec(false, s, exp) else Dec(negZero, 0, exp)
  }

  function MinExp(a: Dec, b: Dec): int {
    if a.exp <= b.exp then a.exp else b.exp
  }

  /** The signed coefficient of d at a smaller exponent. */
  function AtExp(d: Dec, e: int): int
    requires e <= d.exp
  {
    var c: int := Scale(d.coef, d.exp - e);
    if d.neg then -c else c
  }

  function ExactSum(a: Dec, b: Dec): Dec {
    var e := MinExp(a, b);
    FromSigned(AtExp(a, e) + AtExp(b, e), a.neg && b.neg, e)
  }

  function Add(p: nat, a: Dec, b: Dec): Dec
    requires p >= 1
  {
    Fix(p, ExactSum(a, b))
  }

  function Subtract(p: nat, a: Dec, b: Dec): Dec
    requires p >= 1
  {
    Add(p, a, Negate(b))
  }

  function ExactProduct(a: Dec, b: Dec): Dec {
    Dec(a.neg != b.neg, a.coef * b.coef, a.exp + b.exp)
  }

  function Multiply(p: nat, a: Dec, b: Dec): Dec
    requires p >= 1
  {
    Fix(p, ExactProduct(a, b))
  }

  function Less(a: Dec, b: Dec): bool {
    var e := MinExp(a, b);
    AtExp(a, e) < AtExp(b, e)
  }

  function Equal(a: Dec, b: Dec): bool {
    var e := MinExp(a, b);
    AtExp(a, e) == AtExp(b, e)
  }

  // ----- values -----

  ghost function SignedUnits(s: int, u: real): real {
    if s < 0 then -Units(-s, u) else Units(s, u)
  }

  /** The number a decimal stands for. */
  ghost function V(d: Dec): real {
    if d.neg then -Units(d.coef, P(d.exp)) else Units(d.coef, P(d.exp))
  }

  ghost function Abs(x: real): real {
    if x < 0.0 then -x else x
  }

  lemma Rescale(d: Dec, e: int)
    requires e <= d.exp
    ensures V(d) == SignedUnits(AtExp(d, e), P(e))
  {
    UnitsScale(d.coef, d.exp - e, e, d.exp);
  }

  lemma SignedUnitsAdd(x: int, y: int, u: real)
    ensures SignedUnits(x + y, u) == SignedUnits(x, u) + SignedUnits(y, u)
  {
    if x >= 0 && y >= 0 {
      UnitsAdd(x, y, u);
    } else if x < 0 && y < 0 {
      UnitsAdd(-x, -y, u);
    } else if x + y >= 0 {
      if x < 0 { UnitsAdd(x + y, -x, u); } else { UnitsAdd(x + y, -y, u); }
    } else {
      if x < 0 { UnitsAdd(-(x + y), y, u); } else { UnitsAdd(-(x + y), x, u); }
    }
  }

  lemma SignedUnitsOrder(x: int, y: int, u: real)
    requires u > 0.0
    ensures x < y <==> SignedUnits(x, u) < SignedUnits(y, u)
    ensures x == y <==> SignedUnits(x, u) == SignedUnits(y, u)
  {
    SignedUnitsAdd(x, y - x, u);
    UnitsOne(u);
    if x < y {
      UnitsNotNegative(y - x, u);
    } else if x > y {
      UnitsNotNegative(x - y, u);
    }
  }

  lemma ExactSumValue(a: Dec, b: Dec)
    ensures V(ExactSum(a, b)) == V(a) + V(b)
  {
    var e := MinExp(a, b);
    Rescale(a, e);
    Rescale(b, e);
    UnitsOne(P(e));
    SignedUnitsAdd(AtExp(a, e), AtExp(b, e), P(e));
  }

  lemma OrderValue(a: Dec, b: Dec)
    ensures Less(a, b) <==> V(a) < V(b)
    ensures Equal(a, b) <==> V(a) == V(b)
  {
    var e := MinExp(a, b);
    Rescale(a, e);
    Rescale(b, e);
    SignedUnitsOrder(AtExp(a, e), AtExp(b, e), P(e));
  }

  lemma SignOfValue(d: Dec)
    ensures d.neg ==> V(d) <= 0.0
    ensures !d.neg ==> V(d) >= 0.0
    ensures V(d) == 0.0 <==> d.coef == 0
  {
    UnitsOne(P(d.exp));
    UnitsNotNegative(d.coef, P(d.exp));
  }

  lemma OneFewer(m: nat, n: nat, k: nat) returns (less: nat)
    requires m > 0 && k == m * n
    ensures less == (m - 1) * n && k == less + n
  {
    less := (m - 1) * n;
  }

  lemma {:induction false} ProductOfUnits(m: nat, u: real, n: nat, y: real, k: nat, w: real)
    requires k == m * n && Units(n, w) == u * y
    ensures Units(k, w) == Units(m, u) * y
  {
    UnitsStep(m, u);
    UnitsOne(w);
    if m > 0 {
      var less := OneFewer(m, n, k);
      ProductOfUnits(m - 1, u, n, y, less, w);
      UnitsAdd(less, n, w);
    }
  }

  function WithSign(neg: bool, x: real): real {
    if neg then -x else x
  }

  lemma ExactProductValue(a: Dec, b: Dec)
    ensures V(ExactProduct(a, b)) == V(a) * V(b)
  {
    var r := ExactProduct(a, b);
    ProductValue(a, b, r);
  }

  lemma MagnitudeProduct(a: Dec, b: Dec, r: Dec)
    requires r.coef == a.coef * b.coef && r.exp == a.exp + b.exp
    ensures Units(r.coef, P(r.exp)) == Units(a.coef, P(a.exp)) * Units(b.coef, P(b.exp))
  {
    PowerTimesUnits(a.exp, b.coef, b.exp, r.exp);
    ProductOfUnits(a.coef, P(a.exp), b.coef, Units(b.coef, P(b.exp)), r.coef, P(r.exp));
  }

  lemma ProductValue(a: Dec, b: Dec, r: Dec)
    requires r.coef == a.coef * b.coef && r.exp == a.exp + b.exp && r.neg == (a.neg != b.neg)
    ensures V(r) == V(a) * V(b)
  {
    MagnitudeProduct(a, b, r);
  }

  // ----- correct rounding -----

  predicate Short(p: nat, d: Dec) {
    d.coef < Pow10(p)
  }

  ghost predicate Representable(p: nat, x: real) {
    exists d: Dec :: Short(p, d) && V(d) == x
  }

  /** x is no further from r than from c, and an equally near c is not larger in magnitude. */
  ghost predicate NoCloser(x: real, r: real, c: real) {
    && Abs(r - x) <= Abs(c - x)
    && (Abs(r - x) == Abs(c - x) ==> Abs(c) <= Abs(r))
  }

  /** `r` is the p-digit decimal nearest to `x`; of two equally near ones, the larger in magnitude. */
  ghost predicate Rounds(p: nat, x: real, r: Dec) {
    && Short(p, r)
    && forall c: Dec :: Short(p, c) ==> NoCloser(x, V(r), V(c))
  }

  /** The error is zero, or the result has exactly p digits and errs by at most half of its last one. */
  ghost predicate WithinHalfUnit(p: nat, x: real, r: Dec)
    requires p >= 1
  {
    V(r) == x || (Pow10(p - 1) <= r.coef < Pow10(p) && 2.0 * Abs(V(r) - x) <= P(r.exp))
  }

  /** A correctly rounded result of a representable value is exact. */
  lemma RoundsExact(p: nat, x: real, r: Dec)
    requires Rounds(p, x, r) && Representable(p, x)
    ensures V(r) == x
  {
    var d: Dec :| Short(p, d) && V(d) == x;
    assert NoCloser(x, V(r), V(d));
  }

  /** v is within half a unit of x, the half-way case upwards. */
  ghost predicate OnGrid(x: real, v: real, u: real) {
    x - u / 2.0 < v <= x + u / 2.0
  }

  lemma GridNearest(x: real, u: real, q: nat, m: nat)
    requires x >= 0.0 && u > 0.0 && OnGrid(x, Units(q, u), u)
    ensures NoCloser(x, Units(q, u), Units(m, u))
  {
    UnitsNotNegative(q, u);
    UnitsNotNegative(m, u);
    if m > q { UnitsGap(q, m, u); } else if m < q { UnitsGap(m, q, u); }
  }

  /** A non-negative p-digit decimal is below 10^(p-1) units or a whole number of units. */
  lemma CandidateOnGrid(p: nat, c: Dec, e: int)
    requires p >= 1 && Short(p, c) && !c.neg
    ensures c.exp >= e ==> V(c) == Units(Scale(c.coef, c.exp - e), P(e))
    ensures c.exp < e ==> V(c) < Units(Pow10(p - 1), P(e))
  {
    if c.exp >= e {
      Rescale(c, e);
    } else {
      var k := e - 1 - c.exp;
      var t := Pow10(p);
      UnitsGap(c.coef, t, P(c.exp));
      UnitsScale(t, k, c.exp, e - 1);
      PStep(e);
      UnitsTen(Pow10(p - 1), P(e - 1), P(e));
      if t < Scale(t, k) { UnitsGap(t, Scale(t, k), P(c.exp)); }
    }
  }

  /** Rounding on the grid of the p-th digit is rounding to the nearest p-digit decimal. */
  lemma GridRounds(p: nat, x: real, q: nat, e: int, r: Dec)
    requires p >= 1 && Units(Pow10(p - 1), P(e)) <= x && OnGrid(x, Units(q, P(e)), P(e))
    requires Short(p, r) && !r.neg && V(r) == Units(q, P(e))
    ensures Rounds(p, x, r)
  {
    var u, least := P(e), Units(Pow10(p - 1), P(e));
    UnitsNotNegative(Pow10(p - 1), u);
    GridNearest(x, u, q, Pow10(p - 1));
    UnitsNotNegative(q, u);
    forall c: Dec | Short(p, c)
      ensures NoCloser(x, V(r), V(c))
    {
      SignOfValue(c);
      if !c.neg {
        CandidateOnGrid(p, c, e);
        if c.exp >= e {
          GridNearest(x, u, q, Scale(c.coef, c.exp - e));
        }
      }
    }
  }

  lemma Mirror(p: nat, x: real, r: Dec)
    requires p >= 1 && Rounds(p, x, r)
    ensures Rounds(p, -x, Negate(r))
    ensures WithinHalfUnit(p, x, r) ==> WithinHalfUnit(p, -x, Negate(r))
  {
    forall c: Dec | Short(p, c)
      ensures NoCloser(-x, V(Negate(r)), V(c))
    {
      assert Short(p, Negate(c));
      assert NoCloser(x, V(r), V(Negate(c)));
    }
  }

  lemma HalfUpLower(c: nat, k: nat, d: nat, q: nat)
    requires k >= 1 && d == Drop(c, k - 1) && 10 * q <= d + 5
    ensures Scale(q, k) <= c + Scale(5, k - 1)
  {
    DropBounds(c, k - 1);
    ScaleSum(d, 5, k - 1);
    TenScale(q, k);
    ScaleAtMost(10 * q, d + 5, k - 1);
  }

  lemma HalfUpUpper(c: nat, k: nat, d: nat, q: nat)
    requires k >= 1 && d == Drop(c, k - 1) && d + 6 <= 10 * q
    ensures c + Scale(5, k - 1) < Scale(q, k)
  {
    DropBounds(c, k - 1);
    ScaleSum(d + 1, 5, k - 1);
    TenScale(q, k);
    ScaleAtMost(d + 6, 10 * q, k - 1);
  }

  /** Looking at one digit rounds half up: q is the multiple of 10^k nearest to c, ties upwards. */
  lemma HalfUpBounds(c: nat, k: nat)
    requires k >= 1
    ensures Scale(HalfUp(c, k), k) <= c + Scale(5, k - 1)
    ensures c + Scale(5, k - 1) < Scale(HalfUp(c, k) + 1, k)
    ensures 2 * Scale(5, k - 1) == Pow10(k)
  {
    HalfUpLower(c, k, Drop(c, k - 1), HalfUp(c, k));
    HalfUpUpper(c, k, Drop(c, k - 1), HalfUp(c, k) + 1);
    ScaleSum(5, 5, k - 1);
    TenScale(1, k);
  }

  lemma TenScale(c: nat, k: nat)
    requires k >= 1
    ensures Scale(c, k) == Scale(10 * c, k - 1)
  {
    ScaleMore(c, 1, k - 1);
    assert Scale(c, 1) == 10 * c;
  }

  lemma ScaleAtMost(a: nat, b: nat, k: nat)
    requires a <= b
    ensures Scale(a, k) <= Scale(b, k)
  {
    if a < b { ScaleMonotone(a, b, k); }
  }

  lemma HalfUpAtLeast(c: nat, p: nat, k: nat)
    requires p >= 1 && k >= 1 && Pow10(p + k - 1) <= c
    ensures Pow10(p - 1) <= HalfUp(c, k)
  {
    var q := HalfUp(c, k);
    HalfUpBounds(c, k);
    ScaleMore(1, p - 1, k);
    if q + 1 <= Pow10(p - 1) {
      ScaleAtMost(q + 1, Pow10(p - 1), k);
    }
  }

  lemma HalfUpAtMost(c: nat, p: nat, k: nat)
    requires k >= 1 && c < Pow10(p + k)
    ensures HalfUp(c, k) <= Pow10(p)
  {
    var q := HalfUp(c, k);
    HalfUpBounds(c, k);
    ScaleMore(1, p, k);
    ScaleSum(Pow10(p), 1, k);
    if q >= Pow10(p) + 1 {
      ScaleAtMost(Pow10(p) + 1, q, k);
    }
  }

  /** The rounded coefficient of a number with p + k digits has p digits, or is 10^p. */
  lemma HalfUpRange(c: nat, p: nat, k: nat)
    requires p >= 1 && k >= 1 && Digits(c) == p + k
    ensures Pow10(p - 1) <= HalfUp(c, k) <= Pow10(p)
  {
    DigitsBounds(c);
    HalfUpAtLeast(c, p, k);
    HalfUpAtMost(c, p, k);
  }

  /** The shared last step of every operation: if the coefficient, cut to its first p digits, is the
      grid point of x, then the result is correctly rounded. */
  lemma FixOnGrid(p: nat, d: Dec, x: real)
    requires p >= 1 && Digits(d.coef) > p && !d.neg
    requires var k := Digits(d.coef) - p;
             && Units(Pow10(p - 1), P(d.exp + k)) <= x
             && OnGrid(x, Units(HalfUp(d.coef, k), P(d.exp + k)), P(d.exp + k))
    ensures Rounds(p, x, Fix(p, d)) && WithinHalfUnit(p, x, Fix(p, d))
  {
    var k := Digits(d.coef) - p;
    var e := d.exp + k;
    var q := HalfUp(d.coef, k);
    HalfUpRange(d.coef, p, k);
    PStep(e + 1);
    if q == Pow10(p) {
      UnitsTen(Pow10(p - 1), P(e), P(e + 1));
      PowMonotone(p - 1, p);
    }
    GridRounds(p, x, q, e, Fix(p, d));
  }

  lemma LongOnGrid(p: nat, d: Dec)
    requires p >= 1 && Digits(d.coef) > p && !d.neg
    ensures var k := Digits(d.coef) - p;
            && Units(Pow10(p - 1), P(d.exp + k)) <= V(d)
            && OnGrid(V(d), Units(HalfUp(d.coef, k), P(d.exp + k)), P(d.exp + k))
  {
    var k := Digits(d.coef) - p;
    var q := HalfUp(d.coef, k);
    var u := P(d.exp);
    DigitsBounds(d.coef);
    ScaleMore(1, p - 1, k);
    UnitsScale(Pow10(p - 1), k, d.exp, d.exp + k);
    UnitsLe(Pow10(p - 1 + k), d.coef, u);
    CutOnGrid(d.coef, d.exp, k);
  }

  lemma CutOnGrid(c: nat, e: int, k: nat)
    requires k >= 1
    ensures OnGrid(Units(c, P(e)), Units(HalfUp(c, k), P(e + k)), P(e + k))
  {
    var q, h, u := HalfUp(c, k), Scale(5, k - 1), P(e);
    HalfUpBounds(c, k);
    UnitsScale(q, k, e, e + k);
    UnitsScale(1, k, e, e + k);
    ScaleSum(q, 1, k);
    UnitsAdd(h, h, u);
    UnitsAdd(c, h, u);
    UnitsAdd(Scale(q, k), Pow10(k), u);
    UnitsOne(P(e + k));
    UnitsLe(Scale(q, k), c + h, u);
    UnitsGap(c + h, Scale(q, k) + Pow10(k), u);
  }

  /** Rounding an exact intermediate result. */
  lemma FixRounds(p: nat, d: Dec)
    requires p >= 1
    ensures Rounds(p, V(d), Fix(p, d)) && WithinHalfUnit(p, V(d), Fix(p, d))
  {
    DigitsAtMost(d.coef, p);
    if Digits(d.coef) <= p {
    } else {
      var m := d.(neg := false);
      LongOnGrid(p, m);
      FixOnGrid(p, m, V(m));
      if d.neg {
        Mirror(p, V(m), Fix(p, m));
        assert Fix(p, d) == Negate(Fix(p, m));
      }
    }
  }

  // ----- addition, subtraction and multiplication are correctly rounded -----

  lemma AddRounds(p: nat, a: Dec, b: Dec)
    requires p >= 1
    ensures Rounds(p, V(a) + V(b), Add(p, a, b)) && WithinHalfUnit(p, V(a) + V(b), Add(p, a, b))
  {
    ExactSumValue(a, b);
    FixRounds(p, ExactSum(a, b));
  }

  lemma SubtractRounds(p: nat, a: Dec, b: Dec)
    requires p >= 1
    ensures Rounds(p, V(a) - V(b), Subtract(p, a, b)) && WithinHalfUnit(p, V(a) - V(b), Subtract(p, a, b))
  {
    AddRounds(p, a, Negate(b));
  }

  lemma MultiplyRounds(p: nat, a: Dec, b: Dec)
    requires p >= 1
    ensures Rounds(p, V(a) * V(b), Multiply(p, a, b)) && WithinHalfUnit(p, V(a) * V(b), Multiply(p, a, b))
  {
    ExactProductValue(a, b);
    FixRounds(p, ExactProduct(a, b));
  }
}
