/** Rounding to a fixed number of decimal places: half up, ceiling and floor, and their laws. */
module Rounding {
  import opened PowersOfTen
  import opened Decimals

  datatype Mode = HalfUpMode | CeilingMode | FloorMode

  /** The exponent of the last decimal place kept. */
  function Place(scale: nat): int {
    var n: int := scale;
    -n
  }

  /** The coefficient kept when the last k digits of c go, for a number of the given sign. */
  function Cut(mode: Mode, neg: bool, c: nat, k: nat): nat {
    var q := Drop(c, k);
    var exact := Scale(q, k) == c;
    match mode
    case HalfUpMode => HalfUp(c, k)
    case CeilingMode => if neg || exact then q else q + 1
    case FloorMode => if !neg || exact then q else q + 1
  }

  /** d at exponent -scale, before the precision check of `quantize`. */
  function ToScale(d: Dec, scale: nat, mode: Mode): Dec {
    if d.exp >= Place(scale) then Dec(d.neg, Scale(d.coef, d.exp + scale), Place(scale))
    else Dec(d.neg, Cut(mode, d.neg, d.coef, Place(scale) - d.exp), Place(scale))
  }

  // ----- what the three modes mean on the number line -----

  ghost predicate Multiple(y: real, u: real) {
    exists m: int :: SignedUnits(m, u) == y
  }

  ghost predicate IsFloor(x: real, y: real, u: real) {
    Multiple(y, u) && y <= x < y + u
  }

  ghost predicate IsCeiling(x: real, y: real, u: real) {
    Multiple(y, u) && y - u < x <= y
  }

  /** A nearest multiple, on the same side of zero, ties away from zero. */
  ghost predicate IsHalfUp(x: real, y: real, u: real) {
    && Multiple(y, u)
    && Abs(x) - u / 2.0 < Abs(y) <= Abs(x) + u / 2.0
    && (x >= 0.0 ==> y >= 0.0) && (x <= 0.0 ==> y <= 0.0)
  }

  ghost predicate IsRounded(mode: Mode, x: real, y: real, u: real) {
    match mode
    case HalfUpMode => IsHalfUp(x, y, u)
    case CeilingMode => IsCeiling(x, y, u)
    case FloorMode => IsFloor(x, y, u)
  }

  lemma MultipleOf(neg: bool, m: nat, u: real)
    ensures Multiple(if neg then -Units(m, u) else Units(m, u), u)
  {
    UnitsOne(u);
    var n: int := m;
    var s := if neg then -n else n;
    assert SignedUnits(s, u) == if neg then -Units(m, u) else Units(m, u);
  }

  /** Dropping digits brackets the number between two multiples. */
  lemma DropValue(c: nat, k: nat, e: int)
    ensures Units(Drop(c, k), P(e + k)) <= Units(c, P(e)) < Units(Drop(c, k), P(e + k)) + P(e + k)
    ensures Scale(Drop(c, k), k) == c <==> Units(Drop(c, k), P(e + k)) == Units(c, P(e))
  {
    var q, u := Drop(c, k), P(e);
    DropBounds(c, k);
    UnitsScale(q, k, e, e + k);
    UnitsScale(q + 1, k, e, e + k);
    UnitsStep(q + 1, P(e + k));
    UnitsLe(Scale(q, k), c, u);
    UnitsGap(c, Scale(q + 1, k), u);
    if Scale(q, k) < c { UnitsGap(Scale(q, k), c, u); }
  }

  /** Rounding to a scale rounds to a multiple of 10^-scale in the chosen mode. */
  lemma ToScaleRounds(d: Dec, scale: nat, mode: Mode)
    ensures IsRounded(mode, V(d), V(ToScale(d, scale, mode)), P(Place(scale)))
  {
    var u := P(Place(scale));
    var r := ToScale(d, scale, mode);
    MultipleOf(r.neg, r.coef, u);
    SignOfValue(d);
    SignOfValue(r);
    if d.exp >= Place(scale) {
      UnitsScale(d.coef, d.exp + scale, Place(scale), d.exp);
    } else {
      var k: nat := Place(scale) - d.exp;
      var q := Drop(d.coef, k);
      DropValue(d.coef, k, d.exp);
      UnitsStep(q + 1, u);
      CutOnGrid(d.coef, d.exp, k);
      DropZero(k - 1);
    }
  }

  lemma {:induction false} DropZero(k: nat)
    ensures Drop(0, k) == 0
  {
    if k > 0 {
      DropZero(k - 1);
    }
  }

  // ----- laws on the number line -----

  /** Two multiples less than one unit apart are equal. */
  lemma MultiplesApart(y: real, z: real, u: real)
    requires u > 0.0 && Multiple(y, u) && Multiple(z, u)
    ensures y < z ==> y + u <= z
  {
    var m: int :| SignedUnits(m, u) == y;
    var n: int :| SignedUnits(n, u) == z;
    SignedUnitsOrder(m, n, u);
    if y < z {
      SignedUnitsAdd(m, n - m, u);
      UnitsNotNegative(n - m, u);
    }
  }

  lemma CoarseIsFine(y: real, n: nat, m: nat)
    requires n <= m && Multiple(y, P(Place(n)))
    ensures Multiple(y, P(Place(m)))
  {
    var s: int :| SignedUnits(s, P(Place(n))) == y;
    var c: nat := if s < 0 then -s else s;
    UnitsScale(c, m - n, Place(m), Place(n));
    MultipleOf(s < 0, Scale(c, m - n), P(Place(m)));
  }

  /** At most one unit separates a number from any of its roundings, so floor and ceiling are at most
      one unit apart, with the number between them. */
  lemma FloorBelowCeiling(x: real, f: real, c: real, u: real)
    requires u > 0.0 && IsFloor(x, f, u) && IsCeiling(x, c, u)
    ensures f <= x <= c && c - f <= u
  {
    if c - f > u {
      MultiplesApart(f, c, u);
      var n: int :| SignedUnits(n, u) == f;
      SignedUnitsAdd(n, 1, u);
      UnitsOne(u);
      assert Multiple(f + u, u) by { assert SignedUnits(n + 1, u) == f + u; }
      MultiplesApart(f + u, c, u);
    }
  }

  /** No multiple is nearer than the half-up rounding, and an equally near one is not further from zero. */
  lemma HalfUpNearest(x: real, y: real, u: real, z: real)
    requires u > 0.0 && IsHalfUp(x, y, u) && Multiple(z, u)
    ensures Abs(y - x) <= Abs(z - x) && 2.0 * Abs(y - x) <= u
    ensures Abs(y - x) == Abs(z - x) ==> Abs(z) <= Abs(y)
  {
    MultiplesApart(y, z, u);
    MultiplesApart(z, y, u);
  }

  lemma Monotone(mode: Mode, x: real, x': real, y: real, y': real, u: real)
    requires u > 0.0 && x <= x' && IsRounded(mode, x, y, u) && IsRounded(mode, x', y', u)
    ensures y <= y'
  {
    MultiplesApart(y', y, u);
  }

  /** Rounding is a function of the number alone. */
  lemma Unique(mode: Mode, x: real, y: real, y': real, u: real)
    requires u > 0.0 && IsRounded(mode, x, y, u) && IsRounded(mode, x, y', u)
    ensures y == y'
  {
    Monotone(mode, x, x, y, y', u);
    Monotone(mode, x, x, y', y, u);
  }

  // ----- laws of the operations on decimals -----

  /** Rounding twice to the same scale is rounding once. */
  lemma Idempotent(d: Dec, scale: nat, mode: Mode)
    ensures V(ToScale(ToScale(d, scale, mode), scale, mode)) == V(ToScale(d, scale, mode))
  {
    var once := ToScale(d, scale, mode);
    ToScaleRounds(d, scale, mode);
    ToScaleRounds(once, scale, mode);
    Unique(mode, V(once), V(once), V(ToScale(once, scale, mode)), P(Place(scale)));
  }

  lemma ScaleMonotoneLaw(a: Dec, b: Dec, scale: nat, mode: Mode)
    requires V(a) <= V(b)
    ensures V(ToScale(a, scale, mode)) <= V(ToScale(b, scale, mode))
  {
    ToScaleRounds(a, scale, mode);
    ToScaleRounds(b, scale, mode);
    Monotone(mode, V(a), V(b), V(ToScale(a, scale, mode)), V(ToScale(b, scale, mode)), P(Place(scale)));
  }

  /** floor <= x <= ceiling, at most 10^-scale apart, and half up is within half of that. */
  lemma ScaleBracket(d: Dec, scale: nat)
    ensures V(ToScale(d, scale, FloorMode)) <= V(d) <= V(ToScale(d, scale, CeilingMode))
    ensures V(ToScale(d, scale, CeilingMode)) - V(ToScale(d, scale, FloorMode)) <= P(Place(scale))
    ensures 2.0 * Abs(V(ToScale(d, scale, HalfUpMode)) - V(d)) <= P(Place(scale))
  {
    ToScaleRounds(d, scale, FloorMode);
    ToScaleRounds(d, scale, CeilingMode);
    ToScaleRounds(d, scale, HalfUpMode);
    FloorBelowCeiling(V(d), V(ToScale(d, scale, FloorMode)), V(ToScale(d, scale, CeilingMode)), P(Place(scale)));
    var y := V(ToScale(d, scale, HalfUpMode));
    HalfUpNearest(V(d), y, P(Place(scale)), y);
  }

  /** A floor of a floor at a finer scale is the coarse floor, and likewise for ceilings. */
  lemma Collapse(d: Dec, fine: nat, coarse: nat, mode: Mode)
    requires coarse <= fine && mode != HalfUpMode
    ensures V(ToScale(ToScale(d, fine, mode), coarse, mode)) == V(ToScale(d, coarse, mode))
  {
    var z := V(ToScale(d, fine, mode));
    var y := V(ToScale(d, coarse, mode));
    ToScaleRounds(d, fine, mode);
    ToScaleRounds(d, coarse, mode);
    ToScaleRounds(ToScale(d, fine, mode), coarse, mode);
    CoarseIsFine(y, coarse, fine);
    MultiplesApart(z, y, P(Place(fine)));
    MultiplesApart(y, z, P(Place(fine)));
    Unique(mode, z, y, V(ToScale(ToScale(d, fine, mode), coarse, mode)), P(Place(coarse)));
  }

  /** Half up does not collapse, but rounding twice errs by at most half a unit of each scale. */
  lemma DoubleHalfUp(d: Dec, fine: nat, coarse: nat)
    ensures 2.0 * Abs(V(ToScale(ToScale(d, fine, HalfUpMode), coarse, HalfUpMode)) - V(d))
            <= P(Place(fine)) + P(Place(coarse))
  {
    ScaleBracket(d, fine);
    ScaleBracket(ToScale(d, fine, HalfUpMode), coarse);
  }

  lemma SumOfMultiples(y: real, z: real, u: real)
    requires Multiple(y, u) && Multiple(z, u)
    ensures Multiple(y + z, u) && Multiple(y - z, u) && Multiple(-y, u)
  {
    var m: int :| SignedUnits(m, u) == y;
    var n: int :| SignedUnits(n, u) == z;
    SignedUnitsAdd(m, n, u);
    SignedUnitsAdd(m - n, n, u);
    assert SignedUnits(m + n, u) == y + z && SignedUnits(m - n, u) == y - z;
    assert SignedUnits(-m, u) == -y;
  }

  lemma NegatedHalfUp(x: real, y: real, u: real)
    requires IsHalfUp(x, y, u)
    ensures IsHalfUp(-x, -y, u)
  {
    SumOfMultiples(y, y, u);
  }

  /** Half a coarse unit is a whole number of finer units. */
  lemma HalfUnit(coarse: nat, fine: nat)
    requires coarse < fine
    ensures Multiple(P(Place(coarse)) / 2.0, P(Place(fine))) && P(Place(fine)) <= P(Place(coarse)) / 2.0
  {
    var u := P(Place(coarse + 1));
    PStep(Place(coarse));
    UnitsOfTen(u);
    UnitsAdd(5, 5, u);
    MultipleOf(false, 5, u);
    CoarseIsFine(P(Place(coarse)) / 2.0, coarse + 1, fine);
    PMonotone(Place(fine), Place(coarse + 1));
  }

  /** Rounding a number that is not negative half up, directly (w) and in two stages (y, then z). */
  lemma HalfUpTwice(x: real, y: real, z: real, w: real, f: real, u: real)
    requires 0.0 < f <= u / 2.0 && x >= 0.0 && Multiple(w - u / 2.0, f) && Multiple(w + u / 2.0, f)
    requires IsHalfUp(x, y, f) && IsHalfUp(y, z, u) && IsHalfUp(x, w, u)
    ensures z != w <==> Multiple(y - u / 2.0, u) && x < y
  {
    if x >= y {
      Monotone(HalfUpMode, y, x, z, w, u);
      MultiplesApart(z, w, u);
      MultiplesApart(y, w - u / 2.0, f);
    } else {
      Monotone(HalfUpMode, x, y, w, z, u);
      MultiplesApart(w, z, u);
      MultiplesApart(w + u / 2.0, y, f);
      if Multiple(y - u / 2.0, u) {
        MultiplesApart(y - u / 2.0, z, u);
      }
    }
  }

  /** The magnitude lies exactly between two neighbours at the unit. */
  ghost predicate OnHalf(y: real, u: real) {
    Multiple(Abs(y) - u / 2.0, u)
  }

  /** Half up in two stages differs from half up at once exactly when the finer stage has rounded away from
      zero onto a number halfway between two coarse neighbours. */
  lemma HalfUpCollapsesIff(d: Dec, fine: nat, coarse: nat)
    requires coarse <= fine
    ensures var y := ToScale(d, fine, HalfUpMode);
            V(ToScale(y, coarse, HalfUpMode)) != V(ToScale(d, coarse, HalfUpMode))
            <==> OnHalf(V(y), P(Place(coarse))) && Abs(V(d)) < Abs(V(y))
  {
    var f, u := P(Place(fine)), P(Place(coarse));
    var once := ToScale(d, fine, HalfUpMode);
    var x, y, z, w := V(d), V(once), V(ToScale(once, coarse, HalfUpMode)), V(ToScale(d, coarse, HalfUpMode));
    ToScaleRounds(d, fine, HalfUpMode);
    ToScaleRounds(once, coarse, HalfUpMode);
    ToScaleRounds(d, coarse, HalfUpMode);
    if coarse == fine {
      Idempotent(d, fine, HalfUpMode);
      NotOnHalf(y, u);
    } else {
      HalfUnit(coarse, fine);
      CoarseIsFine(w, coarse, fine);
      if x >= 0.0 {
        SumOfMultiples(w, u / 2.0, f);
        HalfUpTwice(x, y, z, w, f, u);
      } else {
        HalfUpTwiceBelowZero(x, y, z, w, f, u);
      }
    }
  }

  lemma HalfUpTwiceBelowZero(x: real, y: real, z: real, w: real, f: real, u: real)
    requires 0.0 < f <= u / 2.0 && x < 0.0 && Multiple(w, f) && Multiple(u / 2.0, f)
    requires IsHalfUp(x, y, f) && IsHalfUp(y, z, u) && IsHalfUp(x, w, u)
    ensures z != w <==> OnHalf(y, u) && Abs(x) < Abs(y)
  {
    SumOfMultiples(w, w, f);
    SumOfMultiples(-w, u / 2.0, f);
    NegatedHalfUp(x, y, f);
    NegatedHalfUp(y, z, u);
    NegatedHalfUp(x, w, u);
    HalfUpTwice(-x, -y, -z, -w, f, u);
  }

  lemma NotOnHalf(y: real, u: real)
    requires u > 0.0 && Multiple(y, u)
    ensures !OnHalf(y, u)
  {
    if OnHalf(y, u) {
      SumOfMultiples(y, y, u);
      MultiplesApart(Abs(y) - u / 2.0, Abs(y), u);
    }
  }

  /** 0.45 rounded to one place and then to none gives 1, not 0. */
  lemma HalfUpDoesNotCollapse()
    ensures ToScale(ToScale(Dec(false, 45, -2), 1, HalfUpMode), 0, HalfUpMode) == Dec(false, 1, 0)
    ensures ToScale(Dec(false, 45, -2), 0, HalfUpMode) == Dec(false, 0, 0)
  {
    assert Drop(45, 1) == 4;
    assert HalfUp(45, 1) == 5 && HalfUp(45, 2) == 0 && HalfUp(5, 1) == 1;
  }
}
