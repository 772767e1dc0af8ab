/** What the 50-digit evaluator computes when nothing has to be rounded: if every intermediate result of
    exact arithmetic over the reals needs at most 50 digits, the evaluator returns the exact answer. */
module CalculatorExact {
  import opened Prelude
  import opened PowersOfTen
  import opened Decimals
  import opened Division
  import opened Rounding
  import opened Calculator
  import opened CalculatorTrace

  /** A value of exact arithmetic. */
  datatype Exact = Amount(x: real) | Truth(b: bool)

  ghost predicate Fits50(x: real) {
    Representable(PREC, x)
  }

  // ----- exact arithmetic, one operation at a time -----

  /** s is the sum of xs from acc, and every partial sum fits. */
  ghost predicate SumIs(acc: real, xs: seq<real>, s: real)
    decreases |xs|
  {
    if xs == [] then s == acc else Fits50(acc + xs[0]) && SumIs(acc + xs[0], xs[1..], s)
  }

  ghost predicate ProductIs(acc: real, xs: seq<real>, s: real)
    decreases |xs|
  {
    if xs == [] then s == acc else Fits50(acc * xs[0]) && ProductIs(acc * xs[0], xs[1..], s)
  }

  ghost predicate IsMax(xs: seq<real>, m: real) {
    m in xs && forall i :: 0 <= i < |xs| ==> xs[i] <= m
  }

  ghost predicate IsMin(xs: seq<real>, m: real) {
    m in xs && forall i :: 0 <= i < |xs| ==> m <= xs[i]
  }

  function Holds(c: Comparator, x: real, y: real): bool {
    match c
    case EQ => x == y
    case NE => x != y
    case GT => x > y
    case GTE => x >= y
    case LT => x < y
    case LTE => x <= y
  }

  ghost predicate QuotientIs(x: real, y: real, v: real) {
    y != 0.0 && v == x / y && Fits50(v)
  }

  ghost predicate PercentIs(x: real, y: real, v: real) {
    Fits50(x * y) && v == x * y / 100.0 && Fits50(v)
  }

  /** `v` is the exact result of the operation on `xs`, and it and every intermediate value fit. */
  ghost predicate NumberIs(op: Operation, scale: Option<nat>, xs: seq<real>, v: real) {
    match op
    case Sum => xs != [] && SumIs(0.0, xs, v)
    case Difference => |xs| == 2 && v == xs[0] - xs[1] && Fits50(v)
    case Product => |xs| >= 2 && ProductIs(1.0, xs, v)
    case Quotient => |xs| == 2 && QuotientIs(xs[0], xs[1], v)
    case Maximum => IsMax(xs, v)
    case Minimum => IsMin(xs, v)
    case Percent => |xs| == 2 && PercentIs(xs[0], xs[1], v)
    case Compare => false
    case Round => |xs| == 1 && IsHalfUp(xs[0], v, P(Place(Scaled(scale)))) && BelowLimit(v, Scaled(scale))
    case Ceil => |xs| == 1 && IsCeiling(xs[0], v, P(Place(Scaled(scale)))) && BelowLimit(v, Scaled(scale))
    case Floor => |xs| == 1 && IsFloor(xs[0], v, P(Place(Scaled(scale)))) && BelowLimit(v, Scaled(scale))
  }

  /** The scale of a rounding node; zero when absent. */
  function Scaled(scale: Option<nat>): nat {
    if scale.Some? then scale.value else 0
  }

  /** At most 50 digits at this scale. */
  ghost predicate BelowLimit(v: real, scale: nat) {
    Abs(v) < Units(Pow10(PREC), P(Place(scale)))
  }

  ghost predicate AllAmounts(vs: seq<Exact>) {
    forall i :: 0 <= i < |vs| ==> vs[i].Amount?
  }

  ghost function Amounts(vs: seq<Exact>): (r: seq<real>)
    requires AllAmounts(vs)
    ensures |r| == |vs|
  {
    seq(|vs|, i requires 0 <= i < |vs| => vs[i].x)
  }

  ghost predicate ResultIs(e: Expr, vs: seq<Exact>, v: Exact) {
    && AllAmounts(vs)
    && (match v
        case Truth(b) =>
          e.op.Compare? && |vs| == 2 && e.comparator.Some? && b == Holds(e.comparator.value, vs[0].x, vs[1].x)
        case Amount(x) => e.comparator.None? && NumberIs(e.op, e.scale, Amounts(vs), x))
  }

  /** The exact meaning of an expression whose intermediate values all fit. */
  ghost predicate Means(e: Expr, v: Exact)
    decreases e, 1
  {
    exists vs: seq<Exact> :: AllMean(e.operands, vs) && ResultIs(e, vs, v)
  }

  ghost predicate OperandMeans(operand: Operand, v: Exact)
    decreases operand, 2
  {
    match operand
    case Literal(d) => v == Amount(V(d))
    case Nested(e) => Means(e, v)
  }

  ghost predicate AllMean(ops: seq<Operand>, vs: seq<Exact>)
    decreases ops, 0
  {
    if ops == [] then vs == []
    else vs != [] && OperandMeans(ops[0], vs[0]) && AllMean(ops[1..], vs[1..])
  }

  // ----- the evaluator agrees -----

  /** A computed value stands for an exact one. */
  ghost predicate Denotes(w: Value, v: Exact) {
    match v
    case Amount(x) => w.Number? && V(w.dec) == x
    case Truth(b) => w == Flag(b)
  }

  ghost predicate AllDenote(ws: seq<Value>, vs: seq<Exact>) {
    |ws| == |vs| && forall i :: 0 <= i < |ws| ==> Denotes(ws[i], vs[i])
  }

  ghost predicate Values(ds: seq<Dec>, xs: seq<real>) {
    |ds| == |xs| && forall i :: 0 <= i < |ds| ==> V(ds[i]) == xs[i]
  }

  lemma {:induction false} SumExact(acc: Dec, ds: seq<Dec>, a: real, xs: seq<real>, s: real)
    requires V(acc) == a && Values(ds, xs) && SumIs(a, xs, s)
    ensures V(SumFrom(acc, ds)) == s
    decreases |ds|
  {
    if ds != [] {
      AddRounds(PREC, acc, ds[0]);
      RoundsExact(PREC, a + xs[0], Add(PREC, acc, ds[0]));
      SumExact(Add(PREC, acc, ds[0]), ds[1..], a + xs[0], xs[1..], s);
    }
  }

  lemma {:induction false} ProductExact(acc: Dec, ds: seq<Dec>, a: real, xs: seq<real>, s: real)
    requires V(acc) == a && Values(ds, xs) && ProductIs(a, xs, s)
    ensures V(ProductFrom(acc, ds)) == s
    decreases |ds|
  {
    if ds != [] {
      var z := a * xs[0];
      MultiplyExact(acc, ds[0], z);
      ProductExact(Multiply(PREC, acc, ds[0]), ds[1..], z, xs[1..], s);
    }
  }

  lemma MultiplyExact(a: Dec, b: Dec, z: real)
    requires z == V(a) * V(b) && Fits50(z)
    ensures V(Multiply(PREC, a, b)) == z
  {
    MultiplyRounds(PREC, a, b);
    RoundsExact(PREC, z, Multiply(PREC, a, b));
  }

  lemma DivideExact(a: Dec, b: Dec, z: real)
    requires V(b) != 0.0 && z == V(a) / V(b) && Fits50(z)
    ensures b.coef != 0 && V(Divide(PREC, a, b)) == z
  {
    SignOfValue(b);
    DivideRounds(PREC, a, b);
    RoundsExact(PREC, z, Divide(PREC, a, b));
  }

  lemma {:induction false} MaxOf(best: Dec, ds: seq<Dec>)
    ensures V(MaxFrom(best, ds)) >= V(best) && forall i :: 0 <= i < |ds| ==> V(ds[i]) <= V(MaxFrom(best, ds))
    ensures MaxFrom(best, ds) == best || MaxFrom(best, ds) in ds
    decreases |ds|
  {
    if ds != [] {
      OrderValue(best, ds[0]);
      MaxOf(if Less(best, ds[0]) then ds[0] else best, ds[1..]);
    }
  }

  lemma {:induction false} MinOf(best: Dec, ds: seq<Dec>)
    ensures V(MinFrom(best, ds)) <= V(best) && forall i :: 0 <= i < |ds| ==> V(ds[i]) >= V(MinFrom(best, ds))
    ensures MinFrom(best, ds) == best || MinFrom(best, ds) in ds
    decreases |ds|
  {
    if ds != [] {
      OrderValue(ds[0], best);
      MinOf(if Less(ds[0], best) then ds[0] else best, ds[1..]);
    }
  }

  lemma MaxExact(ds: seq<Dec>, xs: seq<real>, m: real)
    requires Values(ds, xs) && IsMax(xs, m)
    ensures ds != [] && V(MaxFrom(ds[0], ds[1..])) == m
  {
    var k :| 0 <= k < |xs| && xs[k] == m;
    MaxOf(ds[0], ds[1..]);
    var best := MaxFrom(ds[0], ds[1..]);
    assert V(ds[k]) <= V(best) by { if k > 0 { assert ds[1..][k - 1] == ds[k]; } }
    var i :| 0 <= i < |ds| && ds[i] == best;
    assert xs[i] == V(best);
  }

  lemma MinExact(ds: seq<Dec>, xs: seq<real>, m: real)
    requires Values(ds, xs) && IsMin(xs, m)
    ensures ds != [] && V(MinFrom(ds[0], ds[1..])) == m
  {
    var k :| 0 <= k < |xs| && xs[k] == m;
    MinOf(ds[0], ds[1..]);
    var best := MinFrom(ds[0], ds[1..]);
    assert V(ds[k]) >= V(best) by { if k > 0 { assert ds[1..][k - 1] == ds[k]; } }
    var i :| 0 <= i < |ds| && ds[i] == best;
    assert xs[i] == V(best);
  }

  /** `quantize` succeeds exactly when the rounded number is below 10^50 units of the last place kept. */
  lemma QuantizeIff(d: Dec, scale: nat, mode: Mode)
    ensures Quantize(d, scale, mode).Ok?
            <==> BelowLimit(V(ToScale(d, scale, mode)), scale)
  {
    var r := ToScale(d, scale, mode);
    var u := P(Place(scale));
    DigitsAtMost(r.coef, PREC);
    UnitsNotNegative(r.coef, u);
    if r.coef < Pow10(PREC) {
      UnitsGap(r.coef, Pow10(PREC), u);
    } else {
      UnitsLe(Pow10(PREC), r.coef, u);
    }
  }

  lemma QuantizeExact(d: Dec, scale: nat, mode: Mode, v: real)
    requires IsRounded(mode, V(d), v, P(Place(scale))) && BelowLimit(v, scale)
    ensures Quantize(d, scale, mode).Ok? && V(Quantize(d, scale, mode).value) == v
  {
    ToScaleRounds(d, scale, mode);
    Unique(mode, V(d), v, V(ToScale(d, scale, mode)), P(Place(scale)));
    QuantizeIff(d, scale, mode);
  }

  lemma HundredValue()
    ensures V(HUNDRED) == 100.0 && V(ZERO) == 0.0 && V(ONE) == 1.0
  {
    UnitsOne(1.0);
    UnitsOfTen(1.0);
    UnitsTen(10, 1.0, 10.0);
    UnitsOfTen(10.0);
  }

  lemma QuotientExact(a: Dec, b: Dec, v: real)
    requires QuotientIs(V(a), V(b), v)
    ensures b.coef != 0 && V(Divide(PREC, a, b)) == v
  {
    DivideExact(a, b, v);
  }

  lemma PercentExact(a: Dec, b: Dec, v: real)
    requires PercentIs(V(a), V(b), v)
    ensures V(Divide(PREC, Multiply(PREC, a, b), HUNDRED)) == v
  {
    HundredValue();
    MultiplyExact(a, b, V(a) * V(b));
    DivideExact(Multiply(PREC, a, b), HUNDRED, v);
  }

  lemma NumbersExact(op: Operation, scale: Option<nat>, ds: seq<Dec>, xs: seq<real>, v: real)
    requires Values(ds, xs) && NumberIs(op, scale, xs, v)
    ensures ds != [] && ApplyNumbers(op, scale, ds).Ok? && V(ApplyNumbers(op, scale, ds).value) == v
  {
    HundredValue();
    match op
    case Sum => SumExact(ZERO, ds, 0.0, xs, v);
    case Difference =>
      SubtractRounds(PREC, ds[0], ds[1]);
      RoundsExact(PREC, v, Subtract(PREC, ds[0], ds[1]));
    case Product => ProductExact(ONE, ds, 1.0, xs, v);
    case Quotient => QuotientExact(ds[0], ds[1], v);
    case Maximum => MaxExact(ds, xs, v);
    case Minimum => MinExact(ds, xs, v);
    case Percent =>
      PercentExact(ds[0], ds[1], v);
    case Compare => assert false;
    case Round => QuantizeExact(ds[0], Scaled(scale), HalfUpMode, v);
    case Ceil => QuantizeExact(ds[0], Scaled(scale), CeilingMode, v);
    case Floor => QuantizeExact(ds[0], Scaled(scale), FloorMode, v);
  }

  lemma ApplyExact(e: Expr, ws: seq<Value>, vs: seq<Exact>, v: Exact)
    requires AllDenote(ws, vs) && ResultIs(e, vs, v)
    ensures Apply(e.op, e.scale, e.comparator, ws).Ok? && Denotes(Apply(e.op, e.scale, e.comparator, ws).value, v)
  {
    assert forall i :: 0 <= i < |ws| ==> Denotes(ws[i], vs[i]);
    assert AllNumbers(ws);
    match v
    case Truth(b) =>
      OrderValue(ws[0].dec, ws[1].dec);
      OrderValue(ws[1].dec, ws[0].dec);
    case Amount(x) =>
      assert Values(Numbers(ws), Amounts(vs));
      NumbersExact(e.op, e.scale, Numbers(ws), Amounts(vs), x);
  }

  /** Expressions whose exact intermediate values need at most 50 digits are evaluated exactly. */
  lemma {:induction false} EvaluatesExactly(e: Expr, v: Exact)
    requires Means(e, v)
    ensures Pure(e).Ok? && Denotes(Pure(e).value, v)
    decreases e, 1
  {
    var vs: seq<Exact> :| AllMean(e.operands, vs) && ResultIs(e, vs, v);
    OperandsExact(e.operands, vs);
    ApplyExact(e, PureAll(e.operands).value, vs, v);
  }

  lemma {:induction false} OperandsExact(ops: seq<Operand>, vs: seq<Exact>)
    requires AllMean(ops, vs)
    ensures PureAll(ops).Ok? && AllDenote(PureAll(ops).value, vs)
    decreases ops, 0
  {
    if ops != [] {
      OperandExact(ops[0], vs[0]);
      OperandsExact(ops[1..], vs[1..]);
      var ws := PureAll(ops).value;
      assert ws[1..] == PureAll(ops[1..]).value;
      forall i | 0 <= i < |ws|
        ensures Denotes(ws[i], vs[i])
      {
        if i > 0 { assert Denotes(ws[1..][i - 1], vs[1..][i - 1]); }
      }
    }
  }

  lemma {:induction false} OperandExact(operand: Operand, v: Exact)
    requires OperandMeans(operand, v)
    ensures PureOperand(operand).Ok? && Denotes(PureOperand(operand).value, v)
    decreases operand, 2
  {
    match operand
    case Literal(_) =>
    case Nested(e) => EvaluatesExactly(e, v);
  }

  /** So a calculation within its limits returns the exact answer, and the exact answer is unique. */
  lemma CalculatesExactly(lim: Limits, e: Expr, v: Exact, other: Exact)
    requires Means(e, v) && Means(e, other) && Depth(e) <= lim.maxDepth && Nodes(e) <= lim.maxNodes
    ensures Calculate(lim, e).Ok? && Denotes(Calculate(lim, e).value.0, v) && v == other
  {
    EvaluatesExactly(e, v);
    EvaluatesExactly(e, other);
    CalculateMeaning(lim, e);
  }
}
