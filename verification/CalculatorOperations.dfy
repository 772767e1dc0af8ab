/** What one operation of the calculator accepts, which error it raises otherwise and what it computes, in
    terms of the numbers that its operands stand for. */
module CalculatorOperations {
  import opened Prelude
  import opened PowersOfTen
  import opened Decimals
  import opened Division
  import opened Rounding
  import opened Calculator
  import opened CalculatorTrace
  import opened CalculatorExact

  // ----- when an operation succeeds -----

  predicate CountFits(op: Operation, n: nat) {
    match op
    case Sum => n >= 1
    case Maximum => n >= 1
    case Minimum => n >= 1
    case Product => n >= 2
    case Difference => n == 2
    case Quotient => n == 2
    case Percent => n == 2
    case Compare => n == 2
    case Round => n == 1
    case Ceil => n == 1
    case Floor => n == 1
  }

  predicate RoundsToScale(op: Operation) {
    op == Round || op == Ceil || op == Floor
  }

  /** y is x rounded to the decimal places of the node. */
  ghost predicate IsScaled(op: Operation, scale: nat, x: real, y: real) {
    match op
    case Round => IsHalfUp(x, y, P(0 - scale))
    case Ceil => IsCeiling(x, y, P(0 - scale))
    case Floor => IsFloor(x, y, P(0 - scale))
    case _ => false
  }

  /** The rounded number has at most 50 digits. */
  ghost predicate ScaledFits(op: Operation, scale: nat, x: real) {
    exists y :: IsScaled(op, scale, x, y) && Abs(y) < Units(Pow10(50), P(0 - scale))
  }

  predicate NoFlag(values: seq<Value>) {
    forall i :: 0 <= i < |values| ==> !values[i].Flag?
  }

  /** Operands and comparator fit the operation, whatever the numbers are. */
  predicate WellTyped(op: Operation, comparator: Option<Comparator>, values: seq<Value>) {
    NoFlag(values) && CountFits(op, |values|) && (comparator.Some? <==> op == Compare)
  }

  ghost predicate DividesByZeroHere(op: Operation, comparator: Option<Comparator>, values: seq<Value>) {
    op == Quotient && WellTyped(op, comparator, values) && V(values[1].dec) == 0.0
  }

  ghost predicate TooLongHere(op: Operation, scale: Option<nat>, comparator: Option<Comparator>, values: seq<Value>) {
    RoundsToScale(op) && WellTyped(op, comparator, values) && !ScaledFits(op, Scaled(scale), V(values[0].dec))
  }

  lemma ScaledIff(op: Operation, scale: nat, d: Dec)
    requires RoundsToScale(op)
    ensures Quantize(d, scale, ModeOf(op)).Ok? <==> ScaledFits(op, scale, V(d))
    ensures Quantize(d, scale, ModeOf(op)).Ok? ==>
              && IsScaled(op, scale, V(d), V(Quantize(d, scale, ModeOf(op)).value))
              && Quantize(d, scale, ModeOf(op)).value.exp == 0 - scale
              && Quantize(d, scale, ModeOf(op)).value.neg == d.neg
    ensures Quantize(d, scale, ModeOf(op)).Err? ==> Quantize(d, scale, ModeOf(op)).error == InvalidOperation
  {
    var r := ToScale(d, scale, ModeOf(op));
    assert Place(scale) == 0 - scale;
    ToScaleRounds(d, scale, ModeOf(op));
    QuantizeIff(d, scale, ModeOf(op));
    assert IsScaled(op, scale, V(d), V(r));
    if ScaledFits(op, scale, V(d)) {
      var y :| IsScaled(op, scale, V(d), y) && Abs(y) < Units(Pow10(50), P(0 - scale));
      Unique(ModeOf(op), V(d), y, V(r), P(0 - scale));
    }
  }

  /** An operation succeeds exactly when its operands and comparator fit it, it does not divide by zero, and
      a number rounded to a scale has at most 50 digits. Each way to fail has its own error. */
  lemma SucceedsIff(op: Operation, scale: Option<nat>, comparator: Option<Comparator>, values: seq<Value>)
    ensures var r := Apply(op, scale, comparator, values);
            && (r.Ok? <==> WellTyped(op, comparator, values) && !DividesByZeroHere(op, comparator, values)
                           && !TooLongHere(op, scale, comparator, values))
            && (r == Err(DivisionByZero) <==> DividesByZeroHere(op, comparator, values))
            && (r == Err(InvalidOperation) <==> TooLongHere(op, scale, comparator, values))
            && (r == Err(InvalidExpression) <==> !WellTyped(op, comparator, values))
  {
    assert NoFlag(values) <==> AllNumbers(values);
    if op != Compare && AllNumbers(values) && values != [] {
      NumbersSucceedIff(op, scale, Numbers(values));
    }
  }

  lemma NumbersSucceedIff(op: Operation, scale: Option<nat>, ds: seq<Dec>)
    requires op != Compare && ds != []
    ensures var r := ApplyNumbers(op, scale, ds);
            && (!CountFits(op, |ds|) <==> r == Err(InvalidExpression))
            && (CountFits(op, |ds|) && op == Quotient && V(ds[1]) == 0.0 <==> r == Err(DivisionByZero))
            && (CountFits(op, |ds|) && RoundsToScale(op) && !ScaledFits(op, Scaled(scale), V(ds[0]))
                <==> r == Err(InvalidOperation))
            && (r.Err? ==> r != Err(CalculationLimit))
  {
    if op == Quotient && |ds| == 2 {
      SignOfValue(ds[1]);
    } else if RoundsToScale(op) && |ds| == 1 {
      ScaledIff(op, Scaled(scale), ds[0]);
    }
  }

  // ----- what it computes -----

  /** Additions from the left, each correctly rounded to 50 digits. */
  ghost predicate SumRounds(acc: Dec, ds: seq<Dec>, r: Dec)
    decreases |ds|
  {
    if ds == [] then r == acc
    else exists next: Dec :: Rounds(50, V(acc) + V(ds[0]), next) && SumRounds(next, ds[1..], r)
  }

  ghost predicate ProductRounds(acc: Dec, ds: seq<Dec>, r: Dec)
    decreases |ds|
  {
    if ds == [] then r == acc
    else exists next: Dec :: IsRoundedProduct(acc, ds[0], next) && ProductRounds(next, ds[1..], r)
  }

  ghost predicate IsRoundedProduct(a: Dec, b: Dec, r: Dec) {
    Rounds(50, V(a) * V(b), r)
  }

  ghost predicate IsRoundedQuotient(a: Dec, b: Dec, r: Dec) {
    V(b) != 0.0 && Rounds(50, V(a) / V(b), r)
  }

  /** The first of the largest. */
  ghost predicate FirstLargest(ds: seq<Dec>, r: Dec) {
    exists i :: 0 <= i < |ds| && r == ds[i] && IsFirstLargest(ds, i)
  }

  ghost predicate IsFirstLargest(ds: seq<Dec>, i: nat)
    requires i < |ds|
  {
    forall k :: 0 <= k < |ds| ==> V(ds[k]) <= V(ds[i]) && (k < i ==> V(ds[k]) < V(ds[i]))
  }

  ghost predicate FirstSmallest(ds: seq<Dec>, r: Dec) {
    exists i :: 0 <= i < |ds| && r == ds[i] && IsFirstSmallest(ds, i)
  }

  ghost predicate IsFirstSmallest(ds: seq<Dec>, i: nat)
    requires i < |ds|
  {
    forall k :: 0 <= k < |ds| ==> V(ds[i]) <= V(ds[k]) && (k < i ==> V(ds[i]) < V(ds[k]))
  }

  /** r is what the operation makes of the numbers. */
  ghost predicate Computes(op: Operation, scale: nat, ds: seq<Dec>, r: Dec)
    requires CountFits(op, |ds|)
  {
    match op
    case Sum => SumRounds(Dec(false, 0, 0), ds, r)
    case Difference => Rounds(50, V(ds[0]) - V(ds[1]), r)
    case Product => ProductRounds(Dec(false, 1, 0), ds, r)
    case Quotient => IsRoundedQuotient(ds[0], ds[1], r)
    case Maximum => FirstLargest(ds, r)
    case Minimum => FirstSmallest(ds, r)
    case Percent => exists p: Dec :: IsRoundedProduct(ds[0], ds[1], p) && IsRoundedQuotient(p, Dec(false, 100, 0), r)
    case Round => IsScaled(op, scale, V(ds[0]), V(r)) && r.exp == 0 - scale && r.neg == ds[0].neg
    case Ceil => IsScaled(op, scale, V(ds[0]), V(r)) && r.exp == 0 - scale && r.neg == ds[0].neg
    case Floor => IsScaled(op, scale, V(ds[0]), V(r)) && r.exp == 0 - scale && r.neg == ds[0].neg
    case Compare => false
  }

  lemma {:induction false} SumIsRounded(acc: Dec, ds: seq<Dec>)
    ensures SumRounds(acc, ds, SumFrom(acc, ds))
    decreases |ds|
  {
    if ds != [] {
      AddRounds(PREC, acc, ds[0]);
      SumIsRounded(Add(PREC, acc, ds[0]), ds[1..]);
    }
  }

  lemma {:induction false} ProductIsRounded(acc: Dec, ds: seq<Dec>)
    ensures ProductRounds(acc, ds, ProductFrom(acc, ds))
    decreases |ds|
  {
    if ds != [] {
      RoundedProduct(acc, ds[0]);
      ProductIsRounded(Multiply(PREC, acc, ds[0]), ds[1..]);
    }
  }

  lemma RoundedProduct(a: Dec, b: Dec)
    ensures IsRoundedProduct(a, b, Multiply(PREC, a, b))
  {
    MultiplyRounds(PREC, a, b);
  }

  lemma RoundedQuotient(a: Dec, b: Dec)
    requires b.coef != 0
    ensures IsRoundedQuotient(a, b, Divide(PREC, a, b))
  {
    DivideRounds(PREC, a, b);
  }

  lemma {:induction false} MaxIsFirst(done: seq<Dec>, best: nat, ds: seq<Dec>)
    requires best < |done| && IsFirstLargest(done, best)
    ensures FirstLargest(done + ds, MaxFrom(done[best], ds))
    decreases |ds|
  {
    if ds == [] {
      assert done + ds == done;
    } else {
      var longer := done + [ds[0]];
      OrderValue(done[best], ds[0]);
      assert longer + ds[1..] == done + ds;
      MaxIsFirst(longer, if Less(done[best], ds[0]) then |done| else best, ds[1..]);
    }
  }

  lemma {:induction false} MinIsFirst(done: seq<Dec>, best: nat, ds: seq<Dec>)
    requires best < |done| && IsFirstSmallest(done, best)
    ensures FirstSmallest(done + ds, MinFrom(done[best], ds))
    decreases |ds|
  {
    if ds == [] {
      assert done + ds == done;
    } else {
      var longer := done + [ds[0]];
      OrderValue(ds[0], done[best]);
      assert longer + ds[1..] == done + ds;
      MinIsFirst(longer, if Less(ds[0], done[best]) then |done| else best, ds[1..]);
    }
  }

  lemma NumbersComputed(op: Operation, scale: Option<nat>, ds: seq<Dec>)
    requires CountFits(op, |ds|) && ApplyNumbers(op, scale, ds).Ok?
    ensures Computes(op, Scaled(scale), ds, ApplyNumbers(op, scale, ds).value)
  {
    match op
    case Sum => SumIsRounded(ZERO, ds);
    case Difference => SubtractRounds(PREC, ds[0], ds[1]);
    case Product => ProductIsRounded(ONE, ds);
    case Quotient => RoundedQuotient(ds[0], ds[1]);
    case Maximum =>
      MaxIsFirst(ds[..1], 0, ds[1..]);
      assert ds[..1] + ds[1..] == ds;
    case Minimum =>
      MinIsFirst(ds[..1], 0, ds[1..]);
      assert ds[..1] + ds[1..] == ds;
    case Percent =>
      RoundedProduct(ds[0], ds[1]);
      RoundedQuotient(Multiply(PREC, ds[0], ds[1]), HUNDRED);
    case Compare =>
    case _ => ScaledIff(op, Scaled(scale), ds[0]);
  }

  /** Every result is the correctly rounded one, step by step; a comparison compares the numbers. */
  lemma ResultMeans(op: Operation, scale: Option<nat>, comparator: Option<Comparator>, values: seq<Value>)
    requires Apply(op, scale, comparator, values).Ok?
    ensures AllNumbers(values) && CountFits(op, |values|)
    ensures match Apply(op, scale, comparator, values).value
            case Number(d) => Computes(op, Scaled(scale), Numbers(values), d)
            case Flag(b) =>
              op == Compare && comparator.Some? && b == Holds(comparator.value, V(values[0].dec), V(values[1].dec))
  {
    SucceedsIff(op, scale, comparator, values);
    assert AllNumbers(values);
    if op == Compare {
      OrderValue(values[0].dec, values[1].dec);
      OrderValue(values[1].dec, values[0].dec);
    } else {
      NumbersComputed(op, scale, Numbers(values));
    }
  }

  // ----- whole expressions -----

  /** No node of the expression has operands that do not fit it, divides by zero or rounds to too many digits. */
  ghost predicate Sound(e: Expr)
    decreases e, 1
  {
    && AllSound(e.operands) && PureAll(e.operands).Ok?
    && var values := PureAll(e.operands).value;
       && WellTyped(e.op, e.comparator, values)
       && !DividesByZeroHere(e.op, e.comparator, values) && !TooLongHere(e.op, e.scale, e.comparator, values)
  }

  ghost predicate OperandSound(operand: Operand)
    decreases operand, 2
  {
    operand.Nested? ==> Sound(operand.expr)
  }

  ghost predicate AllSound(ops: seq<Operand>)
    decreases ops, 0
  {
    ops != [] ==> OperandSound(ops[0]) && AllSound(ops[1..])
  }

  lemma {:induction false} PureIffSound(e: Expr)
    ensures Pure(e).Ok? <==> Sound(e)
    decreases e, 1
  {
    AllPureIffSound(e.operands);
    if PureAll(e.operands).Ok? {
      SucceedsIff(e.op, e.scale, e.comparator, PureAll(e.operands).value);
    }
  }

  lemma {:induction false} AllPureIffSound(ops: seq<Operand>)
    ensures PureAll(ops).Ok? <==> AllSound(ops)
    decreases ops, 0
  {
    if ops != [] {
      OperandPureIffSound(ops[0]);
      AllPureIffSound(ops[1..]);
    }
  }

  lemma {:induction false} OperandPureIffSound(operand: Operand)
    ensures PureOperand(operand).Ok? <==> OperandSound(operand)
    decreases operand, 2
  {
    if operand.Nested? { PureIffSound(operand.expr); }
  }

  /** A calculation succeeds exactly within both limits and on expressions whose every node is sound. */
  lemma CalculateSucceedsIff(lim: Limits, e: Expr)
    ensures Calculate(lim, e).Ok? <==> Depth(e) <= lim.maxDepth && Nodes(e) <= lim.maxNodes && Sound(e)
  {
    CalculateMeaning(lim, e);
    PureIffSound(e);
  }

  /** Some node of the expression divides by an operand that stands for zero. */
  ghost predicate DividesByZero(e: Expr)
    decreases e
  {
    || (e.op == Quotient && |e.operands| == 2 && StandsForZero(e.operands[1]))
    || exists i :: 0 <= i < |e.operands| && e.operands[i].Nested? && DividesByZero(e.operands[i].expr)
  }

  ghost predicate StandsForZero(operand: Operand) {
    PureOperand(operand).Ok? && PureOperand(operand).value.Number? && V(PureOperand(operand).value.dec) == 0.0
  }

  lemma {:induction false} SoundOperand(ops: seq<Operand>, i: nat)
    requires i < |ops| && PureAll(ops).Ok?
    ensures PureOperand(ops[i]).Ok? && PureAll(ops).value[i] == PureOperand(ops[i]).value
  {
    if i > 0 {
      SoundOperand(ops[1..], i - 1);
    }
  }

  lemma {:induction false} DivisionByZeroFails(e: Expr)
    requires DividesByZero(e)
    ensures Pure(e).Err?
    decreases e
  {
    if Pure(e).Ok? {
      var values := PureAll(e.operands).value;
      SucceedsIff(e.op, e.scale, e.comparator, values);
      if e.op == Quotient && |e.operands| == 2 && StandsForZero(e.operands[1]) {
        SoundOperand(e.operands, 1);
      } else {
        var i :| 0 <= i < |e.operands| && e.operands[i].Nested? && DividesByZero(e.operands[i].expr);
        SoundOperand(e.operands, i);
        DivisionByZeroFails(e.operands[i].expr);
      }
    }
  }

  /** An expression that divides by an operand of value zero, anywhere in it, is never given a result. */
  lemma NoResultByZero(lim: Limits, e: Expr)
    requires DividesByZero(e)
    ensures Calculate(lim, e).Err?
  {
    DivisionByZeroFails(e);
    CalculateMeaning(lim, e);
  }

  /** And the error is the division by zero, if the operands have no error of their own. */
  lemma ZeroDivisorRaises(lim: Limits, e: Expr)
    requires Depth(e) <= lim.maxDepth && Nodes(e) <= lim.maxNodes && PureAll(e.operands).Ok?
    requires DividesByZeroHere(e.op, e.comparator, PureAll(e.operands).value)
    ensures Calculate(lim, e) == Err(DivisionByZero)
  {
    SucceedsIff(e.op, e.scale, e.comparator, PureAll(e.operands).value);
    CalculateMeaning(lim, e);
  }
}
