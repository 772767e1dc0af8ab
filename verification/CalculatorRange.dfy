/** Exponents grow by a bounded amount per node: at the default limits no operation can leave the
    exponent range of the context, which is why the model needs neither overflow nor underflow. */
module CalculatorRange {
  import opened Prelude
  import opened PowersOfTen
  import opened Decimals
  import opened Division
  import opened Rounding
  import opened Calculator
  import opened CalculatorTrace

  /** All digits of d lie between the places -b and b. */
  predicate Within(b: int, d: Dec) {
    -b <= d.exp && d.exp + Digits(d.coef) <= b
  }

  lemma ScaleBelow(d: Dec, e: int)
    requires e <= d.exp
    ensures Scale(d.coef, d.exp - e) < Pow10(d.exp - e + Digits(d.coef))
  {
    DigitsBounds(d.coef);
    ScaleMonotone(d.coef, Pow10(Digits(d.coef)), d.exp - e);
    ScaleMore(1, Digits(d.coef), d.exp - e);
  }

  /** Rounding raises the leading place by at most one. */
  lemma FixWithin(p: nat, b: int, d: Dec)
    requires p >= 1 && Within(b, d)
    ensures Within(b + 1, Fix(p, d))
  {
    if Digits(d.coef) > p {
      FixedLength(p, d);
    }
  }

  lemma FixedLength(p: nat, d: Dec)
    requires p >= 1 && Digits(d.coef) > p
    ensures var r := Fix(p, d);
            Digits(r.coef) <= p && d.exp <= r.exp <= d.exp + Digits(d.coef) - p + 1
  {
    var k := Digits(d.coef) - p;
    HalfUpRange(d.coef, p, k);
    if HalfUp(d.coef, k) == Pow10(p) {
      PowerDigits(p - 1);
    } else {
      DigitsAtMost(HalfUp(d.coef, k), p);
    }
  }

  lemma {:induction false} PowerDigits(k: nat)
    ensures Digits(Pow10(k)) == k + 1
  {
    DigitsOfScale(1, k);
  }

  lemma ScaledBelow(b: int, d: Dec, e: int, t: nat)
    requires Within(b, d) && e <= d.exp && b >= e && t == Pow10(b - e)
    ensures AtExp(d, e) < t && AtExp(d, e) + t > 0
  {
    ScaleBelow(d, e);
    PowMonotone(d.exp - e + Digits(d.coef), b - e);
  }

  lemma SumShort(b: int, x: Dec, y: Dec, k: nat)
    requires Within(b, x) && Within(b, y) && k == b - MinExp(x, y)
    ensures ExactSum(x, y).coef < 10 * Pow10(k)
  {
    var e := MinExp(x, y);
    ScaledBelow(b, x, e, Pow10(k));
    ScaledBelow(b, y, e, Pow10(k));
  }

  lemma AddWithin(b: int, x: Dec, y: Dec)
    requires Within(b, x) && Within(b, y)
    ensures Within(b + 2, Add(PREC, x, y))
  {
    var k: nat := b - MinExp(x, y);
    var s := ExactSum(x, y);
    SumShort(b, x, y, k);
    assert Pow10(k + 1) == 10 * Pow10(k);
    DigitsAtMost(s.coef, k + 1);
    FixWithin(PREC, b + 1, s);
  }

  lemma TimesLess(m: nat, n: nat, x: nat, y: nat)
    requires m < x && n < y
    ensures m * n < x * y
  {
    assert m * n <= m * y <= (x - 1) * y;
  }

  lemma ProductBelow(m: nat, n: nat, j: nat, k: nat)
    requires m < Pow10(j) && n < Pow10(k)
    ensures m * n < Pow10(j + k)
  {
    var x, y := Pow10(j), Pow10(k);
    TimesLess(m, n, x, y);
    ScaleIsTimes(x, k);
    ScaleMore(1, j, k);
  }

  lemma MultiplyWithin(b: int, c: int, x: Dec, y: Dec)
    requires Within(b, x) && Within(c, y)
    ensures Within(b + c + 1, Multiply(PREC, x, y))
  {
    DigitsBounds(x.coef);
    DigitsBounds(y.coef);
    ProductBelow(x.coef, y.coef, Digits(x.coef), Digits(y.coef));
    DigitsAtMost(ExactProduct(x, y).coef, Digits(x.coef) + Digits(y.coef));
    FixWithin(PREC, b + c, ExactProduct(x, y));
  }

  // ----- division -----

  lemma TimesAtMost(m: nat, n: nat, x: nat, y: nat)
    requires m <= x && n <= y
    ensures m * n <= x * y
  {
    assert m * n <= m * y <= x * y;
  }

  lemma LongProduct(q: nat, den: nat, j: nat, k: nat)
    requires den > 0 && q >= Pow10(j + 1) && k == den * q
    ensures k >= Pow10(Digits(den) + j)
  {
    var t, u := Pow10(j + 1), Pow10(Digits(den) - 1);
    DigitsBounds(den);
    TimesAtMost(u, t, den, q);
    ScaleIsTimes(t, Digits(den) - 1);
    ScaleMore(1, j + 1, Digits(den) - 1);
    assert u * t == t * u;
  }

  /** A quotient has at most one digit more than the difference in length. */
  lemma QuotientShort(num: nat, den: nat, j: nat)
    requires den > 0 && Digits(num) == Digits(den) + j
    ensures Digits(num / den) <= j + 1
  {
    var q, k, m := FloorOfQuotient(num, den);
    DigitsBounds(num);
    if q >= Pow10(j + 1) {
      LongProduct(q, den, j, k);
    }
    DigitsAtMost(q, j + 1);
  }

  lemma {:induction false} StripWithin(b: int, neg: bool, c: nat, exp: int, ideal: int)
    requires c > 0 && Within(b, Dec(neg, c, exp))
    ensures var (d, e) := Strip(c, exp, ideal); Within(b, Dec(neg, d, e))
    decreases if exp < ideal then ideal - exp else 0
  {
    if exp < ideal && c % 10 == 0 {
      StripWithin(b, neg, c / 10, exp + 1, ideal);
    }
  }

  lemma RoundedQuotientWithin(b: int, neg: bool, num: nat, den: nat, exp: int, ideal: int)
    requires num > 0 && den > 0 && Digits(num) == Digits(den) + PREC + 1
    requires -b <= exp && exp + PREC + 3 <= b
    ensures Within(b + 1, RoundedQuotient(PREC, neg, num, den, exp, ideal))
  {
    var q := num / den;
    QuotientShort(num, den, PREC + 1);
    QuotientLong(num, den, PREC);
    if num % den != 0 {
      StickyDigits(q, PREC);
      FixWithin(PREC, b, Dec(neg, Sticky(q), exp));
    } else {
      StripWithin(b, neg, q, exp, ideal);
      var (c, e) := Strip(q, exp, ideal);
      FixWithin(PREC, b, Dec(neg, c, e));
    }
  }

  lemma DivideWithin(b: int, c: int, x: Dec, y: Dec)
    requires Within(b, x) && Within(c, y) && y.coef != 0
    ensures Within(b + c + 53, Divide(PREC, x, y))
  {
    if x.coef == 0 {
      assert Divide(PREC, x, y) == Dec(x.neg != y.neg, 0, x.exp - y.exp);
    } else {
      var num, den, shift := DivideIsQuotient(PREC, x, y);
      RoundedQuotientWithin(b + c + 52, x.neg != y.neg, num, den, x.exp - y.exp - shift, x.exp - y.exp);
    }
  }

  // ----- every intermediate result of an expression -----

  /** What the literal pattern and the bounds on its length and on the scale allow. */
  predicate ValidLiteral(d: Dec) {
    Within(128, d)
  }

  predicate ValidExpr(e: Expr)
    decreases e, 1
  {
    (e.scale.Some? ==> e.scale.value <= 12) && ValidAll(e.operands)
  }

  predicate ValidOperand(operand: Operand)
    decreases operand, 2
  {
    match operand
    case Literal(d) => ValidLiteral(d)
    case Nested(e) => ValidExpr(e)
  }

  predicate ValidAll(ops: seq<Operand>)
    decreases ops, 0
  {
    ops != [] ==> ValidOperand(ops[0]) && ValidAll(ops[1..])
  }

  predicate SumWithin(b: int, acc: Dec, ds: seq<Dec>)
    decreases |ds|
  {
    Within(b, acc) && (ds != [] ==> SumWithin(b, Add(PREC, acc, ds[0]), ds[1..]))
  }

  predicate ProductWithin(b: int, acc: Dec, ds: seq<Dec>)
    decreases |ds|
  {
    Within(b, acc) && (ds != [] ==> ProductWithin(b, Multiply(PREC, acc, ds[0]), ds[1..]))
  }

  /** Every rounded result inside one operation, and its final result. */
  predicate StepWithin(b: int, op: Operation, scale: Option<nat>, ds: seq<Dec>)
    requires ds != []
  {
    && (op.Sum? ==> SumWithin(b, ZERO, ds))
    && (op.Product? ==> ProductWithin(b, ONE, ds))
    && (op.Percent? && |ds| == 2 ==> Within(b, Multiply(PREC, ds[0], ds[1])))
    && var r := ApplyNumbers(op, scale, ds); (r.Ok? ==> Within(b, r.value))
  }

  /** In every operator node below and including e, all results stay within the room of that node. */
  predicate ExprWithin(e: Expr)
    decreases e, 1
  {
    && AllWithin(e.operands)
    && var values := PureAll(e.operands);
       (values.Ok? && values.value != [] && AllNumbers(values.value) ==>
          StepWithin(Room(Nodes(e)), e.op, e.scale, Numbers(values.value)))
  }

  predicate OperandWithin(operand: Operand)
    decreases operand, 2
  {
    operand.Nested? ==> ExprWithin(operand.expr)
  }

  predicate AllWithin(ops: seq<Operand>)
    decreases ops, 0
  {
    ops != [] ==> OperandWithin(ops[0]) && AllWithin(ops[1..])
  }

  // ----- the bound: two hundred places a node -----

  function Room(nodes: nat): int {
    200 * nodes - 4
  }

  /** Each number stays within the room of its operand. */
  predicate Roomy(ops: seq<Operand>, ds: seq<Dec>) {
    |ds| == |ops| && forall i :: 0 <= i < |ds| ==> Within(Room(NodesOf(ops[i])), ds[i])
  }

  lemma {:induction false} SumRoom(c: int, acc: Dec, ops: seq<Operand>, ds: seq<Dec>, b: int)
    requires Within(c, acc) && Roomy(ops, ds) && c >= 1 && c + 200 * NodesAll(ops) <= b
    ensures SumWithin(b, acc, ds) && Within(c + 200 * NodesAll(ops), SumFrom(acc, ds))
    decreases |ds|
  {
    if ds != [] {
      var next := c + Room(NodesOf(ops[0]));
      AddWithin(next, acc, ds[0]);
      SumRoom(next + 2, Add(PREC, acc, ds[0]), ops[1..], ds[1..], b);
    }
  }

  lemma {:induction false} ProductRoom(c: int, acc: Dec, ops: seq<Operand>, ds: seq<Dec>, b: int)
    requires Within(c, acc) && Roomy(ops, ds) && c >= 1 && c + 200 * NodesAll(ops) <= b
    ensures ProductWithin(b, acc, ds) && Within(c + 200 * NodesAll(ops), ProductFrom(acc, ds))
    decreases |ds|
  {
    if ds != [] {
      MultiplyWithin(c, Room(NodesOf(ops[0])), acc, ds[0]);
      ProductRoom(c + Room(NodesOf(ops[0])) + 1, Multiply(PREC, acc, ds[0]), ops[1..], ds[1..], b);
    }
  }

  lemma {:induction false} NodesOfOne(ops: seq<Operand>, i: nat)
    requires i < |ops|
    ensures NodesOf(ops[i]) <= NodesAll(ops)
    ensures |ops| == 2 ==> NodesAll(ops) == NodesOf(ops[0]) + NodesOf(ops[1])
  {
    if |ops| == 2 {
      assert ops[1..][1..] == [];
      assert NodesAll(ops[1..]) == NodesOf(ops[1]) + NodesAll(ops[1..][1..]);
    }
    if i > 0 {
      NodesOfOne(ops[1..], i - 1);
    }
  }

  lemma PickedWithin(c: int, ops: seq<Operand>, ds: seq<Dec>, r: Dec)
    requires Roomy(ops, ds) && r in ds && Room(NodesAll(ops)) <= c
    ensures Within(c, r)
  {
    var i :| 0 <= i < |ds| && ds[i] == r;
    NodesOfOne(ops, i);
  }

  lemma {:induction false} MaxPicks(best: Dec, ds: seq<Dec>)
    ensures MaxFrom(best, ds) in [best] + ds
    decreases |ds|
  {
    if ds != [] {
      MaxPicks(if Less(best, ds[0]) then ds[0] else best, ds[1..]);
    }
  }

  lemma {:induction false} MinPicks(best: Dec, ds: seq<Dec>)
    ensures MinFrom(best, ds) in [best] + ds
    decreases |ds|
  {
    if ds != [] {
      MinPicks(if Less(ds[0], best) then ds[0] else best, ds[1..]);
    }
  }

  lemma PairRoom(op: Operation, scale: Option<nat>, ops: seq<Operand>, ds: seq<Dec>)
    requires Roomy(ops, ds) && |ds| == 2 && (op.Difference? || op.Quotient? || op.Percent?)
    ensures StepWithin(Room(1 + NodesAll(ops)), op, scale, ds)
  {
    var b, c := Room(NodesOf(ops[0])), Room(NodesOf(ops[1]));
    NodesOfOne(ops, 0);
    MultiplyWithin(b, c, ds[0], ds[1]);
    if op.Difference? {
      AddWithin(b + c, ds[0], Negate(ds[1]));
    } else if op.Percent? {
      DivideWithin(b + c + 1, 3, Multiply(PREC, ds[0], ds[1]), HUNDRED);
    } else if ds[1].coef != 0 {
      DivideWithin(b, c, ds[0], ds[1]);
    }
  }

  lemma StepRoom(op: Operation, scale: Option<nat>, ops: seq<Operand>, ds: seq<Dec>)
    requires ds != [] && Roomy(ops, ds) && (scale.Some? ==> scale.value <= 12)
    ensures StepWithin(Room(1 + NodesAll(ops)), op, scale, ds)
  {
    var b := Room(1 + NodesAll(ops));
    match op
    case Sum => SumRoom(1, ZERO, ops, ds, b);
    case Product => ProductRoom(1, ONE, ops, ds, b);
    case Maximum =>
      MaxPicks(ds[0], ds[1..]);
      assert [ds[0]] + ds[1..] == ds;
      PickedWithin(b, ops, ds, MaxFrom(ds[0], ds[1..]));
    case Minimum =>
      MinPicks(ds[0], ds[1..]);
      assert [ds[0]] + ds[1..] == ds;
      PickedWithin(b, ops, ds, MinFrom(ds[0], ds[1..]));
    case Compare =>
    case Difference => if |ds| == 2 { PairRoom(op, scale, ops, ds); }
    case Quotient => if |ds| == 2 { PairRoom(op, scale, ops, ds); }
    case Percent => if |ds| == 2 { PairRoom(op, scale, ops, ds); }
    case _ =>
  }

  /** The numbers an operand list evaluates to. */
  predicate RoomyValues(ops: seq<Operand>, values: seq<Value>) {
    && |values| == |ops|
    && forall i :: 0 <= i < |values| && values[i].Number? ==> Within(Room(NodesOf(ops[i])), values[i].dec)
  }

  /** In an expression of n nodes every intermediate result stays within 200 n - 4 places of the point. */
  lemma {:induction false} ExprRoom(e: Expr)
    requires ValidExpr(e)
    ensures ExprWithin(e)
    ensures Pure(e).Ok? && Pure(e).value.Number? ==> Within(Room(Nodes(e)), Pure(e).value.dec)
    decreases e, 1
  {
    AllRoom(e.operands);
    var values := PureAll(e.operands);
    if values.Ok? && values.value != [] && AllNumbers(values.value) {
      StepRoom(e.op, e.scale, e.operands, Numbers(values.value));
    }
  }

  lemma {:induction false} OperandRoom(operand: Operand)
    requires ValidOperand(operand)
    ensures OperandWithin(operand)
    ensures var r := PureOperand(operand); r.Ok? && r.value.Number? ==> Within(Room(NodesOf(operand)), r.value.dec)
    decreases operand, 2
  {
    match operand
    case Literal(_) =>
    case Nested(e) => ExprRoom(e);
  }

  lemma {:induction false} AllRoom(ops: seq<Operand>)
    requires ValidAll(ops)
    ensures AllWithin(ops)
    ensures PureAll(ops).Ok? ==> RoomyValues(ops, PureAll(ops).value)
    decreases ops, 0
  {
    if ops != [] {
      OperandRoom(ops[0]);
      AllRoom(ops[1..]);
      if PureAll(ops).Ok? {
        var values := PureAll(ops).value;
        assert values[1..] == PureAll(ops[1..]).value;
        forall i | 0 <= i < |values| && values[i].Number?
          ensures Within(Room(NodesOf(ops[i])), values[i].dec)
        {
          if i > 0 { assert values[i] == values[1..][i - 1] && ops[i] == ops[1..][i - 1]; }
        }
      }
    }
  }

  // ----- what the bounded evaluator performs -----

  /** Every operation that the bounded evaluator performs in e, even if a limit or an error stops it later,
      belongs to a node with at most maxNodes nodes below it and stays within the room of that node. */
  predicate RunWithin(lim: Limits, e: Expr, depth: int, w: Work)
    decreases e, 1
  {
    var counted := w.(nodes := w.nodes + 1);
    depth <= lim.maxDepth && counted.nodes <= lim.maxNodes ==>
      && RunAllWithin(lim, e.operands, depth, counted)
      && var values := EvalOperands(lim, e.operands, depth, counted, []).0;
         (values.Ok? ==>
            && Nodes(e) <= lim.maxNodes
            && (values.value != [] && AllNumbers(values.value) ==>
                  StepWithin(Room(Nodes(e)), e.op, e.scale, Numbers(values.value))))
  }

  predicate RunOperandWithin(lim: Limits, operand: Operand, depth: int, w: Work)
    decreases operand, 2
  {
    operand.Nested? ==> RunWithin(lim, operand.expr, depth + 1, w)
  }

  predicate RunAllWithin(lim: Limits, ops: seq<Operand>, depth: int, w: Work)
    decreases ops, 0
  {
    ops != [] ==>
      && RunOperandWithin(lim, ops[0], depth, w)
      && var (r, w1) := EvalOperand(lim, ops[0], depth, w);
         (r.Ok? ==> RunAllWithin(lim, ops[1..], depth, w1))
  }

  lemma {:induction false} RunRoom(lim: Limits, e: Expr, depth: int, w: Work)
    requires ValidExpr(e)
    ensures RunWithin(lim, e, depth, w)
    decreases e, 1
  {
    var counted := w.(nodes := w.nodes + 1);
    if depth <= lim.maxDepth && counted.nodes <= lim.maxNodes {
      RunAllRoom(lim, e.operands, depth, counted);
      OperandsAgree(lim, e.operands, depth, counted, []);
      var values := EvalOperands(lim, e.operands, depth, counted, []).0;
      if values.Ok? {
        assert [] + PureAll(e.operands).value == PureAll(e.operands).value;
        ExprRoom(e);
      }
    }
  }

  lemma {:induction false} RunOperandRoom(lim: Limits, operand: Operand, depth: int, w: Work)
    requires ValidOperand(operand)
    ensures RunOperandWithin(lim, operand, depth, w)
    decreases operand, 2
  {
    match operand
    case Literal(_) =>
    case Nested(e) => RunRoom(lim, e, depth + 1, w);
  }

  lemma {:induction false} RunAllRoom(lim: Limits, ops: seq<Operand>, depth: int, w: Work)
    requires ValidAll(ops)
    ensures RunAllWithin(lim, ops, depth, w)
    decreases ops, 0
  {
    if ops != [] {
      RunOperandRoom(lim, ops[0], depth, w);
      var (r, w1) := EvalOperand(lim, ops[0], depth, w);
      if r.Ok? {
        RunAllRoom(lim, ops[1..], depth, w1);
      }
    }
  }

  const EXPONENT_LIMIT := 999999

  /** Whatever the size of the expression and the node limit, every operation of a calculation stays within the
      room of at most maxNodes nodes. So none can leave the exponent range of the context if that room is
      smaller, as it is for every limit up to 5000. */
  lemma NeverOverflows(lim: Limits, e: Expr, n: nat)
    requires ValidExpr(e)
    ensures RunWithin(lim, e, 1, Work(0, []))
    ensures n <= lim.maxNodes ==> Room(n) <= 200 * lim.maxNodes - 4
    ensures n <= lim.maxNodes <= 5000 ==> Room(n) < EXPONENT_LIMIT
  {
    RunRoom(lim, e, 1, Work(0, []));
  }
}
