/** The declarative calculator: expression trees, one operation, and the depth- and node-bounded
    evaluator with its mutable node counter and trace. */
module Calculator {
  import opened Prelude
  import opened PowersOfTen
  import opened Decimals
  import opened Division
  import opened Rounding

  const PREC: nat := 50

  datatype Operation =
    | Sum | Difference | Product | Quotient | Maximum | Minimum | Percent | Round | Ceil | Floor | Compare

  datatype Comparator = EQ | NE | GT | GTE | LT | LTE

  datatype Error = CalculationLimit | InvalidExpression | DivisionByZero | InvalidOperation

  datatype Operand = Literal(value: Dec) | Nested(expr: Expr)

  datatype Expr = Expr(op: Operation, operands: seq<Operand>, scale: Option<nat>, comparator: Option<Comparator>)

  datatype Value = Number(dec: Dec) | Flag(flag: bool)

  datatype Step = Step(number: nat, op: Operation, inputs: seq<Value>, result: Value,
                       scale: Option<nat>, comparator: Option<Comparator>)

  // ----- one operation -----

  const ZERO := Dec(false, 0, 0)
  const ONE := Dec(false, 1, 0)
  const HUNDRED := Dec(false, 100, 0)

  predicate AllNumbers(values: seq<Value>) {
    forall i :: 0 <= i < |values| ==> values[i].Number?
  }

  function Numbers(values: seq<Value>): (r: seq<Dec>)
    requires AllNumbers(values)
    ensures |r| == |values|
  {
    seq(|values|, i requires 0 <= i < |values| => values[i].dec)
  }

  /** `sum(decimals, Decimal("0"))`: additions from the left, each rounded. */
  function SumFrom(acc: Dec, ds: seq<Dec>): Dec
    decreases |ds|
  {
    if ds == [] then acc else SumFrom(Add(PREC, acc, ds[0]), ds[1..])
  }

  function ProductFrom(acc: Dec, ds: seq<Dec>): Dec
    decreases |ds|
  {
    if ds == [] then acc else ProductFrom(Multiply(PREC, acc, ds[0]), ds[1..])
  }

  /** Python's max: the first of the largest. */
  function MaxFrom(best: Dec, ds: seq<Dec>): Dec
    decreases |ds|
  {
    if ds == [] then best else MaxFrom(if Less(best, ds[0]) then ds[0] else best, ds[1..])
  }

  function MinFrom(best: Dec, ds: seq<Dec>): Dec
    decreases |ds|
  {
    if ds == [] then best else MinFrom(if Less(ds[0], best) then ds[0] else best, ds[1..])
  }

  function ModeOf(op: Operation): Mode {
    if op.Ceil? then CeilingMode else if op.Floor? then FloorMode else HalfUpMode
  }

  /** `quantize`: signals an invalid operation when the result needs more than 50 digits. */
  function Quantize(d: Dec, scale: nat, mode: Mode): Result<Dec, Error> {
    var r := ToScale(d, scale, mode);
    if Digits(r.coef) <= PREC then Ok(r) else Err(InvalidOperation)
  }

  function Compares(c: Comparator, a: Dec, b: Dec): bool {
    match c
    case EQ => Equal(a, b)
    case NE => !Equal(a, b)
    case GT => Less(b, a)
    case GTE => !Less(a, b)
    case LT => Less(a, b)
    case LTE => !Less(b, a)
  }

  function ApplyNumbers(op: Operation, scale: Option<nat>, ds: seq<Dec>): Result<Dec, Error>
    requires ds != []
  {
    match op
    case Sum => Ok(SumFrom(ZERO, ds))
    case Difference => if |ds| != 2 then Err(InvalidExpression) else Ok(Subtract(PREC, ds[0], ds[1]))
    case Product => if |ds| < 2 then Err(InvalidExpression) else Ok(ProductFrom(ONE, ds))
    case Quotient =>
      if |ds| != 2 then Err(InvalidExpression)
      else if ds[1].coef == 0 then Err(DivisionByZero)
      else Ok(Divide(PREC, ds[0], ds[1]))
    case Maximum => Ok(MaxFrom(ds[0], ds[1..]))
    case Minimum => Ok(MinFrom(ds[0], ds[1..]))
    case Percent =>
      if |ds| != 2 then Err(InvalidExpression) else Ok(Divide(PREC, Multiply(PREC, ds[0], ds[1]), HUNDRED))
    case Compare => Err(InvalidExpression)
    case _ =>
      if |ds| != 1 then Err(InvalidExpression)
      else Quantize(ds[0], if scale.Some? then scale.value else 0, ModeOf(op))
  }

  function Apply(op: Operation, scale: Option<nat>, comparator: Option<Comparator>, values: seq<Value>)
    : Result<Value, Error>
  {
    if op.Compare? then
      if !AllNumbers(values) || |values| != 2 || comparator.None? then Err(InvalidExpression)
      else Ok(Flag(Compares(comparator.value, values[0].dec, values[1].dec)))
    else if comparator.Some? || !AllNumbers(values) || values == [] then Err(InvalidExpression)
    else
      match ApplyNumbers(op, scale, Numbers(values))
      case Ok(d) => Ok(Number(d))
      case Err(error) => Err(error)
  }

  // ----- the evaluator -----

  datatype Limits = Limits(maxDepth: int, maxNodes: int)

  /** The shared counter and trace. */
  datatype Work = Work(nodes: nat, trace: seq<Step>)

  function Eval(lim: Limits, e: Expr, depth: int, w: Work): (Result<Value, Error>, Work)
    decreases e, 1
  {
    var counted := w.(nodes := w.nodes + 1);
    if depth > lim.maxDepth || counted.nodes > lim.maxNodes then (Err(CalculationLimit), counted)
    else
      var (values, w1) := EvalOperands(lim, e.operands, depth, counted, []);
      if values.Err? then (Err(values.error), w1)
      else
        var r := Apply(e.op, e.scale, e.comparator, values.value);
        if r.Err? then (r, w1)
        else (r, w1.(trace := w1.trace + [Step(|w1.trace| + 1, e.op, values.value, r.value, e.scale, e.comparator)]))
  }

  function EvalOperand(lim: Limits, operand: Operand, depth: int, w: Work): (Result<Value, Error>, Work)
    decreases operand, 2
  {
    match operand
    case Literal(d) =>
      var counted := w.(nodes := w.nodes + 1);
      if counted.nodes > lim.maxNodes then (Err(CalculationLimit), counted) else (Ok(Number(d)), counted)
    case Nested(e) => Eval(lim, e, depth + 1, w)
  }

  function EvalOperands(lim: Limits, ops: seq<Operand>, depth: int, w: Work, acc: seq<Value>)
    : (Result<seq<Value>, Error>, Work)
    decreases ops, 0
  {
    if ops == [] then (Ok(acc), w)
    else
      var (r, w1) := EvalOperand(lim, ops[0], depth, w);
      if r.Err? then (Err(r.error), w1)
      else EvalOperands(lim, ops[1..], depth, w1, acc + [r.value])
  }

  function Calculate(lim: Limits, e: Expr): Result<(Value, seq<Step>), Error> {
    var (r, w) := Eval(lim, e, 1, Work(0, []));
    if r.Err? then Err(r.error) else Ok((r.value, w.trace))
  }

  /** The two lists that one calculation mutates. */
  class Record {
    var nodes: nat
    var trace: seq<Step>

    constructor ()
      ensures nodes == 0 && trace == []
    {
      nodes, trace := 0, [];
    }

    function Now(): Work
      reads this
    {
      Work(nodes, trace)
    }
  }

  class DecimalCalculator {
    const lim: Limits

    constructor (maxDepth: int, maxNodes: int)
      requires maxDepth >= 1 && maxNodes >= 1
      ensures lim == Limits(maxDepth, maxNodes)
    {
      lim := Limits(maxDepth, maxNodes);
    }

    method Run(e: Expr) returns (r: Result<(Value, seq<Step>), Error>)
      ensures r == Calculate(lim, e)
    {
      var record := new Record();
      var result := Evaluate(e, 1, record);
      r := if result.Err? then Err(result.error) else Ok((result.value, record.trace));
    }

    method Evaluate(e: Expr, depth: int, record: Record) returns (r: Result<Value, Error>)
      modifies record
      ensures (r, record.Now()) == Eval(lim, e, depth, old(record.Now()))
      decreases e
    {
      record.nodes := record.nodes + 1;
      if depth > lim.maxDepth || record.nodes > lim.maxNodes {
        return Err(CalculationLimit);
      }
      ghost var start := record.Now();
      var values: seq<Value> := [];
      for i := 0 to |e.operands|
        invariant EvalOperands(lim, e.operands, depth, start, [])
               == EvalOperands(lim, e.operands[i..], depth, record.Now(), values)
      {
        assert e.operands[i..][0] == e.operands[i] && e.operands[i..][1..] == e.operands[i + 1..];
        match e.operands[i]
        case Literal(d) =>
          record.nodes := record.nodes + 1;
          if record.nodes > lim.maxNodes {
            return Err(CalculationLimit);
          }
          values := values + [Number(d)];
        case Nested(sub) =>
          var v := Evaluate(sub, depth + 1, record);
          if v.Err? {
            return Err(v.error);
          }
          values := values + [v.value];
      }
      assert e.operands[|e.operands|..] == [];
      r := ApplyOperation(e, values);
      if r.Ok? {
        record.trace := record.trace
          + [Step(|record.trace| + 1, e.op, values, r.value, e.scale, e.comparator)];
      }
    }

    method ApplyOperation(e: Expr, values: seq<Value>) returns (r: Result<Value, Error>)
      ensures r == Apply(e.op, e.scale, e.comparator, values)
    {
      if e.op.Product? && e.comparator.None? && AllNumbers(values) && |values| >= 2 {
        var ds := Numbers(values);
        var result := ONE;
        for i := 0 to |ds|
          invariant ProductFrom(ONE, ds) == ProductFrom(result, ds[i..])
        {
          assert ds[i..][0] == ds[i] && ds[i..][1..] == ds[i + 1..];
          result := Multiply(PREC, result, ds[i]);
        }
        assert ds[|ds|..] == [];
        return Ok(Number(result));
      }
      return Apply(e.op, e.scale, e.comparator, values);
    }
  }
}
