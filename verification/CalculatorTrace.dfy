/** The limits of the evaluator and the meaning of its trace: an independent linear stack machine accepts
    a trace exactly when the evaluator produced it. */
module CalculatorTrace {
  import opened Prelude
  import opened Decimals
  import opened Calculator

  // ----- evaluation without limits, and the size of an expression -----

  function Pure(e: Expr): Result<Value, Error>
    decreases e, 1
  {
    var values := PureAll(e.operands);
    if values.Err? then Err(values.error) else Apply(e.op, e.scale, e.comparator, values.value)
  }

  function PureOperand(operand: Operand): Result<Value, Error>
    decreases operand, 2
  {
    match operand
    case Literal(d) => Ok(Number(d))
    case Nested(e) => Pure(e)
  }

  function PureAll(ops: seq<Operand>): (r: Result<seq<Value>, Error>)
    ensures r.Ok? ==> |r.value| == |ops|
    decreases ops, 0
  {
    if ops == [] then Ok([])
    else
      var first := PureOperand(ops[0]);
      var rest := PureAll(ops[1..]);
      if first.Err? then Err(first.error) else if rest.Err? then Err(rest.error) else Ok([first.value] + rest.value)
  }

  /** All nodes, literals included. */
  function Nodes(e: Expr): (n: nat)
    ensures n >= 1
    decreases e, 1
  {
    1 + NodesAll(e.operands)
  }

  function NodesOf(operand: Operand): (n: nat)
    ensures n >= 1
    decreases operand, 2
  {
    match operand
    case Literal(_) => 1
    case Nested(e) => Nodes(e)
  }

  function NodesAll(ops: seq<Operand>): (n: nat)
    ensures n >= |ops|
    decreases ops, 0
  {
    if ops == [] then 0 else NodesOf(ops[0]) + NodesAll(ops[1..])
  }

  /** Nesting depth of operator nodes. */
  function Depth(e: Expr): nat
    decreases e, 1
  {
    1 + DepthAll(e.operands)
  }

  function DepthOf(operand: Operand): nat
    decreases operand, 2
  {
    match operand
    case Literal(_) => 0
    case Nested(e) => Depth(e)
  }

  function DepthAll(ops: seq<Operand>): nat
    decreases ops, 0
  {
    if ops == [] then 0
    else if DepthOf(ops[0]) >= DepthAll(ops[1..]) then DepthOf(ops[0]) else DepthAll(ops[1..])
  }

  // ----- the post-order trace -----

  function Trace(e: Expr, before: nat): seq<Step>
    decreases e, 1
  {
    var inner := TraceAll(e.operands, before);
    var inputs := PureAll(e.operands);
    var r := Pure(e);
    if inputs.Err? || r.Err? then inner
    else inner + [Step(before + |inner| + 1, e.op, inputs.value, r.value, e.scale, e.comparator)]
  }

  function TraceOf(operand: Operand, before: nat): seq<Step>
    decreases operand, 2
  {
    match operand
    case Literal(_) => []
    case Nested(e) => Trace(e, before)
  }

  function TraceAll(ops: seq<Operand>, before: nat): seq<Step>
    decreases ops, 0
  {
    if ops == [] then []
    else
      var first := TraceOf(ops[0], before);
      first + TraceAll(ops[1..], before + |first|)
  }

  // ----- limits -----

  predicate Fits(lim: Limits, e: Expr, depth: int, nodes: nat) {
    depth + Depth(e) - 1 <= lim.maxDepth && nodes + Nodes(e) <= lim.maxNodes
  }

  predicate OperandFits(lim: Limits, operand: Operand, depth: int, nodes: nat) {
    depth + DepthOf(operand) <= lim.maxDepth && nodes + NodesOf(operand) <= lim.maxNodes
  }

  predicate AllFit(lim: Limits, ops: seq<Operand>, depth: int, nodes: nat) {
    depth + DepthAll(ops) <= lim.maxDepth && nodes + NodesAll(ops) <= lim.maxNodes
  }

  /** The bounded evaluator against the unbounded one: within the limits they agree, and the shared
      counter and trace grow by exactly the nodes and the post-order steps; outside the limits the
      bounded one fails, with the limit error unless an earlier error comes first. */
  ghost predicate Agrees(fits: bool, result: Result<Value, Error>, after: Work, pure: Result<Value, Error>, w: Work,
                         nodes: nat, steps: seq<Step>) {
    && (fits ==> result == pure && (pure.Ok? ==> after == Work(w.nodes + nodes, w.trace + steps)))
    && (!fits ==> result.Err? && (pure.Ok? ==> result == Err(CalculationLimit)))
  }

  lemma {:induction false} EvalAgrees(lim: Limits, e: Expr, depth: int, w: Work)
    ensures var (r, w') := Eval(lim, e, depth, w);
            Agrees(Fits(lim, e, depth, w.nodes), r, w', Pure(e), w, Nodes(e), Trace(e, |w.trace|))
    decreases e, 1
  {
    var counted := w.(nodes := w.nodes + 1);
    if depth <= lim.maxDepth && counted.nodes <= lim.maxNodes {
      OperandsAgree(lim, e.operands, depth, counted, []);
      var (values, w1) := EvalOperands(lim, e.operands, depth, counted, []);
      if AllFit(lim, e.operands, depth, counted.nodes) && values.Ok? {
        assert [] + PureAll(e.operands).value == PureAll(e.operands).value;
      }
    }
  }

  lemma {:induction false} OperandAgrees(lim: Limits, operand: Operand, depth: int, w: Work)
    requires depth <= lim.maxDepth
    ensures var (r, w') := EvalOperand(lim, operand, depth, w);
            Agrees(OperandFits(lim, operand, depth, w.nodes), r, w', PureOperand(operand), w, NodesOf(operand),
                   TraceOf(operand, |w.trace|))
    decreases operand, 2
  {
    match operand
    case Literal(_) => assert w.trace + [] == w.trace;
    case Nested(e) => EvalAgrees(lim, e, depth + 1, w);
  }

  lemma {:induction false} OperandsAgree(lim: Limits, ops: seq<Operand>, depth: int, w: Work, acc: seq<Value>)
    requires depth <= lim.maxDepth && w.nodes <= lim.maxNodes
    ensures var (r, w') := EvalOperands(lim, ops, depth, w, acc);
            && (AllFit(lim, ops, depth, w.nodes) ==>
                  match PureAll(ops)
                  case Ok(values) => r == Ok(acc + values)
                                     && w' == Work(w.nodes + NodesAll(ops), w.trace + TraceAll(ops, |w.trace|))
                  case Err(error) => r == Err(error))
            && (!AllFit(lim, ops, depth, w.nodes) ==> r.Err? && (PureAll(ops).Ok? ==> r == Err(CalculationLimit)))
    decreases ops, 0
  {
    if ops == [] {
      assert acc + [] == acc && w.trace + [] == w.trace;
    } else {
      OperandAgrees(lim, ops[0], depth, w);
      var (r, w1) := EvalOperand(lim, ops[0], depth, w);
      if r.Ok? {
        OperandsAgree(lim, ops[1..], depth, w1, acc + [r.value]);
        if PureAll(ops).Ok? {
          var rest := PureAll(ops[1..]).value;
          assert acc + [r.value] + rest == acc + ([r.value] + rest);
          var first := TraceOf(ops[0], |w.trace|);
          var others := TraceAll(ops[1..], |w.trace| + |first|);
          assert w.trace + first + others == w.trace + (first + others);
        }
      }
    }
  }

  /** A calculation succeeds exactly when the expression is within both limits and has no error of its
      own; it then returns the plain value and the post-order trace numbered from 1. */
  lemma CalculateMeaning(lim: Limits, e: Expr)
    ensures Calculate(lim, e).Ok? <==> Depth(e) <= lim.maxDepth && Nodes(e) <= lim.maxNodes && Pure(e).Ok?
    ensures Calculate(lim, e).Ok? ==> Calculate(lim, e) == Ok((Pure(e).value, Trace(e, 0)))
    ensures Pure(e).Ok? && (Depth(e) > lim.maxDepth || Nodes(e) > lim.maxNodes) ==>
              Calculate(lim, e) == Err(CalculationLimit)
    ensures Depth(e) <= lim.maxDepth && Nodes(e) <= lim.maxNodes && Pure(e).Err? ==>
              Calculate(lim, e) == Err(Pure(e).error)
  {
    EvalAgrees(lim, e, 1, Work(0, []));
    assert [] + Trace(e, 0) == Trace(e, 0);
  }

  // ----- an independent checker: straight-line code on a stack -----

  datatype Instruction =
    | Push(d: Dec)
    | Do(op: Operation, arity: nat, scale: Option<nat>, comparator: Option<Comparator>)

  function Code(e: Expr): seq<Instruction>
    decreases e, 1
  {
    CodeAll(e.operands) + [Do(e.op, |e.operands|, e.scale, e.comparator)]
  }

  function CodeOf(operand: Operand): seq<Instruction>
    decreases operand, 2
  {
    match operand
    case Literal(d) => [Push(d)]
    case Nested(e) => Code(e)
  }

  function CodeAll(ops: seq<Operand>): seq<Instruction>
    decreases ops, 0
  {
    if ops == [] then [] else CodeOf(ops[0]) + CodeAll(ops[1..])
  }

  /** Run the code, recomputing each step of the trace from its inputs on the stack; None rejects. */
  function Check(code: seq<Instruction>, trace: seq<Step>, done: nat, stack: seq<Value>): Option<seq<Value>>
    decreases |code|
  {
    if code == [] then (if trace == [] then Some(stack) else None)
    else
      match code[0]
      case Push(d) => Check(code[1..], trace, done, stack + [Number(d)])
      case Do(op, arity, scale, comparator) =>
        if trace == [] || |stack| < arity then None
        else
          var inputs := stack[|stack| - arity..];
          var r := Apply(op, scale, comparator, inputs);
          if r.Err? || trace[0] != Step(done + 1, op, inputs, r.value, scale, comparator) then None
          else Check(code[1..], trace[1..], done + 1, stack[..|stack| - arity] + [r.value])
  }

  /** What is left to check after the code of one expression. */
  ghost function Continue(ok: bool, steps: seq<Step>, pushed: seq<Value>, rest: seq<Instruction>, trace: seq<Step>,
                          done: nat, stack: seq<Value>): Option<seq<Value>> {
    if ok && steps <= trace then Check(rest, trace[|steps|..], done + |steps|, stack + pushed) else None
  }

  lemma {:induction false} CheckExpr(e: Expr, rest: seq<Instruction>, trace: seq<Step>, done: nat, stack: seq<Value>)
    ensures Check(Code(e) + rest, trace, done, stack)
            == Continue(Pure(e).Ok?, Trace(e, done), if Pure(e).Ok? then [Pure(e).value] else [],
                        rest, trace, done, stack)
    decreases e, 1
  {
    var last := Do(e.op, |e.operands|, e.scale, e.comparator);
    assert Code(e) + rest == CodeAll(e.operands) + ([last] + rest);
    CheckOperands(e.operands, [last] + rest, trace, done, stack);
    var values := PureAll(e.operands);
    if values.Ok? {
      ContinueLast(e, TraceAll(e.operands, done), values.value, rest, trace, done, stack);
    }
  }

  lemma ContinueLast(e: Expr, inner: seq<Step>, values: seq<Value>, rest: seq<Instruction>, trace: seq<Step>,
                     done: nat, stack: seq<Value>)
    requires PureAll(e.operands) == Ok(values)
    ensures var r := Pure(e);
            Continue(true, inner, values, [Do(e.op, |e.operands|, e.scale, e.comparator)] + rest, trace, done, stack)
            == if r.Err? then None
               else Continue(true, inner + [Step(done + |inner| + 1, e.op, values, r.value, e.scale, e.comparator)],
                             [r.value], rest, trace, done, stack)
  {
    if inner <= trace {
      if Pure(e).Ok? {
        TakeOne(inner, Step(done + |inner| + 1, e.op, values, Pure(e).value, e.scale, e.comparator), trace);
      }
    }
  }

  /** A prefix grows by one element exactly when the next element matches. */
  lemma TakeOne(steps: seq<Step>, next: Step, trace: seq<Step>)
    requires steps <= trace
    ensures steps + [next] <= trace <==> trace[|steps|..] != [] && trace[|steps|..][0] == next
    ensures steps + [next] <= trace ==> trace[|steps|..][1..] == trace[|steps| + 1..]
  {
    if trace[|steps|..] != [] && trace[|steps|..][0] == next {
      assert trace[|steps|] == next;
      assert trace[..|steps| + 1] == steps + [next];
    }
  }

  lemma {:induction false} CheckOperand(operand: Operand, rest: seq<Instruction>, trace: seq<Step>, done: nat,
                                        stack: seq<Value>)
    ensures Check(CodeOf(operand) + rest, trace, done, stack)
            == Continue(PureOperand(operand).Ok?, TraceOf(operand, done),
                        if PureOperand(operand).Ok? then [PureOperand(operand).value] else [], rest, trace, done, stack)
    decreases operand, 2
  {
    match operand
    case Literal(d) => assert ([Push(d)] + rest)[1..] == rest && trace[0..] == trace;
    case Nested(e) => CheckExpr(e, rest, trace, done, stack);
  }

  lemma {:induction false} CheckOperands(ops: seq<Operand>, rest: seq<Instruction>, trace: seq<Step>, done: nat,
                                         stack: seq<Value>)
    ensures Check(CodeAll(ops) + rest, trace, done, stack)
            == Continue(PureAll(ops).Ok?, TraceAll(ops, done), if PureAll(ops).Ok? then PureAll(ops).value else [],
                        rest, trace, done, stack)
    decreases ops, 0
  {
    if ops == [] {
      assert [] + rest == rest && trace[0..] == trace && stack + [] == stack;
    } else {
      var tail := CodeAll(ops[1..]) + rest;
      assert CodeAll(ops) + rest == CodeOf(ops[0]) + tail;
      CheckOperand(ops[0], tail, trace, done, stack);
      if PureOperand(ops[0]).Ok? {
        var first, value := TraceOf(ops[0], done), PureOperand(ops[0]).value;
        if first <= trace {
          CheckOperands(ops[1..], rest, trace[|first|..], done + |first|, stack + [value]);
        }
        CheckFirst(ops, CodeOf(ops[0]) + tail, rest, trace, done, stack);
      } else {
        assert PureAll(ops).Err?;
      }
    }
  }

  /** From the first operand and the others, all operands. */
  lemma CheckFirst(ops: seq<Operand>, code: seq<Instruction>, rest: seq<Instruction>, trace: seq<Step>, done: nat,
                   stack: seq<Value>)
    requires ops != [] && PureOperand(ops[0]).Ok?
    requires var first, value := TraceOf(ops[0], done), PureOperand(ops[0]).value;
             var tail, more := CodeAll(ops[1..]) + rest, PureAll(ops[1..]);
             && Check(code, trace, done, stack) == Continue(true, first, [value], tail, trace, done, stack)
             && (first <= trace ==>
                   Check(tail, trace[|first|..], done + |first|, stack + [value])
                   == Continue(more.Ok?, TraceAll(ops[1..], done + |first|), if more.Ok? then more.value else [],
                               rest, trace[|first|..], done + |first|, stack + [value]))
    ensures Check(code, trace, done, stack)
            == Continue(PureAll(ops).Ok?, TraceAll(ops, done), if PureAll(ops).Ok? then PureAll(ops).value else [],
                        rest, trace, done, stack)
  {
    var first, more := TraceOf(ops[0], done), PureAll(ops[1..]);
    CheckBoth(code, CodeAll(ops[1..]) + rest, rest, first, PureOperand(ops[0]).value, more.Ok?,
              TraceAll(ops[1..], done + |first|), if more.Ok? then more.value else [], trace, done, stack);
  }

  /** From the check of one operand and the check of the others, the check of all. */
  lemma CheckBoth(code: seq<Instruction>, tail: seq<Instruction>, rest: seq<Instruction>, first: seq<Step>,
                  value: Value, ok: bool, others: seq<Step>, values: seq<Value>, trace: seq<Step>, done: nat,
                  stack: seq<Value>)
    requires Check(code, trace, done, stack) == Continue(true, first, [value], tail, trace, done, stack)
    requires first <= trace ==>
               Check(tail, trace[|first|..], done + |first|, stack + [value])
               == Continue(ok, others, values, rest, trace[|first|..], done + |first|, stack + [value])
    ensures Check(code, trace, done, stack)
            == Continue(ok, first + others, if ok then [value] + values else [], rest, trace, done, stack)
  {
    ContinueTwice(ok, first, others, value, values, rest, trace, done, stack);
  }

  /** Checking two stretches of a trace one after the other is checking their concatenation. */
  lemma ContinueTwice(ok: bool, first: seq<Step>, others: seq<Step>, value: Value, values: seq<Value>,
                      rest: seq<Instruction>, trace: seq<Step>, done: nat, stack: seq<Value>)
    ensures Continue(ok, first + others, if ok then [value] + values else [], rest, trace, done, stack)
            == if !(first <= trace) then None
               else Continue(ok, others, values, rest, trace[|first|..], done + |first|, stack + [value])
  {
    if first <= trace {
      assert stack + [value] + values == stack + ([value] + values);
      assert done + |first| + |others| == done + |first + others|;
    }
  }

  /** The checker accepts a trace with a final value exactly when the evaluator, within its limits,
      returns that value with that trace. */
  lemma CheckerIffCalculated(lim: Limits, e: Expr, v: Value, trace: seq<Step>)
    requires Depth(e) <= lim.maxDepth && Nodes(e) <= lim.maxNodes
    ensures Check(Code(e), trace, 0, []) == Some([v]) <==> Calculate(lim, e) == Ok((v, trace))
  {
    CalculateMeaning(lim, e);
    assert Code(e) + [] == Code(e);
    CheckExpr(e, [], trace, 0, []);
    if Pure(e).Ok? && Trace(e, 0) <= trace {
      assert [] + [Pure(e).value] == [Pure(e).value];
      if trace[|Trace(e, 0)|..] == [] {
        assert trace == Trace(e, 0);
      }
    }
  }

  // ----- booleans -----

  /** Steps are numbered consecutively, take only decimals in, and only the last can yield a boolean. */
  ghost predicate WellShaped(steps: seq<Step>, before: nat) {
    && (forall i :: 0 <= i < |steps| ==> steps[i].number == before + i + 1 && AllNumbers(steps[i].inputs))
    && (forall i :: 0 <= i < |steps| - 1 ==> steps[i].result.Number?)
  }

  lemma {:induction false} TraceShape(e: Expr, before: nat)
    requires Pure(e).Ok?
    ensures Trace(e, before) != [] && WellShaped(Trace(e, before), before)
    ensures Trace(e, before)[|Trace(e, before)| - 1].result == Pure(e).value
    decreases e, 1
  {
    TraceAllShape(e.operands, before);
  }

  lemma {:induction false} TraceAllShape(ops: seq<Operand>, before: nat)
    requires PureAll(ops).Ok? && AllNumbers(PureAll(ops).value)
    ensures WellShaped(TraceAll(ops, before), before)
    ensures forall i :: 0 <= i < |TraceAll(ops, before)| ==> TraceAll(ops, before)[i].result.Number?
    decreases ops, 0
  {
    if ops != [] {
      var first := TraceOf(ops[0], before);
      var values := PureAll(ops).value;
      assert values == [values[0]] + PureAll(ops[1..]).value;
      assert forall i :: 0 <= i < |PureAll(ops[1..]).value| ==> PureAll(ops[1..]).value[i] == values[i + 1];
      OperandShape(ops[0], before);
      TraceAllShape(ops[1..], before + |first|);
    }
  }

  lemma {:induction false} OperandShape(operand: Operand, before: nat)
    requires PureOperand(operand).Ok? && PureOperand(operand).value.Number?
    ensures WellShaped(TraceOf(operand, before), before)
    ensures forall i :: 0 <= i < |TraceOf(operand, before)| ==> TraceOf(operand, before)[i].result.Number?
    decreases operand, 2
  {
    if operand.Nested? {
      TraceShape(operand.expr, before);
    }
  }

  /** The trace of a successful calculation: numbered 1..k, booleans only as the root's result. */
  lemma CalculatedTraceShape(lim: Limits, e: Expr)
    requires Calculate(lim, e).Ok?
    ensures var (v, trace) := Calculate(lim, e).value;
            && trace != [] && WellShaped(trace, 0) && trace[|trace| - 1].result == v
            && (v.Flag? <==> e.op.Compare?)
  {
    CalculateMeaning(lim, e);
    TraceShape(e, 0);
  }
}
