/** The bounded tool loop of the OpenAI provider against an arbitrary, possibly endless stream of responses. */
module ToolLoop {
  import opened Prelude

  datatype Usage = Usage(input: int, cached: int, output: int)

  /** A requested call: whether the tool is known and the call traceable, and whether it succeeds. */
  datatype Call = Call(traceable: bool, succeeds: bool)

  datatype Response = Response(usage: Usage, calls: seq<Call>, completed: bool, hasIdentity: bool,
                               output: Option<string>)

  datatype Answer = Answer(output: string, usage: Usage, rounds: nat, calls: nat)

  /** What a request can raise. */
  datatype Failure = Timeout | RateLimit | Transport | RequestRejected

  /** What the provider answers to each request of a conversation. */
  type Stream = nat -> Result<Response, Failure>

  datatype Error = InvalidLimits | RequestFailed(failure: Failure) | ToolLoopLimit | InvalidResponse | ToolExecution

  function UsageOf(reply: Result<Response, Failure>): Usage {
    if reply.Ok? then reply.value.usage else Usage(0, 0, 0)
  }

  function CallsOf(reply: Result<Response, Failure>): seq<Call> {
    if reply.Ok? then reply.value.calls else []
  }

  function Plus(a: Usage, b: Usage): Usage {
    Usage(a.input + b.input, a.cached + b.cached, a.output + b.output)
  }

  /** Total usage of the first n responses. */
  function TotalUsage(stream: Stream, n: nat): Usage {
    if n == 0 then Usage(0, 0, 0) else Plus(TotalUsage(stream, n - 1), UsageOf(stream(n - 1)))
  }

  function TotalCalls(stream: Stream, n: nat): nat {
    if n == 0 then 0 else TotalCalls(stream, n - 1) + |CallsOf(stream(n - 1))|
  }

  /** f(0) + ... + f(n - 1). */
  function Sum(f: nat -> int, n: nat): int {
    if n == 0 then 0 else Sum(f, n - 1) + f(n - 1)
  }

  /** The total usage is the sum of the usages of the replies, count by count; a failed request has none. */
  lemma {:induction false} UsageIsSum(stream: Stream, n: nat)
    ensures TotalUsage(stream, n).input
            == Sum((k: nat) => if stream(k).Ok? then stream(k).value.usage.input else 0, n)
    ensures TotalUsage(stream, n).cached
            == Sum((k: nat) => if stream(k).Ok? then stream(k).value.usage.cached else 0, n)
    ensures TotalUsage(stream, n).output
            == Sum((k: nat) => if stream(k).Ok? then stream(k).value.usage.output else 0, n)
    ensures TotalCalls(stream, n) == Sum((k: nat) => if stream(k).Ok? then |stream(k).value.calls| else 0, n)
  {
    if n > 0 {
      UsageIsSum(stream, n - 1);
    }
  }

  predicate AllRun(calls: seq<Call>) {
    forall i :: 0 <= i < |calls| ==> calls[i].traceable && calls[i].succeeds
  }

  /** The conversation reaches response n: every earlier one asked for tools, stayed within the limits, and
      all its calls ran. */
  ghost predicate Reaches(stream: Stream, maxRounds: int, maxCalls: int, n: nat) {
    forall k :: 0 <= k < n ==> Continues(stream, maxRounds, maxCalls, k)
  }

  predicate Continues(stream: Stream, maxRounds: int, maxCalls: int, k: nat) {
    && CallsOf(stream(k)) != [] && k + 1 <= maxRounds && TotalCalls(stream, k + 1) <= maxCalls
    && AllRun(CallsOf(stream(k))) && stream(k).value.hasIdentity
  }

  /** How the conversation ends at reply n, with which it does not continue. */
  function Ending(stream: Stream, maxRounds: int, maxCalls: int, n: nat): Result<Answer, Error> {
    match stream(n)
    case Err(failure) => Err(RequestFailed(failure))
    case Ok(response) =>
      if response.calls == [] then
        if !response.completed || response.output.None? then Err(InvalidResponse)
        else Ok(Answer(response.output.value, TotalUsage(stream, n + 1), n, TotalCalls(stream, n)))
      else if n + 1 > maxRounds || TotalCalls(stream, n + 1) > maxCalls then Err(ToolLoopLimit)
      else if FirstProblem(response.calls).Some? then Err(FirstProblem(response.calls).value)
      else Err(InvalidResponse)
  }

  /** Which ending means what: an answer is the validated output of a completed reply without calls, and the loop
      limit is hit exactly by calls that exceed one of the two limits. */
  lemma EndingMeans(stream: Stream, maxRounds: int, maxCalls: int, n: nat)
    requires !Continues(stream, maxRounds, maxCalls, n)
    ensures var r, reply := Ending(stream, maxRounds, maxCalls, n), stream(n);
            && (r.Ok? <==> reply.Ok? && reply.value.calls == [] && reply.value.completed && reply.value.output.Some?)
            && (r.Ok? ==> r.value.output == reply.value.output.value && r.value.usage == TotalUsage(stream, n + 1)
                          && r.value.rounds == n && r.value.calls == TotalCalls(stream, n))
            && (r == Err(ToolLoopLimit) <==>
                  reply.Ok? && reply.value.calls != []
                  && (n + 1 > maxRounds || TotalCalls(stream, n) + |reply.value.calls| > maxCalls))
            && (forall failure :: r == Err(RequestFailed(failure)) <==> reply == Err(failure))
            && (reply.Ok? && reply.value.calls == [] && r.Err? ==> r == Err(InvalidResponse))
  {
    if stream(n).Ok? { ProblemIffSomeFails(stream(n).value.calls); }
  }

  function FirstProblem(calls: seq<Call>): Option<Error> {
    if calls == [] then None
    else if !calls[0].traceable then Some(InvalidResponse)
    else if !calls[0].succeeds then Some(ToolExecution)
    else FirstProblem(calls[1..])
  }

  lemma {:induction false} ProblemIffSomeFails(calls: seq<Call>)
    ensures FirstProblem(calls).None? <==> AllRun(calls)
    ensures FirstProblem(calls).Some? ==>
              FirstProblem(calls) == Some(InvalidResponse) || FirstProblem(calls) == Some(ToolExecution)
  {
    if calls != [] {
      ProblemIffSomeFails(calls[1..]);
      assert AllRun(calls) <==> calls[0].traceable && calls[0].succeeds && AllRun(calls[1..]) by {
        assert forall i :: 0 < i < |calls| ==> calls[i] == calls[1..][i - 1];
      }
    }
  }

  /** Tool rounds are no more than tool calls; every reply before the last had an identity and calls, and all its
      calls ran. */
  lemma {:induction false} RoundsAtMostCalls(stream: Stream, maxRounds: int, maxCalls: int, n: nat)
    requires Reaches(stream, maxRounds, maxCalls, n)
    ensures n <= TotalCalls(stream, n)
    ensures n > 0 ==> n <= maxRounds && TotalCalls(stream, n) <= maxCalls
    ensures forall k :: 0 <= k < n ==>
              && stream(k).Ok? && stream(k).value.hasIdentity && stream(k).value.calls != []
              && forall call :: call in stream(k).value.calls ==> call.traceable && call.succeeds
  {
    assert forall k :: 0 <= k < n ==> Continues(stream, maxRounds, maxCalls, k);
    if n > 0 {
      assert Continues(stream, maxRounds, maxCalls, n - 1);
      RoundsAtMostCalls(stream, maxRounds, maxCalls, n - 1);
    }
  }

  /** Exactly the calls up to the first problem were started: an untraceable call is not, a failing one is. */
  predicate StartedUpTo(calls: seq<Call>, problem: Option<Error>, started: nat) {
    match problem
    case None => started == |calls| && AllRun(calls)
    case Some(InvalidResponse) => started < |calls| && AllRun(calls[..started]) && !calls[started].traceable
    case Some(ToolExecution) =>
      && 1 <= started <= |calls| && AllRun(calls[..started - 1])
      && calls[started - 1].traceable && !calls[started - 1].succeeds
    case _ => false
  }

  /** Run one response's calls in order, stopping at the first problem. */
  method RunCalls(calls: seq<Call>) returns (problem: Option<Error>, started: nat)
    ensures problem == FirstProblem(calls) && StartedUpTo(calls, problem, started)
  {
    started := 0;
    for i := 0 to |calls|
      invariant started == i && FirstProblem(calls) == FirstProblem(calls[i..]) && AllRun(calls[..i])
    {
      assert calls[i..][0] == calls[i] && calls[i..][1..] == calls[i + 1..];
      if !calls[i].traceable {
        return Some(InvalidResponse), started;
      }
      started := started + 1;
      if !calls[i].succeeds {
        return Some(ToolExecution), started;
      }
    }
    assert calls[|calls|..] == [] && calls[..|calls|] == calls;
    return None, started;
  }

  /** The last reply has calls that the loop went on to run. */
  predicate RanLast(stream: Stream, maxRounds: int, maxCalls: int, n: nat) {
    CallsOf(stream(n)) != [] && n + 1 <= maxRounds && TotalCalls(stream, n + 1) <= maxCalls
  }

  /** Whatever the stream: at most min(maxRounds, maxCalls) + 1 requests and maxCalls calls started; the
      result is the ending of the one conversation the stream determines, with the usage of all of it. */
  method Generate(stream: Stream, maxRounds: int, maxCalls: int)
    returns (r: Result<Answer, Error>, requests: nat, started: nat)
    ensures maxRounds < 0 || maxCalls < 0 ==> r == Err(InvalidLimits) && requests == 0 && started == 0
    ensures maxRounds >= 0 && maxCalls >= 0 ==>
              && 1 <= requests <= maxRounds + 1 && requests <= maxCalls + 1
              && started <= maxCalls
              && Reaches(stream, maxRounds, maxCalls, requests - 1)
              && !Continues(stream, maxRounds, maxCalls, requests - 1)
              && r == Ending(stream, maxRounds, maxCalls, requests - 1)
              && (r.Ok? ==> started == r.value.calls && r.value.rounds <= r.value.calls)
              && started >= TotalCalls(stream, requests - 1)
              && var last, ran := CallsOf(stream(requests - 1)), started - TotalCalls(stream, requests - 1);
                 if RanLast(stream, maxRounds, maxCalls, requests - 1)
                 then StartedUpTo(last, FirstProblem(last), ran) else ran == 0
  {
    if maxRounds < 0 || maxCalls < 0 {
      return Err(InvalidLimits), 0, 0;
    }
    var usage := Usage(0, 0, 0);
    var totalCalls, rounds: nat := 0, 0;
    requests, started := 0, 0;
    while true
      invariant requests == rounds <= maxRounds && started == totalCalls <= maxCalls
      invariant usage == TotalUsage(stream, requests) && totalCalls == TotalCalls(stream, requests)
      invariant Reaches(stream, maxRounds, maxCalls, requests)
      decreases maxRounds - rounds
    {
      RoundsAtMostCalls(stream, maxRounds, maxCalls, requests);
      var reply := stream(requests);
      requests := requests + 1;
      if reply.Err? {
        return Err(RequestFailed(reply.error)), requests, started;
      }
      var response := reply.value;
      usage := Plus(usage, response.usage);
      if response.calls == [] {
        if !response.completed || response.output.None? {
          return Err(InvalidResponse), requests, started;
        }
        return Ok(Answer(response.output.value, usage, rounds, totalCalls)), requests, started;
      }
      rounds := rounds + 1;
      totalCalls := totalCalls + |response.calls|;
      if rounds > maxRounds || totalCalls > maxCalls {
        return Err(ToolLoopLimit), requests, started;
      }
      ProblemIffSomeFails(response.calls);
      var problem, ran := RunCalls(response.calls);
      started := started + ran;
      if problem.Some? {
        return Err(problem.value), requests, started;
      }
      if !response.hasIdentity {
        return Err(InvalidResponse), requests, started;
      }
    }
  }

  /** The conversation ends at one reply only. */
  lemma EndsOnce(stream: Stream, maxRounds: int, maxCalls: int, m: nat, n: nat)
    requires Reaches(stream, maxRounds, maxCalls, m) && !Continues(stream, maxRounds, maxCalls, m)
    requires Reaches(stream, maxRounds, maxCalls, n) && !Continues(stream, maxRounds, maxCalls, n)
    ensures m == n
  {
  }
}
