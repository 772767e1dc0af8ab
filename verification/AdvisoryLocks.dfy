/** Every place of the application that waits for a PostgreSQL advisory lock, as one lock-order system.
    All advisory locks share one space of 64-bit numbers; names reach it through a hash. */
module AdvisoryLocks {
  import opened Prelude

  type Process = nat

  /** An empty document number is never locked. */
  type Document = s: string | s != "" witness "0"

  /** What is turned into a lock number. The bootstrap lock is one fixed number. */
  datatype Name =
    | JobExecution(job: nat)
    | TariffSelection(invoice: nat)
    | ServerKey(server: string)
    | ContentFingerprint(fingerprint: string)
    | SubmissionKey(key: string)
    | SubmissionContent(content: string)
    | AiPrice(provider: string, model: string)
    | FirstAdmin
    | PartnerDocument(document: Document)
    | PartnerName(partner: string)

  type Hash = Name -> int

  function Level(n: Name): nat {
    match n
    case JobExecution(_) => 0
    case PartnerDocument(_) => 2
    case PartnerName(_) => 2
    case _ => 1
  }

  /** Hash collisions may happen inside a level, but not between levels. */
  ghost predicate Separated(h: Hash) {
    forall a, b :: h(a) == h(b) ==> Level(a) == Level(b)
  }

  /** The lock number of some document and of some name. */
  ghost predicate Shared(h: Hash, k: int) {
    exists d: Document, n: string :: h(PartnerDocument(d)) == k && h(PartnerName(n)) == k
  }

  /** Two lock numbers that are both a document's and a name's. */
  ghost predicate Crosswise(h: Hash) {
    exists j, k :: j != k && Shared(h, j) && Shared(h, k)
  }

  predicate Disjoint(h: Hash, key: string, content: string, key': string, content': string) {
    && h(SubmissionKey(key)) != h(SubmissionKey(key'))
    && h(SubmissionKey(key)) != h(SubmissionContent(content'))
    && h(SubmissionContent(content)) != h(SubmissionKey(key'))
    && h(SubmissionContent(content)) != h(SubmissionContent(content'))
  }

  /** Some two submissions share no submission lock, so both can look for their partners at one time. */
  ghost predicate SideBySide(h: Hash) {
    exists key, content, key', content' :: Disjoint(h, key, content, key', content')
  }

  // ----- the order in which the code takes its locks -----

  /** `for key in sorted({a, b})` over lock numbers. */
  function SortedPair(a: int, b: int): (r: seq<int>)
    ensures forall k :: k in r <==> k == a || k == b
    ensures forall m, n :: 0 <= m < n < |r| ==> r[m] < r[n]
  {
    if a == b then [a] else if a < b then [a, b] else [b, a]
  }

  predicate StringLess(s: string, t: string)
    decreases |s|
  {
    t != [] && (s == [] || s[0] < t[0] || (s[0] == t[0] && StringLess(s[1..], t[1..])))
  }

  /** `sorted` over the partner strings always puts the document before the name. */
  lemma DocumentSortsFirst(document: string, name: string)
    ensures StringLess("partner-document:" + document, "partner-name:" + name)
  {
    CommonPrefix("partner-", "document:" + document, "name:" + name);
    assert "partner-" + ("document:" + document) == "partner-document:" + document;
    assert "partner-" + ("name:" + name) == "partner-name:" + name;
  }

  lemma {:induction false} CommonPrefix(p: string, s: string, t: string)
    requires StringLess(s, t)
    ensures StringLess(p + s, p + t)
    decreases |p|
  {
    if p == [] {
      assert p + s == s && p + t == t;
    } else {
      CommonPrefix(p[1..], s, t);
      assert (p + s)[1..] == p[1..] + s && (p + t)[1..] == p[1..] + t;
    }
  }

  /** The waiting transactions and session guards of the application. */
  datatype Work =
    | Handle(job: nat)
    | Ingest(server: string, fingerprint: string)
    | Submit(key: string, content: string, partner: Option<(string, Option<string>)>)
    | Select(invoice: nat)
    | AddPrice(provider: string, model: string)
    | CreateFirstAdmin

  /** The partner strings in sorted order: [document, name], or the name alone. */
  function PartnerNames(partner: Option<(string, Option<string>)>): seq<Name> {
    if partner.None? then []
    else if partner.value.1.None? || partner.value.1.value == "" then [PartnerName(partner.value.0)]
    else [PartnerDocument(partner.value.1.value), PartnerName(partner.value.0)]
  }

  function Numbers(h: Hash, names: seq<Name>): (r: seq<int>)
    ensures |r| == |names| && forall i :: 0 <= i < |r| ==> r[i] == h(names[i])
  {
    seq(|names|, i requires 0 <= i < |names| => h(names[i]))
  }

  function SubmissionPair(h: Hash, key: string, content: string): seq<int> {
    SortedPair(h(SubmissionKey(key)), h(SubmissionContent(content)))
  }

  /** The lock numbers of one unit of work, in acquisition order. */
  function Plan(h: Hash, work: Work): seq<int> {
    match work
    case Handle(job) => [h(JobExecution(job))]
    case Ingest(server, fingerprint) => SortedPair(h(ServerKey(server)), h(ContentFingerprint(fingerprint)))
    case Submit(key, content, partner) => SubmissionPair(h, key, content) + Numbers(h, PartnerNames(partner))
    case Select(invoice) => [h(TariffSelection(invoice))]
    case AddPrice(provider, model) => [h(AiPrice(provider, model))]
    case CreateFirstAdmin => [h(FirstAdmin)]
  }

  // ----- processes -----

  /** `taken` and `pending` are the locks of the current unit of work, in order. The execution guard of the
      running job is held by a session of its own. A process runs a lease recovery transaction while
      `recovering`: it then only tries locks and never waits. */
  datatype Proc = Proc(inJob: bool, recovering: bool, work: Option<Work>, taken: seq<int>, pending: seq<int>)

  datatype State = State(holder: map<int, Process>, procs: map<Process, Proc>)

  datatype Step =
    | StartWork(p: Process, work: Work)
    | Acquire(p: Process)
    | EndWork(p: Process, kept: set<int>)
    | EndAll(p: Process)
    | StartRecovery(p: Process)
    | TryLock(p: Process, job: nat)

  const IDLE := Proc(false, false, None, [], [])

  function ProcOf(s: State, p: Process): Proc {
    if p in s.procs then s.procs[p] else IDLE
  }

  predicate Holds(s: State, p: Process, k: int) {
    k in s.holder && s.holder[k] == p
  }

  predicate HoldsNothing(s: State, p: Process) {
    forall k :: k in s.holder ==> s.holder[k] != p
  }

  ghost predicate IsGuard(h: Hash, k: int) {
    exists job :: k == h(JobExecution(job))
  }

  /** The next lock is held, and not by this very transaction, which could take it again at once. */
  predicate Blocked(s: State, p: Process) {
    var proc := ProcOf(s, p);
    && proc.pending != [] && proc.pending[0] in s.holder
    && !(Holds(s, p, proc.pending[0]) && proc.pending[0] in proc.taken)
  }

  /** A transaction may end at any time, by commit, rollback or connection loss. `kept` are the session
      guards that outlive it: execution guards of the running job. */
  ghost predicate Enabled(h: Hash, s: State, step: Step) {
    var p := ProcOf(s, step.p);
    match step
    case StartWork(_, work) =>
      && p.pending == [] && !p.recovering
      && (work.Handle? ==> p == IDLE && HoldsNothing(s, step.p))
      && forall k :: Holds(s, step.p, k) ==> p.inJob && IsGuard(h, k)
    case Acquire(_) => p.pending != [] && !Blocked(s, step.p)
    case EndWork(_, kept) => !p.recovering && forall k :: k in kept ==> Holds(s, step.p, k) && IsGuard(h, k)
    case EndAll(_) => true
    case StartRecovery(_) => p == IDLE && HoldsNothing(s, step.p)
    case TryLock(_, _) => p.recovering
  }

  function Dropped(holder: map<int, Process>, p: Process, kept: set<int>): map<int, Process> {
    map k | k in holder && (holder[k] != p || k in kept) :: holder[k]
  }

  function Apply(h: Hash, s: State, step: Step): State {
    var p := step.p;
    var proc := ProcOf(s, p);
    match step
    case StartWork(_, work) =>
      s.(procs := s.procs[p := Proc(proc.inJob || work.Handle?, proc.recovering, Some(work), [], Plan(h, work))])
    case Acquire(_) =>
      if proc.pending == [] then s
      else
        var next := proc.(taken := proc.taken + [proc.pending[0]], pending := proc.pending[1..]);
        State(s.holder[proc.pending[0] := p], s.procs[p := next])
    case EndWork(_, kept) => State(Dropped(s.holder, p, kept), s.procs[p := IDLE.(inJob := proc.inJob)])
    case EndAll(_) => State(Dropped(s.holder, p, {}), s.procs[p := IDLE])
    case StartRecovery(_) => s.(procs := s.procs[p := IDLE.(recovering := true)])
    case TryLock(_, job) =>
      if h(JobExecution(job)) in s.holder then s else s.(holder := s.holder[h(JobExecution(job)) := p])
  }

  const START := State(map[], map[])

  ghost predicate Moves(h: Hash, s: State, step: Step, s': State) {
    Enabled(h, s, step) && s' == Apply(h, s, step)
  }

  datatype Run = Run(states: seq<State>, steps: seq<Step>)

  ghost predicate IsRun(h: Hash, r: Run) {
    && |r.states| == |r.steps| + 1
    && r.states[0] == START
    && forall i :: 0 <= i < |r.steps| ==> Moves(h, r.states[i], r.steps[i], r.states[i + 1])
  }

  function Last(r: Run): State
    requires r.states != []
  {
    r.states[|r.states| - 1]
  }

  // ----- what a process holds -----

  function PlanOf(h: Hash, work: Option<Work>): seq<int> {
    if work.None? then [] else Plan(h, work.value)
  }

  /** A process holds what it has taken of its current plan, and otherwise only execution guards; while it
      waits for an execution guard it holds nothing. */
  ghost predicate HoldsItsPlan(h: Hash, s: State, p: Process) {
    var proc := ProcOf(s, p);
    && (proc.recovering ==> proc.work.None?)
    && proc.taken + proc.pending == PlanOf(h, proc.work)
    && (forall k :: k in proc.taken ==> Holds(s, p, k))
    && (forall k :: Holds(s, p, k) ==> k in proc.taken || IsGuard(h, k))
    && (proc.work.Some? && proc.work.value.Handle? && proc.pending != [] ==> HoldsNothing(s, p))
  }

  ghost predicate Inv(h: Hash, s: State) {
    forall p :: HoldsItsPlan(h, s, p)
  }

  lemma StepKeepsInv(h: Hash, s: State, step: Step)
    requires Inv(h, s) && Enabled(h, s, step)
    ensures Inv(h, Apply(h, s, step))
  {
    forall p
      ensures HoldsItsPlan(h, Apply(h, s, step), p)
    {
      assert HoldsItsPlan(h, s, p) && HoldsItsPlan(h, s, step.p);
      if p == step.p { ActorHolds(h, s, step); } else { OtherHolds(h, s, step, p); }
    }
  }

  lemma ActorHolds(h: Hash, s: State, step: Step)
    requires HoldsItsPlan(h, s, step.p) && Enabled(h, s, step)
    ensures HoldsItsPlan(h, Apply(h, s, step), step.p)
  {
    var proc := ProcOf(s, step.p);
    if step.Acquire? {
      assert (proc.taken + [proc.pending[0]]) + proc.pending[1..] == proc.taken + proc.pending;
      assert |proc.taken + proc.pending| == |PlanOf(h, proc.work)|;
    }
  }

  lemma OtherHolds(h: Hash, s: State, step: Step, p: Process)
    requires HoldsItsPlan(h, s, p) && HoldsItsPlan(h, s, step.p) && Enabled(h, s, step) && p != step.p
    ensures HoldsItsPlan(h, Apply(h, s, step), p)
  {
    var s' := Apply(h, s, step);
    assert ProcOf(s', p) == ProcOf(s, p);
    forall k
      ensures Holds(s', p, k) <==> Holds(s, p, k)
    {
    }
  }

  lemma {:induction false} Reachable(h: Hash, r: Run, n: nat)
    requires IsRun(h, r) && n < |r.states|
    ensures Inv(h, r.states[n])
  {
    if n > 0 {
      Reachable(h, r, n - 1);
      assert Moves(h, r.states[n - 1], r.steps[n - 1], r.states[n]);
      StepKeepsInv(h, r.states[n - 1], r.steps[n - 1]);
    }
  }

  // ----- lock order -----

  ghost predicate At(h: Hash, k: int, level: nat) {
    exists n :: h(n) == k && Level(n) == level
  }

  ghost predicate IsDocument(h: Hash, k: int) {
    exists d: Document :: h(PartnerDocument(d)) == k
  }

  ghost predicate IsName(h: Hash, k: int) {
    exists n: string :: h(PartnerName(n)) == k
  }

  /** Levels first; among partner numbers those of documents alone, then shared ones, then names alone. */
  ghost function Rank(h: Hash, k: int): nat {
    if At(h, k, 0) then 0
    else if At(h, k, 1) then 1
    else if !IsDocument(h, k) then 4
    else if IsName(h, k) then 3
    else 2
  }

  ghost predicate Below(h: Hash, a: int, b: int) {
    Rank(h, a) < Rank(h, b) || (Rank(h, a) == Rank(h, b) && a < b)
  }

  /** Position of the first partner lock in a plan. */
  function Front(h: Hash, work: Work): nat {
    if work.Submit? then |SubmissionPair(h, work.key, work.content)| else |Plan(h, work)|
  }

  /** Where the i-th lock of a plan stands in the order. */
  ghost predicate InPlace(h: Hash, work: Work, i: nat)
    requires i < |Plan(h, work)|
  {
    var k, first := Plan(h, work)[i], if work.Handle? then 0 else 1;
    if i < Front(h, work) then At(h, k, first) && Rank(h, k) == first else At(h, k, 2) && Rank(h, k) >= 2
  }

  lemma RankOf(h: Hash, n: Name)
    requires Separated(h)
    ensures At(h, h(n), Level(n))
    ensures if Level(n) < 2 then Rank(h, h(n)) == Level(n) else Rank(h, h(n)) >= 2
  {
  }

  lemma SubmitInPlace(h: Hash, work: Work, i: nat)
    requires Separated(h) && work.Submit? && i < |Plan(h, work)|
    ensures Front(h, work) <= |Plan(h, work)| && InPlace(h, work, i)
  {
    var k, pair := Plan(h, work)[i], SubmissionPair(h, work.key, work.content);
    if i < |pair| {
      assert k == pair[i] && pair[i] in pair;
      RankOf(h, SubmissionKey(work.key));
      RankOf(h, SubmissionContent(work.content));
    } else {
      var name := PartnerNames(work.partner)[i - |pair|];
      assert h(name) == k;
      RankOf(h, name);
    }
  }

  lemma FrontLevel(h: Hash, work: Work, i: nat)
    requires Separated(h) && i < |Plan(h, work)|
    ensures Front(h, work) <= |Plan(h, work)| && InPlace(h, work, i)
  {
    match work
    case Submit(_, _, _) => SubmitInPlace(h, work, i);
    case Ingest(server, fingerprint) =>
      assert Plan(h, work)[i] in Plan(h, work);
      RankOf(h, ServerKey(server));
      RankOf(h, ContentFingerprint(fingerprint));
    case Handle(job) => RankOf(h, JobExecution(job));
    case Select(invoice) => RankOf(h, TariffSelection(invoice));
    case AddPrice(provider, model) => RankOf(h, AiPrice(provider, model));
    case CreateFirstAdmin => RankOf(h, FirstAdmin);
  }

  /** The code's acquisition orders ascend: numbers inside a level, documents before names. The one
      exception is a document and a name whose numbers are both shared. */
  lemma PlanAscends(h: Hash, work: Work, i: nat, j: nat)
    requires Separated(h) && i < j < |Plan(h, work)| && Plan(h, work)[i] != Plan(h, work)[j]
    ensures Below(h, Plan(h, work)[i], Plan(h, work)[j])
            || (i >= Front(h, work) && Shared(h, Plan(h, work)[i]) && Shared(h, Plan(h, work)[j]))
  {
    FrontLevel(h, work, i);
    FrontLevel(h, work, j);
    var a, b := Plan(h, work)[i], Plan(h, work)[j];
    if i >= Front(h, work) {
      var names := PartnerNames(work.partner);
      assert a == h(names[0]) && b == h(names[1]);
      assert IsDocument(h, a) && IsName(h, b);
      if IsName(h, a) && IsDocument(h, b) {
        assert Shared(h, a) && Shared(h, b);
      }
    } else if j < Front(h, work) && work.Submit? {
      var pair := SubmissionPair(h, work.key, work.content);
      assert a == pair[i] && b == pair[j];
    }
  }

  // ----- waiting -----

  /** p is blocked on a lock that q holds. */
  predicate Waits(s: State, p: Process, q: Process) {
    Blocked(s, p) && Holds(s, q, ProcOf(s, p).pending[0])
  }

  ghost predicate Cycle(s: State, ps: seq<Process>) {
    ps != [] && Waits(s, ps[|ps| - 1], ps[0]) && forall i :: 0 <= i < |ps| - 1 ==> Waits(s, ps[i], ps[i + 1])
  }

  function FirstPending(s: State, p: Process): int {
    if ProcOf(s, p).pending == [] then 0 else ProcOf(s, p).pending[0]
  }

  /** A process that has got as far as a partner lock holds both its submission locks. */
  lemma HoldsPair(h: Hash, s: State, p: Process, i: nat)
    requires Separated(h) && HoldsItsPlan(h, s, p)
    requires var proc := ProcOf(s, p); proc.work.Some? && i <= |proc.taken| && i < |Plan(h, proc.work.value)|
    requires At(h, Plan(h, ProcOf(s, p).work.value)[i], 2)
    ensures var work := ProcOf(s, p).work.value;
            work.Submit? && Holds(s, p, h(SubmissionKey(work.key))) && Holds(s, p, h(SubmissionContent(work.content)))
  {
    var proc := ProcOf(s, p);
    var work := proc.work.value;
    FrontLevel(h, work, i);
    assert i >= Front(h, work);
    var pair := SubmissionPair(h, work.key, work.content);
    forall k | k in pair
      ensures Holds(s, p, k)
    {
      var m :| 0 <= m < |pair| && pair[m] == k;
      assert proc.taken[m] == (proc.taken + proc.pending)[m] == Plan(h, work)[m] == k;
      assert k in proc.taken;
    }
  }

  /** Waiting for a partner lock means that two submissions have got that far at one time. */
  lemma PartnerWait(h: Hash, s: State, p: Process, q: Process)
    requires Separated(h) && Inv(h, s) && Waits(s, p, q) && At(h, FirstPending(s, p), 2)
    ensures SideBySide(h)
  {
    assert HoldsItsPlan(h, s, p) && HoldsItsPlan(h, s, q);
    var a, b := ProcOf(s, p), ProcOf(s, q);
    var k := a.pending[0];
    assert (a.taken + a.pending)[|a.taken|] == k;
    HoldsPair(h, s, p, |a.taken|);
    assert !IsGuard(h, k);
    var m :| 0 <= m < |b.taken| && b.taken[m] == k;
    assert (b.taken + b.pending)[m] == k;
    HoldsPair(h, s, q, m);
    assert p != q;
    assert Disjoint(h, a.work.value.key, a.work.value.content, b.work.value.key, b.work.value.content);
  }

  /** Along a chain of waiting processes the awaited locks ascend. */
  lemma WaitsAscend(h: Hash, s: State, p: Process, q: Process, r: Process)
    requires Separated(h) && Inv(h, s) && !(Crosswise(h) && SideBySide(h)) && Waits(s, p, q) && Waits(s, q, r)
    ensures Below(h, FirstPending(s, p), FirstPending(s, q))
  {
    assert HoldsItsPlan(h, s, q);
    var proc := ProcOf(s, q);
    var a, b, j := FirstPending(s, p), FirstPending(s, q), |proc.taken|;
    assert (proc.taken + proc.pending)[j] == b;
    FrontLevel(h, proc.work.value, j);
    if a in proc.taken {
      var i :| 0 <= i < j && proc.taken[i] == a;
      assert (proc.taken + proc.pending)[i] == a;
      PlanAscends(h, proc.work.value, i, j);
      if !Below(h, a, b) {
        FrontLevel(h, proc.work.value, i);
        PartnerWait(h, s, q, r);
      }
    } else {
      assert At(h, a, 0);
      assert !proc.work.value.Handle?;
    }
  }

  /** Lease recovery never waits: it takes a free guard at once and passes over a taken one. An idle process can
      also start a job, and anything can end at any time. */
  lemma RecoveryNeverWaits(h: Hash, s: State, p: Process, job: nat)
    requires ProcOf(s, p) == IDLE && HoldsNothing(s, p)
    ensures Enabled(h, s, StartRecovery(p)) && Enabled(h, s, StartWork(p, Handle(job))) && Enabled(h, s, EndAll(p))
    ensures var s', k := Apply(h, s, StartRecovery(p)), h(JobExecution(job));
            && !Blocked(s', p) && Enabled(h, s', TryLock(p, job))
            && var s'' := Apply(h, s', TryLock(p, job));
               && !Blocked(s'', p) && Enabled(h, s'', EndAll(p))
               && (if k in s.holder then s'' == s' else s''.holder == s.holder[k := p])
  {
  }

  // ----- no deadlock -----

  lemma {:induction false} ChainAscends(h: Hash, s: State, ps: seq<Process>, i: nat)
    requires Separated(h) && Inv(h, s) && !(Crosswise(h) && SideBySide(h)) && Cycle(s, ps) && i < |ps|
    ensures i > 0 ==> Below(h, FirstPending(s, ps[0]), FirstPending(s, ps[i]))
  {
    if i > 0 {
      ChainAscends(h, s, ps, i - 1);
      assert Waits(s, ps[i - 1], ps[i]);
      var next := if i < |ps| - 1 then ps[i + 1] else ps[0];
      assert Waits(s, ps[i], next);
      WaitsAscend(h, s, ps[i - 1], ps[i], next);
    }
  }

  lemma NoCycle(h: Hash, s: State, ps: seq<Process>)
    requires Separated(h) && Inv(h, s) && !(Crosswise(h) && SideBySide(h))
    ensures !Cycle(s, ps)
  {
    if Cycle(s, ps) {
      var last := ps[|ps| - 1];
      var next := if |ps| > 1 then ps[1] else ps[0];
      assert Waits(s, ps[0], next);
      ChainAscends(h, s, ps, |ps| - 1);
      WaitsAscend(h, s, last, ps[0], next);
      assert false;
    }
  }

  ghost predicate CanDeadlock(h: Hash) {
    exists r, ps :: IsRun(h, r) && Cycle(Last(r), ps)
  }

  /** Whatever the hash does inside the levels: a state with a wait cycle is reachable exactly when two lock
      numbers are each shared by a document and a name, and two submissions can get as far as their partners
      together. So one shared number is harmless, for any number of workers, requests and recoveries. */
  lemma DeadlockIff(h: Hash)
    requires Separated(h)
    ensures CanDeadlock(h) <==> Crosswise(h) && SideBySide(h)
  {
    if Crosswise(h) && SideBySide(h) {
      CrossedSubmissions(h);
    }
    if !(Crosswise(h) && SideBySide(h)) {
      forall r, ps | IsRun(h, r)
        ensures !Cycle(Last(r), ps)
      {
        Reachable(h, r, |r.states| - 1);
        NoCycle(h, Last(r), ps);
      }
    }
  }

  /** Where no deadlock is possible: whenever processes are blocked, one of them waits for a process that is
      not blocked itself. */
  lemma SomeHolderRuns(h: Hash, r: Run, n: nat, blocked: set<Process>) returns (p: Process, q: Process)
    requires Separated(h) && !CanDeadlock(h) && IsRun(h, r) && n < |r.states| && blocked != {}
    requires forall b :: b in blocked <==> Blocked(r.states[n], b)
    ensures p in blocked && Waits(r.states[n], p, q) && q !in blocked
  {
    var s := r.states[n];
    DeadlockIff(h);
    Reachable(h, r, n);
    p := Highest(h, s, blocked);
    q := s.holder[FirstPending(s, p)];
    if q in blocked {
      WaitsAscend(h, s, p, q, s.holder[FirstPending(s, q)]);
      assert false;
    }
  }

  lemma {:induction false} Highest(h: Hash, s: State, ps: set<Process>) returns (top: Process)
    requires ps != {}
    ensures top in ps && forall b :: b in ps ==> !Below(h, FirstPending(s, top), FirstPending(s, b))
  {
    top :| top in ps;
    var higher := set b | b in ps && Below(h, FirstPending(s, top), FirstPending(s, b));
    assert top in ps - higher;
    if higher == {} {
      forall b | b in ps
        ensures !Below(h, FirstPending(s, top), FirstPending(s, b))
      {
        assert b !in higher;
      }
    } else {
      top := Highest(h, s, higher);
    }
  }

  // ----- why documents and names must not share lock numbers crosswise -----

  lemma Extend(h: Hash, r: Run, step: Step) returns (longer: Run)
    requires IsRun(h, r) && Enabled(h, Last(r), step)
    ensures IsRun(h, longer) && Last(longer) == Apply(h, Last(r), step)
  {
    longer := Run(r.states + [Apply(h, Last(r), step)], r.steps + [step]);
    forall i | 0 <= i < |longer.steps|
      ensures Moves(h, longer.states[i], longer.steps[i], longer.states[i + 1])
    {
      if i < |r.steps| {
        assert Moves(h, r.states[i], r.steps[i], r.states[i + 1]);
      }
    }
  }

  function HolderAfter(holder: map<int, Process>, p: Process, ks: seq<int>): (r: map<int, Process>)
    ensures forall k :: k in r <==> k in holder || k in ks
    ensures forall k :: k in r ==> r[k] == if k in ks then p else holder[k]
  {
    map k | k in holder.Keys + (set k | k in ks) :: if k in ks then p else holder[k]
  }

  /** The process has taken the first `count` locks of the plan of its work. */
  function Taking(s: State, p: Process, work: Work, plan: seq<int>, count: nat): State
    requires count <= |plan|
  {
    State(HolderAfter(s.holder, p, plan[..count]),
          s.procs[p := Proc(false, false, Some(work), plan[..count], plan[count..])])
  }

  lemma HolderOneMore(holder: map<int, Process>, p: Process, plan: seq<int>, count: nat)
    requires count < |plan|
    ensures HolderAfter(holder, p, plan[..count])[plan[count] := p] == HolderAfter(holder, p, plan[..count + 1])
  {
    assert plan[..count + 1] == plan[..count] + [plan[count]];
  }

  lemma SplitOneMore(plan: seq<int>, count: nat)
    requires count < |plan|
    ensures plan[count..][0] == plan[count] && plan[count..][1..] == plan[count + 1..]
    ensures plan[..count + 1] == plan[..count] + [plan[count]]
  {
  }

  lemma TakeOneMore(h: Hash, s: State, p: Process, work: Work, plan: seq<int>, count: nat)
    requires count < |plan| && plan[count] !in s.holder && plan[count] !in plan[..count]
    ensures Enabled(h, Taking(s, p, work, plan, count), Acquire(p))
    ensures Apply(h, Taking(s, p, work, plan, count), Acquire(p)) == Taking(s, p, work, plan, count + 1)
  {
    var mid := Taking(s, p, work, plan, count);
    SplitOneMore(plan, count);
    HolderOneMore(s.holder, p, plan, count);
  }

  /** A new process begins its work and takes its first locks, which are free and distinct. */
  lemma {:induction false} TakeSome(h: Hash, r: Run, p: Process, work: Work, plan: seq<int>, count: nat)
    returns (longer: Run)
    requires IsRun(h, r) && p !in Last(r).procs && HoldsNothing(Last(r), p)
    requires plan == Plan(h, work) && count <= |plan| && !work.Handle?
    requires forall i :: 0 <= i < count ==> plan[i] !in Last(r).holder
    requires forall i, j :: 0 <= i < j < count ==> plan[i] != plan[j]
    ensures IsRun(h, longer) && Last(longer) == Taking(Last(r), p, work, plan, count)
    decreases count
  {
    if count == 0 {
      longer := Extend(h, r, StartWork(p, work));
      assert HolderAfter(Last(r).holder, p, []) == Last(r).holder;
      assert plan[0..] == plan;
    } else {
      longer := TakeSome(h, r, p, work, plan, count - 1);
      TakeOneMore(h, Last(r), p, work, plan, count - 1);
      longer := Extend(h, longer, Acquire(p));
    }
  }

  /** What the plan of a submission with a document looks like. */
  lemma SubmitPlan(h: Hash, key: string, content: string, document: Document, name: string)
    requires Separated(h) && h(PartnerDocument(document)) != h(PartnerName(name))
    ensures var plan := Plan(h, Submit(key, content, Some((name, Some(document)))));
            var n := |SubmissionPair(h, key, content)|;
            && |plan| == n + 2 && plan[n] == h(PartnerDocument(document)) && plan[n + 1] == h(PartnerName(name))
            && (forall i :: 0 <= i < n ==> plan[i] == h(SubmissionKey(key)) || plan[i] == h(SubmissionContent(content)))
            && (forall i, j :: 0 <= i < j < n + 2 ==> plan[i] != plan[j])
  {
    var pair := SubmissionPair(h, key, content);
    var plan := Plan(h, Submit(key, content, Some((name, Some(document)))));
    forall i | 0 <= i < |pair|
      ensures plan[i] == h(SubmissionKey(key)) || plan[i] == h(SubmissionContent(content))
    {
      assert plan[i] == pair[i] && pair[i] in pair;
    }
    forall i, j | 0 <= i < j < |plan|
      ensures plan[i] != plan[j]
    {
      if j < |pair| {
        assert plan[i] == pair[i] && plan[j] == pair[j];
      }
    }
  }

  /** Partner locks are sorted as strings, not as numbers. If one document shares its lock number with one
      name, and another document with another name, two ordinary submissions can block each other. */
  lemma PartnerCollisionDeadlocks(h: Hash, first: Work, second: Work) returns (r: Run)
    requires Separated(h) && first.Submit? && second.Submit?
    requires Disjoint(h, first.key, first.content, second.key, second.content)
    requires Crossed(h, PartnerNames(first.partner), PartnerNames(second.partner))
    ensures IsRun(h, r) && Cycle(Last(r), [0, 1])
    ensures ProcOf(Last(r), 0).work == Some(first) && ProcOf(Last(r), 1).work == Some(second)
  {
    var document, name := first.partner.value.1.value, first.partner.value.0;
    var document', name' := second.partner.value.1.value, second.partner.value.0;
    SubmitPlan(h, first.key, first.content, document, name);
    SubmitPlan(h, second.key, second.content, document', name');
    var plan, plan' := Plan(h, first), Plan(h, second);
    var begin := Run([START], []);
    r := TakeSome(h, begin, 0, first, plan, |plan| - 1);
    forall i | 0 <= i < |plan'| - 1
      ensures plan'[i] !in plan[..|plan| - 1]
    {
    }
    r := TakeSome(h, r, 1, second, plan', |plan'| - 1);
    assert plan[|plan| - 2] in plan[..|plan| - 1] && plan'[|plan'| - 2] in plan'[..|plan'| - 1];
    assert plan[|plan| - 1] !in plan[..|plan| - 1] && plan'[|plan'| - 1] !in plan'[..|plan'| - 1];
    assert Waits(Last(r), 0, 1) && Waits(Last(r), 1, 0);
  }

  /** The document of each shares its number with the name of the other. */
  predicate Crossed(h: Hash, names: seq<Name>, names': seq<Name>) {
    && |names| == |names'| == 2
    && h(names[0]) == h(names'[1]) && h(names[1]) == h(names'[0]) && h(names[0]) != h(names[1])
  }

  lemma CrossedSubmissions(h: Hash)
    requires Separated(h) && Crosswise(h) && SideBySide(h)
    ensures CanDeadlock(h)
  {
    var j, k :| j != k && Shared(h, j) && Shared(h, k);
    var d: Document, n: string :| h(PartnerDocument(d)) == j && h(PartnerName(n)) == j;
    var d': Document, n': string :| h(PartnerDocument(d')) == k && h(PartnerName(n')) == k;
    var key, content, key', content' :| Disjoint(h, key, content, key', content');
    var first, second := Submit(key, content, Some((n', Some(d)))), Submit(key', content', Some((n, Some(d'))));
    var r := PartnerCollisionDeadlocks(h, first, second);
  }

  /** A hash with two numbers shared crosswise; all other names have numbers of their own level. */
  function Colliding(n: Name): int {
    match n
    case JobExecution(job) => -1 - job
    case SubmissionKey(key) => if key == "a" then 1 else 2
    case SubmissionContent(content) => if content == "a" then 3 else 4
    case PartnerDocument(document) => if document == "1" then 5 else 6
    case PartnerName(partner) => if partner == "x" then 5 else 6
    case _ => 0
  }

  /** The condition can be met. */
  lemma CollidingCondition()
    ensures Separated(Colliding) && Crosswise(Colliding) && SideBySide(Colliding)
  {
    assert Disjoint(Colliding, "a", "a", "b", "b");
    assert Colliding(PartnerDocument("1")) == 5 && Colliding(PartnerName("x")) == 5;
    assert Colliding(PartnerDocument("2")) == 6 && Colliding(PartnerName("y")) == 6;
    assert Shared(Colliding, 5) && Shared(Colliding, 6);
  }

  /** Two concrete submissions that wait for each other under this hash. */
  lemma CollidingDeadlocks() returns (r: Run)
    ensures IsRun(Colliding, r) && Cycle(Last(r), [0, 1])
    ensures ProcOf(Last(r), 0).work == Some(Submit("a", "a", Some(("y", Some("1")))))
    ensures ProcOf(Last(r), 1).work == Some(Submit("b", "b", Some(("x", Some("2")))))
  {
    CollidingCondition();
    var first, second := Submit("a", "a", Some(("y", Some("1")))), Submit("b", "b", Some(("x", Some("2"))));
    r := PartnerCollisionDeadlocks(Colliding, first, second);
  }
}
