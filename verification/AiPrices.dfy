/** Price versions of AI models: half-open validity windows, added under an advisory lock by any number of
    concurrent administrators, and looked up by instant. */
module AiPrices {
  import opened Prelude

  type Process = nat
  type PriceId = nat
  type Time = int

  /** Valid from `from` up to but not including `until`; None is open-ended. */
  datatype Price = Price(provider: string, model: string, version: string, from: Time, until: Option<Time>, rate: int)

  type Prices = map<PriceId, Price>

  predicate Covers(p: Price, at: Time) {
    p.from <= at && (p.until.None? || p.until.value > at)
  }

  predicate SameModel(p: Price, q: Price) {
    p.provider == q.provider && p.model == q.model
  }

  /** The filters of the overlap query, for a candidate q. */
  predicate Hit(p: Price, q: Price) {
    && SameModel(p, q)
    && (p.until.None? || p.until.value > q.from)
    && (q.until.Some? ==> p.from < q.until.value)
  }

  predicate Proper(p: Price) {
    p.until.Some? ==> p.until.value > p.from
  }

  /** For windows that the table accepts, the query hits exactly the windows that share an instant. */
  lemma HitIffShared(p: Price, q: Price)
    requires Proper(p) && Proper(q) && SameModel(p, q)
    ensures Hit(p, q) <==> exists at :: Covers(p, at) && Covers(q, at)
  {
    if Hit(p, q) {
      var at := if p.from >= q.from then p.from else q.from;
      assert Covers(p, at) && Covers(q, at);
    }
  }

  ghost predicate Disjoint(prices: Prices) {
    forall i, j, at ::
      (i in prices && j in prices && SameModel(prices[i], prices[j]) && Covers(prices[i], at)
        && Covers(prices[j], at)) ==> i == j
  }

  ghost predicate AnyHit(prices: Prices, q: Price) {
    exists i :: i in prices && Hit(prices[i], q)
  }

  ghost predicate VersionTaken(prices: Prices, q: Price) {
    exists i :: i in prices && SameModel(prices[i], q) && prices[i].version == q.version
  }

  /** A proper candidate passes the overlap check exactly when no stored window of the same provider and model
      shares an instant with it. */
  lemma PassesIff(prices: Prices, q: Price)
    requires Proper(q) && forall i :: i in prices ==> Proper(prices[i])
    ensures AnyHit(prices, q)
            <==> exists i, at :: i in prices && prices[i].provider == q.provider && prices[i].model == q.model
                   && InWindow(prices[i], at) && InWindow(q, at)
  {
    if i :| i in prices && Hit(prices[i], q) {
      HitIffShared(prices[i], q);
      var at :| Covers(prices[i], at) && Covers(q, at);
      assert InWindow(prices[i], at) && InWindow(q, at);
    }
    if i, at :| i in prices && prices[i].provider == q.provider && prices[i].model == q.model
                && InWindow(prices[i], at) && InWindow(q, at) {
      assert Covers(prices[i], at) && Covers(q, at);
      HitIffShared(prices[i], q);
    }
  }

  /** From the first instant on, before the last one if there is one. */
  predicate InWindow(p: Price, at: Time) {
    match p.until
    case None => at >= p.from
    case Some(end) => p.from <= at < end
  }

  // ----- concurrent additions -----

  datatype Phase = Waiting(price: Price) | Locked(price: Price) | Checked(price: Price)

  datatype State = State(prices: Prices, locks: map<int, Process>, procs: map<Process, Phase>)

  datatype Step =
    | Begin(p: Process, price: Price)
    | Lock(p: Process)
    | Check(p: Process)
    | Insert(p: Process, id: PriceId)
    | Abort(p: Process)

  /** Lock number of (provider, model); it may collide. */
  type Hash = (string, string) -> int

  function LockOf(h: Hash, q: Price): int {
    h(q.provider, q.model)
  }

  ghost predicate Enabled(h: Hash, s: State, step: Step) {
    match step
    case Begin(p, _) => p !in s.procs
    case Lock(p) => p in s.procs && s.procs[p].Waiting? && LockOf(h, s.procs[p].price) !in s.locks
    case Check(p) => p in s.procs && s.procs[p].Locked? && !AnyHit(s.prices, s.procs[p].price)
    case Insert(p, id) =>
      p in s.procs && s.procs[p].Checked? && id !in s.prices
      && Proper(s.procs[p].price) && !VersionTaken(s.prices, s.procs[p].price)
    case Abort(p) => p in s.procs
  }

  function Freed(locks: map<int, Process>, p: Process): map<int, Process> {
    map k | k in locks && locks[k] != p :: locks[k]
  }

  function Apply(h: Hash, s: State, step: Step): State {
    var p := step.p;
    if step.Begin? then s.(procs := s.procs[p := Waiting(step.price)])
    else if p !in s.procs then s
    else
      var price := s.procs[p].price;
      var free := Freed(s.locks, p);
      match step
      case Lock(_) => s.(locks := s.locks[LockOf(h, price) := p], procs := s.procs[p := Locked(price)])
      case Check(_) => s.(procs := s.procs[p := Checked(price)])
      case Insert(_, id) => State(s.prices[id := price], free, s.procs - {p})
      case _ => s.(locks := free, procs := s.procs - {p})
  }

  ghost predicate ProcInv(h: Hash, s: State, p: Process)
    requires p in s.procs
  {
    var price := s.procs[p].price;
    && (!s.procs[p].Waiting? ==> LockOf(h, price) in s.locks && s.locks[LockOf(h, price)] == p)
    && (s.procs[p].Checked? ==> !AnyHit(s.prices, price))
  }

  ghost predicate Inv(h: Hash, s: State) {
    && (forall i :: i in s.prices ==> Proper(s.prices[i]))
    && Disjoint(s.prices)
    && forall p :: p in s.procs ==> ProcInv(h, s, p)
  }

  /** While one administrator is between check and insert nobody adds a price of the same model. */
  lemma StepKeepsInv(h: Hash, s: State, step: Step)
    requires Inv(h, s) && Enabled(h, s, step)
    ensures Inv(h, Apply(h, s, step))
  {
    var s' := Apply(h, s, step);
    if step.Insert? {
      assert ProcInv(h, s, step.p);
    }
    forall p | p in s'.procs
      ensures ProcInv(h, s', p)
    {
      if p != step.p {
        assert ProcInv(h, s, p);
        if step.Insert? && s.procs[p].Checked? {
          assert !SameModel(s.procs[step.p].price, s.procs[p].price);
        }
      }
    }
  }

  datatype Run = Run(states: seq<State>, steps: seq<Step>)

  ghost predicate IsRun(h: Hash, r: Run) {
    && |r.states| == |r.steps| + 1
    && r.states[0] == State(map[], map[], map[])
    && forall i :: 0 <= i < |r.steps| ==>
         Enabled(h, r.states[i], r.steps[i]) && r.states[i + 1] == Apply(h, r.states[i], r.steps[i])
  }

  /** Windows of one model never share an instant, after any interleaving of additions. */
  lemma {:induction false} WindowsDisjoint(h: Hash, r: Run, n: nat)
    requires IsRun(h, r) && n < |r.states|
    ensures Disjoint(r.states[n].prices) && Inv(h, r.states[n])
  {
    if n > 0 {
      WindowsDisjoint(h, r, n - 1);
      StepKeepsInv(h, r.states[n - 1], r.steps[n - 1]);
    }
  }

  lemma ExtendRun(h: Hash, r: Run, step: Step) returns (longer: Run)
    requires IsRun(h, r) && Enabled(h, r.states[|r.steps|], step)
    ensures IsRun(h, longer) && longer.states[|longer.steps|] == Apply(h, r.states[|r.steps|], step)
  {
    longer := Run(r.states + [Apply(h, r.states[|r.steps|], step)], r.steps + [step]);
  }

  lemma FreedAgain(locks: map<int, Process>, lock: int, p: Process)
    requires lock !in locks && forall k :: k in locks ==> locks[k] != p
    ensures Freed(locks[lock := p], p) == locks
  {
    var held := locks[lock := p];
    forall k
      ensures k in Freed(held, p) <==> k in locks
    {
      assert k in locks ==> held[k] == locks[k];
      assert k in Freed(held, p) <==> k in held && held[k] != p;
    }
  }

  /** A proper price with a new version that shares no instant with the windows of its model can be added by a
      request that finds its lock free, and nothing else changes. */
  lemma PriceCanBeAdded(h: Hash, r: Run, p: Process, id: PriceId, price: Price) returns (longer: Run)
    requires IsRun(h, r) && Proper(price)
    requires var s := r.states[|r.steps|];
             && p !in s.procs && id !in s.prices && LockOf(h, price) !in s.locks
             && (forall k :: k in s.locks ==> s.locks[k] != p) && !VersionTaken(s.prices, price)
             && forall i, at ::
                  i in s.prices && s.prices[i].provider == price.provider && s.prices[i].model == price.model ==>
                  !(InWindow(s.prices[i], at) && InWindow(price, at))
    ensures IsRun(h, longer)
    ensures var s := r.states[|r.steps|];
            longer.states[|longer.steps|] == s.(prices := s.prices[id := price])
  {
    var s := r.states[|r.steps|];
    WindowsDisjoint(h, r, |r.steps|);
    PassesIff(s.prices, price);
    longer := ExtendRun(h, r, Begin(p, price));
    longer := ExtendRun(h, longer, Lock(p));
    longer := ExtendRun(h, longer, Check(p));
    var locked := s.locks[LockOf(h, price) := p];
    assert longer.states[|longer.steps|] == s.(locks := locked, procs := s.procs[p := Checked(price)]);
    longer := ExtendRun(h, longer, Insert(p, id));
    FreedAgain(s.locks, LockOf(h, price), p);
    assert s.procs[p := Checked(price)] - {p} == s.procs;
  }

  /** A request may stop at any point without having added anything; its lock is then free. */
  lemma RequestMayAbort(h: Hash, s: State, p: Process)
    requires p in s.procs
    ensures Enabled(h, s, Abort(p))
    ensures var s' := Apply(h, s, Abort(p));
            s'.prices == s.prices && p !in s'.procs && forall k :: k in s'.locks ==> s'.locks[k] != p
  {
  }

  // ----- lookup -----

  predicate Applies(p: Price, provider: string, model: string, at: Time) {
    p.provider == provider && p.model == model && Covers(p, at)
  }

  /** `ORDER BY effective_from DESC LIMIT 1` over the rows that apply; `rows` is the order in which the
      database happens to read them. */
  method EffectivePrice(rows: seq<PriceId>, prices: Prices, provider: string, model: string, at: Time)
    returns (r: Option<PriceId>)
    requires forall i :: i in rows <==> i in prices
    ensures r.Some? ==> r.value in prices && Applies(prices[r.value], provider, model, at)
                        && forall i :: i in prices && Applies(prices[i], provider, model, at) ==>
                             prices[i].from <= prices[r.value].from
    ensures r.None? ==> forall i :: i in prices ==> !Applies(prices[i], provider, model, at)
  {
    r := None;
    for n := 0 to |rows|
      invariant r.Some? ==> r.value in prices && Applies(prices[r.value], provider, model, at)
      invariant forall k :: 0 <= k < n && Applies(prices[rows[k]], provider, model, at) ==>
                  r.Some? && prices[rows[k]].from <= prices[r.value].from
    {
      if Applies(prices[rows[n]], provider, model, at) && (r.None? || prices[rows[n]].from > prices[r.value].from) {
        r := Some(rows[n]);
      }
    }
    forall i | i in prices && Applies(prices[i], provider, model, at)
      ensures r.Some? && prices[i].from <= prices[r.value].from
    {
      var k :| 0 <= k < |rows| && rows[k] == i;
    }
  }

  /** So at every instant of every run the lookup has at most one candidate, and any answer it may give is
      that one: ordering and insertion order do not matter. */
  lemma LookupIsMembership(h: Hash, r: Run, n: nat, provider: string, model: string, at: Time, i: PriceId, j: PriceId)
    requires IsRun(h, r) && n < |r.states| && i in r.states[n].prices && j in r.states[n].prices
    requires Applies(r.states[n].prices[i], provider, model, at) && Applies(r.states[n].prices[j], provider, model, at)
    ensures i == j
  {
    WindowsDisjoint(h, r, n);
  }
}
