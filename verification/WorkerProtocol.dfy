/** N workers over one job table: claim, execution guard, handler, finish, crash, lease recovery.
    Every database transaction is one step; the handler is the interval between guard and finish. */
module WorkerProtocol {
  import opened Prelude
  import opened JobKeys
  import opened JobQueue

  /** Where a worker is inside `run_once`. `epoch` is the attempt number its claim returned.
      `owned` records whether the row was still leased to the worker when it took the guard. */
  datatype Phase =
    | Idle
    | Claimed(job: JobId, epoch: int)
    | Handling(job: JobId, epoch: int, owned: bool)
    | Leaving(job: JobId, finished: bool)

  datatype State = State(rows: Table, holder: map<int, WorkerId>, phases: map<WorkerId, Phase>)

  datatype Step =
    | Enqueue(newId: JobId, jobType: string, key: JobKey, payload: string, maxAttempts: int,
              availableAt: Time, priority: int, at: Time)
    | Claim(w: WorkerId, id: JobId, now: Time)
    | TakeGuard(w: WorkerId)
    | Heartbeat(w: WorkerId, id: JobId, now: Time)
    | Succeed(w: WorkerId, now: Time)
    | Fail(w: WorkerId, now: Time, error: string, retryDelay: Time)
    | Release(w: WorkerId)
    | Crash(w: WorkerId)
    | Recover(id: JobId, now: Time, leaseTimeout: Time, retryDelay: Time)

  function PhaseOf(s: State, w: WorkerId): Phase {
    if w in s.phases then s.phases[w] else Idle
  }

  predicate InGuard(p: Phase) {
    p.Handling? || p.Leaving?
  }

  predicate Finishes(step: Step) {
    step.Succeed? || step.Fail?
  }

  function Actor(step: Step): Option<WorkerId> {
    if step.Enqueue? || step.Recover? then None else Some(step.w)
  }

  /** Clock readings are unconstrained: workers' clocks may disagree and `now` may be stale. */
  predicate Enabled(keyOf: JobId -> int, s: State, step: Step) {
    match step
    case Enqueue(newId, _, _, _, _, _, _, _) => newId !in s.rows
    case Claim(w, id, now) => PhaseOf(s, w).Idle? && id in s.rows && Ready(s.rows[id], now, None)
    case TakeGuard(w) => PhaseOf(s, w).Claimed? && keyOf(PhaseOf(s, w).job) !in s.holder
    case Heartbeat(_, _, _) => true
    case Succeed(w, _) => PhaseOf(s, w).Handling?
    case Fail(w, _, _, _) => PhaseOf(s, w).Handling?
    case Release(w) => PhaseOf(s, w).Leaving?
    case Crash(_) => true
    case Recover(id, now, leaseTimeout, _) =>
      id in s.rows && Stale(s.rows[id], now, leaseTimeout) && keyOf(id) !in s.holder
  }

  function Enqueued(t: Table, step: Step): Table
    requires step.Enqueue?
  {
    if step.maxAttempts < 1 || exists i :: i in t && t[i].key == step.key then t
    else t[step.newId := NewJob(step.jobType, step.key, step.payload, step.maxAttempts,
                                step.availableAt, step.priority, step.at)]
  }

  /** `_owned_running_job` followed by the row update; without the lease nothing is written. */
  function FinishedRow(j: Job, w: WorkerId, step: Step): Job
    requires Finishes(step)
  {
    if !Owned(j, w) then j
    else if step.Succeed? then SucceedRow(j, step.now)
    else FailRow(j, step.now, step.error, step.retryDelay)
  }

  function Without(holder: map<int, WorkerId>, w: WorkerId): map<int, WorkerId> {
    map k | k in holder && holder[k] != w :: holder[k]
  }

  function Apply(keyOf: JobId -> int, s: State, step: Step): State
    requires Enabled(keyOf, s, step)
  {
    match step
    case Enqueue(_, _, _, _, _, _, _, _) => s.(rows := Enqueued(s.rows, step))
    case Claim(w, id, now) =>
      s.(rows := s.rows[id := ClaimRow(s.rows[id], w, now)],
         phases := s.phases[w := Claimed(id, s.rows[id].attempts + 1)])
    case TakeGuard(w) =>
      var p := PhaseOf(s, w);
      s.(holder := s.holder[keyOf(p.job) := w],
         phases := s.phases[w := Handling(p.job, p.epoch, p.job in s.rows && Owned(s.rows[p.job], w))])
    case Heartbeat(w, id, now) =>
      if id in s.rows then s.(rows := s.rows[id := HeartbeatRow(s.rows[id], w, now)]) else s
    case Succeed(w, _) => Finish(s, w, step)
    case Fail(w, _, _, _) => Finish(s, w, step)
    case Release(w) => s.(holder := Without(s.holder, w), phases := s.phases[w := Idle])
    case Crash(w) => s.(holder := Without(s.holder, w), phases := s.phases[w := Idle])
    case Recover(id, now, _, retryDelay) => s.(rows := s.rows[id := RecoverRow(s.rows[id], now, retryDelay)])
  }

  function Finish(s: State, w: WorkerId, step: Step): State
    requires Finishes(step) && PhaseOf(s, w).Handling?
  {
    var j := PhaseOf(s, w).job;
    if j in s.rows then
      s.(rows := s.rows[j := FinishedRow(s.rows[j], w, step)],
         phases := s.phases[w := Leaving(j, Owned(s.rows[j], w))])
    else s.(phases := s.phases[w := Leaving(j, false)])
  }

  // ----- the inductive invariant -----

  const START := State(map[], map[], map[])

  ghost predicate PhaseInv(keyOf: JobId -> int, s: State, w: WorkerId) {
    match PhaseOf(s, w)
    case Idle => true
    case Claimed(j, e) =>
      j in s.rows && e <= s.rows[j].attempts && (Owned(s.rows[j], w) ==> s.rows[j].attempts == e)
    case Handling(j, e, owned) =>
      j in s.rows && e <= s.rows[j].attempts && (owned <==> Owned(s.rows[j], w)) && (owned ==> s.rows[j].attempts == e)
    case Leaving(j, _) => j in s.rows
  }

  ghost predicate Inv(keyOf: JobId -> int, s: State) {
    && TableInv(s.rows)
    && (forall w :: PhaseInv(keyOf, s, w))
    && (forall w :: InGuard(PhaseOf(s, w)) ==>
          keyOf(PhaseOf(s, w).job) in s.holder && s.holder[keyOf(PhaseOf(s, w).job)] == w)
    && (forall k :: k in s.holder ==>
          InGuard(PhaseOf(s, s.holder[k])) && keyOf(PhaseOf(s, s.holder[k]).job) == k)
  }

  lemma FinishRowsKeep(s: State, w: WorkerId, step: Step)
    requires TableInv(s.rows) && Finishes(step) && PhaseOf(s, w).Handling?
    ensures TableInv(Finish(s, w, step).rows)
  {
    var j := PhaseOf(s, w).job;
    if j in s.rows && Owned(s.rows[j], w) {
      if step.Succeed? {
        FinishKeeps(s.rows[j], step.now, "", 0);
      } else {
        FinishKeeps(s.rows[j], step.now, step.error, step.retryDelay);
      }
    }
  }

  lemma RowsKeep(keyOf: JobId -> int, s: State, step: Step)
    requires TableInv(s.rows) && Enabled(keyOf, s, step)
    ensures TableInv(Apply(keyOf, s, step).rows)
  {
    match step
    case Claim(w, id, now) => ClaimKeeps(s.rows[id], w, now);
    case Recover(id, now, _, retryDelay) => FinishKeeps(s.rows[id], now, "", retryDelay);
    case Succeed(w, _) => FinishRowsKeep(s, w, step);
    case Fail(w, _, _, _) => FinishRowsKeep(s, w, step);
    case _ =>
  }

  lemma ActorKeeps(keyOf: JobId -> int, s: State, step: Step, w: WorkerId)
    requires PhaseInv(keyOf, s, w) && Enabled(keyOf, s, step) && Actor(step) == Some(w)
    ensures PhaseInv(keyOf, Apply(keyOf, s, step), w)
  {
  }

  /** A bystander's row can be claimed by another worker or taken back, but not while it holds the guard
      and not without its lease ending. */
  lemma BystanderKeeps(keyOf: JobId -> int, s: State, step: Step, w: WorkerId)
    requires Inv(keyOf, s) && PhaseInv(keyOf, s, w) && Enabled(keyOf, s, step) && Actor(step) != Some(w)
    ensures PhaseInv(keyOf, Apply(keyOf, s, step), w)
  {
    if InGuard(PhaseOf(s, w)) {
      assert keyOf(PhaseOf(s, w).job) in s.holder && s.holder[keyOf(PhaseOf(s, w).job)] == w;
    }
  }

  /** Whatever step happens, each worker still knows what its phase says about its row. */
  lemma PhaseKeeps(keyOf: JobId -> int, s: State, step: Step, w: WorkerId)
    requires Inv(keyOf, s) && Enabled(keyOf, s, step)
    ensures PhaseInv(keyOf, Apply(keyOf, s, step), w)
  {
    assert PhaseInv(keyOf, s, w);
    if Actor(step) == Some(w) {
      ActorKeeps(keyOf, s, step, w);
    } else {
      BystanderKeeps(keyOf, s, step, w);
    }
  }

  /** Every step keeps the invariant. */
  lemma StepKeepsInv(keyOf: JobId -> int, s: State, step: Step)
    requires Inv(keyOf, s) && Enabled(keyOf, s, step)
    ensures Inv(keyOf, Apply(keyOf, s, step))
  {
    forall w
      ensures PhaseInv(keyOf, Apply(keyOf, s, step), w)
    {
      PhaseKeeps(keyOf, s, step, w);
    }
    RowsKeep(keyOf, s, step);
    GuardsKeep(keyOf, s, step);
  }

  /** The lock table and the phases keep agreeing on who holds which guard. */
  lemma GuardsKeep(keyOf: JobId -> int, s: State, step: Step)
    requires Inv(keyOf, s) && Enabled(keyOf, s, step)
    ensures var s' := Apply(keyOf, s, step);
            && (forall w :: InGuard(PhaseOf(s', w)) ==>
                  keyOf(PhaseOf(s', w).job) in s'.holder && s'.holder[keyOf(PhaseOf(s', w).job)] == w)
            && (forall k :: k in s'.holder ==>
                  InGuard(PhaseOf(s', s'.holder[k])) && keyOf(PhaseOf(s', s'.holder[k]).job) == k)
  {
    var s' := Apply(keyOf, s, step);
    forall w | InGuard(PhaseOf(s', w))
      ensures keyOf(PhaseOf(s', w).job) in s'.holder && s'.holder[keyOf(PhaseOf(s', w).job)] == w
    {
      if InGuard(PhaseOf(s, w)) {
        assert keyOf(PhaseOf(s, w).job) in s.holder;
      }
    }
    forall k | k in s'.holder
      ensures InGuard(PhaseOf(s', s'.holder[k])) && keyOf(PhaseOf(s', s'.holder[k]).job) == k
    {
      if k in s.holder {
        assert InGuard(PhaseOf(s, s.holder[k]));
      }
    }
  }

  // ----- runs -----

  /** A run: states joined by enabled steps, from the empty table. */
  datatype Run = Run(states: seq<State>, steps: seq<Step>)

  ghost predicate IsRun(keyOf: JobId -> int, r: Run) {
    && |r.states| == |r.steps| + 1
    && r.states[0] == START
    && forall i :: 0 <= i < |r.steps| ==>
         Enabled(keyOf, r.states[i], r.steps[i]) && r.states[i + 1] == Apply(keyOf, r.states[i], r.steps[i])
  }

  lemma {:induction false} RunInv(keyOf: JobId -> int, r: Run, i: nat)
    requires IsRun(keyOf, r) && i < |r.states|
    ensures Inv(keyOf, r.states[i])
  {
    if i > 0 {
      RunInv(keyOf, r, i - 1);
      StepKeepsInv(keyOf, r.states[i - 1], r.steps[i - 1]);
    }
  }

  /** At most one handler per job at any moment of any run. */
  lemma OneHandlerPerJob(keyOf: JobId -> int, r: Run, i: nat, v: WorkerId, w: WorkerId)
    requires IsRun(keyOf, r) && i < |r.states|
    requires PhaseOf(r.states[i], v).Handling? && PhaseOf(r.states[i], w).Handling?
    requires PhaseOf(r.states[i], v).job == PhaseOf(r.states[i], w).job
    ensures v == w
  {
    RunInv(keyOf, r, i);
    assert r.states[i].holder[keyOf(PhaseOf(r.states[i], v).job)] == v;
  }

  // ----- when a worker reaches its handler with its lease -----

  ghost predicate ClaimedThroughout(r: Run, w: WorkerId, from: nat, until: nat)
    requires until < |r.states|
  {
    forall m :: from <= m <= until ==> PhaseOf(r.states[m], w).Claimed?
  }

  /** Lease recovery takes the job back at some step after `from` and before `until`. */
  ghost predicate RecoveredBetween(r: Run, j: JobId, from: nat, until: nat)
    requires until <= |r.steps|
  {
    exists m :: from < m < until && r.steps[m].Recover? && r.steps[m].id == j
  }

  /** While a worker is between claim and guard, only lease recovery can end its lease, and nothing
      gives it back. */
  lemma LeaseStep(keyOf: JobId -> int, s: State, step: Step, w: WorkerId)
    requires Inv(keyOf, s) && Enabled(keyOf, s, step)
    requires PhaseOf(s, w).Claimed? && PhaseOf(Apply(keyOf, s, step), w).Claimed?
    ensures var s', j := Apply(keyOf, s, step), PhaseOf(s, w).job;
            && PhaseOf(s', w) == PhaseOf(s, w) && j in s.rows && j in s'.rows
            && (Owned(s'.rows[j], w) <==> Owned(s.rows[j], w) && !(step.Recover? && step.id == j))
  {
    assert PhaseInv(keyOf, s, w);
  }

  /** Over step n the worker stays between claim and guard and keeps its lease unless its job is recovered. */
  ghost predicate LeaseFollows(r: Run, w: WorkerId, n: nat)
    requires |r.states| == |r.steps| + 1 && n < |r.steps|
  {
    && PhaseOf(r.states[n], w).Claimed? && PhaseOf(r.states[n + 1], w) == PhaseOf(r.states[n], w)
    && var j := PhaseOf(r.states[n], w).job;
       && j in r.states[n].rows && j in r.states[n + 1].rows
       && (Owned(r.states[n + 1].rows[j], w)
           <==> Owned(r.states[n].rows[j], w) && !(r.steps[n].Recover? && r.steps[n].id == j))
  }

  predicate WaitsLeased(s: State, w: WorkerId, j: JobId, leased: bool) {
    PhaseOf(s, w).Claimed? && PhaseOf(s, w).job == j && j in s.rows && (Owned(s.rows[j], w) <==> leased)
  }

  lemma {:induction false} LeaseChain(r: Run, w: WorkerId, j: JobId, c: nat, g: nat)
    requires |r.states| == |r.steps| + 1 && c < g < |r.states| && WaitsLeased(r.states[c + 1], w, j, true)
    requires forall n :: c < n < g ==> LeaseFollows(r, w, n)
    ensures WaitsLeased(r.states[g], w, j, !RecoveredBetween(r, j, c, g))
    ensures PhaseOf(r.states[g], w) == PhaseOf(r.states[c + 1], w)
    decreases g
  {
    if g > c + 1 {
      LeaseChain(r, w, j, c, g - 1);
      assert LeaseFollows(r, w, g - 1);
      RecoveredNext(r, j, c, g - 1);
    }
  }

  lemma LeaseNext(keyOf: JobId -> int, r: Run, w: WorkerId, n: nat)
    requires IsRun(keyOf, r) && n < |r.steps|
    requires PhaseOf(r.states[n], w).Claimed? && PhaseOf(r.states[n + 1], w).Claimed?
    ensures LeaseFollows(r, w, n)
  {
    RunInv(keyOf, r, n);
    LeaseStep(keyOf, r.states[n], r.steps[n], w);
  }

  /** A worker that waits for its guard has lost its lease exactly when the job has been recovered since
      the worker claimed it. */
  lemma LeaseLostIffRecovered(keyOf: JobId -> int, r: Run, w: WorkerId, c: nat, g: nat)
    requires IsRun(keyOf, r) && c < g < |r.states|
    requires r.steps[c].Claim? && r.steps[c].w == w && ClaimedThroughout(r, w, c + 1, g)
    ensures var j := r.steps[c].id;
            && PhaseOf(r.states[g], w) == PhaseOf(r.states[c + 1], w) && PhaseOf(r.states[g], w).job == j
            && j in r.states[g].rows && (!Owned(r.states[g].rows[j], w) <==> RecoveredBetween(r, j, c, g))
  {
    assert WaitsLeased(r.states[c + 1], w, r.steps[c].id, true);
    forall n | c < n < g
      ensures LeaseFollows(r, w, n)
    {
      LeaseNext(keyOf, r, w, n);
    }
    LeaseChain(r, w, r.steps[c].id, c, g);
  }

  lemma RecoveredNext(r: Run, j: JobId, from: nat, until: nat)
    requires from < until < |r.steps|
    ensures RecoveredBetween(r, j, from, until + 1)
            <==> RecoveredBetween(r, j, from, until) || (r.steps[until].Recover? && r.steps[until].id == j)
  {
    if RecoveredBetween(r, j, from, until) {
      var m :| from < m < until && r.steps[m].Recover? && r.steps[m].id == j;
    }
  }

  /** Step m takes back the lease of w on job j, whose last heartbeat is older than the lease timeout. */
  ghost predicate EndsLease(r: Run, w: WorkerId, j: JobId, m: nat)
    requires |r.states| == |r.steps| + 1
  {
    && m < |r.steps| && r.steps[m].Recover? && r.steps[m].id == j
    && j in r.states[m].rows && r.states[m].rows[j].status == Running && r.states[m].rows[j].lockedBy == Some(w)
    && r.states[m].rows[j].heartbeatAt.Some?
    && r.states[m].rows[j].heartbeatAt.value + r.steps[m].leaseTimeout < r.steps[m].now
  }

  /** A live lease is never taken away: if a worker has lost its lease while it waits for its guard, then a
      recovery has found the last heartbeat of that lease older than the lease timeout. */
  lemma LostLeaseHadExpired(keyOf: JobId -> int, r: Run, w: WorkerId, c: nat, g: nat) returns (m: nat)
    requires IsRun(keyOf, r) && c < g < |r.states|
    requires r.steps[c].Claim? && r.steps[c].w == w && ClaimedThroughout(r, w, c + 1, g)
    requires r.steps[c].id in r.states[g].rows && !Owned(r.states[g].rows[r.steps[c].id], w)
    ensures c < m < g && EndsLease(r, w, r.steps[c].id, m)
  {
    LeaseLostIffRecovered(keyOf, r, w, c, g);
    m := FirstRecovery(r, r.steps[c].id, c, g);
    LeaseLostIffRecovered(keyOf, r, w, c, m);
    RecoveryEndsLease(keyOf, r, w, r.steps[c].id, m);
  }

  lemma {:induction false} FirstRecovery(r: Run, j: JobId, from: nat, until: nat) returns (m: nat)
    requires from < until <= |r.steps| && RecoveredBetween(r, j, from, until)
    ensures from < m < until && r.steps[m].Recover? && r.steps[m].id == j && !RecoveredBetween(r, j, from, m)
    decreases until
  {
    m :| from < m < until && r.steps[m].Recover? && r.steps[m].id == j;
    if RecoveredBetween(r, j, from, m) {
      m := FirstRecovery(r, j, from, m);
    }
  }

  lemma RecoveryEndsLease(keyOf: JobId -> int, r: Run, w: WorkerId, j: JobId, m: nat)
    requires IsRun(keyOf, r) && m < |r.steps|
    requires r.steps[m].Recover? && r.steps[m].id == j && j in r.states[m].rows && Owned(r.states[m].rows[j], w)
    ensures EndsLease(r, w, j, m)
  {
    RunInv(keyOf, r, m);
    assert RowInv(r.states[m].rows[j]);
  }

  /** Every worker between claim and guard has claimed its job before. */
  lemma {:induction false} WasClaimed(keyOf: JobId -> int, r: Run, w: WorkerId, g: nat) returns (c: nat)
    requires IsRun(keyOf, r) && g < |r.states| && PhaseOf(r.states[g], w).Claimed?
    ensures c < g && r.steps[c].Claim? && r.steps[c].w == w && ClaimedThroughout(r, w, c + 1, g)
  {
    assert g > 0;
    var step := r.steps[g - 1];
    if step.Claim? && step.w == w {
      c := g - 1;
    } else {
      c := WasClaimed(keyOf, r, w, g - 1);
    }
  }

  /** "A handler starts only for a job still leased to its worker" holds exactly when the job has not been
      recovered between the worker's claim and its taking the guard. */
  lemma HandlerStartsLeasedIff(keyOf: JobId -> int, r: Run, w: WorkerId, g: nat) returns (c: nat)
    requires IsRun(keyOf, r) && g < |r.steps| && r.steps[g] == TakeGuard(w)
    ensures c < g && r.steps[c].Claim? && r.steps[c].w == w && ClaimedThroughout(r, w, c + 1, g)
    ensures var p, j := PhaseOf(r.states[g + 1], w), r.steps[c].id;
            p.Handling? && p.job == j && (p.owned <==> !RecoveredBetween(r, j, c, g))
  {
    c := WasClaimed(keyOf, r, w, g);
    LeaseLostIffRecovered(keyOf, r, w, c, g);
  }

  ghost predicate HandlingThroughout(r: Run, w: WorkerId, from: nat, until: nat)
    requires until < |r.states|
  {
    forall m :: from <= m <= until ==> PhaseOf(r.states[m], w).Handling?
  }

  /** Guard stability. Between taking the guard and finishing, the row is leased to the worker in the
      claimed epoch exactly when it was at the moment the guard was taken, whatever the other workers,
      the clocks and lease recovery do meanwhile. */
  lemma {:induction false} GuardStability(keyOf: JobId -> int, r: Run, w: WorkerId, i: nat, k: nat)
    requires IsRun(keyOf, r) && i < k < |r.states|
    requires r.steps[i] == TakeGuard(w) && HandlingThroughout(r, w, i + 1, k)
    ensures var p := PhaseOf(r.states[i], w);
            && p.Claimed? && p.job in r.states[i].rows && p.job in r.states[k].rows
            && PhaseOf(r.states[k], w) == Handling(p.job, p.epoch, Owned(r.states[i].rows[p.job], w))
            && (Owned(r.states[k].rows[p.job], w) <==> Owned(r.states[i].rows[p.job], w))
            && (Owned(r.states[i].rows[p.job], w) ==>
                  r.states[i].rows[p.job].attempts == r.states[k].rows[p.job].attempts == p.epoch)
  {
    RunInv(keyOf, r, i);
    RunInv(keyOf, r, k);
    assert PhaseInv(keyOf, r.states[i], w) && PhaseInv(keyOf, r.states[k], w);
    if k > i + 1 {
      GuardStability(keyOf, r, w, i, k - 1);
    }
  }

  /** Finishing raises the lease error exactly when the lease was already lost before the guard. */
  lemma FinishSucceedsIffOwnedAtGuard(keyOf: JobId -> int, r: Run, w: WorkerId, i: nat, k: nat)
    requires IsRun(keyOf, r) && i < k < |r.steps|
    requires r.steps[i] == TakeGuard(w) && HandlingThroughout(r, w, i + 1, k)
    requires Finishes(r.steps[k]) && r.steps[k].w == w
    ensures var j := PhaseOf(r.states[i], w).job;
            j in r.states[i].rows
            && PhaseOf(r.states[k + 1], w) == Leaving(j, Owned(r.states[i].rows[j], w))
  {
    GuardStability(keyOf, r, w, i, k);
  }

  /** So finishing raises the lease error exactly when the job was recovered between claim and guard. */
  lemma LeaseErrorIffRecovered(keyOf: JobId -> int, r: Run, w: WorkerId, i: nat, k: nat) returns (c: nat)
    requires IsRun(keyOf, r) && i < k < |r.steps|
    requires r.steps[i] == TakeGuard(w) && HandlingThroughout(r, w, i + 1, k)
    requires Finishes(r.steps[k]) && r.steps[k].w == w
    ensures c < i && r.steps[c].Claim? && r.steps[c].w == w && ClaimedThroughout(r, w, c + 1, i)
    ensures PhaseOf(r.states[k + 1], w) == Leaving(r.steps[c].id, !RecoveredBetween(r, r.steps[c].id, c, i))
  {
    c := WasClaimed(keyOf, r, w, i);
    LeaseLostIffRecovered(keyOf, r, w, c, i);
    FinishSucceedsIffOwnedAtGuard(keyOf, r, w, i, k);
  }

  /** A worker whose lease was lost before the guard never changes the row of that job again:
      not by a heartbeat, not by succeed, not by fail. */
  lemma LostLeaseNeverWrites(keyOf: JobId -> int, r: Run, w: WorkerId, i: nat, k: nat)
    requires IsRun(keyOf, r) && i < k < |r.steps|
    requires r.steps[i] == TakeGuard(w) && HandlingThroughout(r, w, i + 1, k)
    requires Actor(r.steps[k]) == Some(w)
    ensures var j := PhaseOf(r.states[i], w).job;
            j in r.states[i].rows
            && (!Owned(r.states[i].rows[j], w) ==>
                  j in r.states[k].rows && j in r.states[k + 1].rows && r.states[k + 1].rows[j] == r.states[k].rows[j])
  {
    GuardStability(keyOf, r, w, i, k);
  }

  // ----- lifecycle over runs -----

  predicate Beats(step: Step, j: JobId) {
    step.Heartbeat? && step.id == j
  }

  /** A row was left alone, or had its heartbeat renewed, or strictly spent its measure. */
  predicate Spends(a: Job, b: Job, beats: bool, claims: nat) {
    && (b == a
        || (beats && a.status.Running? && b == a.(heartbeatAt := b.heartbeatAt))
        || (!beats && Measure(b) < Measure(a)))
    && (Terminal(a) ==> b == a)
    && b.attempts == a.attempts + claims
    && b.maxAttempts == a.maxAttempts && b.key == a.key
  }

  /** One step leaves a row alone, or renews its heartbeat, or strictly spends its measure;
      a terminal row is never touched. */
  lemma StepSpendsMeasure(keyOf: JobId -> int, s: State, step: Step, j: JobId)
    requires Inv(keyOf, s) && Enabled(keyOf, s, step) && j in s.rows
    ensures j in Apply(keyOf, s, step).rows
    ensures Spends(s.rows[j], Apply(keyOf, s, step).rows[j], Beats(step, j),
                   if step.Claim? && step.id == j then 1 else 0)
  {
    var a := s.rows[j];
    assert RowInv(a);
    match step
    case Claim(w, id, now) => ClaimKeeps(s.rows[id], w, now);
    case Recover(id, now, _, retryDelay) => FinishKeeps(s.rows[id], now, "", retryDelay);
    case _ =>
  }

  /** How many of the steps from `from` up to `until` claim the job. */
  ghost function Claims(r: Run, j: JobId, from: nat, until: nat): nat
    requires from <= until <= |r.steps|
    decreases until
  {
    if from == until then 0
    else Claims(r, j, from, until - 1) + (if r.steps[until - 1].Claim? && r.steps[until - 1].id == j then 1 else 0)
  }

  /** How many of the steps from `from` up to `until` change the row by anything but a heartbeat. */
  ghost function Changes(r: Run, j: JobId, from: nat, until: nat): nat
    requires |r.states| == |r.steps| + 1 && from <= until < |r.states|
    decreases until
  {
    if from == until then 0
    else Changes(r, j, from, until - 1)
         + (if j in r.states[until].rows && j in r.states[until - 1].rows
               && r.states[until].rows[j] != r.states[until - 1].rows[j]
               && !Beats(r.steps[until - 1], j) then 1 else 0)
  }

  ghost predicate Progress(a: Job, b: Job, claims: nat, changes: nat) {
    && b.attempts == a.attempts + claims
    && b.maxAttempts == a.maxAttempts
    && changes <= Measure(a) - Measure(b)
    && (Terminal(a) ==> b == a)
  }

  ghost predicate SpendsAt(r: Run, j: JobId, n: nat)
    requires |r.states| == |r.steps| + 1 && n < |r.steps|
  {
    j in r.states[n].rows ==>
      && j in r.states[n + 1].rows
      && Progress(r.states[n].rows[j], r.states[n + 1].rows[j], Claims(r, j, n, n + 1), Changes(r, j, n, n + 1))
  }

  lemma {:induction false} WorkAdds(r: Run, j: JobId, from: nat, until: nat)
    requires |r.states| == |r.steps| + 1 && from <= until < |r.states| && j in r.states[from].rows
    requires forall n :: from <= n < until ==> SpendsAt(r, j, n)
    ensures j in r.states[until].rows
    ensures Progress(r.states[from].rows[j], r.states[until].rows[j], Claims(r, j, from, until),
                     Changes(r, j, from, until))
    decreases until
  {
    if from < until {
      WorkAdds(r, j, from, until - 1);
      assert SpendsAt(r, j, until - 1);
      assert Claims(r, j, until - 1, until - 1) == 0 && Changes(r, j, until - 1, until - 1) == 0;
    }
  }

  /** Over any stretch of any run a job is claimed at most `max_attempts` times, its row changes (other
      than by heartbeats) at most 2*max_attempts times, the attempts column counts its claims, and a
      terminal row stays as it is. */
  lemma BoundedWork(keyOf: JobId -> int, r: Run, j: JobId, from: nat, until: nat)
    requires IsRun(keyOf, r) && from <= until < |r.states| && j in r.states[from].rows
    ensures j in r.states[until].rows
    ensures var a, b := r.states[from].rows[j], r.states[until].rows[j];
            && b.attempts == a.attempts + Claims(r, j, from, until)
            && Claims(r, j, from, until) <= a.maxAttempts
            && Changes(r, j, from, until) <= 2 * a.maxAttempts
            && (Terminal(a) ==> b == a)
  {
    forall n | from <= n < until
      ensures SpendsAt(r, j, n)
    {
      if j in r.states[n].rows { RunSpendsMeasure(keyOf, r, j, n); }
    }
    WorkAdds(r, j, from, until);
    RunInv(keyOf, r, from);
    RunInv(keyOf, r, until);
    var a, b := r.states[from].rows[j], r.states[until].rows[j];
    assert RowInv(a) && RowInv(b);
  }

  lemma RunSpendsMeasure(keyOf: JobId -> int, r: Run, j: JobId, n: nat)
    requires IsRun(keyOf, r) && n < |r.steps| && j in r.states[n].rows
    ensures j in r.states[n + 1].rows
    ensures Progress(r.states[n].rows[j], r.states[n + 1].rows[j], Claims(r, j, n, n + 1), Changes(r, j, n, n + 1))
  {
    RunInv(keyOf, r, n);
    RunInv(keyOf, r, n + 1);
    StepSpendsMeasure(keyOf, r.states[n], r.steps[n], j);
  }

  /** Reachable rows: ready means attempts are left, FAILED means none are, a lease exists exactly
      while RUNNING, and a finish time exactly when terminal. */
  lemma ReachableLifecycle(keyOf: JobId -> int, r: Run, i: nat, j: JobId)
    requires IsRun(keyOf, r) && i < |r.states| && j in r.states[i].rows
    ensures var x := r.states[i].rows[j];
            && (Waiting(x) ==> x.attempts < x.maxAttempts)
            && (x.status.Failed? ==> x.attempts == x.maxAttempts)
            && (x.lockedBy.Some? <==> x.status.Running?)
            && (x.finishedAt.Some? <==> Terminal(x))
            && 0 <= x.attempts <= x.maxAttempts && 1 <= x.maxAttempts
    ensures forall k :: k in r.states[i].rows && r.states[i].rows[k].key == r.states[i].rows[j].key ==> k == j
  {
    RunInv(keyOf, r, i);
  }

  /** No unfinished job is ever stuck: a waiting row can be claimed by an idle worker once its time
      has come, and a running row whose guard is free can be recovered once its heartbeat is old. */
  lemma NeverStuck(keyOf: JobId -> int, r: Run, i: nat, j: JobId, w: WorkerId, leaseTimeout: Time)
    requires IsRun(keyOf, r) && i < |r.states| && j in r.states[i].rows && !Terminal(r.states[i].rows[j])
    requires PhaseOf(r.states[i], w).Idle? && keyOf(j) !in r.states[i].holder
    ensures exists now :: Enabled(keyOf, r.states[i], Claim(w, j, now))
                          || Enabled(keyOf, r.states[i], Recover(j, now, leaseTimeout, 0))
  {
    RunInv(keyOf, r, i);
    var x := r.states[i].rows[j];
    if Waiting(x) {
      assert Enabled(keyOf, r.states[i], Claim(w, j, x.availableAt));
    } else {
      assert Enabled(keyOf, r.states[i], Recover(j, x.heartbeatAt.value + leaseTimeout + 1, leaseTimeout, 0));
    }
  }

  /** Whatever the state: any worker may die or renew a lease of its own, and a job with a new key and at least one
      attempt can be enqueued; enqueueing changes no row. */
  lemma AlwaysPossible(keyOf: JobId -> int, s: State, w: WorkerId, j: JobId, now: Time, step: Step)
    requires step.Enqueue? && step.newId !in s.rows
    ensures Enabled(keyOf, s, Crash(w)) && Enabled(keyOf, s, Heartbeat(w, j, now)) && Enabled(keyOf, s, step)
    ensures var rows := Apply(keyOf, s, step).rows;
            && (forall i :: i in s.rows ==> i in rows && rows[i] == s.rows[i])
            && (step.newId in rows <==> step.maxAttempts >= 1 && forall i :: i in s.rows ==> s.rows[i].key != step.key)
            && (step.newId in rows ==> rows[step.newId].key == step.key && rows[step.newId].status == Pending)
  {
  }

  // ----- the batch recovery of the queue object is a run of single recoveries -----

  function RecoverAll(keyOf: JobId -> int, t: Table, ids: seq<JobId>, now: Time, retryDelay: Time): Table {
    if ids == [] then t
    else
      var next := if ids[0] in t then t[ids[0] := RecoverRow(t[ids[0]], now, retryDelay)] else t;
      RecoverAll(keyOf, next, ids[1..], now, retryDelay)
  }

  ghost predicate RecoverRun(keyOf: JobId -> int, s: State, ids: seq<JobId>, now: Time, leaseTimeout: Time,
                             retryDelay: Time)
    decreases |ids|
  {
    ids == []
    || (Enabled(keyOf, s, Recover(ids[0], now, leaseTimeout, retryDelay))
        && RecoverRun(keyOf, Apply(keyOf, s, Recover(ids[0], now, leaseTimeout, retryDelay)), ids[1..], now,
                      leaseTimeout, retryDelay))
  }

  /** Recovering the selected rows one step at a time, in any order, is enabled throughout and ends in
      the table that one `recover_stale` transaction writes. */
  lemma {:induction false} BatchRecoveryIsARun(keyOf: JobId -> int, s: State, ids: seq<JobId>, done: set<JobId>,
                                               t: Table, now: Time, leaseTimeout: Time, retryDelay: Time,
                                               skipped: set<JobId>)
    requires forall i :: i in done || i in ids <==>
               Stuck(t, i, now, leaseTimeout, skipped) && keyOf(i) !in s.holder.Keys
    requires forall m, n :: 0 <= m < n < |ids| ==> ids[m] != ids[n]
    requires forall i :: i in ids ==> i !in done
    requires s.rows == map i | i in t :: if i in done then RecoverRow(t[i], now, retryDelay) else t[i]
    ensures RecoverRun(keyOf, s, ids, now, leaseTimeout, retryDelay)
    ensures RecoverAll(keyOf, s.rows, ids, now, retryDelay)
            == Recovered(t, keyOf, s.holder.Keys, now, leaseTimeout, retryDelay, skipped)
    decreases |ids|
  {
    if ids == [] {
      assert s.rows == Recovered(t, keyOf, s.holder.Keys, now, leaseTimeout, retryDelay, skipped);
    } else {
      var i := ids[0];
      assert i in ids;
      var next := Apply(keyOf, s, Recover(i, now, leaseTimeout, retryDelay));
      assert next.rows == map k | k in t :: if k in done + {i} then RecoverRow(t[k], now, retryDelay) else t[k];
      forall k | k in ids[1..]
        ensures k !in done + {i}
      {
      }
      forall k
        ensures k in done || k in ids <==> k in done + {i} || k in ids[1..]
      {
      }
      BatchRecoveryIsARun(keyOf, next, ids[1..], done + {i}, t, now, leaseTimeout, retryDelay, skipped);
    }
  }

  // ----- a handler may run for a job whose lease, or whose whole life, is over -----

  const KEY := ManualTick("again")

  const FIRST_STEPS: seq<Step> :=
    [Enqueue(1, "tick", KEY, "", 3, 0, 0, 0), Claim("slow", 1, 0), Recover(1, 100, 60, 0), Claim("fast", 1, 100)]

  const LAST_STEPS: seq<Step> :=
    [TakeGuard("fast"), Succeed("fast", 101), Release("fast"), TakeGuard("slow")]

  ghost function Execute(keyOf: JobId -> int, s: State, steps: seq<Step>): Option<State>
    decreases |steps|
  {
    if steps == [] then Some(s)
    else if Enabled(keyOf, s, steps[0]) then Execute(keyOf, Apply(keyOf, s, steps[0]), steps[1..])
    else None
  }

  lemma ExecuteFour(keyOf: JobId -> int, s: State, a: Step, b: Step, c: Step, d: Step)
    requires Enabled(keyOf, s, a) && Enabled(keyOf, Apply(keyOf, s, a), b)
    requires var s2 := Apply(keyOf, Apply(keyOf, s, a), b);
             Enabled(keyOf, s2, c) && Enabled(keyOf, Apply(keyOf, s2, c), d)
    ensures Execute(keyOf, s, [a, b, c, d])
            == Some(Apply(keyOf, Apply(keyOf, Apply(keyOf, Apply(keyOf, s, a), b), c), d))
  {
    var s1 := Apply(keyOf, s, a);
    var s2 := Apply(keyOf, s1, b);
    var s3 := Apply(keyOf, s2, c);
    assert [a, b, c, d][1..] == [b, c, d] && [b, c, d][1..] == [c, d] && [c, d][1..] == [d] && [d][1..] == [];
    assert Execute(keyOf, s3, [d]) == Execute(keyOf, Apply(keyOf, s3, d), []);
    assert Execute(keyOf, s2, [c, d]) == Execute(keyOf, s3, [d]);
    assert Execute(keyOf, s1, [b, c, d]) == Execute(keyOf, s2, [c, d]);
  }

  /** A recovery between claim and guard, the third of the first steps, is all it takes: the stalled worker
      enters the handler of a job that another worker has already completed. */
  lemma LateWorkerHandlesFinishedJob(keyOf: JobId -> int) returns (middle: State, last: State)
    ensures Execute(keyOf, START, FIRST_STEPS) == Some(middle)
    ensures Execute(keyOf, middle, LAST_STEPS) == Some(last)
    ensures 1 in last.rows && last.rows[1].status.Succeeded? && PhaseOf(last, "slow") == Handling(1, 1, false)
  {
    middle := FirstHalf(keyOf);
    var t1 := Apply(keyOf, middle, LAST_STEPS[0]);
    assert PhaseOf(t1, "fast") == Handling(1, 2, true) && t1.rows == middle.rows
           && t1.holder == map[keyOf(1) := "fast"];
    var t2 := Apply(keyOf, t1, LAST_STEPS[1]);
    assert PhaseOf(t2, "fast") == Leaving(1, true) && t2.rows[1].status.Succeeded? && t2.holder == t1.holder;
    var t3 := Apply(keyOf, t2, LAST_STEPS[2]);
    assert PhaseOf(t3, "slow") == Claimed(1, 1) && t3.rows == t2.rows && t3.holder == map[];
    last := Apply(keyOf, t3, LAST_STEPS[3]);
    ExecuteFour(keyOf, middle, LAST_STEPS[0], LAST_STEPS[1], LAST_STEPS[2], LAST_STEPS[3]);
    assert LAST_STEPS == [LAST_STEPS[0], LAST_STEPS[1], LAST_STEPS[2], LAST_STEPS[3]];
  }

  lemma FirstHalf(keyOf: JobId -> int) returns (middle: State)
    ensures Execute(keyOf, START, FIRST_STEPS) == Some(middle)
    ensures middle.rows.Keys == {1} && Owned(middle.rows[1], "fast") && middle.rows[1].attempts == 2
            && middle.holder == map[]
    ensures PhaseOf(middle, "slow") == Claimed(1, 1) && PhaseOf(middle, "fast") == Claimed(1, 2)
  {
    var s1 := Apply(keyOf, START, FIRST_STEPS[0]);
    assert s1.rows == map[1 := NewJob("tick", KEY, "", 3, 0, 0, 0)];
    var s2 := Apply(keyOf, s1, FIRST_STEPS[1]);
    assert s2.rows.Keys == {1} && s2.rows[1] == ClaimRow(s1.rows[1], "slow", 0);
    var s3 := Apply(keyOf, s2, FIRST_STEPS[2]);
    assert s3.rows.Keys == {1} && s3.rows[1].status.RetryScheduled? && s3.rows[1].attempts == 1;
    middle := Apply(keyOf, s3, FIRST_STEPS[3]);
    ExecuteFour(keyOf, START, FIRST_STEPS[0], FIRST_STEPS[1], FIRST_STEPS[2], FIRST_STEPS[3]);
    assert FIRST_STEPS == [FIRST_STEPS[0], FIRST_STEPS[1], FIRST_STEPS[2], FIRST_STEPS[3]];
  }
}
