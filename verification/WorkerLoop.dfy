/** One iteration of a worker on the queue object, with its retry delays and its polling windows. The
    interleavings of several workers are the subject of WorkerProtocol. */
module WorkerLoop {
  import opened Prelude
  import opened JobKeys
  import opened JobQueue

  datatype Settings = Settings(lease: Time, retryBase: nat, retryMax: nat, interval: nat, maxAttempts: nat)

  const TICK := "worker.tick"

  function Pow2(n: nat): (r: nat)
    ensures r >= 1
  {
    if n == 0 then 1 else 2 * Pow2(n - 1)
  }

  /** Exponential backoff with a cap. */
  function RetryDelay(s: Settings, attempts: int): nat {
    var seconds := s.retryBase * Pow2(if attempts <= 1 then 0 else attempts - 1);
    if seconds <= s.retryMax then seconds else s.retryMax
  }

  lemma {:induction false} Pow2Monotone(m: nat, n: nat)
    requires m <= n
    ensures Pow2(m) <= Pow2(n)
    decreases n
  {
    if m < n { Pow2Monotone(m, n - 1); }
  }

  lemma TimesMonotone(b: nat, x: nat, y: nat)
    requires x <= y
    ensures b * x <= b * y
  {
  }

  /** Delays never shrink, start at the base and double from attempt to attempt, each cut at the cap. */
  lemma BackoffLaws(s: Settings, a: int, b: int)
    requires a <= b
    ensures RetryDelay(s, a) <= RetryDelay(s, b) <= s.retryMax
    ensures a <= 1 ==> RetryDelay(s, a) == if s.retryBase <= s.retryMax then s.retryBase else s.retryMax
    ensures 1 <= a ==>
              RetryDelay(s, a + 1) == if 2 * RetryDelay(s, a) <= s.retryMax then 2 * RetryDelay(s, a) else s.retryMax
  {
    var x: nat := if a <= 1 then 0 else a - 1;
    var y: nat := if b <= 1 then 0 else b - 1;
    Pow2Monotone(x, y);
    TimesMonotone(s.retryBase, Pow2(x), Pow2(y));
    if 1 <= a {
      TimesMonotone(s.retryBase, Pow2(a - 1), Pow2(a));
      assert Pow2(a) == 2 * Pow2(a - 1);
      assert s.retryBase * Pow2(a) == 2 * (s.retryBase * Pow2(a - 1));
    }
  }

  // ----- polling windows -----

  /** Seconds since the epoch, not negative, to the window number. */
  function Window(seconds: nat, interval: nat): nat
    requires interval > 0
  {
    seconds / interval
  }

  /** The k-th window starts after s and not after t. */
  predicate StartsBetween(k: nat, interval: nat, s: nat, t: nat) {
    s < k * interval <= t
  }

  /** Window w reaches from w * interval up to but not including the start of the next one. */
  lemma WindowHolds(seconds: nat, interval: nat, w: nat)
    requires interval > 0
    ensures w == Window(seconds, interval) <==> w * interval <= seconds < (w + 1) * interval
  {
    var v := Window(seconds, interval);
    assert v * interval <= seconds < (v + 1) * interval;
    if w < v { ProductMonotone(w + 1, v, interval); }
    if v < w { ProductMonotone(v + 1, w, interval); }
  }

  lemma NoStartInside(s: nat, t: nat, interval: nat, k: nat)
    requires interval > 0 && s <= t && Window(s, interval) == Window(t, interval)
    ensures !StartsBetween(k, interval, s, t)
  {
    var w := Window(s, interval);
    if k <= w { ProductMonotone(k, w, interval); } else { ProductMonotone(w + 1, k, interval); }
  }

  lemma ProductMonotone(x: nat, y: nat, b: nat)
    requires x <= y
    ensures x * b <= y * b
  {
  }

  lemma StartOfLater(s: nat, t: nat, interval: nat)
    requires interval > 0 && s <= t && Window(s, interval) != Window(t, interval)
    ensures StartsBetween(Window(t, interval), interval, s, t)
  {
    var v, w := Window(s, interval), Window(t, interval);
    if w < v { ProductMonotone(w + 1, v, interval); } else { ProductMonotone(v + 1, w, interval); }
  }

  /** Two instants share a tick exactly when no window starts after the first and by the second. */
  lemma SameWindowIff(s: nat, t: nat, interval: nat)
    requires interval > 0 && s <= t
    ensures Window(s, interval) == Window(t, interval) <==> forall k: nat :: !StartsBetween(k, interval, s, t)
  {
    if Window(s, interval) == Window(t, interval) {
      forall k: nat
        ensures !StartsBetween(k, interval, s, t)
      {
        NoStartInside(s, t, interval, k);
      }
    } else {
      StartOfLater(s, t, interval);
    }
  }

  // ----- one iteration -----

  function TickJob(s: Settings, now: nat): Job
    requires s.interval > 0
  {
    NewJob(TICK, ScheduledTick(Window(now, s.interval)), "", s.maxAttempts, now, 0, now)
  }

  /** The tick of a window is due at once, with the configured attempts and the default priority. */
  lemma TickIsDue(s: Settings, now: nat)
    requires s.interval > 0 && s.maxAttempts >= 1
    ensures var j := TickJob(s, now);
            && RowInv(j) && j.status == Pending && j.jobType == "worker.tick" && j.maxAttempts == s.maxAttempts
            && j.availableAt == now && j.createdAt == now && j.priority == 0
            && j.key.ScheduledTick? && j.key.window * s.interval <= now < (j.key.window + 1) * s.interval
  {
    WindowHolds(now, s.interval, Window(now, s.interval));
  }

  /** The table with the tick of the current window: as it is, if some row has its key. */
  function Ticked(t: Table, s: Settings, now: nat, newId: JobId): Table
    requires s.interval > 0
  {
    if ScheduledTick(Window(now, s.interval)) in Keys(t) then t else t[newId := TickJob(s, now)]
  }

  /** Materialise the tick of the current window. */
  method EnqueueDue(queue: PostgreSQLJobQueue, s: Settings, now: nat, newId: JobId)
    returns (r: Result<(JobId, bool), QueueError>)
    requires TableInv(queue.rows) && newId !in queue.rows && s.interval > 0 && s.maxAttempts >= 1
    modifies queue`rows
    ensures TableInv(queue.rows) && r.Ok? && r.value.0 in queue.rows
    ensures queue.rows[r.value.0].key == ScheduledTick(Window(now, s.interval))
    ensures queue.rows == Ticked(old(queue.rows), s, now, newId)
    ensures r.value.1 <==> ScheduledTick(Window(now, s.interval)) !in Keys(old(queue.rows))
  {
    r := queue.Enqueue(newId, TICK, ScheduledTick(Window(now, s.interval)), "", s.maxAttempts, now, 0, now);
  }

  /** The row that a handler leaves behind when it has returned or raised. */
  function Finished(j: Job, outcome: Result<(), string>, s: Settings, now: Time): Job {
    match outcome
    case Ok(_) => SucceedRow(j, now)
    case Err(e) => FailRow(j, now, e, RetryDelay(s, j.attempts))
  }

  /** How a finished job must look after its handler returned or raised. */
  predicate FinishedAs(j: Job, outcome: Result<(), string>, s: Settings, now: Time) {
    && j.lockedBy.None? && 1 <= j.attempts <= j.maxAttempts
    && match outcome
       case Ok(_) => j.status.Succeeded? && j.finishedAt == Some(now) && j.lastError.None?
       case Err(e) =>
         && j.lastError == Some(Truncated(e))
         && if j.attempts < j.maxAttempts
            then j.status.RetryScheduled? && j.availableAt == now + RetryDelay(s, j.attempts) && j.finishedAt.None?
            else j.status.Failed? && j.finishedAt == Some(now)
  }

  /** Idle: nothing to claim. AtGuard: claimed, but another session holds a guard with the same lock number.
      Handled: claimed and finished. */
  datatype Iteration = Idle | AtGuard(job: JobId) | Handled(job: JobId)

  /** Recovery and scheduling, in terms of the table before. */
  function Prepared(t: Table, keyOf: JobId -> int, guards: set<int>, s: Settings, schedule: bool, now: nat,
                    newId: JobId, skipped: set<JobId>): Table
    requires s.interval > 0
  {
    var recovered := Recovered(t, keyOf, guards, now, s.lease, s.retryBase, skipped);
    if schedule then Ticked(recovered, s, now, newId) else recovered
  }

  /** The expired leases of unlocked rows with a free guard have ended, and every other row is as it was. */
  ghost predicate LeasesEnded(t: Table, r: Table, keyOf: JobId -> int, guards: set<int>, s: Settings, now: nat,
                              skipped: set<JobId>) {
    forall i :: i in t ==>
      i in r
      && if Expired(t[i], now, s.lease) && i !in skipped && keyOf(i) !in guards
         then Ended(t[i], r[i], now, LEASE_EXPIRED, s.retryBase) && r[i].status != Running
         else r[i] == t[i]
  }

  lemma BatchEndsLeases(t: Table, keyOf: JobId -> int, guards: set<int>, s: Settings, now: nat, skipped: set<JobId>)
    requires TableInv(t) && s.interval > 0
    ensures var r := Recovered(t, keyOf, guards, now, s.lease, s.retryBase, skipped);
            && LeasesEnded(t, r, keyOf, guards, s, now, skipped) && r.Keys == t.Keys
            && (HasTick(r, s, now) <==> HasTick(t, s, now))
  {
    var r := Recovered(t, keyOf, guards, now, s.lease, s.retryBase, skipped);
    forall i | i in t
      ensures i in r && r[i].key == t[i].key
    {
      RecoveredMeans(t, keyOf, guards, now, s.lease, s.retryBase, skipped, i);
    }
    SameTicks(t, r, s, now);
  }

  /** Before claiming, leases have ended as they should, and a row has the key of the current window if a tick
      was asked for. */
  lemma PreparedMeans(t: Table, keyOf: JobId -> int, guards: set<int>, s: Settings, schedule: bool, now: nat,
                      newId: JobId, skipped: set<JobId>)
    requires TableInv(t) && newId !in t && s.interval > 0
    ensures var r := Prepared(t, keyOf, guards, s, schedule, now, newId, skipped);
            && LeasesEnded(t, r, keyOf, guards, s, now, skipped)
            && (schedule ==> HasTick(r, s, now))
            && r.Keys == if schedule && !HasTick(t, s, now) then t.Keys + {newId} else t.Keys
  {
    var recovered := Recovered(t, keyOf, guards, now, s.lease, s.retryBase, skipped);
    BatchEndsLeases(t, keyOf, guards, s, now, skipped);
    TickAdded(recovered, s, now, newId);
  }

  lemma TickAdded(t: Table, s: Settings, now: nat, newId: JobId)
    requires s.interval > 0 && newId !in t
    ensures var r := Ticked(t, s, now, newId);
            && HasTick(r, s, now) && (forall i :: i in t ==> i in r && r[i] == t[i])
            && r.Keys == if HasTick(t, s, now) then t.Keys else t.Keys + {newId}
  {
    SameTicks(t, t, s, now);
    var added := t[newId := TickJob(s, now)];
    assert newId in added && added[newId].key == ScheduledTick(Window(now, s.interval));
  }

  ghost predicate HasTick(t: Table, s: Settings, now: nat)
    requires s.interval > 0
  {
    exists i :: i in t && t[i].key == ScheduledTick(Window(now, s.interval))
  }

  lemma SameTicks(t: Table, r: Table, s: Settings, now: nat)
    requires s.interval > 0 && r.Keys == t.Keys && forall i :: i in t ==> r[i].key == t[i].key
    ensures HasTick(r, s, now) <==> HasTick(t, s, now)
    ensures HasTick(r, s, now) <==> ScheduledTick(Window(now, s.interval)) in Keys(r)
  {
    if i :| i in t && t[i].key == ScheduledTick(Window(now, s.interval)) {
      assert r[i].key == t[i].key;
    }
    if i :| i in r && r[i].key == ScheduledTick(Window(now, s.interval)) {
      assert t[i].key == r[i].key;
    }
  }

  /** Recover, schedule, claim, guard, handle, finish. `skipped` are rows locked by concurrent transactions and
      `queue.guards` the guards of other sessions. The clock reads `now` at the start and `later` when the
      handler ends. What other workers may do in between is the subject of WorkerProtocol. */
  method RunOnce(queue: PostgreSQLJobQueue, w: WorkerId, s: Settings, types: set<string>, outcome: Result<(), string>,
                 schedule: bool, now: nat, later: nat, newId: JobId, skipped: set<JobId>) returns (r: Iteration)
    requires TableInv(queue.rows) && newId !in queue.rows && s.interval > 0 && s.maxAttempts >= 1
    modifies queue
    ensures TableInv(queue.rows) && queue.guards == old(queue.guards)
    ensures var t := Prepared(old(queue.rows), queue.keyOf, queue.guards, s, schedule, now, newId, skipped);
            match r
            case Idle => queue.rows == t && forall i :: i in t && i !in skipped ==> !Ready(t[i], now, Some(types))
            case AtGuard(i) =>
              && IsClaimChoice(t, i, now, Some(types), skipped) && queue.keyOf(i) in queue.guards
              && queue.rows == t[i := ClaimRow(t[i], w, now)]
            case Handled(i) =>
              && IsClaimChoice(t, i, now, Some(types), skipped) && queue.keyOf(i) !in queue.guards
              && queue.rows == t[i := Finished(ClaimRow(t[i], w, now), outcome, s, later)]
              && FinishedAs(queue.rows[i], outcome, s, later)
  {
    Prepare(queue, s, schedule, now, newId, skipped);
    var claimed := queue.Claim(w, now, Some(types), skipped);
    if claimed.None? {
      return Idle;
    }
    if queue.keyOf(claimed.value) in queue.guards {
      return AtGuard(claimed.value);
    }
    Execute(queue, claimed.value, w, s, outcome, later);
    return Handled(claimed.value);
  }

  /** Recover abandoned work, then materialise the current tick if asked to. */
  method Prepare(queue: PostgreSQLJobQueue, s: Settings, schedule: bool, now: nat, newId: JobId, skipped: set<JobId>)
    requires TableInv(queue.rows) && newId !in queue.rows && s.interval > 0 && s.maxAttempts >= 1
    modifies queue`rows
    ensures TableInv(queue.rows)
    ensures queue.rows == Prepared(old(queue.rows), queue.keyOf, queue.guards, s, schedule, now, newId, skipped)
  {
    var recovered := queue.RecoverStale(now, s.lease, s.retryBase, skipped);
    if schedule {
      var tick := EnqueueDue(queue, s, now, newId);
    }
  }

  /** Guard, handler, finish, for a job just claimed whose guard is free. */
  method Execute(queue: PostgreSQLJobQueue, i: JobId, w: WorkerId, s: Settings, outcome: Result<(), string>, later: nat)
    requires TableInv(queue.rows) && i in queue.rows && Owned(queue.rows[i], w) && queue.keyOf(i) !in queue.guards
    modifies queue
    ensures TableInv(queue.rows) && queue.guards == old(queue.guards)
    ensures queue.rows == old(queue.rows)[i := Finished(old(queue.rows)[i], outcome, s, later)]
    ensures FinishedAs(queue.rows[i], outcome, s, later)
  {
    queue.guards := queue.guards + {queue.keyOf(i)};
    var epoch := queue.rows[i].attempts;
    if outcome.Err? {
      var failed := queue.Fail(i, w, later, outcome.error, RetryDelay(s, epoch));
    } else {
      var succeeded := queue.Succeed(i, w, later);
    }
    queue.guards := queue.guards - {queue.keyOf(i)};
  }
}
