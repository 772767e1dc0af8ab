/** The durable job table and the queue object that updates its rows. */
module JobQueue {
  import opened Prelude
  import opened JobKeys

  type JobId = nat
  type WorkerId = string
  type Time = int

  datatype Status = Pending | Running | RetryScheduled | Succeeded | Failed

  datatype Job = Job(
    jobType: string,
    key: JobKey,
    payload: string,
    status: Status,
    priority: int,
    attempts: int,
    maxAttempts: int,
    availableAt: Time,
    createdAt: Time,
    lockedBy: Option<WorkerId>,
    startedAt: Option<Time>,
    heartbeatAt: Option<Time>,
    finishedAt: Option<Time>,
    lastError: Option<string>)

  type Table = map<JobId, Job>

  datatype QueueError = JobLeaseError | CheckViolation

  const LEASE_EXPIRED := "worker lease expired before completion"

  // ----- what one operation does to one row -----

  predicate Terminal(j: Job) {
    j.status.Succeeded? || j.status.Failed?
  }

  predicate Waiting(j: Job) {
    j.status.Pending? || j.status.RetryScheduled?
  }

  predicate Owned(j: Job, w: WorkerId) {
    j.status.Running? && j.lockedBy == Some(w)
  }

  predicate Ready(j: Job, now: Time, types: Option<set<string>>) {
    Waiting(j) && j.availableAt <= now && (types.Some? ==> j.jobType in types.value)
  }

  /** The claim order: higher priority, then earlier availability, then earlier creation. */
  predicate NotAfter(a: Job, b: Job) {
    a.priority > b.priority
    || (a.priority == b.priority
        && (a.availableAt < b.availableAt
            || (a.availableAt == b.availableAt && a.createdAt <= b.createdAt)))
  }

  predicate Stale(j: Job, now: Time, leaseTimeout: Time) {
    j.status.Running? && (j.heartbeatAt.None? || j.heartbeatAt.value < now - leaseTimeout)
  }

  function NewJob(jobType: string, key: JobKey, payload: string, maxAttempts: int, availableAt: Time,
                  priority: int, createdAt: Time): Job {
    Job(jobType, key, payload, Pending, priority, 0, maxAttempts, availableAt, createdAt,
        None, None, None, None, None)
  }

  function ClaimRow(j: Job, w: WorkerId, now: Time): Job {
    j.(status := Running, attempts := j.attempts + 1, lockedBy := Some(w),
       startedAt := Some(now), heartbeatAt := Some(now), finishedAt := None)
  }

  function HeartbeatRow(j: Job, w: WorkerId, now: Time): Job {
    if Owned(j, w) then j.(heartbeatAt := Some(now)) else j
  }

  function SucceedRow(j: Job, now: Time): Job {
    j.(status := Succeeded, finishedAt := Some(now), heartbeatAt := Some(now), lockedBy := None,
       lastError := None)
  }

  /** Shared tail of `fail` and `recover_stale`: retry while attempts remain, otherwise fail for good. */
  function RetryOrFail(j: Job, now: Time, error: string, retryDelay: Time): Job {
    var freed := j.(lastError := Some(error), lockedBy := None);
    if j.attempts < j.maxAttempts then
      freed.(status := RetryScheduled, availableAt := now + retryDelay, finishedAt := None)
    else
      freed.(status := Failed, finishedAt := Some(now))
  }

  function Truncated(error: string): (r: string)
    ensures r <= error && |r| <= 4000 && (|r| < 4000 ==> r == error)
  {
    if |error| <= 4000 then error else error[..4000]
  }

  function FailRow(j: Job, now: Time, error: string, retryDelay: Time): Job {
    RetryOrFail(j.(heartbeatAt := Some(now)), now, Truncated(error), retryDelay)
  }

  function RecoverRow(j: Job, now: Time, retryDelay: Time): Job {
    RetryOrFail(j, now, LEASE_EXPIRED, retryDelay)
  }

  // ----- lifecycle of one row -----

  /** What every stored row satisfies, including the CHECK constraints of the table. */
  predicate RowInv(j: Job) {
    && 0 <= j.attempts <= j.maxAttempts
    && 1 <= j.maxAttempts
    && (Waiting(j) ==> j.attempts < j.maxAttempts)
    && (j.status.Pending? ==> j.attempts == 0)
    && (j.status.RetryScheduled? || j.status.Running? || Terminal(j) ==> 1 <= j.attempts)
    && (j.status.Failed? ==> j.attempts == j.maxAttempts)
    && (j.lockedBy.Some? <==> j.status.Running?)
    && (j.finishedAt.Some? <==> Terminal(j))
    && (j.status.Running? ==> j.heartbeatAt.Some?)
  }

  /** Work left in a row: two for each remaining attempt, one for the attempt in progress. */
  function Measure(j: Job): int {
    2 * (j.maxAttempts - j.attempts) + (if j.status.Running? then 1 else 0)
  }

  predicate TableInv(t: Table) {
    && (forall i :: i in t ==> RowInv(t[i]))
    && (forall i, k :: i in t && k in t && t[i].key == t[k].key ==> i == k)
  }

  /** The idempotency keys that have a row. */
  function Keys(t: Table): set<JobKey> {
    set i | i in t :: t[i].key
  }

  lemma KeysAfter(t: Table, i: JobId, j: Job)
    requires i !in t
    ensures Keys(t[i := j]) == Keys(t) + {j.key}
  {
    var after := t[i := j];
    forall k | k in t
      ensures t[k].key in Keys(after)
    {
      assert after[k] == t[k];
    }
    assert after[i] == j;
  }

  predicate Stuck(t: Table, i: JobId, now: Time, leaseTimeout: Time, skipped: set<JobId>) {
    i in t && i !in skipped && Stale(t[i], now, leaseTimeout)
  }

  /** One `recover_stale` transaction: all unlocked stale rows whose execution guard nobody holds. */
  function Recovered(t: Table, keyOf: JobId -> int, guards: set<int>, now: Time, leaseTimeout: Time,
                     retryDelay: Time, skipped: set<JobId>): Table {
    map i | i in t ::
      if Stuck(t, i, now, leaseTimeout, skipped) && keyOf(i) !in guards
      then RecoverRow(t[i], now, retryDelay) else t[i]
  }

  /** The table when the rows in `done` have been recovered. */
  function PartlyRecovered(t: Table, done: set<JobId>, now: Time, retryDelay: Time): Table {
    map i | i in t :: if i in done then RecoverRow(t[i], now, retryDelay) else t[i]
  }

  lemma PartlyNext(t: Table, done: set<JobId>, i: JobId, now: Time, retryDelay: Time)
    requires i in t && i !in done
    ensures PartlyRecovered(t, done + {i}, now, retryDelay)
            == PartlyRecovered(t, done, now, retryDelay)[i := RecoverRow(t[i], now, retryDelay)]
  {
  }

  ghost predicate IsClaimChoice(t: Table, i: JobId, now: Time, types: Option<set<string>>, skipped: set<JobId>) {
    && i in t && i !in skipped && Ready(t[i], now, types)
    && forall k :: k in t && k !in skipped && Ready(t[k], now, types) ==> NotAfter(t[i], t[k])
  }

  // ----- each row operation keeps the lifecycle and spends work -----

  /** The part of a row that no operation changes after it was enqueued. */
  predicate SameWork(a: Job, b: Job) {
    && a.jobType == b.jobType && a.key == b.key && a.payload == b.payload && a.priority == b.priority
    && a.maxAttempts == b.maxAttempts && a.createdAt == b.createdAt
  }

  lemma ClaimKeeps(j: Job, w: WorkerId, now: Time)
    requires RowInv(j) && Waiting(j)
    ensures var c := ClaimRow(j, w, now);
            && RowInv(c) && Owned(c, w) && SameWork(j, c)
            && Measure(c) == Measure(j) - 1 && c.attempts == j.attempts + 1 <= j.maxAttempts
            && c.heartbeatAt == c.startedAt == Some(now) && c.availableAt == j.availableAt && c.lastError == j.lastError
  {
  }

  /** A new job waits for its first attempt and can be claimed from its time on. */
  lemma NewJobWaits(jobType: string, key: JobKey, payload: string, maxAttempts: int, availableAt: Time, priority: int,
                    createdAt: Time, now: Time, types: Option<set<string>>)
    requires maxAttempts >= 1
    ensures var j := NewJob(jobType, key, payload, maxAttempts, availableAt, priority, createdAt);
            && RowInv(j) && j.status == Pending && j.attempts == 0 && j.maxAttempts == maxAttempts
            && j.jobType == jobType && j.key == key && j.payload == payload && j.priority == priority
            && j.availableAt == availableAt && j.createdAt == createdAt
            && j.lockedBy.None? && j.startedAt.None? && j.heartbeatAt.None? && j.finishedAt.None? && j.lastError.None?
            && (Ready(j, now, types) <==> availableAt <= now && (types.Some? ==> jobType in types.value))
  {
  }

  /** A heartbeat renews the lease of its owner and nothing else. */
  lemma HeartbeatKeeps(j: Job, w: WorkerId, now: Time)
    requires RowInv(j)
    ensures var h := HeartbeatRow(j, w, now);
            && RowInv(h) && SameWork(j, h) && h.status == j.status && h.attempts == j.attempts
            && h.lockedBy == j.lockedBy && h.availableAt == j.availableAt && h.startedAt == j.startedAt
            && h.finishedAt == j.finishedAt && h.lastError == j.lastError
            && h.heartbeatAt == if j.status == Running && j.lockedBy == Some(w) then Some(now) else j.heartbeatAt
  {
  }

  /** The row that `claim` picks: waiting, due and of a wanted type; of those rows none has a higher priority,
      none of its priority is available earlier, and of those none is older. */
  lemma ClaimChoiceMeans(t: Table, i: JobId, now: Time, types: Option<set<string>>, skipped: set<JobId>)
    requires i in t
    ensures IsClaimChoice(t, i, now, types, skipped)
            <==> Claimable(t, i, now, types, skipped)
                 && forall k :: Claimable(t, k, now, types, skipped) ==>
                      && t[k].priority <= t[i].priority
                      && (t[k].priority == t[i].priority ==> t[i].availableAt <= t[k].availableAt)
                      && (t[k].priority == t[i].priority && t[k].availableAt == t[i].availableAt ==>
                            t[i].createdAt <= t[k].createdAt)
  {
    assert forall k :: Claimable(t, k, now, types, skipped) <==> k in t && k !in skipped && Ready(t[k], now, types);
  }

  predicate Claimable(t: Table, k: JobId, now: Time, types: Option<set<string>>, skipped: set<JobId>) {
    && k in t && k !in skipped && (t[k].status == Pending || t[k].status == RetryScheduled)
    && t[k].availableAt <= now && (types == None || t[k].jobType in types.value)
  }

  /** A running row whose last sign of life, if any, is older than the lease timeout. */
  predicate Expired(j: Job, now: Time, leaseTimeout: Time) {
    j.status == Running && (j.heartbeatAt == None || j.heartbeatAt.value + leaseTimeout < now)
  }

  /** What a recovery batch does to each row: only expired leases of unlocked rows with a free guard end, and
      each of them does. */
  lemma RecoveredMeans(t: Table, keyOf: JobId -> int, guards: set<int>, now: Time, leaseTimeout: Time,
                       retryDelay: Time, skipped: set<JobId>, i: JobId)
    requires TableInv(t) && i in t
    ensures var r := Recovered(t, keyOf, guards, now, leaseTimeout, retryDelay, skipped);
            && r.Keys == t.Keys
            && if Expired(t[i], now, leaseTimeout) && i !in skipped && keyOf(i) !in guards
               then Ended(t[i], r[i], now, LEASE_EXPIRED, retryDelay) && r[i].status != Running
               else r[i] == t[i]
  {
  }

  /** A lease that ended without success: what both failing and losing the lease leave behind. */
  predicate Ended(j: Job, after: Job, now: Time, error: string, retryDelay: Time) {
    && after.attempts == j.attempts && after.lockedBy.None? && after.lastError == Some(error)
    && (if j.attempts < j.maxAttempts then after.status.RetryScheduled? && after.availableAt == now + retryDelay
        else after.status.Failed? && after.finishedAt == Some(now) && after.availableAt == j.availableAt)
  }

  lemma FinishKeeps(j: Job, now: Time, error: string, retryDelay: Time)
    requires RowInv(j) && j.status.Running?
    ensures var s := SucceedRow(j, now);
            && RowInv(s) && Measure(s) < Measure(j) && SameWork(j, s) && s.attempts == j.attempts
            && s.status.Succeeded? && s.finishedAt == Some(now) && s.lastError.None?
            && s.heartbeatAt == Some(now) && s.availableAt == j.availableAt && s.startedAt == j.startedAt
    ensures var f := FailRow(j, now, error, retryDelay);
            && RowInv(f) && Measure(f) < Measure(j) && SameWork(j, f) && Ended(j, f, now, Truncated(error), retryDelay)
            && f.heartbeatAt == Some(now) && f.startedAt == j.startedAt
    ensures var r := RecoverRow(j, now, retryDelay);
            && RowInv(r) && Measure(r) < Measure(j) && SameWork(j, r) && Ended(j, r, now, LEASE_EXPIRED, retryDelay)
            && r.heartbeatAt == j.heartbeatAt && r.startedAt == j.startedAt
  {
  }

  /** A finite non-empty set of ready rows has a first one in claim order. */
  lemma {:induction false} FirstExists(t: Table, s: set<JobId>) returns (first: JobId)
    requires s != {} && s <= t.Keys
    ensures first in s && forall k :: k in s ==> NotAfter(t[first], t[k])
  {
    first :| first in s;
    if s != {first} {
      var rest := FirstExists(t, s - {first});
      if !NotAfter(t[first], t[rest]) {
        first := rest;
      }
    }
  }

  class PostgreSQLJobQueue {
    var rows: Table
    /** Advisory keys that sessions hold as execution guards. */
    var guards: set<int>
    const keyOf: JobId -> int

    constructor (keyOf: JobId -> int)
      ensures rows == map[] && guards == {} && this.keyOf == keyOf && TableInv(rows)
    {
      rows, guards := map[], {};
      this.keyOf := keyOf;
    }

    /** Insert once per idempotency key; a second call returns the first row unchanged. */
    method Enqueue(newId: JobId, jobType: string, key: JobKey, payload: string, maxAttempts: int,
                   availableAt: Time, priority: int, now: Time)
      returns (r: Result<(JobId, bool), QueueError>)
      requires TableInv(rows) && newId !in rows
      modifies this`rows
      ensures TableInv(rows)
      ensures r.Err? <==> maxAttempts < 1
      ensures r.Err? ==> rows == old(rows)
      ensures r.Ok? ==> r.value.0 in rows && rows[r.value.0].key == key
      ensures r.Ok? ==> (r.value.1 <==> key !in Keys(old(rows))) && Keys(rows) == Keys(old(rows)) + {key}
      ensures r.Ok? && !r.value.1 ==> rows == old(rows)
      ensures r.Ok? && r.value.1 ==>
                r.value.0 == newId
                && rows == old(rows)[newId := NewJob(jobType, key, payload, maxAttempts, availableAt, priority, now)]
    {
      if maxAttempts < 1 {
        return Err(CheckViolation);
      }
      if i :| i in rows && rows[i].key == key {
        return Ok((i, false));
      }
      KeysAfter(rows, newId, NewJob(jobType, key, payload, maxAttempts, availableAt, priority, now));
      rows := rows[newId := NewJob(jobType, key, payload, maxAttempts, availableAt, priority, now)];
      return Ok((newId, true));
    }

    /** Lease the first ready row that no concurrent transaction has locked. */
    method Claim(w: WorkerId, now: Time, types: Option<set<string>>, skipped: set<JobId>)
      returns (claimed: Option<JobId>)
      requires TableInv(rows)
      modifies this`rows
      ensures TableInv(rows)
      ensures claimed.None? ==> rows == old(rows)
      ensures claimed.None? <==> forall i :: i in old(rows) && i !in skipped ==> !Ready(old(rows)[i], now, types)
      ensures claimed.Some? ==>
                IsClaimChoice(old(rows), claimed.value, now, types, skipped)
                && rows == old(rows)[claimed.value := ClaimRow(old(rows)[claimed.value], w, now)]
    {
      var ready := set i | i in rows && i !in skipped && Ready(rows[i], now, types);
      if ready == {} {
        forall i | i in rows && i !in skipped
          ensures !Ready(rows[i], now, types)
        {
          assert i !in ready;
        }
        return None;
      }
      ghost var first := FirstExists(rows, ready);
      var i :| i in ready && forall k :: k in ready ==> NotAfter(rows[i], rows[k]);
      ClaimKeeps(rows[i], w, now);
      rows := rows[i := ClaimRow(rows[i], w, now)];
      return Some(i);
    }

    method Heartbeat(i: JobId, w: WorkerId, now: Time) returns (alive: bool)
      requires TableInv(rows)
      modifies this`rows
      ensures TableInv(rows)
      ensures alive <==> i in old(rows) && Owned(old(rows)[i], w)
      ensures rows == if alive then old(rows)[i := HeartbeatRow(old(rows)[i], w, now)] else old(rows)
    {
      if i !in rows || !rows[i].status.Running? || rows[i].lockedBy != Some(w) {
        return false;
      }
      rows := rows[i := rows[i].(heartbeatAt := Some(now))];
      return true;
    }

    method Succeed(i: JobId, w: WorkerId, now: Time) returns (r: Result<Job, QueueError>)
      requires TableInv(rows)
      modifies this`rows
      ensures TableInv(rows)
      ensures r.Ok? <==> i in old(rows) && Owned(old(rows)[i], w)
      ensures r.Ok? ==> rows == old(rows)[i := SucceedRow(old(rows)[i], now)] && r.value == rows[i]
      ensures r.Err? ==> rows == old(rows) && r.error == JobLeaseError
    {
      if i !in rows || !Owned(rows[i], w) {
        return Err(JobLeaseError);
      }
      FinishKeeps(rows[i], now, "", 0);
      rows := rows[i := SucceedRow(rows[i], now)];
      return Ok(rows[i]);
    }

    method Fail(i: JobId, w: WorkerId, now: Time, error: string, retryDelay: Time) returns (r: Result<Job, QueueError>)
      requires TableInv(rows)
      modifies this`rows
      ensures TableInv(rows)
      ensures r.Ok? <==> i in old(rows) && Owned(old(rows)[i], w)
      ensures r.Ok? ==> rows == old(rows)[i := FailRow(old(rows)[i], now, error, retryDelay)] && r.value == rows[i]
      ensures r.Err? ==> rows == old(rows) && r.error == JobLeaseError
    {
      if i !in rows || !Owned(rows[i], w) {
        return Err(JobLeaseError);
      }
      FinishKeeps(rows[i], now, error, retryDelay);
      var job := rows[i];
      job := job.(lastError := Some(Truncated(error)), heartbeatAt := Some(now), lockedBy := None);
      if job.attempts < job.maxAttempts {
        job := job.(status := RetryScheduled, availableAt := now + retryDelay, finishedAt := None);
      } else {
        job := job.(status := Failed, finishedAt := Some(now));
      }
      rows := rows[i := job];
      return Ok(job);
    }

    /** Take back expired leases, but only of jobs whose execution guard can be taken at once. */
    method RecoverStale(now: Time, leaseTimeout: Time, retryDelay: Time, skipped: set<JobId>)
      returns (recovered: seq<(JobId, Job)>)
      requires TableInv(rows)
      modifies this`rows
      ensures TableInv(rows)
      ensures rows == Recovered(old(rows), keyOf, guards, now, leaseTimeout, retryDelay, skipped)
      ensures Lists(recovered, rows, set i | i in old(rows) && Stuck(old(rows), i, now, leaseTimeout, skipped)
                                             && keyOf(i) !in guards)
      ensures forall i :: i in old(rows) ==>
                var j := old(rows)[i];
                if j.status == Running && (j.heartbeatAt == None || j.heartbeatAt.value + leaseTimeout < now)
                   && i !in skipped && keyOf(i) !in guards
                then rows[i].status != Running && rows[i].lockedBy == None && i in Listed(recovered)
                else rows[i] == j && i !in Listed(recovered)
    {
      recovered := [];
      var stale := set i | i in rows && Stuck(rows, i, now, leaseTimeout, skipped);
      var left := stale;
      ghost var done: set<JobId> := {};
      while left != {}
        invariant left <= stale && done == Unguarded(stale - left, keyOf, guards)
        invariant rows == PartlyRecovered(old(rows), done, now, retryDelay)
        invariant Lists(recovered, rows, done)
      {
        var i :| i in left;
        UnguardedNext(stale, left, i, keyOf, guards);
        left := left - {i};
        if keyOf(i) !in guards {
          ListsAppend(recovered, rows, done, i, RecoverRow(rows[i], now, retryDelay));
          PartlyNext(old(rows), done, i, now, retryDelay);
          rows := rows[i := RecoverRow(rows[i], now, retryDelay)];
          recovered := recovered + [(i, rows[i])];
          done := done + {i};
        }
      }
      RecoveredKeeps(old(rows), keyOf, guards, now, leaseTimeout, retryDelay, skipped);
      BatchDone(old(rows), stale, keyOf, guards, now, leaseTimeout, retryDelay, skipped);
    }
  }

  function Unguarded(ids: set<JobId>, keyOf: JobId -> int, guards: set<int>): set<JobId> {
    set i | i in ids && keyOf(i) !in guards
  }

  lemma UnguardedNext(stale: set<JobId>, left: set<JobId>, i: JobId, keyOf: JobId -> int, guards: set<int>)
    requires i in left && left <= stale
    ensures i !in Unguarded(stale - left, keyOf, guards)
    ensures Unguarded(stale - (left - {i}), keyOf, guards)
            == Unguarded(stale - left, keyOf, guards) + (if keyOf(i) in guards then {} else {i})
  {
  }

  lemma BatchDone(t: Table, stale: set<JobId>, keyOf: JobId -> int, guards: set<int>, now: Time, leaseTimeout: Time,
                  retryDelay: Time, skipped: set<JobId>)
    requires stale == set i | i in t && Stuck(t, i, now, leaseTimeout, skipped)
    ensures Unguarded(stale - {}, keyOf, guards)
            == set i | i in t && Stuck(t, i, now, leaseTimeout, skipped) && keyOf(i) !in guards
    ensures PartlyRecovered(t, Unguarded(stale - {}, keyOf, guards), now, retryDelay)
            == Recovered(t, keyOf, guards, now, leaseTimeout, retryDelay, skipped)
  {
  }

  /** The list holds the current record of each row of the set, once. */
  ghost predicate Lists(records: seq<(JobId, Job)>, t: Table, ids: set<JobId>) {
    && (forall n :: 0 <= n < |records| ==>
          records[n].0 in ids && records[n].0 in t && records[n].1 == t[records[n].0])
    && (forall m, n :: 0 <= m < n < |records| ==> records[m].0 != records[n].0)
    && (forall i :: i in ids ==> i in Listed(records))
  }

  ghost function Listed(records: seq<(JobId, Job)>): set<JobId> {
    set n | 0 <= n < |records| :: records[n].0
  }

  lemma ListsAppend(records: seq<(JobId, Job)>, t: Table, ids: set<JobId>, i: JobId, j: Job)
    requires Lists(records, t, ids) && i !in ids
    ensures Lists(records + [(i, j)], t[i := j], ids + {i})
  {
    var longer := records + [(i, j)];
    forall k | k in ids + {i}
      ensures k in Listed(longer)
    {
      if k == i {
        assert longer[|records|].0 == k;
      } else {
        var n :| 0 <= n < |records| && records[n].0 == k;
        assert longer[n].0 == k;
      }
    }
  }

  lemma RecoveredKeeps(t: Table, keyOf: JobId -> int, guards: set<int>, now: Time, leaseTimeout: Time,
                       retryDelay: Time, skipped: set<JobId>)
    requires TableInv(t)
    ensures TableInv(Recovered(t, keyOf, guards, now, leaseTimeout, retryDelay, skipped))
  {
    var after := Recovered(t, keyOf, guards, now, leaseTimeout, retryDelay, skipped);
    forall i | i in after
      ensures RowInv(after[i]) && after[i].key == t[i].key
    {
      if t[i].status.Running? {
        FinishKeeps(t[i], now, "", retryDelay);
      }
    }
  }
}
