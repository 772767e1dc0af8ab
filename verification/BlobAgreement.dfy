/** Stored blobs and committed rows under concurrent uploads: e-mail ingestion and the manual invoice
    route store first, then insert behind two advisory locks, then delete what nobody references. Invoices
    from e-mail take part with submission rows that refer to the blobs of an e-mail row. */
module BlobAgreement {
  import opened Prelude
  import AdvisoryLocks

  type Process = nat
  type Key = nat
  type RowId = nat

  /** The e-mail table or the submission table. Each row has two unique columns: server key and content
      fingerprint, or idempotency key and content hash. */
  datatype Source = Email | Submission

  datatype Names = Names(source: Source, first: string, second: string)

  /** A submission from e-mail has the row of its e-mail as `origin`. */
  datatype Row = Row(names: Names, blobs: set<Key>, origin: Option<RowId>)

  /** Hash of (source, column, value) to a lock number; it may collide arbitrarily. */
  type Hash = (Source, bool, string) -> int

  predicate Conflict(a: Names, b: Names) {
    a.source == b.source && (a.first == b.first || a.second == b.second)
  }

  function FirstLock(h: Hash, n: Names): int {
    h(n.source, false, n.first)
  }

  function SecondLock(h: Hash, n: Names): int {
    h(n.source, true, n.second)
  }

  /** `keys` are the blobs the upload has stored and not yet handed to a row or deleted, oldest first. */
  datatype Phase =
    | Storing(names: Names, keys: seq<Key>, origin: Option<RowId>)
    | Locking(names: Names, keys: seq<Key>, origin: Option<RowId>, pending: seq<int>)
    | Checked(names: Names, keys: seq<Key>, origin: Option<RowId>)
    | Deleting(keys: seq<Key>)

  /** `used` are all keys ever published: a fresh UUID never repeats one. `orphans` are blobs left behind by
      a process that died or gave up without compensation, or by a store that failed in its last operation. */
  datatype State = State(
    storage: set<Key>, used: set<Key>, orphans: set<Key>,
    rows: map<RowId, Row>, locks: map<int, Process>, procs: map<Process, Phase>)

  datatype Step =
    | Begin(p: Process, names: Names, origin: Option<RowId>)
    | Store(p: Process, key: Key)
    | StoreFails(p: Process, key: Key)
    | Reject(p: Process)
    | OpenTransaction(p: Process)
    | Acquire(p: Process)
    | Check(p: Process)
    | Insert(p: Process, id: RowId)
    | Rollback(p: Process)
    | DeleteNext(p: Process)
    | Abandon(p: Process)

  ghost predicate Duplicate(s: State, n: Names) {
    exists i :: i in s.rows && Conflict(s.rows[i].names, n)
  }

  function Released(locks: map<int, Process>, p: Process): map<int, Process> {
    map k | k in locks && locks[k] != p :: locks[k]
  }

  function KeySet(keys: seq<Key>): set<Key> {
    set k | k in keys
  }

  predicate IsEmail(s: State, i: RowId) {
    i in s.rows && s.rows[i].names.source.Email?
  }

  /** `StoreFails` is a store that raises after it has published the blob, because the last sync of the
      directory failed: the upload does not learn the key. `Reject` is any other failure handled by
      compensation: a store that raises, a digest that differs, an upload that does not validate. `Rollback`
      is a failure inside the transaction. `Abandon` is a crash, a failing delete, or an exception the manual
      route does not compensate. */
  ghost predicate Enabled(s: State, step: Step) {
    var p := step.p;
    match step
    case Begin(_, names, origin) =>
      && p !in s.procs && (forall k :: k in s.locks ==> s.locks[k] != p)
      && (origin.Some? ==> names.source.Submission? && IsEmail(s, origin.value))
    case Store(_, key) => p in s.procs && s.procs[p].Storing? && s.procs[p].origin.None? && key !in s.used
    case StoreFails(_, key) => p in s.procs && s.procs[p].Storing? && s.procs[p].origin.None? && key !in s.used
    case Reject(_) => p in s.procs && s.procs[p].Storing?
    case OpenTransaction(_) => p in s.procs && s.procs[p].Storing?
    case Acquire(_) =>
      p in s.procs && s.procs[p].Locking? && s.procs[p].pending != [] && s.procs[p].pending[0] !in s.locks
    case Check(_) => p in s.procs && s.procs[p].Locking? && s.procs[p].pending == []
    case Insert(_, id) => p in s.procs && s.procs[p].Checked? && id !in s.rows
    case Rollback(_) => p in s.procs && (s.procs[p].Locking? || s.procs[p].Checked?)
    case DeleteNext(_) => p in s.procs && s.procs[p].Deleting?
    case Abandon(_) => p in s.procs
  }

  function Plan(h: Hash, n: Names): seq<int> {
    AdvisoryLocks.SortedPair(FirstLock(h, n), SecondLock(h, n))
  }

  function NewRow(s: State, phase: Phase): Row
    requires phase.Checked?
  {
    var blobs := if phase.origin.Some? && phase.origin.value in s.rows then s.rows[phase.origin.value].blobs
                 else KeySet(phase.keys);
    Row(phase.names, blobs, phase.origin)
  }

  ghost function Apply(h: Hash, s: State, step: Step): State
    requires Enabled(s, step)
  {
    var p := step.p;
    match step
    case Begin(_, names, origin) => s.(procs := s.procs[p := Storing(names, [], origin)])
    case Store(_, key) =>
      s.(storage := s.storage + {key}, used := s.used + {key},
         procs := s.procs[p := Storing(s.procs[p].names, s.procs[p].keys + [key], None)])
    case StoreFails(_, key) =>
      s.(storage := s.storage + {key}, used := s.used + {key}, orphans := s.orphans + {key},
         procs := s.procs[p := Deleting(s.procs[p].keys)])
    case Reject(_) => s.(procs := s.procs[p := Deleting(s.procs[p].keys)])
    case OpenTransaction(_) =>
      var phase := s.procs[p];
      s.(procs := s.procs[p := Locking(phase.names, phase.keys, phase.origin, Plan(h, phase.names))])
    case Acquire(_) =>
      s.(locks := s.locks[s.procs[p].pending[0] := p],
         procs := s.procs[p := s.procs[p].(pending := s.procs[p].pending[1..])])
    case Check(_) =>
      if Duplicate(s, s.procs[p].names) then
        s.(locks := Released(s.locks, p), procs := s.procs[p := Deleting(s.procs[p].keys)])
      else s.(procs := s.procs[p := Checked(s.procs[p].names, s.procs[p].keys, s.procs[p].origin)])
    case Insert(_, id) =>
      if Duplicate(s, s.procs[p].names) then // the unique constraints would raise
        s.(locks := Released(s.locks, p), procs := s.procs[p := Deleting(s.procs[p].keys)])
      else
        s.(rows := s.rows[id := NewRow(s, s.procs[p])], locks := Released(s.locks, p), procs := s.procs - {p})
    case Rollback(_) => s.(locks := Released(s.locks, p), procs := s.procs[p := Deleting(s.procs[p].keys)])
    case DeleteNext(_) =>
      var keys := s.procs[p].keys;
      if keys == [] then s.(procs := s.procs - {p})
      else s.(storage := s.storage - {keys[|keys| - 1]}, procs := s.procs[p := Deleting(keys[..|keys| - 1])])
    case Abandon(_) =>
      s.(orphans := s.orphans + KeySet(s.procs[p].keys), locks := Released(s.locks, p), procs := s.procs - {p})
  }

  const START := State({}, {}, {}, map[], map[], map[])

  // ----- who owns a blob -----

  datatype Owner = ByRow(id: RowId) | ByProcess(p: Process) | Nobody

  ghost predicate Owns(s: State, o: Owner, k: Key) {
    match o
    case ByRow(i) => i in s.rows && s.rows[i].origin.None? && k in s.rows[i].blobs
    case ByProcess(p) => p in s.procs && k in s.procs[p].keys
    case Nobody => k in s.orphans
  }

  ghost predicate OneOwner(s: State, k: Key) {
    forall o, o' :: Owns(s, o, k) && Owns(s, o', k) ==> o == o'
  }

  ghost predicate Distinct(keys: seq<Key>) {
    forall i, j :: 0 <= i < j < |keys| ==> keys[i] != keys[j]
  }

  /** A submission from e-mail refers to the blobs of its e-mail, and stores none itself. */
  predicate Borrows(s: State, origin: Option<RowId>, n: Names) {
    if n.source.Email? then origin.None? else origin.Some? ==> IsEmail(s, origin.value)
  }

  predicate RowBorrows(s: State, i: RowId)
    requires i in s.rows
  {
    && Borrows(s, s.rows[i].origin, s.rows[i].names)
    && (s.rows[i].origin.Some? ==> s.rows[i].blobs == s.rows[s.rows[i].origin.value].blobs)
  }

  predicate PhaseBorrows(s: State, phase: Phase) {
    !phase.Deleting? ==> Borrows(s, phase.origin, phase.names) && (phase.origin.Some? ==> phase.keys == [])
  }

  ghost predicate OriginInv(s: State) {
    (forall i :: i in s.rows ==> RowBorrows(s, i)) && forall p :: p in s.procs ==> PhaseBorrows(s, s.procs[p])
  }

  lemma RowsStay(h: Hash, s: State, step: Step)
    requires Enabled(s, step)
    ensures forall i :: i in s.rows ==> i in Apply(h, s, step).rows && Apply(h, s, step).rows[i] == s.rows[i]
  {
  }

  lemma StepKeepsOrigins(h: Hash, s: State, step: Step)
    requires OriginInv(s) && Enabled(s, step)
    ensures OriginInv(Apply(h, s, step))
  {
    var s' := Apply(h, s, step);
    RowsStay(h, s, step);
    assert step.p in s.procs ==> PhaseBorrows(s, s.procs[step.p]);
    forall i | i in s'.rows
      ensures RowBorrows(s', i)
    {
      if i in s.rows { assert RowBorrows(s, i); }
    }
    forall p | p in s'.procs
      ensures PhaseBorrows(s', s'.procs[p])
    {
      if p != step.p { assert PhaseBorrows(s, s.procs[p]); }
    }
  }

  /** Stored blobs are exactly the owned ones, and nothing is owned twice. */
  ghost predicate BlobInv(s: State) {
    && OriginInv(s)
    && (forall k :: k in s.storage <==> exists o :: Owns(s, o, k))
    && (forall k :: OneOwner(s, k))
    && s.storage <= s.used
    && (forall p :: p in s.procs ==> Distinct(s.procs[p].keys))
  }

  lemma StepKeepsBlobs(h: Hash, s: State, step: Step)
    requires BlobInv(s) && Enabled(s, step)
    ensures BlobInv(Apply(h, s, step))
  {
    var s' := Apply(h, s, step);
    StepKeepsOrigins(h, s, step);
    forall k
      ensures k in s'.storage <==> exists o :: Owns(s', o, k)
      ensures OneOwner(s', k)
    {
      BlobAfter(h, s, step, k);
    }
    assert s'.storage <= s'.used;
    if step.p in s.procs {
      assert Distinct(s.procs[step.p].keys);
      forall k | (step.Store? || step.StoreFails?) && k in s.procs[step.p].keys
        ensures k in s.used
      {
        assert Owns(s, ByProcess(step.p), k);
      }
    }
  }

  /** What one step does to the ownership of one blob. */
  ghost function OwnerAfter(h: Hash, s: State, step: Step, o: Owner): Owner
    requires Enabled(s, step)
  {
    if o != ByProcess(step.p) then o
    else if step.Abandon? then Nobody
    else if step.Insert? && !Duplicate(s, s.procs[step.p].names) then ByRow(step.id)
    else o
  }

  lemma BlobAfter(h: Hash, s: State, step: Step, k: Key)
    requires BlobInv(s) && Enabled(s, step)
    ensures var s' := Apply(h, s, step);
            (k in s'.storage <==> exists o :: Owns(s', o, k)) && OneOwner(s', k)
  {
    var s' := Apply(h, s, step);
    assert OneOwner(s, k);
    var added := (step.Store? || step.StoreFails?) && k == step.key;
    var removed := step.DeleteNext? && s.procs[step.p].keys != []
                   && k == s.procs[step.p].keys[|s.procs[step.p].keys| - 1];
    if added {
      assert k !in s.storage;
      var owner := if step.Store? then ByProcess(step.p) else Nobody;
      assert Owns(s', owner, k);
      forall o | Owns(s', o, k)
        ensures o == owner
      {
        assert !Owns(s, o, k);
      }
    } else if removed {
      assert Owns(s, ByProcess(step.p), k) && Distinct(s.procs[step.p].keys);
      forall o
        ensures !Owns(s', o, k)
      {
        assert o != ByProcess(step.p) && Owns(s', o, k) ==> Owns(s, o, k);
      }
    } else {
      OwnershipMoves(h, s, step, k);
      if k in s'.storage {
        var o :| Owns(s, o, k);
        assert Owns(s', OwnerAfter(h, s, step, o), k);
      }
    }
  }

  predicate Unaffected(s: State, step: Step, k: Key) {
    && !((step.Store? || step.StoreFails?) && k == step.key)
    && !(step.DeleteNext? && step.p in s.procs && s.procs[step.p].keys != []
         && k == s.procs[step.p].keys[|s.procs[step.p].keys| - 1])
  }

  lemma OwnershipMoves(h: Hash, s: State, step: Step, k: Key)
    requires BlobInv(s) && Enabled(s, step) && Unaffected(s, step, k)
    ensures var s' := Apply(h, s, step);
            && (forall o :: Owns(s, o, k) ==> Owns(s', OwnerAfter(h, s, step, o), k))
            && (forall o' :: Owns(s', o', k) ==> exists o :: Owns(s, o, k) && o' == OwnerAfter(h, s, step, o))
            && (k in s.storage <==> k in s'.storage)
  {
    forall o | Owns(s, o, k)
      ensures Owns(Apply(h, s, step), OwnerAfter(h, s, step, o), k)
    {
      OwnerMoves(h, s, step, k, o);
    }
    forall o' | Owns(Apply(h, s, step), o', k)
      ensures exists o :: Owns(s, o, k) && o' == OwnerAfter(h, s, step, o)
    {
      var o := OwnerCameFrom(h, s, step, k, o');
    }
  }

  lemma OwnerMoves(h: Hash, s: State, step: Step, k: Key, o: Owner)
    requires OriginInv(s) && Enabled(s, step) && Unaffected(s, step, k) && Owns(s, o, k)
    ensures Owns(Apply(h, s, step), OwnerAfter(h, s, step, o), k)
  {
    if step.DeleteNext? && o == ByProcess(step.p) {
      var keys := s.procs[step.p].keys;
      var i :| 0 <= i < |keys| && keys[i] == k;
      assert keys[..|keys| - 1][i] == k;
    }
  }

  lemma OwnerCameFrom(h: Hash, s: State, step: Step, k: Key, o': Owner) returns (o: Owner)
    requires OriginInv(s) && Enabled(s, step) && Unaffected(s, step, k) && Owns(Apply(h, s, step), o', k)
    ensures Owns(s, o, k) && o' == OwnerAfter(h, s, step, o)
  {
    o := if Owns(s, o', k) && o' == OwnerAfter(h, s, step, o') then o' else ByProcess(step.p);
  }

  // ----- why the check still holds when the row is inserted -----

  predicate Has(s: State, p: Process, k: int) {
    k in s.locks && s.locks[k] == p
  }

  ghost predicate ProcInv(h: Hash, s: State, p: Process)
    requires p in s.procs
  {
    match s.procs[p]
    case Locking(n, _, _, pending) => forall k :: k in Plan(h, n) ==> k in pending || Has(s, p, k)
    case Checked(n, _, _) => (forall k :: k in Plan(h, n) ==> Has(s, p, k)) && !Duplicate(s, n)
    case _ => true
  }

  ghost predicate LockInv(h: Hash, s: State) {
    && (forall p :: p in s.procs ==> ProcInv(h, s, p))
    && (forall k :: k in s.locks ==>
          s.locks[k] in s.procs && (s.procs[s.locks[k]].Locking? || s.procs[s.locks[k]].Checked?))
    && (forall i, j :: i in s.rows && j in s.rows && Conflict(s.rows[i].names, s.rows[j].names) ==> i == j)
  }

  /** Conflicting uploads share a lock number, whatever the hash function does. */
  lemma ConflictSharesLock(h: Hash, a: Names, b: Names) returns (k: int)
    requires Conflict(a, b)
    ensures k in Plan(h, a) && k in Plan(h, b)
  {
    k := if a.first == b.first then FirstLock(h, a) else SecondLock(h, a);
  }

  lemma StepKeepsLocks(h: Hash, s: State, step: Step)
    requires LockInv(h, s) && Enabled(s, step)
    ensures LockInv(h, Apply(h, s, step))
  {
    var s' := Apply(h, s, step);
    forall p | p in s'.procs
      ensures ProcInv(h, s', p)
    {
      if p == step.p { ActorAfter(h, s, step); } else { OtherAfter(h, s, step, p); }
    }
    forall i, j | i in s'.rows && j in s'.rows && Conflict(s'.rows[i].names, s'.rows[j].names)
      ensures i == j
    {
      if i in s.rows && j in s.rows {
        assert s.rows[i] == s'.rows[i] && s.rows[j] == s'.rows[j];
      }
    }
  }

  lemma ActorAfter(h: Hash, s: State, step: Step)
    requires LockInv(h, s) && Enabled(s, step) && step.p in Apply(h, s, step).procs
    ensures ProcInv(h, Apply(h, s, step), step.p)
  {
    assert step.p in s.procs ==> ProcInv(h, s, step.p);
    if step.Acquire? {
      var pending := s.procs[step.p].pending;
      assert pending == [pending[0]] + pending[1..];
    }
  }

  lemma OtherAfter(h: Hash, s: State, step: Step, p: Process)
    requires LockInv(h, s) && Enabled(s, step) && p in Apply(h, s, step).procs && p != step.p
    ensures p in s.procs && ProcInv(h, Apply(h, s, step), p)
  {
    assert p in s.procs && Apply(h, s, step).procs[p] == s.procs[p];
    assert ProcInv(h, s, p);
    forall k | Has(s, p, k)
      ensures Has(Apply(h, s, step), p, k)
    {
    }
    if s.procs[p].Checked? {
      CheckedStaysFree(h, s, step, p);
    }
  }

  /** No other process can insert a conflicting row while an upload that has checked is still open. */
  lemma CheckedStaysFree(h: Hash, s: State, step: Step, p: Process)
    requires LockInv(h, s) && Enabled(s, step) && p in s.procs && s.procs[p].Checked? && p != step.p
    ensures !Duplicate(Apply(h, s, step), s.procs[p].names)
  {
    assert ProcInv(h, s, p);
    if step.Insert? {
      CheckedExclude(h, s, step.p, p);
    }
  }

  lemma CheckedExclude(h: Hash, s: State, p: Process, q: Process)
    requires LockInv(h, s) && p in s.procs && q in s.procs && p != q && s.procs[p].Checked? && s.procs[q].Checked?
    ensures !Conflict(s.procs[p].names, s.procs[q].names)
  {
    assert ProcInv(h, s, p) && ProcInv(h, s, q);
    if Conflict(s.procs[p].names, s.procs[q].names) {
      var k := ConflictSharesLock(h, s.procs[p].names, s.procs[q].names);
      assert false;
    }
  }

  /** The transaction ends as it should: the check goes on exactly without a conflicting row, and then the insert
      writes the row; a conflict or a failure leads to the deletion of exactly the blobs of this upload. */
  lemma TransactionDecides(h: Hash, s: State, step: Step)
    requires LockInv(h, s) && Enabled(s, step) && (step.Check? || step.Insert? || step.Rollback?)
    ensures var s', was := Apply(h, s, step), s.procs[step.p];
            && (step.Check? && (forall i :: i in s.rows ==> !Conflict(s.rows[i].names, was.names)) ==>
                  s'.procs[step.p] == Checked(was.names, was.keys, was.origin))
            && (step.Insert? ==> step.p !in s'.procs && s'.rows == s.rows[step.id := NewRow(s, was)])
            && ((step.Check? && exists i :: i in s.rows && Conflict(s.rows[i].names, was.names)) || step.Rollback? ==>
                  s'.procs[step.p] == Deleting(was.keys) && s'.rows == s.rows)
            && (step.p !in s'.procs || s'.procs[step.p].Deleting? ==>
                  forall k :: k in s'.locks ==> s'.locks[k] != step.p)
  {
    assert ProcInv(h, s, step.p);
  }

  /** A store may fail after it has published its blob: that blob is orphaned, the others will be deleted. */
  lemma StoreMayFail(h: Hash, s: State, p: Process, key: Key)
    requires p in s.procs && s.procs[p].Storing? && s.procs[p].origin.None? && key !in s.used
    ensures Enabled(s, StoreFails(p, key)) && Enabled(s, Store(p, key)) && Enabled(s, Abandon(p))
    ensures var s' := Apply(h, s, StoreFails(p, key));
            && s'.storage == s.storage + {key} && s'.orphans == s.orphans + {key} && s'.rows == s.rows
            && s'.procs[p] == Deleting(s.procs[p].keys)
  {
  }

  // ----- runs -----

  datatype Run = Run(states: seq<State>, steps: seq<Step>)

  ghost predicate IsRun(h: Hash, r: Run) {
    && |r.states| == |r.steps| + 1
    && r.states[0] == START
    && forall i :: 0 <= i < |r.steps| ==>
         Enabled(r.states[i], r.steps[i]) && r.states[i + 1] == Apply(h, r.states[i], r.steps[i])
  }

  lemma {:induction false} RunInv(h: Hash, r: Run, n: nat)
    requires IsRun(h, r) && n < |r.states|
    ensures BlobInv(r.states[n]) && LockInv(h, r.states[n])
  {
    if n > 0 {
      RunInv(h, r, n - 1);
      StepKeepsBlobs(h, r.states[n - 1], r.steps[n - 1]);
      StepKeepsLocks(h, r.states[n - 1], r.steps[n - 1]);
    }
  }

  ghost function Referenced(s: State): set<Key> {
    set i, k | i in s.rows && k in s.rows[i].blobs :: k
  }

  ghost function InFlight(s: State): set<Key> {
    set p, k | p in s.procs && k in s.procs[p].keys :: k
  }

  /** At every moment of every run, stored blobs are the disjoint union of those that committed rows
      reference, those in the hands of a running upload, and those abandoned. In particular every
      referenced blob is stored. */
  lemma StorageIsPartitioned(h: Hash, r: Run, n: nat)
    requires IsRun(h, r) && n < |r.states|
    ensures var s := r.states[n];
            && s.storage == Referenced(s) + InFlight(s) + s.orphans
            && Referenced(s) !! InFlight(s) !! s.orphans
  {
    RunInv(h, r, n);
    var s := r.states[n];
    forall k
      ensures k in s.storage <==> k in Referenced(s) + InFlight(s) + s.orphans
      ensures !(k in Referenced(s) && k in InFlight(s)) && !(k in Referenced(s) && k in s.orphans)
              && !(k in InFlight(s) && k in s.orphans)
    {
      OwnerSets(s, k);
    }
  }

  lemma OwnerSets(s: State, k: Key)
    requires OriginInv(s) && OneOwner(s, k) && (k in s.storage <==> exists o :: Owns(s, o, k))
    ensures k in s.storage <==> k in Referenced(s) + InFlight(s) + s.orphans
    ensures !(k in Referenced(s) && k in InFlight(s)) && !(k in Referenced(s) && k in s.orphans)
            && !(k in InFlight(s) && k in s.orphans)
  {
    if k in s.storage {
      var o :| Owns(s, o, k);
    }
    if k in Referenced(s) {
      var i :| i in s.rows && k in s.rows[i].blobs;
      assert Owns(s, ByRow(if s.rows[i].origin.Some? then s.rows[i].origin.value else i), k);
    }
    if k in InFlight(s) {
      var p :| p in s.procs && k in s.procs[p].keys;
      assert Owns(s, ByProcess(p), k);
    }
    if k in s.orphans {
      assert Owns(s, Nobody, k);
    }
  }

  /** The steps that leave blobs behind. */
  predicate Orphans(step: Step) {
    step.Abandon? || step.StoreFails?
  }

  /** With no upload in flight and no orphan left so far, stored equals referenced: duplicates and
      compensated failures leave no trace. */
  lemma QuietStorage(h: Hash, r: Run, n: nat)
    requires IsRun(h, r) && n < |r.states| && r.states[n].procs == map[]
    requires forall i :: 0 <= i < n ==> !Orphans(r.steps[i])
    ensures r.states[n].storage == Referenced(r.states[n])
  {
    StorageIsPartitioned(h, r, n);
    NoOrphans(h, r, n);
    assert InFlight(r.states[n]) == {};
  }

  lemma {:induction false} NoOrphans(h: Hash, r: Run, n: nat)
    requires IsRun(h, r) && n < |r.states|
    requires forall i :: 0 <= i < n ==> !Orphans(r.steps[i])
    ensures r.states[n].orphans == {}
  {
    if n > 0 {
      NoOrphans(h, r, n - 1);
    }
  }

  /** Of all uploads ever, at most one row per server key, per fingerprint, per idempotency key and per
      content hash; and the unique constraints behind the check are never what stops an insert. */
  lemma OneRowPerName(h: Hash, r: Run, n: nat)
    requires IsRun(h, r) && n < |r.states|
    ensures var s := r.states[n];
            forall i, j :: i in s.rows && j in s.rows && Conflict(s.rows[i].names, s.rows[j].names) ==> i == j
    ensures n < |r.steps| && r.steps[n].Insert? ==>
              r.steps[n].id in r.states[n + 1].rows
              && r.states[n + 1].rows[r.steps[n].id] == NewRow(r.states[n], r.states[n].procs[r.steps[n].p])
  {
    RunInv(h, r, n);
    if n < |r.steps| && r.steps[n].Insert? {
      assert ProcInv(h, r.states[n], r.steps[n].p);
    }
  }

  /** A committed row keeps its blobs for ever: same row, every blob stored. */
  lemma {:induction false} CommittedForEver(h: Hash, r: Run, m: nat, n: nat, i: RowId)
    requires IsRun(h, r) && m <= n < |r.states| && i in r.states[m].rows
    ensures i in r.states[n].rows && r.states[n].rows[i] == r.states[m].rows[i]
            && r.states[m].rows[i].blobs <= r.states[n].storage
    decreases n
  {
    if m < n {
      CommittedForEver(h, r, m, n - 1, i);
    }
    StorageIsPartitioned(h, r, n);
    forall k | k in r.states[n].rows[i].blobs
      ensures k in r.states[n].storage
    {
      assert k in Referenced(r.states[n]);
    }
  }

  lemma ExtendRun(h: Hash, r: Run, step: Step) returns (longer: Run)
    requires IsRun(h, r) && Enabled(r.states[|r.steps|], step)
    ensures IsRun(h, longer) && longer.states[|longer.steps|] == Apply(h, r.states[|r.steps|], step)
  {
    longer := Run(r.states + [Apply(h, r.states[|r.steps|], step)], r.steps + [step]);
  }

  lemma UploadOpens(h: Hash, r: Run, p: Process, names: Names, key: Key) returns (longer: Run)
    requires IsRun(h, r)
    requires var s := r.states[|r.steps|];
             p !in s.procs && key !in s.used && forall k :: k in s.locks ==> s.locks[k] != p
    ensures IsRun(h, longer)
    ensures var s := r.states[|r.steps|];
            longer.states[|longer.steps|]
            == s.(storage := s.storage + {key}, used := s.used + {key},
                  procs := s.procs[p := Locking(names, [key], None, Plan(h, names))])
  {
    longer := ExtendRun(h, r, Begin(p, names, None));
    longer := ExtendRun(h, longer, Store(p, key));
    assert [] + [key] == [key];
    longer := ExtendRun(h, longer, OpenTransaction(p));
  }

  /** An upload of one blob that conflicts with no row and finds its locks free can commit: its row refers to the
      new blob, and nothing else changes. */
  lemma UploadCanCommit(h: Hash, r: Run, p: Process, names: Names, key: Key, id: RowId) returns (longer: Run)
    requires IsRun(h, r)
    requires var s := r.states[|r.steps|];
             p !in s.procs && key !in s.used && id !in s.rows && s.locks == map[] && !Duplicate(s, names)
    ensures IsRun(h, longer)
    ensures var s := r.states[|r.steps|];
            longer.states[|longer.steps|]
            == s.(storage := s.storage + {key}, used := s.used + {key}, rows := s.rows[id := Row(names, {key}, None)])
  {
    var s := r.states[|r.steps|];
    longer := UploadOpens(h, r, p, names, key);
    longer := TakesLocks(h, longer, p, names, key, Plan(h, names), longer.states[|longer.steps|], s.procs);
    longer := Commits(h, longer, p, names, key, id, s.procs);
  }

  lemma Commits(h: Hash, r: Run, p: Process, names: Names, key: Key, id: RowId, procs: map<Process, Phase>)
    returns (longer: Run)
    requires IsRun(h, r) && p !in procs
    requires var s := r.states[|r.steps|];
             && s.procs == procs[p := Locking(names, [key], None, [])] && id !in s.rows && !Duplicate(s, names)
             && forall k :: k in s.locks ==> s.locks[k] == p
    ensures IsRun(h, longer)
    ensures var s := r.states[|r.steps|];
            longer.states[|longer.steps|]
            == s.(locks := map[], procs := procs, rows := s.rows[id := Row(names, {key}, None)])
  {
    longer := ExtendRun(h, r, Check(p));
    longer := ExtendRun(h, longer, Insert(p, id));
    assert KeySet([key]) == {key};
    assert Released(r.states[|r.steps|].locks, p) == map[];
    assert longer.states[|longer.steps|].procs == procs;
  }

  lemma {:induction false} TakesLocks(h: Hash, r: Run, p: Process, names: Names, key: Key, pending: seq<int>, s: State,
                                      procs: map<Process, Phase>) returns (longer: Run)
    requires IsRun(h, r) && forall k :: k in r.states[|r.steps|].locks ==> r.states[|r.steps|].locks[k] == p
    requires forall i :: 0 <= i < |pending| ==> pending[i] !in r.states[|r.steps|].locks
    requires forall i, j :: 0 <= i < j < |pending| ==> pending[i] != pending[j]
    requires var now := r.states[|r.steps|];
             now == s.(locks := now.locks, procs := procs[p := Locking(names, [key], None, pending)])
    ensures IsRun(h, longer)
    ensures var after := longer.states[|longer.steps|];
            && after == s.(locks := after.locks, procs := procs[p := Locking(names, [key], None, [])])
            && forall k :: k in after.locks ==> after.locks[k] == p
    decreases |pending|
  {
    if pending == [] {
      longer := r;
    } else {
      longer := ExtendRun(h, r, Acquire(p));
      assert procs[p := Locking(names, [key], None, pending)][p := Locking(names, [key], None, pending[1..])]
             == procs[p := Locking(names, [key], None, pending[1..])];
      longer := TakesLocks(h, longer, p, names, key, pending[1..], s, procs);
    }
  }
}
