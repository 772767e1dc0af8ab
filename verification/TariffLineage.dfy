/** The tariff catalog under concurrent requests: uploads, new versions behind a row lock, and metadata
    updates and soft deletions that read a row and write it back later. */
module TariffLineage {
  import opened Prelude

  type Process = nat
  type TariffId = nat
  type GroupId = nat

  /** `blob` stands for the immutable columns of the stored file. */
  datatype Tariff = Tariff(blob: string, group: GroupId, version: nat, previous: Option<TariffId>, active: bool,
                           deleted: bool, notes: string)

  type Rows = map<TariffId, Tariff>

  /** `read` is the row as the transaction loaded it. A session writes only the columns that it changed
      relative to what it loaded. */
  datatype Phase =
    | Locked(id: TariffId, read: Tariff)
    | Checked(id: TariffId, read: Tariff)
    | Updating(id: TariffId, read: Tariff, active: Option<bool>, notes: Option<string>)
    | Deleting(id: TariffId, read: Tariff)

  datatype State = State(rows: Rows, locks: map<TariffId, Process>, procs: map<Process, Phase>)

  datatype Step =
    | Upload(id: TariffId, group: GroupId, blob: string, remark: string)
    | LockRow(p: Process, id: TariffId)
    | CheckSuccessor(p: Process)
    | InsertVersion(p: Process, id: TariffId, blob: string, notes: Option<string>)
    | ReadForUpdate(p: Process, id: TariffId, active: Option<bool>, notes: Option<string>)
    | ReadForDelete(p: Process, id: TariffId)
    | Write(p: Process)
    | End(p: Process)

  ghost predicate HasSuccessor(rows: Rows, id: TariffId) {
    exists i :: i in rows && rows[i].previous == Some(id)
  }

  /** What an update or a deletion writes over the current row. */
  function Written(row: Tariff, phase: Phase): Tariff
    requires phase.Updating? || phase.Deleting?
  {
    match phase
    case Updating(_, read, active, notes) =>
      var noted := if notes.Some? && notes.value != read.notes then row.(notes := notes.value) else row;
      if active.Some? && active.value != read.active then noted.(active := active.value) else noted
    case Deleting(_, read) =>
      if read.deleted then row
      else if read.active then row.(deleted := true, active := false)
      else row.(deleted := true)
  }

  /** A write that finds its row as it was read does what was asked for and nothing else: an update sets the given
      fields, a deletion deletes and deactivates. */
  lemma UnracedWriteMeans(row: Tariff, phase: Phase)
    requires (phase.Updating? || phase.Deleting?) && row == phase.read
    ensures var after := Written(row, phase);
            && after.blob == row.blob && after.group == row.group && after.version == row.version
            && after.previous == row.previous
            && (phase.Updating? ==>
                  && after.notes == (if phase.notes.Some? then phase.notes.value else row.notes)
                  && after.active == (if phase.active.Some? then phase.active.value else row.active)
                  && after.deleted == row.deleted)
            && (phase.Deleting? ==>
                  after.deleted && after.notes == row.notes && (!row.deleted ==> !after.active))
  {
  }

  /** A write that finds its row changed overwrites only the fields that differ from what was read. */
  lemma RacedWriteMeans(row: Tariff, phase: Phase)
    requires phase.Updating? || phase.Deleting?
    ensures var after, read := Written(row, phase), phase.read;
            && (phase.Updating? ==>
                  && after.notes
                     == (if phase.notes.Some? && phase.notes.value != read.notes then phase.notes.value else row.notes)
                  && after.active
                     == (if phase.active.Some? && phase.active.value != read.active then phase.active.value
                         else row.active)
                  && after.deleted == row.deleted)
            && (phase.Deleting? ==>
                  && after.notes == row.notes
                  && (if read.deleted then after == row else after.deleted)
                  && after.active == (row.active && (read.deleted || !read.active)))
  {
  }

  ghost predicate Enabled(s: State, step: Step) {
    match step
    case Upload(id, group, _, _) => id !in s.rows && forall i :: i in s.rows ==> s.rows[i].group != group
    case LockRow(p, id) => p !in s.procs && id in s.rows && id !in s.locks && !s.rows[id].deleted
    case CheckSuccessor(p) => p in s.procs && s.procs[p].Locked? && !HasSuccessor(s.rows, s.procs[p].id)
    case InsertVersion(p, id, _, _) => p in s.procs && s.procs[p].Checked? && id !in s.rows
    case ReadForUpdate(p, id, _, _) => p !in s.procs && id in s.rows && !s.rows[id].deleted
    case ReadForDelete(p, id) => p !in s.procs && id in s.rows
    case Write(p) =>
      p in s.procs && (s.procs[p].Updating? || s.procs[p].Deleting?) && s.procs[p].id in s.rows
        && s.procs[p].id !in s.locks
    case End(p) => p in s.procs
  }

  function Freed(locks: map<TariffId, Process>, p: Process): map<TariffId, Process> {
    map k | k in locks && locks[k] != p :: locks[k]
  }

  function NextVersion(read: Tariff, previous: TariffId, blob: string, notes: Option<string>): Tariff {
    Tariff(blob, read.group, read.version + 1, Some(previous), true, false,
           if notes.Some? then notes.value else read.notes)
  }

  /** A new version follows its predecessor, is active, and keeps the notes unless new ones are given. */
  lemma NextVersionMeans(read: Tariff, previous: TariffId, blob: string, notes: Option<string>)
    ensures var t := NextVersion(read, previous, blob, notes);
            && t.version == read.version + 1 && t.previous == Some(previous) && t.group == read.group && t.blob == blob
            && t.active && !t.deleted && t.notes == (if notes.Some? then notes.value else read.notes)
  {
  }

  function WithVersion(rows: Rows, previous: TariffId, id: TariffId, t: Tariff): (r: Rows)
    requires previous in rows && id !in rows
    ensures r.Keys == rows.Keys + {id} && r[id] == t && r[previous] == rows[previous].(active := false)
    ensures forall i :: i in rows && i != previous ==> r[i] == rows[i]
  {
    rows[previous := rows[previous].(active := false)][id := t]
  }

  ghost function Apply(s: State, step: Step): State
    requires Enabled(s, step)
  {
    match step
    case Upload(id, group, blob, notes) => s.(rows := s.rows[id := Tariff(blob, group, 1, None, true, false, notes)])
    case LockRow(p, id) => s.(locks := s.locks[id := p], procs := s.procs[p := Locked(id, s.rows[id])])
    case CheckSuccessor(p) => s.(procs := s.procs[p := Checked(s.procs[p].id, s.procs[p].read)])
    case InsertVersion(p, id, blob, notes) =>
      var previous := s.procs[p].id;
      if previous in s.rows then
        State(WithVersion(s.rows, previous, id, NextVersion(s.procs[p].read, previous, blob, notes)),
              Freed(s.locks, p), s.procs - {p})
      else s.(locks := Freed(s.locks, p), procs := s.procs - {p})
    case ReadForUpdate(p, id, active, notes) => s.(procs := s.procs[p := Updating(id, s.rows[id], active, notes)])
    case ReadForDelete(p, id) => s.(procs := s.procs[p := Deleting(id, s.rows[id])])
    case Write(p) =>
      var id := s.procs[p].id;
      s.(rows := s.rows[id := Written(s.rows[id], s.procs[p])], procs := s.procs - {p})
    case End(p) => s.(locks := Freed(s.locks, p), procs := s.procs - {p})
  }

  // ----- lineage -----

  /** A first version has no predecessor; any other follows its predecessor in the same group. */
  predicate Linked(rows: Rows, i: TariffId)
    requires i in rows
  {
    match rows[i].previous
    case None => rows[i].version == 1
    case Some(q) =>
      q in rows && q != i && rows[q].group == rows[i].group && 1 <= rows[q].version
        && rows[i].version == rows[q].version + 1
  }

  ghost predicate Lineage(rows: Rows) {
    && (forall i {:trigger Linked(rows, i)} :: i in rows ==> Linked(rows, i))
    && (forall i, j :: i in rows && j in rows && rows[i].previous.Some? && rows[i].previous == rows[j].previous ==>
         i == j)
    && (forall i, j ::
          i in rows && j in rows && rows[i].group == rows[j].group && rows[i].version == rows[j].version ==> i == j)
  }

  predicate SameIdentity(a: Tariff, b: Tariff) {
    a.blob == b.blob && a.group == b.group && a.version == b.version && a.previous == b.previous
  }

  ghost predicate PhaseInv(s: State, p: Process)
    requires p in s.procs
  {
    var id := s.procs[p].id;
    && id in s.rows && SameIdentity(s.rows[id], s.procs[p].read)
    && (s.procs[p].Locked? || s.procs[p].Checked? ==> id in s.locks && s.locks[id] == p && !s.rows[id].deleted)
    && (s.procs[p].Checked? ==> !HasSuccessor(s.rows, id))
  }

  ghost predicate Inv(s: State) {
    Lineage(s.rows) && forall p :: p in s.procs ==> PhaseInv(s, p)
  }

  /** Two rows of a group at most one version apart in a chain: a tip has the highest version. */
  lemma {:induction false} NoSuccessorIsTip(rows: Rows, tip: TariffId, i: TariffId)
    requires Lineage(rows) && tip in rows && i in rows && rows[i].group == rows[tip].group && !HasSuccessor(rows, tip)
    ensures rows[i].version <= rows[tip].version
    decreases rows[i].version
  {
    if rows[i].version > rows[tip].version {
      assert Linked(rows, i) && Linked(rows, tip);
      var q := rows[i].previous.value;
      NoSuccessorIsTip(rows, tip, q);
      assert false;
    }
  }

  lemma VersionLinks(rows: Rows, previous: TariffId, id: TariffId, t: Tariff, i: TariffId)
    requires Lineage(rows) && previous in rows && id !in rows && t.previous == Some(previous)
    requires t.group == rows[previous].group && t.version == rows[previous].version + 1
    requires i in WithVersion(rows, previous, id, t)
    ensures Linked(WithVersion(rows, previous, id, t), i)
  {
    assert Linked(rows, if i == id then previous else i);
  }

  lemma VersionKeeps(rows: Rows, previous: TariffId, id: TariffId, t: Tariff)
    requires Lineage(rows) && previous in rows && id !in rows && !HasSuccessor(rows, previous)
             && t.previous == Some(previous)
    requires t.group == rows[previous].group && t.version == rows[previous].version + 1
    ensures Lineage(WithVersion(rows, previous, id, t))
  {
    var after := WithVersion(rows, previous, id, t);
    forall i | i in after
      ensures Linked(after, i)
    {
      VersionLinks(rows, previous, id, t, i);
    }
    forall i | i in rows
      ensures SameIdentity(after[i], rows[i])
      ensures rows[i].previous != Some(previous)
      ensures rows[i].group == t.group ==> rows[i].version != t.version
    {
      if rows[i].group == t.group { NoSuccessorIsTip(rows, previous, i); }
    }
  }

  /** A change of status or notes leaves the lineage alone. */
  lemma WriteKeeps(rows: Rows, id: TariffId, row: Tariff)
    requires Lineage(rows) && id in rows && SameIdentity(rows[id], row)
    ensures Lineage(rows[id := row])
  {
    var after := rows[id := row];
    forall i | i in after
      ensures Linked(after, i)
    {
      assert Linked(rows, i);
    }
  }

  lemma UploadKeeps(rows: Rows, id: TariffId, t: Tariff)
    requires Lineage(rows) && id !in rows && t.version == 1 && t.previous.None?
    requires forall i :: i in rows ==> rows[i].group != t.group
    ensures Lineage(rows[id := t])
  {
    var after := rows[id := t];
    forall i | i in after
      ensures Linked(after, i)
    {
      if i != id { assert Linked(rows, i); }
    }
  }

  lemma StepKeepsLineage(s: State, step: Step)
    requires Inv(s) && Enabled(s, step)
    ensures Lineage(Apply(s, step).rows)
  {
    match step
    case Upload(id, group, blob, notes) => UploadKeeps(s.rows, id, Tariff(blob, group, 1, None, true, false, notes));
    case InsertVersion(p, id, blob, notes) =>
      assert PhaseInv(s, p);
      VersionKeeps(s.rows, s.procs[p].id, id, NextVersion(s.procs[p].read, s.procs[p].id, blob, notes));
    case Write(p) => WriteKeeps(s.rows, s.procs[p].id, Written(s.rows[s.procs[p].id], s.procs[p]));
    case _ =>
  }

  /** What a step does to a row that existed before. */
  lemma RowAfter(s: State, step: Step, i: TariffId)
    requires Inv(s) && Enabled(s, step) && i in s.rows
    ensures i in Apply(s, step).rows && SameIdentity(s.rows[i], Apply(s, step).rows[i])
    ensures i in s.locks && !(step.InsertVersion? && s.procs[step.p].id == i) ==> Apply(s, step).rows[i] == s.rows[i]
  {
    if step.InsertVersion? {
      assert PhaseInv(s, step.p);
    }
  }

  /** Nobody writes or extends a row that another request has locked. */
  lemma HolderAfter(s: State, step: Step, p: Process)
    requires Inv(s) && Enabled(s, step) && p in s.procs && (s.procs[p].Locked? || s.procs[p].Checked?)
    requires p in Apply(s, step).procs
    ensures var i, s' := s.procs[p].id, Apply(s, step);
            i in s'.locks && s'.locks[i] == p && s'.rows[i] == s.rows[i]
              && (s'.procs[p].Checked? ==> !HasSuccessor(s'.rows, i))
  {
    var i := s.procs[p].id;
    assert PhaseInv(s, p);
    assert step.InsertVersion? ==> PhaseInv(s, step.p);
    RowAfter(s, step, i);
  }

  lemma StepKeepsPhase(s: State, step: Step, p: Process)
    requires Inv(s) && Enabled(s, step) && p in Apply(s, step).procs
    ensures PhaseInv(Apply(s, step), p)
  {
    if p in s.procs {
      assert PhaseInv(s, p);
      var i := s.procs[p].id;
      RowAfter(s, step, i);
      if s.procs[p].Locked? || s.procs[p].Checked? {
        HolderAfter(s, step, p);
      }
    }
  }

  lemma StepKeepsInv(s: State, step: Step)
    requires Inv(s) && Enabled(s, step)
    ensures Inv(Apply(s, step))
  {
    StepKeepsLineage(s, step);
    forall p | p in Apply(s, step).procs
      ensures PhaseInv(Apply(s, step), p)
    {
      StepKeepsPhase(s, step, p);
    }
  }

  // ----- runs -----

  datatype Run = Run(states: seq<State>, steps: seq<Step>)

  const START := State(map[], map[], map[])

  ghost predicate Moves(s: State, step: Step, s': State) {
    Enabled(s, step) && s' == Apply(s, step)
  }

  ghost predicate IsRun(r: Run) {
    && |r.states| == |r.steps| + 1
    && r.states[0] == START
    && forall i :: 0 <= i < |r.steps| ==> Moves(r.states[i], r.steps[i], r.states[i + 1])
  }

  lemma {:induction false} RunInv(r: Run, n: nat)
    requires IsRun(r) && n < |r.states|
    ensures Inv(r.states[n])
  {
    if n > 0 {
      RunInv(r, n - 1);
      assert Moves(r.states[n - 1], r.steps[n - 1], r.states[n]);
      StepKeepsInv(r.states[n - 1], r.steps[n - 1]);
    }
  }

  /** Every version down to the first exists, each the predecessor of the next. */
  lemma {:induction false} Ancestor(rows: Rows, i: TariffId, version: nat) returns (j: TariffId)
    requires Lineage(rows) && i in rows && 1 <= version <= rows[i].version
    ensures j in rows && rows[j].group == rows[i].group && rows[j].version == version
    ensures version < rows[i].version ==> HasSuccessor(rows, j)
    decreases rows[i].version
  {
    assert Linked(rows, i);
    if version == rows[i].version {
      j := i;
    } else if version + 1 == rows[i].version {
      j := rows[i].previous.value;
      assert rows[i].previous == Some(j);
    } else {
      j := Ancestor(rows, rows[i].previous.value, version);
    }
  }

  ghost function Group(rows: Rows, g: GroupId): set<TariffId> {
    set i | i in rows && rows[i].group == g
  }

  ghost predicate HasVersion(rows: Rows, g: GroupId, v: nat) {
    exists i :: i in rows && rows[i].group == g && rows[i].version == v
  }

  lemma {:induction false} HighestVersion(rows: Rows, ids: set<TariffId>) returns (top: TariffId)
    requires ids != {} && ids <= rows.Keys
    ensures top in ids && forall i :: i in ids ==> rows[i].version <= rows[top].version
  {
    top :| top in ids;
    if ids != {top} {
      var other := HighestVersion(rows, ids - {top});
      if rows[other].version > rows[top].version { top := other; }
    }
  }

  lemma HighestIsTip(rows: Rows, g: GroupId, top: TariffId)
    requires Lineage(rows) && top in Group(rows, g)
    requires forall i :: i in Group(rows, g) ==> rows[i].version <= rows[top].version
    ensures !HasSuccessor(rows, top)
  {
    forall k | k in rows
      ensures rows[k].previous != Some(top)
    {
      assert Linked(rows, k);
      assert k in Group(rows, g) <==> rows[k].group == g;
    }
  }

  /** After any interleaving each group is one chain: its versions are exactly 1..n, one row each, row k
      pointing to row k-1, and only the row with version n has no successor. */
  lemma GroupIsOneChain(r: Run, m: nat, g: GroupId) returns (tip: TariffId)
    requires IsRun(r) && m < |r.states| && Group(r.states[m].rows, g) != {}
    ensures var rows := r.states[m].rows;
            && tip in Group(rows, g)
            && (forall v: nat :: 1 <= v <= rows[tip].version <==> HasVersion(rows, g, v))
            && (forall i, j :: i in Group(rows, g) && j in Group(rows, g) && rows[i].version == rows[j].version ==>
                 i == j)
            && (forall i :: i in Group(rows, g) ==> Linked(rows, i) && (HasSuccessor(rows, i) <==> i != tip))
  {
    RunInv(r, m);
    var rows := r.states[m].rows;
    tip := HighestVersion(rows, Group(rows, g));
    forall i | i in rows && rows[i].group == g
      ensures i in Group(rows, g) && 1 <= rows[i].version
    {
      assert Linked(rows, i);
    }
    forall v: nat
      ensures 1 <= v <= rows[tip].version <==> HasVersion(rows, g, v)
    {
      if 1 <= v <= rows[tip].version { var i := Ancestor(rows, tip, v); }
    }
    forall i | i in Group(rows, g)
      ensures HasSuccessor(rows, i) <==> i != tip
    {
      if i == tip {
        HighestIsTip(rows, g, tip);
      } else {
        assert Linked(rows, i);
        var a := Ancestor(rows, tip, rows[i].version);
      }
    }
  }

  /** Only an undeleted row without successor gains one; the blob, group, version and predecessor of a row
      never change and rows never disappear. */
  lemma StepGrowth(r: Run, n: nat, i: TariffId)
    requires IsRun(r) && n < |r.steps| && i in r.states[n + 1].rows
    ensures i in r.states[n].rows ==> SameIdentity(r.states[n].rows[i], r.states[n + 1].rows[i])
    ensures i !in r.states[n].rows && r.states[n + 1].rows[i].previous.Some? ==>
              var q := r.states[n + 1].rows[i].previous.value;
              q in r.states[n].rows && !r.states[n].rows[q].deleted && !HasSuccessor(r.states[n].rows, q)
    ensures forall j :: j in r.states[n].rows ==> j in r.states[n + 1].rows
  {
    RunInv(r, n);
    assert Moves(r.states[n], r.steps[n], r.states[n + 1]);
    forall j | j in r.states[n].rows
      ensures j in r.states[n + 1].rows && SameIdentity(r.states[n].rows[j], r.states[n + 1].rows[j])
    {
      RowAfter(r.states[n], r.steps[n], j);
    }
  }

  lemma ExtendRun(r: Run, step: Step) returns (longer: Run)
    requires IsRun(r) && Enabled(r.states[|r.steps|], step)
    ensures IsRun(longer) && longer.states[|longer.steps|] == Apply(r.states[|r.steps|], step)
  {
    var next := Apply(r.states[|r.steps|], step);
    longer := Run(r.states + [next], r.steps + [step]);
    forall i | 0 <= i < |longer.steps|
      ensures Moves(longer.states[i], longer.steps[i], longer.states[i + 1])
    {
      if i < |r.steps| { assert Moves(r.states[i], r.steps[i], r.states[i + 1]); }
    }
  }

  /** An undeleted version without successor can always be continued by a request that finds it unlocked: the
      new version is active, the old one is not, and every other row is as it was. */
  lemma VersionCanBeAdded(r: Run, p: Process, id: TariffId, newId: TariffId, blob: string, notes: Option<string>)
    returns (longer: Run)
    requires IsRun(r)
    requires var s := r.states[|r.steps|];
             && p !in s.procs && id in s.rows && !s.rows[id].deleted && id !in s.locks && newId !in s.rows
             && (forall k :: k in s.locks ==> s.locks[k] != p)
             && !HasSuccessor(s.rows, id)
    ensures IsRun(longer)
    ensures var s, s' := r.states[|r.steps|], longer.states[|longer.steps|];
            && s'.locks == s.locks && s'.procs == s.procs && s'.rows.Keys == s.rows.Keys + {newId}
            && s'.rows[id] == s.rows[id].(active := false)
            && s'.rows[newId] == NextVersion(s.rows[id], id, blob, notes)
            && forall i :: i in s.rows && i != id ==> s'.rows[i] == s.rows[i]
  {
    var s := r.states[|r.steps|];
    longer := ExtendRun(r, LockRow(p, id));
    longer := ExtendRun(longer, CheckSuccessor(p));
    assert longer.states[|longer.steps|] == s.(locks := s.locks[id := p],
                                               procs := s.procs[p := Checked(id, s.rows[id])]);
    longer := ExtendRun(longer, InsertVersion(p, newId, blob, notes));
    assert Freed(s.locks[id := p], p) == s.locks;
    assert s.procs[p := Checked(id, s.rows[id])] - {p} == s.procs;
  }

  /** A request may end at any point without having written anything; its row locks are then free. */
  lemma RequestMayEnd(s: State, p: Process)
    requires p in s.procs
    ensures Enabled(s, End(p))
    ensures var s' := Apply(s, End(p));
            s'.rows == s.rows && p !in s'.procs && forall k :: k in s'.locks ==> s'.locks[k] != p
  {
  }

  // ----- deleted rows and the active flag -----

  predicate Ghostly(t: Tariff) {
    t.deleted && t.active
  }

  /** The row is still as the transaction read it. */
  predicate Unchanged(s: State, p: Process) {
    p in s.procs && s.procs[p].id in s.rows && s.rows[s.procs[p].id] == s.procs[p].read
  }

  /** The write re-activates a row that was deleted after it was read, or deletes a row that was re-activated
      after it was read as inactive. */
  predicate Races(row: Tariff, phase: Phase) {
    || (phase.Updating? && phase.active == Some(true) && !phase.read.active && row.deleted)
    || (phase.Deleting? && !phase.read.deleted && !phase.read.active && row.active)
  }

  /** "No deleted row is active" is false: these are exactly the writes that make a row deleted and active. */
  lemma GhostIff(row: Tariff, phase: Phase)
    requires (phase.Updating? || phase.Deleting?) && !Ghostly(row) && !Ghostly(phase.read)
    requires phase.Updating? ==> !phase.read.deleted
    ensures Ghostly(Written(row, phase)) <==> Races(row, phase)
  {
  }

  ghost predicate GhostFree(s: State) {
    forall i :: i in s.rows ==> !Ghostly(s.rows[i])
  }

  ghost predicate NoGhosts(s: State) {
    GhostFree(s)
    && forall p :: p in s.procs ==> !Ghostly(s.procs[p].read) && (s.procs[p].Updating? ==> !s.procs[p].read.deleted)
  }

  predicate RacingWrite(s: State, step: Step) {
    step.Write? && step.p in s.procs && s.procs[step.p].id in s.rows
      && Races(s.rows[s.procs[step.p].id], s.procs[step.p])
  }

  lemma StepKeepsGhostsOut(s: State, step: Step)
    requires Inv(s) && Enabled(s, step) && NoGhosts(s)
    ensures GhostFree(Apply(s, step)) <==> !RacingWrite(s, step)
    ensures GhostFree(Apply(s, step)) ==> NoGhosts(Apply(s, step))
  {
    if step.Write? {
      var id := s.procs[step.p].id;
      GhostIff(s.rows[id], s.procs[step.p]);
      assert Apply(s, step).rows[id] == Written(s.rows[id], s.procs[step.p]);
    }
    if step.InsertVersion? {
      assert PhaseInv(s, step.p);
    }
  }

  lemma {:induction false} NoRaceNoGhosts(r: Run, n: nat)
    requires IsRun(r) && n < |r.states| && forall k :: 0 <= k < n ==> !RacingWrite(r.states[k], r.steps[k])
    ensures NoGhosts(r.states[n])
  {
    if n > 0 {
      NoRaceNoGhosts(r, n - 1);
      RunInv(r, n - 1);
      assert Moves(r.states[n - 1], r.steps[n - 1], r.states[n]);
      StepKeepsGhostsOut(r.states[n - 1], r.steps[n - 1]);
    }
  }

  /** No deleted row has been active up to some moment of a run exactly when no write has raced. */
  lemma {:induction false} NeverGhostlyIff(r: Run, n: nat)
    requires IsRun(r) && n < |r.states|
    ensures (forall k :: 0 <= k <= n ==> GhostFree(r.states[k]))
            <==> forall k :: 0 <= k < n ==> !RacingWrite(r.states[k], r.steps[k])
  {
    if forall k :: 0 <= k < n ==> !RacingWrite(r.states[k], r.steps[k]) {
      forall k | 0 <= k <= n
        ensures GhostFree(r.states[k])
      {
        NoRaceNoGhosts(r, k);
      }
    } else if n > 0 && RacingWrite(r.states[n - 1], r.steps[n - 1])
              && forall k :: 0 <= k < n - 1 ==> !RacingWrite(r.states[k], r.steps[k]) {
      NoRaceNoGhosts(r, n - 1);
      RunInv(r, n - 1);
      assert Moves(r.states[n - 1], r.steps[n - 1], r.states[n]);
      StepKeepsGhostsOut(r.states[n - 1], r.steps[n - 1]);
    } else {
      NeverGhostlyIff(r, n - 1);
    }
  }

  /** In particular if every write finds its row as it was read. */
  lemma UnchangedRowsKeepGhostsOut(r: Run, n: nat)
    requires IsRun(r) && n < |r.states|
    requires forall k :: 0 <= k < n && r.steps[k].Write? ==> Unchanged(r.states[k], r.steps[k].p)
    ensures forall k :: 0 <= k <= n ==> GhostFree(r.states[k])
  {
    var k: nat := 0;
    while k < n
      invariant k <= n && forall j :: 0 <= j < k ==> !RacingWrite(r.states[j], r.steps[j])
    {
      NoRaceNoGhosts(r, k);
      assert Moves(r.states[k], r.steps[k], r.states[k + 1]);
      assert r.steps[k].Write? ==> Unchanged(r.states[k], r.steps[k].p);
      k := k + 1;
    }
    NeverGhostlyIff(r, n);
  }

  const ROW := Tariff("blob", 0, 1, None, true, false, "")

  const RACE: seq<Step> :=
    [Upload(0, 0, "blob", ""), ReadForUpdate(1, 0, Some(false), None), Write(1),
     ReadForUpdate(2, 0, Some(true), None), ReadForDelete(3, 0), Write(3), Write(2)]

  const INACTIVE := ROW.(active := false)

  lemma RaceBegins() returns (states: seq<State>)
    ensures |states| == 5 && states[0] == START
    ensures forall i :: 0 <= i < 4 ==> Moves(states[i], RACE[i], states[i + 1])
    ensures states[4].rows == map[0 := INACTIVE] && states[4].locks == map[]
    ensures states[4].procs == map[2 := Updating(0, INACTIVE, Some(true), None)]
  {
    var s1 := Apply(START, RACE[0]);
    assert s1 == State(map[0 := ROW], map[], map[]);
    var s2 := Apply(s1, RACE[1]);
    assert s2 == State(map[0 := ROW], map[], map[1 := Updating(0, ROW, Some(false), None)]);
    var s3 := Apply(s2, RACE[2]);
    assert s3 == State(map[0 := INACTIVE], map[], map[]);
    states := [START, s1, s2, s3, Apply(s3, RACE[3])];
  }

  /** Deactivate; then a re-activation reads, a deletion reads and writes, the re-activation writes. */
  lemma DeletedYetActive() returns (r: Run)
    ensures IsRun(r) && 0 in r.states[|r.states| - 1].rows && Ghostly(r.states[|r.states| - 1].rows[0])
  {
    var states := RaceBegins();
    var s5 := Apply(states[4], RACE[4]);
    assert s5 == State(map[0 := INACTIVE], map[], map[2 := Updating(0, INACTIVE, Some(true), None),
                                                      3 := Deleting(0, INACTIVE)]);
    var s6 := Apply(s5, RACE[5]);
    assert s6 == State(map[0 := INACTIVE.(deleted := true)], map[], map[2 := Updating(0, INACTIVE, Some(true), None)]);
    var s7 := Apply(s6, RACE[6]);
    r := Run(states + [s5, s6, s7], RACE);
    forall i | 0 <= i < |r.steps|
      ensures Moves(r.states[i], r.steps[i], r.states[i + 1])
    {
      if i < 4 { assert Moves(states[i], RACE[i], states[i + 1]); }
    }
  }
}
