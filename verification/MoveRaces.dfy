/** Movement of classified e-mails when jobs and a human reviewer interleave. Three statements one would
    like to rely on are false; each has a run that shows it and a condition for when it holds. */
module MoveRaces {
  import opened Prelude
  import opened JobKeys
  import opened PowersOfTen
  import opened Decimals
  import opened EmailClassification
  import opened Pipeline
  import opened PipelineEffects

  function MailAt(r: Run, n: nat, m: MessageId): Mail
    requires n < |r.states| && m in r.states[n].t.messages
  {
    r.states[n].t.messages[m].mail
  }

  /** Step n of the run acts on message m. */
  predicate On(r: Run, n: nat, m: MessageId)
    requires n < |r.steps| && n < |r.states|
  {
    var p := r.steps[n].p;
    p in r.states[n].procs && WritesMail(r.steps[n])
    && match r.states[n].procs[p]
       case Unclassified(i) => i == m
       case Moving(i, _) => i == m
       case MoveDone(i, _, _) => i == m
       case Reviewing(i, _, _) => i == m
       case _ => false
  }

  predicate Resolves(r: Run, n: nat, m: MessageId)
    requires n < |r.steps| && n < |r.states|
  {
    r.steps[n].Resolve? && On(r, n, m)
  }

  predicate Marks(r: Run, n: nat, m: MessageId)
    requires n < |r.steps| && n < |r.states|
  {
    r.steps[n].Mark? && On(r, n, m)
  }

  /** One step of a run on one classified row: only a review changes the class, and only a review or a
      mark changes whether the message counts as moved. */
  lemma RowStep(c: Config, r: Run, n: nat, m: MessageId)
    requires IsRun(c, r) && n < |r.steps| && m in r.states[n].t.messages && MailAt(r, n, m).category.Some?
    ensures m in r.states[n + 1].t.messages
    ensures !Resolves(r, n, m) ==> MailAt(r, n + 1, m).category == MailAt(r, n, m).category
    ensures Resolves(r, n, m) ==> MailAt(r, n, m).category == Some(MANUAL_REVIEW) && Conclusive(MailAt(r, n + 1, m))
                                  && MailAt(r, n + 1, m).movedAt.None?
    ensures Marks(r, n, m) ==> MailAt(r, n + 1, m).movedAt.Some?
    ensures !Resolves(r, n, m) && !Marks(r, n, m) ==> MailAt(r, n + 1, m).movedAt == MailAt(r, n, m).movedAt
    ensures !Resolves(r, n, m) && MailAt(r, n, m).movedAt.Some? ==>
              MailAt(r, n + 1, m).movedAt.Some? && MailAt(r, n + 1, m).locator == MailAt(r, n, m).locator
  {
    assert Moves(c, r.states[n], r.steps[n], r.states[n + 1]);
    if r.steps[n].p in r.states[n].procs && !r.steps[n].Start? {
      OneTransaction(r.states[n].t, r.steps[n], r.states[n].procs[r.steps[n].p], m);
    }
  }

  lemma OneTransaction(t: Tables, step: Step, pc: Pc, m: MessageId)
    requires EnabledAt(t, step, pc) && m in t.messages
    ensures m in Effect(t, step, pc).messages
    ensures Effect(t, step, pc).messages[m].mail
            == if WritesMail(step) && pc.message == m then MailAfter(t.messages[m].mail, step, pc)
              else t.messages[m].mail
  {
  }

  /** A row that is new or was not classified counts as neither moved nor reviewed after one transaction. */
  lemma FirstWrite(t: Tables, step: Step, pc: Pc, m: MessageId)
    requires EnabledAt(t, step, pc) && MailsInv(t) && m in Effect(t, step, pc).messages
    requires !(m in t.messages && t.messages[m].mail.category.Some?)
    ensures Effect(t, step, pc).messages[m].mail.movedAt.None? && Effect(t, step, pc).messages[m].mail.review.None?
    ensures m in t.messages ==> t.messages[m].mail.review.None?
  {
    if m in t.messages {
      UnclassifiedWrite(t, step, pc, m);
    }
  }

  lemma UnclassifiedWrite(t: Tables, step: Step, pc: Pc, m: MessageId)
    requires EnabledAt(t, step, pc) && MailsInv(t) && m in t.messages && t.messages[m].mail.category.None?
    ensures m in Effect(t, step, pc).messages && t.messages[m].mail.review.None?
    ensures Effect(t, step, pc).messages[m].mail.movedAt.None? && Effect(t, step, pc).messages[m].mail.review.None?
  {
    assert MailInv(t.messages[m].mail);
    OneTransaction(t, step, pc, m);
  }

  // ----- folder against class -----

  /** From the read to the mark the job carries what it read. */
  ghost predicate Carries(r: Run, p: Process, m: MessageId, read: Mail, from: nat, until: nat)
    requires until < |r.states|
  {
    forall n :: from <= n <= until ==> CarriesAt(r.states[n], p, m, read)
  }

  predicate CarriesAt(s: State, p: Process, m: MessageId, read: Mail) {
    p in s.procs && (s.procs[p].Moving? || s.procs[p].MoveDone?) && s.procs[p].message == m && s.procs[p].read == read
  }

  /** A row that a job has read, against the same row later on: only a review undoes a move. */
  predicate Later(a: Mail, b: Mail) {
    Follows(a, b) && a.category.Some? && (a.movedAt.Some? && b.category == a.category ==> b.movedAt.Some?)
  }

  /** A moved message is in the folder of its class, or it has been reviewed and is in the review folder. */
  predicate Placed(c: Config, mail: Mail) {
    mail.movedAt.Some? && mail.category.Some? ==>
      InOwnFolder(c, mail) || (mail.review.Some? && mail.locator.folder == c.folders(MANUAL_REVIEW))
  }

  predicate InOwnFolder(c: Config, mail: Mail) {
    mail.category.Some? && mail.locator.folder == c.folders(mail.category.value)
  }

  /** What a moving job knows; the provider has put the message where the class that was read belongs. */
  ghost predicate JobPlaced(c: Config, t: Tables, pc: Pc) {
    pc.Moving? || pc.MoveDone? ==>
      && pc.message in t.messages && Later(pc.read, t.messages[pc.message].mail) && Placed(c, pc.read)
      && (pc.MoveDone? ==> pc.locator.folder == c.folders(pc.read.category.value) && pc.read.movedAt.None?)
  }

  ghost predicate PlacedInv(c: Config, s: State) {
    && (forall m :: m in s.t.messages ==> Placed(c, s.t.messages[m].mail))
    && (forall p :: p in s.procs ==> JobPlaced(c, s.t, s.procs[p]))
  }

  lemma WritesLater(t: Tables, step: Step, pc: Pc, m: MessageId)
    requires EnabledAt(t, step, pc) && MailsInv(t) && m in t.messages && t.messages[m].mail.category.Some?
    ensures m in Effect(t, step, pc).messages && Later(t.messages[m].mail, Effect(t, step, pc).messages[m].mail)
  {
    OneTransaction(t, step, pc, m);
    if WritesMail(step) {
      MailStep(t, step, pc);
    }
  }

  lemma LaterChain(a: Mail, b: Mail, d: Mail)
    requires Later(a, b) && Later(b, d)
    ensures Later(a, d)
  {
  }

  /** The first mark after a move or a review puts the message into the folder of the class that was read. */
  lemma MarkPlaces(c: Config, t: Tables, step: Step, pc: Pc)
    requires EnabledAt(t, step, pc) && step.Mark? && JobPlaced(c, t, pc) && t.messages[pc.message].mail.movedAt.None?
    ensures var now := MailAfter(t.messages[pc.message].mail, step, pc);
            && now.locator.folder == c.folders(pc.read.category.value) && Placed(c, now)
            && (pc.read.movedAt.Some? ==> now.category != pc.read.category)
  {
  }

  lemma RowsStayPlaced(c: Config, t: Tables, step: Step, pc: Pc, m: MessageId)
    requires EnabledAt(t, step, pc) && MailsInv(t) && JobPlaced(c, t, pc) && m in Effect(t, step, pc).messages
    requires m in t.messages ==> Placed(c, t.messages[m].mail)
    ensures Placed(c, Effect(t, step, pc).messages[m].mail)
  {
    if m in t.messages && t.messages[m].mail.category.Some? {
      OneTransaction(t, step, pc, m);
      if step.Mark? && pc.message == m && t.messages[m].mail.movedAt.None? {
        MarkPlaces(c, t, step, pc);
      }
    } else {
      FirstWrite(t, step, pc, m);
    }
  }

  lemma JobsStayPlaced(c: Config, t: Tables, step: Step, pc: Pc, other: Pc)
    requires EnabledAt(t, step, pc) && MailsInv(t) && JobPlaced(c, t, other)
    ensures JobPlaced(c, Effect(t, step, pc), other)
  {
    if other.Moving? || other.MoveDone? {
      var m := other.message;
      if t.messages[m].mail.category.Some? {
        WritesLater(t, step, pc, m);
        LaterChain(other.read, t.messages[m].mail, Effect(t, step, pc).messages[m].mail);
      }
    }
  }

  lemma NextPlaced(c: Config, s: State, step: Step)
    requires Enabled(c, s, step) && !step.Start? && PlacedInv(c, s)
    ensures var pc := s.procs[step.p];
            Next(s.t, step, pc).Some? ==> JobPlaced(c, Effect(s.t, step, pc), Next(s.t, step, pc).value)
  {
    assert JobPlaced(c, s.t, s.procs[step.p]);
  }

  lemma {:induction false} RunPlaced(c: Config, r: Run, n: nat)
    requires IsRun(c, r) && n < |r.states|
    ensures PlacedInv(c, r.states[n])
  {
    if n > 0 {
      RunPlaced(c, r, n - 1);
      RunInv(c, r, n - 1);
      StepKeepsPlaced(c, r.states[n - 1], r.steps[n - 1], r.states[n]);
    }
  }

  lemma StepKeepsPlaced(c: Config, s: State, step: Step, s': State)
    requires Moves(c, s, step, s') && MailsInv(s.t) && PlacedInv(c, s)
    ensures PlacedInv(c, s')
  {
    if !step.Start? {
      var pc := s.procs[step.p];
      forall m | m in s'.t.messages
        ensures Placed(c, s'.t.messages[m].mail)
      {
        RowsStayPlaced(c, s.t, step, pc, m);
      }
      NextPlaced(c, s, step);
      forall p | p in s'.procs
        ensures JobPlaced(c, s'.t, s'.procs[p])
      {
        if p != step.p { JobsStayPlaced(c, s.t, step, pc, s.procs[p]); }
      }
    }
  }

  /** In every reachable state a moved message is in the folder of its class, or it has been reviewed and is
      in the review folder. */
  lemma MovedMessageLies(c: Config, r: Run, n: nat, m: MessageId)
    requires IsRun(c, r) && n < |r.states| && m in r.states[n].t.messages && MailAt(r, n, m).movedAt.Some?
    ensures InOwnFolder(c, MailAt(r, n, m))
            || (MailAt(r, n, m).review.Some? && MailAt(r, n, m).locator.folder == c.folders(MANUAL_REVIEW))
  {
    RunPlaced(c, r, n);
    RunInv(c, r, n);
  }

  /** No review of m is stored from step i up to step k. */
  ghost predicate NoReview(r: Run, m: MessageId, i: nat, k: nat)
    requires k <= |r.steps| < |r.states|
  {
    forall j :: i <= j < k ==> !Resolves(r, j, m)
  }

  lemma {:induction false} ClassKept(c: Config, r: Run, i: nat, k: nat, m: MessageId)
    requires IsRun(c, r) && i <= k < |r.states| && m in r.states[i].t.messages && MailAt(r, i, m).category.Some?
    requires NoReview(r, m, i, k)
    ensures m in r.states[k].t.messages && MailAt(r, k, m).category == MailAt(r, i, m).category
    ensures MailAt(r, i, m).movedAt.Some? ==>
              MailAt(r, k, m).movedAt.Some? && MailAt(r, k, m).locator == MailAt(r, i, m).locator
    decreases k
  {
    if i < k {
      ClassKept(c, r, i, k - 1, m);
      RowStep(c, r, k - 1, m);
    }
  }

  lemma ClassChanged(c: Config, r: Run, i: nat, j: nat, k: nat, m: MessageId)
    requires IsRun(c, r) && i <= j < k < |r.states| && m in r.states[i].t.messages && MailAt(r, i, m).category.Some?
    requires Resolves(r, j, m)
    ensures m in r.states[k].t.messages && MailAt(r, k, m).category != MailAt(r, i, m).category
  {
    RunGrows(c, r, i, j);
    RowStep(c, r, j, m);
    RunGrows(c, r, j + 1, k);
  }

  /** Process p read the classified row before step i and marked it as moved with step k, when it did not
      count as moved. */
  ghost predicate MarkedBy(r: Run, m: MessageId, p: Process, i: nat, k: nat)
    requires |r.states| == |r.steps| + 1
  {
    && i < k < |r.steps| && m in r.states[i].t.messages && MailAt(r, i, m).category.Some?
    && r.steps[i] == Get(p) && Carries(r, p, m, MailAt(r, i, m), i + 1, k)
    && r.steps[k].Mark? && r.steps[k].p == p && m in r.states[k].t.messages && MailAt(r, k, m).movedAt.None?
  }

  /** The folder of the row's class is the review folder. */
  predicate SharesReviewFolder(c: Config, mail: Mail) {
    mail.category.Some? && c.folders(mail.category.value) == c.folders(MANUAL_REVIEW)
  }

  /** The mark leaves the row in the folder of its class exactly when no review of that message was stored
      between reading the row and marking it, whether or not the job moved the message itself, or when the
      settings give its class the same folder as review. */
  lemma FolderMatchesIff(c: Config, r: Run, i: nat, k: nat, p: Process, m: MessageId)
    requires IsRun(c, r) && MarkedBy(r, m, p, i, k)
    ensures m in r.states[k + 1].t.messages && MailAt(r, k + 1, m).category.Some? && MailAt(r, k + 1, m).movedAt.Some?
    ensures InOwnFolder(c, MailAt(r, k + 1, m)) <==> NoReview(r, m, i, k) || SharesReviewFolder(c, MailAt(r, k + 1, m))
  {
    RunPlaced(c, r, k);
    assert Moves(c, r.states[k], r.steps[k], r.states[k + 1]);
    assert CarriesAt(r.states[k], p, m, MailAt(r, i, m));
    var pc := r.states[k].procs[p];
    assert JobPlaced(c, r.states[k].t, pc);
    MarkPlaces(c, r.states[k].t, r.steps[k], pc);
    assert MailAt(r, k + 1, m) == MailAfter(MailAt(r, k, m), r.steps[k], pc);
    if NoReview(r, m, i, k) {
      ClassKept(c, r, i, k, m);
    } else {
      var j :| i <= j < k && Resolves(r, j, m);
      ClassChanged(c, r, i, j, k, m);
    }
  }

  /** Every job that moves or marks has read the row before. */
  lemma {:induction false} WasRead(c: Config, r: Run, n: nat, p: Process) returns (i: nat)
    requires IsRun(c, r) && n < |r.states| && p in r.states[n].procs
             && (r.states[n].procs[p].Moving? || r.states[n].procs[p].MoveDone?)
    ensures var pc := r.states[n].procs[p];
            && i < n && r.steps[i] == Get(p)
            && pc.message in r.states[i].t.messages && MailAt(r, i, pc.message) == pc.read
            && pc.read.category.Some? && Carries(r, p, pc.message, pc.read, i + 1, n)
  {
    var before, step := r.states[n - 1], r.steps[n - 1];
    assert Moves(c, before, step, r.states[n]);
    if step == Get(p) {
      i := n - 1;
    } else {
      i := WasRead(c, r, n - 1, p);
    }
  }

  /** Process p read the row at step i and marked it at step k, and no review was stored since the mark. */
  ghost predicate StillMarked(r: Run, m: MessageId, p: Process, i: nat, k: nat, n: nat)
    requires n <= |r.steps| && |r.states| == |r.steps| + 1
  {
    MarkedBy(r, m, p, i, k) && k < n && NoReview(r, m, k, n)
  }

  lemma StillMarkedNext(r: Run, m: MessageId, p: Process, i: nat, k: nat, n: nat)
    requires n < |r.steps| && |r.states| == |r.steps| + 1 && !Resolves(r, n, m)
    requires MarkedBy(r, m, p, i, k) && (k == n || StillMarked(r, m, p, i, k, n))
    ensures StillMarked(r, m, p, i, k, n + 1)
  {
  }

  /** Every moved message was marked by a job that had read its row, with no review since the mark. */
  lemma {:induction false} WasMarked(c: Config, r: Run, n: nat, m: MessageId) returns (p: Process, i: nat, k: nat)
    requires IsRun(c, r) && n < |r.states| && m in r.states[n].t.messages && MailAt(r, n, m).movedAt.Some?
    ensures StillMarked(r, m, p, i, k, n)
  {
    assert n > 0;
    MovedByMark(c, r, n - 1, m);
    if MailAt(r, n - 1, m).movedAt.Some? {
      p, i, k := WasMarked(c, r, n - 1, m);
    } else {
      p, k := r.steps[n - 1].p, n - 1;
      i := MarkHasRead(c, r, k, m);
    }
    StillMarkedNext(r, m, p, i, k, n - 1);
  }

  lemma MarkHasRead(c: Config, r: Run, k: nat, m: MessageId) returns (i: nat)
    requires IsRun(c, r) && k < |r.steps| && Marks(r, k, m) && m in r.states[k].t.messages
             && MailAt(r, k, m).movedAt.None?
    ensures MarkedBy(r, m, r.steps[k].p, i, k)
  {
    assert Moves(c, r.states[k], r.steps[k], r.states[k + 1]);
    i := WasRead(c, r, k, r.steps[k].p);
  }

  /** Only a mark makes an unmoved message count as moved. */
  lemma MovedByMark(c: Config, r: Run, n: nat, m: MessageId)
    requires IsRun(c, r) && n < |r.steps| && m in r.states[n + 1].t.messages && MailAt(r, n + 1, m).movedAt.Some?
    ensures m in r.states[n].t.messages && MailAt(r, n, m).category.Some? && !Resolves(r, n, m)
    ensures MailAt(r, n, m).movedAt.None? ==> Marks(r, n, m)
  {
    RunInv(c, r, n);
    RunInv(c, r, n + 1);
    assert Moves(c, r.states[n], r.steps[n], r.states[n + 1]);
    if m in r.states[n].t.messages && MailAt(r, n, m).category.Some? {
      RowStep(c, r, n, m);
    } else if !r.steps[n].Start? {
      FirstWrite(r.states[n].t, r.steps[n], r.states[n].procs[r.steps[n].p], m);
    }
  }

  /** So for every moved message in every reachable state: it is in the folder of its class exactly when no
      review was stored between the read and the mark of the job that marked it, or that folder is also the
      review folder. */
  lemma MovedFolderIff(c: Config, r: Run, n: nat, m: MessageId) returns (p: Process, i: nat, k: nat)
    requires IsRun(c, r) && n < |r.states| && m in r.states[n].t.messages && MailAt(r, n, m).movedAt.Some?
    ensures StillMarked(r, m, p, i, k, n)
    ensures InOwnFolder(c, MailAt(r, n, m)) <==> NoReview(r, m, i, k) || SharesReviewFolder(c, MailAt(r, n, m))
  {
    p, i, k := WasMarked(c, r, n, m);
    FolderMatchesIff(c, r, i, k, p, m);
    ClassKept(c, r, k + 1, n, m);
  }

  // ----- an error after the move -----

  ghost predicate MarkedSince(r: Run, i: nat, k: nat, m: MessageId)
    requires i <= k <= |r.steps| < |r.states|
  {
    exists j :: i <= j < k && Marks(r, j, m) && forall x :: j < x < k ==> !Resolves(r, x, m)
  }

  lemma {:induction false} MovedIffMarked(c: Config, r: Run, i: nat, k: nat, m: MessageId)
    requires IsRun(c, r) && i <= k < |r.states| && m in r.states[i].t.messages
    requires MailAt(r, i, m).category.Some? && MailAt(r, i, m).movedAt.None?
    ensures m in r.states[k].t.messages && MailAt(r, k, m).category.Some?
    ensures MailAt(r, k, m).movedAt.Some? <==> MarkedSince(r, i, k, m)
    decreases k
  {
    if i < k {
      MovedIffMarked(c, r, i, k - 1, m);
      RowStep(c, r, k - 1, m);
      MarkedNext(r, i, k, m);
    }
  }

  lemma MarkedNext(r: Run, i: nat, k: nat, m: MessageId)
    requires i < k <= |r.steps| < |r.states|
    ensures MarkedSince(r, i, k, m) <==> Marks(r, k - 1, m) || (!Resolves(r, k - 1, m) && MarkedSince(r, i, k - 1, m))
  {
    if MarkedSince(r, i, k - 1, m) && !Resolves(r, k - 1, m) {
      var j :| i <= j < k - 1 && Marks(r, j, m) && forall x :: j < x < k - 1 ==> !Resolves(r, x, m);
    }
    if MarkedSince(r, i, k, m) {
      var j :| i <= j < k && Marks(r, j, m) && forall x :: j < x < k ==> !Resolves(r, x, m);
    }
  }

  /** A failing move leaves the status ERROR on a message that has already been moved exactly when another
      job marked the move after this one had read the row, with no review stored since. */
  lemma ErrorAfterMoveIff(c: Config, r: Run, i: nat, k: nat, m: MessageId)
    requires IsRun(c, r) && i < k < |r.steps| && m in r.states[i].t.messages
    requires MailAt(r, i, m).category.Some? && MailAt(r, i, m).movedAt.None?
    requires r.steps[k].MoveFails? && On(r, k, m)
    ensures m in r.states[k + 1].t.messages && MailAt(r, k + 1, m).status.Failed?
    ensures MailAt(r, k + 1, m).movedAt.Some? <==> MarkedSince(r, i, k, m)
  {
    MovedIffMarked(c, r, i, k, m);
    RowStep(c, r, k, m);
    assert Moves(c, r.states[k], r.steps[k], r.states[k + 1]);
  }

  /** Step k of the run failed to move m while m counted as moved, and no review was stored since. */
  ghost predicate FailedAfterMove(r: Run, m: MessageId, k: nat, n: nat)
    requires n <= |r.steps| && |r.states| == |r.steps| + 1
  {
    && k < n && r.steps[k].MoveFails? && On(r, k, m)
    && m in r.states[k].t.messages && MailAt(r, k, m).movedAt.Some? && NoReview(r, m, k, n)
  }

  ghost predicate SomeFailureAfterMove(r: Run, m: MessageId, n: nat)
    requires n <= |r.steps| && |r.states| == |r.steps| + 1
  {
    exists k :: FailedAfterMove(r, m, k, n)
  }

  /** What one step does to the status of a classified row that counts as moved afterwards. */
  lemma StatusStep(c: Config, r: Run, n: nat, m: MessageId)
    requires IsRun(c, r) && n < |r.steps| && m in r.states[n].t.messages && MailAt(r, n, m).category.Some?
    requires m in r.states[n + 1].t.messages && MailAt(r, n + 1, m).movedAt.Some?
    ensures var a, b := MailAt(r, n, m), MailAt(r, n + 1, m);
            && (a.movedAt.None? ==> Marks(r, n, m) && !b.status.Failed?)
            && (r.steps[n].MoveFails? && On(r, n, m) ==> b.status.Failed?)
            && (a.movedAt.Some? && !(r.steps[n].MoveFails? && On(r, n, m)) ==> b.status == a.status)
  {
    RowStep(c, r, n, m);
    assert Moves(c, r.states[n], r.steps[n], r.states[n + 1]);
    if r.steps[n].p in r.states[n].procs && !r.steps[n].Start? {
      OneTransaction(r.states[n].t, r.steps[n], r.states[n].procs[r.steps[n].p], m);
    }
  }

  lemma FailureNext(r: Run, m: MessageId, n: nat)
    requires n < |r.steps| && |r.states| == |r.steps| + 1 && !Resolves(r, n, m)
    ensures SomeFailureAfterMove(r, m, n + 1) <==> SomeFailureAfterMove(r, m, n) || FailedAfterMove(r, m, n, n + 1)
  {
    if k :| FailedAfterMove(r, m, k, n) {
      assert FailedAfterMove(r, m, k, n + 1);
    }
    var next := n + 1;
    if k :| FailedAfterMove(r, m, k, next) && k != n {
      assert FailedAfterMove(r, m, k, n);
    }
  }

  /** Nothing fails after a move that has not happened. */
  lemma NoFailureBeforeMove(c: Config, r: Run, m: MessageId, n: nat)
    requires IsRun(c, r) && n < |r.states| && m in r.states[n].t.messages && MailAt(r, n, m).movedAt.None?
    ensures !SomeFailureAfterMove(r, m, n)
  {
    if k :| FailedAfterMove(r, m, k, n) {
      RunInv(c, r, k);
      ClassKept(c, r, k, n, m);
    }
  }

  /** In every reachable state a moved message has the status ERROR exactly when some job failed to move it
      while it counted as moved already, with no review stored since. */
  lemma {:induction false} ErrorOnMovedIff(c: Config, r: Run, n: nat, m: MessageId)
    requires IsRun(c, r) && n < |r.states| && m in r.states[n].t.messages && MailAt(r, n, m).movedAt.Some?
    ensures MailAt(r, n, m).status.Failed? <==> SomeFailureAfterMove(r, m, n)
  {
    assert n > 0;
    MovedByMark(c, r, n - 1, m);
    StatusStep(c, r, n - 1, m);
    FailureNext(r, m, n - 1);
    if MailAt(r, n - 1, m).movedAt.Some? {
      ErrorOnMovedIff(c, r, n - 1, m);
    } else {
      NoFailureBeforeMove(c, r, m, n - 1);
    }
  }

  /** And such a job had read the row before another one marked the move. */
  lemma FailureOverlapsMark(c: Config, r: Run, k: nat, m: MessageId) returns (i: nat)
    requires IsRun(c, r) && k < |r.steps| && r.steps[k].MoveFails? && On(r, k, m)
    requires m in r.states[k].t.messages && MailAt(r, k, m).movedAt.Some?
    ensures i < k && r.steps[i] == Get(r.steps[k].p) && m in r.states[i].t.messages && MailAt(r, i, m).movedAt.None?
    ensures Carries(r, r.steps[k].p, m, MailAt(r, i, m), i + 1, k) && MarkedSince(r, i, k, m)
  {
    assert Moves(c, r.states[k], r.steps[k], r.states[k + 1]);
    i := WasRead(c, r, k, r.steps[k].p);
    RunInv(c, r, k);
    RowStep(c, r, k, m);
    ErrorAfterMoveIff(c, r, i, k, m);
  }

  // ----- both happen -----

  function Last(r: Run): State
    requires r.states != []
  {
    r.states[|r.states| - 1]
  }

  lemma Extend(c: Config, r: Run, step: Step) returns (longer: Run)
    requires IsRun(c, r) && Enabled(c, Last(r), step)
    ensures IsRun(c, longer) && Last(longer) == Apply(c, Last(r), step)
    ensures longer.steps == r.steps + [step] && r.states <= longer.states
  {
    longer := Run(r.states + [Apply(c, Last(r), step)], r.steps + [step]);
    forall i | 0 <= i < |longer.steps|
      ensures Moves(c, longer.states[i], longer.steps[i], longer.states[i + 1])
    {
      if i < |r.steps| {
        assert Moves(c, r.states[i], r.steps[i], r.states[i + 1]);
      }
    }
  }

  predicate Has(s: State, m: MessageId, mail: Mail) {
    m in s.t.messages && s.t.messages[m].mail == mail
  }

  /** A job reads a classified, unmoved row and has the provider move the message. */
  lemma ReadAndMove(c: Config, r: Run, p: Process, m: MessageId, mail: Mail, l: Locator) returns (longer: Run)
    requires IsRun(c, r) && Has(Last(r), m, mail) && mail.category.Some? && mail.movedAt.None? && p !in Last(r).procs
    requires l.folder == c.folders(mail.category.value)
    ensures IsRun(c, longer) && Has(Last(longer), m, mail)
    ensures Last(longer).procs == Last(r).procs[p := MoveDone(m, mail, l)]
  {
    longer := Extend(c, r, Start(p, Classifying(m)));
    longer := Extend(c, longer, Get(p));
    assert Last(longer).procs == Last(r).procs[p := Moving(m, mail)];
    longer := Extend(c, longer, Move(p, l));
  }

  /** A job reads a row in review. It has the provider move the message to the review folder, unless the
      message is already marked as moved there: then the job keeps the locator of the row. */
  lemma ReadInReview(c: Config, r: Run, p: Process, m: MessageId, mail: Mail) returns (longer: Run)
    requires IsRun(c, r) && Has(Last(r), m, mail) && mail.category == Some(MANUAL_REVIEW) && p !in Last(r).procs
    ensures IsRun(c, longer) && Has(Last(longer), m, mail) && p in Last(longer).procs
    ensures Last(longer).procs == Last(r).procs[p := Last(longer).procs[p]]
    ensures CarriesAt(Last(longer), p, m, mail) && (Last(longer).procs[p].Moving? ==> mail.movedAt.Some?)
  {
    if mail.movedAt.None? {
      longer := ReadAndMove(c, r, p, m, mail, Locator(c.folders(MANUAL_REVIEW), 1, 1));
    } else {
      longer := Extend(c, r, Start(p, Classifying(m)));
      longer := Extend(c, longer, Get(p));
    }
  }

  /** Any message waiting for review, moved or not, can end up with class INVOICE in the manual-review folder,
      marked as moved, so that no later job moves it. */
  lemma ReviewRace(c: Config, r: Run, p: Process, q: Process, m: MessageId, mail: Mail, review: Review)
    returns (longer: Run)
    requires IsRun(c, r) && Has(Last(r), m, mail) && mail.category == Some(MANUAL_REVIEW)
    requires p !in Last(r).procs && q !in Last(r).procs && p != q
    ensures IsRun(c, longer) && m in Last(longer).t.messages
    ensures var after := Last(longer).t.messages[m].mail;
            && after.category == Some(INVOICE) && after.movedAt.Some? && after.status.Moved?
            && after.locator.folder == c.folders(MANUAL_REVIEW)
  {
    longer := ReadInReview(c, r, p, m, mail);
    var pc := Last(longer).procs[p];
    longer := Extend(c, longer, Start(q, Reviewing(m, INVOICE, review)));
    assert Has(Last(longer), m, mail) && Last(longer).procs[p] == pc;
    longer := Extend(c, longer, Resolve(q));
    assert Has(Last(longer), m, ResolveRow(mail, INVOICE, review)) && Last(longer).procs[p] == pc;
    RunPlaced(c, longer, |longer.states| - 1);
    assert JobPlaced(c, Last(longer).t, pc);
    MarkPlaces(c, Last(longer).t, Mark(p, 0), pc);
    longer := Extend(c, longer, Mark(p, 0));
  }

  /** Any classified, unmoved message can end up with status ERROR after it has been moved. */
  lemma DoubleMoveRace(c: Config, r: Run, p: Process, q: Process, m: MessageId, mail: Mail) returns (longer: Run)
    requires IsRun(c, r) && Has(Last(r), m, mail) && mail.category.Some? && mail.movedAt.None?
    requires p !in Last(r).procs && q !in Last(r).procs && p != q
    ensures IsRun(c, longer) && m in Last(longer).t.messages
    ensures Last(longer).t.messages[m].mail.status.Failed? && Last(longer).t.messages[m].mail.movedAt.Some?
  {
    longer := Extend(c, r, Start(q, Classifying(m)));
    longer := Extend(c, longer, Get(q));
    assert Last(longer).procs == Last(r).procs[q := Moving(m, mail)] && Has(Last(longer), m, mail);
    longer := ReadAndMove(c, longer, p, m, mail, Locator(c.folders(mail.category.value), 1, 1));
    longer := Extend(c, longer, Mark(p, 0));
    assert m in Last(longer).t.messages && Last(longer).t.messages[m].mail.movedAt.Some?;
    assert Last(longer).procs[q] == Moving(m, mail);
    longer := Extend(c, longer, MoveFails(q, "IMAP_ERROR", "move failed"));
  }

  // ----- a review without its move job -----

  /** A human has decided, but no request is left that would enqueue the move, and no move job exists. */
  ghost predicate ReviewLost(s: State, m: MessageId) {
    && m in s.t.messages && Conclusive(s.t.messages[m].mail) && s.t.messages[m].mail.review.Some?
    && (forall p :: p in s.procs ==> !ResolvedFor(s.procs[p], m))
    && NoMoveJob(s.t, m)
  }

  ghost predicate NoMoveJob(t: Tables, m: MessageId) {
    forall text :: ReviewMove(m, text) !in t.jobs
  }

  /** A request has stored its review of m and not yet enqueued the move. */
  predicate ResolvedFor(pc: Pc, m: MessageId) {
    pc.Resolved? && pc.message == m
  }

  lemma NoMoveJobAfter(t: Tables, step: Step, pc: Pc, m: MessageId)
    requires EnabledAt(t, step, pc) && NoMoveJob(t, m) && !(step.Enqueue? && ResolvedFor(pc, m))
    ensures NoMoveJob(Effect(t, step, pc), m)
  {
  }

  lemma NotResolvedAgain(t: Tables, step: Step, pc: Pc, m: MessageId)
    requires EnabledAt(t, step, pc) && m in t.messages && t.messages[m].mail.category != Some(MANUAL_REVIEW)
    ensures Next(t, step, pc).Some? ==> !ResolvedFor(Next(t, step, pc).value, m)
  {
  }

  lemma StepKeepsLost(c: Config, s: State, step: Step, m: MessageId)
    requires Enabled(c, s, step) && Grows(s.t, Apply(c, s, step).t) && ReviewLost(s, m)
    ensures ReviewLost(Apply(c, s, step), m)
  {
    assert Follows(s.t.messages[m].mail, Apply(c, s, step).t.messages[m].mail);
    if !step.Start? {
      NoMoveJobAfter(s.t, step, s.procs[step.p], m);
      NotResolvedAgain(s.t, step, s.procs[step.p], m);
    }
  }

  lemma RunStepKeepsLost(c: Config, r: Run, k: nat, m: MessageId)
    requires IsRun(c, r) && k < |r.steps| && ReviewLost(r.states[k], m)
    ensures ReviewLost(r.states[k + 1], m)
  {
    RunGrows(c, r, k, k + 1);
    assert Moves(c, r.states[k], r.steps[k], r.states[k + 1]);
    StepKeepsLost(c, r.states[k], r.steps[k], m);
  }

  /** Nothing repairs it: repeating the request is refused, because the class is conclusive, and the job is
      never enqueued in any continuation. */
  lemma {:induction false} LostForEver(c: Config, r: Run, i: nat, k: nat, m: MessageId)
    requires IsRun(c, r) && i <= k < |r.states| && ReviewLost(r.states[i], m)
    ensures ReviewLost(r.states[k], m)
    decreases k
  {
    if i < k {
      LostForEver(c, r, i, k - 1, m);
      RunStepKeepsLost(c, r, k - 1, m);
    }
  }

  // ----- when a review is followed by its move job -----

  predicate MoveJob(t: Tables, m: MessageId) {
    m in t.messages && t.messages[m].mail.category.Some?
      && ReviewMove(m, ClassText(t.messages[m].mail.category.value)) in t.jobs
  }

  ghost predicate SomeoneAbout(s: State, m: MessageId) {
    exists p :: p in s.procs && ResolvedFor(s.procs[p], m)
  }

  predicate Reviewed(t: Tables, m: MessageId) {
    m in t.messages && t.messages[m].mail.review.Some?
  }

  /** A reviewed message has its move job, or a request that is about to enqueue it. */
  ghost predicate Followed(s: State, m: MessageId) {
    Reviewed(s.t, m) ==> MoveJob(s.t, m) || SomeoneAbout(s, m)
  }

  /** The step ends a request of m between its two transactions. */
  predicate StopsReview(s: State, step: Step, m: MessageId) {
    step.Stop? && step.p in s.procs && ResolvedFor(s.procs[step.p], m)
  }

  /** The three stages of the review of a message: none yet, one request between its transactions, done. */
  ghost predicate ReviewStage(s: State, m: MessageId) {
    && (!Reviewed(s.t, m) ==> NoMoveJob(s.t, m) && !SomeoneAbout(s, m))
    && (SomeoneAbout(s, m) ==> NoMoveJob(s.t, m))
    && (forall p, q :: p in s.procs && q in s.procs && ResolvedFor(s.procs[p], m) && ResolvedFor(s.procs[q], m) ==>
         p == q)
  }

  /** What one transaction does to the review of a message. */
  lemma ReviewStep(t: Tables, step: Step, pc: Pc, m: MessageId)
    requires EnabledAt(t, step, pc) && MailsInv(t)
    ensures Reviewed(Effect(t, step, pc), m) <==> Reviewed(t, m) || (step.Resolve? && pc.message == m)
    ensures Reviewed(t, m) ==> m in Effect(t, step, pc).messages
                               && Effect(t, step, pc).messages[m].mail.category == t.messages[m].mail.category
  {
    if m in t.messages && t.messages[m].mail.category.Some? {
      OneTransaction(t, step, pc, m);
    } else if m in Effect(t, step, pc).messages {
      FirstWrite(t, step, pc, m);
    }
  }

  lemma NextResolved(t: Tables, step: Step, pc: Pc, m: MessageId)
    requires EnabledAt(t, step, pc) && MailsInv(t)
    ensures Next(t, step, pc).Some? && ResolvedFor(Next(t, step, pc).value, m) ==>
              step.Resolve? && pc.message == m && !Reviewed(t, m)
    ensures step.Resolve? && pc.message == m ==> Next(t, step, pc).Some? && ResolvedFor(Next(t, step, pc).value, m)
  {
  }

  lemma StepKeepsStage(c: Config, s: State, step: Step, m: MessageId)
    requires Enabled(c, s, step) && MailsInv(s.t) && ReviewStage(s, m)
    ensures ReviewStage(Apply(c, s, step), m)
  {
    var s' := Apply(c, s, step);
    if !step.Start? {
      var pc := s.procs[step.p];
      ReviewStep(s.t, step, pc, m);
      NextResolved(s.t, step, pc, m);
      if !(step.Enqueue? && ResolvedFor(pc, m)) && NoMoveJob(s.t, m) {
        NoMoveJobAfter(s.t, step, pc, m);
      }
    }
    forall p | p in s'.procs && ResolvedFor(s'.procs[p], m)
      ensures (p in s.procs && ResolvedFor(s.procs[p], m) && p != step.p) || (p == step.p && !Reviewed(s.t, m))
    {
    }
  }

  lemma {:induction false} RunStage(c: Config, r: Run, n: nat, m: MessageId)
    requires IsRun(c, r) && n < |r.states|
    ensures ReviewStage(r.states[n], m)
  {
    if n > 0 {
      RunStage(c, r, n - 1, m);
      RunInv(c, r, n - 1);
      assert Moves(c, r.states[n - 1], r.steps[n - 1], r.states[n]);
      StepKeepsStage(c, r.states[n - 1], r.steps[n - 1], m);
    }
  }

  /** A request of m that stops between its two transactions loses the review. */
  lemma StopLoses(c: Config, r: Run, k: nat, m: MessageId)
    requires IsRun(c, r) && k < |r.steps| && StopsReview(r.states[k], r.steps[k], m)
    ensures ReviewLost(r.states[k + 1], m)
  {
    RunStage(c, r, k, m);
    RunInv(c, r, k);
    assert Moves(c, r.states[k], r.steps[k], r.states[k + 1]);
    assert PcInv(r.states[k].t, r.states[k].procs[r.steps[k].p]);
    assert SomeoneAbout(r.states[k], m);
  }

  lemma LostIsNotFollowed(s: State, m: MessageId)
    requires ReviewLost(s, m)
    ensures !Followed(s, m)
  {
  }

  lemma StepKeepsFollowed(c: Config, s: State, step: Step, m: MessageId)
    requires Enabled(c, s, step) && Inv(c, s) && Followed(s, m) && !StopsReview(s, step, m)
    ensures Followed(Apply(c, s, step), m)
  {
    var s' := Apply(c, s, step);
    if step.Start? {
      if SomeoneAbout(s, m) {
        var p :| p in s.procs && ResolvedFor(s.procs[p], m);
        assert p in s'.procs && ResolvedFor(s'.procs[p], m);
      }
    } else {
      var pc := s.procs[step.p];
      ReviewStep(s.t, step, pc, m);
      NextResolved(s.t, step, pc, m);
      EffectGrows(s.t, step, pc);
      if step.Resolve? && pc.message == m {
        assert step.p in s'.procs && ResolvedFor(s'.procs[step.p], m);
      } else if Reviewed(s.t, m) && !MoveJob(s.t, m) {
        var p :| p in s.procs && ResolvedFor(s.procs[p], m);
        AboutPersists(c, s, step, p, m);
      }
    }
  }

  /** A request about to enqueue stays so, or has enqueued. */
  lemma AboutPersists(c: Config, s: State, step: Step, p: Process, m: MessageId)
    requires Enabled(c, s, step) && Inv(c, s) && !StopsReview(s, step, m) && Reviewed(s.t, m)
    requires p in s.procs && ResolvedFor(s.procs[p], m)
    ensures SomeoneAbout(Apply(c, s, step), m) || MoveJob(Apply(c, s, step).t, m)
  {
    if p != step.p {
      assert p in Apply(c, s, step).procs && ResolvedFor(Apply(c, s, step).procs[p], m);
    } else {
      assert PcInv(s.t, s.procs[p]);
      EnqueueFollows(s.t, step, s.procs[p], m);
    }
  }

  lemma EnqueueFollows(t: Tables, step: Step, pc: Pc, m: MessageId)
    requires EnabledAt(t, step, pc) && ResolvedFor(pc, m) && PcInv(t, pc) && !step.Stop?
    ensures MoveJob(Effect(t, step, pc), m)
  {
  }

  /** In every reachable state a message has its review followed by the move job, or about to be, exactly when
      no request of that message has stopped between storing a review and enqueueing the move. */
  lemma {:induction false} ReviewFollowedIff(c: Config, r: Run, n: nat, m: MessageId)
    requires IsRun(c, r) && n < |r.states|
    ensures Followed(r.states[n], m) <==> forall k :: 0 <= k < n ==> !StopsReview(r.states[k], r.steps[k], m)
  {
    if k :| 0 <= k < n && StopsReview(r.states[k], r.steps[k], m) {
      StopLoses(c, r, k, m);
      LostForEver(c, r, k + 1, n, m);
      LostIsNotFollowed(r.states[n], m);
    } else if n > 0 {
      ReviewFollowedIff(c, r, n - 1, m);
      RunInv(c, r, n - 1);
      assert Moves(c, r.states[n - 1], r.steps[n - 1], r.states[n]);
      StepKeepsFollowed(c, r.states[n - 1], r.steps[n - 1], m);
    }
  }

  /** Any message in review can lose its review: it takes one request that stops between its transactions. */
  lemma ReviewCanBeLost(c: Config, r: Run, q: Process, m: MessageId, mail: Mail, review: Review) returns (longer: Run)
    requires IsRun(c, r) && Has(Last(r), m, mail) && mail.category == Some(MANUAL_REVIEW) && q !in Last(r).procs
    ensures IsRun(c, longer) && ReviewLost(Last(longer), m)
  {
    longer := Extend(c, r, Start(q, Reviewing(m, INVOICE, review)));
    assert Has(Last(longer), m, mail);
    longer := Extend(c, longer, Resolve(q));
    assert Last(longer).procs[q] == Resolved(m, INVOICE);
    var n := |longer.steps|;
    longer := Extend(c, longer, Stop(q));
    StopLoses(c, longer, n, m);
  }

  const INBOX := Locator("INBOX", 1, 1)

  lemma SomeUnclassifiedMessage(c: Config) returns (r: Run)
    ensures IsRun(c, r) && Has(Last(r), 0, Fresh(INBOX))
    ensures Last(r).procs == map[0 := IngestDone(0), 1 := Unclassified(0)]
  {
    r := Run([EMPTY], []);
    r := Extend(c, r, Start(0, Ingesting("server", "fingerprint")));
    assert Last(r).t == EMPTY.t && Last(r).procs == map[0 := Ingesting("server", "fingerprint")];
    r := Extend(c, r, Ingest(0, 0, 0, INBOX));
    assert Has(Last(r), 0, Fresh(INBOX)) && Last(r).procs == map[0 := IngestDone(0)];
    r := Extend(c, r, Start(1, Classifying(0)));
    assert Has(Last(r), 0, Fresh(INBOX)) && Last(r).procs == map[0 := IngestDone(0), 1 := Classifying(0)];
    r := Extend(c, r, Get(1));
  }

  /** Both races have somewhere to start: a message that the AI was not sure about. */
  lemma SomeMessageInReview(c: Config) returns (r: Run, mail: Mail)
    ensures IsRun(c, r) && Has(Last(r), 0, mail) && mail.category == Some(MANUAL_REVIEW) && mail.movedAt.None?
    ensures Last(r).procs.Keys == {0, 1}
  {
    var half := Dec(false, 5, -1);
    var output := Output(INVOICE, Dec(false, 0, 0), None, None, [], [], "unsure");
    assert Less(output.confidence, half) by {
      assert MinExp(output.confidence, half) == -1 && Scale(0, 1) == 0 && Scale(5, 0) == 5;
    }
    r := SomeUnclassifiedMessage(c);
    var before := Last(r);
    mail := SaveRow(Fresh(INBOX), output, MANUAL_REVIEW, half, 7);
    r := Extend(c, r, Save(1, output, half, 7));
    assert Last(r).procs == before.procs[1 := Reread(0)];
  }
}
