/** The pipeline gets to its end: a run in which one e-mail becomes an invoice with a selection run. Without it
    the safety statements might hold because nothing ever happens. */
module PipelineProgress {
  import opened Prelude
  import opened JobKeys
  import opened PowersOfTen
  import opened Decimals
  import opened EmailClassification
  import opened Pipeline
  import opened PipelineEffects
  import opened MoveRaces

  /** Different classes have different texts, so the move jobs of different decisions have different keys. */
  lemma ClassTextsDiffer(a: Class, b: Class)
    ensures ClassText(a) == ClassText(b) <==> a == b
  {
  }

  lemma IngestionReturns(c: Config) returns (r: Run)
    ensures IsRun(c, r)
    ensures Last(r) == State(Tables1(Fresh(INBOX), {ClassifyMessage(0)}), map[], map[0 := Returned(HasMessage(0))])
  {
    r := Run([EMPTY], []);
    r := Extend(c, r, Start(0, Ingesting("server", "fingerprint")));
    assert Last(r).procs == map[0 := Ingesting("server", "fingerprint")];
    r := Advance(c, r, Ingest(0, 0, 0, INBOX), Tables1(Fresh(INBOX), {}), IngestDone(0));
    r := Advance(c, r, Enqueue(0), Tables1(Fresh(INBOX), {ClassifyMessage(0)}), Returned(HasMessage(0)));
    assert Last(r).procs == map[0 := Returned(HasMessage(0))];
  }

  /** A handler outside the guards takes one step; the rest of the state stays as it is. */
  lemma Advance(c: Config, r: Run, step: Step, after: Tables, next: Pc) returns (longer: Run)
    requires IsRun(c, r) && step.p in Last(r).procs && !step.Start? && !step.TakeGuard? && !step.Move?
    requires Last(r).locks == map[] && !InGuard(next)
    requires var t, pc := Last(r).t, Last(r).procs[step.p];
             EnabledAt(t, step, pc) && Effect(t, step, pc) == after && Next(t, step, pc) == Some(next)
    ensures IsRun(c, longer)
    ensures Last(longer) == State(after, map[], Last(r).procs[step.p := next])
  {
    longer := Extend(c, r, step);
    assert Freed(map[], step.p) == map[];
  }

  /** The tables with one message. */
  function Tables1(mail: Mail, jobs: set<JobKey>): Tables {
    Tables(map[0 := Message("server", "fingerprint", mail)], map[], map[], map[], jobs)
  }

  lemma ClassificationStarts(c: Config, r: Run, t: Tables, procs: map<Process, Pc>) returns (longer: Run)
    requires IsRun(c, r) && Last(r) == State(t, map[], procs) && 1 !in procs
    requires 0 in t.messages && t.messages[0].mail.category.None?
    ensures IsRun(c, longer) && Last(longer) == State(t, map[], procs[1 := Unclassified(0)])
  {
    longer := Extend(c, r, Start(1, Classifying(0)));
    longer := Advance(c, longer, Get(1), t, Unclassified(0));
    assert procs[1 := Classifying(0)][1 := Unclassified(0)] == procs[1 := Unclassified(0)];
  }

  lemma SaveStores(unread: Mail, o: Output, threshold: Dec, jobs: set<JobKey>)
    ensures var t, step := Tables1(unread, jobs), Save(1, o, threshold, 7);
            && EnabledAt(t, step, Unclassified(0)) && Next(t, step, Unclassified(0)) == Some(Reread(0))
            && Effect(t, step, Unclassified(0))
               == Tables1(SaveRow(unread, o, Effective(o, threshold), threshold, 7), jobs)
  {
  }

  lemma SureAnswer() returns (o: Output, threshold: Dec)
    ensures Effective(o, threshold) == INVOICE
  {
    o, threshold := Output(INVOICE, Dec(false, 1, 0), None, None, [], [], "sure"), Dec(false, 5, -1);
    assert MinExp(o.confidence, threshold) == -1 && Scale(1, 1) == 10 * Scale(1, 0) && Scale(5, 0) == 5;
  }

  lemma SavedMail(unread: Mail, o: Output, threshold: Dec) returns (mail: Mail)
    requires unread.category.None? && unread.movedAt.None? && Effective(o, threshold) == INVOICE
    ensures mail == SaveRow(unread, o, Effective(o, threshold), threshold, 7)
    ensures mail.category == Some(INVOICE) && mail.movedAt.None?
  {
    mail := SaveRow(unread, o, Effective(o, threshold), threshold, 7);
  }

  lemma ClassificationDecides(c: Config, r: Run, unread: Mail, jobs: set<JobKey>, procs: map<Process, Pc>)
    returns (longer: Run, mail: Mail)
    requires IsRun(c, r) && Last(r) == State(Tables1(unread, jobs), map[], procs) && 1 !in procs
    requires unread.category.None? && unread.movedAt.None?
    ensures mail.category == Some(INVOICE) && mail.movedAt.None?
    ensures IsRun(c, longer) && Last(longer) == State(Tables1(mail, jobs), map[], procs[1 := Moving(0, mail)])
  {
    longer := ClassificationStarts(c, r, Tables1(unread, jobs), procs);
    var o, threshold := SureAnswer();
    SaveStores(unread, o, threshold, jobs);
    mail := SavedMail(unread, o, threshold);
    longer := Advance(c, longer, Save(1, o, threshold, 7), Tables1(mail, jobs), Reread(0));
    longer := RowIsRead(c, longer, Tables1(mail, jobs), procs[1 := Unclassified(0)][1 := Reread(0)], mail);
    assert procs[1 := Unclassified(0)][1 := Reread(0)][1 := Moving(0, mail)] == procs[1 := Moving(0, mail)];
  }

  lemma RowIsRead(c: Config, r: Run, t: Tables, procs: map<Process, Pc>, mail: Mail) returns (longer: Run)
    requires IsRun(c, r) && Last(r) == State(t, map[], procs) && 1 in procs && procs[1] == Reread(0)
    requires 0 in t.messages && t.messages[0].mail == mail && mail.category.Some?
    ensures IsRun(c, longer) && Last(longer) == State(t, map[], procs[1 := Moving(0, mail)])
  {
    longer := Advance(c, r, Get(1), t, Moving(0, mail));
  }

  lemma MessageIsMoved(c: Config, r: Run, mail: Mail, jobs: set<JobKey>, procs: map<Process, Pc>, l: Locator)
    returns (longer: Run, moved: Mail)
    requires IsRun(c, r) && Last(r) == State(Tables1(mail, jobs), map[], procs)
    requires mail.category == Some(INVOICE) && mail.movedAt.None?
    requires 1 in procs && procs[1] == Moving(0, mail) && l.folder == c.folders(INVOICE)
    ensures moved.category == Some(INVOICE) && moved.status == Moved && moved.locator == l
    ensures IsRun(c, longer) && Last(longer) == State(Tables1(moved, jobs), map[], procs[1 := Sourcing(0)])
  {
    longer := Extend(c, r, Move(1, l));
    assert Freed(map[], 1) == map[];
    moved := MovedRow(mail, l, 0);
    longer := Advance(c, longer, Mark(1, 0), Tables1(moved, jobs), Sourcing(0));
    assert procs[1 := MoveDone(0, mail, l)][1 := Sourcing(0)] == procs[1 := Sourcing(0)];
  }

  /** The tables with the invoice of that message. */
  function Tables2(mail: Mail, jobs: set<JobKey>): Tables {
    Tables(map[0 := Message("server", "fingerprint", mail)], map[0 := Submission(Imap(0), "fingerprint", 0)],
           map[0 := Invoice(0, Some(0))], map[], jobs)
  }

  lemma InvoiceIsSubmitted(c: Config, r: Run, mail: Mail, jobs: set<JobKey>, procs: map<Process, Pc>)
    returns (longer: Run)
    requires IsRun(c, r) && Last(r) == State(Tables1(mail, jobs), map[], procs) && mail.category == Some(INVOICE)
    requires 1 in procs && procs[1] == Sourcing(0)
    ensures IsRun(c, longer)
    ensures Last(longer) == State(Tables2(mail, jobs + {SelectTariffs(0)}), map[],
                                  procs[1 := Returned(HasInvoice(Imap(0), "fingerprint", 0))])
  {
    var submitting, submitted := Submitting(Imap(0), "fingerprint", Some(0)), Submitted(Imap(0), "fingerprint", 0);
    longer := Advance(c, r, Source(1), Tables1(mail, jobs), submitting);
    longer := Advance(c, longer, Submit(1, 0, 0, 0), Tables2(mail, jobs), submitted);
    assert procs[1 := submitting][1 := submitted] == procs[1 := submitted];
    longer := Advance(c, longer, Enqueue(1), Tables2(mail, jobs + {SelectTariffs(0)}),
                      Returned(HasInvoice(Imap(0), "fingerprint", 0)));
    assert procs[1 := submitted][1 := Returned(HasInvoice(Imap(0), "fingerprint", 0))]
           == procs[1 := Returned(HasInvoice(Imap(0), "fingerprint", 0))];
  }

  lemma SelectionDecides(c: Config, r: Run, t: Tables, procs: map<Process, Pc>) returns (longer: Run)
    requires IsRun(c, r) && Last(r) == State(t, map[], procs) && 2 !in procs
    requires 0 in t.invoices && t.runs == map[]
    ensures IsRun(c, longer) && Last(longer) == State(t, map[c.guard(0) := 2], procs[2 := Deciding(0)])
  {
    longer := Extend(c, r, Start(2, Selecting(0)));
    longer := Extend(c, longer, TakeGuard(2));
    assert Last(longer) == State(t, map[c.guard(0) := 2], procs[2 := Guarded(0)]);
    longer := Extend(c, longer, Lookup(2));
    assert procs[2 := Guarded(0)][2 := Deciding(0)] == procs[2 := Deciding(0)];
  }

  lemma TariffsAreSelected(c: Config, r: Run, t: Tables, procs: map<Process, Pc>) returns (longer: Run)
    requires IsRun(c, r) && Last(r) == State(t, map[], procs) && 2 !in procs
    requires 0 in t.invoices && t.runs == map[]
    ensures IsRun(c, longer)
    ensures Last(longer) == State(t.(runs := map[0 := 0]), map[], procs[2 := Returned(HasSelection(0))])
  {
    longer := SelectionDecides(c, r, t, procs);
    longer := Extend(c, longer, SaveSelection(2, 0));
    assert Freed(map[c.guard(0) := 2], 2) == map[];
    assert procs[2 := Deciding(0)][2 := Returned(HasSelection(0))] == procs[2 := Returned(HasSelection(0))];
  }

  /** One e-mail ends as a moved message of class INVOICE with its invoice and its selection run, and every
      handler has returned. */
  lemma EndToEnd(c: Config) returns (r: Run)
    ensures IsRun(c, r)
    ensures var t := Last(r).t;
            && 0 in t.messages && t.messages[0].mail.category == Some(INVOICE) && t.messages[0].mail.status == Moved
            && t.messages[0].mail.locator.folder == c.folders(INVOICE)
            && t.invoices == map[0 := Invoice(0, Some(0))] && t.runs == map[0 := 0]
    ensures Last(r).locks == map[] && Last(r).procs.Keys == {0, 1, 2}
    ensures forall p :: p in Last(r).procs ==> Last(r).procs[p].Returned?
  {
    var mail, moved;
    r := IngestionReturns(c);
    var jobs, procs := {ClassifyMessage(0)}, map[0 := Returned(HasMessage(0))];
    r, mail := ClassificationDecides(c, r, Fresh(INBOX), jobs, procs);
    r, moved := MessageIsMoved(c, r, mail, jobs, Last(r).procs, Locator(c.folders(INVOICE), 1, 1));
    r := InvoiceIsSubmitted(c, r, moved, jobs, Last(r).procs);
    r := TariffsAreSelected(c, r, Last(r).t, Last(r).procs);
  }
}
