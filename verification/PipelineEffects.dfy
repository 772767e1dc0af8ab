/** The exactly-once effects of the pipeline: table invariants, what every program point relies on, and the
    statements over whole runs. */
module PipelineEffects {
  import opened Prelude
  import opened JobKeys
  import opened Decimals
  import opened EmailClassification
  import opened Pipeline

  // ----- tables only grow -----

  ghost predicate Grows(t: Tables, t': Tables) {
    && (forall m :: m in t.messages ==>
          m in t'.messages && t'.messages[m].server == t.messages[m].server
          && t'.messages[m].fingerprint == t.messages[m].fingerprint
          && Follows(t.messages[m].mail, t'.messages[m].mail))
    && (forall i :: i in t.submissions ==> i in t'.submissions && t'.submissions[i] == t.submissions[i])
    && (forall i :: i in t.invoices ==> i in t'.invoices && t'.invoices[i] == t.invoices[i])
    && (forall r :: r in t.runs ==> r in t'.runs && t'.runs[r] == t.runs[r])
    && t.jobs <= t'.jobs
  }

  ghost predicate MailsInv(t: Tables) {
    forall m :: m in t.messages ==> MailInv(t.messages[m].mail)
  }

  lemma MailStep(t: Tables, step: Step, pc: Pc)
    requires EnabledAt(t, step, pc) && WritesMail(step) && MailsInv(t)
    ensures var mail := t.messages[pc.message].mail;
            MailInv(MailAfter(mail, step, pc)) && Follows(mail, MailAfter(mail, step, pc))
  {
    var mail := t.messages[pc.message].mail;
    match step
    case Save(_, output, threshold, call) => SaveKeeps(mail, output, threshold, call);
    case Mark(_, now) => MoveKeeps(mail, if pc.MoveDone? then pc.locator else pc.read.locator, now);
    case MoveFails(_, code, detail) => ErrorKeeps(mail, code, detail);
    case Resolve(_) => ResolveKeeps(mail, pc.category, pc.review);
  }

  lemma UpdateMail(t: Tables, m: MessageId, mail: Mail)
    requires MailsInv(t) && m in t.messages && MailInv(mail) && Follows(t.messages[m].mail, mail)
    ensures var t' := t.(messages := t.messages[m := t.messages[m].(mail := mail)]); Grows(t, t') && MailsInv(t')
  {
  }

  lemma SameMessages(t: Tables, t': Tables)
    requires MailsInv(t) && t'.messages == t.messages
    ensures MailsInv(t')
    ensures forall m :: m in t.messages ==> Follows(t.messages[m].mail, t'.messages[m].mail)
  {
  }

  lemma AddMessage(t: Tables, m: MessageId, message: Message)
    requires MailsInv(t) && m !in t.messages && MailInv(message.mail)
    ensures var t' := t.(messages := t.messages[m := message]); Grows(t, t') && MailsInv(t')
  {
  }

  lemma EffectGrows(t: Tables, step: Step, pc: Pc)
    requires EnabledAt(t, step, pc) && MailsInv(t)
    ensures Grows(t, Effect(t, step, pc)) && MailsInv(Effect(t, step, pc))
  {
    if WritesMail(step) {
      MailStep(t, step, pc);
      UpdateMail(t, pc.message, MailAfter(t.messages[pc.message].mail, step, pc));
    } else if step.Ingest? && !ServerTaken(t, pc.server) && !FingerprintTaken(t, pc.fingerprint) {
      AddMessage(t, step.id, Message(pc.server, pc.fingerprint, Fresh(step.locator)));
    } else {
      SameMessages(t, Effect(t, step, pc));
    }
  }

  // ----- table invariants -----

  ghost predicate UniqueMessages(t: Tables) {
    forall a, b :: a in t.messages && b in t.messages && a != b ==>
      t.messages[a].server != t.messages[b].server && t.messages[a].fingerprint != t.messages[b].fingerprint
  }

  ghost predicate UniqueSubmissions(t: Tables) {
    forall a, b :: a in t.submissions && b in t.submissions && a != b ==>
      t.submissions[a].key != t.submissions[b].key && t.submissions[a].content != t.submissions[b].content
  }

  ghost predicate UniqueRuns(t: Tables) {
    forall a, b :: a in t.runs && b in t.runs && a != b ==> t.runs[a] != t.runs[b]
  }

  ghost predicate UniqueColumns(t: Tables) {
    UniqueMessages(t) && UniqueSubmissions(t) && UniqueRuns(t)
  }

  /** Each submission has exactly one invoice and each invoice one submission. */
  ghost predicate Paired(t: Tables) {
    && (forall i :: i in t.submissions ==>
          t.submissions[i].invoice in t.invoices && t.invoices[t.submissions[i].invoice].submission == i)
    && (forall i :: i in t.invoices ==>
          t.invoices[i].submission in t.submissions && t.submissions[t.invoices[i].submission].invoice == i)
    && (forall r :: r in t.runs ==> t.runs[r] in t.invoices)
  }

  predicate IsInvoiceMail(t: Tables, m: MessageId) {
    m in t.messages && t.messages[m].mail.category == Some(INVOICE)
  }

  /** An invoice from e-mail belongs to a message of class INVOICE and to that message's content. */
  predicate Sound(t: Tables, i: InvoiceId) {
    i in t.invoices && t.invoices[i].submission in t.submissions
    && var sub := t.submissions[t.invoices[i].submission];
       match t.invoices[i].mail
       case None => sub.key.Manual?
       case Some(m) => sub.key == Imap(m) && IsInvoiceMail(t, m) && sub.content == t.messages[m].fingerprint
  }

  ghost predicate TablesInv(t: Tables) {
    MailsInv(t) && UniqueColumns(t) && Paired(t) && forall i :: i in t.invoices ==> Sound(t, i)
  }

  // ----- what each program point knows -----

  predicate SameContent(t: Tables, i: InvoiceId, content: string) {
    i in t.invoices && t.invoices[i].submission in t.submissions
      && t.submissions[t.invoices[i].submission].content == content
  }

  predicate HasCategory(t: Tables, m: MessageId, c: Class) {
    m in t.messages && t.messages[m].mail.category == Some(c)
  }

  function Origin(key: SubmissionKey): Option<MessageId> {
    if key.Imap? then Some(key.message) else None
  }

  /** The command of an e-mail carries that e-mail's fingerprint as its content hash. */
  predicate KeyContent(t: Tables, key: SubmissionKey, content: string) {
    key.Imap? ==> IsInvoiceMail(t, key.message) && content == t.messages[key.message].fingerprint
  }

  ghost predicate Achieved(t: Tables, e: Ending) {
    match e
    case HasMessage(m) => m in t.messages && ClassifyMessage(m) in t.jobs
    case NoInvoice(m, c) => m in t.messages && c != INVOICE && (c != MANUAL_REVIEW ==> HasCategory(t, m, c))
    case HasInvoice(key, content, i) =>
      KeyContent(t, key, content) && SameContent(t, i, content) && SelectTariffs(i) in t.jobs
    case HasSelection(i) => HasRun(t, i)
    case HasReview(m, c) => c != MANUAL_REVIEW && HasCategory(t, m, c) && ReviewMove(m, ClassText(c)) in t.jobs
  }

  predicate Decided(t: Tables, m: MessageId) {
    m in t.messages && t.messages[m].mail.category.Some?
  }

  ghost predicate PcInv(t: Tables, pc: Pc) {
    match pc
    case IngestDone(m) => m in t.messages
    case Reread(m) => Decided(t, m)
    case Moving(m, _) => Decided(t, m)
    case MoveDone(m, _, _) => Decided(t, m)
    case Sourcing(m) => IsInvoiceMail(t, m)
    case Submitting(key, content, mail) => KeyContent(t, key, content) && mail == Origin(key)
    case Submitted(key, content, i) => KeyContent(t, key, content) && SameContent(t, i, content)
    case Deciding(i) => i in t.invoices
    case Resolved(m, c) => c != MANUAL_REVIEW && HasCategory(t, m, c)
    case Returned(e) => Achieved(t, e)
    case _ => true
  }

  /** What a process knows stays true as the tables grow. */
  lemma PcStable(t: Tables, t': Tables, pc: Pc)
    requires Grows(t, t') && PcInv(t, pc)
    ensures PcInv(t', pc)
  {
  }

  // ----- one transaction keeps the invariants -----

  lemma EffectKeepsTables(t: Tables, step: Step, pc: Pc)
    requires EnabledAt(t, step, pc) && TablesInv(t) && PcInv(t, pc)
    ensures TablesInv(Effect(t, step, pc))
  {
    EffectGrows(t, step, pc);
    if step.Submit? && !Found(t, pc.key, pc.content) {
      NewSubmission(t, Effect(t, step, pc), pc, step.submission, step.invoice);
    } else {
      EffectKeepsColumns(t, step, pc);
    }
  }

  lemma EffectKeepsColumns(t: Tables, step: Step, pc: Pc)
    requires EnabledAt(t, step, pc) && UniqueColumns(t) && Paired(t) && PcInv(t, pc)
    requires !(step.Submit? && !Found(t, pc.key, pc.content))
    ensures UniqueColumns(Effect(t, step, pc)) && Paired(Effect(t, step, pc))
    ensures Effect(t, step, pc).invoices == t.invoices
  {
    if WritesMail(step) {
      MailWritten(t, pc.message, MailAfter(t.messages[pc.message].mail, step, pc));
    } else {
      OtherKeepsColumns(t, step, pc);
    }
  }

  lemma OtherKeepsColumns(t: Tables, step: Step, pc: Pc)
    requires EnabledAt(t, step, pc) && UniqueColumns(t) && Paired(t) && PcInv(t, pc) && !WritesMail(step)
    requires !(step.Submit? && !Found(t, pc.key, pc.content))
    ensures UniqueColumns(Effect(t, step, pc)) && Paired(Effect(t, step, pc))
    ensures Effect(t, step, pc).invoices == t.invoices
  {
    if step.Ingest? && !ServerTaken(t, pc.server) && !FingerprintTaken(t, pc.fingerprint) {
      MessageAdded(t, step.id, Message(pc.server, pc.fingerprint, Fresh(step.locator)));
    } else if step.SaveSelection? && !HasRun(t, pc.invoice) {
      RunAdded(t, step.run, pc.invoice);
    }
  }

  lemma MailWritten(t: Tables, m: MessageId, mail: Mail)
    requires UniqueColumns(t) && Paired(t) && m in t.messages
    ensures var t' := t.(messages := t.messages[m := t.messages[m].(mail := mail)]); UniqueColumns(t') && Paired(t')
  {
  }

  lemma MessageAdded(t: Tables, id: MessageId, message: Message)
    requires UniqueColumns(t) && Paired(t) && !ServerTaken(t, message.server)
             && !FingerprintTaken(t, message.fingerprint)
    ensures var t' := t.(messages := t.messages[id := message]); UniqueColumns(t') && Paired(t')
  {
  }

  lemma RunAdded(t: Tables, run: RunId, invoice: InvoiceId)
    requires UniqueColumns(t) && Paired(t) && !HasRun(t, invoice) && invoice in t.invoices
    ensures var t' := t.(runs := t.runs[run := invoice]); UniqueColumns(t') && Paired(t')
  {
  }

  lemma SubmissionAdded(t: Tables, t': Tables, row: Submission, mail: Option<MessageId>, submission: SubmissionId)
    requires UniqueColumns(t) && Paired(t) && !Found(t, row.key, row.content)
    requires submission !in t.submissions && row.invoice !in t.invoices
    requires t' == t.(submissions := t.submissions[submission := row],
                      invoices := t.invoices[row.invoice := Invoice(submission, mail)])
    ensures UniqueColumns(t') && Paired(t')
  {
    forall i | i in t.submissions
      ensures t.submissions[i].key != row.key && t.submissions[i].content != row.content
    {
      assert !Matches(t, i, row.key, row.content);
    }
  }

  lemma NewSubmission(t: Tables, t': Tables, pc: Pc, submission: SubmissionId, invoice: InvoiceId)
    requires TablesInv(t) && pc.Submitting? && PcInv(t, pc) && !Found(t, pc.key, pc.content)
    requires submission !in t.submissions && invoice !in t.invoices
    requires t' == t.(submissions := t.submissions[submission := Submission(pc.key, pc.content, invoice)],
                      invoices := t.invoices[invoice := Invoice(submission, pc.mail)])
    ensures TablesInv(t')
  {
    SameMessages(t, t');
    SubmissionAdded(t, t', Submission(pc.key, pc.content, invoice), pc.mail, submission);
    forall i | i in t'.invoices
      ensures Sound(t', i)
    {
      if i != invoice { assert Sound(t, i); }
    }
  }

  /** After each transaction its process knows what its next one needs. */
  lemma NextKnows(t: Tables, step: Step, pc: Pc)
    requires EnabledAt(t, step, pc) && TablesInv(t) && PcInv(t, pc)
    ensures Next(t, step, pc).Some? ==> PcInv(Effect(t, step, pc), Next(t, step, pc).value)
  {
    if step.Submit? {
      SubmitKnows(t, step, pc);
    } else if step.SaveSelection? || step.Lookup? {
      SelectionKnows(t, step, pc);
    } else if WritesMail(step) {
      MailKnows(t, step, pc);
    } else {
      OtherKnows(t, step, pc);
    }
  }

  lemma SubmitKnows(t: Tables, step: Step, pc: Pc)
    requires EnabledAt(t, step, pc) && TablesInv(t) && PcInv(t, pc) && step.Submit?
    ensures Next(t, step, pc).Some? ==> PcInv(Effect(t, step, pc), Next(t, step, pc).value)
  {
    if Found(t, pc.key, pc.content) && Next(t, step, pc).Some? {
      KnownContent(t, pc, step.existing);
    }
  }

  lemma MailKnows(t: Tables, step: Step, pc: Pc)
    requires EnabledAt(t, step, pc) && WritesMail(step)
    ensures Next(t, step, pc).Some? ==> PcInv(Effect(t, step, pc), Next(t, step, pc).value)
  {
  }

  lemma OtherKnows(t: Tables, step: Step, pc: Pc)
    requires EnabledAt(t, step, pc) && PcInv(t, pc) && !WritesMail(step)
    requires !step.Submit? && !step.SaveSelection? && !step.Lookup?
    ensures Next(t, step, pc).Some? ==> PcInv(Effect(t, step, pc), Next(t, step, pc).value)
  {
  }

  lemma SelectionKnows(t: Tables, step: Step, pc: Pc)
    requires EnabledAt(t, step, pc) && PcInv(t, pc) && (step.SaveSelection? || step.Lookup?)
    ensures Next(t, step, pc).Some? && PcInv(Effect(t, step, pc), Next(t, step, pc).value)
  {
    if step.SaveSelection? && !HasRun(t, pc.invoice) {
      assert step.run in Effect(t, step, pc).runs && Effect(t, step, pc).runs[step.run] == pc.invoice;
    }
  }

  /** Whichever of the matching rows the query returns, its content is the command's, unless the key
      was used for other content. */
  lemma KnownContent(t: Tables, pc: Pc, existing: SubmissionId)
    requires Paired(t) && pc.Submitting? && Matches(t, existing, pc.key, pc.content)
    requires !(t.submissions[existing].key == pc.key && t.submissions[existing].content != pc.content)
    ensures SameContent(t, t.submissions[existing].invoice, pc.content)
  {
  }

  /** An ingestion goes on with a message that has its server key, or else its content. */
  lemma IngestMeans(t: Tables, step: Step, pc: Pc)
    requires EnabledAt(t, step, pc) && step.Ingest?
    ensures Next(t, step, pc).Some? && Next(t, step, pc).value.IngestDone?
    ensures var after, m := Effect(t, step, pc), Next(t, step, pc).value.message;
            && m in after.messages
            && (after.messages[m].server == pc.server || after.messages[m].fingerprint == pc.fingerprint)
            && (after != t ==>
                  m !in t.messages && after.messages[m] == Message(pc.server, pc.fingerprint, Fresh(step.locator)))
  {
  }

  /** A submission raises exactly when the row that the query returned has its key for other content. */
  lemma SubmitRaisesIff(t: Tables, step: Step, pc: Pc)
    requires EnabledAt(t, step, pc) && step.Submit?
    ensures Next(t, step, pc).None?
            <==> (exists i :: Matches(t, i, pc.key, pc.content)) && step.existing in t.submissions
                 && t.submissions[step.existing].key == pc.key && t.submissions[step.existing].content != pc.content
  {
  }

  // ----- the invariant of the system -----

  predicate Guards(c: Config, s: State, p: Process) {
    p in s.procs && InGuard(s.procs[p])
    && c.guard(s.procs[p].invoice) in s.locks && s.locks[c.guard(s.procs[p].invoice)] == p
  }

  /** A selection guard is held by the handler inside it, and while it decides no run exists. */
  ghost predicate GuardInv(c: Config, s: State) {
    && (forall p :: p in s.procs && InGuard(s.procs[p]) ==> Guards(c, s, p))
    && (forall p :: p in s.procs && s.procs[p].Deciding? ==> !HasRun(s.t, s.procs[p].invoice))
  }

  ghost predicate Inv(c: Config, s: State) {
    TablesInv(s.t) && (forall p :: p in s.procs ==> PcInv(s.t, s.procs[p])) && GuardInv(c, s)
  }

  lemma GuardExcludes(c: Config, s: State, p: Process, q: Process)
    requires GuardInv(c, s) && p in s.procs && q in s.procs && InGuard(s.procs[p]) && InGuard(s.procs[q])
    requires s.procs[p].invoice == s.procs[q].invoice
    ensures p == q
  {
    assert Guards(c, s, p) && Guards(c, s, q);
  }

  lemma StepKeepsGuards(c: Config, s: State, step: Step)
    requires Enabled(c, s, step) && GuardInv(c, s)
    ensures GuardInv(c, Apply(c, s, step))
  {
    var s' := Apply(c, s, step);
    forall p | p in s'.procs && InGuard(s'.procs[p])
      ensures Guards(c, s', p)
      ensures s'.procs[p].Deciding? ==> !HasRun(s'.t, s'.procs[p].invoice)
    {
      if p == step.p {
        ActorGuard(c, s, step);
      } else {
        assert Guards(c, s, p);
        OtherGuard(c, s, step, p);
      }
    }
  }

  lemma ActorGuard(c: Config, s: State, step: Step)
    requires Enabled(c, s, step) && GuardInv(c, s)
    requires step.p in Apply(c, s, step).procs && InGuard(Apply(c, s, step).procs[step.p])
    ensures Guards(c, Apply(c, s, step), step.p)
    ensures Apply(c, s, step).procs[step.p].Deciding? ==>
              !HasRun(Apply(c, s, step).t, Apply(c, s, step).procs[step.p].invoice)
  {
    if step.Lookup? {
      assert Guards(c, s, step.p);
    }
  }

  lemma OtherGuard(c: Config, s: State, step: Step, p: Process)
    requires Enabled(c, s, step) && GuardInv(c, s) && p != step.p && Guards(c, s, p)
    ensures Guards(c, Apply(c, s, step), p)
    ensures s.procs[p].Deciding? ==> !HasRun(Apply(c, s, step).t, s.procs[p].invoice)
  {
    if s.procs[p].Deciding? && step.SaveSelection? && s.procs[step.p].invoice == s.procs[p].invoice {
      GuardExcludes(c, s, p, step.p);
    }
  }

  lemma StepKeepsInv(c: Config, s: State, step: Step)
    requires Enabled(c, s, step) && Inv(c, s)
    ensures Inv(c, Apply(c, s, step)) && Grows(s.t, Apply(c, s, step).t)
  {
    var s' := Apply(c, s, step);
    StepKeepsGuards(c, s, step);
    if step.Start? {
      SameMessages(s.t, s'.t);
    } else {
      var pc := s.procs[step.p];
      EffectGrows(s.t, step, pc);
      EffectKeepsTables(s.t, step, pc);
      NextKnows(s.t, step, pc);
      forall p | p in s'.procs
        ensures PcInv(s'.t, s'.procs[p])
      {
        if p != step.p { PcStable(s.t, s'.t, s.procs[p]); }
      }
    }
  }

  // ----- over runs -----

  lemma {:induction false} RunInv(c: Config, r: Run, n: nat)
    requires IsRun(c, r) && n < |r.states|
    ensures Inv(c, r.states[n])
  {
    if n > 0 {
      RunInv(c, r, n - 1);
      assert Moves(c, r.states[n - 1], r.steps[n - 1], r.states[n]);
      StepKeepsInv(c, r.states[n - 1], r.steps[n - 1]);
    }
  }

  lemma GrowsChain(a: Tables, b: Tables, d: Tables)
    requires Grows(a, b) && Grows(b, d)
    ensures Grows(a, d)
  {
    forall m | m in a.messages
      ensures Follows(a.messages[m].mail, d.messages[m].mail)
    {
      FollowsChain(a.messages[m].mail, b.messages[m].mail, d.messages[m].mail);
    }
  }

  lemma GrowsSelf(t: Tables)
    ensures Grows(t, t)
  {
  }

  /** Nothing is ever deleted or rewritten: every table only grows, and the classification of a message
      follows its rules, between any two moments of a run. */
  lemma {:induction false} RunGrows(c: Config, r: Run, m: nat, n: nat)
    requires IsRun(c, r) && m <= n < |r.states|
    ensures Grows(r.states[m].t, r.states[n].t)
    decreases n
  {
    if m == n {
      GrowsSelf(r.states[n].t);
    } else {
      RunGrows(c, r, m, n - 1);
      RunInv(c, r, n - 1);
      assert Moves(c, r.states[n - 1], r.steps[n - 1], r.states[n]);
      StepKeepsInv(c, r.states[n - 1], r.steps[n - 1]);
      GrowsChain(r.states[m].t, r.states[n - 1].t, r.states[n].t);
    }
  }

  // ----- exactly once -----

  /** At any moment: one message per server key and per fingerprint, one invoice per message, one run per
      invoice, whatever was retried, crashed or interleaved. */
  lemma ExactlyOnce(c: Config, r: Run, n: nat)
    requires IsRun(c, r) && n < |r.states|
    ensures var t := r.states[n].t;
            && UniqueColumns(t)
            && (forall i, j, m ::
                  i in t.invoices && j in t.invoices && t.invoices[i].mail == t.invoices[j].mail == Some(m) ==> i == j)
            && (forall i, j :: i in t.runs && j in t.runs && t.runs[i] == t.runs[j] ==> i == j)
  {
    RunInv(c, r, n);
    var t := r.states[n].t;
    forall i, j, m | i in t.invoices && j in t.invoices && t.invoices[i].mail == Some(m)
      && t.invoices[j].mail == Some(m)
      ensures i == j
    {
      assert Sound(t, i) && Sound(t, j);
    }
  }

  /** Once a handler or request has returned normally, its effect and the next stage's job exist for ever. */
  lemma ReturnedMeansDone(c: Config, r: Run, m: nat, n: nat, p: Process)
    requires IsRun(c, r) && m <= n < |r.states| && p in r.states[m].procs && r.states[m].procs[p].Returned?
    ensures Achieved(r.states[n].t, r.states[m].procs[p].ending)
  {
    RunInv(c, r, m);
    RunGrows(c, r, m, n);
  }

  /** Submission content hashes of manual uploads and fingerprints of e-mails are hashes of different
      texts. This is the only place where their collision matters. */
  ghost predicate NoCrossCollision(t: Tables) {
    forall i, m :: i in t.submissions && m in t.messages && t.submissions[i].key.Manual? ==>
      t.submissions[i].content != t.messages[m].fingerprint
  }

  /** A classification job that returns for a message of class INVOICE leaves an invoice with that
      message's content and a selection job for it. Without a hash collision it is the message's own. */
  lemma ClassifiedInvoiceExists(c: Config, r: Run, n: nat, p: Process, m: MessageId)
    requires IsRun(c, r) && n < |r.states| && p in r.states[n].procs && r.states[n].procs[p].Returned?
    requires r.states[n].procs[p].ending.HasInvoice? && r.states[n].procs[p].ending.key == Imap(m)
    ensures var t, i := r.states[n].t, r.states[n].procs[p].ending.invoice;
            && m in t.messages && SameContent(t, i, t.messages[m].fingerprint) && SelectTariffs(i) in t.jobs
            && (NoCrossCollision(t) ==> t.invoices[i].mail == Some(m))
  {
    RunInv(c, r, n);
    var t, i := r.states[n].t, r.states[n].procs[p].ending.invoice;
    assert Achieved(t, r.states[n].procs[p].ending);
    if NoCrossCollision(t) {
      OwnInvoice(t, i, m);
    }
  }

  lemma OwnInvoice(t: Tables, i: InvoiceId, m: MessageId)
    requires UniqueMessages(t) && Sound(t, i) && m in t.messages && SameContent(t, i, t.messages[m].fingerprint)
             && NoCrossCollision(t)
    ensures t.invoices[i].mail == Some(m)
  {
    assert t.submissions[t.invoices[i].submission].key.Imap?;
  }

  /** No invoice comes from an e-mail that nobody vouches for: its class is INVOICE, and either a reviewer
      is recorded or the stored confidence reaches the stored threshold. */
  lemma NoUnreviewedInvoice(c: Config, r: Run, n: nat, i: InvoiceId, m: MessageId)
    requires IsRun(c, r) && n < |r.states| && i in r.states[n].t.invoices && r.states[n].t.invoices[i].mail == Some(m)
    ensures m in r.states[n].t.messages
    ensures var mail := r.states[n].t.messages[m].mail;
            && mail.category == Some(INVOICE)
            && (mail.review.Some?
                || (mail.verdict.Some? && V(mail.verdict.value.threshold) <= V(mail.verdict.value.confidence)))
  {
    RunInv(c, r, n);
    assert Sound(r.states[n].t, i);
    var verdict := r.states[n].t.messages[m].mail.verdict;
    if verdict.Some? {
      OrderValue(verdict.value.confidence, verdict.value.threshold);
    }
  }

  /** In every reachable state at most one handler of an invoice is inside the selection guard. */
  lemma OneInGuard(c: Config, r: Run, n: nat, p: Process, q: Process)
    requires IsRun(c, r) && n < |r.states| && p in r.states[n].procs && q in r.states[n].procs
    requires InGuard(r.states[n].procs[p]) && InGuard(r.states[n].procs[q])
    requires r.states[n].procs[p].invoice == r.states[n].procs[q].invoice
    ensures p == q
  {
    RunInv(c, r, n);
    GuardExcludes(c, r.states[n], p, q);
  }

  /** Under the guard the second lookup inside `save` never finds a run: the AI decides at most once per
      invoice and its decision is the one that is stored. */
  lemma GuardedSelectionInserts(c: Config, r: Run, n: nat)
    requires IsRun(c, r) && n < |r.steps| && r.steps[n].SaveSelection?
    ensures r.steps[n].p in r.states[n].procs && r.states[n].procs[r.steps[n].p].Deciding?
    ensures !HasRun(r.states[n].t, r.states[n].procs[r.steps[n].p].invoice)
    ensures r.steps[n].run in r.states[n + 1].t.runs
  {
    RunInv(c, r, n);
    assert Moves(c, r.states[n], r.steps[n], r.states[n + 1]);
  }
}
