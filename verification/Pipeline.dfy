/** The stages from mailbox to tariff selection as one system: any number of handlers of any stage run at
    the same time, each may stop after any transaction, and any job may run again. Nothing here relies on
    leases: exactly-once effects come from unique columns, locks and deterministic job keys alone. */
module Pipeline {
  import opened Prelude
  import opened JobKeys
  import opened Decimals
  import opened EmailClassification

  type Process = nat
  type SubmissionId = nat
  type InvoiceId = nat
  type RunId = nat

  function ClassText(c: Class): string {
    match c
    case INVOICE => "INVOICE"
    case DUE_NOTICE => "DUE_NOTICE"
    case GENERAL => "GENERAL"
    case MANUAL_REVIEW => "MANUAL_REVIEW"
  }

  datatype Message = Message(server: string, fingerprint: string, mail: Mail)

  datatype SubmissionKey = Imap(message: MessageId) | Manual(text: string)

  datatype Submission = Submission(key: SubmissionKey, content: string, invoice: InvoiceId)

  datatype Invoice = Invoice(submission: SubmissionId, mail: Option<MessageId>)

  /** `jobs` are the keys in the job table, which has one row per key. */
  datatype Tables = Tables(
    messages: map<MessageId, Message>,
    submissions: map<SubmissionId, Submission>,
    invoices: map<InvoiceId, Invoice>,
    runs: map<RunId, InvoiceId>,
    jobs: set<JobKey>)

  /** `locks` are the session-level selection guards. */
  datatype State = State(t: Tables, locks: map<int, Process>, procs: map<Process, Pc>)

  /** Where a handler or a request stands, between two transactions. */
  datatype Pc =
    | Ingesting(server: string, fingerprint: string)
    | IngestDone(message: MessageId)
    | Classifying(message: MessageId)
    | Unclassified(message: MessageId)
    | Reread(message: MessageId)
    | Moving(message: MessageId, read: Mail)
    | MoveDone(message: MessageId, read: Mail, locator: Locator)
    | Sourcing(message: MessageId)
    | Submitting(key: SubmissionKey, content: string, mail: Option<MessageId>)
    | Submitted(key: SubmissionKey, content: string, invoice: InvoiceId)
    | Selecting(invoice: InvoiceId)
    | Guarded(invoice: InvoiceId)
    | Deciding(invoice: InvoiceId)
    | Reviewing(message: MessageId, category: Class, review: Review)
    | Resolved(message: MessageId, category: Class)
    | Returned(ending: Ending)

  /** What a handler or request that returned normally has achieved. */
  datatype Ending =
    | HasMessage(message: MessageId)
    | NoInvoice(message: MessageId, category: Class)
    | HasInvoice(key: SubmissionKey, content: string, invoice: InvoiceId)
    | HasSelection(invoice: InvoiceId)
    | HasReview(message: MessageId, category: Class)

  /** The lock number of an invoice's selection guard, and the mailbox folder of a class. */
  datatype Config = Config(guard: InvoiceId -> int, folders: Class -> string)

  datatype Step =
    | Start(p: Process, pc: Pc)
    | Ingest(p: Process, id: MessageId, found: MessageId, locator: Locator)
    | Enqueue(p: Process)
    | Get(p: Process)
    | Save(p: Process, output: Output, threshold: Dec, call: nat)
    | Move(p: Process, destination: Locator)
    | MoveFails(p: Process, code: string, detail: string)
    | Mark(p: Process, now: Time)
    | Source(p: Process)
    | Submit(p: Process, submission: SubmissionId, invoice: InvoiceId, existing: SubmissionId)
    | TakeGuard(p: Process)
    | Lookup(p: Process)
    | SaveSelection(p: Process, run: RunId)
    | Resolve(p: Process)
    | Stop(p: Process)

  predicate Starts(pc: Pc) {
    pc.Ingesting? || pc.Classifying? || pc.Selecting? || pc.Reviewing?
    || (pc.Submitting? && pc.key.Manual? && pc.mail.None?)
  }

  // ----- queries -----

  ghost predicate ServerTaken(t: Tables, server: string) {
    exists m :: m in t.messages && t.messages[m].server == server
  }

  ghost predicate FingerprintTaken(t: Tables, fingerprint: string) {
    exists m :: m in t.messages && t.messages[m].fingerprint == fingerprint
  }

  predicate Matches(t: Tables, i: SubmissionId, key: SubmissionKey, content: string) {
    i in t.submissions && (t.submissions[i].key == key || t.submissions[i].content == content)
  }

  ghost predicate Found(t: Tables, key: SubmissionKey, content: string) {
    exists i :: Matches(t, i, key, content)
  }

  ghost predicate HasRun(t: Tables, invoice: InvoiceId) {
    exists r :: r in t.runs && t.runs[r] == invoice
  }

  // ----- one transaction -----

  /** When a transaction can run and with what results of its queries. A step that must raise is `Stop`. */
  ghost predicate EnabledAt(t: Tables, step: Step, pc: Pc) {
    match step
    case Start(_, _) => false
    case Ingest(_, id, found, _) =>
      pc.Ingesting?
      && if ServerTaken(t, pc.server) then found in t.messages && t.messages[found].server == pc.server
         else if FingerprintTaken(t, pc.fingerprint)
         then found in t.messages && t.messages[found].fingerprint == pc.fingerprint
         else id !in t.messages
    case Enqueue(_) => pc.IngestDone? || pc.Submitted? || pc.Resolved?
    case Get(_) => (pc.Classifying? || pc.Reread?) && pc.message in t.messages
    case Save(_, _, _, _) => pc.Unclassified? && pc.message in t.messages
    case Move(_, _) => pc.Moving? && pc.read.movedAt.None? && pc.read.category.Some?
    case MoveFails(_, _, _) => pc.Moving? && pc.read.movedAt.None? && pc.message in t.messages
    case Mark(_, _) =>
      (pc.MoveDone? || (pc.Moving? && pc.read.movedAt.Some?))
      && pc.message in t.messages && t.messages[pc.message].mail.category.Some?
    case Source(_) => pc.Sourcing? && pc.message in t.messages && t.messages[pc.message].mail.category == Some(INVOICE)
    case Submit(_, submission, invoice, existing) =>
      pc.Submitting?
      && if Found(t, pc.key, pc.content) then Matches(t, existing, pc.key, pc.content)
         else submission !in t.submissions && invoice !in t.invoices
    case TakeGuard(_) => pc.Selecting?
    case Lookup(_) => pc.Guarded? && (HasRun(t, pc.invoice) || pc.invoice in t.invoices)
    case SaveSelection(_, run) => pc.Deciding? && run !in t.runs
    case Resolve(_) =>
      pc.Reviewing? && pc.category != MANUAL_REVIEW && pc.message in t.messages
      && t.messages[pc.message].mail.category == Some(MANUAL_REVIEW)
    case Stop(_) => true
  }

  predicate WritesMail(step: Step) {
    step.Save? || step.Mark? || step.MoveFails? || step.Resolve?
  }

  /** The mail row that a step leaves behind. */
  function MailAfter(mail: Mail, step: Step, pc: Pc): Mail {
    match step
    case Save(_, output, threshold, call) => SaveRow(mail, output, Effective(output, threshold), threshold, call)
    case Mark(_, now) =>
      if pc.MoveDone? then MovedRow(mail, pc.locator, now)
      else if pc.Moving? then MovedRow(mail, pc.read.locator, now)
      else mail
    case MoveFails(_, code, detail) => ErrorRow(mail, code, detail)
    case Resolve(_) => if pc.Reviewing? then ResolveRow(mail, pc.category, pc.review) else mail
    case _ => mail
  }

  /** What the step writes. */
  ghost function Effect(t: Tables, step: Step, pc: Pc): Tables
    requires EnabledAt(t, step, pc)
  {
    if WritesMail(step) then
      var row := t.messages[pc.message];
      t.(messages := t.messages[pc.message := row.(mail := MailAfter(row.mail, step, pc))])
    else
      match step
      case Ingest(_, id, _, locator) =>
        if ServerTaken(t, pc.server) || FingerprintTaken(t, pc.fingerprint) then t
        else t.(messages := t.messages[id := Message(pc.server, pc.fingerprint, Fresh(locator))])
      case Enqueue(_) =>
        if pc.IngestDone? then t.(jobs := t.jobs + {ClassifyMessage(pc.message)})
        else if pc.Submitted? then t.(jobs := t.jobs + {SelectTariffs(pc.invoice)})
        else t.(jobs := t.jobs + {ReviewMove(pc.message, ClassText(pc.category))})
      case Submit(_, submission, invoice, _) =>
        if Found(t, pc.key, pc.content) then t
        else t.(submissions := t.submissions[submission := Submission(pc.key, pc.content, invoice)],
                invoices := t.invoices[invoice := Invoice(submission, pc.mail)])
      case SaveSelection(_, run) => if HasRun(t, pc.invoice) then t else t.(runs := t.runs[run := pc.invoice])
      case _ => t
  }

  /** Where the process stands afterwards; None when it has raised. */
  ghost function Next(t: Tables, step: Step, pc: Pc): Option<Pc>
    requires EnabledAt(t, step, pc)
  {
    match step
    case Ingest(_, id, found, _) =>
      Some(IngestDone(if ServerTaken(t, pc.server) || FingerprintTaken(t, pc.fingerprint) then found else id))
    case Enqueue(_) =>
      Some(Returned(if pc.IngestDone? then HasMessage(pc.message)
                    else if pc.Submitted? then HasInvoice(pc.key, pc.content, pc.invoice)
                    else HasReview(pc.message, pc.category)))
    case Get(_) =>
      var mail := t.messages[pc.message].mail;
      if mail.category.Some? then Some(Moving(pc.message, mail))
      else if pc.Classifying? then Some(Unclassified(pc.message))
      else None
    case Save(_, _, _, _) => Some(Reread(pc.message))
    case Move(_, destination) => Some(MoveDone(pc.message, pc.read, destination))
    case Mark(_, _) =>
      var category := t.messages[pc.message].mail.category.value;
      Some(if category == INVOICE then Sourcing(pc.message) else Returned(NoInvoice(pc.message, category)))
    case Source(_) => Some(Submitting(Imap(pc.message), t.messages[pc.message].fingerprint, Some(pc.message)))
    case Submit(_, _, invoice, existing) =>
      if !Found(t, pc.key, pc.content) then Some(Submitted(pc.key, pc.content, invoice))
      else if t.submissions[existing].key == pc.key && t.submissions[existing].content != pc.content then None
      else Some(Submitted(pc.key, pc.content, t.submissions[existing].invoice))
    case TakeGuard(_) => Some(Guarded(pc.invoice))
    case Lookup(_) => Some(if HasRun(t, pc.invoice) then Returned(HasSelection(pc.invoice)) else Deciding(pc.invoice))
    case SaveSelection(_, _) => Some(Returned(HasSelection(pc.invoice)))
    case Resolve(_) => Some(Resolved(pc.message, pc.category))
    case _ => None
  }

  // ----- the system -----

  function Freed(locks: map<int, Process>, p: Process): map<int, Process> {
    map k | k in locks && locks[k] != p :: locks[k]
  }

  predicate InGuard(pc: Pc) {
    pc.Guarded? || pc.Deciding?
  }

  ghost predicate Enabled(c: Config, s: State, step: Step) {
    if step.Start? then step.p !in s.procs && Starts(step.pc)
    else
      && step.p in s.procs
      && EnabledAt(s.t, step, s.procs[step.p])
      && (step.TakeGuard? ==> c.guard(s.procs[step.p].invoice) !in s.locks)
      && (step.Move? ==> step.destination.folder == c.folders(s.procs[step.p].read.category.value))
  }

  ghost function Apply(c: Config, s: State, step: Step): State
    requires Enabled(c, s, step)
  {
    if step.Start? then s.(procs := s.procs[step.p := step.pc])
    else
      var pc := s.procs[step.p];
      var next := Next(s.t, step, pc);
      State(Effect(s.t, step, pc),
            if step.TakeGuard? then s.locks[c.guard(pc.invoice) := step.p]
            else if next.Some? && InGuard(next.value) then s.locks
            else Freed(s.locks, step.p),
            if next.Some? then s.procs[step.p := next.value] else s.procs - {step.p})
  }

  const EMPTY := State(Tables(map[], map[], map[], map[], {}), map[], map[])

  // ----- runs -----

  datatype Run = Run(states: seq<State>, steps: seq<Step>)

  ghost predicate Moves(c: Config, s: State, step: Step, s': State) {
    Enabled(c, s, step) && s' == Apply(c, s, step)
  }

  ghost predicate IsRun(c: Config, r: Run) {
    && |r.states| == |r.steps| + 1
    && r.states[0] == EMPTY
    && forall i :: 0 <= i < |r.steps| ==> Moves(c, r.states[i], r.steps[i], r.states[i + 1])
  }
}
