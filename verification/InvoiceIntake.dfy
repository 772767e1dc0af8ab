/** Canonical invoice intake: one transaction that finds or creates a submission with its files, partner,
    invoice, documents and charges, and the service that then enqueues tariff selection. */
module InvoiceIntake {
  import opened Prelude
  import opened JobKeys

  type PartnerId = nat
  type SubmissionId = nat
  type InvoiceId = nat

  datatype Role = InvoiceFile | Auxiliary

  datatype File = File(role: Role, ordinal: nat, filename: string, mimeType: string, size: nat, digest: string,
                       storageKey: string)

  datatype Charge = Charge(name: string, amount: Option<string>)

  datatype Document = Document(number: Option<string>, amount: Option<string>, charges: seq<Charge>)

  datatype Metadata = Metadata(partnerName: Option<string>, partnerDocument: Option<string>,
                               invoiceNumber: Option<string>, documents: seq<Document>)

  datatype Command = Command(key: string, content: string, mail: Option<nat>, files: seq<File>, metadata: Metadata)

  datatype Partner = Partner(name: string, display: string, document: Option<string>)

  datatype Submission = Submission(key: string, content: string, mail: Option<nat>, files: seq<File>)

  datatype Invoice = Invoice(submission: SubmissionId, mail: Option<nat>, partner: Option<PartnerId>,
                             partnerName: Option<string>, number: Option<string>, status: string)

  datatype DocumentRow = DocumentRow(invoice: InvoiceId, number: Option<string>, amount: Option<string>)

  /** A charge refers to its document by the document's position in the document table. */
  datatype ChargeRow = ChargeRow(document: nat, name: string, amount: Option<string>)

  datatype Error = NoInvoiceFile | KeyReused | MissingInvoice | ConstraintViolated

  datatype Tables = Tables(partners: map<PartnerId, Partner>, submissions: map<SubmissionId, Submission>,
                           invoices: map<InvoiceId, Invoice>, documents: seq<DocumentRow>, charges: seq<ChargeRow>)

  // ----- partners -----

  predicate NamesPartner(m: Metadata) {
    m.partnerName.Some? || m.partnerDocument.Some?
  }

  /** Python truth: an absent or empty string counts as absent. */
  predicate Given(s: Option<string>) {
    s.Some? && s.value != ""
  }

  function PartnerName(m: Metadata): string {
    if Given(m.partnerName) then m.partnerName.value
    else if Given(m.partnerDocument) then m.partnerDocument.value
    else "unknown"
  }

  predicate IsPartner(p: Partner, name: string, m: Metadata) {
    p.name == name || (Given(m.partnerDocument) && p.document == m.partnerDocument)
  }

  ghost predicate Known(partners: map<PartnerId, Partner>, name: string, m: Metadata) {
    exists i :: i in partners && IsPartner(partners[i], name, m)
  }

  ghost predicate UniquePartners(partners: map<PartnerId, Partner>) {
    forall i, j :: i in partners && j in partners && i != j ==>
      partners[i].name != partners[j].name
      && (partners[i].document.Some? ==> partners[i].document != partners[j].document)
  }

  ghost predicate EmptyDocumentTaken(partners: map<PartnerId, Partner>) {
    exists i :: i in partners && partners[i].document == Some("")
  }

  /** The command names an unknown partner with the empty document number, which another partner has. */
  ghost predicate PartnerRefused(partners: map<PartnerId, Partner>, normalize: string -> string, m: Metadata) {
    NamesPartner(m) && !Known(partners, normalize(PartnerName(m)), m)
    && m.partnerDocument == Some("") && EmptyDocumentTaken(partners)
  }

  /** An unknown partner can be inserted exactly when it does not bring a second empty document number: the
      empty string is stored and unique, but never looked up. */
  lemma PartnerInsertIff(partners: map<PartnerId, Partner>, id: PartnerId, name: string, m: Metadata)
    requires UniquePartners(partners) && id !in partners && !Known(partners, name, m)
    ensures UniquePartners(partners[id := Partner(name, PartnerName(m), m.partnerDocument)])
            <==> !(m.partnerDocument == Some("") && EmptyDocumentTaken(partners))
  {
    var after := partners[id := Partner(name, PartnerName(m), m.partnerDocument)];
    forall i | i in partners
      ensures !IsPartner(partners[i], name, m)
    {
    }
    if m.partnerDocument == Some("") && EmptyDocumentTaken(partners) {
      var i :| i in partners && partners[i].document == Some("");
      assert after[i].document == after[id].document;
    }
  }

  /** Two partners with different names, both with the empty document number: the second does not fit. */
  lemma SecondEmptyDocumentRefused(m: Metadata)
    requires m.partnerName == Some("b") && m.partnerDocument == Some("")
    ensures var partners := map[0 := Partner("a", "a", Some(""))];
            && UniquePartners(partners) && !Known(partners, "b", m)
            && !UniquePartners(partners[1 := Partner("b", PartnerName(m), m.partnerDocument)])
  {
    var partners := map[0 := Partner("a", "a", Some(""))];
    assert 0 in partners && partners[0].document == Some("");
    PartnerInsertIff(partners, 1, "b", m);
  }

  // ----- submissions -----

  type Submissions = map<SubmissionId, Submission>
  type Invoices = map<InvoiceId, Invoice>

  ghost predicate UniqueSubmissions(subs: Submissions) {
    forall i, j :: i in subs && j in subs && i != j ==>
      subs[i].key != subs[j].key && subs[i].content != subs[j].content
        && (subs[i].mail.Some? ==> subs[i].mail != subs[j].mail)
  }

  /** Each submission has exactly one invoice. */
  ghost predicate Paired(subs: Submissions, invoices: Invoices) {
    && (forall i :: i in subs ==> HasInvoice(invoices, i))
    && (forall v :: v in invoices ==> invoices[v].submission in subs)
    && (forall v, w :: v in invoices && w in invoices && invoices[v].submission == invoices[w].submission ==> v == w)
  }

  predicate InvoiceOf(invoices: Invoices, i: SubmissionId, v: InvoiceId) {
    v in invoices && invoices[v].submission == i
  }

  ghost predicate HasInvoice(invoices: Invoices, i: SubmissionId) {
    exists v :: InvoiceOf(invoices, i, v)
  }

  predicate Matches(subs: Submissions, c: Command, i: SubmissionId) {
    i in subs && (subs[i].key == c.key || subs[i].content == c.content)
  }

  ghost predicate Found(subs: Submissions, c: Command) {
    exists i :: Matches(subs, c, i)
  }

  ghost predicate KeyTaken(subs: Submissions, c: Command) {
    exists i :: i in subs && subs[i].key == c.key && subs[i].content != c.content
  }

  ghost predicate ContentKnown(subs: Submissions, c: Command) {
    exists i :: i in subs && subs[i].content == c.content
  }

  ghost predicate MailTaken(subs: Submissions, mail: Option<nat>) {
    mail.Some? && exists i :: i in subs && subs[i].mail == mail
  }

  ghost predicate Valid(t: Tables) {
    UniquePartners(t.partners) && UniqueSubmissions(t.submissions) && Paired(t.submissions, t.invoices)
  }

  /** A partner is known by its normalized name or by its document number, unless that is empty. */
  lemma KnownMeans(partners: map<PartnerId, Partner>, normalize: string -> string, m: Metadata)
    ensures Known(partners, normalize(PartnerName(m)), m)
            <==> (exists i :: i in partners && partners[i].name == normalize(PartnerName(m)))
                 || (m.partnerDocument.Some? && m.partnerDocument.value != ""
                     && exists i :: i in partners && partners[i].document == m.partnerDocument)
    ensures m.partnerName.Some? && m.partnerName.value != "" ==> PartnerName(m) == m.partnerName.value
    ensures (m.partnerName == None || m.partnerName == Some(""))
            && m.partnerDocument.Some? && m.partnerDocument.value != "" ==>
              PartnerName(m) == m.partnerDocument.value
    ensures PartnerName(m) != ""
    ensures NamesPartner(m) <==> m.partnerName.Some? || m.partnerDocument.Some?
  {
    forall i | i in partners
      ensures IsPartner(partners[i], normalize(PartnerName(m)), m)
              <==> partners[i].name == normalize(PartnerName(m))
                   || (m.partnerDocument.Some? && m.partnerDocument.value != ""
                      && partners[i].document == m.partnerDocument)
    {
    }
  }

  // ----- what a creation writes -----

  function InvoiceRow(c: Command, submission: SubmissionId, partner: Option<PartnerId>): Invoice {
    Invoice(submission, c.mail, partner, c.metadata.partnerName, c.metadata.invoiceNumber, "PROCESSING")
  }

  function DocumentRows(invoice: InvoiceId, documents: seq<Document>): (r: seq<DocumentRow>)
    ensures |r| == |documents|
  {
    seq(|documents|, i requires 0 <= i < |documents| => DocumentRow(invoice, documents[i].number, documents[i].amount))
  }

  /** What the invoice and its documents take over from the command. */
  lemma CreatedRowsMean(c: Command, submission: SubmissionId, invoice: InvoiceId, partner: Option<PartnerId>, i: nat)
    requires i < |c.metadata.documents|
    ensures var v := InvoiceRow(c, submission, partner);
            && v.submission == submission && v.mail == c.mail && v.partner == partner && v.status == "PROCESSING"
            && v.partnerName == c.metadata.partnerName && v.number == c.metadata.invoiceNumber
    ensures var rows := DocumentRows(invoice, c.metadata.documents);
            && |rows| == |c.metadata.documents| && rows[i].invoice == invoice
            && rows[i].number == c.metadata.documents[i].number && rows[i].amount == c.metadata.documents[i].amount
  {
  }

  function ChargesOf(document: nat, charges: seq<Charge>): seq<ChargeRow> {
    seq(|charges|, i requires 0 <= i < |charges| => ChargeRow(document, charges[i].name, charges[i].amount))
  }

  /** All charges in document order, each naming its own document. */
  function ChargeRows(first: nat, documents: seq<Document>): seq<ChargeRow> {
    if documents == [] then []
    else ChargeRows(first, documents[..|documents| - 1])
         + ChargesOf(first + |documents| - 1, documents[|documents| - 1].charges)
  }

  /** The row is charge k of document d. */
  predicate IsCharge(first: nat, documents: seq<Document>, d: nat, k: nat, row: ChargeRow) {
    d < |documents| && k < |documents[d].charges|
    && row == ChargeRow(first + d, documents[d].charges[k].name, documents[d].charges[k].amount)
  }

  ghost predicate IsSomeCharge(first: nat, documents: seq<Document>, row: ChargeRow) {
    exists d: nat, k: nat :: IsCharge(first, documents, d, k, row)
  }

  lemma ChargesOfLast(first: nat, documents: seq<Document>, row: ChargeRow)
    requires documents != []
    ensures var n := |documents| - 1;
            IsSomeCharge(first, documents, row)
            <==> IsSomeCharge(first, documents[..n], row) || row in ChargesOf(first + n, documents[n].charges)
  {
    var n := |documents| - 1;
    var last := ChargesOf(first + n, documents[n].charges);
    if d: nat, k: nat :| IsCharge(first, documents[..n], d, k, row) {
      assert IsCharge(first, documents, d, k, row);
    }
    if k: nat :| k < |last| && last[k] == row {
      assert IsCharge(first, documents, n, k, row);
    }
    if d: nat, k: nat :| IsCharge(first, documents, d, k, row) {
      assert if d == n then last[k] == row else IsCharge(first, documents[..n], d, k, row);
    }
  }

  /** Charge rows are exactly the commanded charges, each pointing at the row of its document. */
  lemma {:induction false} ChargesComplete(first: nat, documents: seq<Document>, row: ChargeRow)
    ensures row in ChargeRows(first, documents) <==> IsSomeCharge(first, documents, row)
    decreases |documents|
  {
    if documents != [] {
      ChargesComplete(first, documents[..|documents| - 1], row);
      ChargesOfLast(first, documents, row);
    }
  }

  lemma InsertKeeps(subs: Submissions, invoices: Invoices, c: Command, submission: SubmissionId, invoice: InvoiceId,
                    partner: Option<PartnerId>)
    requires UniqueSubmissions(subs) && Paired(subs, invoices)
    requires !Found(subs, c) && !MailTaken(subs, c.mail) && submission !in subs && invoice !in invoices
    ensures UniqueSubmissions(subs[submission := Submission(c.key, c.content, c.mail, c.files)])
    ensures Paired(subs[submission := Submission(c.key, c.content, c.mail, c.files)],
                   invoices[invoice := InvoiceRow(c, submission, partner)])
  {
    var subs' := subs[submission := Submission(c.key, c.content, c.mail, c.files)];
    var invoices' := invoices[invoice := InvoiceRow(c, submission, partner)];
    forall i | i in subs
      ensures !Matches(subs, c, i)
    {
    }
    forall i | i in subs'
      ensures HasInvoice(invoices', i)
    {
      if i == submission {
        assert InvoiceOf(invoices', i, invoice);
      } else {
        assert HasInvoice(invoices, i);
        var v :| InvoiceOf(invoices, i, v);
        assert InvoiceOf(invoices', i, v);
      }
    }
  }

  class InvoiceIntakeRepository {
    var t: Tables
    const normalize: string -> string

    constructor (normalize: string -> string)
      ensures t == Tables(map[], map[], map[], [], []) && this.normalize == normalize && Valid(t)
    {
      t := Tables(map[], map[], map[], [], []);
      this.normalize := normalize;
    }

    /** Find by normalized name or document number, otherwise create. */
    method FindOrCreatePartner(m: Metadata, newId: PartnerId) returns (r: Result<Option<PartnerId>, Error>)
      requires Valid(t) && newId !in t.partners
      modifies this
      ensures Valid(t) && t == old(t).(partners := t.partners)
      ensures !NamesPartner(m) ==> r == Ok(None) && t == old(t)
      ensures r.Err? <==> PartnerRefused(old(t).partners, normalize, m)
      ensures r.Err? ==> r == Err(ConstraintViolated) && t == old(t)
      ensures NamesPartner(m) && r.Ok? ==>
                var name := normalize(PartnerName(m));
                if Known(old(t).partners, name, m) then
                  && r.value.Some? && r.value.value in t.partners && IsPartner(t.partners[r.value.value], name, m)
                  && t == old(t)
                else
                  && r == Ok(Some(newId))
                  && t.partners == old(t).partners[newId := Partner(name, PartnerName(m), m.partnerDocument)]
    {
      if !NamesPartner(m) {
        return Ok(None);
      }
      var name := normalize(PartnerName(m));
      if i :| i in t.partners && IsPartner(t.partners[i], name, m) {
        return Ok(Some(i));
      }
      PartnerInsertIff(t.partners, newId, name, m);
      if m.partnerDocument == Some("") && exists i :: i in t.partners && t.partners[i].document == Some("") {
        return Err(ConstraintViolated);
      }
      t := t.(partners := t.partners[newId := Partner(name, PartnerName(m), m.partnerDocument)]);
      return Ok(Some(newId));
    }

    /** One submission per key and per content. `KeyReused` needs a row with the key and other content; when
        the content is known too, the database may return either row. A constraint violation rolls back. */
    method CreateOrGet(c: Command, newPartner: PartnerId, newSubmission: SubmissionId, newInvoice: InvoiceId)
      returns (r: Result<(InvoiceId, bool), Error>)
      requires Valid(t) && newPartner !in t.partners && newSubmission !in t.submissions && newInvoice !in t.invoices
      modifies this
      ensures Valid(t)
      ensures r.Ok? ==> r.value.0 in t.invoices && t.submissions[t.invoices[r.value.0].submission].content == c.content
      ensures r.Err? || !r.value.1 ==> t == old(t)
      ensures r.Ok? && r.value.1 <==> !Found(old(t).submissions, c) && r != Err(ConstraintViolated)
      ensures r == Err(KeyReused) ==> KeyTaken(old(t).submissions, c)
      ensures KeyTaken(old(t).submissions, c) && !ContentKnown(old(t).submissions, c) ==> r == Err(KeyReused)
      ensures ContentKnown(old(t).submissions, c) && !KeyTaken(old(t).submissions, c) ==> r.Ok? && !r.value.1
      ensures r == Err(ConstraintViolated) <==>
                !Found(old(t).submissions, c)
                && (MailTaken(old(t).submissions, c.mail) || PartnerRefused(old(t).partners, normalize, c.metadata))
      ensures r.Ok? || r == Err(KeyReused) || r == Err(ConstraintViolated)
      ensures r.Ok? && r.value.1 ==>
                && r.value.0 == newInvoice
                && t.submissions == old(t).submissions[newSubmission := Submission(c.key, c.content, c.mail, c.files)]
                && newInvoice in t.invoices
                && var partner := t.invoices[newInvoice].partner;
                && t.invoices == old(t).invoices[newInvoice := InvoiceRow(c, newSubmission, partner)]
                && (partner.Some? <==> NamesPartner(c.metadata))
                && (partner.Some? ==>
                      && partner.value in t.partners
                      && IsPartner(t.partners[partner.value], normalize(PartnerName(c.metadata)), c.metadata))
                && t.documents == old(t).documents + DocumentRows(newInvoice, c.metadata.documents)
                && t.charges == old(t).charges + ChargeRows(|old(t).documents|, c.metadata.documents)
    {
      if i :| i in t.submissions && Matches(t.submissions, c, i) {
        r := Existing(c, i);
        return r;
      }
      var was := t;
      var partner := FindOrCreatePartner(c.metadata, newPartner);
      if partner.Err? {
        return Err(partner.error);
      }
      if c.mail.Some? && exists i :: i in t.submissions && t.submissions[i].mail == c.mail {
        t := was;
        return Err(ConstraintViolated);
      }
      InsertKeeps(t.submissions, t.invoices, c, newSubmission, newInvoice, partner.value);
      AddSubmission(c, newSubmission);
      t := t.(invoices := t.invoices[newInvoice := InvoiceRow(c, newSubmission, partner.value)]);
      AddDocuments(newInvoice, c.metadata.documents);
      return Ok((newInvoice, true));
    }

    /** What the transaction answers for a matching row that the database returned. */
    method Existing(c: Command, i: SubmissionId) returns (r: Result<(InvoiceId, bool), Error>)
      requires Valid(t) && Matches(t.submissions, c, i)
      ensures r == Err(KeyReused) <==> t.submissions[i].key == c.key && t.submissions[i].content != c.content
      ensures r != Err(KeyReused) ==>
                r.Ok? && !r.value.1 && r.value.0 in t.invoices && t.invoices[r.value.0].submission == i
    {
      if t.submissions[i].key == c.key && t.submissions[i].content != c.content {
        return Err(KeyReused);
      }
      assert HasInvoice(t.invoices, i);
      if v :| v in t.invoices && InvoiceOf(t.invoices, i, v) {
        return Ok((v, false));
      }
      return Err(MissingInvoice);
    }

    /** The submission row and then one row for each file. */
    method AddSubmission(c: Command, id: SubmissionId)
      modifies this
      ensures t == old(t).(submissions := old(t).submissions[id := Submission(c.key, c.content, c.mail, c.files)])
    {
      t := t.(submissions := t.submissions[id := Submission(c.key, c.content, c.mail, [])]);
      for n := 0 to |c.files|
        invariant id in t.submissions && t.submissions[id] == Submission(c.key, c.content, c.mail, c.files[..n])
        invariant t == old(t).(submissions := old(t).submissions[id := t.submissions[id]])
      {
        var row := t.submissions[id];
        t := t.(submissions := t.submissions[id := row.(files := row.files + [c.files[n]])]);
      }
      assert c.files[..|c.files|] == c.files;
    }

    method AddDocuments(invoice: InvoiceId, documents: seq<Document>)
      modifies this
      ensures t == old(t).(documents := old(t).documents + DocumentRows(invoice, documents),
                           charges := old(t).charges + ChargeRows(|old(t).documents|, documents))
    {
      for d := 0 to |documents|
        invariant t == old(t).(documents := old(t).documents + DocumentRows(invoice, documents[..d]),
                               charges := old(t).charges + ChargeRows(|old(t).documents|, documents[..d]))
      {
        ghost var before := t;
        var document := |t.documents|;
        t := t.(documents := t.documents + [DocumentRow(invoice, documents[d].number, documents[d].amount)]);
        for k := 0 to |documents[d].charges|
          invariant t == before.(documents := before.documents + DocumentRows(invoice, documents)[d..d + 1],
                                 charges := before.charges + ChargesOf(document, documents[d].charges)[..k])
        {
          t := t.(charges := t.charges + [ChargeRow(document, documents[d].charges[k].name,
                                                    documents[d].charges[k].amount)]);
        }
        assert documents[..d + 1][..d] == documents[..d];
      }
      assert documents[..|documents|] == documents;
    }
  }

  predicate HasInvoiceFile(files: seq<File>) {
    exists i :: 0 <= i < |files| && files[i].role.InvoiceFile?
  }

  /** Intake for both routes: every accepted command leaves the selection job of its invoice behind. */
  class InvoiceIntakeService {
    const repository: InvoiceIntakeRepository
    var jobs: set<JobKey>

    constructor (repository: InvoiceIntakeRepository)
      ensures this.repository == repository && jobs == {}
    {
      this.repository := repository;
      jobs := {};
    }

    method Submit(c: Command, newPartner: PartnerId, newSubmission: SubmissionId, newInvoice: InvoiceId)
      returns (r: Result<(InvoiceId, bool), Error>)
      requires Valid(repository.t) && newPartner !in repository.t.partners
      requires newSubmission !in repository.t.submissions && newInvoice !in repository.t.invoices
      modifies this, repository
      ensures Valid(repository.t)
      ensures r == Err(NoInvoiceFile) <==> !HasInvoiceFile(c.files)
      ensures r.Err? ==> jobs == old(jobs) && repository.t == old(repository.t)
      ensures r.Ok? ==>
                && jobs == old(jobs) + {SelectTariffs(r.value.0)} && r.value.0 in repository.t.invoices
                && repository.t.submissions[repository.t.invoices[r.value.0].submission].content == c.content
      ensures r.Ok? && !r.value.1 ==> repository.t == old(repository.t) && Found(old(repository.t).submissions, c)
    {
      if !exists i :: 0 <= i < |c.files| && c.files[i].role.InvoiceFile? {
        return Err(NoInvoiceFile);
      }
      r := repository.CreateOrGet(c, newPartner, newSubmission, newInvoice);
      if r.Ok? {
        jobs := jobs + {SelectTariffs(r.value.0)};
      }
    }
  }
}
