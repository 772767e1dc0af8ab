/** The files of an invoice submission that comes from an e-mail, and what the AI's answer has to do with them. */
module InvoiceSource {
  import opened Prelude
  import E = EmailClassification
  import opened InvoiceIntake

  datatype Attachment = Attachment(id: nat, filename: string, mimeType: string, size: nat, digest: string,
                                   storageKey: string)

  /** A preserved e-mail with its classification. */
  datatype StoredMail = StoredMail(mail: E.Mail, fingerprint: string, rawSize: nat, rawDigest: string, rawKey: string,
                                   attachments: seq<Attachment>)

  /** The attachments that the classification lists as invoices. */
  function InvoiceIds(m: StoredMail): seq<nat> {
    if m.mail.verdict.Some? then m.mail.verdict.value.invoiceAttachments else []
  }

  /** The raw message comes first, then every attachment in its order. A listed attachment is an invoice file;
      the raw message is one only if none is listed. */
  predicate AreFiles(m: StoredMail, files: seq<File>) {
    && |files| == |m.attachments| + 1
    && files[0].role == (if InvoiceIds(m) == [] then InvoiceFile else Auxiliary)
    && files[0].ordinal == 0 && files[0].filename == "message.eml" && files[0].mimeType == "message/rfc822"
    && files[0].size == m.rawSize && files[0].digest == m.rawDigest && files[0].storageKey == m.rawKey
    && forall n :: 0 <= n < |m.attachments| ==> IsFileOf(m, n, files)
  }

  predicate IsFileOf(m: StoredMail, n: nat, files: seq<File>)
    requires n < |m.attachments| && n + 1 < |files|
  {
    var a, file := m.attachments[n], files[n + 1];
    && file.role == (if a.id in InvoiceIds(m) then InvoiceFile else Auxiliary) && file.ordinal == n + 1
    && file.filename == a.filename && file.mimeType == a.mimeType && file.size == a.size
    && file.digest == a.digest && file.storageKey == a.storageKey
  }

  /** Files and content hash for intake; None when there is no such message of class INVOICE. */
  method SourceFiles(message: Option<StoredMail>) returns (r: Option<(string, seq<File>)>)
    ensures r.Some? <==> message.Some? && message.value.mail.category == Some(E.INVOICE)
    ensures r.Some? ==> r.value.0 == message.value.fingerprint && AreFiles(message.value, r.value.1)
  {
    if message.None? || message.value.mail.category != Some(E.INVOICE) {
      return None;
    }
    var m := message.value;
    var ids := InvoiceIds(m);
    var rawRole := if ids == [] then InvoiceFile else Auxiliary;
    var raw := File(rawRole, 0, "message.eml", "message/rfc822", m.rawSize, m.rawDigest, m.rawKey);
    var files := [raw];
    for n := 0 to |m.attachments|
      invariant |files| == n + 1 && files[0] == raw
      invariant forall k :: 0 <= k < n ==> IsFileOf(m, k, files)
    {
      var a := m.attachments[n];
      var role := if a.id in ids then InvoiceFile else Auxiliary;
      ghost var before := files;
      files := files + [File(role, n + 1, a.filename, a.mimeType, a.size, a.digest, a.storageKey)];
      forall k | 0 <= k < n
        ensures IsFileOf(m, k, files)
      {
        assert IsFileOf(m, k, before);
      }
    }
    return Some((m.fingerprint, files));
  }

  /** However long after the classification and whatever happened to the row since: an attachment has the invoice
      role exactly when the AI listed it as an invoice, and the raw message exactly when it listed none. */
  lemma RolesFollowAnswer(before: E.Mail, o: E.Output, threshold: E.Decimals.Dec, call: nat, m: StoredMail,
                          files: seq<File>)
    requires before.category.None? && AreFiles(m, files)
    requires E.Follows(E.SaveRow(before, o, E.Effective(o, threshold), threshold, call), m.mail)
    ensures files[0].role == InvoiceFile <==> o.invoiceAttachments == []
    ensures forall n :: 0 <= n < |m.attachments| ==>
              (files[n + 1].role == InvoiceFile <==> m.attachments[n].id in o.invoiceAttachments)
  {
    E.FirstClassificationRecords(before, o, threshold, call);
    assert InvoiceIds(m) == o.invoiceAttachments;
    forall n | 0 <= n < |m.attachments|
      ensures files[n + 1].role == InvoiceFile <==> m.attachments[n].id in o.invoiceAttachments
    {
      assert IsFileOf(m, n, files);
    }
  }

  /** If every listed attachment belongs to the message, intake never refuses it for want of an invoice file. */
  lemma HasSomeInvoiceFile(m: StoredMail, files: seq<File>)
    requires AreFiles(m, files)
    requires forall id :: id in InvoiceIds(m) ==> exists n :: 0 <= n < |m.attachments| && m.attachments[n].id == id
    ensures HasInvoiceFile(files)
  {
    if InvoiceIds(m) != [] {
      assert InvoiceIds(m)[0] in InvoiceIds(m);
      var n :| 0 <= n < |m.attachments| && m.attachments[n].id == InvoiceIds(m)[0];
      assert IsFileOf(m, n, files) && files[n + 1].role == InvoiceFile;
    }
  }
}
