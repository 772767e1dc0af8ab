/** Classification, movement and human review of one e-mail row, and the repository that updates rows. */
module EmailClassification {
  import opened Prelude
  import opened PowersOfTen
  import opened Decimals
  import opened Rounding

  type MessageId = nat
  type Time = int

  datatype Class = INVOICE | DUE_NOTICE | GENERAL | MANUAL_REVIEW

  datatype Status = Ingested | Classified | InReview | Moved | Failed

  datatype Locator = Locator(folder: string, uidvalidity: nat, uid: nat)

  datatype Output = Output(category: Class, confidence: Dec, partner: Option<string>, document: Option<string>,
                           invoiceAttachments: seq<nat>, supportingAttachments: seq<nat>, summary: string)

  /** What classification writes, once. Confidence and threshold are stored with four decimals. */
  datatype Verdict = Verdict(confidence: Dec, threshold: Dec, partner: Option<string>, document: Option<string>,
                             invoiceAttachments: seq<nat>, supportingAttachments: seq<nat>, summary: string, call: nat)

  datatype Review = Review(reviewer: nat, note: Option<string>, at: Time)

  datatype Mail = Mail(category: Option<Class>, verdict: Option<Verdict>, locator: Locator, movedAt: Option<Time>,
                       status: Status, review: Option<Review>, error: Option<(string, string)>)

  datatype Error = NotFound | Incomplete | NotConclusive | NotAwaitingReview

  function Fresh(l: Locator): Mail {
    Mail(None, None, l, None, Ingested, None, None)
  }

  predicate Conclusive(m: Mail) {
    m.category.Some? && m.category.value != MANUAL_REVIEW
  }

  // ----- one row -----

  /** The class the service stores: below the threshold a human decides. */
  function Effective(o: Output, threshold: Dec): Class {
    if Less(o.confidence, threshold) then MANUAL_REVIEW else o.category
  }

  function Stored(d: Dec): Dec {
    ToScale(d, 4, HalfUpMode)
  }

  function VerdictOf(o: Output, threshold: Dec, call: nat): Verdict {
    Verdict(Stored(o.confidence), Stored(threshold), o.partner, o.document, o.invoiceAttachments,
            o.supportingAttachments, o.summary, call)
  }

  function SaveRow(m: Mail, o: Output, effective: Class, threshold: Dec, call: nat): Mail {
    if m.category.Some? then m
    else m.(category := Some(effective), verdict := Some(VerdictOf(o, threshold, call)),
            status := if effective == MANUAL_REVIEW then InReview else Classified, error := None)
  }

  function MovedRow(m: Mail, l: Locator, now: Time): Mail {
    if m.movedAt.Some? then m
    else m.(locator := l, movedAt := Some(now), status := if m.category == Some(MANUAL_REVIEW) then InReview else Moved,
            error := None)
  }

  function ErrorRow(m: Mail, code: string, detail: string): Mail {
    m.(status := Failed, error := Some((if |code| <= 64 then code else code[..64],
                                        if |detail| <= 4000 then detail else detail[..4000])))
  }

  function ResolveRow(m: Mail, category: Class, review: Review): Mail {
    m.(category := Some(category), status := Classified, review := Some(review), movedAt := None, error := None)
  }

  // ----- what every stored row satisfies -----

  /** The stored numbers justify a conclusive class unless a human gave it. */
  ghost predicate Justified(m: Mail) {
    Conclusive(m) ==>
      m.review.Some? || (m.verdict.Some? && !Less(m.verdict.value.confidence, m.verdict.value.threshold))
  }

  ghost predicate MailInv(m: Mail) {
    && (m.category.Some? <==> m.verdict.Some?)
    && (m.status.Ingested? ==> m.category.None?)
    && (m.status.Classified? ==> Conclusive(m) && m.movedAt.None?)
    && (m.status.InReview? ==> m.category == Some(MANUAL_REVIEW))
    && (m.status.Moved? ==> Conclusive(m) && m.movedAt.Some?)
    && (m.category.None? ==> m.movedAt.None? && m.review.None?)
    && (m.review.Some? ==> Conclusive(m))
    && Justified(m)
  }

  /** How a row may change, over any number of operations: the verdict is written once; a class once
      given changes only from manual review to a conclusive class, by a human; a conclusive class is final. */
  predicate Follows(a: Mail, b: Mail) {
    && (a.verdict.Some? ==> b.verdict == a.verdict)
    && (a.category.Some? ==> b.category.Some?)
    && (Conclusive(a) ==> b.category == a.category && b.review == a.review)
    && (a.category.Some? && b.category != a.category ==>
          a.category == Some(MANUAL_REVIEW) && b.review.Some? && Conclusive(b))
  }

  lemma FollowsChain(a: Mail, b: Mail, c: Mail)
    requires Follows(a, b) && Follows(b, c)
    ensures Follows(a, c)
  {
  }

  /** Rounding to four decimals keeps the order of confidence and threshold. */
  lemma StoredOrder(confidence: Dec, threshold: Dec)
    requires !Less(confidence, threshold)
    ensures !Less(Stored(confidence), Stored(threshold))
  {
    OrderValue(confidence, threshold);
    ScaleMonotoneLaw(threshold, confidence, 4, HalfUpMode);
    OrderValue(Stored(confidence), Stored(threshold));
  }

  /** What a first classification records of the AI's answer: everything as answered, except that confidence and
      threshold are rounded half up to four decimals and a confidence below the threshold means manual review. */
  lemma FirstClassificationRecords(m: Mail, o: Output, threshold: Dec, call: nat)
    requires m.category.None?
    ensures var after := SaveRow(m, o, Effective(o, threshold), threshold, call);
            && after.category == Some(if V(o.confidence) < V(threshold) then MANUAL_REVIEW else o.category)
            && after.status == (if after.category == Some(MANUAL_REVIEW) then InReview else Classified)
            && after.error == None && after.locator == m.locator
            && after.movedAt == m.movedAt && after.review == m.review
            && after.verdict.Some?
            && var v := after.verdict.value;
               && v.partner == o.partner && v.document == o.document
               && v.invoiceAttachments == o.invoiceAttachments && v.supportingAttachments == o.supportingAttachments
               && v.summary == o.summary && v.call == call
               && IsHalfUp(V(o.confidence), V(v.confidence), P(-4)) && IsHalfUp(V(threshold), V(v.threshold), P(-4))
               && v.confidence.exp == v.threshold.exp == -4
  {
    OrderValue(o.confidence, threshold);
    ToScaleRounds(o.confidence, 4, HalfUpMode);
    ToScaleRounds(threshold, 4, HalfUpMode);
  }

  /** The first move records where the message is and when it came there. */
  lemma FirstMoveRecords(m: Mail, l: Locator, now: Time)
    requires m.movedAt.None?
    ensures var after := MovedRow(m, l, now);
            && after.locator == l && after.movedAt == Some(now) && after.error == None
            && after.status == (if m.category == Some(MANUAL_REVIEW) then InReview else Moved)
            && after.category == m.category && after.verdict == m.verdict && after.review == m.review
  {
  }

  /** A failed move leaves the row where it is, with the status ERROR and a bounded report. */
  lemma FailureRecords(m: Mail, code: string, detail: string)
    ensures var after := ErrorRow(m, code, detail);
            && after.status == Failed && after.error.Some?
            && after.error.value.0 <= code && |after.error.value.0| == (if |code| <= 64 then |code| else 64)
            && after.error.value.1 <= detail && |after.error.value.1| == (if |detail| <= 4000 then |detail| else 4000)
            && after.locator == m.locator && after.movedAt == m.movedAt && after.category == m.category
            && after.verdict == m.verdict && after.review == m.review
  {
  }

  /** A review gives the class, makes the message wait for its move again and clears an earlier error. */
  lemma ReviewRecords(m: Mail, category: Class, review: Review)
    ensures var after := ResolveRow(m, category, review);
            && after.category == Some(category) && after.review == Some(review) && after.status == Classified
            && after.movedAt == None && after.error == None && after.locator == m.locator && after.verdict == m.verdict
  {
  }

  lemma SaveKeeps(m: Mail, o: Output, threshold: Dec, call: nat)
    requires MailInv(m)
    ensures var m' := SaveRow(m, o, Effective(o, threshold), threshold, call);
            MailInv(m') && Follows(m, m') && m'.category.Some?
  {
    if !Less(o.confidence, threshold) {
      StoredOrder(o.confidence, threshold);
    }
  }

  lemma MoveKeeps(m: Mail, l: Locator, now: Time)
    requires MailInv(m) && m.category.Some?
    ensures MailInv(MovedRow(m, l, now)) && Follows(m, MovedRow(m, l, now)) && MovedRow(m, l, now).movedAt.Some?
  {
  }

  lemma ErrorKeeps(m: Mail, code: string, detail: string)
    requires MailInv(m)
    ensures MailInv(ErrorRow(m, code, detail)) && Follows(m, ErrorRow(m, code, detail))
    ensures ErrorRow(m, code, detail).movedAt == m.movedAt
  {
  }

  lemma ResolveKeeps(m: Mail, category: Class, review: Review)
    requires MailInv(m) && m.category == Some(MANUAL_REVIEW) && category != MANUAL_REVIEW
    ensures MailInv(ResolveRow(m, category, review)) && Follows(m, ResolveRow(m, category, review))
  {
  }

  /** A message that goes to review because its confidence is below the threshold is stored with equal numbers
      exactly when the confidence lies at most half of the fourth decimal below the stored threshold. */
  lemma StoredEqualIff(confidence: Dec, threshold: Dec)
    requires V(confidence) >= 0.0
    ensures Less(confidence, threshold) && Equal(Stored(confidence), Stored(threshold))
            <==> V(Stored(threshold)) - P(Place(4)) / 2.0 <= V(confidence) < V(threshold)
  {
    var y, z := V(Stored(confidence)), V(Stored(threshold));
    OrderValue(confidence, threshold);
    OrderValue(Stored(confidence), Stored(threshold));
    ToScaleRounds(confidence, 4, HalfUpMode);
    ToScaleRounds(threshold, 4, HalfUpMode);
    MultiplesApart(y, z, P(Place(4)));
    if Less(confidence, threshold) {
      ScaleMonotoneLaw(confidence, threshold, 4, HalfUpMode);
    }
  }

  /** For example 0.84996 is below 0.85 and goes to review, but is stored as 0.8500. */
  lemma StoredNumbersHideTheGap()
    ensures var confidence, threshold := Dec(false, 84996, -5), Dec(false, 85, -2);
            Less(confidence, threshold) && Equal(Stored(confidence), Stored(threshold))
  {
    var confidence, threshold := Dec(false, 84996, -5), Dec(false, 85, -2);
    assert Scale(85, 3) == 10 * Scale(85, 2) == 100 * Scale(85, 1) == 85000;
    assert AtExp(threshold, -5) == 85000;
    assert Drop(84996, 0) == 84996 && HalfUp(84996, 1) == 8500;
    assert Scale(85, 2) == 8500;
    assert Stored(confidence) == Dec(false, 8500, -4) && Stored(threshold) == Dec(false, 8500, -4);
  }

  // ----- the repository -----

  class EmailClassificationRepository {
    var rows: map<MessageId, Mail>

    constructor (rows: map<MessageId, Mail>)
      ensures this.rows == rows
    {
      this.rows := rows;
    }

    method SaveClassification(id: MessageId, o: Output, effective: Class, threshold: Dec, call: nat)
      returns (r: Result<Mail, Error>)
      modifies this
      ensures id !in old(rows) ==> r == Err(NotFound) && rows == old(rows)
      ensures id in old(rows) && old(rows)[id].category.Some? && old(rows)[id].verdict.Some? ==>
                r == Ok(old(rows)[id]) && rows == old(rows)
      ensures id in old(rows) && old(rows)[id].category.None? ==>
                rows == old(rows)[id := SaveRow(old(rows)[id], o, effective, threshold, call)] && r == Ok(rows[id])
      ensures r.Err? ==> rows == old(rows)
    {
      if id !in rows {
        return Err(NotFound);
      }
      var model := rows[id];
      if model.category.None? {
        model := model.(category := Some(effective), verdict := Some(VerdictOf(o, threshold, call)));
        model := model.(status := if effective == MANUAL_REVIEW then InReview else Classified);
        model := model.(error := None);
      }
      r := Commit(id, model);
    }

    /** `_record` raises, and the transaction rolls back, when the classification is incomplete. */
    method Commit(id: MessageId, model: Mail) returns (r: Result<Mail, Error>)
      modifies this
      ensures model.category.Some? && model.verdict.Some? ==> r == Ok(model) && rows == old(rows)[id := model]
      ensures model.category.None? || model.verdict.None? ==> r == Err(Incomplete) && rows == old(rows)
    {
      if model.category.None? || model.verdict.None? {
        return Err(Incomplete);
      }
      rows := rows[id := model];
      return Ok(model);
    }

    method MarkMoved(id: MessageId, l: Locator, now: Time) returns (r: Result<Mail, Error>)
      requires id in rows ==> MailInv(rows[id])
      modifies this
      ensures r.Ok? <==> id in old(rows) && old(rows)[id].category.Some?
      ensures r.Ok? ==>
                rows == old(rows)[id := MovedRow(old(rows)[id], l, now)] && r.value == rows[id] && MailInv(rows[id])
      ensures r.Err? ==> rows == old(rows) && r.error == NotFound
    {
      if id !in rows || rows[id].category.None? {
        return Err(NotFound);
      }
      MoveKeeps(rows[id], l, now);
      var model := rows[id];
      if model.movedAt.None? {
        model := model.(locator := l, movedAt := Some(now));
        model := model.(status := if model.category == Some(MANUAL_REVIEW) then InReview else Moved, error := None);
      }
      r := Commit(id, model);
    }

    method MarkMovementError(id: MessageId, code: string, detail: string) returns (r: Result<Mail, Error>)
      requires id in rows ==> MailInv(rows[id])
      modifies this
      ensures r.Ok? <==> id in old(rows) && old(rows)[id].category.Some?
      ensures r.Ok? ==>
                && rows == old(rows)[id := ErrorRow(old(rows)[id], code, detail)]
                && r.value == rows[id] && MailInv(rows[id])
      ensures r.Err? ==> rows == old(rows) && r.error == if id in old(rows) then Incomplete else NotFound
    {
      if id !in rows {
        return Err(NotFound);
      }
      ErrorKeeps(rows[id], code, detail);
      r := Commit(id, ErrorRow(rows[id], code, detail));
    }

    method ResolveManualReview(id: MessageId, category: Class, review: Review) returns (r: Result<Mail, Error>)
      requires id in rows ==> MailInv(rows[id])
      modifies this
      ensures r.Ok? <==> category != MANUAL_REVIEW && id in old(rows) && old(rows)[id].category == Some(MANUAL_REVIEW)
      ensures r.Ok? ==>
                && rows == old(rows)[id := ResolveRow(old(rows)[id], category, review)]
                && r.value == rows[id] && MailInv(rows[id])
      ensures r.Err? ==> rows == old(rows)
                         && r.error == if category == MANUAL_REVIEW then NotConclusive
                                       else if id !in old(rows) then NotFound else NotAwaitingReview
    {
      if category == MANUAL_REVIEW {
        return Err(NotConclusive);
      }
      if id !in rows {
        return Err(NotFound);
      }
      if rows[id].category != Some(MANUAL_REVIEW) {
        return Err(NotAwaitingReview);
      }
      ResolveKeeps(rows[id], category, review);
      r := Commit(id, ResolveRow(rows[id], category, review));
    }
  }
}
