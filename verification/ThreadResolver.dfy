/** Bounded e-mail thread context: related messages, newest first, cut by count and by characters. */
module ThreadResolver {
  import opened Prelude

  datatype Message = Message(locator: nat, messageId: Option<string>, inReplyTo: Option<string>,
                             references: seq<string>,
                             subject: string, participants: set<string>, received: Option<int>,
                             header: Option<int>, size: nat)

  datatype Context = Context(history: seq<Message>, totalCharacters: nat, truncated: bool)

  /** Instants in UTC; a message without date sorts before every date. */
  function Timestamp(m: Message, least: int): int {
    if m.received.Some? then m.received.value else if m.header.Some? then m.header.value else least
  }

  predicate Mentions(m: Message, id: Option<string>) {
    id.Some? && id.value != "" && (m.inReplyTo == id || id.value in m.references)
  }

  /** `normalize` is the subject normalisation. */
  predicate Related(normalize: string -> string, current: Message, candidate: Message) {
    || Mentions(current, candidate.messageId)
    || Mentions(candidate, current.messageId)
    || (normalize(current.subject) != "" && normalize(current.subject) == normalize(candidate.subject)
        && current.participants * candidate.participants != {})
  }

  lemma RelatedIsSymmetric(normalize: string -> string, a: Message, b: Message)
    ensures Related(normalize, a, b) <==> Related(normalize, b, a)
  {
    assert a.participants * b.participants == b.participants * a.participants;
  }

  /** The received date counts before the header date; without either a message is the oldest. */
  lemma TimestampMeans(m: Message, least: int)
    ensures m.received.Some? ==> Timestamp(m, least) == m.received.value
    ensures m.received.None? && m.header.Some? ==> Timestamp(m, least) == m.header.value
    ensures m.received.None? && m.header.None? ==> Timestamp(m, least) == least
  {
  }

  /** One message answers or refers to the other by a message identifier that is not empty. */
  predicate RefersTo(m: Message, other: Message) {
    other.messageId.Some? && other.messageId.value != ""
    && (m.inReplyTo == other.messageId || other.messageId.value in m.references)
  }

  /** Messages are related exactly if one refers to the other, or they have a common participant and the same
      normalized subject, which is not empty. */
  lemma RelatedMeans(normalize: string -> string, a: Message, b: Message)
    ensures Related(normalize, a, b)
            <==> RefersTo(a, b) || RefersTo(b, a)
                 || ((exists who :: who in a.participants && who in b.participants)
                     && normalize(a.subject) == normalize(b.subject) != "")
  {
    if who :| who in a.participants && who in b.participants {
      assert who in a.participants * b.participants;
    }
    if a.participants * b.participants != {} {
      var who :| who in a.participants * b.participants;
    }
  }

  /** The candidates are the related messages other than the current one, each as often as it was fetched. */
  lemma {:induction false} CandidatesMean(normalize: string -> string, current: Message, fetched: seq<Message>,
                                          m: Message)
    ensures multiset(Candidates(normalize, current, fetched))[m]
            == if m.locator != current.locator && Related(normalize, current, m) then multiset(fetched)[m] else 0
  {
    if fetched != [] {
      CandidatesMean(normalize, current, fetched[1..], m);
      assert fetched == [fetched[0]] + fetched[1..];
    }
  }

  // ----- sorted(..., reverse=True) -----

  function Insert(m: Message, ms: seq<Message>, least: int): seq<Message> {
    if ms == [] || Timestamp(ms[0], least) <= Timestamp(m, least) then [m] + ms
    else [ms[0]] + Insert(m, ms[1..], least)
  }

  /** Newest first; equal instants keep their order. */
  function Newest(ms: seq<Message>, least: int): seq<Message> {
    if ms == [] then [] else Insert(ms[0], Newest(ms[1..], least), least)
  }

  ghost predicate Descending(ms: seq<Message>, least: int) {
    forall i, j :: 0 <= i < j < |ms| ==> Timestamp(ms[j], least) <= Timestamp(ms[i], least)
  }

  function OfInstant(ms: seq<Message>, t: int, least: int): seq<Message> {
    if ms == [] then []
    else (if Timestamp(ms[0], least) == t then [ms[0]] else []) + OfInstant(ms[1..], t, least)
  }

  lemma {:induction false} InsertPermutes(m: Message, ms: seq<Message>, least: int)
    ensures multiset(Insert(m, ms, least)) == multiset{m} + multiset(ms)
  {
    if ms != [] && Timestamp(ms[0], least) > Timestamp(m, least) {
      InsertPermutes(m, ms[1..], least);
      assert ms == [ms[0]] + ms[1..];
    }
  }

  lemma {:induction false} InsertSorts(m: Message, ms: seq<Message>, least: int)
    requires Descending(ms, least)
    ensures Descending(Insert(m, ms, least), least)
  {
    if ms != [] && Timestamp(ms[0], least) > Timestamp(m, least) {
      InsertSorts(m, ms[1..], least);
      InsertPermutes(m, ms[1..], least);
      var rest := Insert(m, ms[1..], least);
      forall i | 0 <= i < |rest|
        ensures Timestamp(rest[i], least) <= Timestamp(ms[0], least)
      {
        assert rest[i] in multiset(rest);
      }
    }
  }

  lemma {:induction false} InsertStable(m: Message, ms: seq<Message>, least: int, t: int)
    requires Descending(ms, least)
    ensures OfInstant(Insert(m, ms, least), t, least) == OfInstant([m], t, least) + OfInstant(ms, t, least)
  {
    if ms == [] || Timestamp(ms[0], least) <= Timestamp(m, least) {
    } else {
      InsertStable(m, ms[1..], least, t);
      assert ms == [ms[0]] + ms[1..];
    }
  }

  lemma {:induction false} NewestSorts(ms: seq<Message>, least: int)
    ensures Descending(Newest(ms, least), least) && multiset(Newest(ms, least)) == multiset(ms)
  {
    if ms != [] {
      NewestSorts(ms[1..], least);
      InsertSorts(ms[0], Newest(ms[1..], least), least);
      InsertPermutes(ms[0], Newest(ms[1..], least), least);
      assert ms == [ms[0]] + ms[1..];
    }
  }

  lemma {:induction false} NewestIsStable(ms: seq<Message>, least: int, t: int)
    ensures OfInstant(Newest(ms, least), t, least) == OfInstant(ms, t, least)
  {
    if ms != [] {
      NewestIsStable(ms[1..], least, t);
      NewestSorts(ms[1..], least);
      InsertStable(ms[0], Newest(ms[1..], least), least, t);
      assert OfInstant([ms[0]], t, least) == if Timestamp(ms[0], least) == t then [ms[0]] else [];
    }
  }

  // ----- selection -----

  function Characters(ms: seq<Message>): nat {
    if ms == [] then 0 else Characters(ms[..|ms| - 1]) + ms[|ms| - 1].size
  }

  /** The size of a selection is the sum of the sizes of its messages. */
  lemma {:induction false} CharactersAdd(a: seq<Message>, m: Message)
    ensures Characters(a + [m]) == Characters(a) + m.size && Characters([]) == 0
  {
    assert (a + [m])[..|a|] == a;
  }

  function Reversed(ms: seq<Message>): (r: seq<Message>)
    ensures |r| == |ms| && forall i :: 0 <= i < |r| ==> r[i] == ms[|ms| - 1 - i]
  {
    seq(|ms|, i requires 0 <= i < |ms| => ms[|ms| - 1 - i])
  }

  function Candidates(normalize: string -> string, current: Message, candidates: seq<Message>): seq<Message> {
    if candidates == [] then []
    else
      (if candidates[0].locator != current.locator && Related(normalize, current, candidates[0])
       then [candidates[0]] else [])
      + Candidates(normalize, current, candidates[1..])
  }

  /** `k` messages fit both bounds and k + 1 do not. */
  ghost predicate LongestFit(related: seq<Message>, maxMessages: nat, maxCharacters: nat, k: nat) {
    && k <= |related| && k <= maxMessages && Characters(related[..k]) <= maxCharacters
    && (k < |related| && k < maxMessages ==> Characters(related[..k + 1]) > maxCharacters)
  }

  method ResolveThreadContext(normalize: string -> string, least: int, current: Message, candidates: seq<Message>,
                              maxMessages: int, maxCharacters: int)
    returns (r: Option<Context>)
    ensures r.None? <==> maxMessages < 1 || maxCharacters < 1
    ensures r.Some? ==>
              var related := Newest(Candidates(normalize, current, candidates), least);
              var k := |r.value.history|;
              && LongestFit(related, maxMessages, maxCharacters, k)
              && r.value.history == Reversed(related[..k])
              && r.value.totalCharacters == Characters(related[..k])
              && (r.value.truncated <==> k < |related|)
  {
    if maxMessages < 1 || maxCharacters < 1 {
      return None;
    }
    var related := Newest(Candidates(normalize, current, candidates), least);
    var selected: seq<Message> := [];
    var total: nat := 0;
    var truncated := |related| > maxMessages;
    var bound := if |related| <= maxMessages then |related| else maxMessages;
    for i := 0 to bound
      invariant selected == related[..i] && total == Characters(related[..i]) && total <= maxCharacters
      invariant truncated <==> |related| > maxMessages
    {
      assert related[..i + 1][..i] == related[..i];
      if total + related[i].size > maxCharacters {
        truncated := true;
        break;
      }
      selected := selected + [related[i]];
      total := total + related[i].size;
    }
    return Some(Context(Reversed(selected), total, truncated));
  }

  lemma {:induction false} CharactersGrow(ms: seq<Message>, j: nat, k: nat)
    requires j <= k <= |ms|
    ensures Characters(ms[..j]) <= Characters(ms[..k])
    decreases k
  {
    if j < k {
      assert ms[..k][..k - 1] == ms[..k - 1];
      CharactersGrow(ms, j, k - 1);
    }
  }

  /** The selection is really the longest: a prefix fits both bounds exactly when it is no longer. */
  lemma LongestFitIsMaximal(related: seq<Message>, maxMessages: nat, maxCharacters: nat, k: nat, j: nat)
    requires LongestFit(related, maxMessages, maxCharacters, k) && j <= |related|
    ensures j <= k <==> j <= maxMessages && Characters(related[..j]) <= maxCharacters
  {
    if j <= k { CharactersGrow(related, j, k); } else { CharactersGrow(related, k + 1, j); }
  }

  /** The reversed prefix of a newest-first list is oldest first. */
  lemma HistoryIsChronological(related: seq<Message>, least: int, k: nat, i: nat, j: nat)
    requires Descending(related, least) && k <= |related| && i < j < k
    ensures Timestamp(Reversed(related[..k])[i], least) <= Timestamp(Reversed(related[..k])[j], least)
  {
  }
}
