/** One e-mail ingestion: preserve the blobs, insert the row unless it is a duplicate, and take the blobs
    back when no row was created. Concurrency is the subject of BlobAgreement. */
module EmailIngestion {
  import opened Prelude

  type Key = nat
  type MessageId = nat

  datatype Attachment = Attachment(filename: string, mimeType: string, contentId: Option<string>, payload: string)

  datatype Message = Message(raw: string, sender: string, subject: string, attachments: seq<Attachment>)

  datatype Locator = Locator(folder: string, uidvalidity: nat, uid: nat)

  datatype AttachmentRow = AttachmentRow(ordinal: nat, filename: string, mimeType: string, contentId: Option<string>,
                                         size: nat, digest: string, key: Key)

  datatype MailRow = MailRow(serverKey: (string, nat, nat), fingerprint: string, sender: string, subject: string,
                             rawSize: nat, rawDigest: string, rawKey: Key, folder: string,
                             attachments: seq<AttachmentRow>)

  datatype Reason = ByServerKey | ByFingerprint

  datatype Outcome = Outcome(message: MessageId, duplicate: Option<Reason>)

  datatype Error = ProviderError | InvalidLocator | StoreError | DigestChanged | TransactionError | DeleteError

  /** What the surroundings do: which store calls raise or return a different digest, whether the
      transaction fails, and how many deletions succeed before one raises. Call 0 stores the raw message,
      call n the n-th attachment. */
  datatype Faults = Faults(stores: set<nat>, corrupted: set<nat>, transaction: bool, deletions: Option<nat>)

  /** The n-th blob of a message. */
  function Content(m: Message, n: nat): string
    requires n <= |m.attachments|
  {
    if n == 0 then m.raw else m.attachments[n - 1].payload
  }

  predicate ServerKeyTaken(rows: map<MessageId, MailRow>, serverKey: (string, nat, nat)) {
    exists i :: i in rows && rows[i].serverKey == serverKey
  }

  predicate FingerprintTaken(rows: map<MessageId, MailRow>, fingerprint: string) {
    exists i :: i in rows && rows[i].fingerprint == fingerprint
  }

  /** `after` is `before` plus the first `count` blobs of a message under the keys first, first + 1, ... */
  ghost predicate Adds(before: map<Key, string>, after: map<Key, string>, m: Message, first: Key, count: nat) {
    && count <= |m.attachments| + 1
    && (forall k :: k in after <==> k in before || first <= k < first + count)
    && (forall k :: k in before ==> k < first && after[k] == before[k])
    && (forall k :: first <= k < first + count ==> after[k] == Content(m, k - first))
  }

  function Consecutive(first: Key, count: nat): seq<Key> {
    seq(count, i requires 0 <= i < count => first + i)
  }

  /** The error of the first failing call, if any. */
  function FirstFault(f: Faults, n: nat, last: nat): Option<Error>
    requires n <= last + 1
    decreases last + 1 - n
  {
    if n > last then None
    else if n in f.stores then Some(StoreError)
    else if n in f.corrupted then Some(DigestChanged)
    else FirstFault(f, n + 1, last)
  }

  /** The server key is looked up first. */
  function Duplicate(rows: map<MessageId, MailRow>, serverKey: (string, nat, nat), fingerprint: string)
    : Option<Reason>
  {
    if ServerKeyTaken(rows, serverKey) then Some(ByServerKey)
    else if FingerprintTaken(rows, fingerprint) then Some(ByFingerprint)
    else None
  }

  /** How an ingestion ends, before compensation. */
  function Ending(rows: map<MessageId, MailRow>, m: Message, serverKey: (string, nat, nat), fingerprint: string,
                  f: Faults)
    : Result<Option<Reason>, Error>
  {
    var fault := FirstFault(f, 0, |m.attachments|);
    if fault.Some? then Err(fault.value)
    else if f.transaction then Err(TransactionError)
    else Ok(Duplicate(rows, serverKey, fingerprint))
  }

  /** Every blob of the row is stored with the recorded digest and size. */
  ghost predicate Preserved(digest: string -> string, storage: map<Key, string>, row: MailRow) {
    && row.rawKey in storage && digest(storage[row.rawKey]) == row.rawDigest && |storage[row.rawKey]| == row.rawSize
    && forall n :: 0 <= n < |row.attachments| ==> AttachmentPreserved(digest, storage, n, row.attachments[n])
  }

  ghost predicate AttachmentPreserved(digest: string -> string, storage: map<Key, string>, n: nat, a: AttachmentRow) {
    a.ordinal == n && a.key in storage && digest(storage[a.key]) == a.digest && |storage[a.key]| == a.size
  }

  /** The row that a message stored under keys first, first + 1, ... gets. */
  function RowFor(digest: string -> string, fingerprint: string, m: Message, serverKey: (string, nat, nat),
                  folder: string, first: Key): MailRow {
    MailRow(serverKey, fingerprint, m.sender, m.subject, |m.raw|, digest(m.raw), first, folder,
            seq(|m.attachments|,
                n requires 0 <= n < |m.attachments| => RowOf(digest, m.attachments[n], n, first + n + 1)))
  }

  function RowOf(digest: string -> string, a: Attachment, n: nat, key: Key): AttachmentRow {
    AttachmentRow(n, a.filename, a.mimeType, a.contentId, |a.payload|, digest(a.payload), key)
  }

  lemma NewRowPreserved(digest: string -> string, fingerprint: string, m: Message, serverKey: (string, nat, nat),
                        folder: string, first: Key, base: map<Key, string>, storage: map<Key, string>)
    requires Adds(base, storage, m, first, |m.attachments| + 1)
    ensures Preserved(digest, storage, RowFor(digest, fingerprint, m, serverKey, folder, first))
  {
    var row := RowFor(digest, fingerprint, m, serverKey, folder, first);
    forall n | 0 <= n < |row.attachments|
      ensures AttachmentPreserved(digest, storage, n, row.attachments[n])
    {
      assert row.attachments[n] == RowOf(digest, m.attachments[n], n, first + n + 1);
      assert storage[first + n + 1] == Content(m, n + 1);
    }
  }

  /** What the row records of the message, besides the blobs. */
  lemma NewRowRecords(digest: string -> string, fingerprint: string, m: Message, serverKey: (string, nat, nat),
                      folder: string, first: Key, n: nat)
    requires n < |m.attachments|
    ensures var row := RowFor(digest, fingerprint, m, serverKey, folder, first);
            && row.serverKey == serverKey && row.fingerprint == fingerprint && row.folder == folder
            && row.sender == m.sender && row.subject == m.subject
            && row.rawSize == |m.raw| && row.rawDigest == digest(m.raw)
            && |row.attachments| == |m.attachments|
            && var a := row.attachments[n];
               && a.ordinal == n && a.filename == m.attachments[n].filename && a.mimeType == m.attachments[n].mimeType
               && a.contentId == m.attachments[n].contentId
               && a.size == |m.attachments[n].payload| && a.digest == digest(m.attachments[n].payload)
  {
  }

  predicate Fails(f: Faults, n: nat) {
    n in f.stores || n in f.corrupted
  }

  /** How an ingestion ends before compensation: with the first failing store call, then with a failing
      transaction, then as a duplicate by server key before a duplicate by content, else with a new row. */
  lemma EndingMeans(rows: map<MessageId, MailRow>, m: Message, serverKey: (string, nat, nat), fingerprint: string,
                    f: Faults)
    ensures var ending := Ending(rows, m, serverKey, fingerprint, f);
            var stored := forall n :: 0 <= n <= |m.attachments| ==> !Fails(f, n);
            var known := exists i :: i in rows && rows[i].serverKey == serverKey;
            var seen := exists i :: i in rows && rows[i].fingerprint == fingerprint;
            && (ending.Ok? <==> stored && !f.transaction)
            && (ending == Err(TransactionError) <==> stored && f.transaction)
            && (ending == Ok(Some(ByServerKey)) <==> stored && !f.transaction && known)
            && (ending == Ok(Some(ByFingerprint)) <==> stored && !f.transaction && !known && seen)
            && (forall n :: 0 <= n <= |m.attachments| && IsFirstFailure(f, n) ==>
                  ending == Err(if n in f.stores then StoreError else DigestChanged))
  {
    FirstFaultMeans(f, 0, |m.attachments|);
  }

  ghost predicate IsFirstFailure(f: Faults, n: nat) {
    Fails(f, n) && forall k :: 0 <= k < n ==> !Fails(f, k)
  }

  lemma {:induction false} FirstFaultMeans(f: Faults, n: nat, last: nat)
    requires n <= last + 1 && forall k :: 0 <= k < n ==> !Fails(f, k)
    ensures FirstFault(f, n, last).None? <==> forall k :: n <= k <= last ==> !Fails(f, k)
    ensures forall k :: n <= k <= last && IsFirstFailure(f, k) ==>
              FirstFault(f, n, last) == Some(if k in f.stores then StoreError else DigestChanged)
    ensures FirstFault(f, n, last) != Some(TransactionError)
    decreases last + 1 - n
  {
    if n <= last && !Fails(f, n) {
      FirstFaultMeans(f, n + 1, last);
    }
  }

  /** Rows are unique in both identities, and every row is preserved. */
  ghost predicate RowsAgree(digest: string -> string, rows: map<MessageId, MailRow>, storage: map<Key, string>) {
    && (forall i, j :: i in rows && j in rows && i != j ==>
          rows[i].serverKey != rows[j].serverKey && rows[i].fingerprint != rows[j].fingerprint)
    && (forall i :: i in rows ==> Preserved(digest, storage, rows[i]))
  }

  /** The duplicate that `find_duplicate` reports. */
  predicate Reports(rows: map<MessageId, MailRow>, serverKey: (string, nat, nat), fingerprint: string, o: Outcome) {
    && o.message in rows
    && (o.duplicate == Some(ByServerKey) ==> rows[o.message].serverKey == serverKey)
    && (o.duplicate == Some(ByFingerprint) ==> rows[o.message].fingerprint == fingerprint)
  }

  /** The result is the ending that the faults and the existing rows call for. Only a failing deletion
      replaces it. */
  predicate Answers(r: Result<Outcome, Error>, before: map<MessageId, MailRow>, after: map<MessageId, MailRow>,
                    m: Message, serverKey: (string, nat, nat), fingerprint: string, f: Faults) {
    var ending := Ending(before, m, serverKey, fingerprint, f);
    && (Created(r) <==> ending == Ok(None))
    && (r.Ok? ==> ending == Ok(r.value.duplicate) && Reports(after, serverKey, fingerprint, r.value))
    && (r.Err? && f.deletions.None? ==> ending == Err(r.error))
  }

  predicate Reached(r: Result<Outcome, Error>, ending: Result<Option<Reason>, Error>) {
    match r
    case Ok(o) => ending == Ok(o.duplicate)
    case Err(e) => ending == Err(e)
  }

  predicate Created(r: Result<Outcome, Error>) {
    r.Ok? && r.value.duplicate.None?
  }

  lemma UndoAdds(base: map<Key, string>, storage: map<Key, string>, m: Message, first: Key, n: nat)
    requires Adds(base, storage, m, first, n)
    ensures storage - (set k | k in Consecutive(first, n)) == base
  {
    forall k | first <= k < first + n
      ensures k in Consecutive(first, n)
    {
      assert Consecutive(first, n)[k - first] == k;
    }
  }

  class EmailIngestionService {
    var storage: map<Key, string>
    var rows: map<MessageId, MailRow>
    /** Every key published so far is smaller. */
    var nextKey: Key
    const digest: string -> string
    const fingerprint: Message -> string

    constructor (digest: string -> string, fingerprint: Message -> string)
      ensures storage == map[] && rows == map[] && Valid()
      ensures this.digest == digest && this.fingerprint == fingerprint
    {
      storage, rows, nextKey := map[], map[], 0;
      this.digest, this.fingerprint := digest, fingerprint;
    }

    ghost predicate Valid()
      reads this
    {
      (forall k :: k in storage ==> k < nextKey) && RowsAgree(digest, rows, storage)
    }

    /** Fetch, check the locator, preserve. */
    method Ingest(account: string, locator: Locator, fetched: Option<Message>, newId: MessageId, f: Faults)
      returns (r: Result<Outcome, Error>)
      requires Valid() && newId !in rows
      modifies this
      ensures Valid()
      ensures fetched.None? ==> r == Err(ProviderError)
      ensures fetched.Some? && (locator.uidvalidity < 1 || locator.uid < 1) ==> r == Err(InvalidLocator)
      ensures fetched.Some? && locator.uidvalidity >= 1 && locator.uid >= 1 ==>
                Answers(r, old(rows), rows, fetched.value, (account, locator.uidvalidity, locator.uid),
                        fingerprint(fetched.value), f)
      ensures Created(r) ==>
                && r.value.message == newId
                && rows == old(rows)[newId := RowFor(digest, fingerprint(fetched.value), fetched.value,
                                                     (account, locator.uidvalidity, locator.uid),
                                                     locator.folder, old(nextKey))]
                && Adds(old(storage), storage, fetched.value, old(nextKey), |fetched.value.attachments| + 1)
      ensures !Created(r) ==>
                rows == old(rows) && forall k :: k in old(storage) ==> k in storage && storage[k] == old(storage)[k]
      ensures !Created(r) && f.deletions.None? ==> storage == old(storage)
    {
      if fetched.None? {
        return Err(ProviderError);
      }
      if locator.uidvalidity < 1 || locator.uid < 1 {
        return Err(InvalidLocator);
      }
      r := Preserve(fetched.value, (account, locator.uidvalidity, locator.uid), locator.folder, newId, f);
    }

    /** Store, insert, compensate. A created message adds its row and all its blobs; a duplicate or a
        failure adds neither. */
    method Preserve(m: Message, serverKey: (string, nat, nat), folder: string, newId: MessageId, f: Faults)
      returns (r: Result<Outcome, Error>)
      requires Valid() && newId !in rows
      modifies this
      ensures Valid()
      ensures Answers(r, old(rows), rows, m, serverKey, fingerprint(m), f)
      ensures Created(r) ==> r.value.message == newId
      ensures Created(r) ==>
                rows == old(rows)[newId := RowFor(digest, fingerprint(m), m, serverKey, folder, old(nextKey))]
      ensures Created(r) ==> Adds(old(storage), storage, m, old(nextKey), |m.attachments| + 1)
      ensures !Created(r) ==>
                rows == old(rows) && forall k :: k in old(storage) ==> k in storage && storage[k] == old(storage)[k]
      ensures !Created(r) && f.deletions.None? ==> storage == old(storage)
    {
      var storedKeys;
      r, storedKeys := Attempt(m, serverKey, folder, newId, f);
      if !Created(r) {
        UndoAdds(old(storage), storage, m, old(nextKey), |storedKeys|);
        var deleted := DeleteUnreferenced(storedKeys, f.deletions);
        if !deleted {
          r := Err(DeleteError);
        }
      }
    }

    /** Store everything and run the transaction, without compensation. */
    method Attempt(m: Message, serverKey: (string, nat, nat), folder: string, newId: MessageId, f: Faults)
      returns (r: Result<Outcome, Error>, storedKeys: seq<Key>)
      requires Valid() && newId !in rows
      modifies this
      ensures Valid()
      ensures Reached(r, Ending(old(rows), m, serverKey, fingerprint(m), f))
      ensures r.Ok? ==> Reports(rows, serverKey, fingerprint(m), r.value)
      ensures |storedKeys| <= |m.attachments| + 1 && storedKeys == Consecutive(old(nextKey), |storedKeys|)
      ensures Adds(old(storage), storage, m, old(nextKey), |storedKeys|)
      ensures Created(r) ==> |storedKeys| == |m.attachments| + 1 && r.value.message == newId
      ensures rows == if Created(r)
                      then old(rows)[newId := RowFor(digest, fingerprint(m), m, serverKey, folder, old(nextKey))]
                      else old(rows)
    {
      var failure;
      storedKeys, failure := StoreAll(m, f);
      if failure.Some? {
        r := Err(failure.value);
      } else if f.transaction {
        r := Err(TransactionError);
      } else {
        r := GuardedInsert(m, serverKey, folder, newId, storedKeys[0], old(storage));
      }
    }

    /** The transaction: look for a duplicate by server key, then by fingerprint, otherwise insert. */
    method GuardedInsert(m: Message, serverKey: (string, nat, nat), folder: string, newId: MessageId, first: Key,
                         ghost base: map<Key, string>) returns (r: Result<Outcome, Error>)
      requires RowsAgree(digest, rows, storage) && newId !in rows
      requires Adds(base, storage, m, first, |m.attachments| + 1)
      modifies this`rows
      ensures RowsAgree(digest, rows, storage)
      ensures r.Ok? && Reports(rows, serverKey, fingerprint(m), r.value)
      ensures r.value.duplicate == Duplicate(old(rows), serverKey, fingerprint(m))
      ensures rows == if Created(r)
                      then old(rows)[newId := RowFor(digest, fingerprint(m), m, serverKey, folder, first)]
                      else old(rows)
      ensures Created(r) ==> r.value.message == newId
    {
      if i :| i in rows && rows[i].serverKey == serverKey {
        return Ok(Outcome(i, Some(ByServerKey)));
      }
      if i :| i in rows && rows[i].fingerprint == fingerprint(m) {
        return Ok(Outcome(i, Some(ByFingerprint)));
      }
      NewRowPreserved(digest, fingerprint(m), m, serverKey, folder, first, base, storage);
      rows := rows[newId := RowFor(digest, fingerprint(m), m, serverKey, folder, first)];
      return Ok(Outcome(newId, None));
    }

    /** Store the raw message and then every attachment, stopping at the first failure. */
    method StoreAll(m: Message, f: Faults) returns (keys: seq<Key>, failure: Option<Error>)
      requires forall k :: k in storage ==> k < nextKey
      modifies this`storage, this`nextKey
      ensures failure == FirstFault(f, 0, |m.attachments|)
      ensures |keys| <= |m.attachments| + 1 && (failure.None? ==> |keys| == |m.attachments| + 1)
      ensures keys == Consecutive(old(nextKey), |keys|) && nextKey == old(nextKey) + |keys|
      ensures Adds(old(storage), storage, m, old(nextKey), |keys|)
    {
      keys := [];
      for n := 0 to |m.attachments| + 1
        invariant FirstFault(f, 0, |m.attachments|) == FirstFault(f, n, |m.attachments|)
        invariant keys == Consecutive(old(nextKey), n) && nextKey == old(nextKey) + n
        invariant Adds(old(storage), storage, m, old(nextKey), n)
      {
        if n in f.stores {
          return keys, Some(StoreError);
        }
        storage := storage[nextKey := Content(m, n)];
        keys := keys + [nextKey];
        nextKey := nextKey + 1;
        if n in f.corrupted {
          return keys, Some(DigestChanged);
        }
      }
      return keys, None;
    }

    /** Delete in reverse order; false when a deletion raised. */
    method DeleteUnreferenced(keys: seq<Key>, deletions: Option<nat>) returns (deleted: bool)
      modifies this`storage
      ensures deletions.None? ==> deleted
      ensures deleted ==> storage == old(storage) - (set k | k in keys)
      ensures forall k :: k in old(storage) && k !in keys ==> k in storage && storage[k] == old(storage)[k]
      ensures forall k :: k in storage ==> k in old(storage) && storage[k] == old(storage)[k]
    {
      var n := |keys|;
      while n > 0
        invariant 0 <= n <= |keys|
        invariant storage == old(storage) - (set k | k in keys[n..])
      {
        if deletions.Some? && |keys| - n >= deletions.value {
          return false;
        }
        n := n - 1;
        assert keys[n..] == [keys[n]] + keys[n + 1..];
        storage := storage - {keys[n]};
      }
      assert keys[0..] == keys;
      return true;
    }
  }
}
