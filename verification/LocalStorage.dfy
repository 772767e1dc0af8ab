/** Immutable objects on a local file system: staged writes published by one rename, strict validation on
    every read, and paging by object identifier. One area of the storage is modelled. */
module LocalStorage {
  import opened Prelude

  /** Identifiers are 32 hexadecimal digits; their string order is the order of the numbers. */
  type ObjectId = nat
  type Bytes = string

  datatype Kind = ValidatedUpload | OpaqueOriginal

  datatype Metadata = Metadata(key: ObjectId, filename: string, internal: (ObjectId, string), extension: string,
                               mime: string, size: int, digest: string, zoned: bool, kind: Kind)

  /** Files of a directory by name: the payload under its internal name, the temporary payload, the sidecar. */
  datatype Name = Temporary | Internal(id: ObjectId, extension: string) | Sidecar

  datatype File = Payload(bytes: Bytes) | Json(metadata: Metadata)

  type Directory = map<Name, File>

  datatype Error = Rejected | NotFound | Integrity | Collision | Denied | Crashed

  /** What libraries compute: SHA-256, file name suffix, MIME normalisation, content validation. */
  datatype Library = Library(
    digest: Bytes -> string, validName: string -> bool, suffix: string -> string, normalMime: string -> string,
    validMime: string -> bool, validExtension: string -> bool, hex64: string -> bool,
    contentOk: (Bytes, string) -> bool, canonical: map<string, string>, declared: map<string, set<string>>)

  ghost predicate Sane(lib: Library) {
    (forall b :: lib.hex64(lib.digest(b))) && lib.declared.Keys == lib.canonical.Keys
  }

  // ----- what may be stored, and what is accepted when read -----

  /** Extension and MIME type that a store call records, if it does not reject. */
  function Described(lib: Library, kind: Kind, filename: string, mime: string, bytes: Bytes, limit: nat)
    : Option<(string, string)>
  {
    if |bytes| > limit || !lib.validName(filename) then None
    else
      match kind
      case ValidatedUpload =>
        var extension := lib.suffix(filename);
        if |bytes| < 1 || extension !in lib.canonical || extension !in lib.declared
           || lib.normalMime(mime) !in lib.declared[extension] || !lib.contentOk(bytes, extension) then None
        else Some((extension, lib.canonical[extension]))
      case OpaqueOriginal =>
        if !lib.validMime(lib.normalMime(mime)) then None
        else Some((OpaqueExtension(lib, filename), lib.normalMime(mime)))
  }

  function OpaqueExtension(lib: Library, filename: string): string {
    if lib.validExtension(lib.suffix(filename)) then lib.suffix(filename) else ""
  }

  /** The sidecar of an accepted upload. */
  function Accepted(lib: Library, kind: Kind, id: ObjectId, filename: string, mime: string, bytes: Bytes, limit: nat)
    : Option<Metadata>
  {
    match Described(lib, kind, filename, mime, bytes, limit)
    case None => None
    case Some((extension, stored)) =>
      Some(Metadata(id, filename, (id, extension), extension, stored, |bytes|, lib.digest(bytes), true, kind))
  }

  /** What a document must satisfy to be uploaded: not empty, not too large, a valid name whose suffix is an
      allowed type, a declared type that goes with it, and content that is of that type. */
  lemma UploadIff(lib: Library, id: ObjectId, filename: string, mime: string, bytes: Bytes, limit: nat)
    requires lib.declared.Keys == lib.canonical.Keys
    ensures var r := Accepted(lib, ValidatedUpload, id, filename, mime, bytes, limit);
            var suffix := lib.suffix(filename);
            && (r.Some? <==> 1 <= |bytes| <= limit && lib.validName(filename) && suffix in lib.canonical
                             && lib.normalMime(mime) in lib.declared[suffix] && lib.contentOk(bytes, suffix))
            && (r.Some? ==>
                  r.value == Metadata(id, filename, (id, suffix), suffix, lib.canonical[suffix], |bytes|,
                                      lib.digest(bytes), true, ValidatedUpload))
  {
  }

  /** An original is preserved whatever it contains, also if it is empty, as long as it is not too large and its
      name and type are well formed; an unusual suffix is dropped. */
  lemma OriginalIff(lib: Library, id: ObjectId, filename: string, mime: string, bytes: Bytes, limit: nat)
    ensures var r := Accepted(lib, OpaqueOriginal, id, filename, mime, bytes, limit);
            var suffix := if lib.validExtension(lib.suffix(filename)) then lib.suffix(filename) else "";
            && (r.Some? <==> |bytes| <= limit && lib.validName(filename) && lib.validMime(lib.normalMime(mime)))
            && (r.Some? ==>
                  r.value == Metadata(id, filename, (id, suffix), suffix, lib.normalMime(mime), |bytes|,
                                      lib.digest(bytes), true, OpaqueOriginal))
  {
  }

  predicate ValidMetadata(lib: Library, m: Metadata, id: ObjectId) {
    && lib.validName(m.filename)
    && m.key == id && m.size >= 0 && lib.hex64(m.digest) && m.internal == (id, m.extension) && m.zoned
    && (m.kind.ValidatedUpload? ==>
          m.size >= 1 && m.extension in lib.canonical && lib.suffix(m.filename) == m.extension
            && m.mime == lib.canonical[m.extension])
    && (m.kind.OpaqueOriginal? ==> (lib.validExtension(m.extension) || m.extension == "") && lib.validMime(m.mime))
  }

  function ReadMetadata(lib: Library, area: map<ObjectId, Directory>, id: ObjectId): Result<Metadata, Error> {
    if id !in area || Sidecar !in area[id] then Err(NotFound)
    else if !area[id][Sidecar].Json? || !ValidMetadata(lib, area[id][Sidecar].metadata, id) then Err(Integrity)
    else Ok(area[id][Sidecar].metadata)
  }

  function OpenRead(lib: Library, area: map<ObjectId, Directory>, id: ObjectId): Result<Bytes, Error> {
    match ReadMetadata(lib, area, id)
    case Err(e) => Err(e)
    case Ok(m) =>
      var name := PayloadName(m);
      if name !in area[id] || !area[id][name].Payload? then Err(Integrity)
      else if |area[id][name].bytes| != m.size || lib.digest(area[id][name].bytes) != m.digest then Err(Integrity)
      else Ok(area[id][name].bytes)
  }

  function Published(m: Metadata, bytes: Bytes): Directory {
    map[PayloadName(m) := Payload(bytes), Sidecar := Json(m)]
  }

  /** Whatever is stored is accepted by the validation, unchanged, and reads back as the stored bytes. */
  lemma PublishedReadsBack(lib: Library, area: map<ObjectId, Directory>, kind: Kind, id: ObjectId, filename: string,
                           mime: string, bytes: Bytes, limit: nat, m: Metadata)
    requires Sane(lib) && Accepted(lib, kind, id, filename, mime, bytes, limit) == Some(m)
    requires id in area && area[id] == Published(m, bytes)
    ensures ReadMetadata(lib, area, id) == Ok(m) && OpenRead(lib, area, id) == Ok(bytes)
  {
    assert lib.hex64(lib.digest(bytes));
  }

  /** The other way round: a validated upload's sidecar that passes validation is one that a store call would
      have written; an opaque original's is so exactly when its extension is that of its file name. */
  lemma AcceptedSidecarIsStorable(lib: Library, m: Metadata, id: ObjectId, mime: string, bytes: Bytes, limit: nat)
    requires ValidMetadata(lib, m, id) && m.size == |bytes| <= limit && m.digest == lib.digest(bytes)
    ensures m.kind.ValidatedUpload? && m.extension in lib.declared && lib.normalMime(mime) in lib.declared[m.extension]
            && lib.contentOk(bytes, m.extension) ==>
              Accepted(lib, m.kind, id, m.filename, mime, bytes, limit) == Some(m)
    ensures m.kind.OpaqueOriginal? && lib.normalMime(mime) == m.mime ==>
              (Accepted(lib, m.kind, id, m.filename, mime, bytes, limit) == Some(m)
               <==> m.extension == OpaqueExtension(lib, m.filename))
  {
  }

  /** A sidecar is refused if it names another object or payload, has a negative size, a malformed digest, an
      invalid file name, a time without zone, or a type that does not go with its kind. */
  lemma TamperingRefused(lib: Library, area: map<ObjectId, Directory>, id: ObjectId, m: Metadata)
    requires id in area && Sidecar in area[id] && area[id][Sidecar] == Json(m)
    requires || m.key != id || m.internal != (id, m.extension) || m.size < 0 || !lib.hex64(m.digest)
             || !lib.validName(m.filename) || !m.zoned
             || (m.kind == ValidatedUpload
                 && (m.size == 0 || m.extension !in lib.canonical || lib.suffix(m.filename) != m.extension
                     || m.mime != lib.canonical[m.extension]))
             || (m.kind == OpaqueOriginal
                 && (!lib.validMime(m.mime) || (m.extension != "" && !lib.validExtension(m.extension))))
    ensures ReadMetadata(lib, area, id) == Err(Integrity) && OpenRead(lib, area, id) == Err(Integrity)
  {
  }

  /** A payload that differs in length or digest from what was recorded is never returned. */
  lemma CorruptionDetected(lib: Library, area: map<ObjectId, Directory>, id: ObjectId, m: Metadata)
    requires id in area && Sidecar in area[id] && area[id][Sidecar] == Json(m)
    ensures OpenRead(lib, area, id).Ok? ==>
              |OpenRead(lib, area, id).value| == m.size && lib.digest(OpenRead(lib, area, id).value) == m.digest
              && ReadMetadata(lib, area, id) == Ok(m)
  {
  }

  lemma Cleaned(before: map<nat, Directory>, staging: map<nat, Directory>, slot: nat)
    requires slot !in before && slot in staging && staging == before[slot := staging[slot]]
    ensures staging - {slot} == before
  {
  }

  /** The process stops after at most n operations. */
  predicate Reached(steps: Option<nat>, n: nat) {
    steps.Some? && steps.value <= n
  }

  function PayloadName(m: Metadata): Name {
    Internal(m.internal.0, m.internal.1)
  }

  /** The object validates and its directory holds its payload and its sidecar and nothing else. */
  predicate Intact(lib: Library, area: map<ObjectId, Directory>, id: ObjectId) {
    ReadMetadata(lib, area, id).Ok? && area[id].Keys == {PayloadName(ReadMetadata(lib, area, id).value), Sidecar}
  }

  /** The area after the first `steps` operations of deleting an intact object. */
  function AfterDeleting(lib: Library, area: map<ObjectId, Directory>, id: ObjectId, steps: nat)
    : map<ObjectId, Directory>
    requires Intact(lib, area, id)
  {
    if steps == 0 then area
    else if steps == 1 then area[id := area[id] - {PayloadName(ReadMetadata(lib, area, id).value)}]
    else if steps == 2 then area[id := map[]]
    else area - {id}
  }

  class LocalStorageProvider {
    var area: map<ObjectId, Directory>
    var staging: map<nat, Directory>
    const lib: Library
    const limit: nat

    constructor (lib: Library, limit: nat)
      requires limit >= 1
      ensures area == map[] && staging == map[] && this.lib == lib && this.limit == limit
    {
      area, staging := map[], map[];
      this.lib, this.limit := lib, limit;
    }

    /** `steps` is the number of file-system operations done before the process dies or one of them fails; None
        never fails. The operations are: make the staging directory, write the payload, rename it, write the
        sidecar, publish by renaming the directory, sync the area. Up to the renaming the area is untouched; a
        failed sync raises although the object is visible. A rejected upload leaves nothing. */
    method Store(kind: Kind, filename: string, mime: string, bytes: Bytes, id: ObjectId, slot: nat, steps: Option<nat>)
      returns (r: Result<Metadata, Error>)
      requires Sane(lib) && slot !in staging
      modifies this
      ensures var m := Accepted(lib, kind, id, filename, mime, bytes, limit);
              && (steps.None? ==>
                    staging == old(staging)
                    && r == if m.None? then Err(Rejected) else if id in old(area) then Err(Collision) else Ok(m.value))
              && area == (if m.None? || id in old(area) || Reached(steps, 4) then old(area)
                          else old(area)[id := Published(m.value, bytes)])
              && (r.Ok? <==> m.Some? && id !in old(area) && !Reached(steps, 5))
              && (r.Ok? ==> r.value == m.value)
      ensures area != old(area) ==> ReadMetadata(lib, area, id).Ok? && OpenRead(lib, area, id) == Ok(bytes)
    {
      ghost var empty := staging;
      if steps == Some(0) {
        return Err(Crashed);
      }
      staging := staging[slot := map[]];
      if steps == Some(1) {
        return Err(Crashed);
      }
      staging := staging[slot := map[Temporary := Payload(if |bytes| <= limit then bytes else bytes[..limit])]];
      if steps == Some(2) {
        return Err(Crashed);
      }
      var accepted := Accepted(lib, kind, id, filename, mime, bytes, limit);
      Cleaned(empty, staging, slot);
      if accepted.None? || id in area {
        staging := staging - {slot};
        return Err(if accepted.None? then Rejected else Collision);
      }
      var finished := Publish(accepted.value, bytes, slot, steps);
      if id in area {
        PublishedReadsBack(lib, area, kind, id, filename, mime, bytes, limit, accepted.value);
      }
      if !finished {
        return Err(Crashed);
      }
      return Ok(accepted.value);
    }

    /** The last four operations; the renaming makes the object visible. */
    method Publish(m: Metadata, bytes: Bytes, slot: nat, steps: Option<nat>) returns (finished: bool)
      requires slot in staging && m.key !in area && !Reached(steps, 2)
      modifies this
      ensures finished <==> !Reached(steps, 5)
      ensures Reached(steps, 4) ==> area == old(area)
      ensures !Reached(steps, 4) ==> area == old(area)[m.key := Published(m, bytes)] && staging == old(staging) - {slot}
    {
      staging := staging[slot := map[PayloadName(m) := Payload(bytes)]];
      if steps == Some(3) {
        return false;
      }
      staging := staging[slot := Published(m, bytes)];
      if steps == Some(4) {
        return false;
      }
      area := area[m.key := staging[slot]];
      staging := staging - {slot};
      return steps != Some(5);
    }

    /** Delete an object: payload, sidecar, directory, then sync the area. */
    method Delete(id: ObjectId, approved: bool, steps: Option<nat>) returns (r: Result<(), Error>)
      modifies this`area
      ensures !approved ==> r == Err(Denied)
      ensures approved && ReadMetadata(lib, old(area), id).Err? ==> r == Err(ReadMetadata(lib, old(area), id).error)
      ensures approved && ReadMetadata(lib, old(area), id).Ok? && !Intact(lib, old(area), id) ==> r == Err(Integrity)
      ensures !approved || !Intact(lib, old(area), id) ==> area == old(area)
      ensures approved && Intact(lib, old(area), id) ==>
                && area == AfterDeleting(lib, old(area), id, if steps.Some? then steps.value else 4)
                && r == if Reached(steps, 3) then Err(Crashed) else Ok(())
    {
      if !approved {
        return Err(Denied);
      }
      var m := ReadMetadata(lib, area, id);
      if m.Err? {
        return Err(m.error);
      }
      var payload := PayloadName(m.value);
      if area[id].Keys != {payload, Sidecar} {
        return Err(Integrity);
      }
      if steps == Some(0) {
        return Err(Crashed);
      }
      area := area[id := area[id] - {payload}];
      if steps == Some(1) {
        return Err(Crashed);
      }
      area := area[id := map[]];
      if steps == Some(2) {
        return Err(Crashed);
      }
      area := area - {id};
      if steps == Some(3) {
        return Err(Crashed);
      }
      return Ok(());
    }
  }

  // ----- paging -----

  ghost predicate Increasing(ids: seq<ObjectId>) {
    forall i, j :: 0 <= i < j < |ids| ==> ids[i] < ids[j]
  }

  ghost predicate IsLeast(ids: set<ObjectId>, least: ObjectId) {
    least in ids && forall i :: i in ids ==> least <= i
  }

  lemma {:induction false} LeastExists(ids: set<ObjectId>)
    requires ids != {}
    ensures exists least :: IsLeast(ids, least)
  {
    var some :| some in ids;
    if ids == {some} {
      assert IsLeast(ids, some);
    } else {
      LeastExists(ids - {some});
      var other :| IsLeast(ids - {some}, other);
      var least := if other < some then other else some;
      forall i | i in ids
        ensures least <= i
      {
        assert i == some || i in ids - {some};
      }
      assert IsLeast(ids, least);
    }
  }

  /** `sorted(ids)`. */
  ghost function Sorted(ids: set<ObjectId>): (r: seq<ObjectId>)
    ensures Increasing(r) && |r| == |ids| && forall i :: i in r <==> i in ids
    decreases |ids|
  {
    if ids == {} then []
    else
      var least := Least(ids);
      [least] + Sorted(ids - {least})
  }

  ghost function Least(ids: set<ObjectId>): (r: ObjectId)
    requires ids != {}
    ensures IsLeast(ids, r)
  {
    LeastExists(ids);
    var r :| IsLeast(ids, r);
    r
  }

  ghost function After(ids: set<ObjectId>, after: Option<ObjectId>): set<ObjectId> {
    set i | i in ids && (after.None? || i > after.value)
  }

  /** One page: the first `limit` identifiers behind the pagination key. */
  ghost function Page(ids: set<ObjectId>, after: Option<ObjectId>, limit: nat): seq<ObjectId> {
    var rest := Sorted(After(ids, after));
    if limit <= |rest| then rest[..limit] else rest
  }

  /** A page holds the smallest identifiers behind its key, as many as there are up to the limit. */
  lemma PageMeans(ids: set<ObjectId>, after: Option<ObjectId>, limit: nat)
    ensures var page, rest := Page(ids, after, limit), Sorted(After(ids, after));
            && page <= rest && |page| == (if |rest| <= limit then |rest| else limit)
    ensures forall i :: i in Sorted(After(ids, after)) <==> i in ids && (after.Some? ==> after.value < i)
  {
  }

  /** A page fails exactly when one of its objects does not validate. */
  ghost predicate PageReads(lib: Library, area: map<ObjectId, Directory>, after: Option<ObjectId>, limit: nat) {
    forall i :: i in Page(area.Keys, after, limit) ==> ReadMetadata(lib, area, i).Ok?
  }

  /** Follow the pages from a key to the end, passing the last key of each page as the next pagination key. */
  ghost function AllPages(ids: set<ObjectId>, after: Option<ObjectId>, limit: nat): seq<ObjectId>
    requires limit >= 1
    decreases |After(ids, after)|
  {
    var page := Page(ids, after, limit);
    if page == [] then []
    else
      PageAdvances(ids, after, limit);
      page + AllPages(ids, Some(page[|page| - 1]), limit)
  }

  lemma BehindIsLater(ids: set<ObjectId>, after: Option<ObjectId>, whole: seq<ObjectId>, n: nat, i: ObjectId)
    requires whole == Sorted(After(ids, after)) && 1 <= n <= |whole| && i in After(ids, Some(whole[n - 1]))
    ensures i in whole[n..]
  {
    assert whole[n - 1] in whole;
    assert i in After(ids, after) && i in whole;
    var k :| 0 <= k < |whole| && whole[k] == i;
    InOrder(whole, n - 1, k);
    assert whole[n..][k - n] == i;
  }

  lemma LaterIsBehind(ids: set<ObjectId>, after: Option<ObjectId>, whole: seq<ObjectId>, n: nat, i: ObjectId)
    requires whole == Sorted(After(ids, after)) && 1 <= n <= |whole| && i in whole[n..]
    ensures i in After(ids, Some(whole[n - 1]))
  {
    var k :| 0 <= k < |whole[n..]| && whole[n..][k] == i;
    assert whole[n + k] == i && i in whole;
  }

  /** What follows position n in the sorted listing is what lies behind the n-th identifier. */
  lemma RestIsAfter(ids: set<ObjectId>, after: Option<ObjectId>, n: nat)
    requires 1 <= n <= |Sorted(After(ids, after))|
    ensures Sorted(After(ids, after))[n..] == Sorted(After(ids, Some(Sorted(After(ids, after))[n - 1])))
  {
    var whole := Sorted(After(ids, after));
    var behind := After(ids, Some(whole[n - 1]));
    forall i
      ensures i in whole[n..] <==> i in behind
    {
      if i in behind { BehindIsLater(ids, after, whole, n, i); }
      if i in whole[n..] { LaterIsBehind(ids, after, whole, n, i); }
    }
    SortedUnique(whole[n..], Sorted(behind));
  }

  lemma PageAdvances(ids: set<ObjectId>, after: Option<ObjectId>, limit: nat)
    requires limit >= 1 && Page(ids, after, limit) != []
    ensures var page := Page(ids, after, limit);
            var last := Some(page[|page| - 1]);
            |After(ids, last)| < |After(ids, after)| && page + Sorted(After(ids, last)) == Sorted(After(ids, after))
  {
    var whole, page := Sorted(After(ids, after)), Page(ids, after, limit);
    assert page == whole[..|page|];
    SplitAt(whole, page);
    RestIsAfter(ids, after, |page|);
  }

  lemma SplitAt(whole: seq<ObjectId>, page: seq<ObjectId>)
    requires page != [] && |page| <= |whole| && page == whole[..|page|]
    ensures page + whole[|page|..] == whole && page[|page| - 1] == whole[|page| - 1]
  {
  }

  lemma Member(a: seq<ObjectId>)
    requires a != []
    ensures a[0] in a
  {
  }

  lemma InOrder(a: seq<ObjectId>, i: nat, j: nat)
    requires Increasing(a) && i < |a| && j < |a| && a[i] < a[j]
    ensures i < j
  {
  }

  /** Increasing sequences with the same elements are equal. */
  lemma {:induction false} SortedUnique(a: seq<ObjectId>, b: seq<ObjectId>)
    requires Increasing(a) && Increasing(b) && forall i :: i in a <==> i in b
    ensures a == b
    decreases |a|
  {
    if a == [] || b == [] {
      if b != [] { Member(b); } else if a != [] { Member(a); }
    } else {
      assert a[0] in b && b[0] in a;
      var i :| 0 <= i < |b| && b[i] == a[0];
      var j :| 0 <= j < |a| && a[j] == b[0];
      assert a[0] == b[0];
      TailSame(a, b);
      TailSame(b, a);
      SortedUnique(a[1..], b[1..]);
    }
  }

  lemma TailSame(a: seq<ObjectId>, b: seq<ObjectId>)
    requires a != [] && b != [] && a[0] == b[0] && Increasing(a) && Increasing(b) && forall i :: i in a ==> i in b
    ensures forall i :: i in a[1..] ==> i in b[1..]
  {
    forall i | i in a[1..]
      ensures i in b[1..]
    {
      var k :| 0 <= k < |a[1..]| && a[1..][k] == i;
      assert a[k + 1] == i && i in a && a[0] < a[k + 1];
      var m :| 0 <= m < |b| && b[m] == i;
      assert m > 0 && b[1..][m - 1] == i;
    }
  }

  /** Paging an unchanged area with any limit lists every object exactly once, in order. */
  lemma {:induction false} PagingIsComplete(ids: set<ObjectId>, after: Option<ObjectId>, limit: nat)
    requires limit >= 1
    ensures AllPages(ids, after, limit) == Sorted(After(ids, after))
    decreases |After(ids, after)|
  {
    var page := Page(ids, after, limit);
    if page == [] {
      assert Sorted(After(ids, after)) == [];
    } else {
      PageAdvances(ids, after, limit);
      PagingIsComplete(ids, Some(page[|page| - 1]), limit);
    }
  }

  lemma WholeArea(ids: set<ObjectId>, limit: nat)
    requires limit >= 1
    ensures AllPages(ids, None, limit) == Sorted(ids)
  {
    PagingIsComplete(ids, None, limit);
    assert After(ids, None) == ids;
  }

  ghost predicate Listable(lib: Library, area: map<ObjectId, Directory>, limit: nat) {
    forall after :: PageReads(lib, area, after, limit)
  }

  ghost predicate Healthy(lib: Library, area: map<ObjectId, Directory>) {
    forall i :: i in area ==> ReadMetadata(lib, area, i).Ok?
  }

  /** Listing works from every pagination key exactly when every object in the area validates. */
  lemma ListableIffHealthy(lib: Library, area: map<ObjectId, Directory>, limit: nat)
    requires limit >= 1
    ensures Listable(lib, area, limit) <==> Healthy(lib, area)
  {
    if Listable(lib, area, limit) {
      forall i | i in area
        ensures ReadMetadata(lib, area, i).Ok?
      {
        var after := if i == 0 then None else Some(i - 1);
        FirstOfPage(area.Keys, after, limit, i);
        assert PageReads(lib, area, after, limit);
      }
    }
    forall after, i | i in Page(area.Keys, after, limit)
      ensures i in area
    {
      assert i in Sorted(After(area.Keys, after));
    }
  }

  lemma FirstOfPage(ids: set<ObjectId>, after: Option<ObjectId>, limit: nat, i: ObjectId)
    requires limit >= 1 && i in After(ids, after) && forall k :: k in After(ids, after) ==> i <= k
    ensures i in Page(ids, after, limit)
  {
    var whole := Sorted(After(ids, after));
    assert i in whole;
    assert whole[0] in After(ids, after);
    var k :| 0 <= k < |whole| && whole[k] == i;
    assert k == 0;
    assert Page(ids, after, limit)[0] == i;
  }

  lemma LeftBehind(lib: Library, area: map<ObjectId, Directory>, id: ObjectId, steps: nat)
    requires Intact(lib, area, id)
    ensures var left := AfterDeleting(lib, area, id, steps);
            && left - {id} == area - {id} && (id in left <==> steps <= 2)
            && (ReadMetadata(lib, left, id).Ok? <==> steps <= 1)
            && (steps > 0 ==> OpenRead(lib, left, id).Err? && !Intact(lib, left, id))
  {
    if steps == 1 {
      assert ReadMetadata(lib, AfterDeleting(lib, area, id, steps), id) == ReadMetadata(lib, area, id);
    }
  }

  lemma HealthyButOne(lib: Library, area: map<ObjectId, Directory>, left: map<ObjectId, Directory>, id: ObjectId)
    requires Healthy(lib, area) && left - {id} == area - {id}
    ensures Healthy(lib, left) <==> (id in left ==> ReadMetadata(lib, left, id).Ok?)
  {
    forall i | i in left && i != id
      ensures ReadMetadata(lib, left, i).Ok?
    {
      assert i in left - {id} && left[i] == area[i];
    }
  }

  /** A deletion that stops leaves every other object as it was. It makes listing fail exactly when it stops
      between removing the sidecar and the directory; once its first operation is done, the object can neither
      be read nor deleted again. */
  lemma InterruptedDeletion(lib: Library, area: map<ObjectId, Directory>, id: ObjectId, limit: nat, steps: nat)
    requires limit >= 1 && Healthy(lib, area) && Intact(lib, area, id)
    ensures var left := AfterDeleting(lib, area, id, steps);
            && left - {id} == area - {id}
            && (Listable(lib, left, limit) <==> steps != 2)
            && (steps > 0 ==> OpenRead(lib, left, id).Err? && !Intact(lib, left, id))
  {
    var left := AfterDeleting(lib, area, id, steps);
    LeftBehind(lib, area, id, steps);
    ListableIffHealthy(lib, left, limit);
    HealthyButOne(lib, area, left, id);
  }
}
