/**
 * The object store the storage routes run against (the R2 bucket binding):
 * a flat map from keys to stored objects, a version counter that stands
 * for the store's clock and etag generator, and the open multipart
 * upload sessions. `List` returns one page: the first `limit` keys under
 * a prefix, in ascending key order, after an optional cursor.
 */
module Bucket {
  import opened Wrappers
  import opened JsString

  type Bytes = seq<bv8>

  /** The HTTP metadata kept with an object. */
  datatype HttpMetadata = HttpMetadata(contentType: Option<string>)

  /** A stored object; `uploaded` is the store's version counter at write time. */
  datatype Obj = Obj(
    key: string,
    body: Bytes,
    httpMetadata: HttpMetadata,
    customMetadata: map<string, string>,
    etag: string,
    uploaded: nat)

  /** One page of a listing. */
  datatype Page = Page(objects: seq<Obj>, truncated: bool, cursor: Option<string>)

  /** A part reference as the client sends it to `complete`. */
  datatype UploadedPart = UploadedPart(partNumber: int, etag: string)

  datatype StoredPart = StoredPart(body: Bytes, etag: string)

  datatype Session = Session(key: string, httpMetadata: HttpMetadata, parts: map<int, StoredPart>)

  /** The page size of a `list` call that passes no limit. */
  const DefaultListLimit: nat := 1000

  /** The smallest size of every part of a multipart upload but the last. */
  const MinPartSize: nat := 5 * 1024 * 1024

  const MaxPartNumber: int := 10000

  const NoSuchUpload := "The specified multipart upload does not exist."
  const BadPartNumber := "Part number must be between 1 and 10000."

  function Lookup(objects: map<string, Obj>, key: string): Option<Obj> {
    if key in objects then Some(objects[key]) else None
  }

  /** The object a write at version `version` stores. */
  function Written(key: string, body: Bytes, http: HttpMetadata, custom: map<string, string>, version: nat): Obj {
    Obj(key, body, http, custom, "etag-" + NatToString(version), version)
  }

  function UploadIdFor(version: nat): string {
    "upload-" + NatToString(version)
  }

  /** A key a listing may return: present, under the prefix, after the cursor. */
  ghost predicate Eligible(objects: map<string, Obj>, prefix: string, cursor: Option<string>, k: string) {
    k in objects && StartsWith(k, prefix) && (cursor.None? || LexLess(cursor.value, k))
  }

  function PageKeys(objs: seq<Obj>): set<string> {
    set i | 0 <= i < |objs| :: objs[i].key
  }

  predicate DistinctKeys(objs: seq<Obj>) {
    forall i, j :: 0 <= i < j < |objs| ==> objs[i].key != objs[j].key
  }

  /** The cursor a truncated page hands back: its last key. */
  function NextCursor(objs: seq<Obj>, previous: Option<string>): Option<string> {
    if |objs| == 0 then previous else Some(objs[|objs| - 1].key)
  }

  /**
   * What the store promises of a page: at most `limit` eligible objects as
   * stored, in strictly ascending key order, forming a prefix of all
   * eligible keys; truncated exactly when eligible keys were left out.
   */
  ghost predicate IsPage(objects: map<string, Obj>, prefix: string, cursor: Option<string>, limit: nat, page: Page) {
    var objs := page.objects;
    && |objs| <= limit
    && (forall i :: 0 <= i < |objs| ==>
          Eligible(objects, prefix, cursor, objs[i].key) && objects[objs[i].key] == objs[i])
    && (forall i, j :: 0 <= i < j < |objs| ==> LexLess(objs[i].key, objs[j].key))
    && (forall k, i :: Eligible(objects, prefix, cursor, k) && k !in PageKeys(objs) && 0 <= i < |objs| ==>
          LexLess(objs[i].key, k))
    && (page.truncated <==> exists k :: Eligible(objects, prefix, cursor, k) && k !in PageKeys(objs))
    && (page.truncated ==> |objs| == limit)
    && page.cursor == (if page.truncated then NextCursor(objs, cursor) else None)
  }

  /** A non-truncated page holds every eligible key. */
  lemma CompletePage(objects: map<string, Obj>, prefix: string, cursor: Option<string>, limit: nat, page: Page, k: string)
    requires IsPage(objects, prefix, cursor, limit, page)
    requires !page.truncated
    requires Eligible(objects, prefix, cursor, k)
    ensures k in PageKeys(page.objects)
  {
  }

  /** A page never lists a key twice. */
  lemma PageDistinct(objects: map<string, Obj>, prefix: string, cursor: Option<string>, limit: nat, page: Page)
    requires IsPage(objects, prefix, cursor, limit, page)
    ensures DistinctKeys(page.objects)
  {
    forall i, j | 0 <= i < j < |page.objects|
      ensures page.objects[i].key != page.objects[j].key
    {
      LexLessIrreflexive(page.objects[i].key);
    }
  }

  /** `m` is the least key of `s`. */
  predicate IsLeastKey(s: set<string>, m: string) {
    m in s && forall k :: k in s && k != m ==> LexLess(m, k)
  }

  /** Every finite non-empty set of strings has a least element. */
  lemma {:induction false} LeastKeyExists(s: set<string>)
    requires s != {}
    ensures exists m :: IsLeastKey(s, m)
    decreases |s|
  {
    var x :| x in s;
    if s == {x} {
      assert IsLeastKey(s, x);
    } else {
      var rest := s - {x};
      LeastKeyExists(rest);
      var m :| IsLeastKey(rest, m);
      var least := LeastAfterInsert(s, x, m);
    }
  }

  /** The least element of `s`, from the least element `m` of `s` without `x`. */
  lemma LeastAfterInsert(s: set<string>, x: string, m: string) returns (least: string)
    requires x in s && IsLeastKey(s - {x}, m)
    ensures IsLeastKey(s, least)
  {
    LexLessTotal(m, x);
    if LexLess(m, x) {
      least := m;
    } else {
      least := x;
      forall k | k in s && k != x
        ensures LexLess(x, k)
      {
        if k != m {
          LexLessTransitive(x, m, k);
        }
      }
    }
  }

  lemma PageKeysAppend(objs: seq<Obj>, o: Obj)
    ensures PageKeys(objs + [o]) == PageKeys(objs) + {o.key}
  {
    var a := objs + [o];
    assert forall i :: 0 <= i < |objs| ==> a[i] == objs[i];
    assert a[|objs|] == o;
  }

  /**
   * The state of the listing loop: `picked` holds eligible objects as
   * stored, in ascending key order, each before every key still
   * `remaining`; `remaining` is exactly the eligible keys not yet picked.
   */
  ghost predicate Picking(objects: map<string, Obj>, prefix: string, cursor: Option<string>,
                          remaining: set<string>, picked: seq<Obj>) {
    && (forall k :: k in remaining <==> Eligible(objects, prefix, cursor, k) && k !in PageKeys(picked))
    && (forall i :: 0 <= i < |picked| ==>
          Eligible(objects, prefix, cursor, picked[i].key) && objects[picked[i].key] == picked[i])
    && (forall i, j :: 0 <= i < j < |picked| ==> LexLess(picked[i].key, picked[j].key))
    && (forall k, i :: k in remaining && 0 <= i < |picked| ==> LexLess(picked[i].key, k))
  }

  /** Picking the least remaining key keeps the loop's state. */
  lemma PickingStep(objects: map<string, Obj>, prefix: string, cursor: Option<string>,
                    remaining: set<string>, picked: seq<Obj>, k: string)
    requires forall k :: k in objects ==> objects[k].key == k
    requires Picking(objects, prefix, cursor, remaining, picked)
    requires IsLeastKey(remaining, k)
    ensures Picking(objects, prefix, cursor, remaining - {k}, picked + [objects[k]])
  {
    var p := picked + [objects[k]];
    assert Eligible(objects, prefix, cursor, k);
    assert objects[k].key == k;
    PageKeysAppend(picked, objects[k]);
    forall j
      ensures j in remaining - {k} <==> Eligible(objects, prefix, cursor, j) && j !in PageKeys(p)
    {
    }
    assert forall i :: 0 <= i < |picked| ==> p[i] == picked[i];
    assert p[|picked|] == objects[k];
  }

  /** When the loop stops, its picks form a page. */
  lemma PickingDone(objects: map<string, Obj>, prefix: string, cursor: Option<string>,
                    limit: nat, remaining: set<string>, picked: seq<Obj>)
    requires Picking(objects, prefix, cursor, remaining, picked)
    requires |picked| <= limit && (remaining == {} || |picked| == limit)
    ensures IsPage(objects, prefix, cursor, limit,
      Page(picked, remaining != {}, if remaining != {} then NextCursor(picked, cursor) else None))
  {
  }

  class Store {
    var objects: map<string, Obj>
    var sessions: map<string, Session>
    var clock: nat

    /** Every object is stored under its own key. */
    ghost predicate Valid()
      reads this
    {
      forall k :: k in objects ==> objects[k].key == k
    }

    constructor ()
      ensures Valid() && objects == map[] && sessions == map[] && clock == 0
    {
      objects := map[];
      sessions := map[];
      clock := 0;
    }

    /** `get(key)`: the object, or `null`. */
    method Get(key: string) returns (o: Option<Obj>)
      ensures o == Lookup(objects, key)
    {
      o := Lookup(objects, key);
    }

    /** `head(key)`: the object's metadata (here the whole object), or `null`. */
    method Head(key: string) returns (o: Option<Obj>)
      ensures o == Lookup(objects, key)
    {
      o := Get(key);
    }

    /** `put(key, body, options)`: stores a new version of the object. */
    method Put(key: string, body: Bytes, http: HttpMetadata, custom: map<string, string>) returns (o: Obj)
      requires Valid()
      modifies this
      ensures Valid()
      ensures o == Written(key, body, http, custom, old(clock))
      ensures objects == old(objects)[key := o]
      ensures clock == old(clock) + 1 && sessions == old(sessions)
    {
      o := Written(key, body, http, custom, clock);
      objects := objects[key := o];
      clock := clock + 1;
    }

    /** `delete(key)`: removes the key if present. */
    method Delete(key: string)
      requires Valid()
      modifies this
      ensures Valid()
      ensures objects == old(objects) - {key}
      ensures clock == old(clock) && sessions == old(sessions)
    {
      objects := objects - {key};
    }

    /** `list({prefix, limit, cursor})`: one page in ascending key order. */
    method List(prefix: string, limit: nat, cursor: Option<string>) returns (page: Page)
      requires Valid()
      ensures IsPage(objects, prefix, cursor, limit, page)
    {
      var remaining := set k | k in objects && StartsWith(k, prefix) && (cursor.None? || LexLess(cursor.value, k));
      var picked: seq<Obj> := [];
      while remaining != {} && |picked| < limit
        invariant |picked| <= limit
        invariant Picking(objects, prefix, cursor, remaining, picked)
        decreases remaining
      {
        LeastKeyExists(remaining);
        var k :| IsLeastKey(remaining, k);
        PickingStep(objects, prefix, cursor, remaining, picked, k);
        picked := picked + [objects[k]];
        remaining := remaining - {k};
      }
      var truncated := remaining != {};
      PickingDone(objects, prefix, cursor, limit, remaining, picked);
      page := Page(picked, truncated, if truncated then NextCursor(picked, cursor) else None);
    }

    /** `createMultipartUpload(key, options)`: opens a session and returns its id. */
    method CreateMultipartUpload(key: string, http: HttpMetadata) returns (uploadId: string)
      requires Valid()
      modifies this
      ensures Valid()
      ensures uploadId == UploadIdFor(old(clock))
      ensures sessions == old(sessions)[uploadId := Session(key, http, map[])]
      ensures objects == old(objects) && clock == old(clock) + 1
    {
      uploadId := UploadIdFor(clock);
      sessions := sessions[uploadId := Session(key, http, map[])];
      clock := clock + 1;
    }

    /** `resumeMultipartUpload(key, uploadId).uploadPart(partNumber, body)`. */
    method UploadPart(key: string, uploadId: string, partNumber: int, body: Bytes) returns (r: Result<UploadedPart>)
      requires Valid()
      modifies this
      ensures Valid() && objects == old(objects)
      ensures r == PartOutcome(old(sessions), old(clock), key, uploadId, partNumber)
      ensures r.Ok? ==>
        sessions == AddPart(old(sessions), uploadId, partNumber, body, r.value.etag) && clock == old(clock) + 1
      ensures r.Err? ==> sessions == old(sessions) && clock == old(clock)
    {
      r := PartOutcome(sessions, clock, key, uploadId, partNumber);
      if r.Ok? {
        var s := sessions[uploadId];
        sessions := sessions[uploadId := s.(parts := s.parts[partNumber := StoredPart(body, r.value.etag)])];
        clock := clock + 1;
      }
    }

    /** `resumeMultipartUpload(key, uploadId).complete(parts)`: assembles the object. */
    method CompleteMultipartUpload(key: string, uploadId: string, parts: seq<UploadedPart>) returns (r: Result<Obj>)
      requires Valid()
      modifies this
      ensures Valid()
      ensures r == CompleteOutcome(old(sessions), old(clock), key, uploadId, parts)
      ensures r.Ok? ==>
        && objects == old(objects)[key := r.value]
        && sessions == old(sessions) - {uploadId}
        && clock == old(clock) + 1
      ensures r.Err? ==> objects == old(objects) && sessions == old(sessions) && clock == old(clock)
    {
      r := CompleteOutcome(sessions, clock, key, uploadId, parts);
      if r.Ok? {
        objects := objects[key := r.value];
        sessions := sessions - {uploadId};
        clock := clock + 1;
      }
    }
  }

  /** The sessions after part `partNumber` of `uploadId` is stored (replacing an earlier upload of that part). */
  function AddPart(sessions: map<string, Session>, uploadId: string, partNumber: int, body: Bytes, etag: string): map<string, Session>
    requires uploadId in sessions
  {
    sessions[uploadId := sessions[uploadId].(parts := sessions[uploadId].parts[partNumber := StoredPart(body, etag)])]
  }

  /** The outcome of uploading one part. */
  function PartOutcome(sessions: map<string, Session>, clock: nat, key: string, uploadId: string, partNumber: int): Result<UploadedPart> {
    if uploadId !in sessions || sessions[uploadId].key != key then Err(NoSuchUpload)
    else if partNumber < 1 || partNumber > MaxPartNumber then Err(BadPartNumber)
    else Ok(UploadedPart(partNumber, "etag-" + NatToString(clock)))
  }

  /** Each listed part was uploaded to the session with that etag. */
  predicate PartsPresent(session: Session, parts: seq<UploadedPart>) {
    forall i :: 0 <= i < |parts| ==>
      parts[i].partNumber in session.parts && session.parts[parts[i].partNumber].etag == parts[i].etag
  }

  predicate PartsAscending(parts: seq<UploadedPart>) {
    forall i, j :: 0 <= i < j < |parts| ==> parts[i].partNumber < parts[j].partNumber
  }

  /** Every part but the last is at least the minimum part size. */
  predicate PartsLargeEnough(session: Session, parts: seq<UploadedPart>)
    requires PartsPresent(session, parts)
  {
    forall i :: 0 <= i < |parts| - 1 ==> |session.parts[parts[i].partNumber].body| >= MinPartSize
  }

  /** The bytes of the listed parts, concatenated in list order. */
  function Assemble(session: Session, parts: seq<UploadedPart>): Bytes
    requires PartsPresent(session, parts)
    decreases |parts|
  {
    if |parts| == 0 then []
    else Assemble(session, parts[..|parts| - 1]) + session.parts[parts[|parts| - 1].partNumber].body
  }

  /** The outcome of completing a session. */
  function CompleteOutcome(sessions: map<string, Session>, clock: nat, key: string, uploadId: string, parts: seq<UploadedPart>): Result<Obj> {
    if uploadId !in sessions || sessions[uploadId].key != key then Err(NoSuchUpload)
    else
      var s := sessions[uploadId];
      if |parts| == 0 then Err("There must be at least one part.")
      else if !PartsPresent(s, parts) then Err("One or more of the specified parts could not be found.")
      else if !PartsAscending(parts) then Err("The list of parts was not in ascending order.")
      else if !PartsLargeEnough(s, parts) then Err("Your proposed upload is smaller than the minimum allowed object size.")
      else Ok(Obj(key, Assemble(s, parts), s.httpMetadata, map[], "etag-" + NatToString(clock), clock))
  }
}
