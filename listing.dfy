/**
 * The bucket listing route (`GET /api/r2`). One pass over a page of the
 * flat key space fills a map of entries: the object named by the prefix
 * is skipped, keys ending in `/` become folder entries under their full
 * key, keys with two or more remaining segments are folded into an
 * inferred folder `prefix + first + "/"` whose `itemCount` they raise, and
 * the rest become file entries. The entries are returned folders first,
 * then by key.
 */
module Listing {
  import opened Wrappers
  import opened JsString
  import opened Bucket

  /** One entry of the listing response. */
  datatype Entry = Entry(
    key: string,
    size: nat,
    uploaded: Option<nat>,
    etag: Option<string>,
    httpMetadata: Option<HttpMetadata>,
    isFolder: bool,
    itemCount: Option<nat>)

  datatype ListResponse = ListResponse(objects: seq<Entry>, truncated: bool, cursor: Option<string>)

  /** How one listed key contributes to the response. */
  datatype Kind = Skip | Marker | Nested(folder: string) | Direct

  function Classify(prefix: string, key: string): (r: Kind)
    ensures r.Skip? <==> key == prefix
    ensures r.Marker? <==> key != prefix && EndsWith(key, "/")
    ensures r.Nested? ==> EndsWith(r.folder, "/") && StartsWith(r.folder, prefix) && |r.folder| >= |prefix| + 2
    ensures r.Direct? ==> key != prefix && !EndsWith(key, "/")
  {
    if key == prefix then Skip
    else if EndsWith(key, "/") then Marker
    else
      var relativePath := if prefix != "" then ReplaceFirst(key, prefix, "") else key;
      var parts := FilterNonEmpty(Split(relativePath, '/'));
      if |parts| > 1 then Nested(prefix + parts[0] + "/") else Direct
  }

  function NewMarkerEntry(o: Obj): Entry {
    Entry(o.key, 0, Some(o.uploaded), Some(o.etag), None, true, Some(0))
  }

  function InferredFolder(folder: string): Entry {
    Entry(folder, 0, None, None, None, true, Some(0))
  }

  function FileEntry(o: Obj): Entry {
    Entry(o.key, |o.body|, Some(o.uploaded), Some(o.etag), Some(o.httpMetadata), false, None)
  }

  /** The effect of one listed object on the map of entries. */
  function Step(m: map<string, Entry>, prefix: string, o: Obj): map<string, Entry> {
    match Classify(prefix, o.key)
    case Skip => m
    case Marker =>
      if o.key !in m then m[o.key := NewMarkerEntry(o)]
      else m[o.key := m[o.key].(uploaded := Some(o.uploaded), etag := Some(o.etag), isFolder := true)]
    case Nested(f) =>
      var e := if f in m then m[f] else InferredFolder(f);
      m[f := e.(itemCount := Some(e.itemCount.GetOr(0) + 1))]
    case Direct => m[o.key := FileEntry(o)]
  }

  /** The map of entries after processing `objs` in order. */
  function Build(prefix: string, objs: seq<Obj>): map<string, Entry>
    decreases |objs|
  {
    if |objs| == 0 then map[]
    else Step(Build(prefix, objs[..|objs| - 1]), prefix, objs[|objs| - 1])
  }

  function EntryAt(m: map<string, Entry>, k: string): Option<Entry> {
    if k in m then Some(m[k]) else None
  }

  // ---------------------------------------------------------------------
  // A closed form of the map, key by key

  /** The last object on the page that is a folder marker with key `k`. */
  function LastMarker(prefix: string, objs: seq<Obj>, k: string): (r: Option<Obj>)
    ensures r.Some? ==> r.value in objs && r.value.key == k && Classify(prefix, k).Marker?
    decreases |objs|
  {
    if |objs| == 0 then None
    else if objs[|objs| - 1].key == k && Classify(prefix, k).Marker? then Some(objs[|objs| - 1])
    else LastMarker(prefix, objs[..|objs| - 1], k)
  }

  /** The last object on the page that is a direct file with key `k`. */
  function LastFile(prefix: string, objs: seq<Obj>, k: string): (r: Option<Obj>)
    ensures r.Some? ==> r.value in objs && r.value.key == k && Classify(prefix, k).Direct?
    decreases |objs|
  {
    if |objs| == 0 then None
    else if objs[|objs| - 1].key == k && Classify(prefix, k).Direct? then Some(objs[|objs| - 1])
    else LastFile(prefix, objs[..|objs| - 1], k)
  }

  /** How many objects on the page are nested under the inferred folder `f`. */
  function NestedCount(prefix: string, objs: seq<Obj>, f: string): (n: nat)
    ensures n <= |objs|
    ensures n > 0 ==> EndsWith(f, "/") && StartsWith(f, prefix) && |f| >= |prefix| + 2
    decreases |objs|
  {
    if |objs| == 0 then 0
    else NestedCount(prefix, objs[..|objs| - 1], f) + (if Classify(prefix, objs[|objs| - 1].key) == Nested(f) then 1 else 0)
  }

  /**
   * The entry for key `k` given the last direct file `lf` with that key,
   * the count `n` of objects nested under it and the last marker `lm`.
   */
  function ExpectedFrom(lf: Option<Obj>, n: nat, lm: Option<Obj>, k: string): Option<Entry> {
    match lf
    case Some(o) => Some(FileEntry(o))
    case None =>
      match lm
      case Some(o) => Some(Entry(k, 0, Some(o.uploaded), Some(o.etag), None, true, Some(n)))
      case None => if n > 0 then Some(Entry(k, 0, None, None, None, true, Some(n))) else None
  }

  /** The entry the page determines for key `k`, if any. */
  function Expected(prefix: string, objs: seq<Obj>, k: string): Option<Entry> {
    ExpectedFrom(LastFile(prefix, objs, k), NestedCount(prefix, objs, k), LastMarker(prefix, objs, k), k)
  }

  /** One more object moves the closed form at `k` as `Step` moves the map. */
  lemma StepExpected(m: map<string, Entry>, prefix: string, o: Obj, k: string, lf: Option<Obj>, n: nat, lm: Option<Obj>)
    requires EntryAt(m, k) == ExpectedFrom(lf, n, lm, k)
    requires lf.Some? ==> Classify(prefix, k).Direct?
    ensures EntryAt(Step(m, prefix, o), k) == ExpectedFrom(
      if o.key == k && Classify(prefix, k).Direct? then Some(o) else lf,
      n + (if Classify(prefix, o.key) == Nested(k) then 1 else 0),
      if o.key == k && Classify(prefix, k).Marker? then Some(o) else lm,
      k)
  {
    match Classify(prefix, o.key)
    case Skip =>
    case Marker =>
    case Nested(f) =>
      if f == k {
        assert o.key != k;
        assert !Classify(prefix, k).Direct?;
      }
    case Direct =>
  }

  /** The one-pass fold computes the closed form at every key. */
  lemma {:induction false} BuildIsExpected(prefix: string, objs: seq<Obj>, k: string)
    ensures EntryAt(Build(prefix, objs), k) == Expected(prefix, objs, k)
    decreases |objs|
  {
    if |objs| > 0 {
      var init := objs[..|objs| - 1];
      var o := objs[|objs| - 1];
      BuildIsExpected(prefix, init, k);
      StepExpected(Build(prefix, init), prefix, o, k,
        LastFile(prefix, init, k), NestedCount(prefix, init, k), LastMarker(prefix, init, k));
      assert Build(prefix, objs) == Step(Build(prefix, init), prefix, o);
      assert LastFile(prefix, objs, k) ==
        if o.key == k && Classify(prefix, k).Direct? then Some(o) else LastFile(prefix, init, k);
      assert LastMarker(prefix, objs, k) ==
        if o.key == k && Classify(prefix, k).Marker? then Some(o) else LastMarker(prefix, init, k);
      assert NestedCount(prefix, objs, k) ==
        NestedCount(prefix, init, k) + (if Classify(prefix, o.key) == Nested(k) then 1 else 0);
    }
  }

  /** Every entry is stored under its own key. */
  lemma BuildKeys(prefix: string, objs: seq<Obj>)
    ensures forall k :: k in Build(prefix, objs) ==> Build(prefix, objs)[k].key == k
  {
    forall k | k in Build(prefix, objs)
      ensures Build(prefix, objs)[k].key == k
    {
      BuildIsExpected(prefix, objs, k);
    }
  }

  // ---------------------------------------------------------------------
  // What the listing shows

  /** The object whose key equals the prefix is never listed. */
  lemma PrefixNeverListed(prefix: string, objs: seq<Obj>)
    ensures prefix !in Build(prefix, objs)
  {
    BuildIsExpected(prefix, objs, prefix);
  }

  /** Entries are folders exactly when their key ends in `/`; folders have size 0. */
  lemma EntryShape(prefix: string, objs: seq<Obj>, k: string)
    requires k in Build(prefix, objs)
    ensures Build(prefix, objs)[k].isFolder <==> EndsWith(k, "/")
    ensures Build(prefix, objs)[k].isFolder ==>
      Build(prefix, objs)[k].size == 0 && Build(prefix, objs)[k].itemCount == Some(NestedCount(prefix, objs, k))
  {
    BuildIsExpected(prefix, objs, k);
  }

  /** Every entry is explained by a marker or file on the page, or by nested objects. */
  lemma EntryExplained(prefix: string, objs: seq<Obj>, k: string)
    requires k in Build(prefix, objs)
    ensures (exists i :: 0 <= i < |objs| && objs[i].key == k && !Classify(prefix, k).Nested?) || NestedCount(prefix, objs, k) > 0
  {
    BuildIsExpected(prefix, objs, k);
    var lf := LastFile(prefix, objs, k);
    var lm := LastMarker(prefix, objs, k);
    if lf.Some? {
      var i :| 0 <= i < |objs| && objs[i] == lf.value;
    } else if lm.Some? {
      var i :| 0 <= i < |objs| && objs[i] == lm.value;
    }
  }

  lemma {:induction false} LastMarkerOfDistinct(prefix: string, objs: seq<Obj>, i: nat)
    requires DistinctKeys(objs) && i < |objs|
    requires Classify(prefix, objs[i].key).Marker?
    ensures LastMarker(prefix, objs, objs[i].key) == Some(objs[i])
    decreases |objs|
  {
    if i < |objs| - 1 {
      LastMarkerOfDistinct(prefix, objs[..|objs| - 1], i);
    }
  }

  lemma {:induction false} LastFileOfDistinct(prefix: string, objs: seq<Obj>, i: nat)
    requires DistinctKeys(objs) && i < |objs|
    requires Classify(prefix, objs[i].key).Direct?
    ensures LastFile(prefix, objs, objs[i].key) == Some(objs[i])
    decreases |objs|
  {
    if i < |objs| - 1 {
      LastFileOfDistinct(prefix, objs[..|objs| - 1], i);
    }
  }

  /**
   * A key ending in `/` other than the prefix is listed under its full key
   * as a folder of size 0 carrying the marker's upload time and etag, and
   * an itemCount kept from the nested objects on the page.
   */
  lemma MarkerListed(prefix: string, objs: seq<Obj>, i: nat)
    requires DistinctKeys(objs) && i < |objs|
    requires objs[i].key != prefix && EndsWith(objs[i].key, "/")
    ensures EntryAt(Build(prefix, objs), objs[i].key) ==
      Some(Entry(objs[i].key, 0, Some(objs[i].uploaded), Some(objs[i].etag), None, true,
                 Some(NestedCount(prefix, objs, objs[i].key))))
  {
    LastMarkerOfDistinct(prefix, objs, i);
    BuildIsExpected(prefix, objs, objs[i].key);
  }

  /** A key with at most one remaining segment is listed as a file with its size, etag and metadata. */
  lemma FileListed(prefix: string, objs: seq<Obj>, i: nat)
    requires DistinctKeys(objs) && i < |objs|
    requires Classify(prefix, objs[i].key).Direct?
    ensures EntryAt(Build(prefix, objs), objs[i].key) == Some(FileEntry(objs[i]))
    ensures !Build(prefix, objs)[objs[i].key].isFolder && Build(prefix, objs)[objs[i].key].size == |objs[i].body|
  {
    LastFileOfDistinct(prefix, objs, i);
    BuildIsExpected(prefix, objs, objs[i].key);
  }

  lemma {:induction false} NestedCountPositive(prefix: string, objs: seq<Obj>, i: nat, f: string)
    requires i < |objs| && Classify(prefix, objs[i].key) == Nested(f)
    ensures NestedCount(prefix, objs, f) >= 1
    decreases |objs|
  {
    if i < |objs| - 1 {
      NestedCountPositive(prefix, objs[..|objs| - 1], i, f);
    }
  }

  /**
   * A deeper key is not listed itself; its first segment's folder is
   * listed instead, and counts it.
   */
  lemma NestedHidden(prefix: string, objs: seq<Obj>, i: nat)
    requires i < |objs| && Classify(prefix, objs[i].key).Nested?
    ensures objs[i].key !in Build(prefix, objs)
    ensures var f := Classify(prefix, objs[i].key).folder;
      f in Build(prefix, objs) && Build(prefix, objs)[f].isFolder &&
      Build(prefix, objs)[f].itemCount == Some(NestedCount(prefix, objs, f)) && NestedCount(prefix, objs, f) >= 1
  {
    var f := Classify(prefix, objs[i].key).folder;
    BuildIsExpected(prefix, objs, objs[i].key);
    BuildIsExpected(prefix, objs, f);
    NestedCountPositive(prefix, objs, i, f);
  }

  /** Each further nested object on the page raises its folder's count by exactly one. */
  lemma NestedCountAppend(prefix: string, objs: seq<Obj>, o: Obj, f: string)
    ensures NestedCount(prefix, objs + [o], f) ==
      NestedCount(prefix, objs, f) + (if Classify(prefix, o.key) == Nested(f) then 1 else 0)
  {
    assert (objs + [o])[..|objs|] == objs;
  }

  // ---------------------------------------------------------------------
  // Ordering of the response

  /** The response order: folders before files, then by key. */
  predicate Before(a: Entry, b: Entry) {
    (a.isFolder && !b.isFolder) || (a.isFolder == b.isFolder && LexLess(a.key, b.key))
  }

  lemma BeforeIrreflexive(a: Entry)
    ensures !Before(a, a)
  {
    LexLessIrreflexive(a.key);
  }

  lemma BeforeAsymmetric(a: Entry, b: Entry)
    ensures Before(a, b) ==> !Before(b, a)
  {
    LexLessAsymmetric(a.key, b.key);
  }

  lemma BeforeTotal(a: Entry, b: Entry)
    requires a.key != b.key
    ensures Before(a, b) || Before(b, a)
  {
    LexLessTotal(a.key, b.key);
  }

  lemma BeforeTransitive(a: Entry, b: Entry, c: Entry)
    requires Before(a, b) && Before(b, c)
    ensures Before(a, c)
  {
    if a.isFolder == b.isFolder && b.isFolder == c.isFolder {
      LexLessTransitive(a.key, b.key, c.key);
    }
  }

  predicate StrictlySorted(r: seq<Entry>) {
    forall i, j :: 0 <= i < j < |r| ==> Before(r[i], r[j])
  }

  /** In a sorted response every folder precedes every file. */
  lemma FoldersFirst(r: seq<Entry>, i: nat, j: nat)
    requires StrictlySorted(r) && i < j < |r|
    requires r[j].isFolder
    ensures r[i].isFolder
  {
  }

  lemma FirstIsElement(b: seq<Entry>)
    requires |b| > 0
    ensures b[0] in b
  {
  }

  /** Two sorted responses with the same entries are the same response. */
  lemma {:induction false} SortedUnique(a: seq<Entry>, b: seq<Entry>)
    requires StrictlySorted(a) && StrictlySorted(b)
    requires forall x :: x in a <==> x in b
    ensures a == b
    decreases |a|
  {
    if |a| > 0 {
      assert a[0] in b;
      assert b[0] in a;
      var i :| 0 <= i < |a| && a[i] == b[0];
      var j :| 0 <= j < |b| && b[j] == a[0];
      if a[0] != b[0] {
        assert Before(a[0], b[0]) by { assert i != 0; }
        assert Before(b[0], a[0]) by { assert j != 0; }
        BeforeAsymmetric(a[0], b[0]);
        assert false;
      }
      TailMembers(a, b);
      TailMembers(b, a);
      SortedUnique(a[1..], b[1..]);
      assert a == [a[0]] + a[1..];
      assert b == [b[0]] + b[1..];
    } else if |b| > 0 {
      FirstIsElement(b);
      assert false;
    }
  }

  /**
   * When two sorted responses start with the same entry and every entry of
   * `a` is in `b`, every later entry of `a` is a later entry of `b`.
   */
  lemma TailMembers(a: seq<Entry>, b: seq<Entry>)
    requires StrictlySorted(a) && |a| > 0 && |b| > 0 && a[0] == b[0]
    requires forall x :: x in a ==> x in b
    ensures forall x :: x in a[1..] ==> x in b[1..]
  {
    forall x | x in a[1..]
      ensures x in b[1..]
    {
      var k :| 1 <= k < |a| && a[k] == x;
      assert x in b;
      var k2 :| 0 <= k2 < |b| && b[k2] == x;
      if k2 == 0 {
        assert Before(a[0], a[k]);
        BeforeIrreflexive(x);
        assert false;
      }
      assert b[1..][k2 - 1] == x;
    }
  }

  /** `r` holds exactly the entries of `m`, in response order. */
  ghost predicate SortedValuesOf(m: map<string, Entry>, r: seq<Entry>) {
    && (forall i :: 0 <= i < |r| ==> r[i].key in m && m[r[i].key] == r[i])
    && (forall k :: k in m ==> exists i :: 0 <= i < |r| && r[i].key == k)
    && StrictlySorted(r)
  }

  function EntryKeys(r: seq<Entry>): set<string> {
    set i | 0 <= i < |r| :: r[i].key
  }

  lemma EntryKeysAppend(r: seq<Entry>, e: Entry)
    ensures EntryKeys(r + [e]) == EntryKeys(r) + {e.key}
  {
    var a := r + [e];
    assert forall i :: 0 <= i < |r| ==> a[i] == r[i];
    assert a[|r|] == e;
  }

  /** Among the keys `s` of `m` one entry comes first in response order. */
  lemma {:induction false} FirstEntryExists(m: map<string, Entry>, s: set<string>)
    requires s != {} && s <= m.Keys
    requires forall k :: k in m ==> m[k].key == k
    ensures exists k :: k in s && forall j :: j in s && j != k ==> Before(m[k], m[j])
    decreases |s|
  {
    var x :| x in s;
    if s != {x} {
      var rest := s - {x};
      FirstEntryExists(m, rest);
      var k :| k in rest && forall j :: j in rest && j != k ==> Before(m[k], m[j]);
      BeforeTotal(m[k], m[x]);
      if Before(m[k], m[x]) {
        assert forall j :: j in s && j != k ==> Before(m[k], m[j]);
      } else {
        forall j | j in s && j != x
          ensures Before(m[x], m[j])
        {
          if j != k {
            BeforeTransitive(m[x], m[k], m[j]);
          }
        }
      }
    }
  }

  /** The selection loop's state: `r` is sorted, drawn from `m`, and before every key still `remaining`. */
  ghost predicate SelectionState(m: map<string, Entry>, r: seq<Entry>, remaining: set<string>) {
    && remaining <= m.Keys
    && (forall k :: k in m ==> (k in remaining <==> k !in EntryKeys(r)))
    && (forall i :: 0 <= i < |r| ==> r[i].key in m && m[r[i].key] == r[i])
    && StrictlySorted(r)
    && (forall k, i :: k in remaining && 0 <= i < |r| ==> Before(r[i], m[k]))
  }

  /** Appending the first remaining entry keeps the selection state. */
  lemma SelectionStep(m: map<string, Entry>, r: seq<Entry>, remaining: set<string>, k: string)
    requires forall k :: k in m ==> m[k].key == k
    requires SelectionState(m, r, remaining)
    requires k in remaining && forall j :: j in remaining && j != k ==> Before(m[k], m[j])
    ensures SelectionState(m, r + [m[k]], remaining - {k})
  {
    EntryKeysAppend(r, m[k]);
    var r' := r + [m[k]];
    assert forall i :: 0 <= i < |r| ==> r'[i] == r[i];
    assert StrictlySorted(r') by {
      forall i, j | 0 <= i < j < |r'|
        ensures Before(r'[i], r'[j])
      {
        if j < |r| {
          assert Before(r[i], r[j]);
        } else {
          assert Before(r[i], m[k]);
        }
      }
    }
  }

  /** With nothing remaining, the selection holds every entry of `m`. */
  lemma SelectionDone(m: map<string, Entry>, r: seq<Entry>)
    requires SelectionState(m, r, {})
    ensures SortedValuesOf(m, r)
  {
    forall k | k in m
      ensures exists i :: 0 <= i < |r| && r[i].key == k
    {
      assert k in EntryKeys(r);
    }
  }

  /** `Array.from(filesMap.values()).sort(...)`. */
  method SortedValues(m: map<string, Entry>) returns (r: seq<Entry>)
    requires forall k :: k in m ==> m[k].key == k
    ensures SortedValuesOf(m, r)
  {
    var remaining := m.Keys;
    r := [];
    while remaining != {}
      invariant SelectionState(m, r, remaining)
      decreases remaining
    {
      FirstEntryExists(m, remaining);
      var k :| k in remaining && forall j :: j in remaining && j != k ==> Before(m[k], m[j]);
      SelectionStep(m, r, remaining, k);
      r := r + [m[k]];
      remaining := remaining - {k};
    }
    SelectionDone(m, r);
  }

  // ---------------------------------------------------------------------
  // The route

  /** `c.req.query('prefix') || ''`. */
  function QueryPrefix(q: Option<string>): string {
    if q.Some? && Truthy(q.value) then q.value else ""
  }

  /** `c.req.query('cursor') || ''`, passed on only when non-empty. */
  function QueryCursor(q: Option<string>): Option<string> {
    if q.Some? && Truthy(q.value) then Some(q.value) else None
  }

  /**
   * `parseInt(c.req.query('limit') || '100')` as the store receives it: a
   * positive value is capped at the store's page maximum, anything else
   * falls back to that maximum.
   */
  function QueryLimit(q: Option<string>): (limit: nat)
    ensures 1 <= limit <= DefaultListLimit
  {
    var parsed := ParseInt(if q.Some? && Truthy(q.value) then q.value else "100");
    if parsed.Some? && parsed.value >= 1 then
      (if parsed.value <= DefaultListLimit then parsed.value else DefaultListLimit)
    else DefaultListLimit
  }

  lemma DefaultQueryLimit()
    ensures QueryLimit(None) == 100
  {
    HundredDigits();
    ParseIntOfNatToString(100);
  }

  lemma HundredDigits()
    ensures NatToString(100) == "100"
  {
    assert NatToString(1) == "1";
    assert NatToString(10) == NatToString(1) + "0";
  }

  /** The for-loop over the page that fills `filesMap`. */
  method FillEntries(prefix: string, objs: seq<Obj>) returns (filesMap: map<string, Entry>)
    ensures filesMap == Build(prefix, objs)
  {
    filesMap := map[];
    var i := 0;
    while i < |objs|
      invariant 0 <= i <= |objs|
      invariant filesMap == Build(prefix, objs[..i])
    {
      BuildSnoc(prefix, objs, i);
      filesMap := FillEntry(filesMap, prefix, objs[i]);
      i := i + 1;
    }
    assert objs[..i] == objs;
  }

  /** One iteration of that loop: the object's effect on `filesMap`. */
  method FillEntry(filesMap: map<string, Entry>, prefix: string, obj: Obj) returns (m: map<string, Entry>)
    ensures m == Step(filesMap, prefix, obj)
  {
    var key := obj.key;
    m := filesMap;
    if key == prefix {
      // the current folder itself
    } else if EndsWith(key, "/") {
      assert Classify(prefix, key) == Marker;
      if key !in m {
        m := m[key := Entry(key, 0, Some(obj.uploaded), Some(obj.etag), None, true, Some(0))];
      } else {
        var existing := m[key];
        m := m[key := existing.(uploaded := Some(obj.uploaded), etag := Some(obj.etag), isFolder := true)];
      }
    } else {
      var relativePath := if prefix != "" then ReplaceFirst(key, prefix, "") else key;
      var parts := FilterNonEmpty(Split(relativePath, '/'));
      if |parts| > 1 {
        var folderPath := prefix + parts[0] + "/";
        assert Classify(prefix, key) == Nested(folderPath);
        if folderPath !in m {
          m := m[folderPath := Entry(folderPath, 0, None, None, None, true, Some(0))];
        }
        var folder := m[folderPath];
        m := m[folderPath := folder.(itemCount := Some(folder.itemCount.GetOr(0) + 1))];
      } else {
        assert Classify(prefix, key) == Direct;
        m := m[key := Entry(key, |obj.body|, Some(obj.uploaded), Some(obj.etag), Some(obj.httpMetadata), false, None)];
      }
    }
  }

  lemma BuildSnoc(prefix: string, objs: seq<Obj>, i: nat)
    requires i < |objs|
    ensures Build(prefix, objs[..i + 1]) == Step(Build(prefix, objs[..i]), prefix, objs[i])
  {
    assert objs[..i + 1][..i] == objs[..i];
  }

  /**
   * The listing route: one page from the store, folded into entries and
   * sorted. The store is only read.
   */
  method ListObjects(store: Store, prefixQ: Option<string>, limitQ: Option<string>, cursorQ: Option<string>)
    returns (resp: ListResponse, ghost page: Page)
    requires store.Valid()
    ensures IsPage(store.objects, QueryPrefix(prefixQ), QueryCursor(cursorQ), QueryLimit(limitQ), page)
    ensures SortedValuesOf(Build(QueryPrefix(prefixQ), page.objects), resp.objects)
    ensures resp.truncated == page.truncated
    ensures resp.cursor == (if page.truncated then page.cursor else None)
  {
    var prefix := QueryPrefix(prefixQ);
    var limit := QueryLimit(limitQ);
    var cursor := QueryCursor(cursorQ);
    var list := store.List(prefix, limit, cursor);
    page := list;
    var filesMap := FillEntries(prefix, list.objects);
    BuildKeys(prefix, list.objects);
    var uniqueFiles := SortedValues(filesMap);
    resp := ListResponse(uniqueFiles, list.truncated, if list.truncated then list.cursor else None);
  }
}
