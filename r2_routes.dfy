/**
 * The storage routes other than the listing: folder creation, move and
 * delete (with their one-page cascades over a folder's children), the
 * proxy's key and header choice, object info, and the three upload
 * routes (single upload or one part, multipart init, multipart complete).
 * `decodeURIComponent` and `encodeURIComponent` are parameters; `None`
 * from `decode` stands for the `URIError` it throws.
 */
module R2Routes {
  import opened Wrappers
  import opened JsString
  import opened Bucket

  /**
   * A route's reply: a JSON body, a JSON `{message}` with a status, or an
   * uncaught exception, which the framework turns into a plain-text 500.
   */
  datatype Reply<+T> = Success(value: T) | Failure(status: nat, message: string) | Crash

  const OctetStream := "application/octet-stream"
  const DirectoryType := "application/x-directory"

  /** `message || fallback`. */
  function OrElse(message: string, fallback: string): string {
    if message != "" then message else fallback
  }

  /** `try { decodeURIComponent(s) } catch { s }`. */
  function DecodeOrRaw(decode: string -> Option<string>, s: string): string {
    match decode(s)
    case Some(d) => d
    case None => s
  }

  /** The store's observable state, for stating what a sequence of calls does. */
  datatype StoreState = StoreState(objects: map<string, Obj>, clock: nat)

  /** Same bytes and metadata, wherever stored. */
  predicate SameContent(a: Obj, b: Obj) {
    a.body == b.body && a.httpMetadata == b.httpMetadata && a.customMetadata == b.customMetadata
  }

  // ---------------------------------------------------------------------
  // POST /folder

  /** `path.endsWith('/') ? path : path + '/'`. */
  function NormaliseFolderPath(path: string): (folderPath: string)
    ensures EndsWith(folderPath, "/")
    ensures folderPath == path || folderPath == path + "/"
    ensures EndsWith(path, "/") <==> folderPath == path
  {
    if EndsWith(path, "/") then path else path + "/"
  }

  lemma NormaliseFolderPathIdempotent(path: string)
    ensures NormaliseFolderPath(NormaliseFolderPath(path)) == NormaliseFolderPath(path)
  {
  }

  function FolderMetadata(userId: string, nowIso: string): map<string, string> {
    map["isFolder" := "true", "createdBy" := userId, "createdAt" := nowIso]
  }

  datatype FolderCreated = FolderCreated(key: string, isFolder: bool)

  method CreateFolder(store: Store, path: string, userId: string, nowIso: string) returns (r: Reply<FolderCreated>)
    requires store.Valid()
    modifies store
    ensures store.Valid() && store.sessions == old(store.sessions)
    ensures path == "" ==>
      r == Failure(400, "Path is required") && store.objects == old(store.objects) && store.clock == old(store.clock)
    ensures path != "" ==>
      var folderPath := NormaliseFolderPath(path);
      && r == Success(FolderCreated(folderPath, true))
      && store.objects == old(store.objects)[folderPath :=
           Written(folderPath, [], HttpMetadata(Some(DirectoryType)), FolderMetadata(userId, nowIso), old(store.clock))]
      && store.clock == old(store.clock) + 1
  {
    if path == "" {
      return Failure(400, "Path is required");
    }
    var folderPath := if EndsWith(path, "/") then path else path + "/";
    var written := store.Put(folderPath, [], HttpMetadata(Some(DirectoryType)), FolderMetadata(userId, nowIso));
    r := Success(FolderCreated(folderPath, true));
  }

  // ---------------------------------------------------------------------
  // PUT /move

  /**
   * The key a listed child moves to: the first `fromKey` in its key
   * replaced by `toKey`, taken literally. This is the evident intent of
   * `obj.key.replace(fromKey, toKey)`, and what it does when `toKey` holds
   * no `$`; `MovedKeyAsWritten` is the call as written.
   */
  function MovedKey(key: string, fromKey: string, toKey: string): string {
    ReplaceFirst(key, fromKey, toKey)
  }

  /** `obj.key.replace(fromKey, toKey)` as written: `$` patterns in `toKey` are expanded. */
  function MovedKeyAsWritten(key: string, fromKey: string, toKey: string): (newKey: string)
    ensures StartsWith(key, fromKey) ==>
      newKey == Substitution(toKey, fromKey, "", key[|fromKey|..]) + key[|fromKey|..]
    ensures '$' !in toKey ==> newKey == MovedKey(key, fromKey, toKey)
  {
    assert StartsWith(key, fromKey) ==>
      ReplaceFirstJs(key, fromKey, toKey) == Substitution(toKey, fromKey, "", key[|fromKey|..]) + key[|fromKey|..] by {
      if StartsWith(key, fromKey) {
        ReplaceJsPrefix(key, fromKey, toKey);
      }
    }
    assert '$' !in toKey ==> ReplaceFirstJs(key, fromKey, toKey) == MovedKey(key, fromKey, toKey) by {
      if '$' !in toKey {
        ReplaceFirstPlain(key, fromKey, toKey);
      }
    }
    ReplaceFirstJs(key, fromKey, toKey)
  }

  /**
   * As written, moving folder `a/` to `b$&/` sends its child `a/x` to
   * `ba//x`, since `$&` stands for the matched `a/`; the literal swap
   * gives `b$&/x`.
   */
  lemma MovedKeyAsWrittenExpands()
    ensures MovedKeyAsWritten("a/x", "a/", "b$&/") == "ba//x"
    ensures MovedKey("a/x", "a/", "b$&/") == "b$&/x"
  {
    var rest := "a/x"[|"a/"|..];
    assert rest == "x";
    assert StartsWith("a/x", "a/");
    MovedKeyOfPrefixed("a/x", "a/", "b$&/");
    assert Substitution("/", "a/", "", rest) == "/" by {
      assert Substitution("", "a/", "", rest) == "";
    }
    assert Substitution("$&/", "a/", "", rest) == "a//";
    assert Substitution("b$&/", "a/", "", rest) == "ba//";
  }

  /** Copy the source to `toKey`, then delete `fromKey`. */
  function MoveSource(s: StoreState, source: Obj, fromKey: string, toKey: string): StoreState {
    StoreState(
      s.objects[toKey := Written(toKey, source.body, source.httpMetadata, source.customMetadata, s.clock)] - {fromKey},
      s.clock + 1)
  }

  /** One iteration of the cascade: get the child, and if present copy it and delete it. */
  function MoveChild(s: StoreState, childKey: string, fromKey: string, toKey: string): StoreState {
    var newKey := MovedKey(childKey, fromKey, toKey);
    if childKey in s.objects then
      var child := s.objects[childKey];
      StoreState(
        s.objects[newKey := Written(newKey, child.body, child.httpMetadata, child.customMetadata, s.clock)] - {childKey},
        s.clock + 1)
    else s
  }

  /** The cascade over the listed children, in page order. */
  function MoveChildren(s: StoreState, children: seq<Obj>, fromKey: string, toKey: string): StoreState
    decreases |children|
  {
    if |children| == 0 then s
    else MoveChildren(MoveChild(s, children[0].key, fromKey, toKey), children[1..], fromKey, toKey)
  }

  datatype Moved = Moved(message: string, key: string)

  method Move(store: Store, from: string, to: string, decode: string -> Option<string>)
    returns (r: Reply<Moved>, ghost page: Page)
    requires store.Valid()
    modifies store
    ensures store.Valid() && store.sessions == old(store.sessions)
    ensures from == "" || to == "" ==>
      r == Failure(400, "From and to are required") && store.objects == old(store.objects) && store.clock == old(store.clock)
    ensures from != "" && to != "" && (decode(from).None? || decode(to).None?) ==>
      r == Crash && store.objects == old(store.objects) && store.clock == old(store.clock)
    ensures from != "" && to != "" && decode(from).Some? && decode(to).Some? ==>
      var fromKey := decode(from).value;
      var toKey := decode(to).value;
      && (fromKey !in old(store.objects) ==>
            r == Failure(404, "Source not found") && store.objects == old(store.objects) && store.clock == old(store.clock))
      && (fromKey in old(store.objects) ==>
            var s1 := MoveSource(StoreState(old(store.objects), old(store.clock)), old(store.objects)[fromKey], fromKey, toKey);
            && r == Success(Moved("moved", toKey))
            && (!EndsWith(fromKey, "/") ==> StoreState(store.objects, store.clock) == s1)
            && (EndsWith(fromKey, "/") ==>
                  IsPage(s1.objects, fromKey, None, DefaultListLimit, page) &&
                  StoreState(store.objects, store.clock) == MoveChildren(s1, page.objects, fromKey, toKey)))
  {
    page := Page([], false, None);
    if from == "" || to == "" {
      return Failure(400, "From and to are required"), page;
    }
    var decodedFrom := decode(from);
    if decodedFrom.None? {
      return Crash, page;
    }
    var decodedTo := decode(to);
    if decodedTo.None? {
      return Crash, page;
    }
    var fromKey := decodedFrom.value;
    var toKey := decodedTo.value;
    var source := store.Get(fromKey);
    if source.None? {
      return Failure(404, "Source not found"), page;
    }
    var copied := store.Put(toKey, source.value.body, source.value.httpMetadata, source.value.customMetadata);
    store.Delete(fromKey);
    assert source.value == old(store.objects)[fromKey];
    assert StoreState(store.objects, store.clock) ==
      MoveSource(StoreState(old(store.objects), old(store.clock)), source.value, fromKey, toKey);
    if EndsWith(fromKey, "/") {
      var list := store.List(fromKey, DefaultListLimit, None);
      page := list;
      MoveListed(store, list.objects, fromKey, toKey);
    }
    r := Success(Moved("moved", toKey));
  }

  /** The cascade of a folder move: each listed child is fetched, copied under the new prefix and deleted. */
  method MoveListed(store: Store, children: seq<Obj>, fromKey: string, toKey: string)
    requires store.Valid()
    modifies store
    ensures store.Valid() && store.sessions == old(store.sessions)
    ensures StoreState(store.objects, store.clock) ==
            MoveChildren(StoreState(old(store.objects), old(store.clock)), children, fromKey, toKey)
  {
    ghost var start := StoreState(store.objects, store.clock);
    var i := 0;
    while i < |children|
      invariant 0 <= i <= |children|
      invariant store.Valid() && store.sessions == old(store.sessions)
      invariant MoveChildren(StoreState(store.objects, store.clock), children[i..], fromKey, toKey) ==
                MoveChildren(start, children, fromKey, toKey)
    {
      var obj := children[i];
      var newKey := ReplaceFirst(obj.key, fromKey, toKey);
      var childObj := store.Get(obj.key);
      if childObj.Some? {
        var childCopy := store.Put(newKey, childObj.value.body, childObj.value.httpMetadata, childObj.value.customMetadata);
        store.Delete(obj.key);
      }
      assert children[i..][1..] == children[i + 1..];
      i := i + 1;
    }
  }

  // What a move does

  function MovedKeys(children: seq<Obj>, fromKey: string, toKey: string): set<string> {
    set i | 0 <= i < |children| :: MovedKey(children[i].key, fromKey, toKey)
  }

  predicate UnderPrefix(children: seq<Obj>, prefix: string) {
    forall i :: 0 <= i < |children| ==> StartsWith(children[i].key, prefix)
  }

  /** No child is copied onto a key that is itself one of the listed children. */
  predicate NoCollision(children: seq<Obj>, fromKey: string, toKey: string) {
    forall i, j :: 0 <= i < |children| && 0 <= j < |children| ==>
      MovedKey(children[i].key, fromKey, toKey) != children[j].key
  }

  /** For a key under `fromKey`, `replace` swaps the leading `fromKey` for `toKey`. */
  lemma MovedKeyOfPrefixed(key: string, fromKey: string, toKey: string)
    requires StartsWith(key, fromKey)
    ensures MovedKey(key, fromKey, toKey) == toKey + key[|fromKey|..]
  {
    ReplacePrefix(key, fromKey, toKey);
  }

  lemma MovedKeyInjective(a: string, b: string, fromKey: string, toKey: string)
    requires StartsWith(a, fromKey) && StartsWith(b, fromKey)
    ensures MovedKey(a, fromKey, toKey) == MovedKey(b, fromKey, toKey) ==> a == b
  {
    MovedKeyOfPrefixed(a, fromKey, toKey);
    MovedKeyOfPrefixed(b, fromKey, toKey);
    var ma := toKey + a[|fromKey|..];
    assert ma[|toKey|..] == a[|fromKey|..];
    assert (toKey + b[|fromKey|..])[|toKey|..] == b[|fromKey|..];
    assert a == fromKey + a[|fromKey|..];
    assert b == fromKey + b[|fromKey|..];
  }

  lemma KeysOfCons(children: seq<Obj>, fromKey: string, toKey: string)
    requires |children| > 0
    ensures PageKeys(children) == {children[0].key} + PageKeys(children[1..])
    ensures MovedKeys(children, fromKey, toKey) ==
      {MovedKey(children[0].key, fromKey, toKey)} + MovedKeys(children[1..], fromKey, toKey)
  {
    var rest := children[1..];
    assert forall i :: 0 <= i < |rest| ==> rest[i] == children[i + 1];
    forall k | k in PageKeys(children)
      ensures k in {children[0].key} + PageKeys(rest)
    {
      var i :| 0 <= i < |children| && children[i].key == k;
      if i > 0 {
        assert rest[i - 1].key == k;
      }
    }
    forall k | k in MovedKeys(children, fromKey, toKey)
      ensures k in {MovedKey(children[0].key, fromKey, toKey)} + MovedKeys(rest, fromKey, toKey)
    {
      var i :| 0 <= i < |children| && MovedKey(children[i].key, fromKey, toKey) == k;
      if i > 0 {
        assert MovedKey(rest[i - 1].key, fromKey, toKey) == k;
      }
    }
  }

  /**
   * When the listed children are distinct, present, under `fromKey` and
   * never copied onto one another, the cascade moves each child `c` to
   * `toKey + c[|fromKey|..]` with its content and removes `c`.
   */
  lemma {:induction false} MoveChildrenEffect(s: StoreState, children: seq<Obj>, fromKey: string, toKey: string)
    requires UnderPrefix(children, fromKey) && DistinctKeys(children)
    requires forall i :: 0 <= i < |children| ==> children[i].key in s.objects
    requires NoCollision(children, fromKey, toKey)
    ensures MoveChildren(s, children, fromKey, toKey).clock == s.clock + |children|
    ensures forall i :: 0 <= i < |children| ==>
      var r := MoveChildren(s, children, fromKey, toKey).objects;
      var target := MovedKey(children[i].key, fromKey, toKey);
      children[i].key !in r && target in r && SameContent(r[target], s.objects[children[i].key])
    decreases |children|
  {
    if |children| > 0 {
      var c0 := children[0].key;
      var rest := children[1..];
      var t0 := MovedKey(c0, fromKey, toKey);
      var s1 := MoveChild(s, c0, fromKey, toKey);
      MoveChildTail(s, children, fromKey, toKey);
      MoveChildrenEffect(s1, rest, fromKey, toKey);
      MoveChildrenKeeps(s1, rest, fromKey, toKey);
      var r := MoveChildren(s, children, fromKey, toKey).objects;
      assert r == MoveChildren(s1, rest, fromKey, toKey).objects;
      assert Lookup(r, t0) == Lookup(s1.objects, t0);
      assert Lookup(r, c0) == Lookup(s1.objects, c0);
      forall i | 0 <= i < |children|
        ensures var target := MovedKey(children[i].key, fromKey, toKey);
          children[i].key !in r && target in r && SameContent(r[target], s.objects[children[i].key])
      {
        if i > 0 {
          assert children[i] == rest[i - 1];
        }
      }
    }
  }

  /**
   * After the first child is moved, the rest still meet the cascade's
   * requirements, and neither the first child's key nor its target is
   * touched again.
   */
  lemma MoveChildTail(s: StoreState, children: seq<Obj>, fromKey: string, toKey: string)
    requires |children| > 0
    requires UnderPrefix(children, fromKey) && DistinctKeys(children)
    requires forall i :: 0 <= i < |children| ==> children[i].key in s.objects
    requires NoCollision(children, fromKey, toKey)
    ensures var rest := children[1..];
      var s1 := MoveChild(s, children[0].key, fromKey, toKey);
      && UnderPrefix(rest, fromKey) && DistinctKeys(rest) && NoCollision(rest, fromKey, toKey)
      && (forall j :: 0 <= j < |rest| ==> rest[j].key in s1.objects && s1.objects[rest[j].key] == s.objects[rest[j].key])
    ensures var t0 := MovedKey(children[0].key, fromKey, toKey);
      && t0 != children[0].key
      && t0 !in PageKeys(children[1..]) && t0 !in MovedKeys(children[1..], fromKey, toKey)
    ensures children[0].key !in PageKeys(children[1..]) && children[0].key !in MovedKeys(children[1..], fromKey, toKey)
  {
    var c0 := children[0].key;
    var rest := children[1..];
    var t0 := MovedKey(c0, fromKey, toKey);
    var s1 := MoveChild(s, c0, fromKey, toKey);
    assert forall i :: 0 <= i < |rest| ==> rest[i] == children[i + 1];
    assert t0 != c0 by { assert NoCollision(children, fromKey, toKey); }
    forall j | 0 <= j < |rest|
      ensures rest[j].key in s1.objects && s1.objects[rest[j].key] == s.objects[rest[j].key]
    {
      assert children[0].key != children[j + 1].key;
      assert t0 != children[j + 1].key;
    }
    assert t0 !in PageKeys(rest) by {
      forall j | 0 <= j < |rest| ensures rest[j].key != t0 {
        assert t0 != children[j + 1].key;
      }
    }
    assert t0 !in MovedKeys(rest, fromKey, toKey) by {
      forall j | 0 <= j < |rest| ensures MovedKey(rest[j].key, fromKey, toKey) != t0 {
        MovedKeyInjective(rest[j].key, c0, fromKey, toKey);
        assert children[0].key != children[j + 1].key;
      }
    }
    assert c0 !in PageKeys(rest) by {
      forall j | 0 <= j < |rest| ensures rest[j].key != c0 {
        assert children[0].key != children[j + 1].key;
      }
    }
    assert c0 !in MovedKeys(rest, fromKey, toKey) by {
      forall j | 0 <= j < |rest| ensures MovedKey(rest[j].key, fromKey, toKey) != c0 {
        assert MovedKey(children[j + 1].key, fromKey, toKey) != children[0].key;
      }
    }
  }

  /** The cascade touches only the listed keys and their targets. */
  lemma {:induction false} MoveChildrenKeeps(s: StoreState, children: seq<Obj>, fromKey: string, toKey: string)
    ensures forall k :: k !in PageKeys(children) && k !in MovedKeys(children, fromKey, toKey) ==>
      Lookup(MoveChildren(s, children, fromKey, toKey).objects, k) == Lookup(s.objects, k)
    decreases |children|
  {
    if |children| > 0 {
      var s1 := MoveChild(s, children[0].key, fromKey, toKey);
      MoveChildrenKeeps(s1, children[1..], fromKey, toKey);
      KeysOfCons(children, fromKey, toKey);
    }
  }

  /** Keys that are not prefixes of one another cannot collide. */
  lemma SeparatedNoCollision(children: seq<Obj>, fromKey: string, toKey: string)
    requires UnderPrefix(children, fromKey)
    requires !StartsWith(toKey, fromKey) && !StartsWith(fromKey, toKey)
    ensures NoCollision(children, fromKey, toKey)
  {
    forall i, j | 0 <= i < |children| && 0 <= j < |children|
      ensures MovedKey(children[i].key, fromKey, toKey) != children[j].key
    {
      var c := children[i].key;
      MovedKeyOfPrefixed(c, fromKey, toKey);
      PrefixOfExtension(toKey, c[|fromKey|..], fromKey);
    }
  }

  /** The state right after the source itself is moved. */
  function AfterSource(objects: map<string, Obj>, clock: nat, fromKey: string, toKey: string): StoreState
    requires fromKey in objects
  {
    MoveSource(StoreState(objects, clock), objects[fromKey], fromKey, toKey)
  }

  /** The hypotheses under which a folder move relocates the whole folder. */
  ghost predicate FolderMoveSetting(objects: map<string, Obj>, clock: nat, fromKey: string, toKey: string, page: Page) {
    && (forall k :: k in objects ==> objects[k].key == k)
    && fromKey in objects && EndsWith(fromKey, "/")
    && !StartsWith(toKey, fromKey) && !StartsWith(fromKey, toKey)
    && IsPage(AfterSource(objects, clock, fromKey, toKey).objects, fromKey, None, DefaultListLimit, page)
    && !page.truncated
  }

  /** Neither the marker's key nor its new key is touched by the children's cascade. */
  lemma MarkerKeysOutsideCascade(objects: map<string, Obj>, clock: nat, fromKey: string, toKey: string, page: Page)
    requires FolderMoveSetting(objects, clock, fromKey, toKey, page)
    ensures toKey !in PageKeys(page.objects) && toKey !in MovedKeys(page.objects, fromKey, toKey)
    ensures fromKey !in PageKeys(page.objects) && fromKey !in MovedKeys(page.objects, fromKey, toKey)
  {
    var s1 := AfterSource(objects, clock, fromKey, toKey);
    var children := page.objects;
    assert fromKey !in s1.objects;
    forall i | 0 <= i < |children|
      ensures MovedKey(children[i].key, fromKey, toKey) != toKey
      ensures MovedKey(children[i].key, fromKey, toKey) != fromKey
    {
      var c := children[i].key;
      assert c in s1.objects;
      MovedKeyOfPrefixed(c, fromKey, toKey);
      MovedKeyOfPrefixed(fromKey, fromKey, toKey);
      assert fromKey[|fromKey|..] == "";
      MovedKeyInjective(c, fromKey, fromKey, toKey);
      assert StartsWith(MovedKey(c, fromKey, toKey), toKey);
    }
  }

  /** The cascade's effect lemma applies to the listed children. */
  lemma FolderCascadeApplies(objects: map<string, Obj>, clock: nat, fromKey: string, toKey: string, page: Page)
    requires FolderMoveSetting(objects, clock, fromKey, toKey, page)
    ensures var s1 := AfterSource(objects, clock, fromKey, toKey);
      var r := MoveChildren(s1, page.objects, fromKey, toKey).objects;
      && (forall i :: 0 <= i < |page.objects| ==>
            var target := MovedKey(page.objects[i].key, fromKey, toKey);
            page.objects[i].key !in r && target in r && SameContent(r[target], s1.objects[page.objects[i].key]))
      && (forall k :: k !in PageKeys(page.objects) && k !in MovedKeys(page.objects, fromKey, toKey) ==>
            Lookup(r, k) == Lookup(s1.objects, k))
  {
    var s1 := AfterSource(objects, clock, fromKey, toKey);
    PageDistinct(s1.objects, fromKey, None, DefaultListLimit, page);
    SeparatedNoCollision(page.objects, fromKey, toKey);
    MoveChildrenEffect(s1, page.objects, fromKey, toKey);
    MoveChildrenKeeps(s1, page.objects, fromKey, toKey);
  }

  /**
   * Moving a folder whose marker exists, to a key that is neither inside
   * nor above it, when its children fit on one page: every key under
   * `fromKey` (the marker included) is gone and its content sits under
   * the same remainder after `toKey`.
   */
  lemma MoveFolderRelocates(objects: map<string, Obj>, clock: nat, fromKey: string, toKey: string, page: Page, k: string)
    requires FolderMoveSetting(objects, clock, fromKey, toKey, page)
    requires k in objects && StartsWith(k, fromKey)
    ensures var r := MoveChildren(AfterSource(objects, clock, fromKey, toKey), page.objects, fromKey, toKey).objects;
      k !in r && MovedKey(k, fromKey, toKey) in r && SameContent(r[MovedKey(k, fromKey, toKey)], objects[k])
  {
    var s1 := AfterSource(objects, clock, fromKey, toKey);
    var children := page.objects;
    var r := MoveChildren(s1, children, fromKey, toKey).objects;
    FolderCascadeApplies(objects, clock, fromKey, toKey, page);
    if k == fromKey {
      MarkerKeysOutsideCascade(objects, clock, fromKey, toKey, page);
      MovedKeyOfPrefixed(fromKey, fromKey, toKey);
      assert fromKey[|fromKey|..] == "";
      assert toKey + "" == toKey;
      assert MovedKey(k, fromKey, toKey) == toKey;
      assert Lookup(r, toKey) == Lookup(s1.objects, toKey);
      assert toKey in s1.objects && SameContent(s1.objects[toKey], objects[fromKey]);
      assert Lookup(r, fromKey) == Lookup(s1.objects, fromKey);
      assert fromKey !in r;
    } else {
      assert k != toKey;
      assert s1.objects[k] == objects[k];
      CompletePage(s1.objects, fromKey, None, DefaultListLimit, page, k);
      var i :| 0 <= i < |children| && children[i].key == k;
    }
  }

  /** A folder move leaves keys under neither prefix untouched. */
  lemma MoveFolderKeepsOthers(objects: map<string, Obj>, clock: nat, fromKey: string, toKey: string, page: Page, k: string)
    requires FolderMoveSetting(objects, clock, fromKey, toKey, page)
    requires !StartsWith(k, fromKey) && !StartsWith(k, toKey)
    ensures Lookup(MoveChildren(AfterSource(objects, clock, fromKey, toKey), page.objects, fromKey, toKey).objects, k) == Lookup(objects, k)
  {
    var s1 := AfterSource(objects, clock, fromKey, toKey);
    var children := page.objects;
    assert k != fromKey && k != toKey;
    assert Lookup(s1.objects, k) == Lookup(objects, k);
    assert k !in PageKeys(children) by {
      forall i | 0 <= i < |children| ensures children[i].key != k {
        assert Eligible(s1.objects, fromKey, None, children[i].key);
      }
    }
    assert k !in MovedKeys(children, fromKey, toKey) by {
      forall i | 0 <= i < |children| ensures MovedKey(children[i].key, fromKey, toKey) != k {
        assert Eligible(s1.objects, fromKey, None, children[i].key);
        MovedKeyOfPrefixed(children[i].key, fromKey, toKey);
      }
    }
    FolderCascadeApplies(objects, clock, fromKey, toKey, page);
  }

  // ---------------------------------------------------------------------
  // Key parameters taken from the URL path

  /** `parts.indexOf(x)`. */
  function IndexOfPiece(parts: seq<string>, x: string): (i: int)
    ensures -1 <= i < |parts|
    ensures i >= 0 ==> parts[i] == x && forall j :: 0 <= j < i ==> parts[j] != x
    ensures i == -1 ==> x !in parts
    decreases |parts|
  {
    if |parts| == 0 then -1
    else if parts[0] == x then 0
    else
      var j := IndexOfPiece(parts[1..], x);
      if j < 0 then -1 else j + 1
  }

  /** Everything after the first path segment equal to `segment`, if any follows it. */
  function KeyFromPath(pathname: string, segment: string): Option<string> {
    var pathParts := Split(pathname, '/');
    var index := IndexOfPiece(pathParts, segment);
    if 0 <= index < |pathParts| - 1 then Some(Join(pathParts[index + 1..], '/')) else None
  }

  /** The route parameter, or, when it is empty or blank, the key recovered from the path. */
  function ResolveKeyParam(param: string, pathname: string, segment: string): string {
    if !Truthy(param) || IsBlank(param) then
      match KeyFromPath(pathname, segment)
      case Some(k) => k
      case None => param
    else param
  }

  /** A path `/r2/proxy/<key>` yields `<key>` when the parameter is missing. */
  lemma ProxyPathRecoversKey(key: string)
    ensures ResolveKeyParam("", "/r2/proxy/" + key, "proxy") == key
  {
    var parts := Split("/r2/proxy/" + key, '/');
    ProxyPathSplit(key);
    assert parts[0] != "proxy" && parts[1] != "proxy" && parts[2] == "proxy";
    assert IndexOfPiece(parts, "proxy") == 2;
    assert parts[3..] == Split(key, '/');
    SplitJoin(key, '/');
  }

  lemma ProxyPathSplit(key: string)
    ensures Split("/r2/proxy/" + key, '/') == ["", "r2", "proxy"] + Split(key, '/')
  {
    assert "/r2/proxy/" + key == "" + ['/'] + ("r2" + ['/'] + ("proxy" + ['/'] + key));
    SplitAfterPiece("proxy", '/', key);
    SplitAfterPiece("r2", '/', "proxy" + ['/'] + key);
    SplitAfterPiece("", '/', "r2" + ['/'] + ("proxy" + ['/'] + key));
  }

  /** A path `/r2/<key>` yields `<key>` when the parameter is missing. */
  lemma DeletePathRecoversKey(key: string)
    ensures ResolveKeyParam("", "/r2/" + key, "r2") == key
  {
    var p := "/r2/" + key;
    assert p == "" + ['/'] + ("r2" + ['/'] + key);
    SplitAfterPiece("r2", '/', key);
    SplitAfterPiece("", '/', "r2" + ['/'] + key);
    var parts := Split(p, '/');
    assert parts == ["", "r2"] + Split(key, '/');
    assert IndexOfPiece(parts, "r2") == 1;
    assert parts[2..] == Split(key, '/');
    SplitJoin(key, '/');
  }

  // ---------------------------------------------------------------------
  // DELETE /:key

  method Delete(store: Store, param: string, pathname: string, decode: string -> Option<string>)
    returns (r: Reply<string>, ghost page: Page)
    requires store.Valid()
    modifies store
    ensures store.Valid() && store.sessions == old(store.sessions) && store.clock == old(store.clock)
    ensures var keyParam := ResolveKeyParam(param, pathname, "r2");
      && (keyParam == "" ==> r == Failure(400, "Key is required") && store.objects == old(store.objects))
      && (keyParam != "" ==>
            var key := DecodeOrRaw(decode, keyParam);
            && r == Success("deleted")
            && (EndsWith(key, "/") ==>
                  IsPage(old(store.objects), key, None, DefaultListLimit, page) &&
                  store.objects == old(store.objects) - PageKeys(page.objects) - {key})
            && (!EndsWith(key, "/") ==> store.objects == old(store.objects) - {key}))
  {
    page := Page([], false, None);
    var keyParam := param;
    if !Truthy(keyParam) || IsBlank(keyParam) {
      var recovered := KeyFromPath(pathname, "r2");
      if recovered.Some? {
        keyParam := recovered.value;
      }
    }
    if keyParam == "" {
      return Failure(400, "Key is required"), page;
    }
    var key := DecodeOrRaw(decode, keyParam);
    if EndsWith(key, "/") {
      var list := store.List(key, DefaultListLimit, None);
      page := list;
      var i := 0;
      while i < |list.objects|
        invariant 0 <= i <= |list.objects|
        invariant store.Valid() && store.sessions == old(store.sessions) && store.clock == old(store.clock)
        invariant store.objects == old(store.objects) - PageKeys(list.objects[..i])
      {
        PageKeysAppend(list.objects[..i], list.objects[i]);
        assert list.objects[..i + 1] == list.objects[..i] + [list.objects[i]];
        store.Delete(list.objects[i].key);
        i := i + 1;
      }
      assert list.objects[..i] == list.objects;
    }
    store.Delete(key);
    r := Success("deleted");
  }

  /**
   * Deleting a folder removes only keys under it; when its children fit
   * on one page, no key under it survives.
   */
  lemma DeleteFolderEffect(objects: map<string, Obj>, key: string, page: Page)
    requires IsPage(objects, key, None, DefaultListLimit, page)
    ensures forall k :: !StartsWith(k, key) ==> Lookup(objects - PageKeys(page.objects) - {key}, k) == Lookup(objects, k)
    ensures !page.truncated ==> forall k :: StartsWith(k, key) ==> k !in objects - PageKeys(page.objects) - {key}
  {
    forall k | !StartsWith(k, key)
      ensures k !in PageKeys(page.objects)
    {
    }
    if !page.truncated {
      forall k | StartsWith(k, key) && k in objects && k != key
        ensures k in PageKeys(page.objects)
      {
        CompletePage(objects, key, None, DefaultListLimit, page, k);
      }
    }
  }

  // ---------------------------------------------------------------------
  // GET /proxy/:key

  /** The stored content type if set, else one guessed from a few image extensions, else none. */
  function ProxyContentType(stored: Option<string>, key: string): (ct: Option<string>)
    ensures stored.Some? && Truthy(stored.value) ==> ct == stored
    ensures ct.Some? ==> Truthy(ct.value)
  {
    if stored.Some? && Truthy(stored.value) then stored
    else ProxyGuess(ToLower(AfterLast(key, '.')))
  }

  /** The proxy's guess from the lower-cased extension. */
  function ProxyGuess(ext: string): Option<string> {
    if ext == "webp" then Some("image/webp")
    else if ext == "jpg" || ext == "jpeg" then Some("image/jpeg")
    else if ext == "png" then Some("image/png")
    else if ext == "gif" then Some("image/gif")
    else if ext == "svg" then Some("image/svg+xml")
    else None
  }

  /** The extensions the proxy recognises when no type is stored. */
  const ProxyImageExtensions: set<string> := {"webp", "jpg", "jpeg", "png", "gif", "svg"}

  /** Without a stored type, an extension outside the six leaves the header unset. */
  lemma ProxyUnknownExtension(stored: Option<string>, key: string)
    requires stored.None? || stored.value == ""
    ensures ProxyContentType(stored, key).None? <==> ToLower(AfterLast(key, '.')) !in ProxyImageExtensions
  {
  }

  /** `key.split('/').pop() || key`. */
  function ProxyFileName(key: string): (name: string)
    ensures !EndsWith(key, "/") ==> '/' !in name && EndsWith(key, name)
  {
    AfterLastIsSuffix(key, '/');
    AfterLastEmpty(key, '/');
    var last := AfterLast(key, '/');
    if last != "" then last else key
  }

  datatype ProxyResponse = ProxyResponse(
    contentType: Option<string>,
    contentDisposition: string,
    contentLength: string,
    etag: Option<string>,
    body: Bytes)

  method Proxy(store: Store, param: string, pathname: string, decode: string -> Option<string>, encode: string -> string)
    returns (r: Reply<ProxyResponse>)
    ensures var keyParam := ResolveKeyParam(param, pathname, "proxy");
      && (IsBlank(keyParam) ==> r == Failure(400, "Key is required"))
      && (!IsBlank(keyParam) ==>
            var key := DecodeOrRaw(decode, keyParam);
            && (key !in store.objects ==> r == Failure(404, "File not found"))
            && (key in store.objects ==>
                  var o := store.objects[key];
                  && r.Success?
                  && r.value.contentType == ProxyContentType(o.httpMetadata.contentType, key)
                  && r.value.contentDisposition == "inline; filename=\"" + encode(ProxyFileName(key)) + "\""
                  && ParseInt(r.value.contentLength) == Some(|o.body|)
                  && r.value.etag == (if Truthy(o.etag) then Some(o.etag) else None)
                  && r.value.body == o.body))
  {
    var keyParam := param;
    if !Truthy(keyParam) || IsBlank(keyParam) {
      var recovered := KeyFromPath(pathname, "proxy");
      if recovered.Some? {
        keyParam := recovered.value;
      }
    }
    if !Truthy(keyParam) || IsBlank(keyParam) {
      return Failure(400, "Key is required");
    }
    var key := DecodeOrRaw(decode, keyParam);
    var found := store.Get(key);
    if found.None? {
      return Failure(404, "File not found");
    }
    var o := found.value;
    var contentType := ProxyContentType(o.httpMetadata.contentType, key);
    var fileName := ProxyFileName(key);
    ParseIntOfNatToString(|o.body|);
    r := Success(ProxyResponse(
      contentType,
      "inline; filename=\"" + encode(fileName) + "\"",
      NatToString(|o.body|),
      if Truthy(o.etag) then Some(o.etag) else None,
      o.body));
  }

  // ---------------------------------------------------------------------
  // GET /info/:key

  datatype InfoBody = InfoBody(
    key: string,
    size: nat,
    etag: string,
    uploaded: nat,
    httpMetadata: HttpMetadata,
    customMetadata: map<string, string>)

  method Info(store: Store, keyParam: string, decode: string -> Option<string>) returns (r: Reply<InfoBody>)
    ensures keyParam == "" ==> r == Failure(400, "Key is required")
    ensures keyParam != "" && decode(keyParam).None? ==> r == Crash
    ensures keyParam != "" && decode(keyParam).Some? ==>
      var key := decode(keyParam).value;
      && (key !in store.objects ==> r == Failure(404, "File not found"))
      && (key in store.objects ==>
            var o := store.objects[key];
            r == Success(InfoBody(key, |o.body|, o.etag, o.uploaded, o.httpMetadata, o.customMetadata)))
  {
    if keyParam == "" {
      return Failure(400, "Key is required");
    }
    var decoded := decode(keyParam);
    if decoded.None? {
      return Crash;
    }
    var key := decoded.value;
    var found := store.Head(key);
    if found.None? {
      return Failure(404, "File not found");
    }
    var o := found.value;
    r := Success(InfoBody(key, |o.body|, o.etag, o.uploaded, o.httpMetadata, o.customMetadata));
  }

  // ---------------------------------------------------------------------
  // POST /upload, /upload/init, /upload/complete

  /** The `file` field of the form. */
  datatype FormFile = FormFile(name: string, mime: string, bytes: Bytes)

  datatype UploadReply =
    | Stored(key: string, size: nat, contentType: string)
    | PartStored(uploadId: string, partNumber: int, etag: string)

  /** The key of a single upload sent without one: `${Date.now()}-${name}`. */
  function GeneratedKey(now: nat, name: string): string {
    NatToString(now) + "-" + name
  }

  function UploadMetadata(name: string, userId: string, nowIso: string): map<string, string> {
    map["originalName" := name, "uploadedBy" := userId, "uploadedAt" := nowIso]
  }

  /** A request with `uploadId` and `partNumber` is a part upload. */
  predicate IsPartRequest(uploadId: string, partNumber: string) {
    Truthy(uploadId) && Truthy(partNumber)
  }

  method Upload(store: Store, file: Option<FormFile>, key: string, uploadId: string, partNumber: string,
                userId: string, now: nat, nowIso: string)
    returns (r: Reply<UploadReply>)
    requires store.Valid()
    modifies store
    ensures store.Valid()
    ensures file.None? ==>
      r == Failure(400, "File is required") &&
      store.objects == old(store.objects) && store.sessions == old(store.sessions) && store.clock == old(store.clock)
    ensures file.Some? && IsPartRequest(uploadId, partNumber) && key == "" ==>
      r == Failure(400, "Key is required for multipart upload") &&
      store.objects == old(store.objects) && store.sessions == old(store.sessions) && store.clock == old(store.clock)
    ensures file.Some? && IsPartRequest(uploadId, partNumber) && key != "" ==>
      var parsed := ParseInt(partNumber);
      && store.objects == old(store.objects)
      && (parsed.None? ==>
            r == Failure(500, BadPartNumber) && store.sessions == old(store.sessions) && store.clock == old(store.clock))
      && (parsed.Some? ==>
            var outcome := PartOutcome(old(store.sessions), old(store.clock), key, uploadId, parsed.value);
            && (outcome.Err? ==>
                  r == Failure(500, OrElse(outcome.message, "Failed to upload part")) &&
                  store.sessions == old(store.sessions) && store.clock == old(store.clock))
            && (outcome.Ok? ==>
                  r == Success(PartStored(uploadId, parsed.value, outcome.value.etag)) &&
                  store.sessions == AddPart(old(store.sessions), uploadId, parsed.value, file.value.bytes, outcome.value.etag) &&
                  store.clock == old(store.clock) + 1))
    ensures file.Some? && !IsPartRequest(uploadId, partNumber) ==>
      var f := file.value;
      var fileKey := if Truthy(key) then key else GeneratedKey(now, f.name);
      && r == Success(Stored(fileKey, |f.bytes|, f.mime))
      && store.objects == old(store.objects)[fileKey :=
           Written(fileKey, f.bytes, HttpMetadata(Some(OrElse(f.mime, OctetStream))), UploadMetadata(f.name, userId, nowIso), old(store.clock))]
      && store.sessions == old(store.sessions) && store.clock == old(store.clock) + 1
  {
    if file.None? {
      return Failure(400, "File is required");
    }
    var f := file.value;
    if Truthy(uploadId) && Truthy(partNumber) && !Truthy(key) {
      return Failure(400, "Key is required for multipart upload");
    }
    if Truthy(uploadId) && Truthy(partNumber) && Truthy(key) {
      var partNum := ParseInt(partNumber);
      if partNum.None? {
        return Failure(500, BadPartNumber);
      }
      var uploaded := store.UploadPart(key, uploadId, partNum.value, f.bytes);
      if uploaded.Err? {
        return Failure(500, OrElse(uploaded.message, "Failed to upload part"));
      }
      return Success(PartStored(uploadId, partNum.value, uploaded.value.etag));
    }
    var fileKey := if Truthy(key) then key else GeneratedKey(now, f.name);
    var written := store.Put(fileKey, f.bytes, HttpMetadata(Some(OrElse(f.mime, OctetStream))), UploadMetadata(f.name, userId, nowIso));
    r := Success(Stored(fileKey, |f.bytes|, f.mime));
  }

  datatype InitReply = InitReply(uploadId: string, key: string)

  method UploadInit(store: Store, key: string, contentType: Option<string>) returns (r: Reply<InitReply>)
    requires store.Valid()
    modifies store
    ensures store.Valid() && store.objects == old(store.objects)
    ensures key == "" ==>
      r == Failure(400, "Key is required") && store.sessions == old(store.sessions) && store.clock == old(store.clock)
    ensures key != "" ==>
      var ct := if contentType.Some? then OrElse(contentType.value, OctetStream) else OctetStream;
      && r == Success(InitReply(UploadIdFor(old(store.clock)), key))
      && store.sessions == old(store.sessions)[UploadIdFor(old(store.clock)) := Session(key, HttpMetadata(Some(ct)), map[])]
      && store.clock == old(store.clock) + 1
  {
    if key == "" {
      return Failure(400, "Key is required");
    }
    var ct := if contentType.Some? then OrElse(contentType.value, OctetStream) else OctetStream;
    var uploadId := store.CreateMultipartUpload(key, HttpMetadata(Some(ct)));
    r := Success(InitReply(uploadId, key));
  }

  datatype Completed = Completed(key: string, size: nat, etag: Option<string>)

  method UploadComplete(store: Store, key: string, uploadId: string, parts: Option<seq<UploadedPart>>)
    returns (r: Reply<Completed>)
    requires store.Valid()
    modifies store
    ensures store.Valid()
    ensures key == "" || uploadId == "" || parts.None? ==>
      r == Failure(400, "Key, uploadId and parts are required") &&
      store.objects == old(store.objects) && store.sessions == old(store.sessions) && store.clock == old(store.clock)
    ensures key != "" && uploadId != "" && parts.Some? ==>
      var outcome := CompleteOutcome(old(store.sessions), old(store.clock), key, uploadId, parts.value);
      && (outcome.Err? ==>
            r == Crash && store.objects == old(store.objects) && store.sessions == old(store.sessions) && store.clock == old(store.clock))
      && (outcome.Ok? ==>
            && r == Success(Completed(key, |outcome.value.body|, Some(outcome.value.etag)))
            && store.objects == old(store.objects)[key := outcome.value]
            && store.sessions == old(store.sessions) - {uploadId}
            && store.clock == old(store.clock) + 1)
  {
    if key == "" || uploadId == "" || parts.None? {
      return Failure(400, "Key, uploadId and parts are required");
    }
    var completed := store.CompleteMultipartUpload(key, uploadId, parts.value);
    if completed.Err? {
      return Crash;
    }
    var obj := store.Head(key);
    var size := if obj.Some? then |obj.value.body| else 0;
    var etag := if obj.Some? then Some(obj.value.etag) else None;
    r := Success(Completed(key, size, etag));
  }
}
