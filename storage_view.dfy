/**
 * The storage page: it lists the current folder (500 entries at most),
 * uploads dropped files one by one into a folder and reloads, creates a
 * folder under the current one, renames an entry, navigates, and names
 * downloads.
 * Requests go to the route handlers of R2Routes and Listing on one store.
 */
module StorageView {
  import opened Wrappers
  import opened JsString
  import opened Bucket
  import opened R2Routes
  import Listing
  import Finder
  import FileUploader

  /** The page size the view asks for. */
  const ListLimit := 500

  /** `targetPath || currentPath`. */
  function UploadPath(targetPath: Option<string>, currentPath: string): string {
    if targetPath.Some? && Truthy(targetPath.value) then targetPath.value else currentPath
  }

  /** `uploadPath ? uploadPath + fileName : fileName`. */
  function UploadKey(uploadPath: string, fileName: string): (key: string)
    ensures key == uploadPath + fileName
  {
    if Truthy(uploadPath) then uploadPath + fileName else fileName
  }

  /** The key the server stores a file under: the sent key, or a generated one when it is empty. */
  function StoredKey(uploadPath: string, fileName: string, now: nat): string {
    var key := UploadKey(uploadPath, fileName);
    if Truthy(key) then key else GeneratedKey(now, fileName)
  }

  /** A file uploaded into a folder is shown there under its own name. */
  lemma UploadKeyInFolder(uploadPath: string, fileName: string, now: nat)
    requires Finder.IsFolderPath(uploadPath) && Finder.IsSegment(fileName)
    ensures StoredKey(uploadPath, fileName, now) == uploadPath + fileName
    ensures Finder.ItemName(StoredKey(uploadPath, fileName, now)) == fileName
  {
    Finder.ItemNameOfChild(uploadPath, fileName);
  }

  /** Files with different names dropped into one folder get different keys. */
  lemma UploadKeysDistinct(uploadPath: string, a: string, b: string, nowA: nat, nowB: nat)
    requires a != b && (Truthy(uploadPath) || (a != "" && b != ""))
    ensures StoredKey(uploadPath, a, nowA) != StoredKey(uploadPath, b, nowB)
  {
    Finder.SiblingsDiffer(uploadPath, a, b);
  }

  /** The stored object of one single-request upload. */
  function UploadedObject(key: string, f: FileUploader.File, userId: string, nowIso: string, clock: nat): Obj {
    Written(key, f.bytes, HttpMetadata(Some(OrElse(f.mime, OctetStream))), UploadMetadata(f.name, userId, nowIso), clock)
  }

  /** The writes of uploading `files` in order, one request each, from store version `clock`. */
  function UploadWrites(uploadPath: string, files: seq<FileUploader.File>, nows: seq<nat>,
                        userId: string, nowIso: string, clock: nat): (writes: seq<(string, Obj)>)
    requires |nows| == |files|
    ensures |writes| == |files|
  {
    seq(|files|, i requires 0 <= i < |files| =>
      var key := StoredKey(uploadPath, files[i].name, nows[i]);
      (key, UploadedObject(key, files[i], userId, nowIso, clock + i)))
  }

  /** The objects after a sequence of writes, in order. */
  function ApplyWrites(objects: map<string, Obj>, writes: seq<(string, Obj)>): map<string, Obj>
    decreases |writes|
  {
    if |writes| == 0 then objects
    else ApplyWrites(objects[writes[0].0 := writes[0].1], writes[1..])
  }

  /** A key no write touches keeps its object. */
  lemma {:induction false} ApplyWritesKeepsOthers(objects: map<string, Obj>, writes: seq<(string, Obj)>, k: string)
    requires forall i :: 0 <= i < |writes| ==> writes[i].0 != k
    ensures Lookup(ApplyWrites(objects, writes), k) == Lookup(objects, k)
    decreases |writes|
  {
    if |writes| > 0 {
      assert writes[0].0 != k;
      assert forall i :: 0 <= i < |writes[1..]| ==> writes[1..][i] == writes[i + 1];
      ApplyWritesKeepsOthers(objects[writes[0].0 := writes[0].1], writes[1..], k);
    }
  }

  /** The write at `i`, when no later write reuses its key, is what the key ends up holding. */
  lemma {:induction false} ApplyWritesLastWins(objects: map<string, Obj>, writes: seq<(string, Obj)>, i: nat)
    requires i < |writes|
    requires forall j :: i < j < |writes| ==> writes[j].0 != writes[i].0
    ensures Lookup(ApplyWrites(objects, writes), writes[i].0) == Some(writes[i].1)
    decreases |writes|
  {
    var next := objects[writes[0].0 := writes[0].1];
    assert forall j :: 0 <= j < |writes[1..]| ==> writes[1..][j] == writes[j + 1];
    if i == 0 {
      ApplyWritesKeepsOthers(next, writes[1..], writes[0].0);
    } else {
      ApplyWritesLastWins(next, writes[1..], i - 1);
    }
  }

  /** The objects after uploading all of `files` in order. */
  function UploadAll(objects: map<string, Obj>, clock: nat, uploadPath: string, files: seq<FileUploader.File>,
                     nows: seq<nat>, userId: string, nowIso: string): map<string, Obj>
    requires |nows| == |files|
  {
    ApplyWrites(objects, UploadWrites(uploadPath, files, nows, userId, nowIso, clock))
  }

  /** A key none of the files is uploaded under keeps its object. */
  lemma UploadAllKeepsOthers(objects: map<string, Obj>, clock: nat, uploadPath: string,
      files: seq<FileUploader.File>, nows: seq<nat>, userId: string, nowIso: string, k: string)
    requires |nows| == |files|
    requires forall i :: 0 <= i < |files| ==> StoredKey(uploadPath, files[i].name, nows[i]) != k
    ensures Lookup(UploadAll(objects, clock, uploadPath, files, nows, userId, nowIso), k) == Lookup(objects, k)
  {
    ApplyWritesKeepsOthers(objects, UploadWrites(uploadPath, files, nows, userId, nowIso, clock), k);
  }

  /**
   * A file whose key no later file reuses ends up stored with its own
   * bytes, its own type (or octet-stream) and its upload metadata.
   */
  lemma UploadAllStores(objects: map<string, Obj>, clock: nat, uploadPath: string,
      files: seq<FileUploader.File>, nows: seq<nat>, userId: string, nowIso: string, i: nat)
    requires |nows| == |files| && i < |files|
    requires forall j :: i < j < |files| ==>
      StoredKey(uploadPath, files[j].name, nows[j]) != StoredKey(uploadPath, files[i].name, nows[i])
    ensures var key := StoredKey(uploadPath, files[i].name, nows[i]);
      Lookup(UploadAll(objects, clock, uploadPath, files, nows, userId, nowIso), key) ==
        Some(UploadedObject(key, files[i], userId, nowIso, clock + i))
  {
    var writes := UploadWrites(uploadPath, files, nows, userId, nowIso, clock);
    var key := StoredKey(uploadPath, files[i].name, nows[i]);
    assert writes[i] == (key, UploadedObject(key, files[i], userId, nowIso, clock + i));
    forall j | i < j < |writes|
      ensures writes[j].0 != writes[i].0
    {
      assert writes[j].0 == StoredKey(uploadPath, files[j].name, nows[j]);
    }
    ApplyWritesLastWins(objects, writes, i);
  }

  /** `currentPath ? currentPath + name + '/' : name + '/'`. */
  function NewFolderPath(currentPath: string, name: string): (path: string)
    ensures path == currentPath + name + "/"
  {
    if Truthy(currentPath) then currentPath + name + "/" else name + "/"
  }

  /**
   * The folder key is sent already ending in `/`, so the server keeps it
   * as is, and the new folder is shown under its name.
   */
  lemma NewFolderPathKept(currentPath: string, name: string)
    ensures NormaliseFolderPath(NewFolderPath(currentPath, name)) == NewFolderPath(currentPath, name)
    ensures Finder.IsFolderPath(currentPath) && Finder.IsSegment(name) ==>
      Finder.ItemName(NewFolderPath(currentPath, name)) == name
  {
    if Finder.IsFolderPath(currentPath) && Finder.IsSegment(name) {
      Finder.ItemNameOfChild(currentPath, name);
    }
  }

  /**
   * handleRename's target as written: the text up to the key's last `/`,
   * the new name, and a `/` when the key is a folder's.
   */
  function RenamePathAsWritten(key: string, newName: string): (newPath: string)
    ensures StartsWith(newPath, Finder.ParentPath(key))
    ensures EndsWith(key, "/") ==> EndsWith(newPath, "/")
  {
    Finder.RenamedKey(Finder.ParentPath(key), newName, EndsWith(key, "/"))
  }

  /** With a non-blank name it is the target the rename dialog computes. */
  lemma RenamePathIsDialogTarget(key: string, newName: string)
    requires !IsBlank(newName)
    ensures Finder.RenameTargetAsWritten(key, newName) == Some(RenamePathAsWritten(key, newName))
  {
  }

  /** As written, a folder `parent/name/` renamed to `n` goes to `parent/name/n/`, inside itself. */
  lemma RenamePathAsWrittenNests(parent: string, name: string, newName: string)
    requires Finder.IsFolderPath(parent) && Finder.IsSegment(name)
    ensures RenamePathAsWritten(parent + name + "/", newName) == parent + name + "/" + newName + "/"
  {
    var folder := parent + name + "/";
    assert LastIndexOf(folder, '/') == |folder| - 1;
    assert Finder.ParentPath(folder) == folder;
  }

  /**
   * The rename target with a folder's own trailing `/` set aside before
   * the parent is taken; the rename stays in the entry's folder.
   */
  function RenamePath(key: string, newName: string): (newPath: string)
    ensures StartsWith(newPath, Finder.ParentPath(Finder.Unslashed(key)))
    ensures EndsWith(key, "/") ==> EndsWith(newPath, "/")
  {
    Finder.RenamedKey(Finder.ParentPath(Finder.Unslashed(key)), newName, EndsWith(key, "/"))
  }

  /** A renamed file or folder keeps its parent folder and its kind. */
  lemma RenamePathKeepsParent(parent: string, name: string, newName: string)
    requires Finder.IsFolderPath(parent) && Finder.IsSegment(name)
    ensures RenamePath(parent + name, newName) == parent + newName
    ensures RenamePath(parent + name + "/", newName) == parent + newName + "/"
  {
    Finder.ParentOfChild(parent, name);
    assert Finder.RenamedKey(parent, newName, false) == parent + newName;
  }

  /** `file.key.split('/').pop() || file.key`. */
  function DownloadFileName(key: string): (name: string)
    ensures name == key || (name != "" && '/' !in name)
  {
    AfterLastIsSuffix(key, '/');
    if Truthy(AfterLast(key, '/')) then AfterLast(key, '/') else key
  }

  /** A file is downloaded under the name its card shows. */
  lemma DownloadNameIsItemName(parent: string, name: string)
    requires Finder.IsFolderPath(parent) && Finder.IsSegment(name)
    ensures DownloadFileName(parent + name) == name
    ensures Finder.ItemName(parent + name) == name
  {
    Finder.ItemNameOfChild(parent, name);
    if parent == "" {
      assert parent + name == name;
      SplitNoSeparator(name, '/');
    } else {
      var p := parent[..|parent| - 1];
      assert parent + name == p + ['/'] + name;
      AfterLastOfAppend(p, '/', name);
      SplitNoSeparator(name, '/');
    }
  }

  /** The view asks for 500 entries and gets them. */
  lemma ListLimitQuery()
    ensures Listing.QueryLimit(Some("500")) == ListLimit
  {
    assert NatToString(5) == "5";
    assert NatToString(50) == NatToString(5) + "0";
    assert NatToString(500) == NatToString(50) + "0" == "500";
    ParseIntOfNatToString(500);
    assert ParseInt("500") == Some(500);
  }

  /** One file of handleUpload: a single-request upload to `uploadPath + name`. */
  method UploadOne(store: Store, uploadPath: string, file: FileUploader.File, userId: string, now: nat, nowIso: string)
    requires store.Valid()
    modifies store
    ensures store.Valid() && store.sessions == old(store.sessions) && store.clock == old(store.clock) + 1
    ensures var key := StoredKey(uploadPath, file.name, now);
      store.objects == old(store.objects)[key := UploadedObject(key, file, userId, nowIso, old(store.clock))]
  {
    var key := if Truthy(uploadPath) then uploadPath + file.name else file.name;
    var r := Upload(store, Some(FormFile(file.name, file.mime, file.bytes)), key, "", "", userId, now, nowIso);
    assert r.Success?;
  }

  /** The awaited uploads of handleUpload, one file after another. */
  method UploadEach(store: Store, uploadPath: string, uploaded: seq<FileUploader.File>,
                    userId: string, nows: seq<nat>, nowIso: string)
    requires store.Valid() && |nows| == |uploaded|
    modifies store
    ensures store.Valid() && store.sessions == old(store.sessions)
    ensures store.objects == UploadAll(old(store.objects), old(store.clock), uploadPath, uploaded, nows, userId, nowIso)
    ensures store.clock == old(store.clock) + |uploaded|
  {
    ghost var writes := UploadWrites(uploadPath, uploaded, nows, userId, nowIso, store.clock);
    ghost var target := ApplyWrites(store.objects, writes);
    var i := 0;
    while i < |uploaded|
      invariant 0 <= i <= |uploaded|
      invariant store.Valid() && store.sessions == old(store.sessions)
      invariant store.clock == old(store.clock) + i
      invariant ApplyWrites(store.objects, writes[i..]) == target
    {
      ghost var key := StoredKey(uploadPath, uploaded[i].name, nows[i]);
      assert writes[i] == (key, UploadedObject(key, uploaded[i], userId, nowIso, store.clock));
      assert writes[i..][0] == writes[i] && writes[i..][1..] == writes[i + 1..];
      UploadOne(store, uploadPath, uploaded[i], userId, nows[i], nowIso);
      i := i + 1;
    }
    assert writes[i..] == [];
  }

  /** The storage page's state. */
  class View {
    var currentPath: string
    var files: seq<Listing.Entry>

    constructor ()
      ensures currentPath == "" && files == []
    {
      currentPath := "";
      files := [];
    }

    /** loadFiles: the first page of the current folder's listing. */
    method LoadFiles(store: Store) returns (ghost page: Page)
      requires store.Valid()
      modifies this
      ensures currentPath == old(currentPath)
      ensures IsPage(store.objects, currentPath, None, ListLimit, page)
      ensures Listing.SortedValuesOf(Listing.Build(currentPath, page.objects), files)
    {
      var prefixQ := if Truthy(currentPath) then Some(currentPath) else None;
      ListLimitQuery();
      var resp;
      resp, page := Listing.ListObjects(store, prefixQ, Some("500"), None);
      files := resp.objects;
    }

    /** Navigating changes the folder; the listing reloads only when the path changes. */
    method Navigate(store: Store, path: string) returns (ghost page: Page)
      requires store.Valid()
      modifies this
      ensures currentPath == path
      ensures path == old(currentPath) ==> files == old(files)
      ensures path != old(currentPath) ==>
        IsPage(store.objects, path, None, ListLimit, page) &&
        Listing.SortedValuesOf(Listing.Build(path, page.objects), files)
    {
      page := Page([], false, None);
      if path != currentPath {
        currentPath := path;
        page := LoadFiles(store);
      }
    }

    /**
     * handleUpload: each file goes up in one request under the target
     * folder (a failed one is only logged), then the listing reloads.
     */
    method HandleUpload(store: Store, uploaded: seq<FileUploader.File>, targetPath: Option<string>,
                        userId: string, nows: seq<nat>, nowIso: string)
      returns (ghost page: Page)
      requires store.Valid() && |nows| == |uploaded|
      modifies store, this
      ensures store.Valid() && store.sessions == old(store.sessions)
      ensures store.objects == UploadAll(old(store.objects), old(store.clock), UploadPath(targetPath, old(currentPath)),
        uploaded, nows, userId, nowIso)
      ensures store.clock == old(store.clock) + |uploaded|
      ensures currentPath == old(currentPath)
      ensures IsPage(store.objects, currentPath, None, ListLimit, page)
      ensures Listing.SortedValuesOf(Listing.Build(currentPath, page.objects), files)
    {
      var uploadPath := if targetPath.Some? && Truthy(targetPath.value) then targetPath.value else currentPath;
      UploadEach(store, uploadPath, uploaded, userId, nows, nowIso);
      page := LoadFiles(store);
    }

    /** handleCreateFolder: a folder marker under the current folder, then a reload. */
    method HandleCreateFolder(store: Store, name: string, userId: string, nowIso: string) returns (ghost page: Page)
      requires store.Valid()
      modifies store, this
      ensures store.Valid() && store.sessions == old(store.sessions)
      ensures var folderPath := NewFolderPath(old(currentPath), name);
        store.objects == old(store.objects)[folderPath :=
          Written(folderPath, [], HttpMetadata(Some(DirectoryType)), FolderMetadata(userId, nowIso), old(store.clock))]
      ensures store.clock == old(store.clock) + 1
      ensures currentPath == old(currentPath)
      ensures IsPage(store.objects, currentPath, None, ListLimit, page)
      ensures Listing.SortedValuesOf(Listing.Build(currentPath, page.objects), files)
    {
      var folderPath := if Truthy(currentPath) then currentPath + name + "/" else name + "/";
      NewFolderPathKept(currentPath, name);
      var r := CreateFolder(store, folderPath, userId, nowIso);
      page := LoadFiles(store);
    }
    /**
     * handleRename: a move of the entry to the key `RenamePathAsWritten`
     * computes; the listing reloads only when the move succeeds.
     */
    method HandleRename(store: Store, key: string, newName: string, decode: string -> Option<string>)
      returns (r: Reply<Moved>, ghost page: Page, ghost movePage: Page)
      requires store.Valid()
      modifies store, this
      ensures store.Valid() && store.sessions == old(store.sessions)
      ensures currentPath == old(currentPath)
      ensures r.Success? <==>
        var toPath := RenamePathAsWritten(key, newName);
        key != "" && toPath != "" && decode(key).Some? && decode(toPath).Some? &&
        decode(key).value in old(store.objects)
      ensures !r.Success? ==> store.objects == old(store.objects) && store.clock == old(store.clock)
      ensures r.Success? ==>
        var fromKey := decode(key).value;
        var toKey := decode(RenamePathAsWritten(key, newName)).value;
        var s1 := MoveSource(StoreState(old(store.objects), old(store.clock)), old(store.objects)[fromKey], fromKey, toKey);
        && (!EndsWith(fromKey, "/") ==> StoreState(store.objects, store.clock) == s1)
        && (EndsWith(fromKey, "/") ==>
              IsPage(s1.objects, fromKey, None, DefaultListLimit, movePage) &&
              StoreState(store.objects, store.clock) == MoveChildren(s1, movePage.objects, fromKey, toKey))
      ensures r.Success? ==> decode(key).Some? && decode(key).value in old(store.objects)
      ensures r.Success? ==>
        decode(RenamePathAsWritten(key, newName)).Some? &&
        r == Success(Moved("moved", decode(RenamePathAsWritten(key, newName)).value))
      ensures r.Success? ==>
        IsPage(store.objects, currentPath, None, ListLimit, page) &&
        Listing.SortedValuesOf(Listing.Build(currentPath, page.objects), files)
      ensures !r.Success? ==> files == old(files)
    {
      var isFolder := EndsWith(key, "/");
      var parentPath := Substring(key, 0, LastIndexOf(key, '/') + 1);
      var newPath := parentPath + newName + (if isFolder then "/" else "");
      assert newPath == RenamePathAsWritten(key, newName);
      r, movePage := Move(store, key, newPath, decode);
      page := movePage;
      if r.Success? {
        page := LoadFiles(store);
      }
    }
  }
}
