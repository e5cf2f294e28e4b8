/**
 * The storage browser's grid: the name shown on a card and its two-line
 * truncation, the card's icon, the breadcrumb paths, the rename target
 * computed from the dialog, the drop handler's decision and the card
 * selection.
 */
module Finder {
  import opened Wrappers
  import opened JsString
  import FileType
  import Bucket
  import R2Routes

  /** A listed object as the grid sees it. */
  datatype Item = Item(key: string, isFolder: bool, contentType: Option<string>)

  const FolderIcon := "eva:folder-fill"
  const MaxChars := 28
  const Ellipsis := "..."

  /** A key that names a folder or the root: empty or ending in `/`. */
  predicate IsFolderPath(path: string) {
    path == "" || EndsWith(path, "/")
  }

  /** A single path segment: non-empty and free of `/`. */
  predicate IsSegment(name: string) {
    name != "" && '/' !in name
  }

  // ---------------------------------------------------------------------
  // Names

  /** `key.split('/').filter(Boolean).pop() || key`. */
  function ItemName(key: string): (name: string)
    ensures name == key || IsSegment(name)
    ensures name == "" ==> key == ""
  {
    match LastNonEmptyPiece(key, '/')
    case Some(n) => n
    case None => key
  }

  /** The name the rename dialog starts from: `split('/').filter(Boolean).pop() || ''`. */
  function RenameDefaultName(key: string): (name: string)
    ensures name == "" || IsSegment(name)
  {
    match LastNonEmptyPiece(key, '/')
    case Some(n) => n
    case None => ""
  }

  /** The shown name of a file or folder in a folder is its own segment. */
  lemma ItemNameOfChild(parent: string, name: string)
    requires IsFolderPath(parent) && IsSegment(name)
    ensures ItemName(parent + name) == name
    ensures ItemName(parent + name + "/") == name
    ensures RenameDefaultName(parent + name + "/") == name
  {
    SplitNoSeparator(name, '/');
    SplitAfterPiece(name, '/', "");
    assert name + "/" == name + ['/'] + "";
    assert Split("", '/') == [""];
    FilterNonEmptyConcat([name], [""]);
    if parent == "" {
      assert parent + name == name;
      assert parent + name + "/" == name + "/";
    } else {
      var p := parent[..|parent| - 1];
      assert parent + name == p + ['/'] + name;
      assert parent + name + "/" == p + ['/'] + (name + "/");
      SplitConcat(p, '/', name);
      SplitConcat(p, '/', name + "/");
      FilterNonEmptyConcat(Split(p, '/'), [name]);
      assert Split(name + "/", '/') == [name, ""];
      FilterNonEmptyConcat(Split(p, '/'), [name, ""]);
      assert FilterNonEmpty([name, ""]) == [name];
    }
  }

  // ---------------------------------------------------------------------
  // truncateFileName

  /** The name has a dot that is neither its first nor its last character. */
  predicate HasExtension(fileName: string) {
    var d := LastIndexOf(fileName, '.');
    d > 0 && d < |fileName| - 1
  }

  /** The text from the last dot on, dot included. */
  function DotExtension(fileName: string): string
    requires HasExtension(fileName)
  {
    fileName[LastIndexOf(fileName, '.')..]
  }

  /** The text before the last dot. */
  function Stem(fileName: string): string
    requires HasExtension(fileName)
  {
    fileName[..LastIndexOf(fileName, '.')]
  }

  /**
   * At most about two lines of a card: names over 28 characters keep
   * their extension (from the last dot) and lose the middle of the stem,
   * or, without one, keep the first 14 and the last 11 characters.
   */
  function TruncateFileName(fileName: string): (shown: string)
    ensures |fileName| <= MaxChars ==> shown == fileName
    ensures shown != "" <==> fileName != ""
  {
    if |fileName| <= MaxChars then fileName
    else
      var lastDot := LastIndexOf(fileName, '.');
      if lastDot > 0 && lastDot < |fileName| - 1 then
        var name := Substring(fileName, 0, lastDot);
        var ext := SubstringFrom(fileName, lastDot);
        if |name| <= MaxChars - |ext| - 3 then fileName
        else DotTruncation(name, ext)
      else
        var front := MaxChars / 2;
        var back := MaxChars - front - 3;
        Substring(fileName, 0, front) + Ellipsis + SubstringFrom(fileName, |fileName| - back)
  }

  /** The stem and extension as the dot branch of truncateFileName computes them. */
  lemma DotParts(fileName: string)
    requires HasExtension(fileName)
    ensures Substring(fileName, 0, LastIndexOf(fileName, '.')) == Stem(fileName)
    ensures SubstringFrom(fileName, LastIndexOf(fileName, '.')) == DotExtension(fileName)
    ensures Stem(fileName) + DotExtension(fileName) == fileName
  {
  }

  /** The dot branch's result: the stem's two ends around the ellipsis, then the extension. */
  function DotTruncation(name: string, ext: string): string {
    var available := MaxChars - |ext| - 3;
    var front := available / 2;
    var back := available - front;
    Substring(name, 0, front) + Ellipsis + SubstringFrom(name, |name| - back) + ext
  }

  /** A long name with an extension is shown by the dot branch, its stem never fitting. */
  lemma TruncateDotBranch(fileName: string)
    requires |fileName| > MaxChars && HasExtension(fileName)
    ensures |Stem(fileName)| > MaxChars - |DotExtension(fileName)| - 3
    ensures TruncateFileName(fileName) == DotTruncation(Stem(fileName), DotExtension(fileName))
  {
    DotParts(fileName);
    var d := LastIndexOf(fileName, '.');
    var name := Substring(fileName, 0, d);
    var ext := SubstringFrom(fileName, d);
    assert |name| + |ext| == |fileName|;
  }

  /**
   * A long name whose extension leaves room keeps that extension, the
   * beginning and the end of its stem, and is exactly 28 characters.
   */
  lemma TruncateKeepsExtension(fileName: string)
    requires |fileName| > MaxChars && HasExtension(fileName)
    requires |DotExtension(fileName)| <= MaxChars - 3
    ensures var shown := TruncateFileName(fileName);
      var ext := DotExtension(fileName);
      var front := (MaxChars - 3 - |ext|) / 2;
      && |shown| == MaxChars
      && EndsWith(shown, ext)
      && shown[..front] == Stem(fileName)[..front]
      && shown[front..front + 3] == Ellipsis
      && EndsWith(Stem(fileName), shown[front + 3..MaxChars - |ext|])
  {
    TruncateDotBranch(fileName);
    DotTruncationParts(Stem(fileName), DotExtension(fileName));
  }

  lemma DotTruncationParts(name: string, ext: string)
    requires |ext| <= MaxChars - 3 && |name| > MaxChars - |ext| - 3
    ensures var shown := DotTruncation(name, ext);
      var front := (MaxChars - 3 - |ext|) / 2;
      && |shown| == MaxChars
      && EndsWith(shown, ext)
      && shown[..front] == name[..front]
      && shown[front..front + 3] == Ellipsis
      && EndsWith(name, shown[front + 3..MaxChars - |ext|])
  {
    var available := MaxChars - |ext| - 3;
    var front := available / 2;
    var back := available - front;
    var a := name[..front];
    var b := name[|name| - back..];
    assert Substring(name, 0, front) == a;
    assert SubstringFrom(name, |name| - back) == b;
    Layout(a, Ellipsis, b, ext);
    assert name[|name| - |b|..] == b;
  }

  /** Where the four parts of a concatenation sit. */
  lemma Layout(a: string, e: string, b: string, x: string)
    ensures var s := a + e + b + x;
      && |s| == |a| + |e| + |b| + |x|
      && s[..|a|] == a
      && s[|a|..|a| + |e|] == e
      && s[|a| + |e|..|a| + |e| + |b|] == b
      && EndsWith(s, x)
  {
    var s := a + e + b + x;
    assert s[..|a|] == a;
    assert s[|a|..|a| + |e|] == e;
    assert s[|a| + |e|..|a| + |e| + |b|] == b;
    assert s[|s| - |x|..] == x;
  }

  /** An extension too long to leave room is shown alone after the ellipsis. */
  lemma TruncateLongExtension(fileName: string)
    requires |fileName| > MaxChars && HasExtension(fileName)
    requires |DotExtension(fileName)| > MaxChars - 3
    ensures TruncateFileName(fileName) == Ellipsis + DotExtension(fileName)
  {
    TruncateDotBranch(fileName);
    var name := Stem(fileName);
    var available := MaxChars - |DotExtension(fileName)| - 3;
    var front := available / 2;
    var back := available - front;
    assert front < 0 && back <= 0;
    assert Substring(name, 0, front) == "";
    assert SubstringFrom(name, |name| - back) == "";
  }

  /** Without a usable extension a long name keeps its first 14 and last 11 characters. */
  lemma TruncateWithoutExtension(fileName: string)
    requires |fileName| > MaxChars && !HasExtension(fileName)
    ensures var shown := TruncateFileName(fileName);
      && |shown| == MaxChars
      && shown[..14] == fileName[..14]
      && shown[14..17] == Ellipsis
      && shown[17..] == fileName[|fileName| - 11..]
  {
    assert Substring(fileName, 0, 14) == fileName[..14];
    assert SubstringFrom(fileName, |fileName| - 11) == fileName[|fileName| - 11..];
  }

  /** Only an extension longer than 25 characters makes the shown name exceed 28. */
  lemma TruncateLength(fileName: string)
    ensures |TruncateFileName(fileName)| <= MaxChars ||
      (HasExtension(fileName) && TruncateFileName(fileName) == Ellipsis + DotExtension(fileName))
  {
    if |fileName| > MaxChars {
      if HasExtension(fileName) {
        if |DotExtension(fileName)| <= MaxChars - 3 {
          TruncateKeepsExtension(fileName);
        } else {
          TruncateLongExtension(fileName);
        }
      } else {
        TruncateWithoutExtension(fileName);
      }
    }
  }

  /** The extension is what follows a dot after which no dot comes. */
  lemma ExtensionAt(s: string, d: nat)
    requires d < |s| && s[d] == '.' && '.' !in s[d + 1..]
    ensures FileType.Extension(s) == ToLower(s[d + 1..])
  {
    assert s == s[..d] + "." + s[d + 1..];
    FileType.ExtensionAfterLastDot(s[..d], s[d + 1..]);
  }

  /** `.` does not occur after the last index of `.`. */
  lemma NoDotAfter(s: string, d: int)
    requires d == LastIndexOf(s, '.') && d + 1 <= |s|
    ensures '.' !in s[d + 1..]
  {
  }

  /** `contentType || getMimeTypeFromExtension(name)`, then getFileIcon. */
  function CardIcon(contentType: Option<string>, name: string): string {
    var mime := if contentType.Some? && Truthy(contentType.value) then contentType.value
      else FileType.GetMimeTypeFromExtension(name);
    FileType.GetFileIcon(Some(mime), Some(name))
  }

  /** The icon of a card; a file's is computed from its truncated name. */
  function ItemIcon(item: Item): string {
    if item.isFolder then FolderIcon
    else CardIcon(item.contentType, TruncateFileName(ItemName(item.key)))
  }

  /**
   * The card's icon as written, where the MIME lookup can return an
   * object inherited by the table: `None` stands for the render throwing
   * at `contentType?.split('/')`, since neither the `Object` function nor
   * `Object.prototype` has a `split` method.
   */
  function CardIconAsWritten(contentType: Option<string>, name: string): (icon: Option<string>)
    ensures icon.None? <==>
      !(contentType.Some? && Truthy(contentType.value)) &&
      (FileType.Extension(name) == "constructor" || FileType.Extension(name) == "__proto__")
    ensures icon.Some? ==> icon.value == CardIcon(contentType, name)
  {
    if contentType.Some? && Truthy(contentType.value) then Some(FileType.GetFileIcon(contentType, Some(name)))
    else match FileType.GetMimeTypeAsWritten(name)
      case Text(mime) => Some(FileType.GetFileIcon(Some(mime), Some(name)))
      case _ => None
  }

  /**
   * As written, a card for a name ending in `.constructor` (`x.constructor`,
   * say) with no stored content type throws; with the table's own entries
   * only, it shows the plain file icon.
   */
  lemma InheritedExtensionThrows(stem: string)
    ensures CardIconAsWritten(None, stem + ".constructor").None?
    ensures CardIcon(None, stem + ".constructor") == FileType.FileIcon
  {
    var name := stem + ".constructor";
    FileType.InheritedName(stem, "constructor");
    assert stem + "." + "constructor" == name;
    FileType.MimeFallback(name);
    FileType.OctetStreamIcon(name);
    FileType.LongExtensionPlainIcon("constructor");
  }

  /**
   * Truncation can lead into the inherited name: a dot-free 31-character
   * name ending in `constructor` renders, but its truncation, the first
   * 14 characters, `...` and `constructor`, has the extension `constructor`.
   */
  lemma TruncationReachesInherited(front: string)
    requires |front| == 20 && '.' !in front
    ensures CardIconAsWritten(None, front + "constructor").Some?
    ensures TruncateFileName(front + "constructor") == front[..14] + Ellipsis + "constructor"
    ensures CardIconAsWritten(None, TruncateFileName(front + "constructor")).None?
  {
    var name := front + "constructor";
    assert '.' !in name;
    FileType.ExtensionWithoutDot(name);
    TruncateDotFree(name);
    assert name[..14] == front[..14] && name[20..] == "constructor";
    var shown := front[..14] + "..";
    assert shown + "." + "constructor" == front[..14] + Ellipsis + "constructor";
    FileType.InheritedName(shown, "constructor");
  }

  /** A dot-free name over 28 characters keeps its first 14 and last 11. */
  lemma TruncateDotFree(name: string)
    requires |name| > MaxChars && '.' !in name
    ensures TruncateFileName(name) == name[..14] + Ellipsis + name[|name| - 11..]
  {
    assert LastIndexOf(name, '.') == -1;
  }

  /** Two non-empty names with the same extension, or with two unknown long ones, get the same card icon. */
  lemma CardIconByExtension(contentType: Option<string>, a: string, b: string)
    requires a != "" && b != ""
    requires FileType.Extension(a) == FileType.Extension(b) ||
      (|FileType.Extension(a)| > 4 && |FileType.Extension(b)| > 4)
    ensures CardIcon(contentType, a) == CardIcon(contentType, b)
  {
    if FileType.Extension(a) != FileType.Extension(b) {
      var kind := FileType.MajorType(Some(if contentType.Some? && Truthy(contentType.value) then contentType.value else FileType.OctetStream));
      FileType.LongExtension(kind, FileType.Extension(a));
      FileType.LongExtension(kind, FileType.Extension(b));
    }
  }

  /** A name ending in `.e`, with no dot in `e`, has extension `e` in lower case. */
  lemma ExtensionOfEnding(s: string, ext: string)
    requires |ext| >= 1 && ext[0] == '.' && '.' !in ext[1..] && EndsWith(s, ext)
    ensures FileType.Extension(s) == ToLower(ext[1..])
  {
    var n := |s| - |ext|;
    assert s[n..] == ext;
    assert s[n + 1..] == ext[1..];
    ExtensionAt(s, n);
  }

  /** Truncation keeps the extension of a name with a usable one. */
  lemma TruncationKeepsDotExtension(fileName: string)
    requires |fileName| > MaxChars && HasExtension(fileName)
    ensures FileType.Extension(TruncateFileName(fileName)) == FileType.Extension(fileName)
  {
    var d := LastIndexOf(fileName, '.');
    var ext := DotExtension(fileName);
    NoDotAfter(fileName, d);
    assert ext[1..] == fileName[d + 1..];
    assert EndsWith(fileName, ext);
    ExtensionOfEnding(fileName, ext);
    if |ext| <= MaxChars - 3 {
      TruncateKeepsExtension(fileName);
    } else {
      TruncateLongExtension(fileName);
      assert (Ellipsis + ext)[3..] == ext;
    }
    ExtensionOfEnding(TruncateFileName(fileName), ext);
  }

  /** A name ending in a dot keeps its empty extension. */
  lemma TruncationKeepsTrailingDot(fileName: string)
    requires |fileName| > MaxChars && !HasExtension(fileName)
    requires LastIndexOf(fileName, '.') == |fileName| - 1
    ensures FileType.Extension(TruncateFileName(fileName)) == FileType.Extension(fileName)
  {
    var shown := TruncateFileName(fileName);
    TruncateWithoutExtension(fileName);
    ExtensionAt(fileName, |fileName| - 1);
    assert shown[MaxChars - 1] == fileName[|fileName| - 1];
    ExtensionAt(shown, MaxChars - 1);
  }

  /** Otherwise both the name and its truncation end in text longer than any table key. */
  lemma TruncationLongExtensions(fileName: string)
    requires |fileName| > MaxChars && !HasExtension(fileName)
    requires LastIndexOf(fileName, '.') != |fileName| - 1
    ensures |FileType.Extension(TruncateFileName(fileName))| > 4
    ensures |FileType.Extension(fileName)| > 4
  {
    var shown := TruncateFileName(fileName);
    var d := LastIndexOf(fileName, '.');
    TruncateWithoutExtension(fileName);
    var tail := fileName[|fileName| - 11..];
    assert '.' !in tail;
    assert shown[16] == '.' && shown[17..] == tail;
    ExtensionAt(shown, 16);
    if d == -1 {
      assert '.' !in fileName;
      SplitNoSeparator(fileName, '.');
    } else {
      NoDotAfter(fileName, 0);
      ExtensionAt(fileName, 0);
    }
  }

  /**
   * Truncation never changes a card's icon: either the extension
   * survives, or both names end in text no table knows.
   */
  lemma TruncationKeepsIcon(contentType: Option<string>, fileName: string)
    ensures CardIcon(contentType, TruncateFileName(fileName)) == CardIcon(contentType, fileName)
  {
    if |fileName| > MaxChars {
      if HasExtension(fileName) {
        TruncationKeepsDotExtension(fileName);
      } else if LastIndexOf(fileName, '.') == |fileName| - 1 {
        TruncationKeepsTrailingDot(fileName);
      } else {
        TruncationLongExtensions(fileName);
      }
      CardIconByExtension(contentType, TruncateFileName(fileName), fileName);
    }
  }

  /** Without a stored content type, a file's card shows its extension's icon. */
  lemma ItemIconWithoutContentType(item: Item)
    requires !item.isFolder && item.contentType.None?
    ensures ItemIcon(item) == FileType.GetFileIconFromExtension(TruncateFileName(ItemName(item.key)))
    ensures ItemIcon(item) == CardIcon(None, ItemName(item.key))
  {
    FileType.ItemIconMatchesExtensionIcon(TruncateFileName(ItemName(item.key)));
    TruncationKeepsIcon(None, ItemName(item.key));
  }

  // ---------------------------------------------------------------------
  // Breadcrumbs

  /** `currentPath.split('/').filter(Boolean)`. */
  function PathParts(currentPath: string): (parts: seq<string>)
    ensures forall i :: 0 <= i < |parts| ==> IsSegment(parts[i])
  {
    FilterNonEmptyPieces(Split(currentPath, '/'), '/');
    FilterNonEmpty(Split(currentPath, '/'))
  }

  /** The folder key of a list of segments: `parts.join('/') + '/'`. */
  function FolderPath(parts: seq<string>): string {
    Join(parts, '/') + "/"
  }

  /** The end index of `slice(0, end)` on a list of length `len`. */
  function SliceEnd(len: nat, end: int): (r: nat)
    ensures r <= len
  {
    if end < 0 then (if len + end < 0 then 0 else len + end)
    else if end > len then len
    else end
  }

  /** The path a breadcrumb navigates to; index -1 is the root. */
  function BreadcrumbPath(parts: seq<string>, index: int): string {
    if index == -1 then "" else FolderPath(parts[..SliceEnd(|parts|, index + 1)])
  }

  /** A folder key splits back into its segments. */
  lemma FolderPathParts(parts: seq<string>)
    requires |parts| >= 1
    requires forall i :: 0 <= i < |parts| ==> IsSegment(parts[i])
    ensures PathParts(FolderPath(parts)) == parts
  {
    var j := Join(parts, '/');
    assert FolderPath(parts) == j + ['/'] + "";
    SplitConcat(j, '/', "");
    JoinSplit(parts, '/');
    assert Split("", '/') == [""];
    FilterNonEmptyConcat(parts, [""]);
    FilterNonEmptyKeepsNonEmpty(parts);
  }

  /**
   * In a folder, the breadcrumb of segment `i` leads to the ancestor made
   * of the first `i + 1` segments; the last one leads to the folder itself.
   */
  lemma BreadcrumbIsAncestor(parts: seq<string>, i: nat)
    requires i < |parts|
    requires forall k :: 0 <= k < |parts| ==> IsSegment(parts[k])
    ensures var path := FolderPath(parts);
      var crumb := BreadcrumbPath(PathParts(path), i);
      && crumb == FolderPath(parts[..i + 1])
      && StartsWith(path, crumb)
      && PathParts(crumb) == parts[..i + 1]
      && (i == |parts| - 1 ==> crumb == path)
  {
    FolderPathParts(parts);
    FolderPathParts(parts[..i + 1]);
    if i + 1 < |parts| {
      JoinConcat(parts[..i + 1], parts[i + 1..], '/');
      assert parts[..i + 1] + parts[i + 1..] == parts;
      var a := Join(parts[..i + 1], '/');
      assert FolderPath(parts) == a + "/" + (Join(parts[i + 1..], '/') + "/");
    } else {
      assert parts[..i + 1] == parts;
    }
  }

  // ---------------------------------------------------------------------
  // Rename

  /** `path.substring(0, path.lastIndexOf('/') + 1)`: the text up to the last `/`. */
  function ParentPath(path: string): string {
    Substring(path, 0, LastIndexOf(path, '/') + 1)
  }

  /** `parentPath + newName + (isFolder ? '/' : '')`. */
  function RenamedKey(parentPath: string, newName: string, isFolder: bool): string {
    parentPath + newName + (if isFolder then "/" else "")
  }

  /** A folder key without its trailing `/`; any other key unchanged. */
  function Unslashed(path: string): string {
    if EndsWith(path, "/") then path[..|path| - 1] else path
  }

  /**
   * The rename dialog as written: a blank name does nothing; otherwise the
   * new key is the text up to the old key's last `/`, the new name, and a
   * `/` for a folder.
   */
  function RenameTargetAsWritten(oldPath: string, newName: string): (newPath: Option<string>)
    ensures newPath.None? <==> IsBlank(newName)
  {
    if IsBlank(newName) then None
    else Some(RenamedKey(ParentPath(oldPath), newName, EndsWith(oldPath, "/")))
  }

  /**
   * The rename target with a folder's own trailing `/` ignored when
   * finding its parent, and no move when the key would not change.
   */
  function RenameTarget(oldPath: string, newName: string): (newPath: Option<string>)
    ensures IsBlank(newName) ==> newPath.None?
    ensures newPath.Some? ==> newPath.value != oldPath
  {
    if IsBlank(newName) then None
    else
      var newPath := RenamedKey(ParentPath(Unslashed(oldPath)), newName, EndsWith(oldPath, "/"));
      if newPath == oldPath then None else Some(newPath)
  }

  /** The parent of `parent + name`, and of the folder `parent + name + "/"`, is `parent`. */
  lemma ParentOfChild(parent: string, name: string)
    requires IsFolderPath(parent) && IsSegment(name)
    ensures ParentPath(parent + name) == parent
    ensures !EndsWith(parent + name, "/") && Unslashed(parent + name) == parent + name
    ensures EndsWith(parent + name + "/", "/") && Unslashed(parent + name + "/") == parent + name
  {
    LastIndexOfAppend(parent, name, '/');
    assert (parent + name)[..|parent|] == parent;
    assert (parent + name)[|parent + name| - 1] == name[|name| - 1];
    var folder := parent + name + "/";
    assert folder[..|folder| - 1] == parent + name;
  }

  /** Two different names in the same folder give different keys. */
  lemma SiblingsDiffer(parent: string, a: string, b: string)
    requires a != b
    ensures parent + a != parent + b
    ensures parent + a + "/" != parent + b + "/"
  {
    assert (parent + a)[|parent|..] == a;
    assert (parent + b)[|parent|..] == b;
    assert (parent + a + "/")[|parent|..|parent| + |a|] == a;
    assert (parent + b + "/")[|parent|..|parent| + |b|] == b;
  }

  /** Renaming the file `parent + name` to a new name keeps it in `parent`. */
  lemma RenameFileKeepsParent(parent: string, name: string, newName: string)
    requires IsFolderPath(parent) && IsSegment(name) && !IsBlank(newName) && newName != name
    ensures RenameTarget(parent + name, newName) == Some(parent + newName)
  {
    ParentOfChild(parent, name);
    assert RenamedKey(parent, newName, false) == parent + newName;
    SiblingsDiffer(parent, newName, name);
  }

  /** Renaming the folder `parent + name + "/"` to a new name keeps it in `parent`. */
  lemma RenameFolderKeepsParent(parent: string, name: string, newName: string)
    requires IsFolderPath(parent) && IsSegment(name) && !IsBlank(newName) && newName != name
    ensures RenameTarget(parent + name + "/", newName) == Some(parent + newName + "/")
  {
    ParentOfChild(parent, name);
    SiblingsDiffer(parent, newName, name);
  }

  /** Confirming the dialog with the name unchanged moves nothing. */
  lemma RenameUnchangedIsIgnored(parent: string, name: string)
    requires IsFolderPath(parent) && IsSegment(name)
    ensures RenameTarget(parent + name, name).None?
    ensures RenameTarget(parent + name + "/", name).None?
  {
    ParentOfChild(parent, name);
    assert RenamedKey(parent, name, false) == parent + name;
  }

  /** For a file, the rename as written already keeps the parent. */
  lemma RenameFileAsWritten(parent: string, name: string, newName: string)
    requires IsFolderPath(parent) && IsSegment(name) && !IsBlank(newName)
    ensures RenameTargetAsWritten(parent + name, newName) == Some(parent + newName)
  {
    ParentOfChild(parent, name);
    assert RenamedKey(parent, newName, false) == parent + newName;
  }

  /**
   * As written, a folder's last `/` is its own trailing one, so renaming
   * `parent/name/` to `n` targets `parent/name/n/`, a folder inside itself.
   */
  lemma RenameFolderAsWrittenNests(parent: string, name: string, newName: string)
    requires IsFolderPath(parent) && IsSegment(name) && !IsBlank(newName)
    ensures RenameTargetAsWritten(parent + name + "/", newName) == Some(parent + name + "/" + newName + "/")
  {
    var folder := parent + name + "/";
    assert LastIndexOf(folder, '/') == |folder| - 1;
    assert ParentPath(folder) == folder;
  }

  /**
   * As written, confirming a file's rename with its name unchanged moves
   * the file onto itself, and the move's copy-then-delete removes it.
   */
  lemma RenameUnchangedAsWrittenDeletes(parent: string, name: string, s: R2Routes.StoreState, source: Bucket.Obj)
    requires IsFolderPath(parent) && IsSegment(name) && !IsBlank(name)
    ensures RenameTargetAsWritten(parent + name, name) == Some(parent + name)
    ensures parent + name !in R2Routes.MoveSource(s, source, parent + name, parent + name).objects
  {
    RenameFileAsWritten(parent, name, name);
  }

  // ---------------------------------------------------------------------
  // Drop

  /** What a drop on the grid does. */
  datatype DropEffect = UploadFiles(targetPath: string) | MoveFile(from: string, to: string) | NoEffect

  /**
   * Dropped files from outside are uploaded to the folder under the
   * mouse (or the current folder); a dragged file dropped on a folder
   * card is moved into it under its own name.
   */
  function Drop(droppedFiles: nat, dragged: Option<Item>, dragOverFolder: Option<string>, currentPath: string): (effect: DropEffect)
    ensures droppedFiles > 0 <==> effect.UploadFiles?
    ensures effect.MoveFile? ==> dragged.Some? && !dragged.value.isFolder && effect.from == dragged.value.key
    ensures effect.UploadFiles? ==>
      effect.targetPath == if dragOverFolder.Some? && dragOverFolder.value != "" then dragOverFolder.value else currentPath
    ensures effect.MoveFile? <==>
      droppedFiles == 0 && dragged.Some? && !dragged.value.isFolder && dragOverFolder.Some? && dragOverFolder.value != ""
    ensures effect.MoveFile? ==> effect.to == dragOverFolder.value + ItemName(dragged.value.key)
  {
    if droppedFiles > 0 then
      UploadFiles(if dragOverFolder.Some? && Truthy(dragOverFolder.value) then dragOverFolder.value else currentPath)
    else if dragged.Some? && dragOverFolder.Some? && Truthy(dragOverFolder.value) && !dragged.value.isFolder then
      MoveFile(dragged.value.key, dragOverFolder.value + ItemName(dragged.value.key))
    else NoEffect
  }

  /** A file dragged onto a folder keeps its shown name in that folder. */
  lemma DropMoveKeepsName(dragged: Item, folder: string, currentPath: string)
    requires !dragged.isFolder && EndsWith(folder, "/")
    requires LastNonEmptyPiece(dragged.key, '/').Some?
    ensures var effect := Drop(0, Some(dragged), Some(folder), currentPath);
      && effect == MoveFile(dragged.key, folder + ItemName(dragged.key))
      && ItemName(effect.to) == ItemName(dragged.key)
  {
    ItemNameOfChild(folder, ItemName(dragged.key));
  }

  // ---------------------------------------------------------------------
  // Selection

  /** A click with Ctrl or Meta toggles the card; a plain click selects it alone. */
  function ClickSelection(selected: set<string>, key: string, modifier: bool): (next: set<string>)
    ensures !modifier ==> next == {key}
    ensures modifier ==> (key in next <==> key !in selected)
    ensures modifier ==> forall k :: k != key ==> (k in next <==> k in selected)
  {
    if !modifier then {key}
    else if key in selected then selected - {key}
    else selected + {key}
  }

  /** Two modifier clicks on the same card restore the selection. */
  lemma ToggleTwiceRestores(selected: set<string>, key: string)
    ensures ClickSelection(ClickSelection(selected, key, true), key, true) == selected
  {
    var once := ClickSelection(selected, key, true);
    var twice := ClickSelection(once, key, true);
    assert forall k :: k in twice <==> k in selected;
  }

  /** The selected cards of the grid. */
  class Selection {
    var selected: set<string>

    constructor ()
      ensures selected == {}
    {
      selected := {};
    }

    method Click(key: string, modifier: bool)
      modifies this
      ensures selected == ClickSelection(old(selected), key, modifier)
    {
      if modifier {
        if key in selected {
          selected := selected - {key};
        } else {
          selected := selected + {key};
        }
      } else {
        selected := {key};
      }
    }
  }
}
