/**
 * The client's file-type tables: extension to MIME type, extension to
 * icon, and the icon chosen from a content type and a file name. The
 * extension is the lower-cased text after the last `.`, or the whole
 * name when it has no `.`.
 */
module FileType {
  import opened Wrappers
  import opened JsString

  const OctetStream := "application/octet-stream"

  const GalleryIcon := "solar:gallery-bold-duotone"
  const VideoIcon := "solar:videocamera-record-bold-duotone"
  const MusicIcon := "solar:music-note-bold-duotone"
  const PdfIcon := "solar:document-bold-duotone"
  const WordIcon := "solar:document-text-bold-duotone"
  const ExcelIcon := "solar:table-bold-duotone"
  const ArchiveIcon := "solar:archive-bold-duotone"
  const FileIcon := "solar:file-bold-duotone"

  // The three Office Open XML subtypes, kept apart from their major type.
  const WordprocessingDocument := "vnd.openxmlformats-officedocument.wordprocessingml.document"
  const SpreadsheetSheet := "vnd.openxmlformats-officedocument.spreadsheetml.sheet"
  const PresentationDocument := "vnd.openxmlformats-officedocument.presentationml.presentation"

  /** A MIME type, kept as its major type and its subtype: `major/subtype`. */
  datatype Mime = Mime(major: string, subtype: string)

  function MimeString(m: Mime): string {
    m.major + "/" + m.subtype
  }

  /** The `mimeTypes` table, each entry split at its `/`. */
  const MimeTypes: map<string, Mime> := map[
    "jpg" := Mime("image", "jpeg"),
    "jpeg" := Mime("image", "jpeg"),
    "png" := Mime("image", "png"),
    "gif" := Mime("image", "gif"),
    "webp" := Mime("image", "webp"),
    "svg" := Mime("image", "svg+xml"),
    "ico" := Mime("image", "x-icon"),
    "bmp" := Mime("image", "bmp"),
    "mp4" := Mime("video", "mp4"),
    "avi" := Mime("video", "x-msvideo"),
    "mov" := Mime("video", "quicktime"),
    "wmv" := Mime("video", "x-ms-wmv"),
    "flv" := Mime("video", "x-flv"),
    "mkv" := Mime("video", "x-matroska"),
    "webm" := Mime("video", "webm"),
    "mp3" := Mime("audio", "mpeg"),
    "wav" := Mime("audio", "wav"),
    "flac" := Mime("audio", "flac"),
    "aac" := Mime("audio", "aac"),
    "ogg" := Mime("audio", "ogg"),
    "m4a" := Mime("audio", "mp4"),
    "pdf" := Mime("application", "pdf"),
    "doc" := Mime("application", "msword"),
    "docx" := Mime("application", WordprocessingDocument),
    "xls" := Mime("application", "vnd.ms-excel"),
    "xlsx" := Mime("application", SpreadsheetSheet),
    "ppt" := Mime("application", "vnd.ms-powerpoint"),
    "pptx" := Mime("application", PresentationDocument),
    "txt" := Mime("text", "plain"),
    "csv" := Mime("text", "csv"),
    "zip" := Mime("application", "zip"),
    "rar" := Mime("application", "x-rar-compressed"),
    "7z" := Mime("application", "x-7z-compressed"),
    "tar" := Mime("application", "x-tar"),
    "gz" := Mime("application", "gzip"),
    "js" := Mime("application", "javascript"),
    "ts" := Mime("application", "typescript"),
    "json" := Mime("application", "json"),
    "xml" := Mime("application", "xml"),
    "html" := Mime("text", "html"),
    "css" := Mime("text", "css")]

  // The extension lists of getFileIconFromExtension.
  const ImageExtensions: seq<string> := ["jpg", "jpeg", "png", "gif", "webp", "svg", "ico", "bmp"]
  const VideoExtensions: seq<string> := ["mp4", "avi", "mov", "wmv", "flv", "mkv", "webm"]
  const AudioExtensions: seq<string> := ["mp3", "wav", "flac", "aac", "ogg", "m4a"]
  const WordExtensions: seq<string> := ["doc", "docx"]
  const ExcelExtensions: seq<string> := ["xls", "xlsx"]
  const ArchiveExtensions: seq<string> := ["zip", "rar", "7z", "tar", "gz"]

  // The shorter lists getFileIcon uses next to the content type.
  const ShortImageExtensions: seq<string> := ["jpg", "jpeg", "png", "gif", "webp", "svg"]
  const ShortVideoExtensions: seq<string> := ["mp4", "avi", "mov", "wmv", "flv", "mkv"]
  const ShortAudioExtensions: seq<string> := ["mp3", "wav", "flac", "aac", "ogg"]

  /** `fileName.split('.').pop()?.toLowerCase() || ''`. */
  function Extension(fileName: string): (ext: string)
    ensures '.' !in ext
    ensures ToLower(ext) == ext
    ensures EndsWith(ToLower(fileName), ext)
  {
    ToLowerKeepsChar(AfterLast(fileName, '.'), '.');
    AfterLastIsSuffix(fileName, '.');
    ToLowerSuffix(fileName, AfterLast(fileName, '.'));
    ToLower(AfterLast(fileName, '.'))
  }

  /** Lower-casing a suffix gives a suffix of the lower-cased text, and is idempotent. */
  lemma ToLowerSuffix(s: string, suffix: string)
    requires EndsWith(s, suffix)
    ensures EndsWith(ToLower(s), ToLower(suffix))
    ensures ToLower(ToLower(suffix)) == ToLower(suffix)
  {
    var d := |s| - |suffix|;
    assert forall i :: 0 <= i < |suffix| ==> suffix[i] == s[d + i];
    assert ToLower(s)[d..] == ToLower(suffix);
  }

  lemma ToLowerKeepsChar(s: string, c: char)
    requires !('A' <= c <= 'Z') && !('a' <= c <= 'z')
    ensures c in ToLower(s) <==> c in s
  {
    if c in s {
      var i :| 0 <= i < |s| && s[i] == c;
      assert ToLower(s)[i] == c;
    }
    if c in ToLower(s) {
      var i :| 0 <= i < |s| && ToLower(s)[i] == c;
      assert s[i] == c;
    }
  }

  /** `mimeTypes[ext] || 'application/octet-stream'`, on the extension. */
  function MimeForExtension(ext: string): string {
    if ext in MimeTypes then MimeString(MimeTypes[ext]) else OctetStream
  }

  function GetMimeTypeFromExtension(fileName: string): string {
    MimeForExtension(Extension(fileName))
  }

  /** The icon chain of getFileIconFromExtension, on the extension. */
  function IconForExtension(ext: string): string {
    if ext in ImageExtensions then GalleryIcon
    else if ext in VideoExtensions then VideoIcon
    else if ext in AudioExtensions then MusicIcon
    else if ext == "pdf" then PdfIcon
    else if ext in WordExtensions then WordIcon
    else if ext in ExcelExtensions then ExcelIcon
    else if ext in ArchiveExtensions then ArchiveIcon
    else FileIcon
  }

  function GetFileIconFromExtension(fileName: string): string {
    IconForExtension(Extension(fileName))
  }

  /** `contentType?.split('/')[0] || ''`. */
  function MajorType(contentType: Option<string>): string {
    if contentType.Some? then Split(contentType.value, '/')[0] else ""
  }

  /** The icon chain of getFileIcon, on the major type and the extension. */
  function IconForKind(kind: string, ext: string): string {
    if kind == "image" || ext in ShortImageExtensions then GalleryIcon
    else if kind == "video" || ext in ShortVideoExtensions then VideoIcon
    else if kind == "audio" || ext in ShortAudioExtensions then MusicIcon
    else if ext == "pdf" then PdfIcon
    else if ext in WordExtensions then WordIcon
    else if ext in ExcelExtensions then ExcelIcon
    else if ext in ArchiveExtensions then ArchiveIcon
    else FileIcon
  }

  function GetFileIcon(contentType: Option<string>, fileName: Option<string>): string {
    if (contentType.None? || !Truthy(contentType.value)) && (fileName.None? || !Truthy(fileName.value)) then FileIcon
    else IconForKind(MajorType(contentType), if fileName.Some? then Extension(fileName.value) else "")
  }

  // ---------------------------------------------------------------------
  // The lookup as written

  /**
   * A value `mimeTypes[ext]` can yield. The table is a plain object
   * literal, so besides its own entries a read finds what every object
   * inherits from `Object.prototype`; of those names only `constructor`
   * (the `Object` function) and `__proto__` (`Object.prototype` itself)
   * are lower-case, and so reachable from a lower-cased extension.
   */
  datatype MimeValue = Text(s: string) | ObjectFunction | ObjectPrototype | Undefined

  /** `mimeTypes[ext]` on the object literal as written. */
  function LookupAsWritten(ext: string): (v: MimeValue)
    ensures v.Text? <==> ext in MimeTypes
    ensures v.Text? ==> v.s == MimeString(MimeTypes[ext])
    ensures v.Undefined? <==> ext !in MimeTypes && ext != "constructor" && ext != "__proto__"
  {
    if ext in MimeTypes then Text(MimeString(MimeTypes[ext]))
    else if ext == "constructor" then ObjectFunction
    else if ext == "__proto__" then ObjectPrototype
    else Undefined
  }

  /**
   * `getMimeTypeFromExtension` as written: `undefined` falls back to
   * octet-stream, while an inherited object is truthy and is returned.
   */
  function GetMimeTypeAsWritten(fileName: string): (v: MimeValue)
    ensures v.Text? <==> Extension(fileName) != "constructor" && Extension(fileName) != "__proto__"
    ensures v.Text? ==> v.s == GetMimeTypeFromExtension(fileName)
  {
    var found := LookupAsWritten(Extension(fileName));
    if found.Undefined? then Text(OctetStream) else found
  }

  /** As written, a name ending in `.constructor` gets the `Object` function for its MIME type. */
  lemma InheritedMimeAsWritten(stem: string)
    ensures GetMimeTypeAsWritten(stem + ".constructor") == ObjectFunction
    ensures GetMimeTypeAsWritten(stem + ".__proto__") == ObjectPrototype
    ensures GetMimeTypeFromExtension(stem + ".constructor") == OctetStream
  {
    InheritedName(stem, "constructor");
    assert stem + "." + "constructor" == stem + ".constructor";
    assert LookupAsWritten("constructor") == ObjectFunction;
    InheritedName(stem, "__proto__");
    assert stem + "." + "__proto__" == stem + ".__proto__";
    assert LookupAsWritten("__proto__") == ObjectPrototype;
  }

  lemma InheritedName(stem: string, name: string)
    requires name == "constructor" || name == "__proto__"
    ensures Extension(stem + "." + name) == name && name !in MimeTypes
  {
    ExtensionAfterLastDot(stem, name);
    assert ToLower(name) == name;
    LongKeyOutsideTable(name);
  }

  // ---------------------------------------------------------------------
  // Properties

  lemma ToLowerIdempotent(s: string)
    ensures ToLower(ToLower(s)) == ToLower(s)
  {
  }

  /** Lower-casing the name does not change its extension. */
  lemma ExtensionOfLower(fileName: string)
    ensures Extension(ToLower(fileName)) == Extension(fileName)
  {
    AfterLastToLower(fileName, '.');
    ToLowerIdempotent(AfterLast(fileName, '.'));
  }

  /** The MIME lookup ignores the case of the name: `a.JPG` and `a.jpg` agree. */
  lemma MimeCaseInsensitive(fileName: string)
    ensures GetMimeTypeFromExtension(ToLower(fileName)) == GetMimeTypeFromExtension(fileName)
  {
    ExtensionOfLower(fileName);
  }

  /** The icon lookup ignores the case of the name. */
  lemma IconCaseInsensitive(fileName: string)
    ensures GetFileIconFromExtension(ToLower(fileName)) == GetFileIconFromExtension(fileName)
  {
    ExtensionOfLower(fileName);
  }

  /** A name with no `.` is its own extension, lower-cased. */
  lemma ExtensionWithoutDot(fileName: string)
    requires '.' !in fileName
    ensures Extension(fileName) == ToLower(fileName)
  {
    SplitNoSeparator(fileName, '.');
  }

  /** So a bare `PDF` is looked up as `pdf`. */
  lemma BareUpperCaseName()
    ensures GetMimeTypeFromExtension("PDF") == "application/pdf"
  {
    ExtensionWithoutDot("PDF");
    assert ToLower("PDF") == "pdf";
    PdfEntry();
  }

  lemma PdfEntry()
    ensures MimeForExtension("pdf") == "application/pdf"
  {
    assert MimeTypes["pdf"] == Mime("application", "pdf");
    assert MimeString(Mime("application", "pdf")) == "application/pdf";
  }

  /** The extension is what follows the last `.`, lower-cased. */
  lemma ExtensionAfterLastDot(stem: string, ext: string)
    requires '.' !in ext
    ensures Extension(stem + "." + ext) == ToLower(ext)
  {
    assert stem + "." + ext == stem + ['.'] + ext;
    AfterLastOfAppend(stem, '.', ext);
    SplitNoSeparator(ext, '.');
  }

  /** The fallback type has major type `application`. */
  lemma OctetStreamMajor()
    ensures MajorType(Some(OctetStream)) == "application"
  {
    MajorTypeOf("application", "octet-stream");
    assert "application" + "/" + "octet-stream" == OctetStream;
  }

  /** With the fallback type, the icon depends on the extension alone. */
  lemma OctetStreamIcon(name: string)
    ensures GetFileIcon(Some(OctetStream), Some(name)) == IconForKind("application", Extension(name))
  {
    OctetStreamMajor();
  }

  lemma LongExtensionPlainIcon(ext: string)
    requires |ext| > 4
    ensures IconForKind("application", ext) == FileIcon
  {
    LongExtension("application", ext);
  }

  /** An extension outside the table falls back to `application/octet-stream`. */
  lemma MimeFallback(fileName: string)
    requires Extension(fileName) !in MimeTypes
    ensures GetMimeTypeFromExtension(fileName) == OctetStream
    ensures Extension(fileName) != "constructor" && Extension(fileName) != "__proto__" ==>
      GetMimeTypeAsWritten(fileName) == Text(OctetStream)
  {
  }

  const Icons := [GalleryIcon, VideoIcon, MusicIcon, PdfIcon, WordIcon, ExcelIcon, ArchiveIcon, FileIcon]

  /** The eight icons are distinct. */
  lemma IconsDistinct()
    ensures forall a, b :: 0 <= a < b < 8 ==> Icons[a] != Icons[b]
  {
    assert GalleryIcon[6] == 'g' && ArchiveIcon[6] == 'a';
  }

  /**
   * No table key is longer than four characters, so a longer extension
   * gets the fallback MIME type and the same icon as no extension at all.
   */
  lemma LongExtension(kind: string, ext: string)
    requires |ext| > 4
    ensures MimeForExtension(ext) == OctetStream
    ensures IconForKind(kind, ext) == IconForKind(kind, "")
  {
    LongKeyOutsideTable(ext);
    assert ext !in ShortImageExtensions && ext !in ShortVideoExtensions && ext !in ShortAudioExtensions;
    assert ext != "pdf" && ext !in WordExtensions && ext !in ExcelExtensions && ext !in ArchiveExtensions;
  }

  lemma LongKeyOutsideTable(ext: string)
    requires |ext| > 4
    ensures ext !in MimeTypes
  {
  }

  /** `t/rest` has major type `t`. */
  lemma MajorTypeOf(major: string, rest: string)
    requires '/' !in major
    ensures MajorType(Some(major + "/" + rest)) == major
  {
    assert major + "/" + rest == major + ['/'] + rest;
    SplitAfterPiece(major, '/', rest);
  }

  /** The major type of `major/subtype` is `major`. */
  lemma MajorTypeOfMime(m: Mime)
    requires '/' !in m.major
    ensures MajorType(Some(MimeString(m))) == m.major
  {
    MajorTypeOf(m.major, m.subtype);
  }

  /** Every table entry's major type is one of the five, none holding a `/`. */
  lemma TableMajors(ext: string)
    requires ext in MimeTypes
    ensures MimeTypes[ext].major in ["image", "video", "audio", "application", "text"]
    ensures '/' !in MimeTypes[ext].major
  {
  }

  // The table entries of each extension group have that group's major type, and no others do.
  lemma ImageMajors(ext: string)
    requires ext in MimeTypes
    ensures ext in ImageExtensions <==> MimeTypes[ext].major == "image"
  {
    if MimeTypes[ext].major == "image" {
      OnlyImagesAreImages(ext);
    }
    if ext in ImageExtensions {
      ImagesAreImages(ext);
    }
  }

  lemma ImagesAreImages(ext: string)
    requires ext in ImageExtensions
    ensures ext in MimeTypes && MimeTypes[ext].major == "image"
  {
    if ext == "jpg" || ext == "jpeg" {
      ImageEntriesJpg(ext);
    } else if ext == "png" || ext == "gif" {
      ImageEntriesPng(ext);
    } else if ext == "webp" || ext == "svg" {
      ImageEntriesWebp(ext);
    } else {
      ImageEntriesIco(ext);
    }
  }

  // Each lookup must pass every key after it in the table, so the entries are checked a few at a time.
  lemma ImageEntriesJpg(ext: string)
    requires ext == "jpg" || ext == "jpeg"
    ensures ext in MimeTypes && MimeTypes[ext].major == "image"
  {
    if ext == "jpg" {
      ImageEntryJpg();
    } else {
      ImageEntryJpeg();
    }
  }

  lemma ImageEntryJpg()
    ensures "jpg" in MimeTypes && MimeTypes["jpg"].major == "image"
  {
  }

  lemma ImageEntryJpeg()
    ensures "jpeg" in MimeTypes && MimeTypes["jpeg"].major == "image"
  {
  }

  lemma ImageEntriesPng(ext: string)
    requires ext == "png" || ext == "gif"
    ensures ext in MimeTypes && MimeTypes[ext].major == "image"
  {
  }

  lemma ImageEntriesWebp(ext: string)
    requires ext == "webp" || ext == "svg"
    ensures ext in MimeTypes && MimeTypes[ext].major == "image"
  {
  }

  lemma ImageEntriesIco(ext: string)
    requires ext == "ico" || ext == "bmp"
    ensures ext in MimeTypes && MimeTypes[ext].major == "image"
  {
  }

  lemma OnlyImagesAreImages(ext: string)
    requires ext in MimeTypes && MimeTypes[ext].major == "image"
    ensures ext in ImageExtensions
  {
  }

  lemma VideoMajors(ext: string)
    requires ext in MimeTypes
    ensures ext in VideoExtensions <==> MimeTypes[ext].major == "video"
  {
    if MimeTypes[ext].major == "video" {
      OnlyVideosAreVideos(ext);
    }
    if ext in VideoExtensions {
      VideosAreVideos(ext);
    }
  }

  lemma OnlyVideosAreVideos(ext: string)
    requires ext in MimeTypes && MimeTypes[ext].major == "video"
    ensures ext in VideoExtensions
  {
  }

  lemma VideosAreVideos(ext: string)
    requires ext in VideoExtensions
    ensures ext in MimeTypes && MimeTypes[ext].major == "video"
  {
    if ext == "mp4" || ext == "avi" {
      VideoEntriesMp4(ext);
    } else if ext == "mov" || ext == "wmv" {
      VideoEntriesMov(ext);
    } else if ext == "flv" || ext == "mkv" {
      VideoEntriesFlv(ext);
    } else {
      VideoEntriesWebm(ext);
    }
  }

  lemma VideoEntriesMp4(ext: string)
    requires ext == "mp4" || ext == "avi"
    ensures ext in MimeTypes && MimeTypes[ext].major == "video"
  {
  }

  lemma VideoEntriesMov(ext: string)
    requires ext == "mov" || ext == "wmv"
    ensures ext in MimeTypes && MimeTypes[ext].major == "video"
  {
  }

  lemma VideoEntriesFlv(ext: string)
    requires ext == "flv" || ext == "mkv"
    ensures ext in MimeTypes && MimeTypes[ext].major == "video"
  {
  }

  lemma VideoEntriesWebm(ext: string)
    requires ext == "webm"
    ensures ext in MimeTypes && MimeTypes[ext].major == "video"
  {
  }

  lemma AudioMajors(ext: string)
    requires ext in MimeTypes
    ensures ext in AudioExtensions <==> MimeTypes[ext].major == "audio"
  {
    if MimeTypes[ext].major == "audio" {
      OnlyAudiosAreAudios(ext);
    }
    if ext in AudioExtensions {
      AudiosAreAudios(ext);
    }
  }

  lemma OnlyAudiosAreAudios(ext: string)
    requires ext in MimeTypes && MimeTypes[ext].major == "audio"
    ensures ext in AudioExtensions
  {
  }

  lemma AudiosAreAudios(ext: string)
    requires ext in AudioExtensions
    ensures ext in MimeTypes && MimeTypes[ext].major == "audio"
  {
    if ext == "mp3" || ext == "wav" {
      AudioEntriesMp3(ext);
    } else if ext == "flac" || ext == "aac" {
      AudioEntriesFlac(ext);
    } else {
      AudioEntriesOgg(ext);
    }
  }

  lemma AudioEntriesMp3(ext: string)
    requires ext == "mp3" || ext == "wav"
    ensures ext in MimeTypes && MimeTypes[ext].major == "audio"
  {
  }

  lemma AudioEntriesFlac(ext: string)
    requires ext == "flac" || ext == "aac"
    ensures ext in MimeTypes && MimeTypes[ext].major == "audio"
  {
  }

  lemma AudioEntriesOgg(ext: string)
    requires ext == "ogg" || ext == "m4a"
    ensures ext in MimeTypes && MimeTypes[ext].major == "audio"
  {
  }

  /** The major type of each table entry, by the icon group its extension is in. */
  lemma TableMajorType(ext: string)
    requires ext in MimeTypes
    ensures MajorType(Some(MimeString(MimeTypes[ext]))) != ""
    ensures ext in ImageExtensions <==> MajorType(Some(MimeString(MimeTypes[ext]))) == "image"
    ensures ext in VideoExtensions <==> MajorType(Some(MimeString(MimeTypes[ext]))) == "video"
    ensures ext in AudioExtensions <==> MajorType(Some(MimeString(MimeTypes[ext]))) == "audio"
  {
    TableMajors(ext);
    ImageMajors(ext);
    VideoMajors(ext);
    AudioMajors(ext);
    MajorTypeOfMime(MimeTypes[ext]);
  }

  lemma OutsideTable(ext: string)
    requires ext !in MimeTypes
    ensures ext !in ImageExtensions && ext !in VideoExtensions && ext !in AudioExtensions
  {
  }

  /**
   * The MIME type of an extension has major type image, video or audio
   * exactly when the extension is on the icon table's image, video or
   * audio list; an extension outside the table gets `application`.
   */
  lemma MimeMajorType(ext: string)
    ensures MajorType(Some(MimeForExtension(ext))) != ""
    ensures ext in ImageExtensions <==> MajorType(Some(MimeForExtension(ext))) == "image"
    ensures ext in VideoExtensions <==> MajorType(Some(MimeForExtension(ext))) == "video"
    ensures ext in AudioExtensions <==> MajorType(Some(MimeForExtension(ext))) == "audio"
  {
    if ext in MimeTypes {
      TableMajorType(ext);
    } else {
      assert OctetStream == "application" + "/" + "octet-stream";
      MajorTypeOf("application", "octet-stream");
      OutsideTable(ext);
    }
  }

  /**
   * The gallery, video and music icons are chosen for exactly the names
   * whose MIME type has major type image, video and audio.
   */
  lemma IconMatchesMimeMajorType(fileName: string)
    ensures GetFileIconFromExtension(fileName) == GalleryIcon <==> MajorType(Some(GetMimeTypeFromExtension(fileName))) == "image"
    ensures GetFileIconFromExtension(fileName) == VideoIcon <==> MajorType(Some(GetMimeTypeFromExtension(fileName))) == "video"
    ensures GetFileIconFromExtension(fileName) == MusicIcon <==> MajorType(Some(GetMimeTypeFromExtension(fileName))) == "audio"
  {
    var ext := Extension(fileName);
    var icon := IconForExtension(ext);
    MimeMajorType(ext);
    IconsDistinct();
    if ext in ImageExtensions {
      assert icon == GalleryIcon;
    } else if ext in VideoExtensions {
      assert icon == VideoIcon;
    } else if ext in AudioExtensions {
      assert icon == MusicIcon;
    } else {
      assert icon in {PdfIcon, WordIcon, ExcelIcon, ArchiveIcon, FileIcon};
    }
  }

  /** Both icon functions fall back to the plain file icon. */
  lemma IconFallbacks(fileName: string, contentType: Option<string>)
    requires Extension(fileName) !in ImageExtensions + VideoExtensions + AudioExtensions + ["pdf"] + WordExtensions + ExcelExtensions + ArchiveExtensions
    requires MajorType(contentType) != "image" && MajorType(contentType) != "video" && MajorType(contentType) != "audio"
    ensures GetFileIconFromExtension(fileName) == FileIcon
    ensures GetFileIcon(contentType, Some(fileName)) == FileIcon
  {
    var ext := Extension(fileName);
    assert ext !in ImageExtensions && ext !in VideoExtensions && ext !in AudioExtensions;
    assert ext !in ShortImageExtensions && ext !in ShortVideoExtensions && ext !in ShortAudioExtensions;
  }

  /** With neither a content type nor a name, the icon is the plain file icon. */
  lemma IconOfNothing(contentType: Option<string>, fileName: Option<string>)
    requires contentType.None? || contentType.value == ""
    requires fileName.None? || fileName.value == ""
    ensures GetFileIcon(contentType, fileName) == FileIcon
  {
  }

  /**
   * A content type of major type image wins over any extension; video
   * and audio types win unless the extension is on an earlier short list.
   */
  lemma ContentTypeFirst(major: string, rest: string, fileName: Option<string>)
    requires '/' !in major
    ensures major == "image" ==> GetFileIcon(Some(major + "/" + rest), fileName) == GalleryIcon
    ensures major == "video" && (fileName.None? || Extension(fileName.value) !in ShortImageExtensions) ==>
      GetFileIcon(Some(major + "/" + rest), fileName) == VideoIcon
    ensures major == "audio" && (fileName.None? || Extension(fileName.value) !in ShortImageExtensions + ShortVideoExtensions) ==>
      GetFileIcon(Some(major + "/" + rest), fileName) == MusicIcon
  {
    MajorTypeOf(major, rest);
  }

  /**
   * With no stored content type, the explorer passes the table's MIME
   * type to getFileIcon; the result is then the extension icon, even for
   * `ico`, `bmp`, `webm` and `m4a`, which the short lists miss.
   */
  lemma ItemIconMatchesExtensionIcon(name: string)
    ensures GetFileIcon(Some(GetMimeTypeFromExtension(name)), Some(name)) == GetFileIconFromExtension(name)
  {
    var ext := Extension(name);
    var mime := MimeForExtension(ext);
    MimeMajorType(ext);
    assert mime != "";
    ItemIconOfExtension(ext, MajorType(Some(mime)));
  }

  lemma ItemIconOfExtension(ext: string, major: string)
    requires ext in ImageExtensions <==> major == "image"
    requires ext in VideoExtensions <==> major == "video"
    requires ext in AudioExtensions <==> major == "audio"
    ensures IconForKind(major, ext) == IconForExtension(ext)
  {
    if ext in ImageExtensions {
    } else if ext in VideoExtensions {
      assert ext !in ShortImageExtensions;
    } else if ext in AudioExtensions {
      assert ext !in ShortImageExtensions && ext !in ShortVideoExtensions;
    } else {
      assert ext !in ShortImageExtensions && ext !in ShortVideoExtensions && ext !in ShortAudioExtensions;
    }
  }

  /**
   * The short lists do miss those four when the name is all getFileIcon
   * has: it then gives the plain file icon, where the extension icon
   * would not.
   */
  lemma ShortListsMissSome(stem: string, ext: string)
    requires ext in ["ico", "bmp", "webm", "m4a"]
    ensures GetFileIcon(None, Some(stem + "." + ext)) == FileIcon
    ensures GetFileIconFromExtension(stem + "." + ext) != FileIcon
  {
    var name := stem + "." + ext;
    MissedExtension(ext);
    ExtensionAfterLastDot(stem, ext);
    assert Extension(name) == ext;
    assert Truthy(name);
  }

  lemma MissedExtension(ext: string)
    requires ext in ["ico", "bmp", "webm", "m4a"]
    ensures '.' !in ext && ToLower(ext) == ext
    ensures ext !in ShortImageExtensions && ext !in ShortVideoExtensions && ext !in ShortAudioExtensions
  {
  }
}
