/**
 * The server's proxy guesses a content type from the key for a few image
 * extensions; the client has its own table. Where the proxy guesses, the
 * two agree.
 */
module ContentTypes {
  import opened Wrappers
  import opened JsString
  import FileType
  import R2Routes

  /** The proxy and the client read the same extension off a key. */
  lemma SameExtension(key: string)
    ensures ToLower(AfterLast(key, '.')) == FileType.Extension(key)
  {
  }

  /**
   * With no stored type, the proxy sets a content type exactly for the
   * six short-list image extensions, and then the one the client's table
   * gives.
   */
  lemma ProxyAgreesWithMimeTable(stored: Option<string>, key: string)
    requires stored.None? || stored.value == ""
    ensures R2Routes.ProxyContentType(stored, key).Some? <==> FileType.Extension(key) in FileType.ShortImageExtensions
    ensures R2Routes.ProxyContentType(stored, key).Some? ==>
      R2Routes.ProxyContentType(stored, key).value == FileType.GetMimeTypeFromExtension(key)
  {
    SameExtension(key);
    var ext := FileType.Extension(key);
    if ext in FileType.ShortImageExtensions {
      GuessMatchesTable(ext);
    }
  }

  lemma GuessMatchesTable(ext: string)
    requires ext in FileType.ShortImageExtensions
    ensures R2Routes.ProxyGuess(ext).Some? && R2Routes.ProxyGuess(ext).value == FileType.MimeForExtension(ext)
  {
    if ext == "jpg" {
      GuessJpg();
    } else if ext == "jpeg" {
      GuessJpeg();
    } else if ext == "png" {
      GuessPng();
    } else if ext == "gif" {
      GuessGif();
    } else if ext == "webp" {
      GuessWebp();
    } else {
      GuessSvg();
    }
  }

  // The table is large, so each extension of the short list is looked up on its own.
  lemma GuessJpg()
    ensures R2Routes.ProxyGuess("jpg") == Some(FileType.MimeForExtension("jpg"))
  {
    assert FileType.MimeTypes["jpg"] == FileType.Mime("image", "jpeg");
    assert FileType.MimeString(FileType.Mime("image", "jpeg")) == "image/jpeg";
  }

  lemma GuessJpeg()
    ensures R2Routes.ProxyGuess("jpeg") == Some(FileType.MimeForExtension("jpeg"))
  {
    assert FileType.MimeTypes["jpeg"] == FileType.Mime("image", "jpeg");
    assert FileType.MimeString(FileType.Mime("image", "jpeg")) == "image/jpeg";
  }

  lemma GuessPng()
    ensures R2Routes.ProxyGuess("png") == Some(FileType.MimeForExtension("png"))
  {
    assert FileType.MimeTypes["png"] == FileType.Mime("image", "png");
    assert FileType.MimeString(FileType.Mime("image", "png")) == "image/png";
  }

  lemma GuessGif()
    ensures R2Routes.ProxyGuess("gif") == Some(FileType.MimeForExtension("gif"))
  {
    assert FileType.MimeTypes["gif"] == FileType.Mime("image", "gif");
    assert FileType.MimeString(FileType.Mime("image", "gif")) == "image/gif";
  }

  lemma GuessWebp()
    ensures R2Routes.ProxyGuess("webp") == Some(FileType.MimeForExtension("webp"))
  {
    assert FileType.MimeTypes["webp"] == FileType.Mime("image", "webp");
    assert FileType.MimeString(FileType.Mime("image", "webp")) == "image/webp";
  }

  lemma GuessSvg()
    ensures R2Routes.ProxyGuess("svg") == Some(FileType.MimeForExtension("svg"))
  {
    assert FileType.MimeTypes["svg"] == FileType.Mime("image", "svg+xml");
    assert FileType.MimeString(FileType.Mime("image", "svg+xml")) == "image/svg+xml";
  }
}
