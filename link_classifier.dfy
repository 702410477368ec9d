/**
 * `LinkClassifier`: the kind of a link found on a page, from a MIME type
 * hint and from the extension at the end of the URL's path.
 */
module LinkClassification {
  import opened Common
  import opened Strings
  import opened Urls
  import opened DiscoveryTypes

  const VideoExts: set<string> := {".mp4", ".mkv", ".avi", ".mov", ".webm", ".flv", ".wmv", ".m4v", ".3gp", ".m3u8"}
  const ImageExts: set<string> := {".jpg", ".jpeg", ".png", ".gif", ".webp", ".bmp", ".svg", ".tiff", ".ico"}
  const AudioExts: set<string> := {".mp3", ".wav", ".flac", ".aac", ".ogg", ".m4a", ".wma", ".opus"}
  const ArchiveExts: set<string> := {".zip", ".rar", ".7z", ".tar", ".gz", ".bz2", ".xz", ".iso", ".dmg", ".pkg"}
  const DocumentExts: set<string> := {".pdf", ".doc", ".docx", ".xls", ".xlsx", ".ppt", ".pptx", ".txt", ".rtf"}

  /** `ALL_FILE_EXTENSIONS`: the union of the five categories. */
  const AllExts: set<string> := VideoExts + ImageExts + AudioExts + ArchiveExts + DocumentExts

  /** `MEDIA_MIME_TYPES`. */
  const MediaMimes: set<string> := {
    "video/mp4", "video/mpeg", "video/quicktime", "video/webm", "video/x-msvideo",
    "image/jpeg", "image/png", "image/gif", "image/webp", "image/svg+xml",
    "audio/mpeg", "audio/wav", "audio/flac", "audio/aac", "audio/ogg"}

  /** An extension: a dot and at least one more character, none of them a dot. */
  predicate IsExt(e: string) {
    |e| >= 2 && e[0] == '.' && '.' !in e[1..]
  }

  /** The lowered path of a URL, which is what the classifier looks at. */
  function LowerPath(url: string): string {
    Lower(ParseUrl(url).path)
  }

  /**
   * What `classify_link(url, mime_type)` answers: MEDIA for a known media
   * MIME type; STREAM_HINT for a path ending in ".m3u8"; for a path ending
   * in a known extension, MEDIA when it is a video or audio one and FILE
   * otherwise; PAGE for an empty path or "/"; UNKNOWN for anything else.
   */
  function Classification(url: string, mime: Option<string>): LinkType {
    var path := LowerPath(url);
    if mime.Some? && mime.value in MediaMimes then MediaLink
    else if EndsWith(path, ".m3u8") then StreamHintLink
    else if exists e | e in AllExts :: EndsWith(path, e) then
      (if exists e | e in VideoExts + AudioExts :: EndsWith(path, e) then MediaLink else FileLink)
    else if path == "" || path == "/" then PageLink
    else UnknownLink
  }

  /**
   * `classify_link(url, mime_type)`, with the extensions tried in `order`,
   * the iteration order of the extension set: the answer does not depend on
   * it, since a path ends in at most one known extension.
   */
  method ClassifyLink(url: string, mime: Option<string>, order: seq<string>) returns (t: LinkType)
    requires forall e :: e in order <==> e in AllExts
    ensures t == Classification(url, mime)
  {
    var path := LowerPath(url);
    HintsFirst(url, mime);
    if mime.Some? && mime.value in MediaMimes {
      return MediaLink;
    }
    if EndsWith(path, ".m3u8") {
      return StreamHintLink;
    }
    for i := 0 to |order|
      invariant forall j | 0 <= j < i :: !EndsWith(path, order[j])
    {
      var e := order[i];
      if EndsWith(path, e) {
        ExtensionFound(url, mime, e);
        if e in VideoExts || e in AudioExts {
          return MediaLink;
        }
        return FileLink;
      }
      assert forall j | 0 <= j < i + 1 :: !EndsWith(path, order[j]) by {
        forall j | 0 <= j < i + 1 ensures !EndsWith(path, order[j]) {
          if j == i {
            assert order[j] == e;
          }
        }
      }
    }
    forall e | e in AllExts ensures !EndsWith(path, e) {
      var j :| 0 <= j < |order| && order[j] == e;
    }
    NoExtension(url, mime);
    if path == "" || path == "/" {
      return PageLink;
    }
    return UnknownLink;
  }

  /** When a known extension other than ".m3u8" ends the path and no MIME type decides, that extension's category decides. */
  lemma ExtensionFound(url: string, mime: Option<string>, e: string)
    requires mime.None? || mime.value !in MediaMimes
    requires !EndsWith(LowerPath(url), ".m3u8")
    requires e in AllExts && EndsWith(LowerPath(url), e)
    ensures Classification(url, mime) == (if e in VideoExts || e in AudioExts then MediaLink else FileLink)
  {
    var path := LowerPath(url);
    ExtensionsWellFormed();
    forall e2 | e2 in VideoExts + AudioExts && EndsWith(path, e2) ensures e2 == e {
      OneExtensionPerPath(path, e, e2);
    }
  }

  /** When no known extension ends the path and no MIME type decides, the path alone decides between PAGE and UNKNOWN. */
  lemma NoExtension(url: string, mime: Option<string>)
    requires mime.None? || mime.value !in MediaMimes
    requires !EndsWith(LowerPath(url), ".m3u8")
    requires forall e | e in AllExts :: !EndsWith(LowerPath(url), e)
    ensures Classification(url, mime) == (if LowerPath(url) == "" || LowerPath(url) == "/" then PageLink else UnknownLink)
  {
  }

  // ---------------------------------------------------------------------------
  // Properties
  // ---------------------------------------------------------------------------

  /** Every known extension is a dot and letters or digits, without a second dot. */
  lemma ExtensionsWellFormed()
    ensures forall e | e in AllExts :: IsExt(e)
  {
    MediaExtensionsWellFormed();
    OtherExtensionsWellFormed();
  }

  lemma MediaExtensionsWellFormed()
    ensures forall e | e in VideoExts + AudioExts :: IsExt(e)
  {
  }

  lemma OtherExtensionsWellFormed()
    ensures forall e | e in ImageExts + ArchiveExts + DocumentExts :: IsExt(e)
  {
    assert forall e | e in ImageExts :: IsExt(e);
    assert forall e | e in ArchiveExts :: IsExt(e);
    assert forall e | e in DocumentExts :: IsExt(e);
  }

  /** Two extensions that both end a path are the same one. */
  lemma OneExtensionPerPath(path: string, a: string, b: string)
    requires IsExt(a) && IsExt(b) && EndsWith(path, a) && EndsWith(path, b)
    ensures a == b
  {
  }

  /**
   * Without a media MIME type, a path ending in a known extension other than
   * ".m3u8" is MEDIA exactly when the extension is a video or audio one, and
   * FILE otherwise (images, archives, documents).
   */
  lemma ExtensionDecides(url: string, e: string)
    requires e in AllExts && e != ".m3u8" && EndsWith(LowerPath(url), e)
    ensures Classification(url, None) == (if e in VideoExts || e in AudioExts then MediaLink else FileLink)
  {
    var path := LowerPath(url);
    if EndsWith(path, ".m3u8") {
      ExtensionsWellFormed();
      OneExtensionPerPath(path, e, ".m3u8");
    }
    ExtensionFound(url, None, e);
  }

  /** A media MIME type decides alone; without one a ".m3u8" path is a stream hint whatever the case of its letters. */
  lemma HintsFirst(url: string, mime: Option<string>)
    ensures mime.Some? && mime.value in MediaMimes ==> Classification(url, mime) == MediaLink
    ensures EndsWith(Lower(ParseUrl(url).path), ".m3u8") && (mime.None? || mime.value !in MediaMimes) ==>
              Classification(url, mime) == StreamHintLink
  {
  }

  /** The site root, or a URL without a path, is a page when no MIME type says otherwise. */
  lemma RootIsPage(url: string)
    requires ParseUrl(url).path == "" || ParseUrl(url).path == "/"
    ensures Classification(url, None) == PageLink
  {
    var path := LowerPath(url);
    assert path == "" || path == "/";
    ExtensionsWellFormed();
  }
}
