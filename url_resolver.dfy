/**
 * `UrlResolver`: normalizes a URL given by the user and decides what kind
 * of resource is behind it, from its path and from the headers of a HEAD
 * request (or, when that request cannot be made, of a streamed GET). The
 * requests are not modelled: their answers are inputs.
 */
module UrlResolution {
  import opened Common
  import opened Strings
  import opened Urls
  import opened HttpTransfer
  import opened GrabberTypes

  /** A request made only for its headers: it raised, or it answered with these headers (whatever the status). */
  datatype Probe = ProbeFailed | Answered(headers: Headers)

  /** Content types that mark an HTML page. */
  const PageTypes: seq<string> := ["text/html", "application/xhtml+xml"]

  /** Content types that mark a file-like resource. */
  const FileTypes: seq<string> := ["application/", "image/", "video/", "audio/", "text/plain", "text/csv", "text/javascript", "text/css"]

  /** `any(ct in s for ct in types)`. */
  predicate ContainsAny(s: string, types: seq<string>) {
    exists k | 0 <= k < |types| :: Contains(s, types[k])
  }

  /**
   * `_normalize_url(url)`: "https://" is put in front unless the URL starts
   * with "http://" or "https://"; then scheme, network location, path and
   * the query when there is one are put back together, and the fragment is dropped.
   */
  function NormalizeUrl(url: string): string {
    var p := ParseUrl(WithScheme(url));
    p.scheme + "://" + p.netloc + p.path + (if p.query != "" then "?" + p.query else "")
  }

  /** The URL with "https://" put in front unless it starts with "http://" or "https://". */
  function WithScheme(url: string): string {
    if StartsWith(url, "http://") || StartsWith(url, "https://") then url else "https://" + url
  }

  /** `_is_stream_hint(url)`: the path, ignoring case, ends with ".m3u8". */
  predicate IsStreamHint(url: string) {
    EndsWith(Lower(ParseUrl(url).path), ".m3u8")
  }

  /**
   * `os.path.splitext(path)[1]`: from the last '.' of the last path
   * segment, unless only dots come before it in that segment.
   */
  function SplitExt(path: string): (ext: string)
    ensures ext == [] || (ext[0] == '.' && '.' !in ext[1..] && '/' !in ext && EndsWith(path, ext))
  {
    var base := AfterLast(path, '/');
    var ext := ExtOfName(base);
    SuffixOfSuffix(path, base, ext, '/');
    ext
  }

  /** The extension of one path segment: from its last '.', unless only dots come before it. */
  function ExtOfName(base: string): (ext: string)
    ensures ext == [] || (ext[0] == '.' && '.' !in ext[1..] && EndsWith(base, ext))
  {
    var tail := AfterLast(base, '.');
    if |tail| == |base| then ""
    else
      var d := |base| - |tail| - 1;
      if exists k | 0 <= k < d :: base[k] != '.' then
        assert base[d..][1..] == tail;
        base[d..]
      else ""
  }

  /** A suffix of a suffix is a suffix, and has no character the middle one lacks. */
  lemma SuffixOfSuffix(a: string, b: string, e: string, c: char)
    requires EndsWith(a, b) && EndsWith(b, e) && c !in b
    ensures EndsWith(a, e) && c !in e
  {
    assert a[|a| - |e|..] == b[|b| - |e|..];
    assert forall k | 0 <= k < |e| :: e[k] == b[|b| - |e| + k];
  }

  /** `_has_file_extension(path)`: an extension of at most ten characters, the dot included. */
  predicate HasFileExtension(path: string) {
    var ext := SplitExt(path);
    ext != "" && |ext| <= 10
  }

  /** `_determine_url_type(url)`, given the answers of the HEAD request and of the fallback GET. */
  function DetermineUrlType(url: string, head: Probe, get: Probe): (t: UrlType)
    ensures t == DirectFile || t == HtmlPage
  {
    match head
    case Answered(h) =>
      var contentType := Lower(HeaderOr(h, "content-type", ""));
      var disposition := Lower(HeaderOr(h, "content-disposition", ""));
      if ContainsAny(contentType, PageTypes) then HtmlPage
      else if Contains(disposition, "attachment") || Contains(disposition, "filename=") then DirectFile
      else if HasFileExtension(Lower(ParseUrl(url).path)) then DirectFile
      else if ContainsAny(contentType, FileTypes) then DirectFile
      else HtmlPage
    case ProbeFailed =>
      match get
      case Answered(h) =>
        var contentType := Lower(HeaderOr(h, "content-type", ""));
        if ContainsAny(contentType, PageTypes) then HtmlPage
        else if ContainsAny(contentType, FileTypes) then DirectFile
        else HtmlPage
      case ProbeFailed => HtmlPage
  }

  /** `resolve(url)`: the normalized URL and its type; a stream hint is decided without any request. */
  function Resolve(url: string, head: Probe, get: Probe): (r: (string, UrlType))
    ensures r.0 == NormalizeUrl(url)
    ensures r.1 == StreamHint <==> IsStreamHint(r.0)
    ensures r.1 != Unknown
  {
    var normalized := NormalizeUrl(url);
    if IsStreamHint(normalized) then (normalized, StreamHint)
    else (normalized, DetermineUrlType(normalized, head, get))
  }

  // ---------------------------------------------------------------------------
  // Properties
  // ---------------------------------------------------------------------------

  /** After "//" the path is empty or starts with '/'. */
  lemma PathAfterNetloc(rest: string)
    requires StartsWith(rest, "//")
    ensures var (_, rest2) := NetlocSplit(rest);
      var path := CutOrAll(CutOrAll(rest2, '#').0, '?').0;
      path == [] || path[0] == '/'
  {
    var (_, rest2) := NetlocSplit(rest);
    var rest3 := CutOrAll(rest2, '#').0;
    var path := CutOrAll(rest3, '?').0;
    assert rest[..2] == "//";
    var d := 2 + IndexOfAny(rest[2..], {'/', '?', '#'});
    assert rest2 == rest[d..];
    assert rest2 == [] || rest2[0] in {'/', '?', '#'} by {
      if d < |rest| {
        assert rest[2..][d - 2] == rest2[0];
      }
    }
    CutOrAllPrefix(rest2, '#');
    CutOrAllPrefix(rest3, '?');
  }

  /** The text before the first `c` is a prefix of `s`, and empty when `s` starts with `c`. */
  lemma CutOrAllPrefix(s: string, c: char)
    ensures StartsWith(s, CutOrAll(s, c).0)
    ensures |s| > 0 && s[0] == c ==> CutOrAll(s, c).0 == []
  {
    var r := CutOrAll(s, c);
    if c in s {
      assert s == r.0 + [c] + r.1;
      assert s[..|r.0|] == r.0;
    }
  }

  /** A URL starting with "http" or "https" and "://" has that scheme, and "//" comes right after it. */
  lemma SchemeOfWeb(url: string, scheme: string)
    requires scheme == "http" || scheme == "https"
    requires StartsWith(url, scheme + "://")
    ensures SchemeSplit(url) == (scheme, url[|scheme| + 1..])
    ensures StartsWith(url[|scheme| + 1..], "//")
  {
    var rest := url[|scheme| + 1..];
    assert url == scheme + ":" + rest;
    SchemeOfJoined(scheme, rest);
    assert rest[..2] == url[|scheme| + 1..|scheme| + 3];
  }

  /**
   * A normalized URL is "http://" or "https://", a network location, a path
   * that is empty or starts with '/', and the query when there is one, and
   * it has no fragment.
   */
  lemma NormalizedShape(url: string)
    ensures var n := NormalizeUrl(url);
      var p := ParseUrl(WithScheme(url));
      && (p.scheme == "http" || p.scheme == "https")
      && (p.path == [] || p.path[0] == '/')
      && n == p.scheme + "://" + p.netloc + p.path + (if p.query != "" then "?" + p.query else "")
      && '#' !in n
  {
    var scheme := WebPrefixed(url);
    WebUrlParts(WithScheme(url), scheme);
    var p := ParseUrl(WithScheme(url));
    JoinedHasNoHash(p.scheme, p.netloc, p.path, p.query);
  }

  /** The URL given a scheme starts with "http://" or "https://". */
  lemma WebPrefixed(url: string) returns (scheme: string)
    ensures scheme == "http" || scheme == "https"
    ensures StartsWith(WithScheme(url), scheme + "://")
  {
    var u := WithScheme(url);
    scheme := if StartsWith(u, "http://") then "http" else "https";
    if !StartsWith(url, "http://") && !StartsWith(url, "https://") {
      assert u[..8] == "https://";
    }
  }

  /** A URL starting with "http://" or "https://" splits with that scheme and a path that is empty or starts with '/'. */
  lemma WebUrlParts(u: string, scheme: string)
    requires scheme == "http" || scheme == "https"
    requires StartsWith(u, scheme + "://")
    ensures SplitUrl(u).scheme == scheme
    ensures SplitUrl(u).path == [] || SplitUrl(u).path[0] == '/'
  {
    SchemeOfWeb(u, scheme);
    PathAfterNetloc(u[|scheme| + 1..]);
  }

  lemma JoinedHasNoHash(scheme: string, netloc: string, path: string, query: string)
    requires scheme == "http" || scheme == "https"
    requires '#' !in netloc && '#' !in path && '#' !in query
    ensures '#' !in scheme + "://" + netloc + path + (if query != "" then "?" + query else "")
  {
    assert '#' !in scheme + "://";
  }

  /** Normalizing a normalized URL changes nothing. */
  lemma NormalizeIdempotent(url: string)
    ensures NormalizeUrl(NormalizeUrl(url)) == NormalizeUrl(url)
  {
    NormalizedShape(url);
    var p := ParseUrl(WithScheme(url));
    NormalizedIsFixed(NormalizeUrl(url), p.scheme, p.netloc, p.path, p.query);
  }

  /** A URL already in normalized form is its own normalization. */
  lemma NormalizedIsFixed(n: string, scheme: string, netloc: string, path: string, query: string)
    requires scheme == "http" || scheme == "https"
    requires '/' !in netloc && '?' !in netloc && '#' !in netloc
    requires (path == [] || path[0] == '/') && '?' !in path && '#' !in path && '#' !in query
    requires ParamFree(path)
    requires n == scheme + "://" + netloc + path + (if query != "" then "?" + query else "")
    ensures NormalizeUrl(n) == n
  {
    var rest := netloc + path + (if query != "" then "?" + query else "");
    Regroup(scheme + "://", netloc, path, if query != "" then "?" + query else "");
    WebScheme(n, scheme, rest);
    SplitOfJoined(n, scheme, netloc, path, query, query != "");
    assert WithScheme(n) == n;
    ParseOfSplit(n);
  }

  lemma Regroup(a: string, b: string, c: string, d: string)
    ensures a + b + c + d == a + (b + c + d)
  {
  }

  /** A URL whose last path segment has no ';' parses as it splits. */
  lemma ParseOfSplit(url: string)
    requires ParamFree(SplitUrl(url).path)
    ensures ParseUrl(url) == SplitUrl(url)
  {
  }

  /** "http" and "https" are lower-case schemes, and a URL starting with either and "://" is kept as it is. */
  lemma WebScheme(n: string, scheme: string, rest: string)
    requires scheme == "http" || scheme == "https"
    requires n == scheme + "://" + rest
    ensures |scheme| > 0 && IsAsciiLetter(scheme[0]) && forall k | 0 <= k < |scheme| :: IsSchemeChar(scheme[k]) && !IsUpper(scheme[k])
    ensures StartsWith(n, "http://") || StartsWith(n, "https://")
  {
    if scheme == "https" {
      assert n == "https://" + rest;
      assert n[..8] == "https://";
    } else {
      assert n == "http://" + rest;
      assert n[..7] == "http://";
    }
  }

  /**
   * The type decision on a page that was reached: an HTML content type
   * wins; otherwise an attachment, a file extension on the path or a
   * file-like content type makes it a file; anything else is a page.
   */
  lemma ReachedUrlType(url: string, h: Headers, get: Probe)
    ensures var ct := Lower(HeaderOr(h, "content-type", ""));
      var cd := Lower(HeaderOr(h, "content-disposition", ""));
      var t := DetermineUrlType(url, Answered(h), get);
      && (ContainsAny(ct, PageTypes) ==> t == HtmlPage)
      && (!ContainsAny(ct, PageTypes) ==>
            (t == DirectFile <==>
               Contains(cd, "attachment") || Contains(cd, "filename=")
               || HasFileExtension(Lower(ParseUrl(url).path)) || ContainsAny(ct, FileTypes)))
  {
  }

  /** With neither request answering, every URL that is not a stream hint is taken for a page. */
  lemma UnreachableIsPage(url: string)
    ensures !IsStreamHint(NormalizeUrl(url)) ==> Resolve(url, ProbeFailed, ProbeFailed).1 == HtmlPage
  {
  }

  /**
   * A last segment made of a stem that is not all dots, a dot and an
   * extension without dots has that extension, dot included.
   */
  lemma SplitExtOfName(dir: string, stem: string, e: string)
    requires '/' !in stem && '/' !in e && '.' !in e
    requires exists k | 0 <= k < |stem| :: stem[k] != '.'
    ensures SplitExt(dir + "/" + stem + "." + e) == "." + e
  {
    var name := stem + "." + e;
    assert dir + "/" + stem + "." + e == dir + ['/'] + name;
    assert '/' !in name;
    AfterLastJoined(dir, '/', name);
    ExtOfStem(stem, e);
  }

  /** A stem that is not all dots, a dot and an extension without dots: the extension is the dot and the rest. */
  lemma ExtOfStem(stem: string, e: string)
    requires '.' !in e
    requires exists k | 0 <= k < |stem| :: stem[k] != '.'
    ensures ExtOfName(stem + "." + e) == "." + e
  {
    var name := stem + "." + e;
    assert name == stem + ['.'] + e;
    AfterLastJoined(stem, '.', e);
    var k :| 0 <= k < |stem| && stem[k] != '.';
    assert name[k] == stem[k];
    assert name[|stem|..] == "." + e;
  }

  /** A last segment whose only dot leads it (".bashrc") has no extension. */
  lemma SplitExtOfDotFile(dir: string, e: string)
    requires '/' !in e && '.' !in e
    ensures SplitExt(dir + "/." + e) == ""
  {
    var name := "." + e;
    assert dir + "/." + e == dir + ['/'] + name;
    AfterLastJoined(dir, '/', name);
    assert name == [] + ['.'] + e;
    AfterLastJoined([], '.', e);
  }

  /** The text after the last `c` of `x`, `c` and a `y` without `c` is `y`. */
  lemma AfterLastJoined(x: string, c: char, y: string)
    requires c !in y
    ensures AfterLast(x + [c] + y, c) == y
  {
    var s := x + [c] + y;
    assert s[|s| - |y|..] == y;
    assert s[|s| - |y| - 1] == c;
    AfterLastUnique(s, c, y);
  }
}
