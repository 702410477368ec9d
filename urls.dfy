/**
 * Python's `urllib.parse.urlparse` and the `urlsplit` it builds on: a URL cut
 * into scheme, network location, path, query and fragment, with the
 * `;parameters` of the last path segment cut off the path. Only the cutting
 * is modelled: no stripping of tabs and line breaks, no IPv6 bracket check,
 * no caching.
 */
module Urls {
  import opened Strings

  /** The five parts of a URL, as `urlsplit` returns them. */
  datatype UrlParts = UrlParts(scheme: string, netloc: string, path: string, query: string, fragment: string)

  predicate IsAsciiLetter(c: char) {
    'a' <= c <= 'z' || 'A' <= c <= 'Z'
  }

  /** A character allowed in a scheme: a letter, a digit, '+', '-' or '.'. */
  predicate IsSchemeChar(c: char) {
    IsAsciiLetter(c) || IsDigit(c) || c == '+' || c == '-' || c == '.'
  }

  /** The text before the first ':' is a scheme: it starts with a letter and has only scheme characters. */
  predicate HasScheme(url: string) {
    ':' in url && IndexOf(url, ':') > 0 && IsAsciiLetter(url[0])
    && forall k | 0 <= k < IndexOf(url, ':') :: IsSchemeChar(url[k])
  }

  /** The index of the first character of `s` from `cs`, or `|s|` when there is none. */
  function IndexOfAny(s: string, cs: set<char>): (i: nat)
    ensures i <= |s|
    ensures forall k | 0 <= k < i :: s[k] !in cs
    ensures i < |s| ==> s[i] in cs
    decreases |s|
  {
    if s == [] then 0
    else if s[0] in cs then 0
    else 1 + IndexOfAny(s[1..], cs)
  }

  /** Python's `s.split(c, 1)` as a pair: the text before the first `c` and the text after it. */
  function CutAt(s: string, c: char): (r: (string, string))
    requires c in s
    ensures c !in r.0 && s == r.0 + [c] + r.1
  {
    var i := IndexOf(s, c);
    assert s == s[..i] + [c] + s[i + 1..];
    (s[..i], s[i + 1..])
  }

  /** The scheme (lowered) and the text after its ':', or no scheme and the whole URL. */
  function SchemeSplit(url: string): (r: (string, string))
  {
    if HasScheme(url) then (Lower(url[..IndexOf(url, ':')]), url[IndexOf(url, ':') + 1..]) else ("", url)
  }

  /** After "//", the network location up to the first '/', '?' or '#', and the text from there on. */
  function NetlocSplit(rest: string): (r: (string, string))
    ensures '/' !in r.0 && '?' !in r.0 && '#' !in r.0
  {
    if |rest| >= 2 && rest[..2] == "//" then
      var d := 2 + IndexOfAny(rest[2..], {'/', '?', '#'});
      assert forall k | 0 <= k < d - 2 :: rest[2..d][k] == rest[2..][k];
      (rest[2..d], rest[d..])
    else ("", rest)
  }

  /** The text before the first `c` and the text after it, or all of `s` and nothing. */
  function CutOrAll(s: string, c: char): (r: (string, string))
    ensures c !in r.0
  {
    if c in s then CutAt(s, c) else (s, "")
  }

  /**
   * `urlsplit(url)`: a scheme before the first ':' (lowered) when the text
   * before it is one; then a network location after "//" up to the first
   * '/', '?' or '#'; then the fragment after the first '#', and the query
   * after the first '?' of what remains; the rest is the path.
   */
  function SplitUrl(url: string): (p: UrlParts)
    ensures '/' !in p.netloc && '?' !in p.netloc && '#' !in p.netloc
    ensures '?' !in p.path && '#' !in p.path && '#' !in p.query
  {
    var (scheme, rest) := SchemeSplit(url);
    var (netloc, rest2) := NetlocSplit(rest);
    var (rest3, fragment) := CutOrAll(rest2, '#');
    var (path, query) := CutOrAll(rest3, '?');
    assert forall c | c in path :: c in rest3;
    assert forall c | c in query :: c in rest3;
    UrlParts(scheme, netloc, path, query, fragment)
  }

  /**
   * A URL made of a scheme, "//", a network location, a path that is empty
   * or starts with '/', and an optional query, without a fragment, splits
   * back into exactly those parts.
   */
  lemma SplitOfJoined(url: string, scheme: string, netloc: string, path: string, query: string, hasQuery: bool)
    requires url == scheme + "://" + netloc + path + (if hasQuery then "?" + query else "")
    requires |scheme| > 0 && IsAsciiLetter(scheme[0]) && forall k | 0 <= k < |scheme| :: IsSchemeChar(scheme[k]) && !IsUpper(scheme[k])
    requires '/' !in netloc && '?' !in netloc && '#' !in netloc
    requires (path == [] || path[0] == '/') && '?' !in path && '#' !in path && '#' !in query
    ensures SplitUrl(url) == UrlParts(scheme, netloc, path, if hasQuery then query else "", "")
  {
    var tail := path + (if hasQuery then "?" + query else "");
    var rest := "//" + netloc + tail;
    assert url == scheme + ":" + rest;
    SchemeOfJoined(scheme, rest);
    assert tail == [] || tail[0] in {'/', '?', '#'} by {
      if path == [] && hasQuery {
        assert tail[0] == '?';
      }
    }
    NetlocOfJoined(netloc, tail);
    assert '#' !in tail;
    assert CutOrAll(tail, '#') == (tail, "");
    var q := if hasQuery then query else "";
    QueryOfJoined(path, query, hasQuery);
    assert SplitUrl(url) == UrlParts(scheme, netloc, path, q, "");
  }

  /** A lower-case scheme followed by ':' is split off as it is. */
  lemma SchemeOfJoined(scheme: string, rest: string)
    requires |scheme| > 0 && IsAsciiLetter(scheme[0]) && forall k | 0 <= k < |scheme| :: IsSchemeChar(scheme[k]) && !IsUpper(scheme[k])
    ensures SchemeSplit(scheme + ":" + rest) == (scheme, rest)
  {
    var url := scheme + ":" + rest;
    assert ':' !in scheme by {
      forall k | 0 <= k < |scheme| ensures scheme[k] != ':' {
        assert IsSchemeChar(scheme[k]);
      }
    }
    assert url[..|scheme|] == scheme;
    IndexOfAt(url, ':', |scheme|);
    assert url[|scheme| + 1..] == rest;
    LowerOfLower(scheme);
  }

  /** "//", a network location and a tail starting with '/', '?' or '#' (or empty) split back into the two. */
  lemma NetlocOfJoined(netloc: string, tail: string)
    requires '/' !in netloc && '?' !in netloc && '#' !in netloc
    requires tail == [] || tail[0] in {'/', '?', '#'}
    ensures NetlocSplit("//" + netloc + tail) == (netloc, tail)
  {
    var rest := "//" + netloc + tail;
    assert rest[2..] == netloc + tail;
    IndexOfAnyAt(netloc + tail, {'/', '?', '#'}, |netloc|);
    assert rest[2..2 + |netloc|] == netloc;
    assert rest[2 + |netloc|..] == tail;
  }

  /** A path without '?', then optionally '?' and a query, cuts back into the two. */
  lemma QueryOfJoined(path: string, query: string, hasQuery: bool)
    requires '?' !in path
    ensures CutOrAll(path + (if hasQuery then "?" + query else ""), '?') == (path, if hasQuery then query else "")
  {
    if hasQuery {
      var s := path + ['?'] + query;
      assert path + ("?" + query) == s;
      assert s[|path|] == '?';
      CutAtJoined(path, '?', query);
    } else {
      assert path + "" == path;
    }
  }

  /** Cutting at the first `c` gives back the two sides when the left one has no `c`. */
  lemma CutAtJoined(a: string, c: char, b: string)
    requires c !in a
    ensures CutAt(a + [c] + b, c) == (a, b)
  {
    var s := a + [c] + b;
    assert s[..|a|] == a;
    IndexOfAt(s, c, |a|);
    assert s[|a| + 1..] == b;
  }

  /** Lowering text with no capitals changes nothing. */
  lemma LowerOfLower(s: string)
    requires forall k | 0 <= k < |s| :: !IsUpper(s[k])
    ensures Lower(s) == s
  {
  }

  /** The first character from `cs` is at `k` when `s[k]` is one and none comes before it. */
  lemma {:induction false} IndexOfAnyAt(s: string, cs: set<char>, k: nat)
    requires k <= |s| && (forall j | 0 <= j < k :: s[j] !in cs) && (k < |s| ==> s[k] in cs)
    ensures IndexOfAny(s, cs) == k
    decreases k
  {
    if k > 0 {
      IndexOfAnyAt(s[1..], cs, k - 1);
    }
  }

  // ---------------------------------------------------------------------------
  // urlparse: the parameters of the last path segment
  // ---------------------------------------------------------------------------

  /** The schemes whose paths `urlparse` cuts parameters from (`uses_params`); "" is a URL without a scheme. */
  const UsesParams: set<string> :=
    {"", "ftp", "hdl", "prospero", "http", "imap", "https", "shttp", "rtsp", "rtsps", "rtspu", "sip", "sips", "mms", "sftp", "tel"}

  /** The last segment of `path` (the text after its last '/', or all of it) has no ';'. */
  predicate ParamFree(path: string)
    decreases |path|
  {
    path == [] || path[|path| - 1] == '/' || (path[|path| - 1] != ';' && ParamFree(path[..|path| - 1]))
  }

  lemma {:induction false} ParamFreeIff(path: string)
    ensures ParamFree(path) <==> ';' !in AfterLast(path, '/')
    decreases |path|
  {
    if path != [] && path[|path| - 1] != '/' {
      ParamFreeIff(path[..|path| - 1]);
    }
  }

  /**
   * `_splitparams(path)[0]`: the path up to the first ';' of its last
   * segment. What is left has no ';' in its last segment, and a path with
   * none there is left as it is.
   */
  function WithoutParams(path: string): (r: string)
    ensures |r| <= |path| && path[..|r|] == r
    ensures ParamFree(r)
    ensures ParamFree(path) ==> r == path
    ensures path != [] && path[0] == '/' ==> r != [] && r[0] == '/'
  {
    var tail := AfterLast(path, '/');
    var head := path[..|path| - |tail|];
    ParamFreeIff(path);
    if ';' in tail then
      var r := head + tail[..IndexOf(tail, ';')];
      CutLastSegment(path, head, tail, IndexOf(tail, ';'));
      ParamFreeIff(r);
      r
    else path
  }

  /** Cutting the last segment short leaves the cut-short segment as the new last segment. */
  lemma CutLastSegment(path: string, head: string, tail: string, k: nat)
    requires tail == AfterLast(path, '/') && head == path[..|path| - |tail|] && k < |tail| && ';' !in tail[..k]
    ensures |head + tail[..k]| <= |path| && path[..|head + tail[..k]|] == head + tail[..k]
    ensures AfterLast(head + tail[..k], '/') == tail[..k]
  {
    var seg := tail[..k];
    var r := head + seg;
    assert path == head + tail;
    assert path[..|r|] == r by {
      assert tail == seg + tail[k..];
      assert path == r + tail[k..];
    }
    assert '/' !in seg by {
      assert forall c | c in seg :: c in tail;
    }
    assert r[|r| - |seg|..] == seg;
    if |head| > 0 {
      assert r[|head| - 1] == head[|head| - 1] == path[|path| - |tail| - 1] == '/';
    }
    AfterLastUnique(r, '/', seg);
  }

  /** `urlparse(url)`: `urlsplit`, and for the schemes that use them, the parameters cut off the path. */
  function ParseUrl(url: string): UrlParts {
    var q := SplitUrl(url);
    q.(path := if q.scheme in UsesParams then WithoutParams(q.path) else q.path)
  }

  /**
   * `urlparse` differs from `urlsplit` only in the path, which it may cut
   * short: a path starting with '/' still does, a path whose last segment
   * has no ';' is kept, and for the web schemes no ';' is left in the last
   * segment.
   */
  lemma ParseUrlFacts(url: string)
    ensures var p := ParseUrl(url); var q := SplitUrl(url);
      && p.scheme == q.scheme && p.netloc == q.netloc && p.query == q.query && p.fragment == q.fragment
      && |p.path| <= |q.path| && q.path[..|p.path|] == p.path
      && '?' !in p.path && '#' !in p.path
      && (q.path != [] && q.path[0] == '/' ==> p.path != [] && p.path[0] == '/')
      && (p.scheme in UsesParams ==> ParamFree(p.path))
      && (ParamFree(q.path) ==> p.path == q.path)
  {
    var q := SplitUrl(url);
    if q.scheme in UsesParams {
      var r := WithoutParams(q.path);
      assert forall c | c in r :: c in q.path;
    }
  }

  /**
   * A last segment `name;params` (with no '/' in the parameters) loses its
   * parameters: the path is the directory part and the name.
   */
  lemma ParamsCutOff(dir: string, name: string, params: string)
    requires '/' !in name && ';' !in name && '/' !in params
    ensures WithoutParams(dir + "/" + name + ";" + params) == dir + "/" + name
  {
    var path := dir + "/" + name + ";" + params;
    var tail := name + ";" + params;
    LastSegmentWithParams(dir, name, params);
    WithoutParamsCuts(path);
    assert path[..|path| - |tail|] + tail[..IndexOf(tail, ';')] == dir + "/" + name;
  }

  /** The last segment of `dir/name;params`, and where its first ';' is. */
  lemma LastSegmentWithParams(dir: string, name: string, params: string)
    requires '/' !in name && ';' !in name && '/' !in params
    ensures var path := dir + "/" + name + ";" + params;
      var tail := name + ";" + params;
      && AfterLast(path, '/') == tail && path[..|path| - |tail|] == dir + "/"
      && ';' in tail && IndexOf(tail, ';') == |name| && tail[..|name|] == name
  {
    var path := dir + "/" + name + ";" + params;
    var tail := name + ";" + params;
    assert path[|dir| + 1..] == tail && path[|dir|] == '/';
    assert '/' !in tail by {
      assert tail == name + [';'] + params;
    }
    AfterLastUnique(path, '/', tail);
    assert path[..|path| - |tail|] == dir + "/";
    assert tail[|name|] == ';' && tail[..|name|] == name;
    IndexOfAt(tail, ';', |name|);
  }

  /** With a ';' in the last segment, the path is cut at the first one there. */
  lemma WithoutParamsCuts(path: string)
    requires ';' in AfterLast(path, '/')
    ensures var tail := AfterLast(path, '/');
      WithoutParams(path) == path[..|path| - |tail|] + tail[..IndexOf(tail, ';')]
  {
  }

}
