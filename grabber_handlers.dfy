/**
 * The three grabber handlers: a direct file becomes one file item, an HTML
 * page becomes one item per discovered link, and an HLS stream becomes one
 * item per variant. What the network answers (the size probes, the page
 * discovery, the playlist analysis) is given as input; a failed step is
 * `None` or `HeadFailed`.
 */
module GrabberHandlers {
  import opened Common
  import opened Strings
  import opened HttpTransfer
  import opened GrabberTypes
  import opened DiscoveryTypes
  import opened HlsTypes
  import opened HlsEngine

  /** The handlers of the grabber, in the order the engine tries them. */
  datatype Handler = DirectFileHandler | PageHandler | HlsHandler

  /** `handler.supports(url_type)`: each handler takes exactly one kind of URL. */
  predicate Supports(h: Handler, t: UrlType) {
    match h
    case DirectFileHandler => t == DirectFile
    case PageHandler => t == HtmlPage
    case HlsHandler => t == StreamHint
  }

  /** `url.split('/')[-1]`: the text after the last '/', or the whole URL when it has none. */
  function FilenameOf(url: string): string
  {
    Last(Split(url, '/'))
  }

  // ---------------------------------------------------------------------------
  // DirectFileHandler
  // ---------------------------------------------------------------------------

  /** The size a Content-Length header gives: none when it is missing or empty, otherwise `int(value)`, which may fail. */
  function LengthOf(h: Headers): Option<Option<int>> {
    var text := HeaderOr(h, "content-length", "");
    if text == "" then None else Some(ParseInt(text))
  }

  /** The GET attempt of `_get_file_size`: its Content-Length when the request succeeds and the header parses. */
  function SizeFromGet(get: Head): (size: Option<int>)
    ensures size.Some? ==> get.HeadOk? && LengthOf(get.headers) == Some(size)
  {
    match get
    case HeadFailed => None
    case HeadOk(h) =>
      match LengthOf(h)
      case None => None
      case Some(parsed) => parsed
  }

  /**
   * `_get_file_size(url)`: the Content-Length of a successful HEAD; when the
   * HEAD fails or its Content-Length is not an integer, that of a streamed
   * GET instead. A successful HEAD without the header gives no size, and the
   * GET is not tried.
   */
  function FileSize(head: Head, get: Head): Option<int>
  {
    match head
    case HeadFailed => SizeFromGet(get)
    case HeadOk(h) =>
      match LengthOf(h)
      case None => None
      case Some(parsed) => if parsed.Some? then parsed else SizeFromGet(get)
  }

  /** `DirectFileHandler.handle(url)`, with the answers of the two size probes. */
  function DirectHandle(url: string, head: Head, get: Head): (r: GrabberResult)
    ensures |r.items| == 1 && r.items[0].url == url && r.items[0].itemType == FileItem
    ensures r.items[0].fileSize == FileSize(head, get) && r.items[0].filename == Some(FilenameOf(url))
    ensures r.sourceUrl == url && r.urlType == DirectFile && r.totalFound == 1 && r.totalFiltered == 1
  {
    var item := GrabberItem(url, FileItem, FileSize(head, get), None, None, Some(FilenameOf(url)));
    GrabberResult([item], url, DirectFile, None, 1, 1)
  }

  /** A HEAD whose Content-Length parses decides the size; the GET is not looked at. */
  lemma HeadLengthDecides(head: Head, get: Head, n: int)
    requires head.HeadOk? && LengthOf(head.headers) == Some(Some(n))
    ensures FileSize(head, get) == Some(n)
  {
  }

  /** A HEAD that succeeds without a Content-Length gives no size, whatever a GET would have said. */
  lemma HeadWithoutLengthGivesNone(head: Head, get: Head)
    requires head.HeadOk? && "content-length" !in head.headers
    ensures FileSize(head, get) == None
  {
  }

  /** A failed HEAD, or one whose Content-Length is not an integer, leaves the size to the GET. */
  lemma GetDecidesOtherwise(head: Head, get: Head)
    requires head.HeadFailed? || LengthOf(head.headers) == Some(None)
    ensures FileSize(head, get) == SizeFromGet(get)
  {
  }

  /** A known size always comes from a Content-Length that parses, of the HEAD or of the GET. */
  lemma SizeHasSource(head: Head, get: Head)
    requires FileSize(head, get).Some?
    ensures (head.HeadOk? && LengthOf(head.headers) == Some(FileSize(head, get)))
            || (get.HeadOk? && LengthOf(get.headers) == Some(FileSize(head, get)))
  {
  }

  // ---------------------------------------------------------------------------
  // PageHandler
  // ---------------------------------------------------------------------------

  /** `_map_link_type_to_item_type`: a stream hint is a stream, media is media, anything else a file. */
  function ItemTypeOf(t: LinkType): (it: ItemType)
    ensures it == StreamItem <==> t == StreamHintLink
    ensures it == MediaItem <==> t == MediaLink
    ensures it == FileItem <==> t != StreamHintLink && t != MediaLink
  {
    match t
    case StreamHintLink => StreamItem
    case MediaLink => MediaItem
    case FileLink => FileItem
    case _ => FileItem
  }

  /** `_create_grabber_item_from_discovered_link(link)`. */
  function ItemOfLink(link: DiscoveredLink): GrabberItem
  {
    GrabberItem(link.url, ItemTypeOf(link.linkType), link.fileSize, link.title, link.mimeType, Some(FilenameOf(link.url)))
  }

  /**
   * `PageHandler.handle(url)`, with what page discovery returned (`None`
   * when it raised): one item per discovered link, in their order, with the
   * counts and the title of the discovery; an empty page result on failure.
   */
  method PageHandle(url: string, discovery: Option<DiscoveryResult>) returns (r: GrabberResult)
    ensures r.sourceUrl == url && r.urlType == HtmlPage
    ensures discovery.None? ==> r == EmptyResult(url, HtmlPage)
    ensures discovery.Some? ==>
              && |r.items| == |discovery.value.links|
              && (forall i | 0 <= i < |r.items| :: r.items[i] == ItemOfLink(discovery.value.links[i]))
              && r.pageTitle == discovery.value.pageTitle
              && r.totalFound == discovery.value.totalFound
              && r.totalFiltered == discovery.value.totalFiltered
  {
    if discovery.None? {
      return EmptyResult(url, HtmlPage);
    }
    var d := discovery.value;
    var items := ItemsOfLinks(d.links);
    r := GrabberResult(items, url, HtmlPage, d.pageTitle, d.totalFound, d.totalFiltered);
  }

  /** The loop of `PageHandler.handle`: one item per link, in the order of the links. */
  method ItemsOfLinks(links: seq<DiscoveredLink>) returns (items: seq<GrabberItem>)
    ensures |items| == |links|
    ensures forall i | 0 <= i < |links| :: items[i] == ItemOfLink(links[i])
  {
    items := [];
    for i := 0 to |links|
      invariant |items| == i
      invariant forall j | 0 <= j < i :: items[j] == ItemOfLink(links[j])
    {
      var item := ItemOfLink(links[i]);
      items := items + [item];
    }
  }

  // ---------------------------------------------------------------------------
  // HlsHandler
  // ---------------------------------------------------------------------------

  /**
   * `HlsHandler.handle(url)`, with what the stream analysis returned (`None`
   * when it raised): the converted analysis, or an empty stream result.
   * Either way the result is a stream hint.
   */
  method HlsHandle(url: string, analysis: Option<HlsResult>) returns (r: GrabberResult)
    ensures r.urlType == StreamHint
    ensures analysis.None? ==> r == EmptyResult(url, StreamHint)
    ensures analysis.Some? ==>
              && |r.items| == |analysis.value.variants|
              && (forall i | 0 <= i < |r.items| :: r.items[i] == ItemOf(analysis.value.variants[i], analysis.value.streamType))
              && r.sourceUrl == analysis.value.masterUrl && r.pageTitle == analysis.value.title
  {
    if analysis.None? {
      return EmptyResult(url, StreamHint);
    }
    r := ConvertToGrabberResult(analysis.value);
  }

  // ---------------------------------------------------------------------------
  // Properties
  // ---------------------------------------------------------------------------

  /** Every kind of URL but UNKNOWN has exactly one handler, and UNKNOWN has none. */
  lemma OneHandlerPerType(t: UrlType)
    ensures t == Unknown <==> forall h: Handler :: !Supports(h, t)
    ensures forall h1: Handler, h2: Handler | Supports(h1, t) && Supports(h2, t) :: h1 == h2
  {
    if t != Unknown {
      var h := match t case DirectFile => DirectFileHandler case HtmlPage => PageHandler case _ => HlsHandler;
      assert Supports(h, t);
    }
  }

  /** The filename of an item is the last segment of its URL: the URL ends with it, and a '/' comes just before it unless it is the whole URL. */
  lemma FilenameIsLastSegment(url: string)
    ensures FilenameOf(url) == AfterLast(url, '/')
    ensures var name := FilenameOf(url);
            '/' !in name && EndsWith(url, name) && (|name| < |url| ==> url[|url| - |name| - 1] == '/')
  {
    LastPieceIsAfterLast(url, '/');
  }

  /** The last piece of `s.split(c)` is the text after the last `c`. */
  lemma {:induction false} LastPieceIsAfterLast(s: string, c: char)
    ensures Last(Split(s, c)) == AfterLast(s, c)
    decreases |s|
  {
    if c in s {
      var i := IndexOf(s, c);
      LastPieceIsAfterLast(s[i + 1..], c);
      SplitLastPiece(s, c, i);
      AfterLastFrom(s, c, i);
    } else {
      AfterLastWithout(s, c);
    }
  }

  /** The last element of a non-empty sequence. */
  function Last<T>(xs: seq<T>): T
    requires |xs| > 0
  {
    xs[|xs| - 1]
  }

  /** After the first `c`, the last piece of the split is the last piece of the split of the rest. */
  lemma SplitLastPiece(s: string, c: char, i: nat)
    requires c in s && i == IndexOf(s, c)
    ensures Last(Split(s, c)) == Last(Split(s[i + 1..], c))
  {
    var later := Split(s[i + 1..], c);
    assert Split(s, c) == [s[..i]] + later;
    LastOfCons(s[..i], later);
  }

  /** Putting an element in front does not change the last element. */
  lemma LastOfCons<T>(x: T, xs: seq<T>)
    requires |xs| > 0
    ensures Last([x] + xs) == Last(xs)
  {
  }

  /** Without a `c`, everything is after the last `c`. */
  lemma AfterLastWithout(s: string, c: char)
    requires c !in s
    ensures AfterLast(s, c) == s
  {
    assert s[|s| - |s|..] == s;
    AfterLastUnique(s, c, s);
  }

  /** What follows the last `c` of `s` lies after any `c` of `s`. */
  lemma AfterLastFrom(s: string, c: char, i: nat)
    requires i < |s| && s[i] == c
    ensures AfterLast(s, c) == AfterLast(s[i + 1..], c)
  {
    var tail := s[i + 1..];
    var r := AfterLast(tail, c);
    assert s[|s| - |r|..] == tail[|tail| - |r|..];
    if |r| < |tail| {
      assert s[|s| - |r| - 1] == tail[|tail| - |r| - 1];
    }
    AfterLastUnique(s, c, r);
  }
}
