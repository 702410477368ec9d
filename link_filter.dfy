/**
 * `LinkFilter`: drops links that cannot be downloads (scripts, mail and
 * phone links, in-page anchors), links to ad and tracker hosts, links whose
 * element looks like an ad, tiny files and web pages; normalizes URLs and
 * keeps each URL once. The filter's only state, the extensions a user
 * allows, is the `allowed` parameter.
 */
module LinkFiltering {
  import opened Common
  import opened Strings
  import opened Urls
  import opened DiscoveryTypes

  /** URL prefixes that never lead to a download. */
  const BlockedPrefixes: seq<string> := ["javascript:", "mailto:", "#", "tel:"]

  /** `AD_DOMAINS`, matched as substrings of the lowered network location. */
  const AdDomains: set<string> := {
    "doubleclick.net", "googlesyndication.com", "googleadservices.com",
    "facebook.com/tr", "google-analytics.com", "googletagmanager.com",
    "ads.", "tracker.", "metrics.", "stat."}

  /** `AD_PATTERNS`: plain words, so a regular-expression search is a substring test. */
  const AdPatterns: seq<string> := ["ad", "promo", "banner", "sponsor", "advertisement", "popup", "widget", "lightbox", "modal", "overlay"]

  /** `MIN_FILE_SIZE`: 5 KiB. */
  const MinFileSize: int := 5 * 1024

  /** `NON_DOWNLOAD_EXTENSIONS`. */
  const NonDownloadExts: set<string> := {".html", ".htm", ".php", ".asp", ".jsp", ".cgi", ".aspx"}

  /** The value of an HTML attribute: text, or a list of words (as `class` is parsed). */
  datatype AttrValue = Text(text: string) | Words(words: seq<string>)

  /** One link found on a page: its URL as written, its kind, and its element's attributes (empty when not given). */
  datatype LinkItem = LinkItem(url: string, linkType: LinkType, attrs: map<string, AttrValue>)

  /** The attribute as text: a list of words is joined with single spaces. */
  function AttrText(v: AttrValue): string {
    match v
    case Text(t) => t
    case Words(ws) => Join(ws, " ")
  }

  /** An empty URL, or one starting with "javascript:", "mailto:", "#" or "tel:". */
  predicate BadUrl(url: string) {
    url == "" || exists k | 0 <= k < |BlockedPrefixes| :: StartsWith(url, BlockedPrefixes[k])
  }

  /** The lowered network location contains an ad or tracker domain. */
  predicate AdHost(url: string) {
    exists d | d in AdDomains :: Contains(Lower(ParseUrl(url).netloc), d)
  }

  /** A `class` or `id` attribute whose lowered text contains an ad pattern. */
  predicate AdElement(attrs: map<string, AttrValue>) {
    exists name | name in attrs && (name == "class" || name == "id") ::
      exists k | 0 <= k < |AdPatterns| :: Contains(Lower(AttrText(attrs[name])), AdPatterns[k])
  }

  /** A known size below 5 KiB, on anything but a stream hint. */
  predicate TooSmall(link: DiscoveredLink) {
    link.fileSize.Some? && link.fileSize.value < MinFileSize && link.linkType != StreamHintLink
  }

  /** The lowered path ends in a web-page extension that the user has not allowed. */
  predicate WebPagePath(url: string, allowed: set<string>) {
    exists e | e in NonDownloadExts :: EndsWith(Lower(ParseUrl(url).path), e) && e !in allowed
  }

  /** `is_valid_link(link, element_attrs)`: none of the reasons to drop the link applies. */
  predicate IsValidLink(link: DiscoveredLink, attrs: map<string, AttrValue>, allowed: set<string>) {
    !BadUrl(link.url) && !AdHost(link.url) && !AdElement(attrs) && !TooSmall(link) && !WebPagePath(link.url, allowed)
  }

  /**
   * The library calls `normalize_url` relies on: `urljoin(base, url)`, and
   * the rebuilding of a URL without its tracking query parameters
   * (`parse_qs`, `urlencode`, `urlunparse`).
   */
  datatype UrlOps = UrlOps(join: (string, string) -> string, dropTracking: string -> string)

  /** Prefixes of URLs that `normalize_url` takes as absolute. */
  const AbsolutePrefixes: seq<string> := ["http://", "https://", "//", "mailto:", "tel:", "javascript:"]

  /**
   * `normalize_url(url, base_url)`: an empty URL is kept; any other is
   * joined to the base unless it starts with one of the absolute prefixes,
   * cut at its first '#', and rebuilt without tracking parameters.
   */
  function NormalizeUrl(url: string, base: string, ops: UrlOps): (r: string)
    ensures url == "" ==> r == ""
  {
    if url == "" then url
    else
      var absolute := if exists k | 0 <= k < |AbsolutePrefixes| :: StartsWith(url, AbsolutePrefixes[k]) then url else ops.join(base, url);
      ops.dropTracking(CutOrAll(absolute, '#').0)
  }

  /** The normalized URLs of the items, in order. */
  function NormalizedUrls(items: seq<LinkItem>, base: string, ops: UrlOps): (urls: seq<string>)
    ensures |urls| == |items|
  {
    seq(|items|, k requires 0 <= k < |items| => NormalizeUrl(items[k].url, base, ops))
  }

  /** The link `filter_links` builds for an item: the normalized URL and the item's kind, nothing else known. */
  function LinkOf(url: string, item: LinkItem): DiscoveredLink {
    DiscoveredLink(url, item.linkType, None, None, None)
  }

  /** Item `k` is kept: its URL was not seen earlier, and its link is valid. */
  predicate KeptAt(urls: seq<string>, items: seq<LinkItem>, allowed: set<string>, k: nat)
    requires |urls| == |items| && k < |items|
  {
    urls[k] !in urls[..k] && IsValidLink(LinkOf(urls[k], items[k]), items[k].attrs, allowed)
  }

  /** The links kept among the first `i` items, in order. */
  function Kept(urls: seq<string>, items: seq<LinkItem>, allowed: set<string>, i: nat): seq<DiscoveredLink>
    requires |urls| == |items| && i <= |items|
  {
    if i == 0 then []
    else Kept(urls, items, allowed, i - 1) + (if KeptAt(urls, items, allowed, i - 1) then [LinkOf(urls[i - 1], items[i - 1])] else [])
  }

  /**
   * `filter_links(links, base_url)`: each item's URL is normalized; a URL
   * already seen is skipped (it is marked seen before validation, so a URL
   * whose first link is invalid is never kept); the others are kept when
   * their link is valid.
   */
  method FilterLinks(items: seq<LinkItem>, base: string, ops: UrlOps, allowed: set<string>) returns (valid: seq<DiscoveredLink>)
    ensures valid == Kept(NormalizedUrls(items, base, ops), items, allowed, |items|)
  {
    valid := [];
    var seen: set<string> := {};
    for i := 0 to |items|
      invariant Scanned(items, base, ops, allowed, i, seen, valid)
    {
      seen, valid := Consider(items, i, base, ops, allowed, seen, valid);
    }
  }

  /** After `i` turns of the loop: the URLs seen so far, and the links kept so far. */
  predicate Scanned(items: seq<LinkItem>, base: string, ops: UrlOps, allowed: set<string>, i: nat,
                    seen: set<string>, valid: seq<DiscoveredLink>)
  {
    i <= |items| && seen == SeenUrls(NormalizedUrls(items, base, ops), i) && valid == Kept(NormalizedUrls(items, base, ops), items, allowed, i)
  }

  /** One turn of the loop of `filter_links`, for item `i`: a URL seen before is skipped, a new one is marked seen and its link kept when valid. */
  method Consider(items: seq<LinkItem>, i: nat, base: string, ops: UrlOps, allowed: set<string>,
                  seen: set<string>, valid: seq<DiscoveredLink>)
    returns (seen': set<string>, valid': seq<DiscoveredLink>)
    requires i < |items| && Scanned(items, base, ops, allowed, i, seen, valid)
    ensures Scanned(items, base, ops, allowed, i + 1, seen', valid')
  {
    ghost var urls := NormalizedUrls(items, base, ops);
    var item := items[i];
    var url := NormalizeUrl(item.url, base, ops);
    SeenUrlsMembership(urls, i, url);
    seen', valid' := seen, valid;
    if url in seen {
      return;
    }
    seen' := seen + {url};
    var link := DiscoveredLink(url, item.linkType, None, None, None);
    if IsValidLink(link, item.attrs, allowed) {
      valid' := valid + [link];
    }
  }

  /** The set of the first `i` URLs, as the loop accumulates it. */
  function SeenUrls(urls: seq<string>, i: nat): set<string>
    requires i <= |urls|
  {
    if i == 0 then {} else SeenUrls(urls, i - 1) + {urls[i - 1]}
  }

  /** A URL is in the accumulated set exactly when it is among the first `i`. */
  lemma {:induction false} SeenUrlsMembership(urls: seq<string>, i: nat, u: string)
    requires i <= |urls|
    ensures u in SeenUrls(urls, i) <==> u in urls[..i]
    decreases i
  {
    if i > 0 {
      SeenUrlsMembership(urls, i - 1, u);
      PrefixStep(urls, i - 1);
    }
  }

  /** The first `i + 1` elements are the first `i` and then element `i`. */
  lemma PrefixStep<T>(s: seq<T>, i: nat)
    requires i < |s|
    ensures s[..i + 1] == s[..i] + [s[i]]
  {
  }

  // ---------------------------------------------------------------------------
  // Properties
  // ---------------------------------------------------------------------------

  /** The kept link at position `m` comes from a kept item. */
  lemma {:induction false} KeptFrom(urls: seq<string>, items: seq<LinkItem>, allowed: set<string>, i: nat, m: nat)
    requires |urls| == |items| && i <= |items| && m < |Kept(urls, items, allowed, i)|
    ensures exists k | 0 <= k < i :: KeptAt(urls, items, allowed, k) && Kept(urls, items, allowed, i)[m] == LinkOf(urls[k], items[k])
    decreases i
  {
    var prev := Kept(urls, items, allowed, i - 1);
    var kept := Kept(urls, items, allowed, i);
    if m < |prev| {
      assert kept[m] == prev[m];
      KeptFrom(urls, items, allowed, i - 1, m);
      var k :| 0 <= k < i - 1 && KeptAt(urls, items, allowed, k) && prev[m] == LinkOf(urls[k], items[k]);
      assert KeptAt(urls, items, allowed, k) && kept[m] == LinkOf(urls[k], items[k]);
    } else {
      assert KeptAt(urls, items, allowed, i - 1) && kept[m] == LinkOf(urls[i - 1], items[i - 1]);
    }
  }

  /** A kept item's link is among the kept links of every longer prefix. */
  lemma {:induction false} KeptHas(urls: seq<string>, items: seq<LinkItem>, allowed: set<string>, i: nat, k: nat)
    requires |urls| == |items| && k < i <= |items| && KeptAt(urls, items, allowed, k)
    ensures LinkOf(urls[k], items[k]) in Kept(urls, items, allowed, i)
    decreases i
  {
    var prev := Kept(urls, items, allowed, i - 1);
    if k < i - 1 {
      KeptHas(urls, items, allowed, i - 1, k);
      assert LinkOf(urls[k], items[k]) in prev;
    }
  }

  /**
   * A URL is kept exactly when its first occurrence is a valid link: a
   * later valid occurrence does not bring back a URL whose first link was
   * invalid.
   */
  lemma KeptUrls(urls: seq<string>, items: seq<LinkItem>, allowed: set<string>, u: string)
    requires |urls| == |items|
    ensures (exists m | 0 <= m < |Kept(urls, items, allowed, |items|)| :: Kept(urls, items, allowed, |items|)[m].url == u)
            <==> (exists k | 0 <= k < |items| :: urls[k] == u && KeptAt(urls, items, allowed, k))
  {
    var kept := Kept(urls, items, allowed, |items|);
    if m :| 0 <= m < |kept| && kept[m].url == u {
      KeptFrom(urls, items, allowed, |items|, m);
    }
    if k :| 0 <= k < |items| && urls[k] == u && KeptAt(urls, items, allowed, k) {
      KeptHas(urls, items, allowed, |items|, k);
      var m :| 0 <= m < |kept| && kept[m] == LinkOf(urls[k], items[k]);
      assert kept[m].url == u;
    }
  }

  /** Every kept URL is one of the normalized URLs, and no two kept links share a URL. */
  lemma {:induction false} KeptDistinct(urls: seq<string>, items: seq<LinkItem>, allowed: set<string>, i: nat)
    requires |urls| == |items| && i <= |items|
    ensures forall m | 0 <= m < |Kept(urls, items, allowed, i)| :: Kept(urls, items, allowed, i)[m].url in urls[..i]
    ensures forall m, n | 0 <= m < n < |Kept(urls, items, allowed, i)| ::
              Kept(urls, items, allowed, i)[m].url != Kept(urls, items, allowed, i)[n].url
    decreases i
  {
    if i > 0 {
      KeptDistinct(urls, items, allowed, i - 1);
      var prev := Kept(urls, items, allowed, i - 1);
      var kept := Kept(urls, items, allowed, i);
      assert urls[..i] == urls[..i - 1] + [urls[i - 1]];
      if KeptAt(urls, items, allowed, i - 1) {
        var last := LinkOf(urls[i - 1], items[i - 1]);
        assert kept == prev + [last];
        forall m | 0 <= m < |kept| ensures kept[m].url in urls[..i] {
          if m < |prev| {
            assert kept[m] == prev[m];
          }
        }
        forall m, n | 0 <= m < n < |kept| ensures kept[m].url != kept[n].url {
          assert kept[m] == prev[m];
          if n == |prev| {
            assert kept[n] == last;
          } else {
            assert kept[n] == prev[n];
          }
        }
      } else {
        assert kept == prev;
      }
    }
  }

  /** The "ad" pattern is a plain substring test, so an element whose class mentions "download" is taken for an ad. */
  lemma DownloadClassLooksLikeAd(link: DiscoveredLink, allowed: set<string>)
    ensures !IsValidLink(link, map["class" := Words(["btn", "download"])], allowed)
  {
    var attrs := map["class" := Words(["btn", "download"])];
    assert AdElement(attrs) by {
      assert AttrText(attrs["class"]) == "btn download";
      assert Lower("btn download") == "btn download";
      ContainsAt("btn download", "ad", 10);
      assert AdPatterns[0] == "ad";
    }
  }

  /** A text containing `sub` contains every character of `sub`. */
  lemma {:induction false} ContainsHasChars(s: string, sub: string, c: char)
    requires Contains(s, sub) && c in sub
    ensures c in s
    decreases |s|
  {
    if StartsWith(s, sub) {
      assert sub == s[..|sub|];
    } else {
      ContainsHasChars(s[1..], sub, c);
    }
  }

  /**
   * The "facebook.com/tr" entry never matches: it is compared with the
   * network location, which has no '/'.
   */
  lemma PathEntryNeverMatches(url: string)
    ensures !Contains(Lower(ParseUrl(url).netloc), "facebook.com/tr")
  {
    var host := Lower(ParseUrl(url).netloc);
    if Contains(host, "facebook.com/tr") {
      assert "facebook.com/tr"[12] == '/';
      ContainsHasChars(host, "facebook.com/tr", '/');
    }
  }

  /**
   * The size rule: a known size below 5 KiB drops the link unless it is a
   * stream hint; an allowed web-page extension is kept.
   */
  lemma SizeAndExtensionRules(link: DiscoveredLink, attrs: map<string, AttrValue>, allowed: set<string>)
    ensures link.fileSize.Some? && link.fileSize.value < 5120 && link.linkType != StreamHintLink ==> !IsValidLink(link, attrs, allowed)
    ensures NonDownloadExts <= allowed ==> !WebPagePath(link.url, allowed)
    ensures link.fileSize.None? ==> !TooSmall(link)
  {
  }
}
