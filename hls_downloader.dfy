/**
 * `HlsDownloader.download_variant`: the media playlist of a variant is
 * fetched and parsed, its segments are fetched one at a time into a
 * temporary directory, and once all of them are there they are merged, in
 * index order, into the output file. A pause before a segment, or any
 * failure, gives False and leaves the output file alone.
 *
 * The network is an input: `playlist` is the text of the playlist response
 * (`None` when the request raises or the status is an error) and
 * `fetch(uri)` the body of a segment response (`None` likewise). `paused(i)`
 * is the answer of the pause check made before segment `i`. `urljoin(base)`
 * is `urllib.parse.urljoin(base, .)`.
 */
module HlsDownload {
  import opened Common
  import opened Strings
  import opened FileWriting
  import opened HttpTransfer
  import opened HlsManifest

  // ---------------------------------------------------------------------------
  // The base URL the segment URIs are resolved against
  // ---------------------------------------------------------------------------

  /** `'/'.join(variant_uri.split('/')[:-1]) + '/'`. */
  function BaseUrl(uri: string): string {
    var parts := Split(uri, '/');
    Join(parts[..|parts| - 1], "/") + "/"
  }

  lemma {:induction false} JoinSnoc(parts: seq<string>, sep: string)
    requires |parts| >= 2
    ensures Join(parts, sep) == Join(parts[..|parts| - 1], sep) + sep + parts[|parts| - 1]
    decreases |parts|
  {
    if |parts| > 2 {
      JoinSnoc(parts[1..], sep);
      assert parts[1..][..|parts| - 2] == parts[..|parts| - 1][1..];
      assert parts[..|parts| - 1][0] == parts[0];
    }
  }

  /**
   * The base URL is the variant URI up to and including its last '/', so the
   * rest of the URI (the playlist's own file name) holds no '/'. A URI
   * without any '/' gets "/" as its base.
   */
  lemma BaseUrlIsDirectory(uri: string)
    ensures '/' in uri ==>
      var b := BaseUrl(uri);
      |b| <= |uri| && uri[..|b|] == b && b[|b| - 1] == '/' && '/' !in uri[|b|..]
    ensures '/' !in uri ==> BaseUrl(uri) == "/"
  {
    var parts := Split(uri, '/');
    if '/' in uri {
      var i := IndexOf(uri, '/');
      assert parts == [uri[..i]] + Split(uri[i + 1..], '/');
      JoinSplit(uri, '/');
      JoinSnoc(parts, "/");
      var b := BaseUrl(uri);
      var rest := parts[|parts| - 1];
      assert uri == b + rest;
      assert uri[..|b|] == b;
      assert uri[|b|..] == rest;
    } else {
      assert parts == [uri];
    }
  }

  // ---------------------------------------------------------------------------
  // The segment loop and the merge
  // ---------------------------------------------------------------------------

  /** The bytes a segment request returned (nothing when it failed). */
  function BodyOf(response: Option<Bytes>): Bytes {
    if response.Some? then response.value else []
  }

  /** The segment bodies for `uris`, in order. */
  function Bodies(uris: seq<string>, fetch: string -> Option<Bytes>): (r: seq<Bytes>)
    ensures |r| == |uris|
    decreases |uris|
  {
    if uris == [] then [] else Bodies(uris[..|uris| - 1], fetch) + [BodyOf(fetch(uris[|uris| - 1]))]
  }

  /**
   * The index of the segment before which the loop stops: the first one
   * whose pause check answers true or whose request fails, or the number of
   * segments when there is none.
   */
  function Stop(uris: seq<string>, fetch: string -> Option<Bytes>, paused: nat -> bool, i: nat): (k: nat)
    requires i <= |uris|
    ensures i <= k <= |uris|
    decreases |uris| - i
  {
    if i == |uris| || paused(i) || fetch(uris[i]).None? then i
    else Stop(uris, fetch, paused, i + 1)
  }

  /** The progress values reported: after each segment, the bytes of all segments so far. */
  function Totals(bodies: seq<Bytes>): (r: seq<int>)
    ensures |r| == |bodies|
    decreases |bodies|
  {
    if bodies == [] then [] else Totals(bodies[..|bodies| - 1]) + [|Concat(bodies)|]
  }

  /** The temporary directory after saving `bodies`: segment `i` under index `i`. */
  function Saved(bodies: seq<Bytes>): (temp: map<nat, Bytes>)
    ensures forall i: nat :: i in temp <==> i < |bodies|
  {
    map i: nat | i < |bodies| :: bodies[i]
  }

  /** `_merge_segments`: the saved segments `0 .. n-1` in index order, a missing one skipped. */
  function Merged(temp: map<nat, Bytes>, n: nat): Bytes
    decreases n
  {
    if n == 0 then [] else Merged(temp, n - 1) + (if n - 1 in temp then temp[n - 1] else [])
  }

  // ---------------------------------------------------------------------------
  // The whole download
  // ---------------------------------------------------------------------------

  /** The segment URIs of the media playlist, or the failure: the request, or `parse` raising. */
  function SegmentUris(uri: string, playlist: Option<string>, urljoin: string -> string -> string,
                       isFloat: string -> bool): Result<seq<string>>
  {
    match playlist
    case None => Err(ForeignError)
    case Some(text) =>
      match ParsePlaylist(text, urljoin(BaseUrl(uri)), isFloat)
      case Err(e) => Err(e)
      case Ok(p) => Ok(p.segments)
  }

  /** The return value, the progress callback values and the directory after `download_variant`. */
  datatype VariantRun = VariantRun(success: bool, progress: seq<int>, dir: Dir)

  function VariantDownload(uri: string, output: string, playlist: Option<string>,
                           urljoin: string -> string -> string, isFloat: string -> bool,
                           fetch: string -> Option<Bytes>, paused: nat -> bool, dir: Dir): VariantRun
  {
    match SegmentUris(uri, playlist, urljoin, isFloat)
    case Err(_) => VariantRun(false, [], dir)
    case Ok(uris) =>
      var k := Stop(uris, fetch, paused, 0);
      var got := Bodies(uris[..k], fetch);
      if k == |uris| then VariantRun(true, Totals(got), dir[output := Merged(Saved(got), k)])
      else VariantRun(false, Totals(got), dir)
  }

  /** `download_variant(variant_uri, output_path, pause_check, progress_callback)`. */
  method DownloadVariant(uri: string, output: string, playlist: Option<string>,
                         urljoin: string -> string -> string, isFloat: string -> bool,
                         fetch: string -> Option<Bytes>, paused: nat -> bool, dir: Dir)
    returns (success: bool, progress: seq<int>, d: Dir)
    ensures VariantRun(success, progress, d) == VariantDownload(uri, output, playlist, urljoin, isFloat, fetch, paused, dir)
  {
    if playlist.None? {
      return false, [], dir;
    }
    var base := BaseUrl(uri);
    var manifest := Parse(playlist.value, urljoin(base), isFloat);
    if manifest.Err? {
      return false, [], dir;
    }
    var uris := manifest.value.segments;
    var temp, stopped;
    temp, progress, stopped := FetchSegments(uris, fetch, paused);
    if stopped {
      return false, progress, dir;
    }
    d := MergeSegments(temp, |uris|, dir, output);
    success := true;
  }

  /**
   * The `for i, segment in enumerate(manifest.segments)` loop: the pause
   * check, the request, the temporary file and the running byte count.
   * `stopped` is the early `return False` (a pause, or the exception a
   * failed request raises).
   */
  method FetchSegments(uris: seq<string>, fetch: string -> Option<Bytes>, paused: nat -> bool)
    returns (temp: map<nat, Bytes>, progress: seq<int>, stopped: bool)
    ensures var k := Stop(uris, fetch, paused, 0);
      && stopped == (k < |uris|)
      && temp == Saved(Bodies(uris[..k], fetch))
      && progress == Totals(Bodies(uris[..k], fetch))
  {
    temp := map[];
    progress := [];
    var downloaded := 0;
    var i := 0;
    while i < |uris|
      invariant i <= |uris|
      invariant Stop(uris, fetch, paused, i) == Stop(uris, fetch, paused, 0)
      invariant temp == Saved(Bodies(uris[..i], fetch))
      invariant progress == Totals(Bodies(uris[..i], fetch))
      invariant downloaded == |Concat(Bodies(uris[..i], fetch))|
    {
      if paused(i) {
        return temp, progress, true;
      }
      var response := fetch(uris[i]);
      if response.None? {
        return temp, progress, true;
      }
      SavedStep(uris, fetch, i);
      temp := temp[i := response.value];
      downloaded := downloaded + |response.value|;
      progress := progress + [downloaded];
      i := i + 1;
    }
    assert uris[..i] == uris;
    stopped := false;
  }

  /** One more segment saved: the temporary directory, the byte count and the progress list grow by it. */
  lemma SavedStep(uris: seq<string>, fetch: string -> Option<Bytes>, i: nat)
    requires i < |uris|
    ensures var b := Bodies(uris[..i], fetch);
      var x := BodyOf(fetch(uris[i]));
      && Bodies(uris[..i + 1], fetch) == b + [x]
      && Saved(b + [x]) == Saved(b)[i := x]
      && Concat(b + [x]) == Concat(b) + x
      && Totals(b + [x]) == Totals(b) + [|Concat(b) + x|]
  {
    assert uris[..i + 1][..i] == uris[..i];
    var b := Bodies(uris[..i], fetch);
    var x := BodyOf(fetch(uris[i]));
    assert (b + [x])[..|b|] == b;
  }

  /** `_merge_segments(temp_dir, output_path, total_segments)`. */
  method MergeSegments(temp: map<nat, Bytes>, n: nat, dir: Dir, output: string) returns (d: Dir)
    ensures d == dir[output := Merged(temp, n)]
  {
    d := dir[output := []];
    for i := 0 to n
      invariant d == dir[output := Merged(temp, i)]
    {
      assert Merged(temp, i + 1) == Merged(temp, i) + (if i in temp then temp[i] else []);
      if i in temp {
        d := d[output := d[output] + temp[i]];
      }
      assert d[output] == Merged(temp, i + 1);
      assert d == dir[output := Merged(temp, i + 1)];
    }
  }

  // ---------------------------------------------------------------------------
  // Properties
  // ---------------------------------------------------------------------------

  /** The stop index is the first segment paused before or failed, with every earlier one fetched. */
  lemma {:induction false} StopFacts(uris: seq<string>, fetch: string -> Option<Bytes>, paused: nat -> bool, i: nat)
    requires i <= |uris|
    ensures var k := Stop(uris, fetch, paused, i);
      && (forall j | i <= j < k :: !paused(j) && fetch(uris[j]).Some?)
      && (k < |uris| ==> paused(k) || fetch(uris[k]).None?)
    decreases |uris| - i
  {
    if i < |uris| && !paused(i) && fetch(uris[i]).Some? {
      StopFacts(uris, fetch, paused, i + 1);
    }
  }

  /** The segment bodies, position by position. */
  lemma {:induction false} BodiesAt(uris: seq<string>, fetch: string -> Option<Bytes>, j: nat)
    requires j < |uris|
    ensures Bodies(uris, fetch)[j] == BodyOf(fetch(uris[j]))
    decreases |uris|
  {
    if j < |uris| - 1 {
      BodiesAt(uris[..|uris| - 1], fetch, j);
    }
  }

  /** Merging everything that was saved gives the segments back to back, in index order. */
  lemma {:induction false} MergedSaved(bodies: seq<Bytes>, m: nat)
    requires m <= |bodies|
    ensures Merged(Saved(bodies), m) == Concat(bodies[..m])
    decreases m
  {
    if m > 0 {
      MergedSaved(bodies, m - 1);
      assert bodies[..m][..m - 1] == bodies[..m - 1];
    }
  }

  /**
   * After segment `j` the progress callback receives the byte count of
   * segments `0 .. j` together, so the values never decrease.
   */
  lemma {:induction false} TotalsAt(bodies: seq<Bytes>, j: nat)
    requires j < |bodies|
    ensures Totals(bodies)[j] == |Concat(bodies[..j + 1])|
    decreases |bodies|
  {
    if j < |bodies| - 1 {
      var front := bodies[..|bodies| - 1];
      TotalsAt(front, j);
      assert front[..j + 1] == bodies[..j + 1];
    } else {
      assert bodies[..j + 1] == bodies;
    }
  }

  lemma {:induction false} ConcatGrows(bodies: seq<Bytes>, i: nat, j: nat)
    requires i <= j <= |bodies|
    ensures |Concat(bodies[..i])| <= |Concat(bodies[..j])|
    decreases j
  {
    if i < j {
      ConcatGrows(bodies, i, j - 1);
      assert bodies[..j][..j - 1] == bodies[..j - 1];
    }
  }

  lemma TotalsIncrease(bodies: seq<Bytes>, i: nat, j: nat)
    requires i <= j < |bodies|
    ensures Totals(bodies)[i] <= Totals(bodies)[j]
  {
    TotalsAt(bodies, i);
    TotalsAt(bodies, j);
    ConcatGrows(bodies, i + 1, j + 1);
  }

  /**
   * The download succeeds exactly when the playlist was fetched and parsed,
   * no pause check answered true and every segment request succeeded. Then
   * the output file holds every segment body, in playlist order, and nothing
   * else in the directory changes; otherwise the directory is untouched.
   */
  lemma DownloadOutcome(uri: string, output: string, playlist: Option<string>,
                        urljoin: string -> string -> string, isFloat: string -> bool,
                        fetch: string -> Option<Bytes>, paused: nat -> bool, dir: Dir)
    ensures var run := VariantDownload(uri, output, playlist, urljoin, isFloat, fetch, paused, dir);
      var uris := SegmentUris(uri, playlist, urljoin, isFloat);
      && (run.success <==>
            uris.Ok? && forall j | 0 <= j < |uris.value| :: !paused(j) && fetch(uris.value[j]).Some?)
      && (run.success ==> run.dir == dir[output := Concat(Bodies(uris.value, fetch))])
      && (!run.success ==> run.dir == dir)
      && run.progress == (if uris.Ok? then Totals(Bodies(uris.value[..Stop(uris.value, fetch, paused, 0)], fetch)) else [])
  {
    var run := VariantDownload(uri, output, playlist, urljoin, isFloat, fetch, paused, dir);
    var uris := SegmentUris(uri, playlist, urljoin, isFloat);
    if uris.Ok? {
      var u := uris.value;
      var k := Stop(u, fetch, paused, 0);
      StopFacts(u, fetch, paused, 0);
      var got := Bodies(u[..k], fetch);
      if k == |u| {
        assert u[..k] == u;
        MergedSaved(got, k);
        assert got[..k] == got;
      }
    }
  }

  /**
   * The progress callback is called once per segment fetched, with the byte
   * count of that segment and all before it; a pause before segment `p`
   * means at most `p` calls, so no success.
   */
  lemma ProgressReports(uris: seq<string>, fetch: string -> Option<Bytes>, paused: nat -> bool, p: nat)
    ensures var k := Stop(uris, fetch, paused, 0);
      var t := Totals(Bodies(uris[..k], fetch));
      && |t| == k
      && (forall j | 0 <= j < k :: fetch(uris[j]).Some? && t[j] == |Concat(Bodies(uris[..j + 1], fetch))|)
      && (p < |uris| && paused(p) ==> k <= p < |uris|)
  {
    var k := Stop(uris, fetch, paused, 0);
    StopFacts(uris, fetch, paused, 0);
    TotalsOfFetched(uris, fetch, k);
  }

  /** The progress values for the first `k` segments, one by one. */
  lemma TotalsOfFetched(uris: seq<string>, fetch: string -> Option<Bytes>, k: nat)
    requires k <= |uris|
    ensures var t := Totals(Bodies(uris[..k], fetch));
      forall j | 0 <= j < |t| :: t[j] == |Concat(Bodies(uris[..j + 1], fetch))|
  {
    var got := Bodies(uris[..k], fetch);
    forall j | 0 <= j < k
      ensures Totals(got)[j] == |Concat(Bodies(uris[..j + 1], fetch))|
    {
      TotalsAt(got, j);
      BodiesPrefix(uris[..k], fetch, j + 1);
      assert uris[..k][..j + 1] == uris[..j + 1];
    }
  }

  /** The bodies of a prefix of the URIs are the prefix of the bodies. */
  lemma {:induction false} BodiesPrefix(uris: seq<string>, fetch: string -> Option<Bytes>, m: nat)
    requires m <= |uris|
    ensures Bodies(uris, fetch)[..m] == Bodies(uris[..m], fetch)
    decreases |uris|
  {
    if m < |uris| {
      var front := uris[..|uris| - 1];
      BodiesPrefix(front, fetch, m);
      assert front[..m] == uris[..m];
      assert Bodies(uris, fetch)[..m] == Bodies(uris, fetch)[..|uris| - 1][..m];
    } else {
      assert uris[..m] == uris;
    }
  }
}
