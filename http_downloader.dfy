/**
 * `HttpDownloader`: the header decisions made on a HEAD response, and the
 * streaming GET that hands each chunk to a callback with the running byte
 * offset. The network is not modelled: a response is an input, as are the
 * answers of the pause check.
 */
module HttpTransfer {
  import opened Common
  import opened Strings
  import opened FileWriting

  /**
   * Response header fields, keyed by the lowercased field name, which is how
   * the case-insensitive header dictionary of the response looks them up.
   */
  type Headers = map<string, string>

  function Header(h: Headers, name: string): Option<string> {
    if name in h then Some(h[name]) else None
  }

  /** `headers.get(name, "")`. */
  function HeaderOr(h: Headers, name: string, default: string): string {
    if name in h then h[name] else default
  }

  /** A HEAD request: it raised (connection error or error status), or it has headers. */
  datatype Head = HeadFailed | HeadOk(headers: Headers)

  /** `Accept-Ranges: bytes` (section 14.3 of RFC 9110), compared case-insensitively. */
  predicate AcceptsBytes(h: Headers) {
    Lower(HeaderOr(h, "accept-ranges", "")) == "bytes"
  }

  /** `Transfer-Encoding` naming `chunked` (section 7.1 of RFC 9112). */
  predicate IsChunked(h: Headers) {
    Contains(Lower(HeaderOr(h, "transfer-encoding", "")), "chunked")
  }

  /** `check_range_support(url)`: true only when the HEAD succeeded and advertises byte ranges. */
  function CheckRangeSupport(head: Head): (r: bool)
    ensures r <==> head.HeadOk? && AcceptsBytes(head.headers)
  {
    match head
    case HeadFailed => false
    case HeadOk(h) => AcceptsBytes(h)
  }

  /** `(is_resumable, has_content_length, content_length)`. */
  datatype ContentDetails = ContentDetails(resumable: bool, hasLength: bool, length: Option<int>)

  /**
   * `get_content_details(url)`. An empty `Content-Length` counts as present
   * but gives no length; one that is not an integer raises inside the `try`
   * and so gives the failure answer.
   */
  function GetContentDetails(head: Head): ContentDetails {
    match head
    case HeadFailed => ContentDetails(false, false, None)
    case HeadOk(h) =>
      var length := Header(h, "content-length");
      if length.Some? && length.value != "" && ParseInt(length.value).None? then
        ContentDetails(false, false, None)
      else
        ContentDetails(
          AcceptsBytes(h) && length.Some? && !IsChunked(h),
          length.Some?,
          if length.Some? && length.value != "" then ParseInt(length.value) else None)
  }

  /**
   * A download counts as resumable exactly when the HEAD succeeded, the
   * server accepts byte ranges, a `Content-Length` is present and parses (or
   * is empty) and the body is not chunked; every failure answers "not
   * resumable, no length". A resumable download always passes
   * `check_range_support` on the same response.
   */
  lemma ContentDetailsDecision(head: Head)
    ensures var d := GetContentDetails(head);
      && (d.resumable <==>
            && head.HeadOk? && AcceptsBytes(head.headers) && !IsChunked(head.headers)
            && "content-length" in head.headers
            && var v := head.headers["content-length"]; v == "" || ParseInt(v).Some?)
      && (d.resumable ==> CheckRangeSupport(head))
      && (head.HeadFailed? ==> d == ContentDetails(false, false, None))
      && (d.length.Some? ==> d.hasLength)
      && (!d.hasLength ==> !d.resumable && d.length == None)
  {
  }

  /**
   * A HEAD response advertising byte ranges, without chunking, with a
   * `Content-Length` of n is resumable with length n.
   */
  lemma ResumableWithLength(h: Headers, n: nat)
    requires AcceptsBytes(h) && !IsChunked(h)
    requires "content-length" in h && h["content-length"] == NatToString(n)
    ensures GetContentDetails(HeadOk(h)) == ContentDetails(true, true, Some(n))
  {
    IntToStringParses(n);
  }

  // ---------------------------------------------------------------------------
  // The streaming GET
  // ---------------------------------------------------------------------------

  /**
   * The GET request: it raised before a response, or it has a status code,
   * headers and the body as the chunks the stream yields.
   */
  datatype GetResponse = GetFailed | GetOk(status: int, headers: Headers, chunks: seq<Bytes>)

  /** `raise_for_status()`: 4xx and 5xx raise. */
  predicate IsErrorStatus(status: int) {
    400 <= status < 600
  }

  /** The `Range: bytes=N-` request header (section 14.2 of RFC 9110), sent only to resume past byte 0. */
  function RangeHeader(start: int): (r: Option<string>)
    ensures r.Some? <==> start > 0
  {
    if start > 0 then Some("bytes=" + NatToString(start) + "-") else None
  }

  /**
   * The total handed to the callback. A given total is used as it is.
   * Otherwise a non-empty `Content-Range` (section 14.4 of RFC 9110) gives the
   * number after its '/', or 0 when there is none or it is not an integer;
   * without one, a non-empty `Content-Length` gives its value and raises when
   * it is not an integer; otherwise the total stays unknown.
   */
  function TotalSize(given: Option<int>, h: Headers): Result<Option<int>> {
    if given.Some? then Ok(given)
    else
      var range := Header(h, "content-range");
      if range.Some? && range.value != "" then
        var after := SecondPiece(range.value, '/');
        if after.Some? && ParseInt(after.value).Some? then Ok(ParseInt(after.value)) else Ok(Some(0))
      else
        var length := Header(h, "content-length");
        if length.Some? && length.value != "" then
          (if ParseInt(length.value).Some? then Ok(ParseInt(length.value)) else Err(ForeignError))
        else Ok(None)
  }

  /** `s.split(c)[1]` of a text with exactly one `c`: the part after it. */
  lemma SecondPieceAfter(s: string, c: char, t: string)
    requires c !in s && c !in t
    ensures SecondPiece(s + [c] + t, c) == Some(t)
  {
    var u := s + [c] + t;
    assert u[..|s|] == s;
    IndexOfAt(u, c, |s|);
    assert u[|s| + 1..] == t;
    assert Split(t, c) == [t];
    assert Split(u, c) == [s] + [t];
  }

  /**
   * Without a given total, a `Content-Range` such as `bytes 0-499/1234` gives
   * the length after its '/', and one with no '/' at all gives 0.
   */
  lemma ContentRangeTotal(h: Headers, unit: string, n: nat)
    requires '/' !in unit
    requires "content-range" in h && h["content-range"] == unit + "/" + NatToString(n)
    ensures TotalSize(None, h) == Ok(Some(n))
    ensures '/' !in unit && unit != "" ==>
      TotalSize(None, h["content-range" := unit]) == Ok(Some(0))
  {
    var digits := NatToString(n);
    assert '/' !in digits by {
      forall i | 0 <= i < |digits| ensures digits[i] != '/' {
        assert IsDigit(digits[i]);
      }
    }
    SecondPieceAfter(unit, '/', digits);
    assert unit + "/" + digits == unit + ['/'] + digits;
    IntToStringParses(n);
  }

  /** One call `on_chunk(chunk, downloaded, total)`. */
  datatype ChunkCall = ChunkCall(chunk: Bytes, downloaded: int, total: Option<int>)

  /** The bytes of the chunks, in order. */
  function Concat(chunks: seq<Bytes>): Bytes
    decreases |chunks|
  {
    if chunks == [] then [] else Concat(chunks[..|chunks| - 1]) + chunks[|chunks| - 1]
  }

  /** The bytes the callback received, in order. */
  function Delivered(calls: seq<ChunkCall>): Bytes
    decreases |calls|
  {
    if calls == [] then [] else Delivered(calls[..|calls| - 1]) + calls[|calls| - 1].chunk
  }

  /**
   * The callback calls for the chunks read: each non-empty chunk once, in
   * order, with the offset reached after it; empty keep-alive chunks are skipped.
   */
  function Calls(chunks: seq<Bytes>, start: int, total: Option<int>): seq<ChunkCall>
    decreases |chunks|
  {
    if chunks == [] then []
    else
      var last := chunks[|chunks| - 1];
      Calls(chunks[..|chunks| - 1], start, total)
        + (if last != [] then [ChunkCall(last, start + |Concat(chunks)|, total)] else [])
  }

  /**
   * The callback receives exactly the bytes read, in order; every call carries
   * a non-empty chunk and the start offset plus all bytes delivered up to and
   * including it, so the offsets strictly increase and the last one is the
   * start plus the length of the body read.
   */
  lemma {:induction false} CallsOffsets(chunks: seq<Bytes>, start: int, total: Option<int>)
    ensures var c := Calls(chunks, start, total);
      && Delivered(c) == Concat(chunks)
      && (forall k | 0 <= k < |c| ::
            c[k].chunk != [] && c[k].total == total && c[k].downloaded == start + |Delivered(c[..k + 1])|)
      && (c != [] ==> c[|c| - 1].downloaded == start + |Concat(chunks)|)
    decreases |chunks|
  {
    if chunks != [] {
      var front := chunks[..|chunks| - 1];
      var last := chunks[|chunks| - 1];
      CallsOffsets(front, start, total);
      var c0 := Calls(front, start, total);
      var c := Calls(chunks, start, total);
      if last != [] {
        var call := ChunkCall(last, start + |Concat(chunks)|, total);
        assert c == c0 + [call];
        assert c[..|c0|] == c0;
        assert Delivered(c) == Delivered(c0) + last;
        forall k | 0 <= k < |c|
          ensures c[k].chunk != [] && c[k].total == total && c[k].downloaded == start + |Delivered(c[..k + 1])|
        {
          if k < |c0| {
            assert c[..k + 1] == c0[..k + 1];
          } else {
            assert c[..k + 1] == c;
          }
        }
      } else {
        assert c == c0;
      }
    }
  }

  /** Each callback offset is larger than the one before. */
  lemma CallsIncreasing(chunks: seq<Bytes>, start: int, total: Option<int>, j: nat, k: nat)
    requires j < k < |Calls(chunks, start, total)|
    ensures Calls(chunks, start, total)[j].downloaded < Calls(chunks, start, total)[k].downloaded
  {
    var c := Calls(chunks, start, total);
    CallsOffsets(chunks, start, total);
    DeliveredGrows(c, j + 1, k + 1);
  }

  lemma {:induction false} DeliveredGrows(c: seq<ChunkCall>, m: nat, n: nat)
    requires m < n <= |c| && c[n - 1].chunk != []
    ensures |Delivered(c[..m])| < |Delivered(c[..n])|
    decreases n
  {
    assert c[..n][..n - 1] == c[..n - 1];
    if m < n - 1 {
      DeliveredPrefixGrows(c, m, n - 1);
    }
  }

  lemma {:induction false} DeliveredPrefixGrows(c: seq<ChunkCall>, m: nat, n: nat)
    requires m <= n <= |c|
    ensures |Delivered(c[..m])| <= |Delivered(c[..n])|
    decreases n
  {
    if m < n {
      assert c[..n][..n - 1] == c[..n - 1];
      DeliveredPrefixGrows(c, m, n - 1);
    }
  }

  /**
   * The number of chunks read before the loop stops: the first chunk before
   * which the pause check answers true, or all of them.
   */
  function StopIndex(n: nat, paused: nat -> bool, i: nat): (k: nat)
    requires i <= n
    ensures i <= k <= n
    ensures forall j | i <= j < k :: !paused(j)
    ensures k < n ==> paused(k)
    decreases n - i
  {
    if i == n then n else if paused(i) then i else StopIndex(n, paused, i + 1)
  }

  /**
   * What `download` does given the response: the callback calls for the
   * chunks read before the first pause, or the exception that escapes.
   */
  function DownloadCalls(start: int, given: Option<int>, response: GetResponse, paused: nat -> bool)
    : Result<seq<ChunkCall>>
  {
    match response
    case GetFailed => Err(ForeignError)
    case GetOk(status, h, chunks) =>
      if IsErrorStatus(status) then Err(ForeignError)
      else
        match TotalSize(given, h)
        case Err(e) => Err(e)
        case Ok(total) => Ok(Calls(chunks[..StopIndex(|chunks|, paused, 0)], start, total))
  }

  /**
   * Once the pause check has answered true no more chunks are delivered: the
   * calls are those for the chunks before that point.
   */
  lemma NoCallsAfterPause(start: int, given: Option<int>, response: GetResponse, paused: nat -> bool, p: nat)
    requires response.GetOk? && DownloadCalls(start, given, response, paused).Ok?
    requires p < |response.chunks| && paused(p)
    ensures var total := TotalSize(given, response.headers).value;
      exists k | 0 <= k <= p ::
        DownloadCalls(start, given, response, paused).value == Calls(response.chunks[..k], start, total)
  {
    var k := StopIndex(|response.chunks|, paused, 0);
    assert k <= p;
  }

  /**
   * The status code is only checked for errors: a server that ignores the
   * `Range` header and answers 200 with the whole body is treated exactly as a
   * 206 with the requested tail.
   */
  lemma StatusNotChecked(start: int, given: Option<int>, h: Headers, chunks: seq<Bytes>, paused: nat -> bool)
    ensures DownloadCalls(start, given, GetOk(200, h, chunks), paused)
         == DownloadCalls(start, given, GetOk(206, h, chunks), paused)
  {
  }

  /**
   * `download(url, on_chunk, start_byte, total_size, pause_check)`: the
   * request header sent, then the chunk loop; `pause` answers the pause check
   * made before each chunk (always false when none is given).
   */
  method Download(start: int, given: Option<int>, response: GetResponse, paused: nat -> bool)
    returns (rangeHeader: Option<string>, r: Result<seq<ChunkCall>>)
    ensures rangeHeader == RangeHeader(start)
    ensures r == DownloadCalls(start, given, response, paused)
  {
    rangeHeader := None;
    if start > 0 {
      rangeHeader := Some("bytes=" + NatToString(start) + "-");
    }
    if response.GetFailed? || IsErrorStatus(response.status) {
      return rangeHeader, Err(ForeignError);
    }
    var total := TotalSize(given, response.headers);
    if total.Err? {
      return rangeHeader, Err(total.error);
    }
    var calls := ChunkLoop(response.chunks, start, total.value, paused);
    r := Ok(calls);
  }

  /** The `for chunk in r.iter_content()` loop with its running offset. */
  method ChunkLoop(chunks: seq<Bytes>, start: int, total: Option<int>, paused: nat -> bool)
    returns (calls: seq<ChunkCall>)
    ensures calls == Calls(chunks[..StopIndex(|chunks|, paused, 0)], start, total)
  {
    var downloaded := start;
    calls := [];
    var i := 0;
    while i < |chunks|
      invariant 0 <= i <= |chunks| && i <= StopIndex(|chunks|, paused, 0)
      invariant calls == Calls(chunks[..i], start, total)
      invariant downloaded == start + |Concat(chunks[..i])|
    {
      if paused(i) {
        break;
      }
      var chunk := chunks[i];
      assert chunks[..i + 1][..i] == chunks[..i];
      if chunk != [] {
        downloaded := downloaded + |chunk|;
        calls := calls + [ChunkCall(chunk, downloaded, total)];
      }
      i := i + 1;
    }
    assert i == StopIndex(|chunks|, paused, 0);
  }
}
