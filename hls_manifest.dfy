/**
 * `HlsManifest.parse`: an m3u8 playlist (RFC 8216) read line by line into its
 * version, its variants (a master playlist) or its segments (a media
 * playlist). The tags read are `#EXTM3U` (section 4.3.1.1), `#EXT-X-VERSION`
 * (4.3.1.2), `#EXTINF` (4.3.2.1), `#EXT-X-TARGETDURATION` (4.3.3.1),
 * `#EXT-X-ENDLIST` (4.3.3.4) and `#EXT-X-STREAM-INF` (4.3.4.2); every other
 * line is skipped. Segment durations are floats: the model keeps only
 * whether `float()` accepts the text, given as `isFloat`. `urljoin(base_url, uri)`
 * is the parameter `join`.
 */
module HlsManifest {
  import opened Common
  import opened Strings
  import opened HlsTypes

  // ---------------------------------------------------------------------------
  // Quality labels
  // ---------------------------------------------------------------------------

  /** The length of the run of decimal digits `s` starts with. */
  function DigitRun(s: string): (n: nat)
    ensures n <= |s|
    ensures forall k | 0 <= k < n :: IsDigit(s[k])
    ensures n < |s| ==> !IsDigit(s[n])
    decreases |s|
  {
    if s != [] && IsDigit(s[0]) then 1 + DigitRun(s[1..]) else 0
  }

  /**
   * `re.search(r'(\d+)x(\d+)', s)` followed by `int(match.group(2))`: at the
   * leftmost position where a run of digits is followed by 'x' and a digit,
   * the value of the whole run of digits after the 'x'.
   */
  function ResolutionHeight(s: string): Option<nat>
    decreases |s|
  {
    if s == [] then None
    else
      var w := DigitRun(s);
      if 0 < w && w + 1 < |s| && s[w] == 'x' && IsDigit(s[w + 1]) then
        var rest := s[w + 1..];
        Some(DigitsValue(rest[..DigitRun(rest)]))
      else ResolutionHeight(s[1..])
  }

  /** The height a resolution attribute gives, when one is present, non-empty and matches. */
  function HeightOf(resolution: Option<string>): Option<nat> {
    if resolution.Some? && resolution.value != "" then ResolutionHeight(resolution.value) else None
  }

  /** The label for a picture height. */
  function HeightLabel(height: int): string {
    if height >= 2160 then "4K"
    else if height >= 1440 then "1440p"
    else if height >= 1080 then "1080p"
    else if height >= 720 then "720p"
    else if height >= 480 then "480p"
    else "360p"
  }

  /** The label guessed from a bandwidth in bits per second. */
  function BandwidthLabel(bandwidth: int): string {
    if bandwidth >= 8000000 then "1080p+"
    else if bandwidth >= 5000000 then "1080p"
    else if bandwidth >= 2500000 then "720p"
    else if bandwidth >= 1000000 then "480p"
    else "360p"
  }

  /**
   * `_get_quality_label(resolution, bandwidth)`: from the height when the
   * resolution gives one, otherwise from a non-zero bandwidth, otherwise "Unknown".
   */
  function QualityLabel(resolution: Option<string>, bandwidth: Option<int>): string {
    match HeightOf(resolution)
    case Some(h) => HeightLabel(h)
    case None => if bandwidth.Some? && bandwidth.value != 0 then BandwidthLabel(bandwidth.value) else "Unknown"
  }

  /** Every label is one of the eight the source names. */
  lemma QualityLabelValues(resolution: Option<string>, bandwidth: Option<int>)
    ensures QualityLabel(resolution, bandwidth) in {"4K", "1440p", "1080p", "720p", "480p", "360p", "1080p+", "Unknown"}
  {
  }

  /** The labels ordered from the lowest quality to the highest. */
  function Rank(name: string): int {
    if name == "360p" then 0
    else if name == "480p" then 1
    else if name == "720p" then 2
    else if name == "1080p" then 3
    else if name == "1080p+" then 4
    else if name == "1440p" then 5
    else if name == "4K" then 6
    else -1
  }

  /** A taller picture never gets a lower label. */
  lemma HeightLabelMonotone(a: int, b: int)
    requires a <= b
    ensures 0 <= Rank(HeightLabel(a)) <= Rank(HeightLabel(b))
  {
  }

  /** A larger bandwidth never gets a lower label. */
  lemma BandwidthLabelMonotone(a: int, b: int)
    requires a <= b
    ensures 0 <= Rank(BandwidthLabel(a)) <= Rank(BandwidthLabel(b))
  {
  }

  /**
   * The label is "Unknown" exactly when the resolution gives no height and the
   * bandwidth is missing or zero.
   */
  lemma QualityLabelUnknown(resolution: Option<string>, bandwidth: Option<int>)
    ensures QualityLabel(resolution, bandwidth) == "Unknown" <==>
      HeightOf(resolution).None? && (bandwidth.None? || bandwidth.value == 0)
  {
  }

  lemma {:induction false} DigitRunOf(digits: string, rest: string)
    requires forall k | 0 <= k < |digits| :: IsDigit(digits[k])
    requires rest == [] || !IsDigit(rest[0])
    ensures DigitRun(digits + rest) == |digits|
    decreases |digits|
  {
    if digits != [] {
      assert (digits + rest)[1..] == digits[1..] + rest;
      DigitRunOf(digits[1..], rest);
    }
  }

  /**
   * A resolution written `<width>x<height>` yields that height, and then the
   * bandwidth plays no part in the label.
   */
  lemma ResolutionLabel(width: nat, height: nat, bandwidth: Option<int>)
    ensures HeightOf(Some(NatToString(width) + "x" + NatToString(height))) == Some(height)
    ensures QualityLabel(Some(NatToString(width) + "x" + NatToString(height)), bandwidth) == HeightLabel(height)
  {
    var a, b := NatToString(width), NatToString(height);
    var s := a + "x" + b;
    assert s == a + ("x" + b);
    DigitRunOf(a, "x" + b);
    assert s[|a|] == 'x' && s[|a| + 1] == b[0];
    assert s[|a| + 1..] == b;
    DigitRunOf(b, []);
    assert b + [] == b;
    assert b[..|b|] == b;
    NatToStringValue(height);
  }

  /** A resolution with no 'x' in it gives no height, so the bandwidth decides. */
  lemma {:induction false} NoHeightWithoutX(s: string)
    requires 'x' !in s
    ensures ResolutionHeight(s).None?
    decreases |s|
  {
    if s != [] {
      assert 'x' !in s[1..];
      NoHeightWithoutX(s[1..]);
    }
  }

  // ---------------------------------------------------------------------------
  // The attribute list of #EXT-X-STREAM-INF
  // ---------------------------------------------------------------------------

  /** The attributes `_parse_stream_inf` keeps; each is present when its key was given. */
  datatype StreamInf = StreamInf(
    bandwidth: Option<int>,
    resolution: Option<string>,
    codecs: Option<string>,
    audio: Option<string>,
    subtitles: Option<string>)

  const NoAttributes := StreamInf(None, None, None, None, None)

  /** `line.split(':', 1)[1]`; the lines this is applied to carry a tag ending in ':'. */
  function AfterColon(line: string): string {
    match SplitOnce(line, ':')
    case Some(parts) => parts.1
    case None => ""
  }

  /** The pieces between the commas of the attribute list, each stripped. */
  function Pairs(attributes: string): (pairs: seq<string>)
    ensures |pairs| == |Split(attributes, ',')|
  {
    var parts := Split(attributes, ',');
    seq(|parts|, i requires 0 <= i < |parts| => Strip(parts[i]))
  }

  /**
   * One piece applied to the attributes collected so far: a piece without
   * '=' is ignored; the key is compared in upper case; the value is stripped
   * of whitespace and then of double quotes; a BANDWIDTH that is not an
   * integer raises ValueError.
   */
  function ApplyPair(a: StreamInf, pair: string): Result<StreamInf> {
    match SplitOnce(pair, '=')
    case None => Ok(a)
    case Some(kv) =>
      var key := Upper(Strip(kv.0));
      var value := StripChar(Strip(kv.1), '"');
      if key == "BANDWIDTH" then
        match ParseInt(value)
        case Some(b) => Ok(a.(bandwidth := Some(b)))
        case None => Err(Malformed)
      else if key == "RESOLUTION" then Ok(a.(resolution := Some(value)))
      else if key == "CODECS" then Ok(a.(codecs := Some(value)))
      else if key == "AUDIO" then Ok(a.(audio := Some(value)))
      else if key == "SUBTITLES" then Ok(a.(subtitles := Some(value)))
      else Ok(a)
  }

  /** The pieces applied in order; a later value for a key replaces an earlier one. */
  function ApplyPairs(a: StreamInf, pairs: seq<string>): Result<StreamInf>
    decreases |pairs|
  {
    if pairs == [] then Ok(a)
    else
      match ApplyPair(a, pairs[0])
      case Err(e) => Err(e)
      case Ok(b) => ApplyPairs(b, pairs[1..])
  }

  /**
   * `_parse_stream_inf(line)`. The list is cut at every comma, quoted or not,
   * where section 4.2 of RFC 8216 lets a quoted string hold commas.
   */
  function ParseStreamInf(line: string): Result<StreamInf> {
    ApplyPairs(NoAttributes, Pairs(AfterColon(line)))
  }

  lemma UpperKeepsEnds(k: string)
    requires |k| > 0 && !IsSpace(k[0]) && !IsSpace(k[|k| - 1]) && '=' !in k
    ensures |Upper(k)| > 0 && !IsSpace(Upper(k)[0]) && !IsSpace(Upper(k)[|k| - 1]) && '=' !in Upper(k)
    ensures Upper(Upper(k)) == Upper(k)
  {
  }

  /** Attribute names are read without regard to case: `codecs=...` counts as `CODECS=...`. */
  lemma KeyCaseInsensitive(a: StreamInf, k: string, v: string)
    requires |k| > 0 && !IsSpace(k[0]) && !IsSpace(k[|k| - 1]) && '=' !in k
    ensures ApplyPair(a, k + "=" + v) == ApplyPair(a, Upper(k) + "=" + v)
  {
    UpperKeepsEnds(k);
    SplitOnceAfter(k, '=', v);
    SplitOnceAfter(Upper(k), '=', v);
    StripOfDigits(k);
    StripOfDigits(Upper(k));
  }

  /** A piece without '=' changes nothing. */
  lemma PieceWithoutEquals(a: StreamInf, pair: string)
    requires '=' !in pair
    ensures ApplyPair(a, pair) == Ok(a)
  {
  }

  // ---------------------------------------------------------------------------
  // The playlist
  // ---------------------------------------------------------------------------

  /** The playlist read so far; segments are their URIs, durations being floats. */
  datatype Playlist = Playlist(
    version: Option<int>,
    isMaster: bool,
    variants: seq<Variant>,
    segments: seq<string>,
    streamType: StreamType,
    targetDuration: int)

  /** `HlsManifest()`: no version, not a master playlist, nothing read, VOD. */
  const Fresh := Playlist(None, false, [], [], Vod, 0)

  predicate IsComment(line: string) {
    StartsWith(Strip(line), "#")
  }

  /** Which branch of the loop's `if`/`elif` chain a stripped line takes. */
  datatype LineKind = Blank | VersionTag | StreamInfTag | TargetDurationTag | EndListTag | ExtInfTag | OtherLine

  function KindOf(line: string): LineKind {
    if line == "" then Blank
    else if StartsWith(line, "#EXT-X-VERSION:") then VersionTag
    else if StartsWith(line, "#EXT-X-STREAM-INF:") then StreamInfTag
    else if StartsWith(line, "#EXT-X-TARGETDURATION:") then TargetDurationTag
    else if StartsWith(line, "#EXT-X-ENDLIST") then EndListTag
    else if StartsWith(line, "#EXTINF:") then ExtInfTag
    else OtherLine
  }

  /** A line the loop reads as `#EXT-X-STREAM-INF`. */
  predicate IsStreamInf(line: string) {
    KindOf(Strip(line)) == StreamInfTag
  }

  /** A line the loop reads as `#EXTINF`. */
  predicate IsExtInf(line: string) {
    KindOf(Strip(line)) == ExtInfTag
  }

  /** The first line at or after `i` that does not start with '#', or the end. */
  function NextUri(lines: seq<string>, i: nat): (j: nat)
    requires i <= |lines|
    ensures i <= j <= |lines|
    decreases |lines| - i
  {
    if i < |lines| && IsComment(lines[i]) then NextUri(lines, i + 1) else i
  }

  /** The lines skipped are comments, and the one found is not. */
  lemma {:induction false} NextUriFacts(lines: seq<string>, i: nat)
    requires i <= |lines|
    ensures forall k | i <= k < NextUri(lines, i) :: IsComment(lines[k])
    ensures NextUri(lines, i) < |lines| ==> !IsComment(lines[NextUri(lines, i)])
    decreases |lines| - i
  {
    if i < |lines| && IsComment(lines[i]) {
      NextUriFacts(lines, i + 1);
    }
  }

  /** `uri` is the resolved text of a line after `lo` that is not a comment. */
  predicate FromLine(lines: seq<string>, lo: nat, uri: string, join: string -> string) {
    exists k | lo < k < |lines| :: !IsComment(lines[k]) && uri == Absolute(Strip(lines[k]), join)
  }

  /** A URI as written when it is absolute, otherwise resolved against the base URL. */
  function Absolute(uri: string, join: string -> string): string {
    if StartsWith(uri, "http://") || StartsWith(uri, "https://") then uri else join(uri)
  }

  /** The variant made from a STREAM-INF line's attributes and the URI line after it. */
  function MakeVariant(uri: string, info: StreamInf): Variant {
    Variant(uri, info.bandwidth, info.resolution, info.codecs, info.audio, info.subtitles,
            Some(QualityLabel(info.resolution, info.bandwidth)), None)
  }

  /**
   * One turn of the loop at line `i`: the index the next turn starts at and
   * the playlist after this line, or the ValueError an unparsable number raises.
   */
  function Step(lines: seq<string>, i: nat, p: Playlist, join: string -> string, isFloat: string -> bool)
    : (r: Result<(nat, Playlist)>)
    requires i < |lines|
    ensures r.Ok? ==> i < r.value.0 <= |lines| + 1
  {
    var line := Strip(lines[i]);
    match KindOf(line)
    case Blank => Ok((i + 1, p))
    case VersionTag =>
      (match ParseInt(AfterColon(line))
       case None => Err(Malformed)
       case Some(v) => Ok((i + 1, p.(version := Some(v)))))
    case StreamInfTag => StreamInfStep(lines, i, p, join, ParseStreamInf(line))
    case TargetDurationTag =>
      (match ParseInt(AfterColon(line))
       case None => Err(Malformed)
       case Some(d) => Ok((i + 1, p.(targetDuration := d))))
    case EndListTag => Ok((i + 1, p.(streamType := Vod)))
    case ExtInfTag => ExtInfStep(lines, i, p, join, isFloat(Split(AfterColon(line), ',')[0]))
    case OtherLine => Ok((i + 1, p))
  }

  /**
   * A STREAM-INF line with its parsed attributes: the playlist is a master
   * one, and the next URI line makes a variant.
   */
  function StreamInfStep(lines: seq<string>, i: nat, p: Playlist, join: string -> string, attributes: Result<StreamInf>)
    : (r: Result<(nat, Playlist)>)
    requires i < |lines|
    ensures r.Ok? ==> i < r.value.0 <= |lines| + 1
  {
    match attributes
    case Err(e) => Err(e)
    case Ok(info) =>
      var j := NextUri(lines, i + 1);
      var q := p.(isMaster := true);
      if j < |lines| then
        Ok((j + 1, q.(variants := q.variants + [MakeVariant(Absolute(Strip(lines[j]), join), info)])))
      else Ok((j + 1, q))
  }

  /**
   * An EXTINF line, given whether `float()` accepts its duration: the next URI
   * line is a segment.
   */
  function ExtInfStep(lines: seq<string>, i: nat, p: Playlist, join: string -> string, durationIsFloat: bool)
    : (r: Result<(nat, Playlist)>)
    requires i < |lines|
    ensures r.Ok? ==> i < r.value.0 <= |lines| + 1
  {
    if !durationIsFloat then Err(Malformed)
    else
      var j := NextUri(lines, i + 1);
      if j < |lines| then Ok((j + 1, p.(segments := p.segments + [Absolute(Strip(lines[j]), join)])))
      else Ok((j + 1, p))
  }

  /** The loop from line `i` with playlist `p` to the end of the lines. */
  function ScanFrom(lines: seq<string>, i: nat, p: Playlist, join: string -> string, isFloat: string -> bool)
    : Result<Playlist>
    decreases |lines| + 1 - i
  {
    if i >= |lines| then Ok(p)
    else
      match Step(lines, i, p, join, isFloat)
      case Err(e) => Err(e)
      case Ok(next) => ScanFrom(lines, next.0, next.1, join, isFloat)
  }

  /** `content.strip().split('\n')`. */
  function Lines(content: string): seq<string> {
    Split(Strip(content), '\n')
  }

  /** What `HlsManifest.parse(content, base_url)` returns or raises. */
  function ParsePlaylist(content: string, join: string -> string, isFloat: string -> bool): Result<Playlist> {
    var lines := Lines(content);
    if !StartsWith(lines[0], "#EXTM3U") then Err(Malformed)
    else
      match ScanFrom(lines, 0, Fresh, join, isFloat)
      case Err(e) => Err(e)
      case Ok(p) => Ok(if p.streamType != Vod then p.(streamType := Live) else p)
  }

  /** `HlsManifest.parse(content, base_url)`: the while loop over the lines. */
  method Parse(content: string, join: string -> string, isFloat: string -> bool) returns (r: Result<Playlist>)
    ensures r == ParsePlaylist(content, join, isFloat)
  {
    var lines := Split(Strip(content), '\n');
    if !StartsWith(lines[0], "#EXTM3U") {
      return Err(Malformed);
    }
    var manifest := Fresh;
    var i := 0;
    while i < |lines|
      invariant i <= |lines| + 1
      invariant ScanFrom(lines, i, manifest, join, isFloat) == ScanFrom(lines, 0, Fresh, join, isFloat)
      decreases |lines| + 1 - i
    {
      var turn := ParseLine(lines, i, manifest, join, isFloat);
      if turn.Err? {
        return Err(turn.error);
      }
      i, manifest := turn.value.0, turn.value.1;
    }
    if manifest.streamType != Vod {
      manifest := manifest.(streamType := Live);
    }
    r := Ok(manifest);
  }

  /** The body of the loop for line `i`, with the inner loops that skip to the URI line. */
  method ParseLine(lines: seq<string>, i: nat, manifest: Playlist, join: string -> string, isFloat: string -> bool)
    returns (r: Result<(nat, Playlist)>)
    requires i < |lines|
    ensures r == Step(lines, i, manifest, join, isFloat)
  {
    var line := Strip(lines[i]);
    var m := manifest;
    match KindOf(line)
    case Blank =>
      r := Ok((i + 1, m));
    case VersionTag =>
      var v := ParseInt(AfterColon(line));
      if v.None? {
        return Err(Malformed);
      }
      r := Ok((i + 1, m.(version := v)));
    case StreamInfTag =>
      r := ReadVariant(lines, i, m, join, ParseStreamInf(line));
    case TargetDurationTag =>
      var d := ParseInt(AfterColon(line));
      if d.None? {
        return Err(Malformed);
      }
      r := Ok((i + 1, m.(targetDuration := d.value)));
    case EndListTag =>
      r := Ok((i + 1, m.(streamType := Vod)));
    case ExtInfTag =>
      r := ReadSegment(lines, i, m, join, isFloat(Split(AfterColon(line), ',')[0]));
    case OtherLine =>
      r := Ok((i + 1, m));
  }

  /** The STREAM-INF branch: the attributes, then the skip to the URI line. */
  method ReadVariant(lines: seq<string>, i: nat, manifest: Playlist, join: string -> string, info: Result<StreamInf>)
    returns (r: Result<(nat, Playlist)>)
    requires i < |lines|
    ensures r == StreamInfStep(lines, i, manifest, join, info)
  {
    var m := manifest.(isMaster := true);
    if info.Err? {
      return Err(info.error);
    }
    var k := SkipComments(lines, i + 1);
    if k < |lines| {
      var uri := Strip(lines[k]);
      if !(StartsWith(uri, "http://") || StartsWith(uri, "https://")) {
        uri := join(uri);
      }
      m := m.(variants := m.variants + [MakeVariant(uri, info.value)]);
    }
    r := Ok((k + 1, m));
  }

  /** The EXTINF branch: the duration text, then the skip to the URI line. */
  method ReadSegment(lines: seq<string>, i: nat, manifest: Playlist, join: string -> string, durationIsFloat: bool)
    returns (r: Result<(nat, Playlist)>)
    requires i < |lines|
    ensures r == ExtInfStep(lines, i, manifest, join, durationIsFloat)
  {
    var m := manifest;
    if !durationIsFloat {
      return Err(Malformed);
    }
    var k := SkipComments(lines, i + 1);
    if k < |lines| {
      var uri := Strip(lines[k]);
      if !(StartsWith(uri, "http://") || StartsWith(uri, "https://")) {
        uri := join(uri);
      }
      m := m.(segments := m.segments + [uri]);
    }
    r := Ok((k + 1, m));
  }

  /** `while i < len(lines) and lines[i].strip().startswith('#'): i += 1`. */
  method SkipComments(lines: seq<string>, i: nat) returns (j: nat)
    requires i <= |lines|
    ensures j == NextUri(lines, i)
  {
    j := i;
    while j < |lines| && IsComment(lines[j])
      invariant i <= j <= |lines|
      invariant NextUri(lines, j) == NextUri(lines, i)
      decreases |lines| - j
    {
      j := j + 1;
    }
  }

  // ---------------------------------------------------------------------------
  // Properties of the parse
  // ---------------------------------------------------------------------------

  /** Content whose first line does not start with `#EXTM3U` is refused. */
  lemma NotAPlaylist(content: string, join: string -> string, isFloat: string -> bool)
    requires !StartsWith(Lines(content)[0], "#EXTM3U")
    ensures ParsePlaylist(content, join, isFloat) == Err(Malformed)
  {
  }

  /**
   * What one line does: the stream type only ever becomes VOD; only a
   * STREAM-INF line makes the playlist a master; the variants and segments
   * only grow, by at most one entry, whose URI is the resolved text of the
   * non-comment line the turn ends on.
   */
  lemma StepFacts(lines: seq<string>, i: nat, p: Playlist, join: string -> string, isFloat: string -> bool)
    requires i < |lines| && Step(lines, i, p, join, isFloat).Ok?
    ensures var q := Step(lines, i, p, join, isFloat).value.1;
      && (q.streamType == p.streamType || q.streamType == Vod)
      && (p.isMaster ==> q.isMaster)
      && (q.isMaster && !p.isMaster ==> IsStreamInf(lines[i]))
      && |p.variants| <= |q.variants| <= |p.variants| + 1 && q.variants[..|p.variants|] == p.variants
      && (|q.variants| > |p.variants| ==> IsStreamInf(lines[i]) && FromLine(lines, i, q.variants[|p.variants|].uri, join))
      && |p.segments| <= |q.segments| <= |p.segments| + 1 && q.segments[..|p.segments|] == p.segments
      && (|q.segments| > |p.segments| ==> IsExtInf(lines[i]) && FromLine(lines, i, q.segments[|p.segments|], join))
  {
    var line := Strip(lines[i]);
    match KindOf(line)
    case StreamInfTag =>
      StreamInfFacts(lines, i, p, join, ParseStreamInf(line));
    case ExtInfTag =>
      ExtInfFacts(lines, i, p, join, isFloat(Split(AfterColon(line), ',')[0]));
    case _ =>
  }

  lemma StreamInfFacts(lines: seq<string>, i: nat, p: Playlist, join: string -> string, attributes: Result<StreamInf>)
    requires i < |lines| && StreamInfStep(lines, i, p, join, attributes).Ok?
    ensures var q := StreamInfStep(lines, i, p, join, attributes).value.1;
      && q.streamType == p.streamType && q.isMaster && q.segments == p.segments
      && (q.variants == p.variants
          || (|q.variants| == |p.variants| + 1 && q.variants[..|p.variants|] == p.variants
              && FromLine(lines, i, q.variants[|p.variants|].uri, join)))
  {
    var j := NextUri(lines, i + 1);
    NextUriFacts(lines, i + 1);
    if j < |lines| {
      var q := StreamInfStep(lines, i, p, join, attributes).value.1;
      assert q.variants[|p.variants|].uri == Absolute(Strip(lines[j]), join);
    }
  }

  lemma ExtInfFacts(lines: seq<string>, i: nat, p: Playlist, join: string -> string, durationIsFloat: bool)
    requires i < |lines| && ExtInfStep(lines, i, p, join, durationIsFloat).Ok?
    ensures var q := ExtInfStep(lines, i, p, join, durationIsFloat).value.1;
      && q.streamType == p.streamType && q.isMaster == p.isMaster && q.variants == p.variants
      && (q.segments == p.segments
          || (|q.segments| == |p.segments| + 1 && q.segments[..|p.segments|] == p.segments
              && FromLine(lines, i, q.segments[|p.segments|], join)))
  {
    var j := NextUri(lines, i + 1);
    NextUriFacts(lines, i + 1);
    if j < |lines| {
      var q := ExtInfStep(lines, i, p, join, durationIsFloat).value.1;
      assert q.segments[|p.segments|] == Absolute(Strip(lines[j]), join);
    }
  }

  /** The stream type is VOD at the start and no line changes it to anything else. */
  lemma {:induction false} ScanKeepsVod(lines: seq<string>, i: nat, p: Playlist, join: string -> string, isFloat: string -> bool)
    requires p.streamType == Vod && ScanFrom(lines, i, p, join, isFloat).Ok?
    ensures ScanFrom(lines, i, p, join, isFloat).value.streamType == Vod
    decreases |lines| + 1 - i
  {
    if i < |lines| {
      StepFacts(lines, i, p, join, isFloat);
      var next := Step(lines, i, p, join, isFloat).value;
      ScanKeepsVod(lines, next.0, next.1, join, isFloat);
    }
  }

  /**
   * Every parsed playlist is VOD, with or without `#EXT-X-ENDLIST`: the final
   * switch to LIVE never happens.
   */
  lemma AlwaysVod(content: string, join: string -> string, isFloat: string -> bool)
    requires ParsePlaylist(content, join, isFloat).Ok?
    ensures ParsePlaylist(content, join, isFloat).value.streamType == Vod
  {
    ScanKeepsVod(Lines(content), 0, Fresh, join, isFloat);
  }

  /**
   * Becoming a master playlist needs a STREAM-INF line, and a master playlist
   * stays one; the entries already read are kept, in order, with new ones
   * only added after them.
   */
  lemma {:induction false} ScanGrows(lines: seq<string>, i: nat, p: Playlist, join: string -> string, isFloat: string -> bool)
    requires ScanFrom(lines, i, p, join, isFloat).Ok?
    ensures var q := ScanFrom(lines, i, p, join, isFloat).value;
      && (p.isMaster ==> q.isMaster)
      && (q.isMaster && !p.isMaster ==> exists k | i <= k < |lines| :: IsStreamInf(lines[k]))
      && |p.variants| <= |q.variants| && q.variants[..|p.variants|] == p.variants
      && |p.segments| <= |q.segments| && q.segments[..|p.segments|] == p.segments
    decreases |lines| + 1 - i
  {
    if i < |lines| {
      StepFacts(lines, i, p, join, isFloat);
      var next := Step(lines, i, p, join, isFloat).value;
      ScanGrows(lines, next.0, next.1, join, isFloat);
      var q := ScanFrom(lines, i, p, join, isFloat).value;
      assert q.variants[..|p.variants|] == q.variants[..|next.1.variants|][..|p.variants|];
      assert q.segments[..|p.segments|] == q.segments[..|next.1.segments|][..|p.segments|];
      if q.isMaster && !p.isMaster && !next.1.isMaster {
        var k :| next.0 <= k < |lines| && IsStreamInf(lines[k]);
        assert i <= k;
      }
    }
  }

  /**
   * Every variant read from line `i` on has as its URI the resolved text of a
   * later line that is not a comment.
   */
  lemma {:induction false} ScanVariantSources(lines: seq<string>, i: nat, p: Playlist, join: string -> string, isFloat: string -> bool)
    requires ScanFrom(lines, i, p, join, isFloat).Ok?
    ensures var q := ScanFrom(lines, i, p, join, isFloat).value;
      forall n | |p.variants| <= n < |q.variants| :: FromLine(lines, i, q.variants[n].uri, join)
    decreases |lines| + 1 - i
  {
    if i < |lines| {
      StepFacts(lines, i, p, join, isFloat);
      var next := Step(lines, i, p, join, isFloat).value;
      ScanVariantSources(lines, next.0, next.1, join, isFloat);
      ScanGrows(lines, next.0, next.1, join, isFloat);
      var q := ScanFrom(lines, i, p, join, isFloat).value;
      assert q == ScanFrom(lines, next.0, next.1, join, isFloat).value;
      forall n | |p.variants| <= n < |q.variants|
        ensures FromLine(lines, i, q.variants[n].uri, join)
      {
        if n < |next.1.variants| {
          assert q.variants[n] == q.variants[..|next.1.variants|][n] == next.1.variants[n];
        } else {
          assert FromLine(lines, next.0, q.variants[n].uri, join);
        }
      }
    }
  }

  /**
   * Every segment read from line `i` on has as its URI the resolved text of a
   * later line that is not a comment.
   */
  lemma {:induction false} ScanSegmentSources(lines: seq<string>, i: nat, p: Playlist, join: string -> string, isFloat: string -> bool)
    requires ScanFrom(lines, i, p, join, isFloat).Ok?
    ensures var q := ScanFrom(lines, i, p, join, isFloat).value;
      forall n | |p.segments| <= n < |q.segments| :: FromLine(lines, i, q.segments[n], join)
    decreases |lines| + 1 - i
  {
    if i < |lines| {
      StepFacts(lines, i, p, join, isFloat);
      var next := Step(lines, i, p, join, isFloat).value;
      ScanSegmentSources(lines, next.0, next.1, join, isFloat);
      ScanGrows(lines, next.0, next.1, join, isFloat);
      var q := ScanFrom(lines, i, p, join, isFloat).value;
      assert q == ScanFrom(lines, next.0, next.1, join, isFloat).value;
      forall n | |p.segments| <= n < |q.segments|
        ensures FromLine(lines, i, q.segments[n], join)
      {
        if n < |next.1.segments| {
          assert q.segments[n] == q.segments[..|next.1.segments|][n] == next.1.segments[n];
        } else {
          assert FromLine(lines, next.0, q.segments[n], join);
        }
      }
    }
  }

  /**
   * A parsed master playlist has a line the loop read as STREAM-INF, and
   * every variant and segment URI is the resolved text of a line after the
   * first that is not a comment.
   */
  lemma ParsedEntries(content: string, join: string -> string, isFloat: string -> bool)
    requires ParsePlaylist(content, join, isFloat).Ok?
    ensures var p := ParsePlaylist(content, join, isFloat).value;
      var lines := Lines(content);
      && (p.isMaster ==> exists k | 0 <= k < |lines| :: IsStreamInf(lines[k]))
      && (forall v | v in p.variants :: FromLine(lines, 0, v.uri, join))
      && (forall s | s in p.segments :: FromLine(lines, 0, s, join))
  {
    var lines := Lines(content);
    ScanGrows(lines, 0, Fresh, join, isFloat);
    ScanVariantSources(lines, 0, Fresh, join, isFloat);
    ScanSegmentSources(lines, 0, Fresh, join, isFloat);
    ScanKeepsVod(lines, 0, Fresh, join, isFloat);
    var q := ScanFrom(lines, 0, Fresh, join, isFloat).value;
    assert ParsePlaylist(content, join, isFloat).value == q;
    forall v | v in q.variants
      ensures FromLine(lines, 0, v.uri, join)
    {
      var n :| 0 <= n < |q.variants| && q.variants[n] == v;
    }
    forall s | s in q.segments
      ensures FromLine(lines, 0, s, join)
    {
      var n :| 0 <= n < |q.segments| && q.segments[n] == s;
    }
  }

  // ---------------------------------------------------------------------------
  // Exactly which lines make entries
  // ---------------------------------------------------------------------------

  /**
   * The line the loop reads after line `i` when nothing raises: a STREAM-INF
   * or EXTINF line takes the URI line after it along (or runs to the end);
   * any other line is read alone.
   */
  function Next(lines: seq<string>, i: nat): (j: nat)
    requires i < |lines|
    ensures i < j <= |lines| + 1
  {
    if IsStreamInf(lines[i]) || IsExtInf(lines[i]) then NextUri(lines, i + 1) + 1 else i + 1
  }

  /** Some line the loop reads from line `i` on is a STREAM-INF line. */
  predicate MasterFrom(lines: seq<string>, i: nat)
    decreases |lines| + 1 - i
  {
    i < |lines| && (IsStreamInf(lines[i]) || MasterFrom(lines, Next(lines, i)))
  }

  /**
   * The variant line `i` makes: one when it is a STREAM-INF line and a URI
   * line follows it, built from that line's own attributes and that URI.
   */
  function VariantOfLine(lines: seq<string>, i: nat, join: string -> string): (v: seq<Variant>)
    requires i < |lines|
    ensures |v| <= 1
  {
    var j := NextUri(lines, i + 1);
    if IsStreamInf(lines[i]) && j < |lines| then
      match ParseStreamInf(Strip(lines[i]))
      case Ok(info) => [MakeVariant(Absolute(Strip(lines[j]), join), info)]
      case Err(_) => []
    else []
  }

  /** The segment line `i` makes: one when it is an EXTINF line and a URI line follows it. */
  function SegmentOfLine(lines: seq<string>, i: nat, join: string -> string): (u: seq<string>)
    requires i < |lines|
    ensures |u| <= 1
  {
    var j := NextUri(lines, i + 1);
    if IsExtInf(lines[i]) && j < |lines| then [Absolute(Strip(lines[j]), join)] else []
  }

  /** The variants of the lines the loop reads from line `i` on, in file order. */
  function VariantsFrom(lines: seq<string>, i: nat, join: string -> string): seq<Variant>
    decreases |lines| + 1 - i
  {
    if i >= |lines| then [] else VariantOfLine(lines, i, join) + VariantsFrom(lines, Next(lines, i), join)
  }

  /** The segments of the lines the loop reads from line `i` on, in file order. */
  function SegmentsFrom(lines: seq<string>, i: nat, join: string -> string): seq<string>
    decreases |lines| + 1 - i
  {
    if i >= |lines| then [] else SegmentOfLine(lines, i, join) + SegmentsFrom(lines, Next(lines, i), join)
  }

  /** One turn that does not raise goes on at `Next` and adds exactly the entries of its line. */
  lemma StepExactly(lines: seq<string>, i: nat, p: Playlist, join: string -> string, isFloat: string -> bool)
    requires i < |lines| && Step(lines, i, p, join, isFloat).Ok?
    ensures var (j, q) := Step(lines, i, p, join, isFloat).value;
      && j == Next(lines, i)
      && q.variants == p.variants + VariantOfLine(lines, i, join)
      && q.segments == p.segments + SegmentOfLine(lines, i, join)
      && q.isMaster == (p.isMaster || IsStreamInf(lines[i]))
  {
    var line := Strip(lines[i]);
    match KindOf(line)
    case StreamInfTag =>
      assert IsStreamInf(lines[i]) && !IsExtInf(lines[i]);
    case ExtInfTag =>
      assert IsExtInf(lines[i]) && !IsStreamInf(lines[i]);
    case _ =>
      assert !IsStreamInf(lines[i]) && !IsExtInf(lines[i]);
  }

  /**
   * The loop from line `i` adds exactly the variants and segments of the
   * lines it reads, in file order, and makes the playlist a master one exactly
   * when it reads a STREAM-INF line.
   */
  lemma {:induction false} ScanExactly(lines: seq<string>, i: nat, p: Playlist, join: string -> string, isFloat: string -> bool)
    requires ScanFrom(lines, i, p, join, isFloat).Ok?
    ensures var q := ScanFrom(lines, i, p, join, isFloat).value;
      && q.variants == p.variants + VariantsFrom(lines, i, join)
      && q.segments == p.segments + SegmentsFrom(lines, i, join)
      && q.isMaster == (p.isMaster || MasterFrom(lines, i))
    decreases |lines| + 1 - i
  {
    if i < |lines| {
      StepExactly(lines, i, p, join, isFloat);
      var next := Step(lines, i, p, join, isFloat).value;
      assert ScanFrom(lines, i, p, join, isFloat) == ScanFrom(lines, next.0, next.1, join, isFloat);
      ScanExactly(lines, next.0, next.1, join, isFloat);
      AppendAssoc(p.variants, VariantOfLine(lines, i, join), VariantsFrom(lines, next.0, join));
      AppendAssoc(p.segments, SegmentOfLine(lines, i, join), SegmentsFrom(lines, next.0, join));
    }
  }

  lemma AppendAssoc<T>(a: seq<T>, b: seq<T>, c: seq<T>)
    ensures a + b + c == a + (b + c)
  {
  }

  /**
   * A parsed playlist holds exactly one variant per STREAM-INF line the loop
   * reads that has a URI line after it, made from that line's attributes and
   * that URI, and one segment per such EXTINF line, both in file order; it is
   * a master playlist exactly when the loop reads a STREAM-INF line.
   */
  lemma ParsedExactly(content: string, join: string -> string, isFloat: string -> bool)
    requires ParsePlaylist(content, join, isFloat).Ok?
    ensures var p := ParsePlaylist(content, join, isFloat).value;
      && p.variants == VariantsFrom(Lines(content), 0, join)
      && p.segments == SegmentsFrom(Lines(content), 0, join)
      && p.isMaster == MasterFrom(Lines(content), 0)
  {
    ScanExactly(Lines(content), 0, Fresh, join, isFloat);
    ScanKeepsVod(Lines(content), 0, Fresh, join, isFloat);
  }

  /**
   * `is_master` can stay false although a STREAM-INF line occurs: a line
   * starting with '#' right after an EXTINF line is passed over while looking
   * for the segment's URI. In the lines `#EXTM3U`, `#EXTINF:1,`,
   * `#EXT-X-STREAM-INF:BANDWIDTH=1`, `v.ts` the loop reads lines 0 and 1 and
   * nothing after, and the STREAM-INF line's URI becomes a segment.
   */
  lemma StreamInfAfterExtInfNotMaster(join: string -> string)
    ensures var lines := ["#EXTM3U", "#EXTINF:1,", "#EXT-X-STREAM-INF:BANDWIDTH=1", "v.ts"];
      && IsStreamInf(lines[2])
      && !MasterFrom(lines, 0)
      && VariantsFrom(lines, 0, join) == []
      && SegmentsFrom(lines, 0, join) == [join("v.ts")]
  {
    var lines := ["#EXTM3U", "#EXTINF:1,", "#EXT-X-STREAM-INF:BANDWIDTH=1", "v.ts"];
    assert lines[2][..15][7] == 'S';
    assert lines[2][..18] == "#EXT-X-STREAM-INF:";
    assert lines[1][..8] == "#EXTINF:";
    assert Strip(lines[0]) == lines[0];
    assert Strip(lines[1]) == lines[1];
    assert Strip(lines[2]) == lines[2];
    assert Strip(lines[3]) == lines[3];
    assert IsComment(lines[2]) && !IsComment(lines[3]);
    assert NextUri(lines, 2) == 3;
    assert Next(lines, 0) == 1 && Next(lines, 1) == 4;
  }
}
