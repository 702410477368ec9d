/**
 * `HlsVariantProcessor`: the display label, the media type and the detail
 * line shown for a variant. Python's truth test applies to the optional
 * fields: a text counts when present and non-empty, a number when present
 * and non-zero.
 */
module HlsVariants {
  import opened Common
  import opened Strings
  import opened HlsTypes
  import opened HlsManifest

  /** A text field Python treats as true. */
  predicate Given(s: Option<string>) {
    s.Some? && s.value != ""
  }

  /** A number field Python treats as true. */
  predicate NonZero(n: Option<int>) {
    n.Some? && n.value != 0
  }

  /** The unit a bandwidth is shown in: Mbps from 1 000 000 bit/s up, kbps below. */
  function Unit(bandwidth: int): int {
    if bandwidth >= 1000000 then 1000000 else 1000
  }

  function UnitName(bandwidth: int): string {
    if bandwidth >= 1000000 then " Mbps" else " kbps"
  }

  /** `f"{bw // 1000000} Mbps"` or `f"{bw // 1000} kbps"`; `//` rounds down, as `/` does for a positive divisor. */
  function RateText(bandwidth: int): string {
    IntToString(bandwidth / Unit(bandwidth)) + UnitName(bandwidth)
  }

  /** `_get_display_label(variant)`. */
  function DisplayLabel(v: Variant): (shown: string)
    ensures shown != ""
  {
    if Given(v.resolution) then (if Given(v.qualityLabel) then v.qualityLabel.value else v.resolution.value)
    else if NonZero(v.bandwidth) then "~" + RateText(v.bandwidth.value)
    else "Unknown Quality"
  }

  /** The codecs name an audio codec (mp4a or aac) and no video codec (avc or h264), in any case. */
  predicate AudioOnly(codecs: Option<string>) {
    Given(codecs)
    && (Contains(Lower(codecs.value), "mp4a") || Contains(Lower(codecs.value), "aac"))
    && !Contains(Lower(codecs.value), "avc") && !Contains(Lower(codecs.value), "h264")
  }

  /** `_get_media_type(variant)`. */
  function MediaType(v: Variant): (kind: string)
    ensures kind == "audio" || kind == "video"
  {
    if AudioOnly(v.codecs) then "audio" else "video"
  }

  /** The entries of the detail line: the codecs, the resolution and the bandwidth, each when given. */
  function DetailParts(v: Variant): seq<string> {
    (if Given(v.codecs) then [v.codecs.value] else [])
    + (if Given(v.resolution) then [v.resolution.value] else [])
    + (if NonZero(v.bandwidth) then [RateText(v.bandwidth.value)] else [])
  }

  /** `_get_details(variant)`. */
  function Details(v: Variant): (text: string)
    ensures text != ""
  {
    var parts := DetailParts(v);
    if parts == [] then "Unknown" else Join(parts, ", ")
  }

  // ---------------------------------------------------------------------------
  // Properties
  // ---------------------------------------------------------------------------

  /**
   * The number in a bandwidth text reads back as the bandwidth rounded down
   * to whole units of the unit named after it.
   */
  lemma RateTextReadsBack(bandwidth: int)
    ensures var u := Unit(bandwidth);
      var n := bandwidth / u;
      && RateText(bandwidth) == IntToString(n) + UnitName(bandwidth)
      && ParseInt(IntToString(n)) == Some(n)
      && n * u <= bandwidth < (n + 1) * u
  {
    IntToStringParses(bandwidth / Unit(bandwidth));
    DivBounds(bandwidth, Unit(bandwidth));
  }

  lemma DivBounds(a: int, u: int)
    requires u > 0
    ensures (a / u) * u <= a < (a / u + 1) * u
  {
  }

  /**
   * A variant the manifest parser built from a `<width>x<height>` resolution
   * is displayed with the label of its height.
   */
  lemma ParsedVariantLabel(uri: string, info: StreamInf, width: nat, height: nat)
    requires info.resolution == Some(NatToString(width) + "x" + NatToString(height))
    ensures DisplayLabel(MakeVariant(uri, info)) == HeightLabel(height)
  {
    ResolutionLabel(width, height, info.bandwidth);
  }

  /** Without a resolution or a non-zero bandwidth the label is "Unknown Quality", and only then shows a rate. */
  lemma LabelWithoutResolution(v: Variant)
    requires !Given(v.resolution)
    ensures NonZero(v.bandwidth) ==> DisplayLabel(v) == "~" + RateText(v.bandwidth.value)
    ensures !NonZero(v.bandwidth) <==> DisplayLabel(v) == "Unknown Quality"
  {
    if NonZero(v.bandwidth) {
      assert DisplayLabel(v)[0] == '~';
    }
  }

  /** The media type does not depend on the case of the codecs. */
  lemma MediaTypeCaseInsensitive(v: Variant, codecs: string)
    ensures MediaType(v.(codecs := Some(codecs))) == MediaType(v.(codecs := Some(Lower(codecs))))
  {
    LowerIdempotent(codecs);
  }

  /** The detail line names every field that is given. */
  lemma DetailsNameFields(v: Variant)
    ensures Given(v.codecs) ==> Contains(Details(v), v.codecs.value)
    ensures Given(v.resolution) ==> Contains(Details(v), v.resolution.value)
    ensures NonZero(v.bandwidth) ==> Contains(Details(v), RateText(v.bandwidth.value))
    ensures Details(v) == "Unknown" <== !Given(v.codecs) && !Given(v.resolution) && !NonZero(v.bandwidth)
  {
    var parts := DetailParts(v);
    forall k | 0 <= k < |parts| ensures Contains(Details(v), parts[k]) {
      JoinContains(parts, ", ", k);
    }
    if Given(v.codecs) {
      assert parts[0] == v.codecs.value;
    }
    if Given(v.resolution) {
      var k := if Given(v.codecs) then 1 else 0;
      assert parts[k] == v.resolution.value;
    }
    if NonZero(v.bandwidth) {
      assert parts[|parts| - 1] == RateText(v.bandwidth.value);
    }
  }

  /** Every part occurs in the joined text. */
  lemma {:induction false} JoinContains(parts: seq<string>, sep: string, k: nat)
    requires k < |parts|
    ensures Contains(Join(parts, sep), parts[k])
    decreases |parts|
  {
    var s := Join(parts, sep);
    if |parts| == 1 {
      ContainsAt(s, parts[0], 0);
    } else if k == 0 {
      assert s == parts[0] + (sep + Join(parts[1..], sep));
      ContainsAt(s, parts[0], 0);
    } else {
      var rest := Join(parts[1..], sep);
      JoinContains(parts[1..], sep, k - 1);
      assert s == (parts[0] + sep) + rest;
      ContainsSuffix(parts[0] + sep, rest, parts[k]);
    }
  }

  /** Text found in a suffix is found in the whole. */
  lemma {:induction false} ContainsSuffix(a: string, b: string, sub: string)
    requires Contains(b, sub)
    ensures Contains(a + b, sub)
    decreases |a|
  {
    if a != [] {
      ContainsSuffix(a[1..], b, sub);
      assert (a + b)[1..] == a[1..] + b;
    } else {
      assert a + b == b;
    }
  }
}
