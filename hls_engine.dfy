/**
 * `HlsEngine`: turns the variants of an analysed master playlist into
 * grabber items, names the file of each variant, and reads back what a
 * selected item says about its variant.
 */
module HlsEngine {
  import opened Common
  import opened Strings
  import opened HlsTypes
  import opened HlsVariants
  import opened GrabberTypes

  /** The MIME type every HLS item carries. */
  const HlsMime := "application/vnd.apple.mpegurl"

  /** `variant.quality_label or default`. */
  function QualityOr(v: Variant, default: string): string {
    if Given(v.qualityLabel) then v.qualityLabel.value else default
  }

  /** `_get_variant_filename(variant, stream_type)`. */
  function VariantFilename(v: Variant, t: StreamType): string {
    var quality := QualityOr(v, "quality");
    var kind := Lower(Upper(StreamTypeValue(t)));
    if AudioOnly(v.codecs) then "audio_" + quality + "_" + kind + ".m4a"
    else "video_" + quality + "_" + kind + ".mp4"
  }

  /** The title of a variant's item: its quality and the stream type in capitals. */
  function ItemTitle(v: Variant, t: StreamType): string {
    QualityOr(v, "HLS Variant") + " - " + Upper(StreamTypeValue(t))
  }

  /** The grabber item `convert_to_grabber_result` builds for one variant. */
  function ItemOf(v: Variant, t: StreamType): GrabberItem {
    GrabberItem(v.uri, StreamItem, v.estimatedSize, Some(ItemTitle(v, t)), Some(HlsMime), Some(VariantFilename(v, t)))
  }

  /**
   * `convert_to_grabber_result(hls_result)`: one stream item per variant, in
   * the order of the variants, and both counts equal to the number of variants.
   */
  method ConvertToGrabberResult(h: HlsResult) returns (r: GrabberResult)
    ensures |r.items| == |h.variants|
    ensures forall i | 0 <= i < |h.variants| :: r.items[i] == ItemOf(h.variants[i], h.streamType)
    ensures r.sourceUrl == h.masterUrl && r.urlType == StreamHint && r.pageTitle == h.title
    ensures r.totalFound == |h.variants| && r.totalFiltered == |h.variants|
  {
    var items: seq<GrabberItem> := [];
    for i := 0 to |h.variants|
      invariant |items| == i
      invariant forall j | 0 <= j < i :: items[j] == ItemOf(h.variants[j], h.streamType)
    {
      var item := ItemOf(h.variants[i], h.streamType);
      items := items + [item];
    }
    r := GrabberResult(items, h.masterUrl, StreamHint, h.title, |h.variants|, |h.variants|);
  }

  /** What `get_selected_variant_info(item)` reports. */
  datatype SelectedInfo = SelectedInfo(
    uri: string,
    fileSize: Option<int>,
    filename: Option<string>,
    isLive: bool,
    qualityInfo: Option<string>)

  /** `get_selected_variant_info(selected_item)`: live when the capitalised title contains "LIVE". */
  function SelectedVariantInfo(item: GrabberItem): SelectedInfo {
    var title := if item.title.Some? then item.title.value else "";
    SelectedInfo(item.url, item.fileSize, item.filename, Contains(Upper(title), "LIVE"), item.title)
  }

  // ---------------------------------------------------------------------------
  // Properties
  // ---------------------------------------------------------------------------

  /** Capitalising a word of small letters and lowering it again gives the word back. */
  lemma LowerUpperOfSmall(s: string)
    requires forall i | 0 <= i < |s| :: IsLowerLetter(s[i])
    ensures Lower(Upper(s)) == s
  {
  }

  /** The stream type in a file name is its own value, "vod", "live" or "event". */
  lemma StreamTypeInName(t: StreamType)
    ensures Lower(Upper(StreamTypeValue(t))) == StreamTypeValue(t)
  {
    LowerUpperOfSmall(StreamTypeValue(t));
  }

  /**
   * The file of a variant is named after its media type, quality and stream
   * type, and gets ".m4a" exactly when the media type is audio and ".mp4"
   * exactly when it is video.
   */
  lemma FilenameFollowsMediaType(v: Variant, t: StreamType)
    ensures var name := VariantFilename(v, t);
      && name == MediaType(v) + "_" + QualityOr(v, "quality") + "_" + StreamTypeValue(t)
                  + (if MediaType(v) == "audio" then ".m4a" else ".mp4")
      && (EndsWith(name, ".m4a") <==> MediaType(v) == "audio")
      && (EndsWith(name, ".mp4") <==> MediaType(v) == "video")
  {
    StreamTypeInName(t);
    var name := VariantFilename(v, t);
    var stem := MediaType(v) + "_" + QualityOr(v, "quality") + "_" + StreamTypeValue(t);
    if MediaType(v) == "audio" {
      assert name == stem + ".m4a";
      assert name[|name| - 4..] == ".m4a";
    } else {
      assert name == stem + ".mp4";
      assert name[|name| - 4..] == ".mp4";
    }
  }

  /**
   * The information read back from an item of a converted result is the
   * variant's URI, estimated size and file name.
   */
  lemma SelectedInfoOfItem(v: Variant, t: StreamType)
    ensures var info := SelectedVariantInfo(ItemOf(v, t));
      && info.uri == v.uri && info.fileSize == v.estimatedSize
      && info.filename == Some(VariantFilename(v, t))
      && info.qualityInfo == Some(ItemTitle(v, t))
  {
  }

  /** An item made for a live stream is read back as live. */
  lemma LiveItemIsLive(v: Variant)
    ensures SelectedVariantInfo(ItemOf(v, Live)).isLive
  {
    var title := ItemTitle(v, Live);
    var u := Upper(title);
    assert u[|u| - 4..] == "LIVE";
    ContainsEndsWith(u, "LIVE");
  }
}
