/** The values the HLS analysis produces: stream kinds and the variants of a master playlist. */
module HlsTypes {
  import opened Common

  /** `StreamType`: a finished video on demand, a live stream, or an event stream. */
  datatype StreamType = Vod | Live | Event

  /** The text of a stream type, `StreamType.value`. */
  function StreamTypeValue(t: StreamType): string {
    match t
    case Vod => "vod"
    case Live => "live"
    case Event => "event"
  }

  /** `HlsVariant`: one rendition a master playlist offers. */
  datatype Variant = Variant(
    uri: string,
    bandwidth: Option<int>,
    resolution: Option<string>,
    codecs: Option<string>,
    audioGroup: Option<string>,
    subtitleGroup: Option<string>,
    qualityLabel: Option<string>,
    estimatedSize: Option<int>)

  /** `HlsResult`, without the float duration and the has-audio/video/subtitles flags. */
  datatype HlsResult = HlsResult(
    variants: seq<Variant>,
    streamType: StreamType,
    masterUrl: string,
    title: Option<string>)
}
