/** What the grabber reports for a URL: the kind of URL and the items found behind it. */
module GrabberTypes {
  import opened Common

  /** `UrlType`: how the resolver classified the URL. */
  datatype UrlType = DirectFile | HtmlPage | StreamHint | Unknown

  /** `ItemType`: the kind of one downloadable item. */
  datatype ItemType = FileItem | MediaItem | StreamItem

  /** `GrabberItem`: one item that can be downloaded. */
  datatype GrabberItem = GrabberItem(
    url: string,
    itemType: ItemType,
    fileSize: Option<int>,
    title: Option<string>,
    mimeType: Option<string>,
    filename: Option<string>)

  /** `GrabberResult`: the items, the URL they came from and the counts. */
  datatype GrabberResult = GrabberResult(
    items: seq<GrabberItem>,
    sourceUrl: string,
    urlType: UrlType,
    pageTitle: Option<string>,
    totalFound: int,
    totalFiltered: int)

  /** A result with no items and zero counts, as the handlers build on failure. */
  function EmptyResult(url: string, urlType: UrlType): GrabberResult {
    GrabberResult([], url, urlType, None, 0, 0)
  }
}
