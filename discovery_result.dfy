/** What page discovery finds: links with a guessed kind. */
module DiscoveryTypes {
  import opened Common

  /** `LinkType`: what a link on a page appears to point at. */
  datatype LinkType = FileLink | MediaLink | StreamHintLink | PageLink | UnknownLink

  /** `DiscoveredLink`: one link found on a page. */
  datatype DiscoveredLink = DiscoveredLink(
    url: string,
    linkType: LinkType,
    fileSize: Option<int>,
    title: Option<string>,
    mimeType: Option<string>)

  /** `DiscoveryResult`: the links kept and the counts before and after filtering. */
  datatype DiscoveryResult = DiscoveryResult(
    links: seq<DiscoveredLink>,
    totalFound: int,
    totalFiltered: int,
    pageTitle: Option<string>)
}
