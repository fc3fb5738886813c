/** The values the search provider exchanges with its search backends: the
    torrent sites, the sort orders, one search result, and the exceptions the
    provider can raise or catch. The enumerations' full lists of members and
    their `fromCode` lookups are not part of this model; only the defaults the
    provider names are distinguished. */
module Torrents {

  /** A torrent site; `Mininova` is the provider's default, `OtherSite`
      stands for every other member of the enumeration. */
  datatype TorrentSite = Mininova | OtherSite(name: string)

  /** A result ordering; `BySeeders` is the provider's default, `OtherOrder`
      stands for every other member of the enumeration. */
  datatype SortOrder = BySeeders | OtherOrder(name: string)

  const DefaultSite: TorrentSite := Mininova
  const DefaultOrder: SortOrder := BySeeders

  /** One item found by a site's search, as its seven getters report it. */
  datatype SearchResult = SearchResult(
    title: string,
    torrentUrl: string,
    detailsUrl: string,
    size: string,
    addedDate: string,
    seeds: int,
    leechers: int)

  /** The exceptions involved: the three the provider raises itself or by a
      null dereference, and any failure raised inside a search backend. */
  datatype Exn =
    | IllegalArgument
    | UnsupportedOperation
    | NullPointer
    | BackendFailure(reason: string)

  /** The outcome of a call into a backend: a value, or the exception it threw. */
  datatype Result<+T> = Success(value: T) | Failure(error: Exn)

  /** `fromCode` of either enumeration: the member for a code, or None where
      the lookup yields null. */
  type Lookup<T> = string -> Option<T>

  datatype Option<+T> = None | Some(value: T)
}
