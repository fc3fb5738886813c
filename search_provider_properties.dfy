/** Properties of the search provider's router that relate several of its
    operations or hold across all collaborators: what each path shape makes the
    router ask a site for, when no search happens at all, what survives a
    failure inside the try block, and how `getType` and `query` agree. */
module SearchProviderProperties {
  import opened UriMatching
  import opened Torrents
  import opened SearchProvider

  /** Shape detection is exact: adding a segment to a matched path never
      leaves it with the same shape. */
  lemma ExtraSegmentChangesShape(path: seq<string>, s: string)
    requires Match(path) != NoMatch
    ensures Match(path + [s]) != Match(path)
  {
  }

  /** A URI that matches no shape does not raise in `query`: the term stays
      empty, no site is searched, and the cursor has its columns and no rows. */
  lemma UnmatchedQueryYieldsEmptyTable(path: seq<string>, siteFromCode: Lookup<TorrentSite>,
                                       orderFromCode: Lookup<SortOrder>, search: Backend,
                                       getterThrows: SearchResult -> bool)
    requires Match(path) == NoMatch
    ensures QueryOutcome(path, siteFromCode, orderFromCode, search, getterThrows) == Rows(Columns, [])
  {
  }

  /** With an empty term the site's search is never called: the outcome is the
      same whatever the backend and its results do. */
  lemma EmptyTermNeverSearches(path: seq<string>, siteFromCode: Lookup<TorrentSite>,
                               orderFromCode: Lookup<SortOrder>, search1: Backend, search2: Backend,
                               getterThrows1: SearchResult -> bool, getterThrows2: SearchResult -> bool)
    requires Resolve(path, siteFromCode, orderFromCode).term == ""
    ensures QueryOutcome(path, siteFromCode, orderFromCode, search1, getterThrows1)
         == QueryOutcome(path, siteFromCode, orderFromCode, search2, getterThrows2)
  {
  }

  /** `search/{term}`: Mininova is searched for the term by seeders, 30 results
      asked for. */
  lemma SearchTermQuery(path: seq<string>, siteFromCode: Lookup<TorrentSite>,
                        orderFromCode: Lookup<SortOrder>, search: Backend,
                        getterThrows: SearchResult -> bool)
    requires |path| == 2 && path[0] == SearchPrefix && path[1] != ""
    ensures QueryOutcome(path, siteFromCode, orderFromCode, search, getterThrows)
         == Rows(Columns, CaughtRows(search(Mininova, path[1], BySeeders, MaxResults), getterThrows))
  {
  }

  /** `search/{site}/{term}`: the site the code names is searched for the
      term by seeders; an unknown site code raises. */
  lemma SiteAndSearchTermQuery(path: seq<string>, siteFromCode: Lookup<TorrentSite>,
                               orderFromCode: Lookup<SortOrder>, search: Backend,
                               getterThrows: SearchResult -> bool)
    requires |path| == 3 && path[0] == SearchPrefix
    ensures siteFromCode(path[1]).None? ==>
      QueryOutcome(path, siteFromCode, orderFromCode, search, getterThrows) == Error(NullPointer)
    ensures siteFromCode(path[1]).Some? && path[2] != "" ==>
      QueryOutcome(path, siteFromCode, orderFromCode, search, getterThrows)
      == Rows(Columns, CaughtRows(search(siteFromCode(path[1]).value, path[2], BySeeders, MaxResults), getterThrows))
  {
  }

  /** `search/{site}/{term}/{order}`: the named site is searched for the term
      in the named order; an unknown site or order code raises. */
  lemma FullySpecifiedQuery(path: seq<string>, siteFromCode: Lookup<TorrentSite>,
                            orderFromCode: Lookup<SortOrder>, search: Backend,
                            getterThrows: SearchResult -> bool)
    requires |path| == 4 && path[0] == SearchPrefix
    ensures siteFromCode(path[1]).None? || orderFromCode(path[3]).None? ==>
      QueryOutcome(path, siteFromCode, orderFromCode, search, getterThrows) == Error(NullPointer)
    ensures siteFromCode(path[1]).Some? && orderFromCode(path[3]).Some? && path[2] != "" ==>
      QueryOutcome(path, siteFromCode, orderFromCode, search, getterThrows)
      == Rows(Columns, CaughtRows(search(siteFromCode(path[1]).value, path[2], orderFromCode(path[3]).value, MaxResults),
                                  getterThrows))
  {
  }

  /** When no getter throws, every result becomes a row: the router does not
      cut the list to the 30 it asked for. */
  lemma CaughtRowsKeepsEveryResult(results: seq<SearchResult>, getterThrows: SearchResult -> bool)
    requires forall j :: 0 <= j < |results| ==> !getterThrows(results[j])
    ensures CaughtRows(Success(results), getterThrows) == Projection(results)
  {
  }

  /** When the getters of result k are the first to throw, the cursor keeps
      exactly the k rows added before it. */
  lemma CaughtRowsStopsAtFirstThrow(results: seq<SearchResult>, getterThrows: SearchResult -> bool, k: nat)
    requires k < |results| && getterThrows(results[k])
    requires forall j :: 0 <= j < k ==> !getterThrows(results[j])
    ensures CaughtRows(Success(results), getterThrows) == Projection(results)[..k]
  {
  }

  /** In every table `query` returns, the ids count up from 0 in row order. */
  lemma QueryRowsAreNumberedResults(path: seq<string>, siteFromCode: Lookup<TorrentSite>,
                                    orderFromCode: Lookup<SortOrder>, search: Backend,
                                    getterThrows: SearchResult -> bool)
    ensures var o := QueryOutcome(path, siteFromCode, orderFromCode, search, getterThrows);
      o.Rows? ==> forall i :: 0 <= i < |o.rows| ==> o.rows[i].id == i
  {
  }

  /** Every URI `getType` accepts is answered by `query` with a table, whatever
      the collaborators; the converse fails for the two- and three-segment shapes. */
  lemma GetTypeAcceptsOnlyTableUris(path: seq<string>, siteFromCode: Lookup<TorrentSite>,
                                    orderFromCode: Lookup<SortOrder>, search: Backend,
                                    getterThrows: SearchResult -> bool)
    ensures GetType(path).TypeString? ==> QueryOutcome(path, siteFromCode, orderFromCode, search, getterThrows).Rows?
    ensures 3 <= |path| <= 4 && path[0] == SearchPrefix ==> GetType(path) == Error(IllegalArgument)
  {
  }

  /** A row read back as the result it was made from, ignoring its id. */
  function ResultOf(row: Row): SearchResult {
    SearchResult(row.name, row.torrentUrl, row.detailsUrl, row.size, row.added, row.seeders, row.leechers)
  }

  /** The rows of a table read back as results, in row order. */
  function ResultsOf(rows: seq<Row>): (results: seq<SearchResult>)
    ensures |results| == |rows|
  {
    if rows == [] then []
    else ResultsOf(rows[..|rows| - 1]) + [ResultOf(rows[|rows| - 1])]
  }

  /** The row projection loses nothing: reading the rows back gives the
      site's result list, in the site's order. */
  lemma {:induction false} ProjectionLosesNothing(results: seq<SearchResult>)
    ensures ResultsOf(Projection(results)) == results
  {
    if results != [] {
      var n := |results| - 1;
      var rows := Projection(results);
      assert rows[..n] == Projection(results[..n]);
      ProjectionLosesNothing(results[..n]);
      assert results == results[..n] + [results[n]];
    }
  }
}
