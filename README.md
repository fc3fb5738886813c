# Transdroid torrent search provider: the request router

This project models the request router of Transdroid Torrent Search's
`TorrentSearchProvider`. It is the Android content provider that other apps
query for torrent search results. The model covers these parts:

- **Shape classification.** The provider registers three URI path shapes with
  its `UriMatcher`: `search` followed by one, two or three segments. A URI is
  taken as its list of path segments, and the match is by exact segment count
  (`UriMatching.Match`).
- **Parameter resolution.** `query` resolves a term, a site and an order from
  the shape through three successive `if`s. It falls back to Mininova and
  BySeeders (`SearchProvider.Resolve`).
- **Null dereference.** The debug log line dereferences the site and the
  order. This happens before the guard and outside the try block, so an unknown
  site or order code raises a NullPointerException.
- **Search guard.** A search runs only for a non-empty term, and it asks for
  30 results.
- **Row projection.** Each result becomes an 8-column row with an id counting
  up from 0. Everything inside the try block is caught, so a throwing search
  leaves no rows, and a throwing getter leaves the rows added before it
  (`SearchProvider.Query`, specified by `SearchProvider.QueryOutcome`).
- **Other operations.** `getType` answers only for the one-segment shape.
  `insert`, `delete` and `update` always raise UnsupportedOperationException.

The code the router calls but that is not part of this model is passed in as
function parameters:

- `TorrentSite.fromCode` and `SortOrder.fromCode` are partial lookups. `None`
  stands for null.
- `site.search` returns a result list or the exception it throws.
- `getterThrows` says whether reading one result's getters throws.

The `MatrixCursor` the router fills is a class with fixed column names and a
row sequence that `AddRow` appends to.

Three behaviours of `query` are easy to misread:

- An unknown site or order code raises (NullPointerException at
  `TorrentSearchProvider.java:139`); it does not yield an empty table. As a
  result, the null tests in the guard on line 140 never decide anything.
- A URI matching no shape gives `query` an empty table, not an error. Only
  `getType` rejects it.
- The router does not truncate the results to 30. It only passes 30 to the
  site.

## Model

| member | source | states |
|---|---|---|
| `UriMatching.FirstMatch` | src/org/transdroid/search/TorrentSearchProvider.java:55-60 | the matcher returns the code of the first registered pattern matching the path, or NO_MATCH if none does |
| `UriMatching.Match` | src/org/transdroid/search/TorrentSearchProvider.java:55-60 | shapes 1, 2 and 3 match exactly when the path is `search` followed by exactly 1, 2 or 3 segments; every other path is NO_MATCH |
| `SearchProviderProperties.ExtraSegmentChangesShape` | src/org/transdroid/search/TorrentSearchProvider.java:55-60 | matching is not by prefix: one more segment on a matched path never yields the same shape |
| `SearchProvider.Resolve` | src/org/transdroid/search/TorrentSearchProvider.java:117-137 | shape 1 gives (seg 1, Mininova, BySeeders); shape 2 gives (seg 2, fromCode(seg 1), BySeeders); shape 3 gives (seg 2, fromCode(seg 1), fromCode(seg 3)); an unmatched path keeps the empty term and the defaults |
| `SearchProvider.QueryOutcome` | src/org/transdroid/search/TorrentSearchProvider.java:109-168 | `query` raises exactly when a site or order code in a shape-2 or shape-3 path resolves to null, and then it is a NullPointerException; otherwise it returns the eight fixed columns; an empty term yields no rows |
| `SearchProvider.Query` | src/org/transdroid/search/TorrentSearchProvider.java:109-168 | the imperative `query` (three shape tests, the null dereference, the guard, the search, the row loop with its `id++` counter and its catch) yields exactly `QueryOutcome` |
| `SearchProvider.MatrixCursor.constructor` | src/org/transdroid/search/TorrentSearchProvider.java:114-115 | a new cursor has the given column names and no rows |
| `SearchProvider.MatrixCursor.AddRow` | src/org/transdroid/search/TorrentSearchProvider.java:157 | `addRow` appends one row after the existing ones |
| `SearchProvider.Projection` | src/org/transdroid/search/TorrentSearchProvider.java:146-158 | the projection has one row per result, and row i has id i and the title, torrent URL, details URL, size, added date, seeds and leechers of result i |
| `SearchProvider.FirstThrow` | src/org/transdroid/search/TorrentSearchProvider.java:147-159 | the loop reaches index k, the first result whose getters throw, or the end of the list; no result before k throws |
| `SearchProvider.CaughtRows` | src/org/transdroid/search/TorrentSearchProvider.java:143-162 | a throwing search leaves no rows; otherwise the rows are a prefix of the full projection, and they are all of it exactly when no getter throws |
| `SearchProviderProperties.UnmatchedQueryYieldsEmptyTable` | src/org/transdroid/search/TorrentSearchProvider.java:114-140 | an unmatched URI does not raise in `query`: the cursor has the eight columns and no rows |
| `SearchProviderProperties.EmptyTermNeverSearches` | src/org/transdroid/search/TorrentSearchProvider.java:140 | with an empty term the outcome does not depend on the site's search or on the results' getters, so the search is never made |
| `SearchProviderProperties.SearchTermQuery` | src/org/transdroid/search/TorrentSearchProvider.java:117-144 | `search/{term}` searches Mininova for the term by seeders with maxResults 30 |
| `SearchProviderProperties.SiteAndSearchTermQuery` | src/org/transdroid/search/TorrentSearchProvider.java:130-144 | `search/{site}/{term}` raises for an unknown site code, else searches that site by seeders with maxResults 30 |
| `SearchProviderProperties.FullySpecifiedQuery` | src/org/transdroid/search/TorrentSearchProvider.java:123-144 | `search/{site}/{term}/{order}` raises for an unknown site or order code, else searches that site in that order with maxResults 30 |
| `SearchProviderProperties.CaughtRowsKeepsEveryResult` | src/org/transdroid/search/TorrentSearchProvider.java:144-158 | when no getter throws, every backend result becomes a row, with no truncation to 30 |
| `SearchProviderProperties.CaughtRowsStopsAtFirstThrow` | src/org/transdroid/search/TorrentSearchProvider.java:143-162 | when the getters of result k are the first to throw, the cursor keeps exactly the first k rows of the projection |
| `SearchProviderProperties.QueryRowsAreNumberedResults` | src/org/transdroid/search/TorrentSearchProvider.java:146-149 | in every table `query` returns, row i has id i |
| `SearchProviderProperties.ProjectionLosesNothing` | src/org/transdroid/search/TorrentSearchProvider.java:147-157 | reading the rows back gives the backend's result list unchanged and in the backend's order |
| `SearchProvider.GetType` | src/org/transdroid/search/TorrentSearchProvider.java:76-82 | `getType` returns `vnd.android.cursor.dir/vnd.transdroid.torrent` exactly for the one-segment shape; every other URI raises IllegalArgumentException |
| `SearchProviderProperties.GetTypeAcceptsOnlyTableUris` | src/org/transdroid/search/TorrentSearchProvider.java:76-82 | every URI `getType` accepts gets a table from `query`; the two- and three-segment shapes are rejected by `getType` |
| `SearchProvider.Insert` | src/org/transdroid/search/TorrentSearchProvider.java:90-92 | `insert` raises UnsupportedOperationException for every URI and every set of values |
| `SearchProvider.Delete` | src/org/transdroid/search/TorrentSearchProvider.java:67-69 | `delete` raises UnsupportedOperationException for every URI and selection |
| `SearchProvider.Update` | src/org/transdroid/search/TorrentSearchProvider.java:176-178 | `update` raises UnsupportedOperationException for every URI, set of values and selection |

## Left out

- URI parsing and percent-decoding, and the authority check of `UriMatcher`. These are framework code; a URI is its list of decoded path segments.
- The trie inside `UriMatcher`. It is modelled as a list of registrations matched by exact length. This gives the same answer for the three registered patterns.
- The bodies of `TorrentSite.fromCode` and `SortOrder.fromCode`, and the full member lists of the two enumerations. Each enumeration is modelled only as its default (Mininova, BySeeders) plus one catch-all variant for every other member; the lookups are parameters.
- `site.search` and the per-site scrapers. They do network I/O and are not part of this model; the search is a parameter that returns results or an exception.
- SearchResult is modelled only as a record of the values its seven getters return: size and added date as strings, seeds and leechers as integers. Whether reading them throws is a parameter.
- The `projection`, `selection`, `selectionArgs` and `sortOrder` arguments of `query`. The code ignores them.
- `Log.d`, `printStackTrace` and the text of exception messages. These are logging only.
- `setNotificationUri` and `getContext()`, a side effect with no observable logic, and `onCreate`, a lifecycle hook that returns false.
- `MatrixCursor` internals, including its check of the row width. Every row here is an 8-field value.
- Java `Error`s (as opposed to `Exception`s) thrown inside the try block. The catch does not take them, and the model has no such failure.
- The 32-bit range of the `id` counter. Ids stay below the length of a Java list, so they cannot wrap.
