/** The request router of the torrent search provider: it classifies a URI by
    its path shape, resolves the search term, site and order (with defaults),
    runs the site's search when the term is non-empty, and projects every result
    into an 8-column row of a cursor. `getType` answers only for the one-segment
    shape; insert, delete and update are unsupported.

    The collaborators the router calls but whose code is not modelled are
    parameters: `siteFromCode` and `orderFromCode` (the enumerations' `fromCode`,
    None standing for null), `search` (a site's search, which returns results or
    throws) and `getterThrows` (whether reading one result's getters throws). */
module SearchProvider {
  import opened UriMatching
  import opened Torrents

  /** The cursor's column names, in order; `_ID` is the row id. */
  const Columns: seq<string> :=
    ["_ID", "NAME", "TORRENTURL", "DETAILSURL", "SIZE", "ADDED", "SEEDERS", "LEECHERS"]

  /** The number of results the router asks a site for. */
  const MaxResults: int := 30

  /** The content type `getType` reports for a search URI. */
  const ContentType: string := "vnd.android.cursor.dir/vnd.transdroid.torrent"

  /** One cursor row: a synthetic id followed by the seven fields of a result. */
  datatype Row = Row(
    id: int,
    name: string,
    torrentUrl: string,
    detailsUrl: string,
    size: string,
    added: string,
    seeders: int,
    leechers: int)

  /** What a provider call yields: a cursor's columns and rows, a content
      type, or the exception it raises. */
  datatype Outcome =
    | Rows(columns: seq<string>, rows: seq<Row>)
    | TypeString(contentType: string)
    | Error(kind: Exn)

  /** A site's search: (site, term, order, maxResults) to results or an exception. */
  type Backend = (TorrentSite, string, SortOrder, int) -> Result<seq<SearchResult>>

  /** The cursor the router fills: fixed column names and rows appended in order. */
  class MatrixCursor {
    const columnNames: seq<string>
    var rows: seq<Row>

    constructor (columnNames: seq<string>)
      ensures this.columnNames == columnNames && rows == []
    {
      this.columnNames := columnNames;
      rows := [];
    }

    method AddRow(values: Row)
      modifies this
      ensures rows == old(rows) + [values]
    {
      rows := rows + [values];
    }
  }

  /** The row for a result, with the given id. */
  function ToRow(id: int, r: SearchResult): Row {
    Row(id, r.title, r.torrentUrl, r.detailsUrl, r.size, r.addedDate, r.seeds, r.leechers)
  }

  /** The rows of a result list, numbered from 0 in list order. */
  function Projection(results: seq<SearchResult>): (rows: seq<Row>)
    ensures |rows| == |results|
    ensures forall i :: 0 <= i < |results| ==> rows[i] == ToRow(i, results[i])
  {
    if results == [] then []
    else
      var n := |results| - 1;
      Projection(results[..n]) + [ToRow(n, results[n])]
  }

  /** The index of the first result whose getters throw, or the length of the list. */
  function FirstThrow(results: seq<SearchResult>, getterThrows: SearchResult -> bool): (k: nat)
    ensures k <= |results|
    ensures forall j :: 0 <= j < k ==> !getterThrows(results[j])
    ensures k < |results| ==> getterThrows(results[k])
  {
    if results == [] || getterThrows(results[0]) then 0
    else 1 + FirstThrow(results[1..], getterThrows)
  }

  /** The rows left in the cursor when the search and the projection loop run
      inside a try block whose exceptions are caught: none if the search throws,
      else the rows added before the first result whose getters throw. */
  function CaughtRows(found: Result<seq<SearchResult>>, getterThrows: SearchResult -> bool): (rows: seq<Row>)
    ensures found.Failure? ==> rows == []
    ensures found.Success? ==> rows <= Projection(found.value)
    ensures found.Success? ==>
      (|rows| == |found.value| <==> forall j :: 0 <= j < |found.value| ==> !getterThrows(found.value[j]))
  {
    match found
    case Failure(_) => []
    case Success(results) =>
      var k := FirstThrow(results, getterThrows);
      var rows := Projection(results[..k]);
      assert rows == Projection(results)[..k];
      rows
  }

  /** The term, site and order the router settles on; None is a null site or order. */
  datatype Resolution = Resolution(term: string, site: Option<TorrentSite>, order: Option<SortOrder>)

  /** Resolution by path shape: the term from the segment after the site code
      (or after `search` alone), the site and order from their codes, and the
      defaults Mininova and BySeeders for what the shape does not give. */
  function Resolve(path: seq<string>, siteFromCode: Lookup<TorrentSite>, orderFromCode: Lookup<SortOrder>): (r: Resolution)
    ensures |path| == 2 && path[0] == SearchPrefix ==>
      r == Resolution(path[1], Some(DefaultSite), Some(DefaultOrder))
    ensures |path| == 3 && path[0] == SearchPrefix ==>
      r == Resolution(path[2], siteFromCode(path[1]), Some(DefaultOrder))
    ensures |path| == 4 && path[0] == SearchPrefix ==>
      r == Resolution(path[2], siteFromCode(path[1]), orderFromCode(path[3]))
    ensures Match(path) == NoMatch ==> r == Resolution("", Some(DefaultSite), Some(DefaultOrder))
  {
    match Match(path)
    case NoMatch => Resolution("", Some(DefaultSite), Some(DefaultOrder))
    case SearchTerm => Resolution(path[1], Some(DefaultSite), Some(DefaultOrder))
    case SiteAndSearchTerm => Resolution(path[2], siteFromCode(path[1]), Some(DefaultOrder))
    case SiteSearchTermAndOrder => Resolution(path[2], siteFromCode(path[1]), orderFromCode(path[3]))
  }

  /** A site or order code in the path whose lookup yields null. */
  predicate UnknownCode(path: seq<string>, siteFromCode: Lookup<TorrentSite>, orderFromCode: Lookup<SortOrder>) {
    && 3 <= |path| <= 4
    && path[0] == SearchPrefix
    && (siteFromCode(path[1]).None? || (|path| == 4 && orderFromCode(path[3]).None?))
  }

  /** What `query` yields for a URI. A null site or order is dereferenced for
      the debug log before any guard, outside the try block, so it raises; every
      other URI, matched or not, yields a cursor with the eight columns. */
  function QueryOutcome(path: seq<string>, siteFromCode: Lookup<TorrentSite>, orderFromCode: Lookup<SortOrder>,
                        search: Backend, getterThrows: SearchResult -> bool): (o: Outcome)
    ensures o.Error? <==> UnknownCode(path, siteFromCode, orderFromCode)
    ensures o.Error? ==> o.kind == NullPointer
    ensures !UnknownCode(path, siteFromCode, orderFromCode) ==> o.Rows? && o.columns == Columns
    ensures Resolve(path, siteFromCode, orderFromCode).term == "" ==> o.Error? || o == Rows(Columns, [])
  {
    var req := Resolve(path, siteFromCode, orderFromCode);
    if req.site.None? || req.order.None? then Error(NullPointer)
    else if req.term != "" && req.site.Some? && req.order.Some? then
      Rows(Columns, CaughtRows(search(req.site.value, req.term, req.order.value, MaxResults), getterThrows))
    else
      Rows(Columns, [])
  }

  /** `query`: resolve the request through three successive shape tests, then
      search and append one row per result, counting ids up from 0. */
  method Query(path: seq<string>, siteFromCode: Lookup<TorrentSite>, orderFromCode: Lookup<SortOrder>,
               search: Backend, getterThrows: SearchResult -> bool) returns (o: Outcome)
    ensures o == QueryOutcome(path, siteFromCode, orderFromCode, search, getterThrows)
  {
    var curs := new MatrixCursor(Columns);
    var term := "";
    var order := Some(DefaultOrder);
    var site := Some(DefaultSite);
    if Match(path) == SiteSearchTermAndOrder {
      site := siteFromCode(path[1]);
      term := path[2];
      order := orderFromCode(path[3]);
    }
    if Match(path) == SiteAndSearchTerm {
      site := siteFromCode(path[1]);
      term := path[2];
    }
    if Match(path) == SearchTerm {
      term := path[1];
    }
    // The debug log dereferences site and order before the guard.
    if site.None? || order.None? {
      return Error(NullPointer);
    }
    if term != "" && site.Some? && order.Some? {
      var found := search(site.value, term, order.value, MaxResults);
      if found.Success? {
        var results := found.value;
        var id := 0;
        var i := 0;
        while i < |results| && !getterThrows(results[i])
          invariant 0 <= i <= |results|
          invariant id == i
          invariant forall j :: 0 <= j < i ==> !getterThrows(results[j])
          invariant curs.columnNames == Columns
          invariant curs.rows == Projection(results[..i])
        {
          assert results[..i + 1][..i] == results[..i];
          curs.AddRow(ToRow(id, results[i]));
          id := id + 1;
          i := i + 1;
        }
        assert i == FirstThrow(results, getterThrows);
      }
    }
    o := Rows(curs.columnNames, curs.rows);
  }

  /** `getType`: the content type for the one-segment search shape; every other
      URI raises IllegalArgumentException. */
  function GetType(path: seq<string>): (o: Outcome)
    ensures o.TypeString? <==> |path| == 2 && path[0] == SearchPrefix
    ensures o.TypeString? ==> o.contentType == ContentType
    ensures !o.TypeString? ==> o == Error(IllegalArgument)
  {
    match Match(path)
    case SearchTerm => TypeString(ContentType)
    case _ => Error(IllegalArgument)
  }

  /** `insert`: unsupported for every URI and every set of values. */
  function Insert(path: seq<string>, values: map<string, string>): (o: Outcome)
    ensures o == Error(UnsupportedOperation)
  {
    Error(UnsupportedOperation)
  }

  /** `delete`: unsupported for every URI and every selection. */
  function Delete(path: seq<string>, selection: string, selectionArgs: seq<string>): (o: Outcome)
    ensures o == Error(UnsupportedOperation)
  {
    Error(UnsupportedOperation)
  }

  /** `update`: unsupported for every URI, set of values and selection. */
  function Update(path: seq<string>, values: map<string, string>, selection: string, selectionArgs: seq<string>): (o: Outcome)
    ensures o == Error(UnsupportedOperation)
  {
    Error(UnsupportedOperation)
  }
}
