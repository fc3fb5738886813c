/** The path shapes the torrent search provider registers with its URI matcher
    (`search` followed by one, two or three wildcard segments) and the match of a URI's path
    segments against them. A URI is taken as its list of path segments; the
    authority check and the percent-decoding of segments are not modelled. */
module UriMatching {

  /** The codes registered with the matcher; NoMatch stands for NO_MATCH. */
  datatype Shape = NoMatch | SearchTerm | SiteAndSearchTerm | SiteSearchTermAndOrder

  /** One segment of a registered pattern: literal text, or `*`, which matches any text. */
  datatype PatternSegment = Literal(text: string) | AnyText

  datatype Registration = Registration(pattern: seq<PatternSegment>, code: Shape)

  const SearchPrefix: string := "search"

  /** The three registrations of the provider, in the order they are added. */
  const Registrations: seq<Registration> := [
    Registration([Literal(SearchPrefix), AnyText], SearchTerm),
    Registration([Literal(SearchPrefix), AnyText, AnyText], SiteAndSearchTerm),
    Registration([Literal(SearchPrefix), AnyText, AnyText, AnyText], SiteSearchTermAndOrder)
  ]

  predicate SegmentMatches(p: PatternSegment, s: string) {
    match p
    case Literal(t) => t == s
    case AnyText => true
  }

  /** A pattern matches a path when it has exactly as many segments as the
      path and each segment matches: the match is not by prefix. */
  predicate PatternMatches(pattern: seq<PatternSegment>, path: seq<string>) {
    |pattern| == |path| && forall i :: 0 <= i < |path| ==> SegmentMatches(pattern[i], path[i])
  }

  /** The code of the first registration whose pattern matches `path`, or NoMatch. */
  function FirstMatch(regs: seq<Registration>, path: seq<string>): (m: Shape)
    ensures forall i :: 0 <= i < |regs| && PatternMatches(regs[i].pattern, path) ==>
      (forall j :: 0 <= j < i ==> !PatternMatches(regs[j].pattern, path)) ==> m == regs[i].code
    ensures (forall i :: 0 <= i < |regs| ==> !PatternMatches(regs[i].pattern, path)) ==> m == NoMatch
  {
    if regs == [] then NoMatch
    else if PatternMatches(regs[0].pattern, path) then regs[0].code
    else
      var m := FirstMatch(regs[1..], path);
      assert forall i :: 1 <= i < |regs| ==> regs[i] == regs[1..][i - 1];
      m
  }

  /** What `uriMatcher.match` returns for a URI with these path segments. */
  function Match(path: seq<string>): (m: Shape)
    ensures m == SearchTerm <==> |path| == 2 && path[0] == SearchPrefix
    ensures m == SiteAndSearchTerm <==> |path| == 3 && path[0] == SearchPrefix
    ensures m == SiteSearchTermAndOrder <==> |path| == 4 && path[0] == SearchPrefix
    ensures m == NoMatch <==> !(2 <= |path| <= 4 && path[0] == SearchPrefix)
  {
    var m := FirstMatch(Registrations, path);
    if 2 <= |path| <= 4 && path[0] == SearchPrefix then
      var k := |path| - 2;
      assert PatternMatches(Registrations[k].pattern, path);
      assert forall j :: 0 <= j < k ==> !PatternMatches(Registrations[j].pattern, path);
      m
    else
      assert forall i :: 0 <= i < |Registrations| ==> !PatternMatches(Registrations[i].pattern, path) by {
        forall i | 0 <= i < |Registrations| ensures !PatternMatches(Registrations[i].pattern, path) {
          if |Registrations[i].pattern| == |path| {
            assert !SegmentMatches(Registrations[i].pattern[0], path[0]);
          }
        }
      }
      m
  }
}
