/**
 * The search pages of app.py, `search_venues` and `search_artists`: no term
 * (or an empty one) redirects; any other term is matched against names with
 * `name ILIKE '%' + term + '%'`.
 */
module AppSearch {
  import opened Wrappers
  import opened Seqs
  import opened Text
  import opened Models
  import opened AppPages

  datatype SearchOutcome =
    | SearchRedirect(to: Page)
    | SearchResults(count: nat, data: seq<Summary>, searchTerm: string)

  /** The listing pages a handler can redirect to. */
  datatype Page = VenuesPage | ArtistsPage

  /** `request.form.get("search_term")` is falsy: absent, or the empty string. */
  predicate NoTerm(term: Option<string>)
  {
    term.None? || term.value == ""
  }

  /** The `ILIKE` pattern the handlers build around the term. */
  function Pattern(term: string): string
  {
    "%" + term + "%"
  }

  function NameMatches(pattern: string): Summary -> bool
  {
    (e: Summary) => ILike(e.name, pattern)
  }

  /** The reference search: entries whose name contains `term`, ignoring case. */
  ghost function NameContains(term: string): Summary -> bool
  {
    (e: Summary) => ContainsIgnoringCase(e.name, term)
  }

  /**
   * The search shared by both handlers, over the `{id, name}` entries of a
   * table: a redirect to `emptyTarget` when there is no term; otherwise the
   * entries whose name matches, in table order, with `count` their number.
   */
  function SearchNames(rows: seq<Summary>, term: Option<string>, emptyTarget: Page): (r: SearchOutcome)
    ensures NoTerm(term) <==> r.SearchRedirect?
    ensures r.SearchRedirect? ==> r.to == emptyTarget
    ensures r.SearchResults? ==> r.count == |r.data| && r.searchTerm == term.value
    ensures r.SearchResults? ==> forall e :: e in r.data <==> e in rows && ILike(e.name, Pattern(term.value))
  {
    if NoTerm(term) then SearchRedirect(emptyTarget)
    else
      var data := Filter(rows, NameMatches(Pattern(term.value)));
      SearchResults(|data|, data, term.value)
  }

  /**
   * For a term without `%`, `_` or `\`, the search is case-insensitive
   * substring search: the results are exactly the entries whose name
   * contains the term ignoring case, in table order.
   */
  lemma SearchIsSubstringSearch(rows: seq<Summary>, term: string, emptyTarget: Page)
    requires term != "" && IsLiteral(term)
    ensures var r := SearchNames(rows, Some(term), emptyTarget);
      var expected := Filter(rows, NameContains(term));
      && r == SearchResults(|expected|, expected, term)
      && IsSubsequence(expected, rows)
  {
    forall e: Summary ensures NameMatches(Pattern(term))(e) == NameContains(term)(e) {
      ILikeIsContainsIgnoringCase(e.name, term);
    }
    FilterCongruent(rows, NameMatches(Pattern(term)), NameContains(term));
    FilterIsSubsequence(rows, NameContains(term));
  }

  /** `search_venues`. */
  function SearchVenues(t: Tables, term: Option<string>): (r: SearchOutcome)
    ensures NoTerm(term) ==> r == SearchRedirect(VenuesPage)
    ensures !NoTerm(term) ==> r.SearchResults? && r.count == |r.data|
    ensures r.SearchResults? ==> r.searchTerm == term.value
    ensures r.SearchResults? ==> forall v :: v in t.venues ==>
      (VenueSummary(v) in r.data <==> ILike(v.name, Pattern(term.value)))
    ensures r.SearchResults? ==> forall e :: e in r.data ==> e in MapSeq(t.venues, VenueSummary)
    ensures !NoTerm(term) && IsLiteral(term.value) ==>
      r.data == Filter(MapSeq(t.venues, VenueSummary), NameContains(term.value))
  {
    var rows := MapSeq(t.venues, VenueSummary);
    if !NoTerm(term) && IsLiteral(term.value) then
      SearchIsSubstringSearch(rows, term.value, VenuesPage);
      SearchNames(rows, term, VenuesPage)
    else
      SearchNames(rows, term, VenuesPage)
  }

  /** `search_artists` as written: with no term it, too, redirects to the venues page. */
  function SearchArtists(t: Tables, term: Option<string>): (r: SearchOutcome)
    ensures NoTerm(term) ==> r == SearchRedirect(VenuesPage)
    ensures !NoTerm(term) ==> r.SearchResults? && r.count == |r.data|
    ensures r.SearchResults? ==> r.searchTerm == term.value
    ensures r.SearchResults? ==> forall a :: a in t.artists ==>
      (ArtistSummary(a) in r.data <==> ILike(a.name, Pattern(term.value)))
    ensures r.SearchResults? ==> forall e :: e in r.data ==> e in MapSeq(t.artists, ArtistSummary)
    ensures !NoTerm(term) && IsLiteral(term.value) ==>
      r.data == Filter(MapSeq(t.artists, ArtistSummary), NameContains(term.value))
  {
    var rows := MapSeq(t.artists, ArtistSummary);
    if !NoTerm(term) && IsLiteral(term.value) then
      SearchIsSubstringSearch(rows, term.value, VenuesPage);
      SearchNames(rows, term, VenuesPage)
    else
      SearchNames(rows, term, VenuesPage)
  }

  /** `search_artists` redirecting to the artists page, the page its search form belongs to. */
  function SearchArtistsCorrected(t: Tables, term: Option<string>): (r: SearchOutcome)
    ensures NoTerm(term) ==> r == SearchRedirect(ArtistsPage)
    ensures !NoTerm(term) ==> r == SearchArtists(t, term)
  {
    SearchNames(MapSeq(t.artists, ArtistSummary), term, ArtistsPage)
  }

  /** The two versions differ only on an empty search, where the written one leaves the artists section. */
  lemma EmptyArtistSearchLeavesArtists(t: Tables)
    ensures SearchArtists(t, Some("")) == SearchRedirect(VenuesPage)
    ensures SearchArtistsCorrected(t, Some("")) == SearchRedirect(ArtistsPage)
    ensures SearchArtists(t, Some("")) != SearchArtistsCorrected(t, Some(""))
  {
  }

  /** A term of `%` is not literal: it matches every name. */
  lemma PercentTermMatchesEveryVenue(t: Tables)
    ensures SearchVenues(t, Some("%")) == SearchResults(|t.venues|, MapSeq(t.venues, VenueSummary), "%")
  {
    var rows := MapSeq(t.venues, VenueSummary);
    forall e | e in rows ensures NameMatches(Pattern("%"))(e) {
      PercentTermMatchesAll(e.name);
    }
    FilterKeepsAll(rows, NameMatches(Pattern("%")));
  }
}
