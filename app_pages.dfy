/**
 * The listing pages of app.py: the home page's recent venues and artists,
 * the venues page grouped by `(city, state)`, the artists page and the
 * shows page. Each reads the committed tables.
 */
module AppPages {
  import opened Seqs
  import opened Ordering
  import opened Models

  /** An `{id, name}` entry of a listing. */
  datatype Summary = Summary(id: int, name: string)

  /** An `{id, name, image_link}` entry of the home page. */
  datatype Card = Card(id: int, name: string, imageLink: string)

  datatype Home = Home(recentVenues: seq<Card>, recentArtists: seq<Card>)

  /** One area of the venues page: a `(city, state)` pair and its venues. */
  datatype Area = Area(city: string, state: string, venues: seq<Summary>)

  /** One entry of the shows page, with the names of the show's venue and artist. */
  datatype ShowEntry = ShowEntry(
    venueId: int,
    venueName: string,
    artistId: int,
    artistName: string,
    artistImageLink: string,
    startTime: int)

  /** `.limit(6)` on the home page. */
  const RecentLimit: nat := 6

  function VenueCard(v: Venue): Card { Card(v.id, v.name, v.imageLink) }
  function ArtistCard(a: Artist): Card { Card(a.id, a.name, a.imageLink) }
  function VenueSummary(v: Venue): Summary { Summary(v.id, v.name) }
  function ArtistSummary(a: Artist): Summary { Summary(a.id, a.name) }

  // ---------------------------------------------------------------------
  // Home page: `order_by(id.desc()).limit(6)` on both tables
  // ---------------------------------------------------------------------

  /**
   * The cards of the `RecentLimit` rows with the largest keys: as many as
   * there are rows up to the limit, strictly descending, each from a row of
   * `s`, and every row without a card has a smaller key than every card.
   */
  lemma RecentCards<T>(s: seq<T>, key: T -> int, card: T -> Card)
    requires KeysDistinct(s, key)
    requires forall x :: card(x).id == key(x)
    ensures var r := MapSeq(TopByKey(s, key, RecentLimit), card);
      && |r| == (if |s| <= RecentLimit then |s| else RecentLimit)
      && (forall i, j :: 0 <= i < j < |r| ==> r[i].id > r[j].id)
      && (forall c :: c in r ==> exists x :: x in s && card(x) == c)
      && (forall x :: x in s ==> card(x) in r || forall c :: c in r ==> key(x) < c.id)
  {
    var top := TopByKey(s, key, RecentLimit);
    var r := MapSeq(top, card);
    TopByKeyIsLargest(s, key, RecentLimit);
    forall c | c in r ensures exists x :: x in s && card(x) == c {
      var i :| 0 <= i < |r| && r[i] == c;
      assert top[i] in top;
    }
    forall x | x in s ensures card(x) in r || forall c :: c in r ==> key(x) < c.id {
      if x in top {
        var i :| 0 <= i < |top| && top[i] == x;
        assert r[i] == card(x);
      } else {
        forall c | c in r ensures key(x) < c.id {
          var i :| 0 <= i < |r| && r[i] == c;
          assert top[i] in top;
        }
      }
    }
  }

  /**
   * `index`: at most six venues and six artists, each list strictly
   * descending by id and holding the largest ids present.
   */
  function Index(t: Tables): (r: Home)
    requires PrimaryKeysUnique(t)
    ensures |r.recentVenues| == if |t.venues| <= RecentLimit then |t.venues| else RecentLimit
    ensures |r.recentArtists| == if |t.artists| <= RecentLimit then |t.artists| else RecentLimit
    ensures forall i, j :: 0 <= i < j < |r.recentVenues| ==> r.recentVenues[i].id > r.recentVenues[j].id
    ensures forall i, j :: 0 <= i < j < |r.recentArtists| ==> r.recentArtists[i].id > r.recentArtists[j].id
    ensures forall c :: c in r.recentVenues ==> exists v :: v in t.venues && VenueCard(v) == c
    ensures forall c :: c in r.recentArtists ==> exists a :: a in t.artists && ArtistCard(a) == c
    ensures forall v :: v in t.venues ==>
      VenueCard(v) in r.recentVenues || forall c :: c in r.recentVenues ==> v.id < c.id
    ensures forall a :: a in t.artists ==>
      ArtistCard(a) in r.recentArtists || forall c :: c in r.recentArtists ==> a.id < c.id
  {
    RecentCards(t.venues, VenueKey, VenueCard);
    RecentCards(t.artists, ArtistKey, ArtistCard);
    Home(MapSeq(TopByKey(t.venues, VenueKey, RecentLimit), VenueCard),
         MapSeq(TopByKey(t.artists, ArtistKey, RecentLimit), ArtistCard))
  }

  /**
   * A venue inserted with an id above every existing one is the first card of
   * the next home page.
   */
  lemma NewVenueListedFirst(t: Tables, v: Venue)
    requires PrimaryKeysUnique(t)
    requires forall w :: w in t.venues ==> w.id < v.id
    ensures PrimaryKeysUnique(InsertVenue(t, v))
    ensures Index(InsertVenue(t, v)).recentVenues[0] == VenueCard(v)
  {
    var t' := InsertVenue(t, v);
    AppendKeepsKeysDistinct(t.venues, v, VenueKey);
    var rv := Index(t').recentVenues;
    assert v in t'.venues;
    assert |rv| > 0;
    assert rv[0] in rv;
    var w :| w in t'.venues && VenueCard(w) == rv[0];
    assert w.id <= v.id;
    assert !(v.id < rv[0].id);
    assert VenueCard(v) in rv;
    var k :| 0 <= k < |rv| && rv[k] == VenueCard(v);
    assert !(rv[0].id > rv[k].id);
  }

  lemma NewArtistListedFirst(t: Tables, a: Artist)
    requires PrimaryKeysUnique(t)
    requires forall w :: w in t.artists ==> w.id < a.id
    ensures PrimaryKeysUnique(InsertArtist(t, a))
    ensures Index(InsertArtist(t, a)).recentArtists[0] == ArtistCard(a)
  {
    var t' := InsertArtist(t, a);
    AppendKeepsKeysDistinct(t.artists, a, ArtistKey);
    var ra := Index(t').recentArtists;
    assert a in t'.artists;
    assert |ra| > 0;
    assert ra[0] in ra;
    var w :| w in t'.artists && ArtistCard(w) == ra[0];
    assert w.id <= a.id;
    assert !(a.id < ra[0].id);
    assert ArtistCard(a) in ra;
    var k :| 0 <= k < |ra| && ra[k] == ArtistCard(a);
    assert !(ra[0].id > ra[k].id);
  }

  // ---------------------------------------------------------------------
  // Venues page: group by `(city, state)`, then sort the groups
  // ---------------------------------------------------------------------

  function LocationOf(v: Venue): Location { Location(v.city, v.state) }

  function AreaLocation(a: Area): Location { Location(a.city, a.state) }

  function AtLocation(lc: Location): Venue -> bool { (v: Venue) => LocationOf(v) == lc }

  /** The venues of `vs` at `lc`, in the order of `vs`. */
  function VenuesAt(vs: seq<Venue>, lc: Location): (r: seq<Venue>)
    ensures forall v :: v in r <==> v in vs && LocationOf(v) == lc
  {
    Filter(vs, AtLocation(lc))
  }

  /**
   * What the venues page promises about its areas: they are strictly
   * ascending by `(city, state)` (so no pair repeats), there is one for each
   * pair some venue has, and each lists the id and name of exactly the venues
   * at its pair, in the order the query returned them, which is never empty.
   */
  ghost predicate GroupsByLocation(vs: seq<Venue>, areas: seq<Area>)
  {
    && (forall i, j :: 0 <= i < j < |areas| ==> LocationLess(AreaLocation(areas[i]), AreaLocation(areas[j])))
    && (forall v :: v in vs ==> exists a :: a in areas && AreaLocation(a) == LocationOf(v))
    && (forall a :: a in areas ==>
          a.venues == MapSeq(VenuesAt(vs, AreaLocation(a)), VenueSummary) && a.venues != [])
  }

  lemma VenuesAtExtend(vs: seq<Venue>, i: int, lc: Location)
    requires 0 <= i < |vs|
    ensures VenuesAt(vs[..i + 1], lc) ==
      VenuesAt(vs[..i], lc) + (if LocationOf(vs[i]) == lc then [vs[i]] else [])
  {
    assert vs[..i + 1] == vs[..i] + [vs[i]];
    FilterAppend(vs[..i], [vs[i]], AtLocation(lc));
    assert [vs[i]][1..] == [];
  }

  /**
   * The state of the first loop of `venues` after `n` venues: the dictionary
   * maps each `(city, state)` seen so far to its venues in order, and `keys`
   * lists those pairs once each, in insertion order.
   */
  ghost predicate Collected(vs: seq<Venue>, n: int, locations: map<Location, seq<Venue>>, keys: seq<Location>)
    requires 0 <= n <= |vs|
  {
    && Distinct(keys)
    && (forall lc :: lc in locations <==> lc in keys)
    && (forall lc :: lc in locations ==> locations[lc] == VenuesAt(vs[..n], lc) && locations[lc] != [])
    && (forall lc :: lc !in locations ==> VenuesAt(vs[..n], lc) == [])
  }

  /** An iteration that meets a `(city, state)` already in the dictionary appends to its list. */
  lemma CollectStepKnown(vs: seq<Venue>, i: int, locations: map<Location, seq<Venue>>, keys: seq<Location>)
    requires 0 <= i < |vs| && Collected(vs, i, locations, keys)
    requires LocationOf(vs[i]) in locations
    ensures Collected(vs, i + 1, locations[LocationOf(vs[i]) := locations[LocationOf(vs[i])] + [vs[i]]], keys)
  {
    var lc := LocationOf(vs[i]);
    var next := locations[lc := locations[lc] + [vs[i]]];
    forall l | l in next ensures next[l] == VenuesAt(vs[..i + 1], l) && next[l] != [] {
      VenuesAtExtend(vs, i, l);
    }
    forall l | l !in next ensures VenuesAt(vs[..i + 1], l) == [] {
      VenuesAtExtend(vs, i, l);
    }
  }

  /** An iteration that meets a new `(city, state)` starts its list and records the key. */
  lemma CollectStepNew(vs: seq<Venue>, i: int, locations: map<Location, seq<Venue>>, keys: seq<Location>)
    requires 0 <= i < |vs| && Collected(vs, i, locations, keys)
    requires LocationOf(vs[i]) !in locations
    ensures Collected(vs, i + 1, locations[LocationOf(vs[i]) := [vs[i]]], keys + [LocationOf(vs[i])])
  {
    var lc := LocationOf(vs[i]);
    var next := locations[lc := [vs[i]]];
    var keys' := keys + [lc];
    assert lc !in keys;
    assert Distinct(keys');
    forall l ensures l in next <==> l in keys' {
    }
    forall l | l in next ensures next[l] == VenuesAt(vs[..i + 1], l) && next[l] != [] {
      VenuesAtExtend(vs, i, l);
    }
    forall l | l !in next ensures VenuesAt(vs[..i + 1], l) == [] {
      VenuesAtExtend(vs, i, l);
    }
  }

  /**
   * The first loop of `venues`: the dictionary from `(city, state)` to the
   * venues there, in the order of `vs`, and its keys in insertion order.
   */
  method CollectLocations(vs: seq<Venue>) returns (locations: map<Location, seq<Venue>>, keys: seq<Location>)
    ensures Collected(vs, |vs|, locations, keys)
  {
    locations := map[];
    keys := [];
    var i := 0;
    while i < |vs|
      invariant 0 <= i <= |vs|
      invariant Collected(vs, i, locations, keys)
    {
      var v := vs[i];
      var lc := LocationOf(v);
      if lc in locations {
        CollectStepKnown(vs, i, locations, keys);
        locations := locations[lc := locations[lc] + [v]];
      } else {
        CollectStepNew(vs, i, locations, keys);
        locations := locations[lc := [v]];
        keys := keys + [lc];
      }
      i := i + 1;
    }
  }

  /** The areas built from the sorted keys of a completed dictionary group `vs` by location. */
  lemma AreasFromSortedKeys(vs: seq<Venue>, locations: map<Location, seq<Venue>>, keys: seq<Location>,
                            sorted: seq<Location>, areas: seq<Area>)
    requires Collected(vs, |vs|, locations, keys)
    requires StrictlyAscending(sorted) && forall x :: x in sorted <==> x in keys
    requires |areas| == |sorted|
    requires forall j :: 0 <= j < |areas| ==>
      areas[j] == Area(sorted[j].city, sorted[j].state, MapSeq(locations[sorted[j]], VenueSummary))
    ensures GroupsByLocation(vs, areas)
  {
    assert vs[..|vs|] == vs;
    forall i, j | 0 <= i < j < |areas|
      ensures LocationLess(AreaLocation(areas[i]), AreaLocation(areas[j]))
    {
      assert AreaLocation(areas[i]) == sorted[i] && AreaLocation(areas[j]) == sorted[j];
    }
    forall a | a in areas
      ensures a.venues == MapSeq(VenuesAt(vs, AreaLocation(a)), VenueSummary) && a.venues != []
    {
      var j :| 0 <= j < |areas| && areas[j] == a;
      assert AreaLocation(a) == sorted[j];
      assert sorted[j] in sorted;
    }
    forall v | v in vs ensures exists a :: a in areas && AreaLocation(a) == LocationOf(v) {
      assert v in VenuesAt(vs, LocationOf(v));
      assert LocationOf(v) in locations;
      var j :| 0 <= j < |sorted| && sorted[j] == LocationOf(v);
      assert areas[j] in areas && AreaLocation(areas[j]) == LocationOf(v);
    }
  }

  /** `venues`: the dictionary-building loop and the sorted list of areas it feeds. */
  method Venues(t: Tables) returns (areas: seq<Area>)
    ensures GroupsByLocation(t.venues, areas)
  {
    var locations, keys := CollectLocations(t.venues);
    var sorted := SortLocations(keys);
    SortLocationsAscending(keys);
    areas := [];
    var k := 0;
    while k < |sorted|
      invariant 0 <= k <= |sorted|
      invariant |areas| == k
      invariant forall j :: 0 <= j < k ==>
        areas[j] == Area(sorted[j].city, sorted[j].state, MapSeq(locations[sorted[j]], VenueSummary))
    {
      var lc := sorted[k];
      areas := areas + [Area(lc.city, lc.state, MapSeq(locations[lc], VenueSummary))];
      k := k + 1;
    }
    AreasFromSortedKeys(t.venues, locations, keys, sorted, areas);
  }

  /** An entry for `v` can only sit in the area at `v`'s own `(city, state)`. */
  lemma EntryIsAtOwnLocation(vs: seq<Venue>, a: Area, v: Venue)
    requires KeysDistinct(vs, VenueKey)
    requires v in vs
    requires a.venues == MapSeq(VenuesAt(vs, AreaLocation(a)), VenueSummary)
    requires VenueSummary(v) in a.venues
    ensures AreaLocation(a) == LocationOf(v)
  {
    var ws := VenuesAt(vs, AreaLocation(a));
    var q :| 0 <= q < |ws| && a.venues[q] == VenueSummary(v);
    var w := ws[q];
    assert w in ws && w in vs && w.id == v.id;
    var x :| 0 <= x < |vs| && vs[x] == w;
    var y :| 0 <= y < |vs| && vs[y] == v;
    assert VenueKey(vs[x]) == VenueKey(vs[y]);
  }

  /**
   * Every venue is listed in exactly one area, the one at its own
   * `(city, state)`; primary keys keep two venues from sharing an entry.
   */
  lemma EachVenueInExactlyOneArea(vs: seq<Venue>, areas: seq<Area>, v: Venue)
    requires GroupsByLocation(vs, areas)
    requires KeysDistinct(vs, VenueKey)
    requires v in vs
    ensures exists i :: 0 <= i < |areas| && VenueSummary(v) in areas[i].venues
    ensures forall i :: 0 <= i < |areas| && VenueSummary(v) in areas[i].venues ==>
      AreaLocation(areas[i]) == LocationOf(v)
    ensures forall i, j ::
      (0 <= i < |areas| && 0 <= j < |areas| &&
       VenueSummary(v) in areas[i].venues && VenueSummary(v) in areas[j].venues) ==> i == j
  {
    var a :| a in areas && AreaLocation(a) == LocationOf(v);
    var ia :| 0 <= ia < |areas| && areas[ia] == a;
    var at := VenuesAt(vs, LocationOf(v));
    assert v in at;
    var p :| 0 <= p < |at| && at[p] == v;
    assert areas[ia].venues[p] == VenueSummary(v);
    forall i | 0 <= i < |areas| && VenueSummary(v) in areas[i].venues
      ensures AreaLocation(areas[i]) == LocationOf(v)
    {
      assert areas[i] in areas;
      EntryIsAtOwnLocation(vs, areas[i], v);
    }
    forall i, j | 0 <= i < |areas| && 0 <= j < |areas| &&
      VenueSummary(v) in areas[i].venues && VenueSummary(v) in areas[j].venues
      ensures i == j
    {
      if i < j {
        LocationLessAsymmetric(AreaLocation(areas[i]), AreaLocation(areas[j]));
      } else if j < i {
        LocationLessAsymmetric(AreaLocation(areas[j]), AreaLocation(areas[i]));
      }
    }
  }

  // ---------------------------------------------------------------------
  // Artists and shows pages
  // ---------------------------------------------------------------------

  /** `artists`: every artist's id and name, in the order of the table. */
  function Artists(t: Tables): (r: seq<Summary>)
    ensures |r| == |t.artists|
    ensures forall i :: 0 <= i < |r| ==> r[i].id == t.artists[i].id && r[i].name == t.artists[i].name
  {
    MapSeq(t.artists, ArtistSummary)
  }

  function ShowEntryOf(t: Tables, s: Show): (e: ShowEntry)
    requires HasArtist(t, s.artistId) && HasVenue(t, s.venueId)
  {
    var v := FindVenue(t.venues, s.venueId).value;
    var a := FindArtist(t.artists, s.artistId).value;
    ShowEntry(s.venueId, v.name, s.artistId, a.name, a.imageLink, s.startTime)
  }

  /**
   * `shows`: one entry per show, in table order, carrying the names of the
   * venue and the artist its foreign keys refer to.
   */
  function Shows(t: Tables): (r: seq<ShowEntry>)
    requires ReferencesResolve(t)
    ensures |r| == |t.shows|
    ensures forall i :: 0 <= i < |r| ==>
      && r[i].venueId == t.shows[i].venueId && r[i].artistId == t.shows[i].artistId
      && r[i].startTime == t.shows[i].startTime
      && (exists v :: v in t.venues && v.id == r[i].venueId && v.name == r[i].venueName)
      && (exists a :: a in t.artists && a.id == r[i].artistId
            && a.name == r[i].artistName && a.imageLink == r[i].artistImageLink)
  {
    seq(|t.shows|, i requires 0 <= i < |t.shows| => (assert t.shows[i] in t.shows; ShowEntryOf(t, t.shows[i])))
  }
}
