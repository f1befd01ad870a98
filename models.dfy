/**
 * The schema of the booking directory: the Venue, Artist and Show tables, the
 * constraints the database enforces on them (primary keys, foreign keys,
 * column widths), and the row-level effect of insert, update and cascading
 * delete. A table is a sequence of rows in storage order.
 */
module Models {
  import opened Wrappers
  import opened Seqs
  import opened Ordering

  /** A row of the `Venue` table. */
  datatype Venue = Venue(
    id: int,
    name: string,
    city: string,
    state: string,
    address: string,
    phone: string,
    imageLink: string,
    facebookLink: string,
    genres: seq<string>,
    seekingDescription: Option<string>,
    website: Option<string>)

  /** A row of the `Artist` table: a venue's columns without `address`. */
  datatype Artist = Artist(
    id: int,
    name: string,
    city: string,
    state: string,
    phone: string,
    imageLink: string,
    facebookLink: string,
    genres: seq<string>,
    seekingDescription: Option<string>,
    website: Option<string>)

  /** A row of the `Show` table; its three other columns are NOT NULL, so they are plain values. */
  datatype Show = Show(id: int, artistId: int, venueId: int, startTime: int)

  /** The contents of the database. */
  datatype Tables = Tables(venues: seq<Venue>, artists: seq<Artist>, shows: seq<Show>)

  function VenueKey(v: Venue): int { v.id }
  function ArtistKey(a: Artist): int { a.id }
  function ShowKey(s: Show): int { s.id }

  // ---------------------------------------------------------------------
  // Lookup by primary key (`Model.query.get(id)`)
  // ---------------------------------------------------------------------

  predicate HasVenue(t: Tables, id: int)
  {
    exists v :: v in t.venues && v.id == id
  }

  predicate HasArtist(t: Tables, id: int)
  {
    exists a :: a in t.artists && a.id == id
  }

  function FindVenue(vs: seq<Venue>, id: int): (r: Option<Venue>)
    ensures r.Some? ==> r.value in vs && r.value.id == id
    ensures r.None? ==> forall v :: v in vs ==> v.id != id
  {
    if vs == [] then None
    else if vs[0].id == id then Some(vs[0])
    else FindVenue(vs[1..], id)
  }

  function FindArtist(artists: seq<Artist>, id: int): (r: Option<Artist>)
    ensures r.Some? ==> r.value in artists && r.value.id == id
    ensures r.None? ==> forall a :: a in artists ==> a.id != id
  {
    if artists == [] then None
    else if artists[0].id == id then Some(artists[0])
    else FindArtist(artists[1..], id)
  }

  /** Under a primary key, looking a row up by its own id finds that very row. */
  lemma {:induction false} FindVenueByKey(vs: seq<Venue>, v: Venue)
    requires KeysDistinct(vs, VenueKey) && v in vs
    ensures FindVenue(vs, v.id) == Some(v)
  {
    if vs[0] != v {
      var j :| 0 <= j < |vs| && vs[j] == v;
      assert j > 0 && VenueKey(vs[0]) != VenueKey(vs[j]);
      assert KeysDistinct(vs[1..], VenueKey);
      assert vs[1..][j - 1] == v;
      FindVenueByKey(vs[1..], v);
    }
  }

  lemma {:induction false} FindArtistByKey(artists: seq<Artist>, a: Artist)
    requires KeysDistinct(artists, ArtistKey) && a in artists
    ensures FindArtist(artists, a.id) == Some(a)
  {
    if artists[0] != a {
      var j :| 0 <= j < |artists| && artists[j] == a;
      assert j > 0 && ArtistKey(artists[0]) != ArtistKey(artists[j]);
      assert KeysDistinct(artists[1..], ArtistKey);
      assert artists[1..][j - 1] == a;
      FindArtistByKey(artists[1..], a);
    }
  }

  // ---------------------------------------------------------------------
  // Constraints the database checks when a transaction commits
  // ---------------------------------------------------------------------

  /** `id` is the primary key of each table. */
  predicate PrimaryKeysUnique(t: Tables)
  {
    && KeysDistinct(t.venues, VenueKey)
    && KeysDistinct(t.artists, ArtistKey)
    && KeysDistinct(t.shows, ShowKey)
  }

  /** `Show.artist_id` and `Show.venue_id` are foreign keys to existing rows. */
  predicate ReferencesResolve(t: Tables)
  {
    forall s :: s in t.shows ==> HasArtist(t, s.artistId) && HasVenue(t, s.venueId)
  }

  /** Referential integrity: primary keys and foreign keys hold. */
  predicate Integrity(t: Tables)
  {
    PrimaryKeysUnique(t) && ReferencesResolve(t)
  }

  /** Widths of the `String(120)` and `String(500)` columns. */
  const ShortColumn := 120
  const LinkColumn := 500

  predicate FitsShort(s: string) { |s| <= ShortColumn }

  predicate FitsShortOption(s: Option<string>) { s.Some? ==> |s.value| <= ShortColumn }

  predicate GenresFit(genres: seq<string>)
  {
    forall g :: g in genres ==> |g| <= ShortColumn
  }

  /** A venue row fits its columns; `name` is an unbounded `String`. */
  predicate VenueFits(v: Venue)
  {
    && FitsShort(v.city) && FitsShort(v.state) && FitsShort(v.address) && FitsShort(v.phone)
    && |v.imageLink| <= LinkColumn && FitsShort(v.facebookLink) && GenresFit(v.genres)
    && FitsShortOption(v.seekingDescription) && FitsShortOption(v.website)
  }

  predicate ArtistFits(a: Artist)
  {
    && FitsShort(a.city) && FitsShort(a.state) && FitsShort(a.phone)
    && |a.imageLink| <= LinkColumn && FitsShort(a.facebookLink) && GenresFit(a.genres)
    && FitsShortOption(a.seekingDescription) && FitsShortOption(a.website)
  }

  /** Every constraint of the schema holds: what a successful commit leaves behind. */
  predicate Accepts(t: Tables): (b: bool)
    ensures b ==> forall s :: s in t.shows ==>
      FindArtist(t.artists, s.artistId).Some? && FindVenue(t.venues, s.venueId).Some?
  {
    && Integrity(t)
    && (forall v :: v in t.venues ==> VenueFits(v))
    && (forall a :: a in t.artists ==> ArtistFits(a))
  }

  // ---------------------------------------------------------------------
  // Row-level effect of the mutations
  // ---------------------------------------------------------------------

  function InsertVenue(t: Tables, v: Venue): (r: Tables)
    ensures r.venues == t.venues + [v] && r.artists == t.artists && r.shows == t.shows
    ensures HasVenue(r, v.id) && forall id :: HasVenue(t, id) ==> HasVenue(r, id)
  {
    t.(venues := t.venues + [v])
  }

  function InsertArtist(t: Tables, a: Artist): (r: Tables)
    ensures r.artists == t.artists + [a] && r.venues == t.venues && r.shows == t.shows
    ensures HasArtist(r, a.id) && forall id :: HasArtist(t, id) ==> HasArtist(r, id)
  {
    t.(artists := t.artists + [a])
  }

  function InsertShow(t: Tables, s: Show): (r: Tables)
    ensures r.shows == t.shows + [s] && r.venues == t.venues && r.artists == t.artists
    ensures ReferencesResolve(t) && HasArtist(t, s.artistId) && HasVenue(t, s.venueId) ==> ReferencesResolve(r)
  {
    t.(shows := t.shows + [s])
  }

  /** The row with `v`'s id takes `v`'s column values; every other row is kept. */
  function ReplaceVenue(t: Tables, v: Venue): (r: Tables)
    ensures |r.venues| == |t.venues| && r.artists == t.artists && r.shows == t.shows
    ensures forall i :: 0 <= i < |t.venues| ==>
      r.venues[i] == if t.venues[i].id == v.id then v else t.venues[i]
  {
    t.(venues := MapSeq(t.venues, (w: Venue) => if w.id == v.id then v else w))
  }

  function ReplaceArtist(t: Tables, a: Artist): (r: Tables)
    ensures |r.artists| == |t.artists| && r.venues == t.venues && r.shows == t.shows
    ensures forall i :: 0 <= i < |t.artists| ==>
      r.artists[i] == if t.artists[i].id == a.id then a else t.artists[i]
  {
    t.(artists := MapSeq(t.artists, (w: Artist) => if w.id == a.id then a else w))
  }

  function AtVenue(id: int): Show -> bool { (s: Show) => s.venueId == id }
  function ByArtist(id: int): Show -> bool { (s: Show) => s.artistId == id }

  /**
   * Deleting a venue through the ORM: the `cascade='all, delete-orphan'`
   * relationship deletes the venue's shows with it, and no other show.
   */
  function DeleteVenueCascade(t: Tables, id: int): (r: Tables)
    ensures r.artists == t.artists
    ensures forall v :: v in r.venues <==> v in t.venues && v.id != id
    ensures forall s :: s in r.shows <==> s in t.shows && s.venueId != id
    ensures !HasVenue(r, id)
  {
    Tables(Filter(t.venues, (v: Venue) => v.id != id),
           t.artists,
           Filter(t.shows, (s: Show) => s.venueId != id))
  }

  /** Deleting an artist deletes the shows it plays, and no other show. */
  function DeleteArtistCascade(t: Tables, id: int): (r: Tables)
    ensures r.venues == t.venues
    ensures forall a :: a in r.artists <==> a in t.artists && a.id != id
    ensures forall s :: s in r.shows <==> s in t.shows && s.artistId != id
    ensures !HasArtist(r, id)
  {
    Tables(t.venues,
           Filter(t.artists, (a: Artist) => a.id != id),
           Filter(t.shows, (s: Show) => s.artistId != id))
  }

  // ---------------------------------------------------------------------
  // The constraints across the mutations
  // ---------------------------------------------------------------------

  lemma {:induction false} FilterKeepsKeysDistinct<T>(s: seq<T>, p: T -> bool, key: T -> int)
    requires KeysDistinct(s, key)
    ensures KeysDistinct(Filter(s, p), key)
  {
    if s != [] {
      assert KeysDistinct(s[1..], key);
      FilterKeepsKeysDistinct(s[1..], p, key);
      var rest := Filter(s[1..], p);
      forall y | y in rest ensures key(y) != key(s[0]) {
        var j :| 0 <= j < |s[1..]| && s[1..][j] == y;
        assert s[j + 1] == y;
      }
    }
  }

  lemma AppendKeepsKeysDistinct<T>(s: seq<T>, x: T, key: T -> int)
    requires KeysDistinct(s, key)
    requires forall y :: y in s ==> key(y) < key(x)
    ensures KeysDistinct(s + [x], key)
  {
    forall i, j | 0 <= i < j < |s + [x]| ensures key((s + [x])[i]) != key((s + [x])[j]) {
      if j == |s| {
        assert (s + [x])[i] in s;
      }
    }
  }

  /** Cascading delete of a venue never breaks a constraint. */
  lemma DeleteVenueKeepsConstraints(t: Tables, id: int)
    requires Accepts(t)
    ensures Accepts(DeleteVenueCascade(t, id))
  {
    var r := DeleteVenueCascade(t, id);
    FilterKeepsKeysDistinct(t.venues, (v: Venue) => v.id != id, VenueKey);
    FilterKeepsKeysDistinct(t.shows, (s: Show) => s.venueId != id, ShowKey);
    forall s | s in r.shows ensures HasArtist(r, s.artistId) && HasVenue(r, s.venueId) {
      assert HasVenue(t, s.venueId);
      var v :| v in t.venues && v.id == s.venueId;
      assert v in r.venues;
    }
  }

  lemma DeleteArtistKeepsConstraints(t: Tables, id: int)
    requires Accepts(t)
    ensures Accepts(DeleteArtistCascade(t, id))
  {
    var r := DeleteArtistCascade(t, id);
    FilterKeepsKeysDistinct(t.artists, (a: Artist) => a.id != id, ArtistKey);
    FilterKeepsKeysDistinct(t.shows, (s: Show) => s.artistId != id, ShowKey);
    forall s | s in r.shows ensures HasArtist(r, s.artistId) && HasVenue(r, s.venueId) {
      assert HasArtist(t, s.artistId);
      var a :| a in t.artists && a.id == s.artistId;
      assert a in r.artists;
    }
  }

  /**
   * Without the cascade, removing a venue that has shows would leave those
   * shows referring to nothing, which the foreign key forbids.
   */
  lemma DeleteWithoutCascadeBreaksIntegrity(t: Tables, id: int, s: Show)
    requires PrimaryKeysUnique(t)
    requires s in t.shows && s.venueId == id
    ensures !ReferencesResolve(t.(venues := Filter(t.venues, (v: Venue) => v.id != id)))
  {
    var r := t.(venues := Filter(t.venues, (v: Venue) => v.id != id));
    assert !HasVenue(r, s.venueId);
  }

  /** A new venue row with a fresh id is accepted exactly when it fits its columns. */
  lemma InsertVenueAccepted(t: Tables, v: Venue)
    requires Accepts(t)
    requires forall w :: w in t.venues ==> w.id < v.id
    ensures Accepts(InsertVenue(t, v)) <==> VenueFits(v)
  {
    var r := InsertVenue(t, v);
    AppendKeepsKeysDistinct(t.venues, v, VenueKey);
    forall s | s in r.shows ensures HasArtist(r, s.artistId) && HasVenue(r, s.venueId) {
      var w :| w in t.venues && w.id == s.venueId;
      assert w in r.venues;
    }
    assert v in r.venues;
  }

  lemma InsertArtistAccepted(t: Tables, a: Artist)
    requires Accepts(t)
    requires forall w :: w in t.artists ==> w.id < a.id
    ensures Accepts(InsertArtist(t, a)) <==> ArtistFits(a)
  {
    var r := InsertArtist(t, a);
    AppendKeepsKeysDistinct(t.artists, a, ArtistKey);
    forall s | s in r.shows ensures HasArtist(r, s.artistId) && HasVenue(r, s.venueId) {
      var w :| w in t.artists && w.id == s.artistId;
      assert w in r.artists;
    }
    assert a in r.artists;
  }

  /** A new show with a fresh id is accepted exactly when its artist and its venue exist. */
  lemma InsertShowAccepted(t: Tables, s: Show)
    requires Accepts(t)
    requires forall w :: w in t.shows ==> w.id < s.id
    ensures Accepts(InsertShow(t, s)) <==> HasArtist(t, s.artistId) && HasVenue(t, s.venueId)
  {
    AppendKeepsKeysDistinct(t.shows, s, ShowKey);
    assert s in InsertShow(t, s).shows;
  }

  /** Replacing an existing venue's columns is accepted exactly when the new values fit. */
  lemma ReplaceVenueAccepted(t: Tables, v: Venue)
    requires Accepts(t) && HasVenue(t, v.id)
    ensures Accepts(ReplaceVenue(t, v)) <==> VenueFits(v)
  {
    var r := ReplaceVenue(t, v);
    ReplaceVenueKeepsIntegrity(t, v);
    var i :| 0 <= i < |t.venues| && t.venues[i].id == v.id;
    assert r.venues[i] == v && v in r.venues;
    forall w | w in r.venues && VenueFits(v) ensures VenueFits(w) {
      var k :| 0 <= k < |r.venues| && r.venues[k] == w;
      assert t.venues[k] in t.venues;
    }
  }

  lemma ReplaceVenueKeepsIntegrity(t: Tables, v: Venue)
    requires Integrity(t) && HasVenue(t, v.id)
    ensures Integrity(ReplaceVenue(t, v))
  {
    var r := ReplaceVenue(t, v);
    assert KeysDistinct(r.venues, VenueKey);
    forall s | s in r.shows ensures HasArtist(r, s.artistId) && HasVenue(r, s.venueId) {
      var w :| w in t.venues && w.id == s.venueId;
      var i :| 0 <= i < |t.venues| && t.venues[i] == w;
      assert r.venues[i] in r.venues;
    }
  }

  lemma ReplaceArtistAccepted(t: Tables, a: Artist)
    requires Accepts(t) && HasArtist(t, a.id)
    ensures Accepts(ReplaceArtist(t, a)) <==> ArtistFits(a)
  {
    var r := ReplaceArtist(t, a);
    ReplaceArtistKeepsIntegrity(t, a);
    var i :| 0 <= i < |t.artists| && t.artists[i].id == a.id;
    assert r.artists[i] == a && a in r.artists;
    forall w | w in r.artists && ArtistFits(a) ensures ArtistFits(w) {
      var k :| 0 <= k < |r.artists| && r.artists[k] == w;
      assert t.artists[k] in t.artists;
    }
  }

  lemma ReplaceArtistKeepsIntegrity(t: Tables, a: Artist)
    requires Integrity(t) && HasArtist(t, a.id)
    ensures Integrity(ReplaceArtist(t, a))
  {
    var r := ReplaceArtist(t, a);
    assert KeysDistinct(r.artists, ArtistKey);
    forall s | s in r.shows ensures HasArtist(r, s.artistId) && HasVenue(r, s.venueId) {
      var w :| w in t.artists && w.id == s.artistId;
      var i :| 0 <= i < |t.artists| && t.artists[i] == w;
      assert r.artists[i] in r.artists;
    }
  }
}
