/**
 * The detail pages of app.py, `show_venue` and `show_artist`: the row's
 * columns, the seeking flag, and its shows split at `now` into past and
 * upcoming, each show rendered by `show_to_dict`.
 */
module AppDetail {
  import opened Wrappers
  import opened Seqs
  import opened Models

  /** `show_to_dict`: the artist's id, name and image link, and the start time. */
  datatype ShowCard = ShowCard(artistId: int, artistName: string, artistImageLink: string, startTime: int)

  datatype VenueDetail = VenueDetail(
    id: int,
    name: string,
    genres: seq<string>,
    address: string,
    city: string,
    state: string,
    phone: string,
    website: Option<string>,
    facebookLink: string,
    seekingTalent: bool,
    seekingDescription: Option<string>,
    imageLink: string,
    pastShows: seq<ShowCard>,
    upcomingShows: seq<ShowCard>,
    pastShowsCount: nat,
    upcomingShowsCount: nat)

  /** The artist page carries neither `address` nor `website`. */
  datatype ArtistDetail = ArtistDetail(
    id: int,
    name: string,
    genres: seq<string>,
    city: string,
    state: string,
    phone: string,
    facebookLink: string,
    seekingVenue: bool,
    seekingDescription: Option<string>,
    imageLink: string,
    pastShows: seq<ShowCard>,
    upcomingShows: seq<ShowCard>,
    pastShowsCount: nat,
    upcomingShowsCount: nat)

  /** Python's `bool(x)` on an optional string: false for `None` and for `""`. */
  function Truthy(s: Option<string>): (b: bool)
    ensures b <==> s.Some? && |s.value| > 0
  {
    match s
    case None => false
    case Some(text) => text != ""
  }

  function StartsAfter(now: int): Show -> bool { (s: Show) => s.startTime > now }
  function StartedBy(now: int): Show -> bool { (s: Show) => s.startTime <= now }

  /** `[i for i in shows if i.start_time > now]` */
  function Upcoming(shows: seq<Show>, now: int): (r: seq<Show>)
    ensures forall s :: s in r <==> s in shows && s.startTime > now
    ensures IsSubsequence(r, shows)
  {
    FilterIsSubsequence(shows, StartsAfter(now));
    Filter(shows, StartsAfter(now))
  }

  /** `[i for i in shows if i.start_time <= now]` */
  function Past(shows: seq<Show>, now: int): (r: seq<Show>)
    ensures forall s :: s in r <==> s in shows && s.startTime <= now
    ensures IsSubsequence(r, shows)
  {
    FilterIsSubsequence(shows, StartedBy(now));
    Filter(shows, StartedBy(now))
  }

  /**
   * The split at `now` is a partition: upcoming are exactly the shows after
   * `now`, past exactly the others, no show is in both, together they hold
   * all the shows, and each keeps the shows' relative order.
   */
  lemma PastUpcomingPartition(shows: seq<Show>, now: int)
    ensures forall s :: s in Upcoming(shows, now) <==> s in shows && s.startTime > now
    ensures forall s :: s in Past(shows, now) <==> s in shows && s.startTime <= now
    ensures forall s :: !(s in Past(shows, now) && s in Upcoming(shows, now))
    ensures multiset(Past(shows, now)) + multiset(Upcoming(shows, now)) == multiset(shows)
    ensures |Past(shows, now)| + |Upcoming(shows, now)| == |shows|
    ensures IsSubsequence(Past(shows, now), shows) && IsSubsequence(Upcoming(shows, now), shows)
  {
    FilterComplement(shows, StartedBy(now), StartsAfter(now));
    FilterIsSubsequence(shows, StartedBy(now));
    FilterIsSubsequence(shows, StartsAfter(now));
  }

  /** `show_to_dict`; `show.artist` is the artist the foreign key refers to. */
  function ShowToDict(t: Tables, s: Show): (c: ShowCard)
    requires HasArtist(t, s.artistId)
    ensures c.artistId == s.artistId && c.startTime == s.startTime
    ensures exists a :: a in t.artists && a.id == s.artistId && c.artistName == a.name && c.artistImageLink == a.imageLink
  {
    var a := FindArtist(t.artists, s.artistId).value;
    ShowCard(s.artistId, a.name, a.imageLink, s.startTime)
  }

  predicate ArtistsExist(t: Tables, shows: seq<Show>)
  {
    forall s :: s in shows ==> HasArtist(t, s.artistId)
  }

  /** `list(map(show_to_dict, shows))` */
  function ShowCards(t: Tables, shows: seq<Show>): (r: seq<ShowCard>)
    requires ArtistsExist(t, shows)
    ensures |r| == |shows|
    ensures forall i :: 0 <= i < |r| ==> r[i].startTime == shows[i].startTime && r[i].artistId == shows[i].artistId
    ensures forall i :: 0 <= i < |r| ==> shows[i] in shows && r[i] == ShowToDict(t, shows[i])
  {
    seq(|shows|, i requires 0 <= i < |shows| => (assert shows[i] in shows; ShowToDict(t, shows[i])))
  }

  /** `v.shows`: the shows whose `venue_id` is the venue's, in table order. */
  function VenueShows(t: Tables, id: int): (r: seq<Show>)
    ensures forall s :: s in r <==> s in t.shows && s.venueId == id
  {
    Filter(t.shows, AtVenue(id))
  }

  /** `a.shows`: the shows whose `artist_id` is the artist's, in table order. */
  function ArtistShows(t: Tables, id: int): (r: seq<Show>)
    ensures forall s :: s in r <==> s in t.shows && s.artistId == id
  {
    Filter(t.shows, ByArtist(id))
  }

  /** The cards of a split: past ones started by `now`, upcoming ones start after it. */
  predicate SplitAt(past: seq<ShowCard>, upcoming: seq<ShowCard>, now: int)
  {
    && (forall c :: c in past ==> c.startTime <= now)
    && (forall c :: c in upcoming ==> c.startTime > now)
  }

  /** A venue page shows the venue's columns and derives `seeking_talent` from `seeking_description`. */
  predicate DescribesVenue(d: VenueDetail, v: Venue)
  {
    && d.id == v.id && d.name == v.name && d.genres == v.genres && d.address == v.address
    && d.city == v.city && d.state == v.state && d.phone == v.phone && d.website == v.website
    && d.facebookLink == v.facebookLink && d.seekingDescription == v.seekingDescription
    && d.imageLink == v.imageLink
    && (d.seekingTalent <==> v.seekingDescription.Some? && |v.seekingDescription.value| > 0)
  }

  predicate DescribesArtist(d: ArtistDetail, a: Artist)
  {
    && d.id == a.id && d.name == a.name && d.genres == a.genres
    && d.city == a.city && d.state == a.state && d.phone == a.phone
    && d.facebookLink == a.facebookLink && d.seekingDescription == a.seekingDescription
    && d.imageLink == a.imageLink
    && (d.seekingVenue <==> a.seekingDescription.Some? && |a.seekingDescription.value| > 0)
  }

  /** The venue page's dictionary, given the two lists of shows. */
  function VenueDetailOf(t: Tables, v: Venue, past: seq<Show>, upcoming: seq<Show>): (d: VenueDetail)
    requires ArtistsExist(t, past) && ArtistsExist(t, upcoming)
    ensures DescribesVenue(d, v)
    ensures |d.pastShows| == d.pastShowsCount == |past| && |d.upcomingShows| == d.upcomingShowsCount == |upcoming|
    ensures d.pastShows == ShowCards(t, past) && d.upcomingShows == ShowCards(t, upcoming)
  {
    VenueDetail(v.id, v.name, v.genres, v.address, v.city, v.state, v.phone, v.website,
                v.facebookLink, Truthy(v.seekingDescription), v.seekingDescription, v.imageLink,
                ShowCards(t, past), ShowCards(t, upcoming), |past|, |upcoming|)
  }

  function ArtistDetailOf(t: Tables, a: Artist, past: seq<Show>, upcoming: seq<Show>): (d: ArtistDetail)
    requires ArtistsExist(t, past) && ArtistsExist(t, upcoming)
    ensures DescribesArtist(d, a)
    ensures |d.pastShows| == d.pastShowsCount == |past| && |d.upcomingShows| == d.upcomingShowsCount == |upcoming|
    ensures d.pastShows == ShowCards(t, past) && d.upcomingShows == ShowCards(t, upcoming)
  {
    ArtistDetail(a.id, a.name, a.genres, a.city, a.state, a.phone, a.facebookLink,
                 Truthy(a.seekingDescription), a.seekingDescription, a.imageLink,
                 ShowCards(t, past), ShowCards(t, upcoming), |past|, |upcoming|)
  }

  lemma ShowsOfTableHaveArtists(t: Tables, shows: seq<Show>)
    requires ReferencesResolve(t)
    requires forall s :: s in shows ==> s in t.shows
    ensures ArtistsExist(t, shows)
  {
  }

  /** The cards of the split at `now` fall on the right side of `now`. */
  lemma CardsSplitAt(t: Tables, shows: seq<Show>, now: int)
    requires ArtistsExist(t, Past(shows, now)) && ArtistsExist(t, Upcoming(shows, now))
    ensures SplitAt(ShowCards(t, Past(shows, now)), ShowCards(t, Upcoming(shows, now)), now)
  {
    var past, upcoming := Past(shows, now), Upcoming(shows, now);
    forall c | c in ShowCards(t, past) ensures c.startTime <= now {
      var i :| 0 <= i < |past| && ShowCards(t, past)[i] == c;
      assert past[i] in past;
    }
    forall c | c in ShowCards(t, upcoming) ensures c.startTime > now {
      var i :| 0 <= i < |upcoming| && ShowCards(t, upcoming)[i] == c;
      assert upcoming[i] in upcoming;
    }
  }

  /**
   * `show_venue`. A venue that does not exist makes the handler fail
   * (`None`, the server-error page). Otherwise the page carries the venue's
   * columns, `seeking_talent` is true exactly when `seeking_description` is
   * non-empty, the past list is the cards of exactly the venue's shows that
   * started by `now` and the upcoming list those of the shows that start
   * after it, each in table order, and the counts are the lists' lengths.
   */
  function ShowVenue(t: Tables, id: int, now: int): (r: Option<VenueDetail>)
    requires ReferencesResolve(t)
    ensures r.Some? <==> HasVenue(t, id)
    ensures r.Some? ==> DescribesVenue(r.value, FindVenue(t.venues, id).value)
    ensures r.Some? ==> r.value.pastShowsCount == |r.value.pastShows|
    ensures r.Some? ==> r.value.upcomingShowsCount == |r.value.upcomingShows|
    ensures r.Some? ==> |r.value.pastShows| + |r.value.upcomingShows| == |VenueShows(t, id)|
    ensures r.Some? ==> SplitAt(r.value.pastShows, r.value.upcomingShows, now)
    ensures r.Some? ==> ArtistsExist(t, Past(VenueShows(t, id), now)) && ArtistsExist(t, Upcoming(VenueShows(t, id), now))
    ensures r.Some? ==> r.value.pastShows == ShowCards(t, Past(VenueShows(t, id), now))
    ensures r.Some? ==> r.value.upcomingShows == ShowCards(t, Upcoming(VenueShows(t, id), now))
  {
    match FindVenue(t.venues, id)
    case None => None
    case Some(v) =>
      var shows := VenueShows(t, id);
      PastUpcomingPartition(shows, now);
      ShowsOfTableHaveArtists(t, Past(shows, now));
      ShowsOfTableHaveArtists(t, Upcoming(shows, now));
      CardsSplitAt(t, shows, now);
      Some(VenueDetailOf(t, v, Past(shows, now), Upcoming(shows, now)))
  }

  /** `show_artist`: as `show_venue`, with `seeking_venue` and the artist's shows. */
  function ShowArtist(t: Tables, id: int, now: int): (r: Option<ArtistDetail>)
    requires ReferencesResolve(t)
    ensures r.Some? <==> HasArtist(t, id)
    ensures r.Some? ==> DescribesArtist(r.value, FindArtist(t.artists, id).value)
    ensures r.Some? ==> r.value.pastShowsCount == |r.value.pastShows|
    ensures r.Some? ==> r.value.upcomingShowsCount == |r.value.upcomingShows|
    ensures r.Some? ==> |r.value.pastShows| + |r.value.upcomingShows| == |ArtistShows(t, id)|
    ensures r.Some? ==> SplitAt(r.value.pastShows, r.value.upcomingShows, now)
    ensures r.Some? ==> ArtistsExist(t, Past(ArtistShows(t, id), now)) && ArtistsExist(t, Upcoming(ArtistShows(t, id), now))
    ensures r.Some? ==> r.value.pastShows == ShowCards(t, Past(ArtistShows(t, id), now))
    ensures r.Some? ==> r.value.upcomingShows == ShowCards(t, Upcoming(ArtistShows(t, id), now))
  {
    match FindArtist(t.artists, id)
    case None => None
    case Some(a) =>
      var shows := ArtistShows(t, id);
      PastUpcomingPartition(shows, now);
      ShowsOfTableHaveArtists(t, Past(shows, now));
      ShowsOfTableHaveArtists(t, Upcoming(shows, now));
      CardsSplitAt(t, shows, now);
      Some(ArtistDetailOf(t, a, Past(shows, now), Upcoming(shows, now)))
  }
}
