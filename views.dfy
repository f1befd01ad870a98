/**
 * src/views.py repeats app.py's handlers line for line except in
 * `show_venue` and `show_artist`, which build the past and upcoming lists
 * with queries: `query(Show).join(Venue).filter(venue_id == id)` followed by
 * a filter on `start_time`. This module models those queries and proves that
 * they give the same page as app.py's in-memory split.
 */
module Views {
  import opened Wrappers
  import opened Seqs
  import opened Models
  import opened AppDetail

  /** `query(Show).join(Venue)`: the shows that have a matching venue row. */
  function JoinVenue(t: Tables): (r: seq<Show>)
    ensures forall s :: s in r <==> s in t.shows && HasVenue(t, s.venueId)
  {
    Filter(t.shows, (s: Show) => HasVenue(t, s.venueId))
  }

  /** `query(Show).join(Artist)`: the shows that have a matching artist row. */
  function JoinArtist(t: Tables): (r: seq<Show>)
    ensures forall s :: s in r <==> s in t.shows && HasArtist(t, s.artistId)
  {
    Filter(t.shows, (s: Show) => HasArtist(t, s.artistId))
  }

  /** `join_venue.filter(Show.venue_id == venue_id).filter(Show.start_time <= now)` */
  function PastVenueShowsQuery(t: Tables, id: int, now: int): (r: seq<Show>)
    ensures forall s :: s in r <==> s in t.shows && HasVenue(t, s.venueId) && s.venueId == id && s.startTime <= now
  {
    Filter(Filter(JoinVenue(t), AtVenue(id)), StartedBy(now))
  }

  /** The same query with `Show.start_time > now`. */
  function UpcomingVenueShowsQuery(t: Tables, id: int, now: int): (r: seq<Show>)
    ensures forall s :: s in r <==> s in t.shows && HasVenue(t, s.venueId) && s.venueId == id && s.startTime > now
  {
    Filter(Filter(JoinVenue(t), AtVenue(id)), StartsAfter(now))
  }

  function PastArtistShowsQuery(t: Tables, id: int, now: int): (r: seq<Show>)
    ensures forall s :: s in r <==> s in t.shows && HasArtist(t, s.artistId) && s.artistId == id && s.startTime <= now
  {
    Filter(Filter(JoinArtist(t), ByArtist(id)), StartedBy(now))
  }

  function UpcomingArtistShowsQuery(t: Tables, id: int, now: int): (r: seq<Show>)
    ensures forall s :: s in r <==> s in t.shows && HasArtist(t, s.artistId) && s.artistId == id && s.startTime > now
  {
    Filter(Filter(JoinArtist(t), ByArtist(id)), StartsAfter(now))
  }

  /** `show_venue` of src/views.py: the same page as app.py's, since the join drops no show. */
  function ShowVenue(t: Tables, id: int, now: int): (r: Option<VenueDetail>)
    requires ReferencesResolve(t)
    ensures r.Some? <==> HasVenue(t, id)
    ensures r == AppDetail.ShowVenue(t, id, now)
  {
    FilterKeepsAll(t.shows, (s: Show) => HasVenue(t, s.venueId));
    match FindVenue(t.venues, id)
    case None => None
    case Some(v) =>
      Some(VenueDetailOf(t, v, PastVenueShowsQuery(t, id, now), UpcomingVenueShowsQuery(t, id, now)))
  }

  /** `show_artist` of src/views.py: the same page as app.py's. */
  function ShowArtist(t: Tables, id: int, now: int): (r: Option<ArtistDetail>)
    requires ReferencesResolve(t)
    ensures r.Some? <==> HasArtist(t, id)
    ensures r == AppDetail.ShowArtist(t, id, now)
  {
    FilterKeepsAll(t.shows, (s: Show) => HasArtist(t, s.artistId));
    match FindArtist(t.artists, id)
    case None => None
    case Some(a) =>
      Some(ArtistDetailOf(t, a, PastArtistShowsQuery(t, id, now), UpcomingArtistShowsQuery(t, id, now)))
  }

  /**
   * Under the foreign keys the join drops no show, so the queries of
   * src/views.py return app.py's lists, in the same order, and both modules
   * render the same venue page.
   */
  lemma ShowVenueAgrees(t: Tables, id: int, now: int)
    requires ReferencesResolve(t)
    ensures ShowVenue(t, id, now) == AppDetail.ShowVenue(t, id, now)
    ensures PastVenueShowsQuery(t, id, now) == Past(VenueShows(t, id), now)
    ensures UpcomingVenueShowsQuery(t, id, now) == Upcoming(VenueShows(t, id), now)
  {
    FilterKeepsAll(t.shows, (s: Show) => HasVenue(t, s.venueId));
  }

  lemma ShowArtistAgrees(t: Tables, id: int, now: int)
    requires ReferencesResolve(t)
    ensures ShowArtist(t, id, now) == AppDetail.ShowArtist(t, id, now)
    ensures PastArtistShowsQuery(t, id, now) == Past(ArtistShows(t, id), now)
    ensures UpcomingArtistShowsQuery(t, id, now) == Upcoming(ArtistShows(t, id), now)
  {
    FilterKeepsAll(t.shows, (s: Show) => HasArtist(t, s.artistId));
  }
}
