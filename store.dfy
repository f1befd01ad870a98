/**
 * The database behind `db.session`: the committed tables, the session's
 * working copy with its uncommitted changes, and the three `serial` id
 * sequences. A commit runs the schema's constraint checks; a rollback or a
 * close discards what was not committed.
 */
module Store {
  import opened Wrappers
  import opened Models

  /** Every id in `t` is below the next value of its table's sequence. */
  predicate IdsBelow(t: Tables, nextVenue: int, nextArtist: int, nextShow: int)
  {
    && (forall v :: v in t.venues ==> v.id < nextVenue)
    && (forall a :: a in t.artists ==> a.id < nextArtist)
    && (forall s :: s in t.shows ==> s.id < nextShow)
  }

  class Session {
    /** The rows the database holds. */
    var committed: Tables
    /** The rows as this session sees them, including its pending changes. */
    var working: Tables
    /** Next values of the `Venue`, `Artist` and `Show` id sequences. */
    var nextVenueId: int
    var nextArtistId: int
    var nextShowId: int

    ghost predicate Valid()
      reads this
    {
      && Accepts(committed)
      && IdsBelow(committed, nextVenueId, nextArtistId, nextShowId)
      && IdsBelow(working, nextVenueId, nextArtistId, nextShowId)
    }

    /** No change is pending: the state between two requests. */
    predicate Idle()
      reads this
    {
      working == committed
    }

    /** An empty database; `serial` sequences start at 1. */
    constructor ()
      ensures Valid() && Idle()
      ensures committed == Tables([], [], [])
      ensures nextVenueId == 1 && nextArtistId == 1 && nextShowId == 1
    {
      committed := Tables([], [], []);
      working := Tables([], [], []);
      nextVenueId, nextArtistId, nextShowId := 1, 1, 1;
    }

    /** `Venue.query.get(id)` within the session. */
    function GetVenue(id: int): (r: Option<Venue>)
      reads this
      ensures r.Some? <==> HasVenue(working, id)
      ensures r.Some? ==> r.value in working.venues && r.value.id == id
    {
      FindVenue(working.venues, id)
    }

    function GetArtist(id: int): (r: Option<Artist>)
      reads this
      ensures r.Some? <==> HasArtist(working, id)
      ensures r.Some? ==> r.value in working.artists && r.value.id == id
    {
      FindArtist(working.artists, id)
    }

    /** `db.session.add(v)` for a new venue: it takes the next id of the sequence. */
    method AddVenue(v: Venue) returns (id: int)
      requires Valid()
      modifies this
      ensures Valid() && committed == old(committed)
      ensures id == old(nextVenueId) && nextVenueId == id + 1
      ensures working == InsertVenue(old(working), v.(id := id))
      ensures nextArtistId == old(nextArtistId) && nextShowId == old(nextShowId)
    {
      id := nextVenueId;
      working := InsertVenue(working, v.(id := id));
      nextVenueId := nextVenueId + 1;
    }

    method AddArtist(a: Artist) returns (id: int)
      requires Valid()
      modifies this
      ensures Valid() && committed == old(committed)
      ensures id == old(nextArtistId) && nextArtistId == id + 1
      ensures working == InsertArtist(old(working), a.(id := id))
      ensures nextVenueId == old(nextVenueId) && nextShowId == old(nextShowId)
    {
      id := nextArtistId;
      working := InsertArtist(working, a.(id := id));
      nextArtistId := nextArtistId + 1;
    }

    method AddShow(s: Show) returns (id: int)
      requires Valid()
      modifies this
      ensures Valid() && committed == old(committed)
      ensures id == old(nextShowId) && nextShowId == id + 1
      ensures working == InsertShow(old(working), s.(id := id))
      ensures nextVenueId == old(nextVenueId) && nextArtistId == old(nextArtistId)
    {
      id := nextShowId;
      working := InsertShow(working, s.(id := id));
      nextShowId := nextShowId + 1;
    }

    /** `db.session.delete(v)` on a venue the session holds; its shows go with it. */
    method DeleteVenue(id: int)
      requires Valid() && HasVenue(working, id)
      modifies this
      ensures Valid() && committed == old(committed)
      ensures working == DeleteVenueCascade(old(working), id)
      ensures nextVenueId == old(nextVenueId) && nextArtistId == old(nextArtistId)
      ensures nextShowId == old(nextShowId)
    {
      working := DeleteVenueCascade(working, id);
    }

    /** `form.populate_obj(v)` on a venue the session holds. */
    method UpdateVenue(v: Venue)
      requires Valid() && HasVenue(working, v.id)
      modifies this
      ensures Valid() && committed == old(committed)
      ensures working == ReplaceVenue(old(working), v)
      ensures nextVenueId == old(nextVenueId) && nextArtistId == old(nextArtistId)
      ensures nextShowId == old(nextShowId)
    {
      working := ReplaceVenue(working, v);
      forall w | w in working.venues ensures w.id < nextVenueId {
        var i :| 0 <= i < |working.venues| && working.venues[i] == w;
        assert old(working).venues[i] in old(working).venues;
      }
    }

    method UpdateArtist(a: Artist)
      requires Valid() && HasArtist(working, a.id)
      modifies this
      ensures Valid() && committed == old(committed)
      ensures working == ReplaceArtist(old(working), a)
      ensures nextVenueId == old(nextVenueId) && nextArtistId == old(nextArtistId)
      ensures nextShowId == old(nextShowId)
    {
      working := ReplaceArtist(working, a);
      forall w | w in working.artists ensures w.id < nextArtistId {
        var i :| 0 <= i < |working.artists| && working.artists[i] == w;
        assert old(working).artists[i] in old(working).artists;
      }
    }

    /**
     * `db.session.commit()`: succeeds when the storage is reachable and the
     * working tables satisfy every constraint; only then are they committed.
     */
    method Commit(storageOk: bool) returns (ok: bool)
      requires Valid()
      modifies this
      ensures Valid()
      ensures ok == (storageOk && Accepts(old(working)))
      ensures committed == (if ok then old(working) else old(committed))
      ensures working == old(working)
      ensures nextVenueId == old(nextVenueId) && nextArtistId == old(nextArtistId)
      ensures nextShowId == old(nextShowId)
    {
      ok := storageOk && Accepts(working);
      if ok {
        committed := working;
      }
    }

    /** `db.session.rollback()`: pending changes are dropped; sequences are not rewound. */
    method Rollback()
      requires Valid()
      modifies this
      ensures Valid() && Idle() && committed == old(committed)
      ensures nextVenueId == old(nextVenueId) && nextArtistId == old(nextArtistId)
      ensures nextShowId == old(nextShowId)
    {
      working := committed;
    }

    /** `db.session.close()`: the connection is released and nothing uncommitted survives. */
    method Close()
      requires Valid()
      modifies this
      ensures Valid() && Idle() && committed == old(committed)
      ensures nextVenueId == old(nextVenueId) && nextArtistId == old(nextArtistId)
      ensures nextShowId == old(nextShowId)
    {
      working := committed;
    }
  }
}
