/**
 * The handlers of app.py that change the database: creating a venue, an
 * artist or a show, editing a venue or an artist, and deleting a venue. Each
 * runs against the shared session; whether the submitted form validates
 * (`form.validate_on_submit()`) and whether the storage answers are given as
 * parameters.
 */
module AppSubmit {
  import opened Wrappers
  import opened Models
  import opened Store
  import opened AppPages

  /** The fields of the venue form, as `form.<field>.data`. */
  datatype VenueForm = VenueForm(
    name: string,
    city: string,
    state: string,
    address: string,
    phone: string,
    imageLink: string,
    genres: seq<string>,
    facebookLink: string,
    website: Option<string>,
    seekingDescription: Option<string>)

  /** The fields of the artist form; it has no `website` field. */
  datatype ArtistForm = ArtistForm(
    name: string,
    city: string,
    state: string,
    phone: string,
    imageLink: string,
    genres: seq<string>,
    facebookLink: string,
    seekingDescription: Option<string>)

  datatype ShowForm = ShowForm(artistId: int, venueId: int, startTime: int)

  /** The message a handler flashes. */
  datatype Notice =
    | InvalidForm
    | VenueListed(name: string)
    | ArtistListed(name: string)
    | ShowListed
    | VenueEdited
    | ArtistEdited
    | ErrorOccurred

  /** Where a handler redirects. */
  datatype Target = IndexPage | VenueDetailPage(venueId: int) | ArtistDetailPage(artistId: int)

  datatype Response =
    | RenderForm(notice: Notice)
    | Redirect(to: Target, notice: Notice)

  // ---------------------------------------------------------------------
  // Between rows and forms
  // ---------------------------------------------------------------------

  /** `VenueForm(obj=venue)`: the form the edit page shows, filled from the row. */
  function VenueFormOf(v: Venue): VenueForm
  {
    VenueForm(v.name, v.city, v.state, v.address, v.phone, v.imageLink, v.genres,
              v.facebookLink, v.website, v.seekingDescription)
  }

  function ArtistFormOf(a: Artist): ArtistForm
  {
    ArtistForm(a.name, a.city, a.state, a.phone, a.imageLink, a.genres, a.facebookLink,
               a.seekingDescription)
  }

  /** `Venue(name=form.name.data, ...)` with the id the sequence hands out. */
  function VenueFromForm(f: VenueForm, id: int): (r: Venue)
    ensures r.id == id && VenueFormOf(r) == f
  {
    Venue(id, f.name, f.city, f.state, f.address, f.phone, f.imageLink, f.facebookLink,
          f.genres, f.seekingDescription, f.website)
  }

  /** `Artist(...)` from the form: the artist form carries no website, so none is stored. */
  function ArtistFromForm(f: ArtistForm, id: int): (r: Artist)
    ensures r.id == id && ArtistFormOf(r) == f && r.website.None?
  {
    Artist(id, f.name, f.city, f.state, f.phone, f.imageLink, f.facebookLink,
           f.genres, f.seekingDescription, None)
  }

  /** `form.populate_obj(venue)`: every form field overwrites its column; the id stays. */
  function PopulateVenue(v: Venue, f: VenueForm): (r: Venue)
    ensures r.id == v.id && VenueFormOf(r) == f
  {
    VenueFromForm(f, v.id)
  }

  /** `form.populate_obj(artist)`: the columns the form has are overwritten; id and website stay. */
  function PopulateArtist(a: Artist, f: ArtistForm): (r: Artist)
    ensures r.id == a.id && r.website == a.website && ArtistFormOf(r) == f
  {
    ArtistFromForm(f, a.id).(website := a.website)
  }

  /** Submitting the edit form unchanged leaves the row as it was. */
  lemma UnchangedEditKeepsVenue(v: Venue)
    ensures PopulateVenue(v, VenueFormOf(v)) == v
  {
  }

  lemma UnchangedEditKeepsArtist(a: Artist)
    ensures PopulateArtist(a, ArtistFormOf(a)) == a
  {
  }

  /** Populating is determined by the form alone: a second identical edit changes nothing. */
  lemma PopulateVenueIdempotent(v: Venue, f: VenueForm)
    ensures PopulateVenue(PopulateVenue(v, f), f) == PopulateVenue(v, f)
  {
  }

  lemma PopulateArtistIdempotent(a: Artist, f: ArtistForm)
    ensures PopulateArtist(PopulateArtist(a, f), f) == PopulateArtist(a, f)
  {
  }

  // ---------------------------------------------------------------------
  // The handlers
  // ---------------------------------------------------------------------

  /**
   * `create_venue_submission`. An invalid form re-renders with nothing
   * changed. Otherwise the venue is added under the next id and committed;
   * the commit fails, and is rolled back, when the storage does not answer or
   * a column is too wide. Either way the session is closed and the user sent
   * to the home page, where a listed venue comes first.
   */
  method CreateVenueSubmission(store: Session, form: VenueForm, formValid: bool, storageOk: bool)
    returns (r: Response)
    requires store.Valid() && store.Idle()
    modifies store
    ensures store.Valid() && store.Idle()
    ensures !formValid ==> r == RenderForm(InvalidForm) && store.committed == old(store.committed)
    ensures !formValid ==> store.nextVenueId == old(store.nextVenueId)
    ensures formValid ==>
      var row := VenueFromForm(form, old(store.nextVenueId));
      var ok := storageOk && VenueFits(row);
      && store.committed == (if ok then InsertVenue(old(store.committed), row) else old(store.committed))
      && r == Redirect(IndexPage, if ok then VenueListed(form.name) else ErrorOccurred)
      && store.nextVenueId == old(store.nextVenueId) + 1
      && (ok ==> Index(store.committed).recentVenues[0] == VenueCard(row))
    ensures store.nextArtistId == old(store.nextArtistId) && store.nextShowId == old(store.nextShowId)
  {
    if !formValid {
      return RenderForm(InvalidForm);
    }
    ghost var before := store.committed;
    var id := store.AddVenue(VenueFromForm(form, 0));
    assert VenueFromForm(form, 0).(id := id) == VenueFromForm(form, id);
    InsertVenueAccepted(before, VenueFromForm(form, id));
    var ok := store.Commit(storageOk);
    if ok {
      NewVenueListedFirst(before, VenueFromForm(form, id));
      r := Redirect(IndexPage, VenueListed(form.name));
    } else {
      store.Rollback();
      r := Redirect(IndexPage, ErrorOccurred);
    }
    store.Close();
  }

  /** `create_artist_submission`: as for a venue, with no website stored. */
  method CreateArtistSubmission(store: Session, form: ArtistForm, formValid: bool, storageOk: bool)
    returns (r: Response)
    requires store.Valid() && store.Idle()
    modifies store
    ensures store.Valid() && store.Idle()
    ensures !formValid ==> r == RenderForm(InvalidForm) && store.committed == old(store.committed)
    ensures !formValid ==> store.nextArtistId == old(store.nextArtistId)
    ensures formValid ==>
      var row := ArtistFromForm(form, old(store.nextArtistId));
      var ok := storageOk && ArtistFits(row);
      && store.committed == (if ok then InsertArtist(old(store.committed), row) else old(store.committed))
      && r == Redirect(IndexPage, if ok then ArtistListed(form.name) else ErrorOccurred)
      && store.nextArtistId == old(store.nextArtistId) + 1
      && (ok ==> Index(store.committed).recentArtists[0] == ArtistCard(row))
    ensures store.nextVenueId == old(store.nextVenueId) && store.nextShowId == old(store.nextShowId)
  {
    if !formValid {
      return RenderForm(InvalidForm);
    }
    ghost var before := store.committed;
    var id := store.AddArtist(ArtistFromForm(form, 0));
    assert ArtistFromForm(form, 0).(id := id) == ArtistFromForm(form, id);
    InsertArtistAccepted(before, ArtistFromForm(form, id));
    var ok := store.Commit(storageOk);
    if ok {
      NewArtistListedFirst(before, ArtistFromForm(form, id));
      r := Redirect(IndexPage, ArtistListed(form.name));
    } else {
      store.Rollback();
      r := Redirect(IndexPage, ErrorOccurred);
    }
    store.Close();
  }

  /**
   * `create_show_submission`: the show is committed exactly when the storage
   * answers and both foreign keys name existing rows.
   */
  method CreateShowSubmission(store: Session, form: ShowForm, formValid: bool, storageOk: bool)
    returns (r: Response)
    requires store.Valid() && store.Idle()
    modifies store
    ensures store.Valid() && store.Idle()
    ensures !formValid ==> r == RenderForm(InvalidForm) && store.committed == old(store.committed)
    ensures !formValid ==> store.nextShowId == old(store.nextShowId)
    ensures formValid ==>
      var row := Show(old(store.nextShowId), form.artistId, form.venueId, form.startTime);
      var ok := storageOk && HasArtist(old(store.committed), form.artistId)
                && HasVenue(old(store.committed), form.venueId);
      && store.committed == (if ok then InsertShow(old(store.committed), row) else old(store.committed))
      && r == Redirect(IndexPage, if ok then ShowListed else ErrorOccurred)
      && store.nextShowId == old(store.nextShowId) + 1
    ensures store.nextVenueId == old(store.nextVenueId) && store.nextArtistId == old(store.nextArtistId)
  {
    if !formValid {
      return RenderForm(InvalidForm);
    }
    ghost var before := store.committed;
    var id := store.AddShow(Show(0, form.artistId, form.venueId, form.startTime));
    InsertShowAccepted(before, Show(id, form.artistId, form.venueId, form.startTime));
    var ok := store.Commit(storageOk);
    if ok {
      r := Redirect(IndexPage, ShowListed);
    } else {
      store.Rollback();
      r := Redirect(IndexPage, ErrorOccurred);
    }
    store.Close();
  }

  /**
   * `delete_venue`. The path segment is not converted to an integer, so
   * `venueId` is `None` when it does not name one; a missing venue makes
   * `db.session.delete` raise. The venue and its shows go exactly when it
   * exists and the storage answers; a cascading delete never fails a
   * constraint.
   */
  method DeleteVenue(store: Session, venueId: Option<int>, storageOk: bool) returns (success: bool)
    requires store.Valid() && store.Idle()
    modifies store
    ensures store.Valid() && store.Idle()
    ensures success == (venueId.Some? && HasVenue(old(store.committed), venueId.value) && storageOk)
    ensures store.committed ==
      (if success then DeleteVenueCascade(old(store.committed), venueId.value) else old(store.committed))
    ensures store.nextVenueId == old(store.nextVenueId) && store.nextArtistId == old(store.nextArtistId)
    ensures store.nextShowId == old(store.nextShowId)
  {
    if venueId.None? || store.GetVenue(venueId.value).None? {
      store.Rollback();
      store.Close();
      return false;
    }
    DeleteVenueKeepsConstraints(store.working, venueId.value);
    store.DeleteVenue(venueId.value);
    success := store.Commit(storageOk);
    if !success {
      store.Rollback();
    }
    store.Close();
  }

  /**
   * `edit_venue_submission`. An invalid form re-renders with nothing changed.
   * Otherwise the form overwrites the venue's columns and the change is
   * committed, or rolled back when the storage does not answer, a column is
   * too wide, or there is no such venue (`populate_obj` on `None` raises);
   * every one of these redirects to the venue's page.
   */
  method EditVenueSubmission(store: Session, venueId: int, form: VenueForm, formValid: bool, storageOk: bool)
    returns (r: Response)
    requires store.Valid() && store.Idle()
    modifies store
    ensures store.Valid() && store.Idle()
    ensures !formValid ==> r == RenderForm(InvalidForm) && store.committed == old(store.committed)
    ensures formValid ==>
      var found := FindVenue(old(store.committed).venues, venueId);
      var ok := found.Some? && storageOk && VenueFits(PopulateVenue(found.value, form));
      && store.committed ==
        (if ok then ReplaceVenue(old(store.committed), PopulateVenue(found.value, form)) else old(store.committed))
      && r == Redirect(VenueDetailPage(venueId), if ok then VenueEdited else ErrorOccurred)
    ensures store.nextVenueId == old(store.nextVenueId) && store.nextArtistId == old(store.nextArtistId)
    ensures store.nextShowId == old(store.nextShowId)
  {
    if !formValid {
      return RenderForm(InvalidForm);
    }
    var venue := store.GetVenue(venueId);
    if venue.None? {
      store.Rollback();
      return Redirect(VenueDetailPage(venueId), ErrorOccurred);
    }
    var row := PopulateVenue(venue.value, form);
    ReplaceVenueAccepted(store.working, row);
    store.UpdateVenue(row);
    var ok := store.Commit(storageOk);
    if ok {
      r := Redirect(VenueDetailPage(venueId), VenueEdited);
    } else {
      store.Rollback();
      r := Redirect(VenueDetailPage(venueId), ErrorOccurred);
    }
  }

  /** `edit_artist_submission`: as for a venue; the artist keeps its website. */
  method EditArtistSubmission(store: Session, artistId: int, form: ArtistForm, formValid: bool, storageOk: bool)
    returns (r: Response)
    requires store.Valid() && store.Idle()
    modifies store
    ensures store.Valid() && store.Idle()
    ensures !formValid ==> r == RenderForm(InvalidForm) && store.committed == old(store.committed)
    ensures formValid ==>
      var found := FindArtist(old(store.committed).artists, artistId);
      var ok := found.Some? && storageOk && ArtistFits(PopulateArtist(found.value, form));
      && store.committed ==
        (if ok then ReplaceArtist(old(store.committed), PopulateArtist(found.value, form)) else old(store.committed))
      && r == Redirect(ArtistDetailPage(artistId), if ok then ArtistEdited else ErrorOccurred)
    ensures store.nextVenueId == old(store.nextVenueId) && store.nextArtistId == old(store.nextArtistId)
    ensures store.nextShowId == old(store.nextShowId)
  {
    if !formValid {
      return RenderForm(InvalidForm);
    }
    var artist := store.GetArtist(artistId);
    if artist.None? {
      store.Rollback();
      return Redirect(ArtistDetailPage(artistId), ErrorOccurred);
    }
    var row := PopulateArtist(artist.value, form);
    ReplaceArtistAccepted(store.working, row);
    store.UpdateArtist(row);
    var ok := store.Commit(storageOk);
    if ok {
      r := Redirect(ArtistDetailPage(artistId), ArtistEdited);
    } else {
      store.Rollback();
      r := Redirect(ArtistDetailPage(artistId), ErrorOccurred);
    }
  }
}
