# fyyur booking directory: a Dafny model

fyyur is a small Flask site that lists music venues, artists and the shows that
bring them together. This project models its core as an in-memory booking
store:

- the three tables and the constraints their schema declares;
- the session that the request handlers change and then commit or roll back;
- the pages the handlers compute from the tables.

The model covers:

- the home page (the six most recent venues and artists);
- the venues page, grouped by `(city, state)`;
- name search with `ILIKE`;
- the venue and artist detail pages, with their past/upcoming split;
- the create, edit and delete handlers, each with its validation gate and its
  commit-or-rollback.

In the model:

- A table is a sequence of rows in storage order.
- The current time and the start time of a show are integers.
- Whether a submitted form validates, and whether the storage answers, are
  parameters of the handlers.

Modules, in dependency order:

- `Wrappers`: `Option`.
- `Seqs`: an order-keeping `Filter`, subsequences, `MapSeq`.
- `Text`: ASCII lower-casing, the string order Python's `sorted` uses, and the
  SQL `LIKE`/`ILIKE` matcher.
- `Ordering`: `(city, state)` order, the location sort, and the
  top-n-by-id selection behind `order_by(id.desc()).limit(6)`.
- `Models`: rows, tables and the schema's constraints (`Accepts`). It also
  gives the effect of an insert, an update and a cascading delete on the
  tables.
- `Store`: the class `Session`. It holds the committed tables, the session's
  working tables and the three id sequences, with `add`, `delete`,
  `populate_obj`, `commit`, `rollback` and `close`.
- `AppPages`: `index`, `venues` (a loop over a dictionary, as in the source),
  `artists` and `shows`.
- `AppSearch`: `search_venues` and `search_artists`.
- `AppDetail`: `show_venue`, `show_artist` and `show_to_dict` of app.py.
- `Views`: src/views.py's query-based `show_venue` and `show_artist`, proved
  equal to app.py's.
- `AppSubmit`: the create, edit and delete handlers as methods on a
  `Store.Session`.

src/views.py repeats app.py's controllers line for line, with one exception:
the two detail pages, which src/views.py builds with join-and-filter queries
(the `Views` module covers them). Each other member below therefore models
both copies.

- Where a row cites app.py, the same code is in src/views.py:
  - `index` at 8-25; `venues` at 31-61; `search_venues` at 64-89; `search_artists` at 224-249;
  - `create_venue_submission` at 152-183; `delete_venue` at 192-207;
  - the edits at 300-343; `create_artist_submission` at 355-384; `shows` at 396-409;
  - `create_show_submission` at 420-445.
- The schema is declared twice in the same words: at app.py:37-88 and at
  src/models.py:9-61.

## Model

| member | source | states |
|---|---|---|
| Text.LikeMatch | app.py:173-175 | SQL `LIKE` with `%`, `_` and `\` escapes; a pattern with none of these characters matches exactly the string equal to it |
| Text.ILike | app.py:173-175 | `ILIKE`: `LIKE` after lower-casing both sides; without special characters it is equality ignoring ASCII case |
| Text.ILikeIsContainsIgnoringCase | app.py:173-175 | for a term without `%`, `_` or `\`, `name ILIKE '%term%'` holds exactly when the name contains the term ignoring ASCII case |
| Text.PercentTermMatchesAll | app.py:173-175 | a term of `%` is a wildcard: the pattern `%%%` matches every name |
| Text.LowerStringAppend | app.py:173-175 | lower-casing distributes over concatenation, so the built pattern lower-cases piecewise |
| Text.StringLessTransitive | app.py:149 | the code-point order Python uses to compare strings is transitive |
| Text.StringLessTotal | app.py:149 | two different strings are always ordered one way or the other |
| Ordering.LocationLess | app.py:149 | Python's order on `(city, state)` tuples is strict: a location that precedes another is different from it |
| Ordering.LocationLessTransitive | app.py:149 | the `(city, state)` tuple order is transitive |
| Ordering.LocationLessTotal | app.py:149 | two different locations are ordered |
| Ordering.LocationLessAsymmetric | app.py:149 | no two locations precede each other, and a location does not precede itself |
| Ordering.SortLocations | app.py:149 | `sorted(locations.items())` keeps exactly the locations it was given (same multiset) |
| Ordering.SortLocationsAscending | app.py:149 | sorting distinct locations gives them in strictly ascending order, same number, same members |
| Ordering.SortByKeyDescending | app.py:118 | `order_by(id.desc())` returns the same rows it was given (same multiset) |
| Ordering.SortDescending | app.py:114 | `order_by(id.desc())` over rows with distinct ids is strictly descending by id and keeps every row |
| Ordering.TopByKey | app.py:118 | `.limit(n)` after the sort: at most `n` rows, no more than the table holds, every one from the table |
| Ordering.TopByKeyIsLargest | app.py:114-125 | `order_by(id.desc()).limit(n)` gives min(n, row count) rows, strictly descending, all from the table; every row left out has a smaller id than every row returned |
| Models.Accepts | src/models.py:11-58 | in any state the schema accepts, every show's artist and venue can be looked up by `query.get` (the foreign keys resolve) |
| Models.InsertVenue | app.py:264-265 | inserting a venue appends its row and leaves the other tables alone; its id and every id present before can be found afterwards |
| Models.InsertArtist | app.py:454-455 | the same for an artist |
| Models.InsertShow | app.py:515-516 | inserting a show appends it; when its artist and venue exist, the foreign keys keep resolving |
| Models.FindVenue | app.py:198 | `Venue.query.get(id)` finds the row with that id when there is one, and `None` exactly when there is none |
| Models.FindVenueByKey | src/models.py:11 | because `id` is the primary key, `Venue.query.get(v.id)` returns `v` itself |
| Models.FindArtistByKey | src/models.py:33 | the same for `Artist.query.get(a.id)` |
| Models.FindArtist | app.py:347 | `Artist.query.get(id)`, as for venues |
| Models.DeleteVenueCascade | src/models.py:22-23 | deleting a venue removes it (no row with that id remains) and exactly the shows at it; artists are untouched |
| Models.DeleteArtistCascade | src/models.py:43-44 | deleting an artist removes it and exactly the shows it plays; venues are untouched |
| Models.DeleteVenueKeepsConstraints | src/models.py:22-23 | on tables that satisfy every constraint, a cascading venue delete leaves them all satisfied |
| Models.DeleteArtistKeepsConstraints | src/models.py:43-44 | the same for an artist |
| Models.DeleteWithoutCascadeBreaksIntegrity | src/models.py:56-57 | removing a venue that has a show without removing the show breaks the foreign key; the cascade is what keeps it |
| Models.InsertVenueAccepted | src/models.py:9-25 | a new venue row under a fresh id is accepted by the schema exactly when every value fits its `String(120)`/`String(500)` column |
| Models.InsertArtistAccepted | src/models.py:31-46 | the same for an artist row |
| Models.InsertShowAccepted | src/models.py:53-58 | a new show under a fresh id is accepted exactly when its `artist_id` and its `venue_id` name existing rows |
| Models.ReplaceVenueAccepted | src/models.py:9-25 | overwriting an existing venue's columns is accepted exactly when the new values fit |
| Models.ReplaceArtistAccepted | src/models.py:31-46 | the same for an artist |
| Models.ReplaceVenue | app.py:417 | the row with the venue's id takes the new values; every other row, and the other tables, are unchanged |
| Models.ReplaceArtist | app.py:390 | the same for an artist |
| Store.Session.constructor | src/models.py:9-61 | an empty database satisfies the schema; each `serial` sequence starts at 1 |
| Store.Session.GetVenue | app.py:288 | `Venue.query.get` within the session: `Some` exactly when the session holds a venue with that id, and then that row |
| Store.Session.GetArtist | app.py:384 | the same for artists |
| Store.Session.AddVenue | app.py:264 | `db.session.add`: the venue takes the next sequence value as its id and is appended to the session's rows; nothing is committed |
| Store.Session.AddArtist | app.py:454 | the same for an artist |
| Store.Session.AddShow | app.py:515 | the same for a show |
| Store.Session.DeleteVenue | app.py:289 | `db.session.delete` on a venue in the session: the cascading delete, uncommitted |
| Store.Session.UpdateVenue | app.py:417 | `form.populate_obj(venue)`: the row is replaced in the session, uncommitted |
| Store.Session.UpdateArtist | app.py:390 | the same for an artist |
| Store.Session.Commit | app.py:265 | `db.session.commit()` succeeds exactly when the storage answers and the session's tables satisfy every constraint; only then do they become the database; the database always stays valid |
| Store.Session.Rollback | app.py:269-270 | `db.session.rollback()` drops every pending change; the database is unchanged and the sequences are not rewound |
| Store.Session.Close | app.py:273-274 | `db.session.close()` leaves nothing uncommitted and changes nothing committed |
| AppPages.RecentCards | app.py:114-125 | the cards of the top six rows by id are at most six, strictly descending, from the table, and larger than every row left out |
| AppPages.Index | app.py:110-127 | `index`: at most 6 venues and 6 artists, each list strictly descending by id, every entry drawn from its table, and each row is either listed or has a smaller id than every listed one |
| AppPages.NewVenueListedFirst | app.py:114-117 | a venue inserted with an id above all others becomes the first card on the home page |
| AppPages.NewArtistListedFirst | app.py:121-124 | the same for an artist |
| AppPages.VenuesAt | app.py:139-146 | the venues kept for a location are exactly the table's venues at that `(city, state)` |
| AppPages.VenuesAtExtend | app.py:139-146 | one more venue is appended to its own location's list only, keeping order |
| AppPages.CollectStepKnown | app.py:143-144 | the `locations[lc].append(v)` branch keeps the dictionary equal to the grouping of the venues seen so far |
| AppPages.CollectStepNew | app.py:145-146 | the `locations[lc] = [v]` branch adds a new key holding just this venue and keeps the same relation |
| AppPages.CollectLocations | app.py:141-146 | the loop leaves every location seen as a key, each holding that location's venues in query order, and no empty list |
| AppPages.AreasFromSortedKeys | app.py:148-161 | building one area per sorted key gives the venues page's grouping |
| AppPages.Venues | app.py:133-163 | `venues`: areas in strictly ascending `(city, state)` order, one per location that has a venue, each listing exactly that location's venues as `{id, name}` in query order, and none empty |
| AppPages.EntryIsAtOwnLocation | app.py:139-146 | a venue's entry appears only in the area of its own location |
| AppPages.EachVenueInExactlyOneArea | app.py:139-161 | every venue appears in exactly one area, the one whose `(city, state)` is its own |
| AppPages.Artists | app.py:306-313 | `artists`: one `{id, name}` entry per artist, in query order |
| AppPages.Shows | app.py:476-489 | `shows`: one entry per show, in query order, with its venue's name and its artist's name and image link |
| AppSearch.SearchNames | app.py:166-191 | an absent or empty term redirects without searching; any other term lists exactly the entries whose name matches `ILIKE '%term%'`, with `count` their number and the term echoed back |
| AppSearch.SearchIsSubstringSearch | app.py:173-178 | for a non-empty literal term, the results are exactly the entries whose name contains the term ignoring case, in table order, and `count` is their number |
| AppSearch.SearchVenues | app.py:166-191 | `search_venues`: an empty term redirects to the venues page; otherwise `search_term` echoes the term, a venue is listed exactly when its name matches, only venues are listed, and `count` is the number listed. For a term without `%`, `_` or `\` the list is exactly the venues whose name contains the term ignoring case, in table order |
| AppSearch.SearchArtists | app.py:315-340 | `search_artists` as written: an empty term redirects to the venues page; otherwise `search_term` echoes the term, an artist is listed exactly when its name matches, only artists are listed, and `count` is the number listed. For a term without `%`, `_` or `\` the list is exactly the artists whose name contains the term ignoring case, in table order |
| AppSearch.SearchArtistsCorrected | app.py:339-340 | an empty term redirects to the artists page; any other term gives the same results as the written handler |
| AppSearch.EmptyArtistSearchLeavesArtists | app.py:339-340 | on an empty artist search the written handler goes to the venues page and the corrected one to the artists page |
| AppSearch.PercentTermMatchesEveryVenue | app.py:173-175 | searching venues for `%` lists every venue, in table order |
| AppDetail.Truthy | app.py:209 | `bool(seeking_description)` is true exactly when a description is present and non-empty |
| AppDetail.Upcoming | app.py:214 | `[i for i in shows if i.start_time > now]`: exactly the shows that start after `now`, in their original order |
| AppDetail.Past | app.py:215 | `[i for i in shows if i.start_time <= now]`: exactly the shows that started by `now`, in their original order |
| AppDetail.PastUpcomingPartition | app.py:214-215 | upcoming shows are exactly those with `start_time > now` and past ones those with `start_time <= now`; the two are disjoint, together make up all the shows (as a multiset and by count), and each keeps the original order |
| AppDetail.ShowToDict | app.py:223-230 | `show_to_dict`: the show's artist id and start time, with the name and image link of the artist it references |
| AppDetail.ShowCards | app.py:216-217 | `map(show_to_dict, ...)`: one card per show, in order, each card the `show_to_dict` of the show at that position (its artist id, the artist's name and image link, its time) |
| AppDetail.VenueShows | src/models.py:22-23 | `v.shows` holds exactly the shows whose `venue_id` is the venue's |
| AppDetail.ArtistShows | src/models.py:43-44 | `a.shows` holds exactly the shows whose `artist_id` is the artist's |
| AppDetail.VenueDetailOf | app.py:198-219 | the venue page carries the row's columns, `seeking_talent` as the truthiness of the description, the past and upcoming lists as the `show_to_dict` cards of the given shows, and each count equal to its list's length |
| AppDetail.ArtistDetailOf | app.py:347-366 | the same for the artist page: no address or website, `seeking_venue`, the lists as the cards of the given shows |
| AppDetail.ShowsOfTableHaveArtists | src/models.py:56 | under the foreign key, every show of a table has an artist, so `show_to_dict` is defined on it |
| AppDetail.CardsSplitAt | app.py:214-217 | the past cards all start at or before `now` and the upcoming ones after it |
| AppDetail.ShowVenue | app.py:194-220 | `show_venue`: a page exactly when the venue exists, describing that venue; `past_shows` is the cards of exactly the venue's shows with `start_time <= now` and `upcoming_shows` those with `start_time > now`, each in the order of `v.shows`; together they are as many as the venue's shows, and each count equals its list's length |
| AppDetail.ShowArtist | app.py:343-367 | `show_artist`: the same for an artist, over the shows it plays |
| Views.JoinVenue | src/views.py:113-114 | `query(Show).join(Venue)` keeps exactly the shows whose venue exists |
| Views.JoinArtist | src/views.py:271-272 | `query(Show).join(Artist)` keeps exactly the shows whose artist exists |
| Views.PastVenueShowsQuery | src/views.py:113-117 | the past query returns exactly the joined shows at the venue with `start_time <= now` |
| Views.UpcomingVenueShowsQuery | src/views.py:119-123 | the upcoming query returns exactly those with `start_time > now` |
| Views.PastArtistShowsQuery | src/views.py:271-275 | the same for an artist's past shows |
| Views.UpcomingArtistShowsQuery | src/views.py:277-281 | the same for an artist's upcoming shows |
| Views.ShowVenue | src/views.py:92-129 | src/views.py's `show_venue` gives a page exactly when the venue exists, and under the foreign keys that page equals app.py's `show_venue` page, lists and counts included |
| Views.ShowArtist | src/views.py:252-287 | src/views.py's `show_artist` gives a page exactly when the artist exists, and that page equals app.py's |
| Views.ShowVenueAgrees | src/views.py:111-128 | under the foreign keys, the query-built venue page equals app.py's: each query returns the in-memory split's list in the same order |
| Views.ShowArtistAgrees | src/views.py:269-286 | the same for the artist page |
| AppSubmit.VenueFromForm | app.py:252-263 | the new venue takes the id it is given and every value the form submitted (reading the form back from the row gives the submitted form) |
| AppSubmit.ArtistFromForm | app.py:444-453 | the new artist takes every value of the artist form, and its website is unset |
| AppSubmit.PopulateVenue | app.py:417 | `populate_obj` keeps the id and makes every form field's column equal to the submitted value |
| AppSubmit.PopulateArtist | app.py:390 | the artist keeps its id and its website (the form has no such field); every other column takes the submitted value |
| AppSubmit.UnchangedEditKeepsVenue | app.py:400-404 | submitting the edit form exactly as `VenueForm(obj=venue)` filled it leaves the venue as it was |
| AppSubmit.UnchangedEditKeepsArtist | app.py:373-377 | the same for an artist |
| AppSubmit.PopulateVenueIdempotent | app.py:417 | repeating an edit with the same form changes nothing further |
| AppSubmit.PopulateArtistIdempotent | app.py:390 | the same for an artist |
| AppSubmit.CreateVenueSubmission | app.py:243-274 | an invalid form re-renders with the store unchanged. Otherwise the venue is committed under the next id exactly when the storage answers and its values fit. A failure rolls back to the unchanged database. The user is sent home in both cases, and a listed venue is the home page's first card |
| AppSubmit.CreateArtistSubmission | app.py:435-464 | the same for an artist: the new row has no website and becomes the first artist card |
| AppSubmit.CreateShowSubmission | app.py:500-525 | an invalid form changes nothing; otherwise the show is committed exactly when the storage answers and both its artist and its venue exist, and on failure the database is unchanged |
| AppSubmit.DeleteVenue | app.py:283-298 | `success` is true exactly when the id names an existing venue and the storage answers, and then the venue and exactly its shows are gone; otherwise the database is unchanged |
| AppSubmit.EditVenueSubmission | app.py:407-423 | an invalid form re-renders with nothing changed. Otherwise the venue's columns take the form's values exactly when it exists, the storage answers and the values fit; in every other case the database is unchanged. Either way the user is redirected to the venue's page |
| AppSubmit.EditArtistSubmission | app.py:380-396 | the same for an artist, which keeps its website |

## Left out

- Rendering of templates, `flash` texts, `redirect`/`url_for` and `jsonify`.
  These are reduced to a tagged response: the form re-rendered, or a redirect
  target with the message.
- Form validation (`validate_on_submit`) and WTForms' field conversion.
  - Validity is a boolean parameter, and the form's values are given as
    already converted.
  - forms.py is not part of this model.
  - The artist form is taken to have no `website` field: `create_artist_submission` never reads one.
- The GET handlers that only render a form (`create_venue_form`,
  `create_artist_form`, `create_shows`, `edit_venue`, `edit_artist`). The
  filling of an edit form from a row is modelled as `AppSubmit.VenueFormOf`
  and `AppSubmit.ArtistFormOf`.
- `num_upcoming_shows` in the search results: the handler stores an
  unevaluated query object there, not a number, so nothing is claimed about it.
- `datetime.now()`: `now` is a parameter. `str(start_time)`, `format_datetime`
  (babel) and time zones are not modelled; a time is an integer.
- Logging setup, `app.run`, the error handlers and static/js/script.js (browser UI).
- Postgres detail:
  - Case folding other than ASCII, and collation: names are compared code point by code point.
  - A sequence value is drawn when a row is added, even if the commit then fails.
    Postgres draws it at flush, so a failure before the flush would not consume it.
- The order of an unordered query (`query.all()`, `filter(...).all()`, a
  relationship list). It is taken to be storage order, which Postgres does not
  promise.
- Nullable columns other than `website` and `seeking_description` are plain
  strings in the model:
  - A `NULL` city or state would make `sorted` raise.
  - `genres` is a list of strings.
- AppDetail.ShowVenue: a missing venue, where the handler raises and the site
  answers with its error page, is modelled as `None`.
- AppDetail.ShowVenue, AppDetail.ShowArtist, Views.ShowVenue, Views.ShowArtist
  and AppPages.Shows require the foreign keys to hold, which every committed
  state satisfies. Without them `show.artist` would be `None` and the handler
  would raise.
- Models.InsertVenueAccepted, Models.InsertArtistAccepted, Models.ReplaceVenueAccepted,
  Models.ReplaceArtistAccepted, AppSubmit.CreateVenueSubmission,
  AppSubmit.CreateArtistSubmission, AppSubmit.EditVenueSubmission,
  AppSubmit.EditArtistSubmission: a value longer than its `String(n)` column is
  always rejected here. Postgres instead stores it cut to `n` characters when
  everything past `n` is spaces. Postgres also rejects a NUL character in any
  text value, which the model accepts. Neither is modelled.
- The edit handlers do not close the session, unlike create and delete. The
  model leaves the session idle after them too, because a commit or a rollback
  has already emptied it.
- Concurrent requests: each handler runs alone against the session.
- Store.Session.AddVenue, Store.Session.AddArtist, Store.Session.AddShow: ids and the
  `serial` sequences are unbounded integers. The `db.Integer` keys are 32-bit,
  and a sequence would fail after 2147483647. Nothing in the model depends on that bound.

## Findings

| source | as written | input that shows it | evidently intended | confidence | as-written member | corrected member |
|---|---|---|---|---|---|---|
| app.py:339-340 (and src/views.py:248-249) | `search_artists` with no search term redirects to `url_for('venues')`, the venues listing | an empty search submitted from the artists page (`search_term=""`) | redirect to `url_for('artists')`, the listing the artist search belongs to (the branch is copied from `search_venues`) | medium, not executed | AppSearch.SearchArtists, AppSearch.EmptyArtistSearchLeavesArtists | AppSearch.SearchArtistsCorrected |
