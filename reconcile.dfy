/**
 * How MovieService and SerieService fold a command into a record: the setter chains
 * updateMovieFromDto / updateSerieFromDto (upsert of an existing record) and
 * updateMovieFromUpdateDto / updateSerieFromUpdateDto (partial update), which are the same
 * in both services, and the record built when the upsert finds nothing.
 */
module Reconcile {
  import opened Wrappers
  import opened JavaText
  import opened Entities
  import opened Dtos

  /** The upsert's overlay: text fields only when they have text, the others when non-null.
      The tmdbId, the id and the timestamps are never touched. */
  function OverlayFromTmdb(e: Entity, d: CreateFromTmdbDto): (r: Entity)
    ensures r.id == e.id && r.tmdbId == e.tmdbId
    ensures r.createdAt == e.createdAt && r.updatedAt == e.updatedAt
    ensures HasText(d.titleOverride) ==> r.title == d.titleOverride
    ensures !HasText(d.titleOverride) ==> r.title == e.title
    ensures d.rating.Some? ==> r.rating == d.rating
    ensures d.rating.None? ==> r.rating == e.rating
    ensures d.wishlist.Some? ==> r.wishlist == d.wishlist.value
    ensures d.wishlist.None? ==> r.wishlist == e.wishlist
    ensures HasText(d.review) ==> r.review == d.review
    ensures !HasText(d.review) ==> r.review == e.review
    ensures d.viewCount.Some? ==> r.viewCount == d.viewCount.value
    ensures d.viewCount.None? ==> r.viewCount == e.viewCount
    ensures d.watched.Some? ==> r.watched == d.watched.value
    ensures d.watched.None? ==> r.watched == e.watched
  {
    var title := if HasText(d.titleOverride) then d.titleOverride else e.title;
    var rating := if d.rating.Some? then d.rating else e.rating;
    var review := if HasText(d.review) then d.review else e.review;
    Entity(e.id, title, e.tmdbId, rating, d.wishlist.GetOr(e.wishlist), review,
           d.viewCount.GetOr(e.viewCount), d.watched.GetOr(e.watched), e.createdAt, e.updatedAt)
  }

  /** The partial update's overlay: as above, and a non-null tmdbId replaces the stored one. */
  function OverlayUpdate(e: Entity, d: UpdateDto): (r: Entity)
    ensures r.id == e.id && r.createdAt == e.createdAt && r.updatedAt == e.updatedAt
    ensures HasText(d.title) ==> r.title == d.title
    ensures !HasText(d.title) ==> r.title == e.title
    ensures d.tmdbId.Some? ==> r.tmdbId == d.tmdbId
    ensures d.tmdbId.None? ==> r.tmdbId == e.tmdbId
    ensures d.rating.Some? ==> r.rating == d.rating
    ensures d.rating.None? ==> r.rating == e.rating
    ensures d.wishlist.Some? ==> r.wishlist == d.wishlist.value
    ensures d.wishlist.None? ==> r.wishlist == e.wishlist
    ensures HasText(d.review) ==> r.review == d.review
    ensures !HasText(d.review) ==> r.review == e.review
    ensures d.viewCount.Some? ==> r.viewCount == d.viewCount.value
    ensures d.viewCount.None? ==> r.viewCount == e.viewCount
    ensures d.watched.Some? ==> r.watched == d.watched.value
    ensures d.watched.None? ==> r.watched == e.watched
  {
    var title := if HasText(d.title) then d.title else e.title;
    var tmdbId := if d.tmdbId.Some? then d.tmdbId else e.tmdbId;
    var rating := if d.rating.Some? then d.rating else e.rating;
    var review := if HasText(d.review) then d.review else e.review;
    Entity(e.id, title, tmdbId, rating, d.wishlist.GetOr(e.wishlist), review,
           d.viewCount.GetOr(e.viewCount), d.watched.GetOr(e.watched), e.createdAt, e.updatedAt)
  }

  /** updateMovieFromDto / updateSerieFromDto: one guarded setter per field, in source order.
      The Provider detail the source passes in is never read, so it is not a parameter. */
  method ApplyFromTmdbDto(e: Entity, d: CreateFromTmdbDto) returns (r: Entity)
    ensures r == OverlayFromTmdb(e, d)
  {
    var title, rating, wishlist, review, viewCount, watched :=
      e.title, e.rating, e.wishlist, e.review, e.viewCount, e.watched;
    if HasText(d.titleOverride) {
      title := d.titleOverride;
    }
    if d.rating.Some? {
      rating := d.rating;
    }
    if d.wishlist.Some? {
      wishlist := d.wishlist.value;
    }
    if HasText(d.review) {
      review := d.review;
    }
    if d.viewCount.Some? {
      viewCount := d.viewCount.value;
    }
    if d.watched.Some? {
      watched := d.watched.value;
    }
    r := e.(title := title, rating := rating, wishlist := wishlist, review := review,
            viewCount := viewCount, watched := watched);
  }

  /** updateMovieFromUpdateDto / updateSerieFromUpdateDto. */
  method ApplyUpdateDto(e: Entity, d: UpdateDto) returns (r: Entity)
    ensures r == OverlayUpdate(e, d)
  {
    var title, tmdbId, rating, wishlist, review, viewCount, watched :=
      e.title, e.tmdbId, e.rating, e.wishlist, e.review, e.viewCount, e.watched;
    if HasText(d.title) {
      title := d.title;
    }
    if d.tmdbId.Some? {
      tmdbId := d.tmdbId;
    }
    if d.rating.Some? {
      rating := d.rating;
    }
    if d.wishlist.Some? {
      wishlist := d.wishlist.value;
    }
    if HasText(d.review) {
      review := d.review;
    }
    if d.viewCount.Some? {
      viewCount := d.viewCount.value;
    }
    if d.watched.Some? {
      watched := d.watched.value;
    }
    r := e.(title := title, tmdbId := tmdbId, rating := rating, wishlist := wishlist,
            review := review, viewCount := viewCount, watched := watched);
  }

  /** The title of a record the upsert creates: the override when it has text, else the
      Provider's title (a movie's `title`, a series' `name`), which may be null. */
  function ChosenTitle(titleOverride: Option<string>, providerTitle: Option<string>): (t: Option<string>)
    ensures HasText(titleOverride) ==> t == titleOverride
    ensures !HasText(titleOverride) ==> t == providerTitle
  {
    if HasText(titleOverride) then titleOverride else providerTitle
  }

  /** The record the upsert creates when no row has the command's tmdbId. */
  function FreshFromTmdb(d: CreateFromTmdbDto, providerTitle: Option<string>): (e: Entity)
    ensures e == AllArgs(ChosenTitle(d.titleOverride, providerTitle), d.tmdbId, d.rating,
                         d.wishlist, d.review, d.viewCount, d.watched)
    ensures e.tmdbId == d.tmdbId && e.id.None?
  {
    AllArgs(ChosenTitle(d.titleOverride, providerTitle), d.tmdbId, d.rating, d.wishlist,
            d.review, d.viewCount, d.watched)
  }

  /** Applying the same upsert command twice is applying it once. */
  lemma OverlayFromTmdbIdempotent(e: Entity, d: CreateFromTmdbDto)
    ensures OverlayFromTmdb(OverlayFromTmdb(e, d), d) == OverlayFromTmdb(e, d)
  {
  }

  /** Applying the same update twice is applying it once. */
  lemma OverlayUpdateIdempotent(e: Entity, d: UpdateDto)
    ensures OverlayUpdate(OverlayUpdate(e, d), d) == OverlayUpdate(e, d)
  {
  }

  /** A record created by the upsert is a fixed point of the same command's overlay, so a
      repeated upsert leaves its columns as they are. */
  lemma OverlayFixesFresh(e: Entity, d: CreateFromTmdbDto, providerTitle: Option<string>)
    requires SameColumns(e, FreshFromTmdb(d, providerTitle))
    ensures OverlayFromTmdb(e, d) == e
  {
  }

  /** An update with every field null, or with blank text fields only, changes nothing. */
  lemma NullOrBlankUpdateIsIdentity(e: Entity, title: Option<string>, review: Option<string>)
    requires !HasText(title) && !HasText(review)
    ensures OverlayUpdate(e, UpdateDto(title, None, None, None, review, None, None)) == e
    ensures OverlayFromTmdb(e, CreateFromTmdbDto(e.tmdbId, None, None, review, None, None, title)) == e
  {
  }

  /** The two overlays agree on an upsert command read as an update that keeps the tmdbId. */
  lemma OverlaysAgree(e: Entity, d: CreateFromTmdbDto)
    ensures OverlayFromTmdb(e, d)
            == OverlayUpdate(e, UpdateDto(d.titleOverride, None, d.rating, d.wishlist, d.review,
                                          d.viewCount, d.watched))
  {
  }
}
