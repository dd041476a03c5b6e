/**
 * The stored record (entity/Serie.java; the Movie entity has the same shape), its two
 * constructors, its bean-validation constraints, its id-only equality, and the projection
 * the services turn it into.
 */
module Entities {
  import opened Wrappers
  import opened JavaText
  import opened Tmdb

  /**
   * A Movie or Serie row. Nullable Java fields are `Option`s. The timestamps are readings of
   * an abstract clock. `wishlist`, `viewCount` and `watched` are never null: the constructors
   * default them and the services only call their setters with non-null values.
   */
  datatype Entity = Entity(
    id: Option<int>,
    title: Option<string>,
    tmdbId: Option<int>,
    rating: Option<real>,
    wishlist: bool,
    review: Option<string>,
    viewCount: int,
    watched: bool,
    createdAt: Option<nat>,
    updatedAt: Option<nat>)

  /** The seven-argument constructor: four fields copied, three nullable flags defaulted. */
  function AllArgs(title: Option<string>, tmdbId: Option<int>, rating: Option<real>,
                   wishlist: Option<bool>, review: Option<string>, viewCount: Option<int>,
                   watched: Option<bool>): (e: Entity)
    ensures e.title == title && e.tmdbId == tmdbId && e.rating == rating && e.review == review
    ensures wishlist.Some? ==> e.wishlist == wishlist.value
    ensures wishlist.None? ==> e.wishlist == false
    ensures viewCount.Some? ==> e.viewCount == viewCount.value
    ensures viewCount.None? ==> e.viewCount == 0
    ensures watched.Some? ==> e.watched == watched.value
    ensures watched.None? ==> e.watched == false
    ensures e.id.None? && e.createdAt.None? && e.updatedAt.None?
  {
    Entity(None, title, tmdbId, rating, wishlist.GetOr(false), review,
           viewCount.GetOr(0), watched.GetOr(false), None, None)
  }

  /** The title-only constructor: the seven-argument one with every other argument null. */
  function WithTitle(title: Option<string>): (e: Entity)
    ensures e == AllArgs(title, None, None, None, None, None, None)
    ensures e.tmdbId.None? && e.rating.None? && e.review.None?
    ensures !e.wishlist && e.viewCount == 0 && !e.watched
  {
    Entity(None, title, None, None, false, None, 0, false, None, None)
  }

  /** `@Min(0) @Max(5)` on the rating; null passes. */
  predicate RatingInRange(rating: Option<real>) {
    rating.None? || 0.0 <= rating.value <= 5.0
  }

  /** The entity's constraints, checked when it is persisted or updated. */
  predicate Constraints(e: Entity) {
    && NotBlank(e.title)
    && SizeAtMost(e.title, 255)
    && RatingInRange(e.rating)
    && SizeAtMost(e.review, 1000)
  }

  /** Lombok's equals with only `id` included: two nulls are equal, the columns are ignored. */
  predicate EqualsById(a: Entity, b: Entity) {
    if a.id.None? then b.id.None? else b.id.Some? && a.id.value == b.id.value
  }

  /** Equality by id is an equivalence that compares ids and nothing else. */
  lemma EqualsByIdIsIdEquality(a: Entity, b: Entity, c: Entity)
    ensures EqualsById(a, b) <==> a.id == b.id
    ensures EqualsById(a, a)
    ensures EqualsById(a, b) ==> EqualsById(b, a)
    ensures EqualsById(a, b) && EqualsById(b, c) ==> EqualsById(a, c)
  {
  }

  /** The user-editable columns agree; a save changing none of them is not an update. */
  predicate SameColumns(a: Entity, b: Entity) {
    && a.title == b.title && a.tmdbId == b.tmdbId && a.rating == b.rating
    && a.wishlist == b.wishlist && a.review == b.review && a.viewCount == b.viewCount
    && a.watched == b.watched
  }

  /** What a projection carries under the key "tmdb". */
  datatype Attachment =
    | NoTmdb                                // key absent
    | FullMovie(detail: MovieDto)           // movie findOne: the whole Provider detail
    | PosterOnly(posterPath: Option<string>) // movie listings: {"poster_path": ...}

  /** convertMovieToMap / convertSerieToMap, plus the optional "tmdb" entry. */
  datatype Projection = Projection(
    id: Option<int>,
    title: Option<string>,
    tmdbId: Option<int>,
    rating: Option<real>,
    wishlist: bool,
    review: string,
    viewCount: int,
    watched: bool,
    createdAt: Option<nat>,
    updatedAt: Option<nat>,
    tmdb: Attachment)

  /** The projection of a record: every column carried over, a null review shown as "". */
  function ToProjection(e: Entity): (p: Projection)
    ensures p.id == e.id && p.title == e.title && p.tmdbId == e.tmdbId && p.rating == e.rating
    ensures p.wishlist == e.wishlist && p.viewCount == e.viewCount && p.watched == e.watched
    ensures p.createdAt == e.createdAt && p.updatedAt == e.updatedAt
    ensures e.review.Some? ==> p.review == e.review.value
    ensures e.review.None? ==> p.review == ""
    ensures p.tmdb == NoTmdb
  {
    Projection(e.id, e.title, e.tmdbId, e.rating, e.wishlist, e.review.GetOr(""),
               e.viewCount, e.watched, e.createdAt, e.updatedAt, NoTmdb)
  }

  /** A projection determines the record it came from, except that a null and an empty review
      look alike. */
  lemma {:induction false} ToProjectionInjective(a: Entity, b: Entity)
    requires ToProjection(a) == ToProjection(b)
    ensures a.review == b.review || (a.review in {None, Some("")} && b.review in {None, Some("")})
    ensures a.(review := b.review) == b
  {
    var pa, pb := ToProjection(a), ToProjection(b);
    assert pa.review == pb.review;
  }
}
