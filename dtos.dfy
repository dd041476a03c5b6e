/**
 * The commands the services accept (dto/serie/CreateSerieDto.java, CreateSerieFromTmdbDto.java;
 * the movie commands and the update commands have the same fields) and the bean-validation
 * constraints declared on the two create commands.
 */
module Dtos {
  import opened Wrappers
  import opened JavaText
  import opened Failures
  import opened Entities

  datatype CreateDto = CreateDto(
    title: Option<string>, tmdbId: Option<int>, rating: Option<real>, wishlist: Option<bool>,
    review: Option<string>, viewCount: Option<int>, watched: Option<bool>)

  datatype CreateFromTmdbDto = CreateFromTmdbDto(
    tmdbId: Option<int>, rating: Option<real>, wishlist: Option<bool>, review: Option<string>,
    viewCount: Option<int>, watched: Option<bool>, titleOverride: Option<string>)

  /** The partial update: every field may be null, and a null field is left alone. */
  datatype UpdateDto = UpdateDto(
    title: Option<string>, tmdbId: Option<int>, rating: Option<real>, wishlist: Option<bool>,
    review: Option<string>, viewCount: Option<int>, watched: Option<bool>)

  const TitleRequired := "Le titre est obligatoire"
  const TitleTooLong := "Le titre ne peut pas dépasser 255 caractères"
  const RatingNegative := "La note ne peut pas être négative"
  const RatingTooHigh := "La note ne peut pas dépasser 5"
  const ReviewTooLong := "La critique ne peut pas dépasser 1000 caractères"
  const ViewCountNegative := "Le nombre de vues ne peut pas être négatif"
  const TmdbIdRequired := "L'ID TMDB est obligatoire"
  const OverrideTooLong := "Le titre de remplacement ne peut pas dépasser 255 caractères"

  /** `@Min(0)` on a nullable number. */
  predicate AtLeastZero(n: Option<int>) {
    n.None? || n.value >= 0
  }

  predicate ValidCreateDto(d: CreateDto) {
    && NotBlank(d.title) && SizeAtMost(d.title, 255)
    && RatingInRange(d.rating)
    && SizeAtMost(d.review, 1000)
    && AtLeastZero(d.viewCount)
  }

  /** No constraint on `titleOverride` but its length: a blank override is accepted. */
  predicate ValidCreateFromTmdbDto(d: CreateFromTmdbDto) {
    && d.tmdbId.Some?
    && RatingInRange(d.rating)
    && SizeAtMost(d.review, 1000)
    && AtLeastZero(d.viewCount)
    && SizeAtMost(d.titleOverride, 255)
  }

  /** The rating's violations: below 0 and above 5 exclude each other. */
  function RatingErrors(rating: Option<real>): (errs: seq<FieldError>)
    ensures |errs| <= 1
    ensures errs == [] <==> RatingInRange(rating)
    ensures FieldError("rating", RatingNegative) in errs <==> rating.Some? && rating.value < 0.0
    ensures FieldError("rating", RatingTooHigh) in errs <==> rating.Some? && rating.value > 5.0
  {
    if rating.Some? && rating.value < 0.0 then [FieldError("rating", RatingNegative)]
    else if rating.Some? && rating.value > 5.0 then [FieldError("rating", RatingTooHigh)]
    else []
  }

  /** One constraint on one field: no error when it holds, otherwise that field's message. */
  function Check(holds: bool, field: string, message: string): (errs: seq<FieldError>)
    ensures errs == [] <==> holds
    ensures errs != [] ==> errs == [FieldError(field, message)]
  {
    if holds then [] else [FieldError(field, message)]
  }

  /** The title's two constraints; both fail on a long blank title, only NotBlank on a null one. */
  function TitleErrors(title: Option<string>): (errs: seq<FieldError>)
    ensures errs == [] <==> NotBlank(title) && SizeAtMost(title, 255)
    ensures FieldError("title", TitleRequired) in errs <==> !NotBlank(title)
    ensures FieldError("title", TitleTooLong) in errs <==> !SizeAtMost(title, 255)
    ensures forall fe | fe in errs :: fe.field == "title"
  {
    Check(NotBlank(title), "title", TitleRequired) + Check(SizeAtMost(title, 255), "title", TitleTooLong)
  }

  /** The constraints the two create commands share, on rating, review and viewCount. */
  function SharedErrors(rating: Option<real>, review: Option<string>, viewCount: Option<int>): (errs: seq<FieldError>)
    ensures errs == [] <==> RatingInRange(rating) && SizeAtMost(review, 1000) && AtLeastZero(viewCount)
    ensures FieldError("review", ReviewTooLong) in errs <==> !SizeAtMost(review, 1000)
    ensures FieldError("viewCount", ViewCountNegative) in errs <==> !AtLeastZero(viewCount)
    ensures forall fe | fe in errs :: fe.field in {"rating", "review", "viewCount"}
  {
    var r := RatingErrors(rating);
    var v := Check(SizeAtMost(review, 1000), "review", ReviewTooLong);
    var c := Check(AtLeastZero(viewCount), "viewCount", ViewCountNegative);
    assert forall fe | fe in r :: fe.field == "rating";
    r + v + c
  }

  /** Every violated constraint of a CreateDto, as (field, default message). */
  function CreateDtoErrors(d: CreateDto): (errs: seq<FieldError>)
    ensures errs == [] <==> ValidCreateDto(d)
    ensures FieldError("title", TitleRequired) in errs <==> !NotBlank(d.title)
    ensures FieldError("title", TitleTooLong) in errs <==> !SizeAtMost(d.title, 255)
    ensures FieldError("review", ReviewTooLong) in errs <==> !SizeAtMost(d.review, 1000)
    ensures FieldError("viewCount", ViewCountNegative) in errs <==> !AtLeastZero(d.viewCount)
    ensures forall fe | fe in errs :: fe.field in {"title", "rating", "review", "viewCount"}
  {
    TitleErrors(d.title) + SharedErrors(d.rating, d.review, d.viewCount)
  }

  /** Every violated constraint of a CreateFromTmdbDto. */
  function CreateFromTmdbDtoErrors(d: CreateFromTmdbDto): (errs: seq<FieldError>)
    ensures errs == [] <==> ValidCreateFromTmdbDto(d)
    ensures FieldError("tmdbId", TmdbIdRequired) in errs <==> d.tmdbId.None?
    ensures FieldError("titleOverride", OverrideTooLong) in errs <==> !SizeAtMost(d.titleOverride, 255)
    ensures FieldError("review", ReviewTooLong) in errs <==> !SizeAtMost(d.review, 1000)
    ensures FieldError("viewCount", ViewCountNegative) in errs <==> !AtLeastZero(d.viewCount)
    ensures forall fe | fe in errs :: fe.field in {"tmdbId", "rating", "review", "viewCount", "titleOverride"}
  {
    Check(d.tmdbId.Some?, "tmdbId", TmdbIdRequired)
    + SharedErrors(d.rating, d.review, d.viewCount)
    + Check(SizeAtMost(d.titleOverride, 255), "titleOverride", OverrideTooLong)
  }

  /** A valid create command builds a record that passes the entity's own constraints. */
  lemma ValidCreateDtoBuildsValidEntity(d: CreateDto)
    requires ValidCreateDto(d)
    ensures Constraints(AllArgs(d.title, d.tmdbId, d.rating, d.wishlist, d.review, d.viewCount, d.watched))
  {
  }

  /** The create-from-TMDB command accepts a blank or absent override and any flags. */
  lemma BlankOverrideAccepted(tmdbId: int, wishlist: Option<bool>, watched: Option<bool>)
    ensures ValidCreateFromTmdbDto(CreateFromTmdbDto(Some(tmdbId), None, wishlist, None, None, watched, Some("   ")))
    ensures ValidCreateFromTmdbDto(CreateFromTmdbDto(Some(tmdbId), None, wishlist, None, None, watched, None))
    ensures !ValidCreateFromTmdbDto(CreateFromTmdbDto(None, None, wishlist, None, None, watched, None))
  {
  }

  /** A title made of spaces fails `@NotBlank` alone; a null title fails it but not `@Size`. */
  lemma BlankAndNullTitles()
    ensures CreateDtoErrors(CreateDto(Some("  "), None, None, None, None, None, None))
            == [FieldError("title", TitleRequired)]
    ensures CreateDtoErrors(CreateDto(None, None, None, None, None, None, None))
            == [FieldError("title", TitleRequired)]
  {
    assert Trim("  ") == [];
    assert !NotBlank(Some("  ")) && SizeAtMost(Some("  "), 255);
    assert !NotBlank(None) && SizeAtMost(None, 255);
    assert SharedErrors(None, None, None) == [];
    assert TitleErrors(Some("  ")) == [FieldError("title", TitleRequired)];
    assert TitleErrors(None) == [FieldError("title", TitleRequired)];
  }
}
