/**
 * GlobalExceptionHandler: how each failure that escapes a controller becomes an HTTP status
 * and a JSON error body. The clock reading is the `timestamp` parameter.
 */
module ExceptionHandler {
  import opened Wrappers
  import opened JavaText
  import opened Failures
  import opened Entities
  import opened Dtos

  /** What the body takes from the HttpServletRequest. */
  datatype Request = Request(uri: string, httpMethod: string)

  /** The error map: `timestamp`, `status`, `error`, `message`, `path`, `method`, and
      `fieldErrors` on a validation failure only. */
  datatype ErrorBody = ErrorBody(
    timestamp: string, status: int, error: string, message: string, path: string,
    httpMethod: string, fieldErrors: Option<map<string, string>>)

  datatype Response = Response(status: int, body: ErrorBody)

  const BadRequest := 400
  const NotFoundStatus := 404
  const InternalServerError := 500
  const ServiceUnavailable := 503

  const ResourceNotFoundError := "Ressource non trouvée"
  const TmdbError := "Erreur API TMDB"
  const ValidationError := "Erreurs de validation"
  const ValidationMessage := "Les données fournies ne sont pas valides"
  const IllegalArgumentError := "Argument invalide"
  const EndpointNotFoundError := "Endpoint non trouvé"
  const EndpointNotFoundPrefix := "L'endpoint demandé n'existe pas : "
  const GenericError := "Erreur interne du serveur"
  const GenericMessage := "Une erreur inattendue s'est produite"

  /** createErrorResponse: the six common entries. */
  function ErrorResponse(status: int, error: string, message: string, req: Request, timestamp: string): (b: ErrorBody)
    ensures b.status == status && b.error == error && b.message == message
    ensures b.path == req.uri && b.httpMethod == req.httpMethod && b.timestamp == timestamp
    ensures b.fieldErrors.None?
  {
    ErrorBody(timestamp, status, error, message, req.uri, req.httpMethod, None)
  }

  /** The fields the errors name. */
  function Fields(errs: seq<FieldError>): set<string> {
    set fe | fe in errs :: fe.field
  }

  /**
   * The `fieldErrors` map of a validation failure: one entry per failing field, holding the
   * message of that field's last error (a later `put` replaces an earlier one; see LastErrorWins).
   */
  function FieldErrorMap(errs: seq<FieldError>): (m: map<string, string>)
    ensures m.Keys == Fields(errs)
  {
    if errs == [] then map[]
    else
      var front := errs[..|errs| - 1];
      var last := errs[|errs| - 1];
      assert errs == front + [last];
      assert Fields(errs) == Fields(front) + {last.field};
      FieldErrorMap(front)[last.field := last.message]
  }

  /** A field's entry holds the message of the last error that names it. */
  lemma {:induction false} LastErrorWins(errs: seq<FieldError>, i: nat)
    requires i < |errs|
    requires forall j | i < j < |errs| :: errs[j].field != errs[i].field
    ensures FieldErrorMap(errs)[errs[i].field] == errs[i].message
  {
    if i < |errs| - 1 {
      var front := errs[..|errs| - 1];
      assert front[i] == errs[i];
      assert forall j | i < j < |front| :: front[j] == errs[j];
      LastErrorWins(front, i);
    }
  }

  /** The `forEach` of handleValidationErrors, one `put` per error in order. */
  method CollectFieldErrors(errs: seq<FieldError>) returns (m: map<string, string>)
    ensures m == FieldErrorMap(errs)
  {
    m := map[];
    var i := 0;
    while i < |errs|
      invariant 0 <= i <= |errs|
      invariant m == FieldErrorMap(errs[..i])
    {
      assert errs[..i + 1][..i] == errs[..i];
      m := m[errs[i].field := errs[i].message];
      i := i + 1;
    }
    assert errs[..i] == errs;
  }

  /** The handler Spring picks for each failure; everything unlisted meets the generic one. */
  function Handle(f: Failure, req: Request, timestamp: string): (r: Response)
    ensures r.body.status == r.status
    ensures r.body.path == req.uri && r.body.httpMethod == req.httpMethod && r.body.timestamp == timestamp
    ensures r.body.fieldErrors.Some? <==> f.Validation?
    ensures f.NotFound? ==> r.status == NotFoundStatus && r.body.error == ResourceNotFoundError && r.body.message == f.message
    ensures f.TmdbApi? ==> r.status == ServiceUnavailable && r.body.error == TmdbError && r.body.message == f.message
    ensures f.Validation? ==> && r.status == BadRequest && r.body.error == ValidationError
                              && r.body.message == ValidationMessage
                              && r.body.fieldErrors.value == FieldErrorMap(f.fieldErrors)
    ensures f.IllegalArgument? ==> r.status == BadRequest && r.body.error == IllegalArgumentError && r.body.message == f.message
    ensures f.NoResource? ==> && r.status == NotFoundStatus && r.body.error == EndpointNotFoundError
                              && r.body.message == EndpointNotFoundPrefix + f.resourcePath
    ensures f.Completion? || f.Internal? ==>
              r.status == InternalServerError && r.body.error == GenericError && r.body.message == GenericMessage
  {
    match f
    case NotFound(message) =>
      Response(NotFoundStatus, ErrorResponse(NotFoundStatus, ResourceNotFoundError, message, req, timestamp))
    case TmdbApi(message) =>
      Response(ServiceUnavailable, ErrorResponse(ServiceUnavailable, TmdbError, message, req, timestamp))
    case Validation(errs) =>
      var b := ErrorResponse(BadRequest, ValidationError, ValidationMessage, req, timestamp);
      Response(BadRequest, b.(fieldErrors := Some(FieldErrorMap(errs))))
    case IllegalArgument(message) =>
      Response(BadRequest, ErrorResponse(BadRequest, IllegalArgumentError, message, req, timestamp))
    case NoResource(path) =>
      Response(NotFoundStatus, ErrorResponse(NotFoundStatus, EndpointNotFoundError, EndpointNotFoundPrefix + path, req, timestamp))
    case Completion(_) =>
      Response(InternalServerError, ErrorResponse(InternalServerError, GenericError, GenericMessage, req, timestamp))
    case Internal(_) =>
      Response(InternalServerError, ErrorResponse(InternalServerError, GenericError, GenericMessage, req, timestamp))
  }

  /** The client-side statuses are exactly the failures the core raises on purpose (and the
      invalid limit); the 500 is exactly the unexpected ones. */
  lemma HandleStatuses(f: Failure, req: Request, timestamp: string)
    ensures var s := Handle(f, req, timestamp).status;
            s == BadRequest || s == NotFoundStatus || s == InternalServerError || s == ServiceUnavailable
    ensures Handle(f, req, timestamp).status == InternalServerError <==> f.Completion? || f.Internal?
    ensures Handle(f, req, timestamp).status == BadRequest <==> f.Validation? || f.IllegalArgument?
    ensures Handle(f, req, timestamp).status == NotFoundStatus <==> f.NotFound? || f.NoResource?
    ensures Handle(f, req, timestamp).status == ServiceUnavailable <==> f.TmdbApi?
  {
  }

  /** The generic reply tells the client nothing about what went wrong: two unexpected
      failures on the same request at the same instant get the same reply. */
  lemma GenericRepliesRevealNothing(f: Failure, g: Failure, req: Request, timestamp: string)
    requires f.Completion? || f.Internal?
    requires g.Completion? || g.Internal?
    ensures Handle(f, req, timestamp) == Handle(g, req, timestamp)
  {
  }

  /** An invalid create command is answered 400 with one entry per failing field. */
  lemma {:induction false} InvalidCreateDtoReply(d: CreateDto, req: Request, timestamp: string)
    requires !ValidCreateDto(d)
    ensures var r := Handle(Validation(CreateDtoErrors(d)), req, timestamp);
            && r.status == BadRequest
            && r.body.fieldErrors.value.Keys
               == Named(!NotBlank(d.title) || !SizeAtMost(d.title, 255), "title")
                  + SharedNames(d.rating, d.review, d.viewCount)
  {
    CreateDtoFields(d);
  }

  /** Which fields a create command's errors name. */
  lemma CreateDtoFields(d: CreateDto)
    ensures Fields(CreateDtoErrors(d))
            == Named(!NotBlank(d.title) || !SizeAtMost(d.title, 255), "title")
               + SharedNames(d.rating, d.review, d.viewCount)
  {
    var t := TitleErrors(d.title);
    var s := SharedErrors(d.rating, d.review, d.viewCount);
    assert CreateDtoErrors(d) == t + s;
    FieldsAppend(t, s);
    assert Fields(t) == (if t == [] then {} else {"title"});
    SharedFields(d.rating, d.review, d.viewCount);
  }

  /** An invalid upsert command is answered 400 with one entry per failing field; a missing
      tmdbId is named `tmdbId`. */
  lemma {:induction false} InvalidCreateFromTmdbDtoReply(d: CreateFromTmdbDto, req: Request, timestamp: string)
    requires !ValidCreateFromTmdbDto(d)
    ensures var r := Handle(Validation(CreateFromTmdbDtoErrors(d)), req, timestamp);
            && r.status == BadRequest
            && r.body.fieldErrors.value.Keys
               == Named(d.tmdbId.None?, "tmdbId") + SharedNames(d.rating, d.review, d.viewCount)
                  + Named(!SizeAtMost(d.titleOverride, 255), "titleOverride")
  {
    CreateFromTmdbDtoFields(d);
  }

  /** Which fields an upsert command's errors name. */
  lemma CreateFromTmdbDtoFields(d: CreateFromTmdbDto)
    ensures Fields(CreateFromTmdbDtoErrors(d))
            == Named(d.tmdbId.None?, "tmdbId") + SharedNames(d.rating, d.review, d.viewCount)
               + Named(!SizeAtMost(d.titleOverride, 255), "titleOverride")
  {
    var c := Check(d.tmdbId.Some?, "tmdbId", TmdbIdRequired);
    var s := SharedErrors(d.rating, d.review, d.viewCount);
    var o := Check(SizeAtMost(d.titleOverride, 255), "titleOverride", OverrideTooLong);
    assert CreateFromTmdbDtoErrors(d) == c + s + o;
    FieldsAppend(c, s);
    FieldsAppend(c + s, o);
    SharedFields(d.rating, d.review, d.viewCount);
    assert Fields(c) == Named(d.tmdbId.None?, "tmdbId");
    assert Fields(o) == Named(!SizeAtMost(d.titleOverride, 255), "titleOverride");
  }

  lemma FieldsAppend(a: seq<FieldError>, b: seq<FieldError>)
    ensures Fields(a + b) == Fields(a) + Fields(b)
  {
    forall x | x in Fields(a + b)
      ensures x in Fields(a) + Fields(b)
    {
      var fe :| fe in a + b && fe.field == x;
    }
  }

  /** `{field}` when the constraint on it is violated, else nothing. */
  function Named(violated: bool, field: string): set<string> {
    if violated then {field} else {}
  }

  function SharedNames(rating: Option<real>, review: Option<string>, viewCount: Option<int>): set<string> {
    Named(!RatingInRange(rating), "rating") + Named(!SizeAtMost(review, 1000), "review")
    + Named(!AtLeastZero(viewCount), "viewCount")
  }

  /** Which fields the shared constraints name. */
  lemma SharedFields(rating: Option<real>, review: Option<string>, viewCount: Option<int>)
    ensures Fields(SharedErrors(rating, review, viewCount)) == SharedNames(rating, review, viewCount)
  {
    var r := RatingErrors(rating);
    var v := Check(SizeAtMost(review, 1000), "review", ReviewTooLong);
    var c := Check(AtLeastZero(viewCount), "viewCount", ViewCountNegative);
    assert SharedErrors(rating, review, viewCount) == r + v + c;
    FieldsAppend(r, v);
    FieldsAppend(r + v, c);
    assert Fields(r) == Named(!RatingInRange(rating), "rating");
    assert Fields(v) == Named(!SizeAtMost(review, 1000), "review");
    assert Fields(c) == Named(!AtLeastZero(viewCount), "viewCount");
  }
}
