/** The last two Express middlewares: `notFound`, which turns an unmatched route into an error,
    and `errorHandler`, which turns any forwarded error into the JSON error response. */
module ErrorHandling {
  import opened Js
  import opened AppErrors

  /** A value passed to `next(err)`, seen through the fields the handler reads.
      `statusCode` is `None` when the object has no such property (a plain `Error`). */
  datatype ThrownError = ThrownError(message: string, statusCode: Option<int>, stack: Option<string>)

  /** The JSON error response: its HTTP status and the `message` and `stack` properties. */
  datatype ErrorResponse = ErrorResponse(status: int, message: string, stack: Option<string>)

  function FromAppError(e: AppError, stack: Option<string>): ThrownError {
    ThrownError(e.message, Some(e.statusCode), stack)
  }

  function PlainError(message: string, stack: Option<string>): ThrownError {
    ThrownError(message, None, stack)
  }

  const DefaultMessage := "Une erreur est survenue"
  /** The stand-in that replaces the stack trace in production. */
  const HiddenStack := "\U{1F95E}"

  /** `errorHandler`: status `err.statusCode || 500`, message `err.message || 'Une erreur est
      survenue'`, and the stack hidden when `NODE_ENV` is `production`. The status it sets
      replaces any status set on the response before. */
  function ErrorHandler(err: ThrownError, nodeEnv: Option<string>): (r: ErrorResponse)
    ensures r.status != 0 && r.message != ""
    ensures err.statusCode.Some? && err.statusCode.value != 0 ==> r.status == err.statusCode.value
    ensures r.status == 500 <==> err.statusCode.None? || err.statusCode.value in {0, 500}
    ensures err.message != "" ==> r.message == err.message
    ensures err.message == "" ==> r.message == DefaultMessage
    ensures nodeEnv == Some("production") ==> r.stack == Some(HiddenStack)
    ensures nodeEnv != Some("production") ==> r.stack == err.stack
  {
    var status := if err.statusCode.Some? && err.statusCode.value != 0 then err.statusCode.value else 500;
    var message := if err.message != "" then err.message else DefaultMessage;
    ErrorResponse(status, message, if nodeEnv == Some("production") then Some(HiddenStack) else err.stack)
  }

  /** Every error built by the factories reaches the client with the factory's status and message. */
  lemma FactoryErrorsKeepStatusAndMessage(text: string, stack: Option<string>, nodeEnv: Option<string>)
    requires text != ""
    ensures ErrorHandler(FromAppError(CreateValidationError(text), stack), nodeEnv).status == 400
    ensures ErrorHandler(FromAppError(CreateAuthError(Some(text)), stack), nodeEnv).status == 401
    ensures ErrorHandler(FromAppError(CreateAuthError(None), stack), nodeEnv).message == "Non autorisé"
    ensures ErrorHandler(FromAppError(CreateForbiddenError(Some(text)), stack), nodeEnv).status == 403
    ensures ErrorHandler(FromAppError(CreateForbiddenError(None), stack), nodeEnv).message == "Accès refusé"
    ensures ErrorHandler(FromAppError(CreateNotFoundError(text), stack), nodeEnv).status == 404
    ensures ErrorHandler(FromAppError(CreateConflictError(text), stack), nodeEnv).status == 409
    ensures ErrorHandler(FromAppError(CreateValidationError(text), stack), nodeEnv).message == text
    ensures ErrorHandler(FromAppError(CreateConflictError(text), stack), nodeEnv).message == text
    ensures ErrorHandler(FromAppError(CreateNotFoundError(text), stack), nodeEnv).message == text + " non trouvé(e)"
    ensures ErrorHandler(FromAppError(CreateAuthError(Some(text)), stack), nodeEnv).message == text
    ensures ErrorHandler(FromAppError(CreateAuthError(None), stack), nodeEnv).status == 401
    ensures ErrorHandler(FromAppError(CreateForbiddenError(Some(text)), stack), nodeEnv).message == text
    ensures ErrorHandler(FromAppError(CreateForbiddenError(None), stack), nodeEnv).status == 403
  {
  }

  /** What `notFound` leaves behind: the status it set on the response and the error it forwards. */
  datatype Forwarded = Forwarded(presetStatus: int, error: ThrownError)

  /** `notFound`, as written: sets 404 on the response, then forwards a plain `Error`. */
  function NotFound(originalUrl: string, stack: Option<string>): (f: Forwarded)
    ensures f.presetStatus == 404 && f.error.statusCode.None?
    ensures f.error.message == "Route non trouvée - " + originalUrl
  {
    Forwarded(404, PlainError("Route non trouvée - " + originalUrl, stack))
  }

  /** An unmatched route goes through `notFound` and then `errorHandler`, whose status wins. */
  function UnknownRoute(originalUrl: string, stack: Option<string>, nodeEnv: Option<string>): ErrorResponse {
    ErrorHandler(NotFound(originalUrl, stack).error, nodeEnv)
  }

  /** The 404 that `notFound` sets is lost: the plain `Error` has no `statusCode`, so the
      handler answers 500 for every unknown route. */
  lemma UnknownRouteAnswers500(originalUrl: string, stack: Option<string>, nodeEnv: Option<string>)
    ensures NotFound(originalUrl, stack).presetStatus == 404
    ensures UnknownRoute(originalUrl, stack, nodeEnv).status == 500
    ensures UnknownRoute(originalUrl, stack, nodeEnv).message == "Route non trouvée - " + originalUrl
  {
  }

  /** `notFound` as evidently intended: the forwarded error carries the 404 itself. */
  function NotFoundWithStatus(originalUrl: string, stack: Option<string>): (f: Forwarded)
    ensures f.presetStatus == 404 && f.error.statusCode == Some(404)
    ensures f.error.message == "Route non trouvée - " + originalUrl
  {
    Forwarded(404, FromAppError(NewAppError("Route non trouvée - " + originalUrl, NotFoundStatus), stack))
  }

  lemma CorrectedUnknownRouteAnswers404(originalUrl: string, stack: Option<string>, nodeEnv: Option<string>)
    ensures ErrorHandler(NotFoundWithStatus(originalUrl, stack).error, nodeEnv).status == 404
    ensures ErrorHandler(NotFoundWithStatus(originalUrl, stack).error, nodeEnv).message
            == "Route non trouvée - " + originalUrl
  {
  }
}
