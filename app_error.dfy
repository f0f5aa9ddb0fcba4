/** Application errors: the `AppError` record and the five factories that build the errors
    the middlewares forward to the error handler. */
module AppErrors {
  import opened Js

  /** An `AppError`. Its fields are set once by the constructor and never updated. */
  datatype AppError = AppError(message: string, statusCode: int, status: string, isOperational: bool)

  /** `new AppError(message, statusCode)`: the status is `'fail'` when the decimal text of the
      code starts with `'4'` and `'error'` otherwise; every such error is operational. */
  function NewAppError(message: string, statusCode: int): (e: AppError)
    ensures e.message == message && e.statusCode == statusCode && e.isOperational
    ensures e.status == "fail" <==> statusCode >= 0 && LeadingDigit(statusCode) == 4
    ensures e.status == "fail" || e.status == "error"
  {
    IntToDecimalStartsWithDigit(statusCode, 4);
    assert [DigitChar(4)] == "4";
    AppError(message, statusCode, if StartsWith(IntToDecimal(statusCode), "4") then "fail" else "error", true)
  }

  /** For HTTP status codes (three digits) the classification is by range: 4xx fail, the rest error. */
  lemma StatusOfHttpCode(message: string, statusCode: int)
    requires 100 <= statusCode < 1000
    ensures NewAppError(message, statusCode).status == "fail" <==> 400 <= statusCode < 500
  {
    LeadingDigitOfThreeDigits(statusCode);
  }

  /** The classification looks at the first digit only, not at the range 400-499. */
  lemma StatusIsByFirstDigit()
    ensures NewAppError("", 4).status == "fail"
    ensures NewAppError("", 42).status == "fail"
    ensures NewAppError("", 4040).status == "fail"
    ensures NewAppError("", -404).status == "error"
    ensures NewAppError("", 500).status == "error"
  {
    assert LeadingDigit(42) == LeadingDigit(4);
    assert LeadingDigit(4040) == LeadingDigit(404) == LeadingDigit(40) == 4;
  }

  const ValidationStatus := 400
  const AuthStatus := 401
  const ForbiddenStatus := 403
  const NotFoundStatus := 404
  const ConflictStatus := 409

  function CreateValidationError(message: string): (e: AppError)
    ensures e.statusCode == 400 && e.status == "fail" && e.message == message && e.isOperational
  {
    StatusOfHttpCode(message, ValidationStatus);
    NewAppError(message, ValidationStatus)
  }

  /** The message names the missing resource: `<resource> non trouvé(e)`. */
  function CreateNotFoundError(resource: string): (e: AppError)
    ensures e.statusCode == 404 && e.status == "fail" && e.isOperational
    ensures e.message == resource + " non trouvé(e)"
  {
    StatusOfHttpCode(resource + " non trouvé(e)", NotFoundStatus);
    NewAppError(resource + " non trouvé(e)", NotFoundStatus)
  }

  /** `createAuthError(message = 'Non autorisé')`: the default applies only when no argument is given. */
  function CreateAuthError(message: Option<string>): (e: AppError)
    ensures e.statusCode == 401 && e.status == "fail" && e.isOperational
    ensures e.message == if message.Some? then message.value else "Non autorisé"
  {
    var text := if message.Some? then message.value else "Non autorisé";
    StatusOfHttpCode(text, AuthStatus);
    NewAppError(text, AuthStatus)
  }

  /** `createForbiddenError(message = 'Accès refusé')`. */
  function CreateForbiddenError(message: Option<string>): (e: AppError)
    ensures e.statusCode == 403 && e.status == "fail" && e.isOperational
    ensures e.message == if message.Some? then message.value else "Accès refusé"
  {
    var text := if message.Some? then message.value else "Accès refusé";
    StatusOfHttpCode(text, ForbiddenStatus);
    NewAppError(text, ForbiddenStatus)
  }

  function CreateConflictError(message: string): (e: AppError)
    ensures e.statusCode == 409 && e.status == "fail" && e.message == message && e.isOperational
  {
    StatusOfHttpCode(message, ConflictStatus);
    NewAppError(message, ConflictStatus)
  }
}
