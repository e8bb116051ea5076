/**
 * The application's error type (`protected-routes/src/errors.rs`): four
 * variants, the HTTP status each maps to, the fixed text each displays, and
 * the conversions from the library errors that produce them.
 */
module AppErrors {
  import opened Wrappers
  import opened Http

  datatype AppError =
    | NotFound
    | EnvMissing(message: string)
    | Database(message: string)
    | Poison(message: string)

  /**
   * The library errors converted into `AppError`. Their own formatting is not
   * part of this model: each carries the text its `to_string` gives.
   */
  datatype VarError = VarError(text: string)
  datatype SurrealError = SurrealError(text: string)
  datatype PoisonError = PoisonError(text: string)

  /** `AppError::status_code`: 404 for `NotFound`, 400 for every other variant. */
  function StatusCodeOf(e: AppError): (code: StatusCode)
    ensures code == NOT_FOUND <==> e.NotFound?
    ensures code == BAD_REQUEST <==> !e.NotFound?
  {
    match e
    case NotFound => NOT_FOUND
    case _ => BAD_REQUEST
  }

  /** The `Display` text of each variant (`#[error(...)]`); the payload is not shown. */
  function Display(e: AppError): string
  {
    match e
    case NotFound => "Not Found"
    case EnvMissing(_) => "Env missing"
    case Database(_) => "Database failure"
    case Poison(_) => "Something wrong"
  }

  /** The text depends on the variant only, and tells the variants apart. */
  lemma DisplayByVariant(a: AppError, b: AppError)
    ensures Display(a) == Display(b) <==>
      (a.NotFound? && b.NotFound?) || (a.EnvMissing? && b.EnvMissing?) ||
      (a.Database? && b.Database?) || (a.Poison? && b.Poison?)
  {
    if Display(a) == Display(b) {
      assert Display(a)[0] == Display(b)[0];
      assert |Display(a)| == |Display(b)|;
    }
  }

  /** The page shows 404 exactly for the error whose text is "Not Found". */
  lemma StatusFromDisplay(e: AppError)
    ensures StatusCodeOf(e) == NOT_FOUND <==> Display(e) == "Not Found"
  {
    DisplayByVariant(e, NotFound);
  }

  /** The message an error carries, if its variant has one. */
  function Payload(e: AppError): Option<string>
  {
    match e
    case NotFound => None
    case EnvMissing(m) => Some(m)
    case Database(m) => Some(m)
    case Poison(m) => Some(m)
  }

  /** `From<VarError>`: a missing or unreadable environment variable. */
  function FromVarError(error: VarError): (e: AppError)
    ensures e.EnvMissing? && Payload(e) == Some(error.text)
    ensures StatusCodeOf(e) == BAD_REQUEST && Display(e) == "Env missing"
  {
    EnvMissing(error.text)
  }

  /** `From<surrealdb::Error>`: a database failure. */
  function FromSurrealError(error: SurrealError): (e: AppError)
    ensures e.Database? && Payload(e) == Some(error.text)
    ensures StatusCodeOf(e) == BAD_REQUEST && Display(e) == "Database failure"
  {
    Database(error.text)
  }

  /** `From<PoisonError<T>>`: a poisoned lock. */
  function FromPoisonError(error: PoisonError): (e: AppError)
    ensures e.Poison? && Payload(e) == Some(error.text)
    ensures StatusCodeOf(e) == BAD_REQUEST && Display(e) == "Something wrong"
  {
    Poison(error.text)
  }

  /** The three conversions never coincide, and each keeps its source's text intact. */
  lemma ConversionsDistinct(v: VarError, s: SurrealError, p: PoisonError)
    ensures FromVarError(v) != FromSurrealError(s) && FromSurrealError(s) != FromPoisonError(p)
    ensures FromVarError(v) != FromPoisonError(p)
    ensures Display(FromVarError(v)) != Display(FromSurrealError(s))
    ensures Display(FromSurrealError(s)) != Display(FromPoisonError(p))
    ensures Display(FromVarError(v)) != Display(FromPoisonError(p))
  {
    DisplayByVariant(FromVarError(v), FromSurrealError(s));
    DisplayByVariant(FromSurrealError(s), FromPoisonError(p));
    DisplayByVariant(FromVarError(v), FromPoisonError(p));
  }
}
