/** The exceptions the application raises and catches. `GenerationFailedError`
    and `SaveFailedError` (app/exceptions.py) are subclasses of FastAPI's
    `HTTPException` with status 500; the model keeps them as HTTP exceptions
    tagged with their class, so that `except HTTPException` still catches them. */
module Exceptions {
  import opened Text

  /** Which class of `HTTPException` was raised. */
  datatype HttpClass = PlainHttp | GenerationFailed | SaveFailed

  /** An error reported by the data store's client. The store's message text
      is abstracted to whether it reports a unique-key violation, which the
      source detects by looking for "duplicate key" in it. */
  datatype StoreError = DuplicateKey(message: string) | OtherStoreError(message: string)

  datatype Exc =
    | HttpException(cls: HttpClass, status: nat, detail: string, headers: map<string, string>)
    | ValueError(message: string)
    | StoreException(error: StoreError)
    /** Any other exception: a validation error, a failing foreign call. */
    | OtherException(message: string)
  {
    predicate IsHttp() { HttpException? }
  }

  const HTTP_400_BAD_REQUEST: nat := 400
  const HTTP_401_UNAUTHORIZED: nat := 401
  const HTTP_404_NOT_FOUND: nat := 404
  const HTTP_500_INTERNAL_SERVER_ERROR: nat := 500

  /** `HTTPException(status_code=status, detail=detail)`. */
  function Http(status: nat, detail: string): (e: Exc)
    ensures e.IsHttp() && e.cls == PlainHttp && e.status == status && e.detail == detail
  {
    HttpException(PlainHttp, status, detail, map[])
  }

  /** `GenerationFailedError(detail)`: an HTTP 500 carrying `detail`. */
  function GenerationFailedError(detail: string): (e: Exc)
    ensures e.IsHttp() && e.cls == GenerationFailed && e.status == 500 && e.detail == detail
  {
    HttpException(GenerationFailed, HTTP_500_INTERNAL_SERVER_ERROR, detail, map[])
  }

  /** `SaveFailedError(detail)`: an HTTP 500 carrying `detail`. */
  function SaveFailedError(detail: string): (e: Exc)
    ensures e.IsHttp() && e.cls == SaveFailed && e.status == 500 && e.detail == detail
  {
    HttpException(SaveFailed, HTTP_500_INTERNAL_SERVER_ERROR, detail, map[])
  }

  /** `str(e)`: an HTTP exception reads "<status>: <detail>" (the `__str__` of
      the framework's `HTTPException`), any other exception its message. */
  function Str(e: Exc): string
  {
    match e
    case HttpException(_, status, detail, _) => Decimal(status) + ": " + detail
    case ValueError(message) => message
    case StoreException(err) => err.message
    case OtherException(message) => message
  }
}
