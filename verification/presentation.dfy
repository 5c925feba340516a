/** How an application error becomes an HTTP response (pres/src/types/error.rs): a status code
    chosen by the variant, and a body holding the variant's name and the public text only. */
module Presentation {
  import opened Common

  /** `status_code`. */
  function StatusCode(e: AppError): (code: int)
    ensures code == 500 <==> KindOf(e) == InternalKind
    ensures code == 400 <==> KindOf(e) == BadRequestKind
    ensures code == 404 <==> KindOf(e) == NotFoundKind
    ensures code == 409 <==> KindOf(e) == ConflictKind
    ensures code == 401 <==> KindOf(e) == UnauthorizedKind
    ensures code == 403 <==> KindOf(e) == ForbiddenKind
  {
    match e
    case Internal(_) => 500
    case BadRequest(_) => 400
    case NotFound(_) => 404
    case Conflict(_) => 409
    case Unauthorized(_) => 401
    case Forbidden(_) => 403
  }

  /** Distinct variants get distinct status codes, and the code agrees with the body's type. */
  lemma StatusCodeIdentifiesKind(a: AppError, b: AppError)
    ensures StatusCode(a) == StatusCode(b) <==> KindOf(a) == KindOf(b)
    ensures StatusCode(a) == StatusCode(b) <==> ErrorType(a) == ErrorType(b)
  {
    ErrorTypeIdentifiesKind(a, b);
  }

  /** The JSON body `{"error": {"type": ..., "message": ...}}`. */
  datatype ErrorBody = ErrorBody(typ: string, message: string)

  function Body(e: AppError): (b: ErrorBody)
    ensures b.typ == ErrorType(e)
    ensures b.message == e.base.publicInfo
  {
    ErrorBody(ErrorType(e), e.base.publicInfo)
  }

  /** The private diagnostic never reaches the response: two errors that differ only in it
      produce the same status and body. */
  lemma ResponseHidesPrivate(e: AppError, p: Option<string>)
    ensures StatusCode(Build(KindOf(e), e.base.(privateInfo := p))) == StatusCode(e)
    ensures Body(Build(KindOf(e), e.base.(privateInfo := p))) == Body(e)
  {
  }

  /** Rewording changes the message of the response and nothing else. */
  lemma RewordChangesOnlyMessage(e: AppError, text: string)
    ensures StatusCode(Reword(e, text)) == StatusCode(e)
    ensures Body(Reword(e, text)) == Body(e).(message := text)
  {
    ErrorTypeIdentifiesKind(Reword(e, text), e);
  }
}
