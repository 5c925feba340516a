/** The application-wide error taxonomy (common/src/error.rs): six error variants, each
    carrying one BaseError with a public text, shown to callers, and an optional private
    diagnostic, kept for logs. */
module Common {

  datatype Option<+T> = None | Some(value: T)

  /** The empty success value `()`. */
  datatype Unit = Unit

  /** Outcome of a call into a foreign library (codec, password hasher): a value, or the
      library's own error text. */
  datatype Foreign<+T> = Done(value: T) | Failed(reason: string)

  datatype BaseError = BaseError(publicInfo: string, privateInfo: Option<string>)

  /** Every variant wraps exactly one BaseError; `e.base` is the `Deref` of the source. */
  datatype AppError =
    | Internal(base: BaseError)
    | BadRequest(base: BaseError)
    | NotFound(base: BaseError)
    | Conflict(base: BaseError)
    | Unauthorized(base: BaseError)
    | Forbidden(base: BaseError)

  datatype Result<+T> = Ok(value: T) | Err(error: AppError)

  /** The variant of an error, without its payload. */
  datatype Kind = InternalKind | BadRequestKind | NotFoundKind | ConflictKind | UnauthorizedKind | ForbiddenKind

  function KindOf(e: AppError): Kind {
    match e
    case Internal(_) => InternalKind
    case BadRequest(_) => BadRequestKind
    case NotFound(_) => NotFoundKind
    case Conflict(_) => ConflictKind
    case Unauthorized(_) => UnauthorizedKind
    case Forbidden(_) => ForbiddenKind
  }

  /** Wraps a BaseError in the variant named by `k`. */
  function Build(k: Kind, b: BaseError): (e: AppError)
    ensures KindOf(e) == k
    ensures e.base == b
  {
    match k
    case InternalKind => Internal(b)
    case BadRequestKind => BadRequest(b)
    case NotFoundKind => NotFound(b)
    case ConflictKind => Conflict(b)
    case UnauthorizedKind => Unauthorized(b)
    case ForbiddenKind => Forbidden(b)
  }

  /** An error is determined by its variant and its BaseError. */
  lemma BuildFromParts(e: AppError)
    ensures Build(KindOf(e), e.base) == e
  {
  }

  /** The plain constructors `internal`, `bad_request`, ... : no private diagnostic. */
  function Plain(k: Kind, publicInfo: string): (e: AppError)
    ensures KindOf(e) == k
    ensures e.base.publicInfo == publicInfo && e.base.privateInfo == None
  {
    Build(k, BaseError(publicInfo, None))
  }

  /** The `*_with_private` constructors: the diagnostic is kept as `Some`. */
  function WithPrivate(k: Kind, publicInfo: string, privateInfo: string): (e: AppError)
    ensures KindOf(e) == k
    ensures e.base.publicInfo == publicInfo && e.base.privateInfo == Some(privateInfo)
  {
    Build(k, BaseError(publicInfo, Some(privateInfo)))
  }

  /** The variant's name, as reported in response bodies. */
  function ErrorType(e: AppError): (t: string)
    ensures t == "Internal" <==> e.Internal?
    ensures t == "BadRequest" <==> e.BadRequest?
    ensures t == "NotFound" <==> e.NotFound?
    ensures t == "Conflict" <==> e.Conflict?
    ensures t == "Unauthorized" <==> e.Unauthorized?
    ensures t == "Forbidden" <==> e.Forbidden?
  {
    match e
    case Internal(_) => "Internal"
    case BadRequest(_) => "BadRequest"
    case NotFound(_) => "NotFound"
    case Conflict(_) => "Conflict"
    case Unauthorized(_) => "Unauthorized"
    case Forbidden(_) => "Forbidden"
  }

  /** Two errors have the same type name exactly when they are the same variant. */
  lemma ErrorTypeIdentifiesKind(a: AppError, b: AppError)
    ensures ErrorType(a) == ErrorType(b) <==> KindOf(a) == KindOf(b)
  {
  }

  /** Replaces the public text, keeping the variant and the private diagnostic. */
  function Reword(e: AppError, publicInfo: string): (r: AppError)
    ensures KindOf(r) == KindOf(e)
    ensures r.base.publicInfo == publicInfo
    ensures r.base.privateInfo == e.base.privateInfo
  {
    match e
    case Internal(b) => Internal(b.(publicInfo := publicInfo))
    case BadRequest(b) => BadRequest(b.(publicInfo := publicInfo))
    case NotFound(b) => NotFound(b.(publicInfo := publicInfo))
    case Conflict(b) => Conflict(b.(publicInfo := publicInfo))
    case Unauthorized(b) => Unauthorized(b.(publicInfo := publicInfo))
    case Forbidden(b) => Forbidden(b.(publicInfo := publicInfo))
  }

  /** Rewording twice is rewording once with the last text. */
  lemma RewordLastWins(e: AppError, first: string, second: string)
    ensures Reword(Reword(e, first), second) == Reword(e, second)
  {
  }

  /** `Display` of a BaseError: the public text only. */
  function ShowBase(b: BaseError): string {
    b.publicInfo
  }

  /** The private diagnostic never influences what `Display` shows. */
  lemma ShowBaseHidesPrivate(publicInfo: string, p1: Option<string>, p2: Option<string>)
    ensures ShowBase(BaseError(publicInfo, p1)) == ShowBase(BaseError(publicInfo, p2)) == publicInfo
  {
  }

  /** The `#[error(...)]` prefix of each variant: its own text, ending in ": ". */
  function KindPrefix(k: Kind): (p: string)
    ensures p == "Internal Server Error: " <==> k == InternalKind
    ensures p == "Bad Request: " <==> k == BadRequestKind
    ensures p == "Not Found: " <==> k == NotFoundKind
    ensures p == "Conflict: " <==> k == ConflictKind
    ensures p == "Unauthorized: " <==> k == UnauthorizedKind
    ensures p == "Forbidden: " <==> k == ForbiddenKind
  {
    match k
    case InternalKind => "Internal Server Error: "
    case BadRequestKind => "Bad Request: "
    case NotFoundKind => "Not Found: "
    case ConflictKind => "Conflict: "
    case UnauthorizedKind => "Unauthorized: "
    case ForbiddenKind => "Forbidden: "
  }

  /** `Display` of an AppError (`err.to_string()`): a variant prefix and the public text. */
  function Describe(e: AppError): (s: string)
    ensures s == KindPrefix(KindOf(e)) + ShowBase(e.base)
  {
    match e
    case Internal(b) => "Internal Server Error: " + ShowBase(b)
    case BadRequest(b) => "Bad Request: " + ShowBase(b)
    case NotFound(b) => "Not Found: " + ShowBase(b)
    case Conflict(b) => "Conflict: " + ShowBase(b)
    case Unauthorized(b) => "Unauthorized: " + ShowBase(b)
    case Forbidden(b) => "Forbidden: " + ShowBase(b)
  }

  /** When an error is folded into another one's private diagnostic (`err.to_string()`),
      the inner private diagnostic is lost. */
  lemma DescribeHidesPrivate(e: AppError, p: Option<string>)
    ensures Describe(Build(KindOf(e), e.base.(privateInfo := p))) == Describe(e)
  {
  }
}
