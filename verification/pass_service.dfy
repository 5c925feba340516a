/** `DefaultPasswordService` (infra/src/auth/pass_service.rs): checking a password against the
    stored hash, hashing, and the password strength policy. The hashing library is a
    parameter. */
module PasswordService {
  import opened Common
  import opened Tables
  import opened Users
  import opened UserStore

  /** The password hasher: hashing a password, and checking a password against a hash. Either
      may fail with an application error. */
  datatype Hasher = Hasher(hash: string -> Result<string>, verify: (string, string) -> Result<bool>)

  /** `hash`: the hasher's result, passed on untouched. */
  function Hash(h: Hasher, password: string): (r: Result<string>)
    ensures r.Ok? <==> h.hash(password).Ok?
    ensures r.Ok? ==> r.value == h.hash(password).value
    ensures r.Err? ==> r.error == h.hash(password).error
  {
    match h.hash(password)
    case Ok(digest) => Ok(digest)
    case Err(e) => Err(e)
  }

  /** `validate_password_strength`: every password is accepted. */
  function ValidatePasswordStrength(password: string): (r: Result<Unit>)
    ensures r == Ok(Unit)
  {
    Ok(Unit)
  }

  const VerifyFailed: string := "Failed to verify user password!"

  function HashFetchFailed(ident: UniqueUserIdentifier, e: AppError): string {
    "Password hash fetch failed for user (" + IdentifierText(ident) + ")! Reason: " + Describe(e)
  }

  function HasherFailed(ident: UniqueUserIdentifier, e: AppError): string {
    "Password verification failed for user (" + IdentifierText(ident) + "): " + Describe(e)
  }

  function PasswordMismatch(ident: UniqueUserIdentifier): string {
    "Password mismatch for user (" + IdentifierText(ident) + ")!"
  }

  /** `verify_password`: `Ok` exactly when the user's hash is found and the hasher reports a
      match. Every failure is `Unauthorized` "Failed to verify user password!"; only the
      private diagnostic tells the causes apart. */
  function VerifyPassword(users: UserTable, h: Hasher, ident: UniqueUserIdentifier, password: string, fault: Fault): (r: Result<Unit>)
    ensures r.Ok? <==>
      GetUserPasswordHash(users, ident, fault).Ok? && h.verify(password, GetUserPasswordHash(users, ident, fault).value) == Ok(true)
    ensures r.Err? ==> KindOf(r.error) == UnauthorizedKind && r.error.base.publicInfo == VerifyFailed
    ensures GetUserPasswordHash(users, ident, fault).Err? ==>
      r.error.base.privateInfo == Some(HashFetchFailed(ident, GetUserPasswordHash(users, ident, fault).error))
    ensures GetUserPasswordHash(users, ident, fault).Ok? && h.verify(password, GetUserPasswordHash(users, ident, fault).value).Err? ==>
      r.error.base.privateInfo == Some(HasherFailed(ident, h.verify(password, GetUserPasswordHash(users, ident, fault).value).error))
    ensures GetUserPasswordHash(users, ident, fault).Ok? && h.verify(password, GetUserPasswordHash(users, ident, fault).value) == Ok(false) ==>
      r.error.base.privateInfo == Some(PasswordMismatch(ident))
    // without a matching user, no password is accepted
    ensures (forall row :: row in users ==> !Selects(ident, row)) ==> r.Err?
  {
    match GetUserPasswordHash(users, ident, fault)
    case Err(e) => Err(WithPrivate(UnauthorizedKind, VerifyFailed, HashFetchFailed(ident, e)))
    case Ok(stored) =>
      match h.verify(password, stored)
      case Err(e) => Err(WithPrivate(UnauthorizedKind, VerifyFailed, HasherFailed(ident, e)))
      case Ok(matches) =>
        if !matches then Err(WithPrivate(UnauthorizedKind, VerifyFailed, PasswordMismatch(ident)))
        else Ok(Unit)
  }

  /** An unknown user and a wrong password cannot be told apart by the caller: the variant and
      the public text of the two failures agree. */
  lemma UnknownUserLooksLikeWrongPassword(users: UserTable, h: Hasher, ident: UniqueUserIdentifier, other: UniqueUserIdentifier, password: string, wrong: string)
    requires forall row :: row in users ==> !Selects(ident, row)
    requires VerifyPassword(users, h, other, wrong, None).Err?
    ensures VerifyPassword(users, h, ident, password, None).Err?
    ensures KindOf(VerifyPassword(users, h, ident, password, None).error) == KindOf(VerifyPassword(users, h, other, wrong, None).error)
    ensures VerifyPassword(users, h, ident, password, None).error.base.publicInfo == VerifyPassword(users, h, other, wrong, None).error.base.publicInfo
  {
  }
}
