/** The `User` entity (dmn/src/entities/user/mod.rs). */
module Users {
  import opened Common
  import opened Primitives
  import opened EmailAddress

  datatype User = User(id: Uuid, email: Email, createdAt: Instant, updatedAt: Instant)

  /** The pre-validation record a `User` is built from. */
  datatype UserData = UserData(id: Uuid, email: Email, createdAt: Instant, updatedAt: Instant)

  /** The data a new user is registered with. */
  datatype CreateUserData = CreateUserData(email: Email, passwordHash: string)

  /** The fields a user update may set; `None` keeps the stored value. */
  datatype UpdateUserData = UpdateUserData(email: Option<Email>, passwordHash: Option<string>)

  /** What the accessors `id()`, `email()`, `created_at()` and `updated_at()` expose. */
  function Fields(u: User): UserData {
    UserData(u.id, u.email, u.createdAt, u.updatedAt)
  }

  /** `User::try_from`: never fails, and the accessors give back every field it was built from. */
  function FromData(data: UserData): (r: Result<User>)
    ensures r.Ok?
    ensures Fields(r.value) == data
  {
    Ok(User(data.id, data.email, data.createdAt, data.updatedAt))
  }

  /** A user is rebuilt exactly from what its accessors expose. */
  lemma FromFieldsRoundTrip(u: User)
    ensures FromData(Fields(u)) == Ok(u)
  {
  }

  /** `set_email`: always succeeds; the new email is stored, `updated_at` becomes the instant
      the clock reads, and the identity and creation instant are kept. */
  function SetEmail(u: User, newEmail: Email, now: Instant): (r: (User, Result<Unit>))
    ensures r.1 == Ok(Unit)
    ensures Fields(r.0) == Fields(u).(email := newEmail, updatedAt := now)
  {
    (u.(email := newEmail, updatedAt := now), Ok(Unit))
  }

  /** Only the last of two email changes is visible. */
  lemma SetEmailLastWins(u: User, first: Email, second: Email, t1: Instant, t2: Instant)
    ensures SetEmail(SetEmail(u, first, t1).0, second, t2) == SetEmail(u, second, t2)
  {
  }

  /** A user is addressed either by id or by email. */
  datatype UniqueUserIdentifier = ById(id: Uuid) | ByEmail(email: Email)

  /** `Display`: the wrapped id or email text, with nothing around it. */
  function IdentifierText(ident: UniqueUserIdentifier): (s: string)
    ensures ident.ById? ==> s == ident.id
    ensures ident.ByEmail? ==> s == AsStr(ident.email)
  {
    match ident
    case ById(id) => id
    case ByEmail(e) => AsStr(e)
  }

  /** The row an identifier selects (`WHERE id = $1` or `WHERE email = $2`). */
  predicate Identifies(ident: UniqueUserIdentifier, u: User) {
    match ident
    case ById(id) => u.id == id
    case ByEmail(e) => u.email == e
  }

  /** A user is always selected by its own id and by its own email. */
  lemma UserIdentifiesItself(u: User)
    ensures Identifies(ById(u.id), u) && Identifies(ByEmail(u.email), u)
    ensures IdentifierText(ById(u.id)) == u.id
  {
  }
}
