/** The self-service user use cases (app/src/usecases/user): registering, changing one's email
    and deleting one's account. Registering and changing the email decide whether the email is
    still available. */
module UserUseCases {
  import opened Common
  import opened Primitives
  import opened Tables
  import opened EmailAddress
  import opened Users
  import opened UserStore
  import opened Authenticator
  import opened PasswordService

  /** `try_into_dmn`'s email step: an address that does not parse is `BadRequest` carrying the
      parser's public text. */
  function ParseEmail(email: string): (r: Result<Email>)
    ensures r.Ok? <==> MatchesPattern(email)
    ensures r.Ok? ==> r.value == Email(email)
    ensures r.Err? ==> r.error == Plain(BadRequestKind, "Invalid email address (" + email + ")!")
  {
    match TryFromString(email)
    case Ok(address) => Ok(address)
    case Err(e) => Err(Plain(BadRequestKind, e.base.publicInfo))
  }

  const EmailCheckFailed: string := "Couldn't verify email availability!"

  function EmailTaken(address: Email): string {
    "Email (" + AsStr(address) + ") already taken!"
  }

  /** The availability decision on the result of looking the email up: a `NotFound` lookup means
      the email is free; a user found under it is a `Conflict` unless it is `self`; any other
      lookup error keeps its variant and is reworded. */
  function Availability(lookup: Result<User>, self: Option<Uuid>, address: Email): (r: Result<Unit>)
    ensures r.Ok? <==> (lookup.Err? && KindOf(lookup.error) == NotFoundKind) || (lookup.Ok? && self == Some(lookup.value.id))
    ensures lookup.Ok? && self != Some(lookup.value.id) ==> r == Err(Plain(ConflictKind, EmailTaken(address)))
    ensures lookup.Err? && KindOf(lookup.error) != NotFoundKind ==> r == Err(Reword(lookup.error, EmailCheckFailed))
  {
    match lookup
    case Err(NotFound(_)) => Ok(Unit)
    case Err(e) => Err(Reword(e, EmailCheckFailed))
    case Ok(holder) =>
      if self == Some(holder.id) then Ok(Unit) else Err(Plain(ConflictKind, EmailTaken(address)))
  }

  function RowEmail(row: UserRow): Email {
    row.user.email
  }

  /** No two users share an email. The email column is not declared unique anywhere in this
      model; the use cases below keep it so. */
  ghost predicate EmailsUnique(t: UserTable) {
    DistinctKeys(t, RowEmail)
  }

  /** The database failures that may strike a registration. */
  datatype RegisterFaults = RegisterFaults(lookup: Fault, create: Fault)

  /** `RegisterUserUseCase::execute`: check the password's strength and hash it, parse the email,
      refuse an email already taken, then create the user. */
  function RegisterUser(users: UserTable, h: Hasher, email: string, password: string, freshId: Uuid, now: Instant, f: RegisterFaults): (o: Outcome<UserTable, User>)
    ensures o.result.Err? ==> o.state == users
    ensures h.hash(password).Err? ==> o == Outcome(users, Err(h.hash(password).error))
    ensures h.hash(password).Ok? && !MatchesPattern(email) ==>
      o == Outcome(users, Err(Plain(BadRequestKind, "Invalid email address (" + email + ")!")))
    ensures h.hash(password).Ok? && MatchesPattern(email) && f.lookup.None? && (exists row :: row in users && row.user.email == Email(email)) ==>
      o == Outcome(users, Err(Plain(ConflictKind, EmailTaken(Email(email)))))
    ensures h.hash(password).Ok? && MatchesPattern(email) && f.lookup.Some? ==>
      o == Outcome(users, Err(WithPrivate(InternalKind, EmailCheckFailed, f.lookup.value)))
    // past the checks, the creation decides: its error is returned as it is
    ensures h.hash(password).Ok? && MatchesPattern(email) && f.lookup.None? && (forall row :: row in users ==> row.user.email != Email(email)) ==>
      o.result == CreateUser(users, CreateUserData(Email(email), h.hash(password).value), freshId, now, f.create).result
    // a registration succeeds exactly when every check passes and the new id is free
    ensures o.result.Ok? <==>
      && h.hash(password).Ok? && MatchesPattern(email) && f.lookup.None?
      && (forall row :: row in users ==> row.user.email != Email(email))
      && f.create.None? && !HasKey(users, UserKey, freshId)
    ensures o.result.Ok? ==>
      && o.result.value == User(freshId, Email(email), now, now)
      && o.state == users + [UserRow(o.result.value, h.hash(password).value)]
    ensures UserStore.Valid(users) ==> UserStore.Valid(o.state)
    ensures EmailsUnique(users) ==> EmailsUnique(o.state)
  {
    var _ := ValidatePasswordStrength(password);
    match Hash(h, password)
    case Err(e) => Outcome(users, Err(e))
    case Ok(digest) =>
      match ParseEmail(email)
      case Err(e) => Outcome(users, Err(e))
      case Ok(address) =>
        var lookup := GetUser(users, ByEmail(address), f.lookup);
        match Availability(lookup, None, address)
        case Err(e) => Outcome(users, Err(e))
        case Ok(_) =>
          var created := CreateUser(users, CreateUserData(address, digest), freshId, now, f.create);
          assert EmailsUnique(users) ==> EmailsUnique(created.state) by {
            if EmailsUnique(users) && created.result.Ok? {
              AppendKeepsDistinct(users, RowEmail, UserRow(created.result.value, digest));
            }
          }
          created
  }

  /** The database failures that may strike an email change. */
  datatype UpdateSelfFaults = UpdateSelfFaults(lookup: Fault, update: Fault)

  /** `UpdateSelfUserUseCase::execute`: parse the email, refuse it when the user holding it is
      someone else, then set it on the authenticated user and leave the password hash alone. */
  function UpdateSelfUser(users: UserTable, ctx: AuthAccessContext, email: string, f: UpdateSelfFaults): (o: Outcome<UserTable, User>)
    ensures o.result.Err? ==> o.state == users
    ensures !MatchesPattern(email) ==> o == Outcome(users, Err(Plain(BadRequestKind, "Invalid email address (" + email + ")!")))
    ensures (MatchesPattern(email) && GetUser(users, ByEmail(Email(email)), f.lookup).Ok? &&
             GetUser(users, ByEmail(Email(email)), f.lookup).value.id != ctx.user.id) ==>
      o == Outcome(users, Err(Plain(ConflictKind, EmailTaken(Email(email)))))
    ensures MatchesPattern(email) && f.lookup.Some? ==>
      o == Outcome(users, Err(WithPrivate(InternalKind, EmailCheckFailed, f.lookup.value)))
    ensures o.result.Ok? ==>
      && MatchesPattern(email)
      && o.result.value.id == ctx.user.id && o.result.value.email == Email(email)
      && |o.state| == |users|
      && forall i :: 0 <= i < |users| ==>
           o.state[i] == (if users[i].user.id == ctx.user.id then users[i].(user := users[i].user.(email := Email(email))) else users[i])
    // past the checks, the update decides: its error is returned as it is
    ensures MatchesPattern(email) && Availability(GetUser(users, ByEmail(Email(email)), f.lookup), Some(ctx.user.id), Email(email)).Ok? ==>
      o.result == UpdateUser(users, ById(ctx.user.id), UpdateUserData(Some(Email(email)), None), f.update).result
    // the change succeeds exactly when the email parses and is free or the user's own, the
    // user's row exists, and no statement fails
    ensures o.result.Ok? <==>
      && MatchesPattern(email) && f.lookup.None? && f.update.None?
      && (exists row :: row in users && row.user.id == ctx.user.id)
      && (GetUser(users, ByEmail(Email(email)), None).Err? || GetUser(users, ByEmail(Email(email)), None).value.id == ctx.user.id)
    // the email it sets is free, or the first user holding it is the user itself
    ensures o.result.Ok? ==>
      || (forall row :: row in users ==> row.user.email != Email(email))
      || (exists row :: row in users && row.user.email == Email(email) && row.user.id == ctx.user.id)
    ensures UserStore.Valid(users) ==> UserStore.Valid(o.state)
  {
    match ParseEmail(email)
    case Err(e) => Outcome(users, Err(e))
    case Ok(address) =>
      var lookup := GetUser(users, ByEmail(address), f.lookup);
      match Availability(lookup, Some(ctx.user.id), address)
      case Err(e) => Outcome(users, Err(e))
      case Ok(_) =>
        var updated := UpdateUser(users, ById(ctx.user.id), UpdateUserData(Some(address), None), f.update);
        match updated.result
        case Err(e) => Outcome(users, Err(e))
        case Ok(_) => updated
  }

  /** The database failures that may strike an account deletion. */
  datatype DeleteSelfFaults = DeleteSelfFaults(hashLookup: Fault, delete: Fault)

  /** `DeleteSelfUserUseCase::execute`: verify the authenticated user's password, then delete
      that user. */
  function DeleteSelfUser(users: UserTable, h: Hasher, ctx: AuthAccessContext, password: string, f: DeleteSelfFaults): (o: Outcome<UserTable, Unit>)
    ensures o.result.Err? ==> o.state == users
    ensures VerifyPassword(users, h, ById(ctx.user.id), password, f.hashLookup).Err? ==>
      o == Outcome(users, Err(VerifyPassword(users, h, ById(ctx.user.id), password, f.hashLookup).error))
    ensures VerifyPassword(users, h, ById(ctx.user.id), password, f.hashLookup).Ok? && o.result.Err? ==>
      o.result == DeleteUser(users, ById(ctx.user.id), f.delete).result
    ensures o.result.Ok? <==> VerifyPassword(users, h, ById(ctx.user.id), password, f.hashLookup).Ok? && f.delete.None?
    ensures o.result.Ok? ==> forall row :: row in o.state <==> row in users && row.user.id != ctx.user.id
  {
    var ident := ById(ctx.user.id);
    match VerifyPassword(users, h, ident, password, f.hashLookup)
    case Err(e) => Outcome(users, Err(e))
    case Ok(_) => DeleteUser(users, ident, f.delete)
  }

  /** After deleting one's account the user is gone: fetching it finds nothing, and no password
      verifies for it any more. */
  lemma DeletedUserIsGone(users: UserTable, h: Hasher, ctx: AuthAccessContext, password: string, f: DeleteSelfFaults)
    requires DeleteSelfUser(users, h, ctx, password, f).result.Ok?
    ensures GetUser(DeleteSelfUser(users, h, ctx, password, f).state, ById(ctx.user.id), None) ==
      Err(Plain(NotFoundKind, UserMissing(ById(ctx.user.id))))
    ensures forall p :: VerifyPassword(DeleteSelfUser(users, h, ctx, password, f).state, h, ById(ctx.user.id), p, None).Err?
  {
    var after := DeleteSelfUser(users, h, ctx, password, f).state;
    assert forall row :: row in after ==> !Selects(ById(ctx.user.id), row);
  }

  /** Changing one's email keeps emails unique: the email set is either free or held only by
      the user itself, and ids are unique, so no other row can end up sharing it. */
  lemma UpdateSelfKeepsEmailsUnique(users: UserTable, ctx: AuthAccessContext, email: string, f: UpdateSelfFaults)
    requires UserStore.Valid(users) && EmailsUnique(users)
    ensures EmailsUnique(UpdateSelfUser(users, ctx, email, f).state)
  {
    var o := UpdateSelfUser(users, ctx, email, f);
    if o.result.Ok? {
      var address := Email(email);
      var t := o.state;
      forall i, j | 0 <= i < j < |t|
        ensures RowEmail(t[i]) != RowEmail(t[j])
      {
        assert RowEmail(users[i]) != RowEmail(users[j]);
        assert UserKey(users[i]) != UserKey(users[j]);
        var mineI := users[i].user.id == ctx.user.id;
        var mineJ := users[j].user.id == ctx.user.id;
        if mineI && !mineJ {
          assert RowEmail(t[i]) == address && t[j] == users[j];
          SoleHolder(users, ctx.user.id, address, j);
        } else if mineJ && !mineI {
          assert RowEmail(t[j]) == address && t[i] == users[i];
          SoleHolder(users, ctx.user.id, address, i);
        }
      }
    }
  }

  /** With unique emails, when the email is free or held by the user `me`, no row of another
      user holds it. */
  lemma SoleHolder(users: UserTable, me: Uuid, address: Email, k: nat)
    requires EmailsUnique(users)
    requires k < |users| && users[k].user.id != me
    requires (forall row :: row in users ==> row.user.email != address) ||
             (exists row :: row in users && row.user.email == address && row.user.id == me)
    ensures users[k].user.email != address
  {
  }
}
