/** The credential-gated authentication use cases (app/src/usecases/auth): logging in,
    rotating a token pair, and changing the password. */
module AuthUseCases {
  import opened Common
  import opened Primitives
  import opened Tables
  import opened AuthTokens
  import opened EmailAddress
  import opened Users
  import opened UserStore
  import opened TokenStore
  import opened Authenticator
  import opened PasswordService
  import opened TokenCodec
  import opened UnitOfWork

  /** The database failures that may strike a login. */
  datatype LoginFaults = LoginFaults(userLookup: Fault, hashLookup: Fault, issue: IssueFaults)

  /** `attempt_login`: parse the email, find the user by it, check the password, and only then
      issue a pair for the user without revoking anything. Errors pass through unchanged. */
  function AttemptLogin(cfg: Config, tokens: Store, users: UserTable, h: Hasher, email: string, password: string, m: Minting, f: LoginFaults): (o: Outcome<Store, AuthTokenPair>)
    ensures TryFromString(email).Err? ==> o == Outcome(tokens, Err(TryFromString(email).error))
    ensures o.result.Err? ==> o.state == tokens
    // the error of the first failing step is returned as it is ...
    ensures MatchesPattern(email) && GetUser(users, ByEmail(Email(email)), f.userLookup).Err? ==>
      o == Outcome(tokens, Err(GetUser(users, ByEmail(Email(email)), f.userLookup).error))
    ensures MatchesPattern(email) && GetUser(users, ByEmail(Email(email)), f.userLookup).Ok? &&
            VerifyPassword(users, h, ByEmail(Email(email)), password, f.hashLookup).Err? ==>
      o == Outcome(tokens, Err(VerifyPassword(users, h, ByEmail(Email(email)), password, f.hashLookup).error))
    // ... and once the user is found and the password checks out, the outcome is the issuance's
    ensures MatchesPattern(email) && GetUser(users, ByEmail(Email(email)), f.userLookup).Ok? &&
            VerifyPassword(users, h, ByEmail(Email(email)), password, f.hashLookup).Ok? ==>
      o == GenerateAuthTokens(cfg, tokens, GetUser(users, ByEmail(Email(email)), f.userLookup).value.id, None, m, f.issue)
    // a pair is issued only to a user found by the address whose password checks out
    ensures o.result.Ok? ==>
      && MatchesPattern(email)
      && GetUser(users, ByEmail(Email(email)), f.userLookup).Ok?
      && VerifyPassword(users, h, ByEmail(Email(email)), password, f.hashLookup).Ok?
      && o == GenerateAuthTokens(cfg, tokens, GetUser(users, ByEmail(Email(email)), f.userLookup).value.id, None, m, f.issue)
    ensures o.result.Ok? ==>
      && (exists row :: row in users && row.user.email == Email(email) && row.user.id == o.result.value.access.userId)
      && o.result.value.refresh.userId == o.result.value.access.userId
    // logging in revokes nothing
    ensures o.result.Ok? ==> forall t :: t in tokens.access ==> t in o.state.access
    ensures o.result.Ok? ==> forall r :: r in tokens.refresh ==> r in o.state.refresh
  {
    match TryFromString(email)
    case Err(e) => Outcome(tokens, Err(e))
    case Ok(address) =>
      assert address == Email(email);
      var ident := ByEmail(address);
      match GetUser(users, ident, f.userLookup)
      case Err(e) => Outcome(tokens, Err(e))
      case Ok(user) =>
        match VerifyPassword(users, h, ident, password, f.hashLookup)
        case Err(e) => Outcome(tokens, Err(e))
        case Ok(_) =>
          var issued := GenerateAuthTokens(cfg, tokens, user.id, None, m, f.issue);
          assert issued.result.Ok? ==> issued.result.value.access.userId == user.id;
          issued
  }

  const LoginFailed: string := "Login failed. Please check your credentials and try again."

  /** `execute`: every failure of the attempt is hidden behind one `Unauthorized` text, with
      the attempt's error described in the private diagnostic; a success is the attempt's. */
  function Login(cfg: Config, tokens: Store, users: UserTable, h: Hasher, email: string, password: string, m: Minting, f: LoginFaults): (o: Outcome<Store, AuthTokenPair>)
    ensures o.result.Err? ==> o.state == tokens
    ensures o.result.Err? ==> KindOf(o.result.error) == UnauthorizedKind && o.result.error.base.publicInfo == LoginFailed
    ensures o.result.Err? ==>
      && AttemptLogin(cfg, tokens, users, h, email, password, m, f).result.Err?
      && o.result.error.base.privateInfo == Some(Describe(AttemptLogin(cfg, tokens, users, h, email, password, m, f).result.error))
    ensures o.result.Ok? ==> o == AttemptLogin(cfg, tokens, users, h, email, password, m, f)
    // an address that does not parse is refused whatever the tables hold
    ensures !MatchesPattern(email) ==>
      o == Outcome(tokens, Err(WithPrivate(UnauthorizedKind, LoginFailed, Describe(Plain(InternalKind, "Invalid email address (" + email + ")!")))))
  {
    var attempt := AttemptLogin(cfg, tokens, users, h, email, password, m, f);
    match attempt.result
    case Err(e) => Outcome(tokens, Err(WithPrivate(UnauthorizedKind, LoginFailed, Describe(e))))
    case Ok(_) => attempt
  }

  /** `AuthRefreshUseCase::execute`: issue a new pair for the context's user, revoking the pair
      the presented refresh token belongs to. */
  function Refresh(cfg: Config, tokens: Store, ctx: AuthRefreshContext, m: Minting, f: IssueFaults): (o: Outcome<Store, AuthTokenPair>)
    ensures o.result.Err? ==> o.state == tokens && KindOf(o.result.error) == InternalKind
    ensures o.result.Err? ==> o.result.error.base.publicInfo in {GenerateFailed, BeginFailed, CommitFailed, RollbackFailed}
    ensures Encode(cfg.lib, AccessPayload(cfg, ctx.user.id, m)).Err? ==>
      o == Outcome(tokens, Err(IssueError(Encode(cfg.lib, AccessPayload(cfg, ctx.user.id, m)).error)))
    ensures Encode(cfg.lib, AccessPayload(cfg, ctx.user.id, m)).Ok? && Encode(cfg.lib, RefreshPayload(cfg, ctx.user.id, m)).Err? ==>
      o == Outcome(tokens, Err(IssueError(Encode(cfg.lib, RefreshPayload(cfg, ctx.user.id, m)).error)))
    // with both payloads encoded, the transaction's own failures surface as they are
    ensures Encode(cfg.lib, AccessPayload(cfg, ctx.user.id, m)).Ok? && Encode(cfg.lib, RefreshPayload(cfg, ctx.user.id, m)).Ok? && f.tx.begin.Some? ==>
      o == Outcome(tokens, Err(WithPrivate(InternalKind, BeginFailed, f.tx.begin.value)))
    ensures o.result.Ok? ==> o.result.value.access.userId == ctx.user.id && o.result.value.refresh.userId == ctx.user.id
    // the presented pair is gone afterwards ...
    ensures o.result.Ok? && m.accessId != ctx.refreshToken.accessTokenId ==>
      && ctx.refreshToken !in o.state.refresh
      && forall t :: t in o.state.access ==> t.id != ctx.refreshToken.accessTokenId
    // ... and it must have been there before
    ensures o.result.Ok? && m.accessId != ctx.refreshToken.accessTokenId ==>
      exists t :: t in tokens.access && t.id == ctx.refreshToken.accessTokenId
    // nothing else leaves the tables, and only the new pair enters them
    ensures o.result.Ok? && m.accessId != ctx.refreshToken.accessTokenId ==>
      forall t :: t in o.state.access <==> (t in tokens.access && t.id != ctx.refreshToken.accessTokenId) || t == o.result.value.access
    ensures o.result.Ok? && m.accessId != ctx.refreshToken.accessTokenId ==>
      forall r :: r in o.state.refresh <==> (r in tokens.refresh && r.accessTokenId != ctx.refreshToken.accessTokenId) || r == o.result.value.refresh
  {
    RefreshFrame(cfg, tokens, ctx, m, f);
    GenerateAuthTokens(cfg, tokens, ctx.user.id, Some(AccessById(ctx.refreshToken.accessTokenId)), m, f)
  }

  /** The tables after a rotation, as issuance leaves them: the frame of `Refresh`. */
  lemma RefreshFrame(cfg: Config, tokens: Store, ctx: AuthRefreshContext, m: Minting, f: IssueFaults)
    ensures var o := GenerateAuthTokens(cfg, tokens, ctx.user.id, Some(AccessById(ctx.refreshToken.accessTokenId)), m, f);
      o.result.Ok? && m.accessId != ctx.refreshToken.accessTokenId ==>
        && (forall t :: t in o.state.access <==> (t in tokens.access && t.id != ctx.refreshToken.accessTokenId) || t == o.result.value.access)
        && (forall r :: r in o.state.refresh <==> (r in tokens.refresh && r.accessTokenId != ctx.refreshToken.accessTokenId) || r == o.result.value.refresh)
  {
    var id := ctx.refreshToken.accessTokenId;
    var revoke := Some(AccessById(id));
    var o := GenerateAuthTokens(cfg, tokens, ctx.user.id, revoke, m, f);
    if o.result.Ok? && m.accessId != id {
      var pair := o.result.value;
      assert pair.access.id == m.accessId && pair.refresh.accessTokenId == m.accessId;
      var old_ :| old_ in tokens.access && old_.id == id;
      forall r | (r in tokens.refresh && r.accessTokenId != id) || r == pair.refresh
        ensures r in o.state.refresh
      {
        assert !(exists t :: (t in tokens.access || t == pair.access) && Revokes(revoke, t) && t.id == r.accessTokenId);
      }
    }
  }

  /** A rotation succeeds exactly when both payloads encode, the transaction runs, both new ids
      are free, the delete of the presented pair runs and that pair's access row exists. */
  lemma RefreshSucceedsExactly(cfg: Config, tokens: Store, ctx: AuthRefreshContext, m: Minting, f: IssueFaults)
    ensures Refresh(cfg, tokens, ctx, m, f).result.Ok? <==>
      && Encode(cfg.lib, AccessPayload(cfg, ctx.user.id, m)).Ok?
      && Encode(cfg.lib, RefreshPayload(cfg, ctx.user.id, m)).Ok?
      && f.tx.begin.None? && f.tx.commit.None?
      && f.createAccess.None? && !HasKey(tokens.access, AccessKey, m.accessId)
      && f.createRefresh.None? && !HasKey(tokens.refresh, RefreshKey, m.refreshId)
      && f.deletePair.None?
      && (m.accessId == ctx.refreshToken.accessTokenId || exists t :: t in tokens.access && t.id == ctx.refreshToken.accessTokenId)
  {
    GenerateSucceedsExactly(cfg, tokens, ctx.user.id, Some(AccessById(ctx.refreshToken.accessTokenId)), m, f);
  }

  /** A login with a parsable address of an existing user, the right password, no database
      failure, encodable payloads and fresh ids succeeds. */
  lemma LoginSucceeds(cfg: Config, tokens: Store, users: UserTable, h: Hasher, email: string, password: string, m: Minting)
    requires MatchesPattern(email)
    requires exists row :: row in users && row.user.email == Email(email)
    requires h.verify(password, GetUserPasswordHash(users, ByEmail(Email(email)), None).value) == Ok(true)
    requires var uid := GetUser(users, ByEmail(Email(email)), None).value.id;
      && Encode(cfg.lib, AccessPayload(cfg, uid, m)).Ok? && Encode(cfg.lib, RefreshPayload(cfg, uid, m)).Ok?
      && !HasKey(tokens.access, AccessKey, m.accessId) && !HasKey(tokens.refresh, RefreshKey, m.refreshId)
    ensures Login(cfg, tokens, users, h, email, password, m, LoginFaults(None, None, NoIssueFaults)).result.Ok?
  {
    var uid := GetUser(users, ByEmail(Email(email)), None).value.id;
    GenerateSucceedsExactly(cfg, tokens, uid, None, m, NoIssueFaults);
  }

  /** Two rotations presenting the same refresh token: once the first has succeeded, the second
      finds the pair gone and fails, leaving the tables as the first one left them. */
  lemma SecondRefreshLoses(cfg: Config, tokens: Store, ctx: AuthRefreshContext, m1: Minting, m2: Minting, f1: IssueFaults, f2: IssueFaults)
    requires Refresh(cfg, tokens, ctx, m1, f1).result.Ok?
    requires m1.accessId != ctx.refreshToken.accessTokenId && m2.accessId != ctx.refreshToken.accessTokenId
    ensures Refresh(cfg, Refresh(cfg, tokens, ctx, m1, f1).state, ctx, m2, f2).result.Err?
    ensures Refresh(cfg, Refresh(cfg, tokens, ctx, m1, f1).state, ctx, m2, f2).state == Refresh(cfg, tokens, ctx, m1, f1).state
  {
  }

  /** After a password change the user's stored hash is the new password's hash, so the new
      password is the one that checks out. */
  lemma ChangePasswordTakesEffect(users: UserTable, h: Hasher, ctx: AuthAccessContext, currentPassword: string, newPassword: string, f: ChangePasswordFaults)
    requires ChangePassword(users, h, ctx, currentPassword, newPassword, f).result.Ok?
    ensures h.hash(newPassword).Ok?
    ensures GetUserPasswordHash(ChangePassword(users, h, ctx, currentPassword, newPassword, f).state, ById(ctx.user.id), None) ==
      Ok(h.hash(newPassword).value)
  {
    var o := ChangePassword(users, h, ctx, currentPassword, newPassword, f);
    var row :| row in users && Selects(ById(ctx.user.id), row);
    StoredHashAfterRewrite(users, o.state, ctx.user.id, h.hash(newPassword).value);
  }

  /** Rewriting the hash of every row of a user that exists makes that hash the one found. */
  lemma StoredHashAfterRewrite(before: UserTable, after: UserTable, id: Uuid, digest: string)
    requires |after| == |before|
    requires forall i :: 0 <= i < |before| ==>
      after[i] == (if before[i].user.id == id then before[i].(passwordHash := digest) else before[i])
    requires exists row :: row in before && row.user.id == id
    ensures GetUserPasswordHash(after, ById(id), None) == Ok(digest)
  {
    var ident := ById(id);
    forall k | 0 <= k < |after| && Selects(ident, after[k])
      ensures after[k].passwordHash == digest
    {
      assert before[k].user.id == id;
    }
    var row :| row in before && row.user.id == id;
    var i :| 0 <= i < |before| && before[i] == row;
    assert Selects(ident, after[i]);
    var found := GetUserPasswordHash(after, ident, None);
    var row' :| row' in after && Selects(ident, row') && row'.passwordHash == found.value;
  }

  /** The database failures that may strike a password change. */
  datatype ChangePasswordFaults = ChangePasswordFaults(hashLookup: Fault, update: Fault)

  /** `ChangeUserPasswordUseCase::execute`: check the new password's strength, verify the
      current password of the authenticated user, hash the new one and store only the hash.
      The first failing step's error is returned unchanged. */
  function ChangePassword(users: UserTable, h: Hasher, ctx: AuthAccessContext, currentPassword: string, newPassword: string, f: ChangePasswordFaults): (o: Outcome<UserTable, Unit>)
    ensures o.result.Err? ==> o.state == users
    ensures VerifyPassword(users, h, ById(ctx.user.id), currentPassword, f.hashLookup).Err? ==>
      o == Outcome(users, Err(VerifyPassword(users, h, ById(ctx.user.id), currentPassword, f.hashLookup).error))
    ensures VerifyPassword(users, h, ById(ctx.user.id), currentPassword, f.hashLookup).Ok? && h.hash(newPassword).Err? ==>
      o == Outcome(users, Err(h.hash(newPassword).error))
    ensures VerifyPassword(users, h, ById(ctx.user.id), currentPassword, f.hashLookup).Ok? && h.hash(newPassword).Ok? &&
            f.update.Some? ==>
      o == Outcome(users, Err(UpdateUser(users, ById(ctx.user.id), UpdateUserData(None, Some(h.hash(newPassword).value)), f.update).result.error))
    // once the current password checks out and the new one hashes, only a failing update stops the change
    ensures o.result.Ok? <==>
      VerifyPassword(users, h, ById(ctx.user.id), currentPassword, f.hashLookup).Ok? && h.hash(newPassword).Ok? && f.update.None?
    ensures o.result.Ok? ==>
      && VerifyPassword(users, h, ById(ctx.user.id), currentPassword, f.hashLookup).Ok?
      && h.hash(newPassword).Ok?
      && |o.state| == |users|
      && forall i :: 0 <= i < |users| ==>
           o.state[i] == (if users[i].user.id == ctx.user.id then users[i].(passwordHash := h.hash(newPassword).value) else users[i])
  {
    var _ := ValidatePasswordStrength(newPassword);
    var ident := ById(ctx.user.id);
    match VerifyPassword(users, h, ident, currentPassword, f.hashLookup)
    case Err(e) => Outcome(users, Err(e))
    case Ok(_) =>
      match Hash(h, newPassword)
      case Err(e) => Outcome(users, Err(e))
      case Ok(digest) =>
        var updated := UpdateUser(users, ident, UpdateUserData(None, Some(digest)), f.update);
        match updated.result
        case Err(e) => Outcome(users, Err(e))
        case Ok(_) => Outcome(updated.state, Ok(Unit))
  }
}
