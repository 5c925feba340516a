/** `JwtAuthenticator` (infra/src/auth/authenticator.rs): issuing a linked access/refresh token
    pair inside one transaction, and authenticating a presented token against the codec, the
    token tables and the user table. The codec library, the clock and the id generator are
    parameters. */
module Authenticator {
  import opened Common
  import opened Primitives
  import opened Tables
  import opened AuthTokens
  import opened TokenCodec
  import opened TokenStore
  import opened Users
  import opened UserStore
  import opened UnitOfWork

  /** The authenticator's configuration: both token lifetimes in whole seconds (configured as
      `u32`), and the JWT library with its signing key. */
  datatype Config = Config(accessSecs: nat, refreshSecs: nat, lib: JwtLibrary)

  /** What the environment supplies while minting: the two clock readings taken by
      `new_access` and `new_refresh`, and the two freshly generated ids. */
  datatype Minting = Minting(accessNow: Instant, refreshNow: Instant, accessId: Uuid, refreshId: Uuid)

  /** The database failures that may strike an issuance. */
  datatype IssueFaults = IssueFaults(tx: TxFaults, createAccess: Fault, createRefresh: Fault, deletePair: Fault)

  const NoIssueFaults: IssueFaults := IssueFaults(NoTxFaults, None, None, None)

  const GenerateFailed: string := "Failed to generate auth tokens!"

  /** `internal_with_private(INTERNAL_ERR_STR, err.to_string())`. */
  function IssueError(e: AppError): (r: AppError)
    ensures KindOf(r) == InternalKind && r.base.publicInfo == GenerateFailed
    ensures r.base.privateInfo == Some(Describe(e))
  {
    WithPrivate(InternalKind, GenerateFailed, Describe(e))
  }

  /** `new_access(user_id, access_token_duration)` with the minting's first clock reading and id. */
  function AccessPayload(cfg: Config, userId: Uuid, m: Minting): (d: TokenData)
    ensures d.variant == AccessVariant && d.userId == userId && d.id == m.accessId
    ensures d.expiresAt == m.accessNow + cfg.accessSecs * NanosPerSecond
  {
    NewAccess(userId, Seconds(cfg.accessSecs), m.accessNow, m.accessId)
  }

  /** `new_refresh(user_id, refresh_token_duration)` with the minting's second clock reading and id. */
  function RefreshPayload(cfg: Config, userId: Uuid, m: Minting): (d: TokenData)
    ensures d.variant == RefreshVariant && d.userId == userId && d.id == m.refreshId
    ensures d.expiresAt == m.refreshNow + cfg.refreshSecs * NanosPerSecond
  {
    NewRefresh(userId, Seconds(cfg.refreshSecs), m.refreshNow, m.refreshId)
  }

  /** The two records built from the payloads and their encoded tokens: the refresh record
      points at the access record. */
  function MintedPair(access: TokenData, accessJwt: string, refresh: TokenData, refreshJwt: string): (p: AuthTokenPair)
    ensures Linked(p)
    ensures p.access == AccessToken(access.id, access.userId, accessJwt, access.expiresAt)
    ensures p.refresh == RefreshToken(refresh.id, refresh.userId, access.id, refreshJwt, refresh.expiresAt)
  {
    var a := AccessToken(access.id, access.userId, accessJwt, access.expiresAt);
    AuthTokenPair(a, RefreshToken(refresh.id, refresh.userId, a.id, refreshJwt, refresh.expiresAt))
  }

  /** Whether the optional revocation target selects this access row. */
  predicate Revokes(revoke: Option<AccessIdentifier>, t: AccessToken) {
    revoke.Some? && MatchesAccess(revoke.value, t)
  }

  /** The transaction body of `generate_auth_tokens`: create the access record, create the
      refresh record, then delete the pair to revoke, if any. Every failing step becomes
      `Internal` "Failed to generate auth tokens!" describing the step's error. */
  function PersistPair(s: Store, pair: AuthTokenPair, revoke: Option<AccessIdentifier>, f: IssueFaults): (o: Outcome<Store, AuthTokenPair>)
    ensures o.result.Ok? <==>
      && f.createAccess.None? && !HasKey(s.access, AccessKey, pair.access.id)
      && f.createRefresh.None? && !HasKey(s.refresh, RefreshKey, pair.refresh.id)
      && HasKey(s.access + [pair.access], AccessKey, pair.refresh.accessTokenId)
      && (revoke.Some? ==> f.deletePair.None? && exists t :: t in s.access + [pair.access] && MatchesAccess(revoke.value, t))
    ensures o.result.Err? ==> KindOf(o.result.error) == InternalKind && o.result.error.base.publicInfo == GenerateFailed
    ensures o.result.Ok? ==> o.result.value == pair
    ensures o.result.Ok? ==> forall t :: t in o.state.access <==> (t in s.access || t == pair.access) && !Revokes(revoke, t)
    ensures o.result.Ok? ==> forall r :: r in o.state.refresh <==>
      (r in s.refresh || r == pair.refresh) &&
      !(exists t :: (t in s.access || t == pair.access) && Revokes(revoke, t) && t.id == r.accessTokenId)
    ensures TokenStore.Valid(s) ==> TokenStore.Valid(o.state)
  {
    var created := CreateAccessToken(s, pair.access, f.createAccess);
    if created.result.Err? then Outcome(created.state, Err(IssueError(created.result.error)))
    else
      var linked := CreateRefreshToken(created.state, pair.refresh, f.createRefresh);
      if linked.result.Err? then Outcome(linked.state, Err(IssueError(linked.result.error)))
      else
        assert forall t :: t in s.access + [pair.access] <==> t in s.access || t == pair.access;
        assert forall r :: r in s.refresh + [pair.refresh] <==> r in s.refresh || r == pair.refresh;
        var done := AuthTokenPair(created.result.value, linked.result.value);
        match revoke
        case None => Outcome(linked.state, Ok(done))
        case Some(target) =>
          var revoked := DeleteTokenPair(linked.state, target, f.deletePair);
          if revoked.result.Err? then Outcome(revoked.state, Err(IssueError(revoked.result.error)))
          else Outcome(revoked.state, Ok(done))
  }

  /** `generate_auth_tokens`: mint and encode both payloads, then persist the pair (revoking
      `revoke`, when given) in one transaction. */
  function GenerateAuthTokens(cfg: Config, s: Store, userId: Uuid, revoke: Option<AccessIdentifier>, m: Minting, f: IssueFaults): (o: Outcome<Store, AuthTokenPair>)
    // failures: always `Internal`, and the tables are untouched
    ensures o.result.Err? ==> o.state == s && KindOf(o.result.error) == InternalKind
    ensures o.result.Err? ==> o.result.error.base.publicInfo in {GenerateFailed, BeginFailed, CommitFailed, RollbackFailed}
    ensures Encode(cfg.lib, AccessPayload(cfg, userId, m)).Err? ==>
      o == Outcome(s, Err(IssueError(Encode(cfg.lib, AccessPayload(cfg, userId, m)).error)))
    ensures Encode(cfg.lib, AccessPayload(cfg, userId, m)).Ok? && Encode(cfg.lib, RefreshPayload(cfg, userId, m)).Err? ==>
      o == Outcome(s, Err(IssueError(Encode(cfg.lib, RefreshPayload(cfg, userId, m)).error)))
    // the issued pair: linked, for `userId`, with the configured lifetimes and the encoded tokens
    ensures o.result.Ok? ==> Linked(o.result.value)
    ensures o.result.Ok? ==>
      && Encode(cfg.lib, AccessPayload(cfg, userId, m)).Ok?
      && Encode(cfg.lib, RefreshPayload(cfg, userId, m)).Ok?
      && o.result.value.access == AccessToken(m.accessId, userId, Encode(cfg.lib, AccessPayload(cfg, userId, m)).value, m.accessNow + Seconds(cfg.accessSecs))
      && o.result.value.refresh == RefreshToken(m.refreshId, userId, m.accessId, Encode(cfg.lib, RefreshPayload(cfg, userId, m)).value, m.refreshNow + Seconds(cfg.refreshSecs))
    // the tables afterwards: the old rows, plus the new pair, minus the revoked pair
    ensures o.result.Ok? ==> forall t :: t in o.state.access <==> (t in s.access || t == o.result.value.access) && !Revokes(revoke, t)
    ensures o.result.Ok? ==> forall r :: r in o.state.refresh <==>
      (r in s.refresh || r == o.result.value.refresh) &&
      !(exists t :: (t in s.access || t == o.result.value.access) && Revokes(revoke, t) && t.id == r.accessTokenId)
    // a rotation whose predecessor is gone does not happen
    ensures o.result.Ok? && revoke.Some? && !MatchesAccess(revoke.value, o.result.value.access) ==>
      exists t :: t in s.access && MatchesAccess(revoke.value, t)
    ensures TokenStore.Valid(s) ==> TokenStore.Valid(o.state)
  {
    var accessData := AccessPayload(cfg, userId, m);
    var refreshData := RefreshPayload(cfg, userId, m);
    match Encode(cfg.lib, accessData)
    case Err(e) => Outcome(s, Err(IssueError(e)))
    case Ok(accessJwt) =>
      match Encode(cfg.lib, refreshData)
      case Err(e) => Outcome(s, Err(IssueError(e)))
      case Ok(refreshJwt) =>
        var pair := MintedPair(accessData, accessJwt, refreshData, refreshJwt);
        RunInTransaction(s, (st: Store) => PersistPair(st, pair, revoke, f), f.tx)
  }

  /** Issuance succeeds exactly when both payloads encode, the transaction begins and commits,
      both ids are new to their tables, and, when a pair is to be revoked, its delete runs and
      its access row exists (among the old rows or as the row just created). */
  lemma GenerateSucceedsExactly(cfg: Config, s: Store, userId: Uuid, revoke: Option<AccessIdentifier>, m: Minting, f: IssueFaults)
    ensures GenerateAuthTokens(cfg, s, userId, revoke, m, f).result.Ok? <==>
      && Encode(cfg.lib, AccessPayload(cfg, userId, m)).Ok?
      && Encode(cfg.lib, RefreshPayload(cfg, userId, m)).Ok?
      && f.tx.begin.None? && f.tx.commit.None?
      && f.createAccess.None? && !HasKey(s.access, AccessKey, m.accessId)
      && f.createRefresh.None? && !HasKey(s.refresh, RefreshKey, m.refreshId)
      && (revoke.Some? ==>
            && f.deletePair.None?
            && (|| MatchesAccess(revoke.value, AccessToken(m.accessId, userId, Encode(cfg.lib, AccessPayload(cfg, userId, m)).value, m.accessNow + Seconds(cfg.accessSecs)))
                || exists t :: t in s.access && MatchesAccess(revoke.value, t)))
  {
    var accessData := AccessPayload(cfg, userId, m);
    var refreshData := RefreshPayload(cfg, userId, m);
    if Encode(cfg.lib, accessData).Ok? && Encode(cfg.lib, refreshData).Ok? {
      var pair := MintedPair(accessData, Encode(cfg.lib, accessData).value, refreshData, Encode(cfg.lib, refreshData).value);
      var work := (st: Store) => PersistPair(st, pair, revoke, f);
      assert GenerateAuthTokens(cfg, s, userId, revoke, m, f) == RunInTransaction(s, work, f.tx);
      var grown := s.access + [pair.access];
      assert grown[|s.access|] == pair.access;
      assert HasKey(grown, AccessKey, pair.refresh.accessTokenId);
      assert forall t :: t in grown <==> t in s.access || t == pair.access;
    }
  }

  const AuthenticateFailed: string := "Failed to authenticate user!"
  const VariantMismatch: string := "Auth token variant mismatch!"
  const UserIdMismatch: string := "Token user id mismatch!"
  const ExpiryMismatch: string := "Token expiry mismatch!"
  const TokenExpired: string := "Token has expired!"

  /** `unauthorized_with_private(UNAUTHORIZED_ERR_STR, reason)`. */
  function Rejected(reason: string): (e: AppError)
    ensures KindOf(e) == UnauthorizedKind && e.base.publicInfo == AuthenticateFailed
    ensures e.base.privateInfo == Some(reason)
  {
    WithPrivate(UnauthorizedKind, AuthenticateFailed, reason)
  }

  /** The persisted record a token was found under, by variant. */
  datatype StoredToken = StoredAccess(access: AccessToken) | StoredRefresh(refresh: RefreshToken)

  function StoredUserId(t: StoredToken): Uuid {
    match t
    case StoredAccess(a) => a.userId
    case StoredRefresh(r) => r.userId
  }

  function StoredExpiry(t: StoredToken): Instant {
    match t
    case StoredAccess(a) => a.expiresAt
    case StoredRefresh(r) => r.expiresAt
  }

  /** Whether the store holds, for this variant, a record under exactly this token text. */
  predicate StoredUnder(s: Store, variant: TokenVariant, token: string, t: StoredToken) {
    match t
    case StoredAccess(a) => variant == AccessVariant && a in s.access && a.jwt == token
    case StoredRefresh(r) => variant == RefreshVariant && r in s.refresh && r.jwt == token
  }

  /** The non-revoked record for a token: looked up by its text in the table of its variant. A
      lookup error keeps its variant and diagnostic and is only reworded. */
  function LookUpToken(s: Store, variant: TokenVariant, token: string, fault: Fault): (r: Result<StoredToken>)
    ensures r.Ok? ==> StoredUnder(s, variant, token, r.value)
    ensures r.Err? ==> r.error.base.publicInfo == AuthenticateFailed
    ensures r.Err? && variant == AccessVariant ==> GetAccessToken(s, AccessByJwt(token), fault).Err? && r.error == Reword(GetAccessToken(s, AccessByJwt(token), fault).error, AuthenticateFailed)
    ensures r.Err? && variant == RefreshVariant ==> GetRefreshToken(s, RefreshByJwt(token), fault).Err? && r.error == Reword(GetRefreshToken(s, RefreshByJwt(token), fault).error, AuthenticateFailed)
    ensures r.Ok? <==> fault.None? && exists t :: StoredUnder(s, variant, token, t)
  {
    assert forall t :: StoredUnder(s, variant, token, t) && t.StoredAccess? ==>
      t.access in s.access && MatchesAccess(AccessByJwt(token), t.access);
    assert forall t :: StoredUnder(s, variant, token, t) && t.StoredRefresh? ==>
      t.refresh in s.refresh && MatchesRefresh(RefreshByJwt(token), t.refresh);
    match variant
    case AccessVariant =>
      (match GetAccessToken(s, AccessByJwt(token), fault)
       case Err(e) => Err(Reword(e, AuthenticateFailed))
       case Ok(a) =>
         assert StoredUnder(s, variant, token, StoredAccess(a));
         Ok(StoredAccess(a)))
    case RefreshVariant =>
      match GetRefreshToken(s, RefreshByJwt(token), fault)
      case Err(e) => Err(Reword(e, AuthenticateFailed))
      case Ok(t) =>
        assert StoredUnder(s, variant, token, StoredRefresh(t));
        Ok(StoredRefresh(t))
  }

  /** The result of a successful authentication: the user, and the record of the presented
      token in the slot of its variant. */
  datatype Authenticated = Authenticated(user: User, access: Option<AccessToken>, refresh: Option<RefreshToken>)

  /** The failures that may strike the two lookups of an authentication. */
  datatype LookupFaults = LookupFaults(token: Fault, user: Fault)

  const NoLookupFaults: LookupFaults := LookupFaults(None, None)

  /** `authenticate_token`: decode, check the variant, find the persisted record, cross-check
      its user id and its expiry cut to a whole second, reject it when expired, then fetch the
      user by the decoded user id. `now` is the clock reading of both the decoding and the
      expiry check. */
  function AuthenticateToken(cfg: Config, s: Store, users: UserTable, token: string, variant: TokenVariant, now: Instant, f: LookupFaults): (r: Result<Authenticated>)
    // every failure shows the same public text
    ensures r.Err? ==> r.error.base.publicInfo == AuthenticateFailed
    ensures Decode(cfg.lib, token, now).Err? ==> r == Err(Rejected(Describe(Decode(cfg.lib, token, now).error)))
    ensures Decode(cfg.lib, token, now).Ok? && Decode(cfg.lib, token, now).value.variant != variant ==> r == Err(Rejected(VariantMismatch))
    // a failed user fetch refuses the token
    ensures f.user.Some? ==> r.Err?
    // only a failed lookup can surface as something other than `Unauthorized`
    ensures r.Err? && KindOf(r.error) != UnauthorizedKind ==>
      && Decode(cfg.lib, token, now).Ok? && Decode(cfg.lib, token, now).value.variant == variant
      && LookUpToken(s, variant, token, f.token).Err? && r.error == LookUpToken(s, variant, token, f.token).error
    ensures r.Ok? ==>
      var d := Decode(cfg.lib, token, now).value;
      && Decode(cfg.lib, token, now).Ok? && d.variant == variant
      && r.value.user.id == d.userId
      && (exists row :: row in users && row.user == r.value.user)
      && (variant == AccessVariant ==>
            r.value.refresh.None? && r.value.access.Some? &&
            var a := r.value.access.value;
            a in s.access && a.jwt == token && a.userId == d.userId &&
            TruncateToSecond(a.expiresAt) == d.expiresAt && now <= TruncateToSecond(a.expiresAt))
      && (variant == RefreshVariant ==>
            r.value.access.None? && r.value.refresh.Some? &&
            var t := r.value.refresh.value;
            t in s.refresh && t.jwt == token && t.userId == d.userId &&
            TruncateToSecond(t.expiresAt) == d.expiresAt && now <= TruncateToSecond(t.expiresAt))
  {
    match Decode(cfg.lib, token, now)
    case Err(e) => Err(Rejected(Describe(e)))
    case Ok(d) =>
      if d.variant != variant then Err(Rejected(VariantMismatch))
      else
        match LookUpToken(s, variant, token, f.token)
        case Err(e) => Err(e)
        case Ok(stored) =>
          var expiresAt := TruncateToSecond(StoredExpiry(stored));
          if StoredUserId(stored) != d.userId then Err(Rejected(UserIdMismatch))
          else if expiresAt != d.expiresAt then Err(Rejected(ExpiryMismatch))
          else if expiresAt < now then Err(Rejected(TokenExpired))
          else
            match GetUser(users, ById(d.userId), f.user)
            case Err(e) => Err(Rejected(Describe(e)))
            case Ok(u) =>
              match stored
              case StoredAccess(a) => Ok(Authenticated(u, Some(a), None))
              case StoredRefresh(t) => Ok(Authenticated(u, None, Some(t)))
  }

  /** A token that decodes but has no persisted record (it was revoked, or never stored) is
      refused with a reworded `NotFound`, not with `Unauthorized`. */
  lemma RevokedTokenYieldsNotFound(cfg: Config, s: Store, users: UserTable, token: string, variant: TokenVariant, now: Instant, userFault: Fault)
    requires Decode(cfg.lib, token, now).Ok? && Decode(cfg.lib, token, now).value.variant == variant
    requires variant == AccessVariant ==> forall a :: a in s.access ==> a.jwt != token
    requires variant == RefreshVariant ==> forall t :: t in s.refresh ==> t.jwt != token
    ensures AuthenticateToken(cfg, s, users, token, variant, now, LookupFaults(None, userFault)).Err?
    ensures KindOf(AuthenticateToken(cfg, s, users, token, variant, now, LookupFaults(None, userFault)).error) == NotFoundKind
  {
    var missing := if variant == AccessVariant then Plain(NotFoundKind, AccessMissing(AccessByJwt(token)))
                   else Plain(NotFoundKind, RefreshMissing(RefreshByJwt(token)));
    assert LookUpToken(s, variant, token, None) == Err(Reword(missing, AuthenticateFailed));
  }

  /** The authentication succeeds when the token decodes to the expected variant, every record
      stored under its text agrees with it on user and expiry and has not expired, and the user
      exists. */
  lemma AuthenticationSucceeds(cfg: Config, s: Store, users: UserTable, token: string, variant: TokenVariant, now: Instant)
    requires Decode(cfg.lib, token, now).Ok? && Decode(cfg.lib, token, now).value.variant == variant
    requires exists t :: StoredUnder(s, variant, token, t)
    requires forall t :: StoredUnder(s, variant, token, t) ==>
      var d := Decode(cfg.lib, token, now).value;
      StoredUserId(t) == d.userId && TruncateToSecond(StoredExpiry(t)) == d.expiresAt && now <= d.expiresAt
    requires exists row :: row in users && row.user.id == Decode(cfg.lib, token, now).value.userId
    ensures AuthenticateToken(cfg, s, users, token, variant, now, NoLookupFaults).Ok?
  {
    var d := Decode(cfg.lib, token, now).value;
    var stored := LookUpToken(s, variant, token, None).value;
    assert StoredUnder(s, variant, token, stored);
    var row :| row in users && row.user.id == d.userId;
    assert Selects(ById(d.userId), row);
  }

  /** A token whose record agrees with it but whose expiry, cut to a whole second, lies before
      the clock reading is refused as expired, whatever the JWT library accepted. */
  lemma ExpiredTokenIsRejected(cfg: Config, s: Store, users: UserTable, token: string, variant: TokenVariant, now: Instant, f: LookupFaults, stored: StoredToken)
    requires Decode(cfg.lib, token, now).Ok? && Decode(cfg.lib, token, now).value.variant == variant
    requires LookUpToken(s, variant, token, f.token) == Ok(stored)
    requires StoredUserId(stored) == Decode(cfg.lib, token, now).value.userId
    requires TruncateToSecond(StoredExpiry(stored)) == Decode(cfg.lib, token, now).value.expiresAt
    requires Decode(cfg.lib, token, now).value.expiresAt < now
    ensures AuthenticateToken(cfg, s, users, token, variant, now, f) == Err(Rejected(TokenExpired))
  {
  }

  /** A token whose record names another user than the token itself is refused. */
  lemma UserIdMismatchIsRejected(cfg: Config, s: Store, users: UserTable, token: string, variant: TokenVariant, now: Instant, f: LookupFaults, stored: StoredToken)
    requires Decode(cfg.lib, token, now).Ok? && Decode(cfg.lib, token, now).value.variant == variant
    requires LookUpToken(s, variant, token, f.token) == Ok(stored)
    requires StoredUserId(stored) != Decode(cfg.lib, token, now).value.userId
    ensures AuthenticateToken(cfg, s, users, token, variant, now, f) == Err(Rejected(UserIdMismatch))
  {
  }

  /** A token whose record's expiry, cut to a whole second, differs from the token's own is
      refused. */
  lemma ExpiryMismatchIsRejected(cfg: Config, s: Store, users: UserTable, token: string, variant: TokenVariant, now: Instant, f: LookupFaults, stored: StoredToken)
    requires Decode(cfg.lib, token, now).Ok? && Decode(cfg.lib, token, now).value.variant == variant
    requires LookUpToken(s, variant, token, f.token) == Ok(stored)
    requires StoredUserId(stored) == Decode(cfg.lib, token, now).value.userId
    requires TruncateToSecond(StoredExpiry(stored)) != Decode(cfg.lib, token, now).value.expiresAt
    ensures AuthenticateToken(cfg, s, users, token, variant, now, f) == Err(Rejected(ExpiryMismatch))
  {
  }

  /** A token that passes every check on its record is still refused, as `Unauthorized` with the
      fetch's error as diagnostic, when its user cannot be fetched (a database failure, or no
      user row with that id). */
  lemma UserFetchFailureIsRejected(cfg: Config, s: Store, users: UserTable, token: string, variant: TokenVariant, now: Instant, f: LookupFaults, stored: StoredToken)
    requires Decode(cfg.lib, token, now).Ok? && Decode(cfg.lib, token, now).value.variant == variant
    requires LookUpToken(s, variant, token, f.token) == Ok(stored)
    requires StoredUserId(stored) == Decode(cfg.lib, token, now).value.userId
    requires TruncateToSecond(StoredExpiry(stored)) == Decode(cfg.lib, token, now).value.expiresAt
    requires now <= Decode(cfg.lib, token, now).value.expiresAt
    requires GetUser(users, ById(Decode(cfg.lib, token, now).value.userId), f.user).Err?
    ensures AuthenticateToken(cfg, s, users, token, variant, now, f) ==
      Err(Rejected(Describe(GetUser(users, ById(Decode(cfg.lib, token, now).value.userId), f.user).error)))
  {
  }

  /** The context of an authenticated access token. */
  datatype AuthAccessContext = AuthAccessContext(user: User, accessToken: AccessToken)

  /** The context of an authenticated refresh token. */
  datatype AuthRefreshContext = AuthRefreshContext(user: User, refreshToken: RefreshToken)

  /** `authenticate_access_token`: authentication with the access variant; the access record is
      always present on success, so the unwrap cannot fail. */
  function AuthenticateAccessToken(cfg: Config, s: Store, users: UserTable, token: string, now: Instant, f: LookupFaults): (r: Result<AuthAccessContext>)
    ensures r.Ok? <==> AuthenticateToken(cfg, s, users, token, AccessVariant, now, f).Ok?
    ensures r.Err? ==> r.error == AuthenticateToken(cfg, s, users, token, AccessVariant, now, f).error
    ensures r.Ok? ==>
      && r.value.user == AuthenticateToken(cfg, s, users, token, AccessVariant, now, f).value.user
      && r.value.accessToken in s.access && r.value.accessToken.jwt == token
      && r.value.accessToken.userId == r.value.user.id
  {
    match AuthenticateToken(cfg, s, users, token, AccessVariant, now, f)
    case Err(e) => Err(e)
    case Ok(auth) => Ok(AuthAccessContext(auth.user, auth.access.value))
  }

  /** `authenticate_refresh_token`: as above, with the refresh variant. */
  function AuthenticateRefreshToken(cfg: Config, s: Store, users: UserTable, token: string, now: Instant, f: LookupFaults): (r: Result<AuthRefreshContext>)
    ensures r.Ok? <==> AuthenticateToken(cfg, s, users, token, RefreshVariant, now, f).Ok?
    ensures r.Err? ==> r.error == AuthenticateToken(cfg, s, users, token, RefreshVariant, now, f).error
    ensures r.Ok? ==>
      && r.value.user == AuthenticateToken(cfg, s, users, token, RefreshVariant, now, f).value.user
      && r.value.refreshToken in s.refresh && r.value.refreshToken.jwt == token
      && r.value.refreshToken.userId == r.value.user.id
  {
    match AuthenticateToken(cfg, s, users, token, RefreshVariant, now, f)
    case Err(e) => Err(e)
    case Ok(auth) => Ok(AuthRefreshContext(auth.user, auth.refresh.value))
  }
}
