/** The token lifecycle end to end: a token that was issued authenticates until it expires,
    is accepted only for its own variant, is refused once expired even within the JWT
    library's leeway, and stops authenticating once its pair has been rotated away. */
module Scenarios {
  import opened Common
  import opened Primitives
  import opened Tables
  import opened AuthTokens
  import opened EmailAddress
  import opened TokenCodec
  import opened TokenStore
  import opened Users
  import opened UserStore
  import opened Authenticator
  import opened AuthUseCases
  import opened PasswordService
  import opened Presentation

  /** The only access row stored under the text of a freshly issued access token is the issued
      one, when no earlier row carried that text. */
  lemma IssuedAccessRowIsUnique(cfg: Config, s: Store, userId: Uuid, revoke: Option<AccessIdentifier>, m: Minting, f: IssueFaults, a: AccessToken)
    requires GenerateAuthTokens(cfg, s, userId, revoke, m, f).result.Ok?
    requires forall t :: t in s.access ==> t.jwt != GenerateAuthTokens(cfg, s, userId, revoke, m, f).result.value.access.jwt
    requires a in GenerateAuthTokens(cfg, s, userId, revoke, m, f).state.access
    requires a.jwt == GenerateAuthTokens(cfg, s, userId, revoke, m, f).result.value.access.jwt
    ensures a == GenerateAuthTokens(cfg, s, userId, revoke, m, f).result.value.access
  {
  }

  /** With a faithful library, an encoded access payload decodes, up to the leeway past its
      expiry, to the payload with the expiry cut to a whole second. */
  lemma AccessPayloadDecodes(cfg: Config, userId: Uuid, m: Minting, now: Instant)
    requires Faithful(cfg.lib)
    requires Encode(cfg.lib, AccessPayload(cfg, userId, m)).Ok?
    requires now / NanosPerSecond <= (m.accessNow + Seconds(cfg.accessSecs)) / NanosPerSecond + LeewaySeconds
    ensures Decode(cfg.lib, Encode(cfg.lib, AccessPayload(cfg, userId, m)).value, now) ==
      Ok(TokenData(m.accessId, userId, TruncateToSecond(m.accessNow + Seconds(cfg.accessSecs)), AccessVariant))
  {
    CodecRoundTrip(cfg.lib, AccessPayload(cfg, userId, m), now);
  }

  /** Looking a freshly issued access token up by its text finds the issued row. */
  lemma IssuedAccessLooksUp(cfg: Config, s: Store, userId: Uuid, revoke: Option<AccessIdentifier>, m: Minting, f: IssueFaults)
    requires GenerateAuthTokens(cfg, s, userId, revoke, m, f).result.Ok?
    requires !Revokes(revoke, GenerateAuthTokens(cfg, s, userId, revoke, m, f).result.value.access)
    requires forall t :: t in s.access ==> t.jwt != GenerateAuthTokens(cfg, s, userId, revoke, m, f).result.value.access.jwt
    ensures
      var o := GenerateAuthTokens(cfg, s, userId, revoke, m, f);
      LookUpToken(o.state, AccessVariant, o.result.value.access.jwt, None) == Ok(StoredAccess(o.result.value.access))
  {
    var o := GenerateAuthTokens(cfg, s, userId, revoke, m, f);
    var p := o.result.value;
    assert StoredUnder(o.state, AccessVariant, p.access.jwt, StoredAccess(p.access));
    var stored := LookUpToken(o.state, AccessVariant, p.access.jwt, None).value;
    IssuedAccessRowIsUnique(cfg, s, userId, revoke, m, f, stored.access);
  }

  /** A freshly issued access token authenticates, for its user and as its own row, at any
      clock reading up to its expiry cut to a whole second. */
  lemma IssuedAccessTokenAuthenticates(cfg: Config, s: Store, users: UserTable, userId: Uuid, m: Minting, f: IssueFaults, now: Instant)
    requires Faithful(cfg.lib)
    requires GenerateAuthTokens(cfg, s, userId, None, m, f).result.Ok?
    requires forall t :: t in s.access ==> t.jwt != GenerateAuthTokens(cfg, s, userId, None, m, f).result.value.access.jwt
    requires now <= TruncateToSecond(m.accessNow + Seconds(cfg.accessSecs))
    requires exists row :: row in users && row.user.id == userId
    ensures
      var o := GenerateAuthTokens(cfg, s, userId, None, m, f);
      var r := AuthenticateAccessToken(cfg, o.state, users, o.result.value.access.jwt, now, NoLookupFaults);
      r.Ok? && r.value.accessToken == o.result.value.access && r.value.user.id == userId
  {
    var o := GenerateAuthTokens(cfg, s, userId, None, m, f);
    var p := o.result.value;
    var d := AccessPayload(cfg, userId, m);
    SecondOfEarlier(now, d.expiresAt);
    CodecRoundTrip(cfg.lib, d, now);
    assert StoredUnder(o.state, AccessVariant, p.access.jwt, StoredAccess(p.access));
    forall t | StoredUnder(o.state, AccessVariant, p.access.jwt, t)
      ensures t == StoredAccess(p.access)
    {
      IssuedAccessRowIsUnique(cfg, s, userId, None, m, f, t.access);
    }
    AuthenticationSucceeds(cfg, o.state, users, p.access.jwt, AccessVariant, now);
    var r := AuthenticateAccessToken(cfg, o.state, users, p.access.jwt, now, NoLookupFaults);
    IssuedAccessRowIsUnique(cfg, s, userId, None, m, f, r.value.accessToken);
  }

  /** A freshly issued refresh token authenticates as its own row, up to its expiry. */
  lemma IssuedRefreshTokenAuthenticates(cfg: Config, s: Store, users: UserTable, userId: Uuid, m: Minting, f: IssueFaults, now: Instant)
    requires Faithful(cfg.lib)
    requires GenerateAuthTokens(cfg, s, userId, None, m, f).result.Ok?
    requires forall t :: t in s.refresh ==> t.jwt != GenerateAuthTokens(cfg, s, userId, None, m, f).result.value.refresh.jwt
    requires now <= TruncateToSecond(m.refreshNow + Seconds(cfg.refreshSecs))
    requires exists row :: row in users && row.user.id == userId
    ensures
      var o := GenerateAuthTokens(cfg, s, userId, None, m, f);
      var r := AuthenticateRefreshToken(cfg, o.state, users, o.result.value.refresh.jwt, now, NoLookupFaults);
      r.Ok? && r.value.refreshToken == o.result.value.refresh && r.value.user.id == userId
  {
    var o := GenerateAuthTokens(cfg, s, userId, None, m, f);
    var p := o.result.value;
    var d := RefreshPayload(cfg, userId, m);
    SecondOfEarlier(now, d.expiresAt);
    CodecRoundTrip(cfg.lib, d, now);
    assert StoredUnder(o.state, RefreshVariant, p.refresh.jwt, StoredRefresh(p.refresh));
    AuthenticationSucceeds(cfg, o.state, users, p.refresh.jwt, RefreshVariant, now);
  }

  /** A successful login hands out an access token that authenticates the user who logged in. */
  lemma LoginTokenAuthenticates(cfg: Config, tokens: Store, users: UserTable, h: Hasher, email: string, password: string, m: Minting, f: LoginFaults, now: Instant)
    requires Faithful(cfg.lib)
    requires Login(cfg, tokens, users, h, email, password, m, f).result.Ok?
    requires forall t :: t in tokens.access ==> t.jwt != Login(cfg, tokens, users, h, email, password, m, f).result.value.access.jwt
    requires now <= TruncateToSecond(m.accessNow + Seconds(cfg.accessSecs))
    ensures
      var o := Login(cfg, tokens, users, h, email, password, m, f);
      var r := AuthenticateAccessToken(cfg, o.state, users, o.result.value.access.jwt, now, NoLookupFaults);
      && r.Ok? && r.value.accessToken == o.result.value.access
      && exists row :: row in users && row.user.email == Email(email) && row.user.id == r.value.user.id
  {
    var o := Login(cfg, tokens, users, h, email, password, m, f);
    var userId := GetUser(users, ByEmail(Email(email)), f.userLookup).value.id;
    assert o == GenerateAuthTokens(cfg, tokens, userId, None, m, f.issue);
    IssuedAccessTokenAuthenticates(cfg, tokens, users, userId, m, f.issue, now);
  }

  /** Kind isolation: an issued refresh token presented where an access token is expected is
      refused for its variant, before any table is consulted, and the other way round. */
  lemma TokensWorkOnlyForTheirVariant(cfg: Config, s: Store, userId: Uuid, revoke: Option<AccessIdentifier>, m: Minting, f: IssueFaults,
                                      other: Store, users: UserTable, now: Instant, lf: LookupFaults)
    requires Faithful(cfg.lib)
    requires GenerateAuthTokens(cfg, s, userId, revoke, m, f).result.Ok?
    ensures
      var p := GenerateAuthTokens(cfg, s, userId, revoke, m, f).result.value;
      now / NanosPerSecond <= (m.refreshNow + Seconds(cfg.refreshSecs)) / NanosPerSecond + LeewaySeconds ==>
        AuthenticateAccessToken(cfg, other, users, p.refresh.jwt, now, lf) == Err(Rejected(VariantMismatch))
    ensures
      var p := GenerateAuthTokens(cfg, s, userId, revoke, m, f).result.value;
      now / NanosPerSecond <= (m.accessNow + Seconds(cfg.accessSecs)) / NanosPerSecond + LeewaySeconds ==>
        AuthenticateRefreshToken(cfg, other, users, p.access.jwt, now, lf) == Err(Rejected(VariantMismatch))
  {
    if now / NanosPerSecond <= (m.refreshNow + Seconds(cfg.refreshSecs)) / NanosPerSecond + LeewaySeconds {
      CodecRoundTrip(cfg.lib, RefreshPayload(cfg, userId, m), now);
    }
    if now / NanosPerSecond <= (m.accessNow + Seconds(cfg.accessSecs)) / NanosPerSecond + LeewaySeconds {
      CodecRoundTrip(cfg.lib, AccessPayload(cfg, userId, m), now);
    }
  }

  /** The JWT library's leeway does not extend a token's life: past its expiry cut to a whole
      second, an issued access token that the library still accepts is refused as expired. */
  lemma LeewayDoesNotExtendLife(cfg: Config, s: Store, users: UserTable, userId: Uuid, m: Minting, f: IssueFaults, now: Instant, userFault: Fault)
    requires Faithful(cfg.lib)
    requires GenerateAuthTokens(cfg, s, userId, None, m, f).result.Ok?
    requires forall t :: t in s.access ==> t.jwt != GenerateAuthTokens(cfg, s, userId, None, m, f).result.value.access.jwt
    requires TruncateToSecond(m.accessNow + Seconds(cfg.accessSecs)) < now
    requires now / NanosPerSecond <= (m.accessNow + Seconds(cfg.accessSecs)) / NanosPerSecond + LeewaySeconds
    ensures
      var o := GenerateAuthTokens(cfg, s, userId, None, m, f);
      AuthenticateAccessToken(cfg, o.state, users, o.result.value.access.jwt, now, LookupFaults(None, userFault)) == Err(Rejected(TokenExpired))
  {
    var o := GenerateAuthTokens(cfg, s, userId, None, m, f);
    var p := o.result.value;
    AccessPayloadDecodes(cfg, userId, m, now);
    IssuedAccessLooksUp(cfg, s, userId, None, m, f);
    ExpiredTokenIsRejected(cfg, o.state, users, p.access.jwt, AccessVariant, now, LookupFaults(None, userFault), StoredAccess(p.access));
  }

  /** After a rotation, the access token of the presented pair no longer authenticates: it is
      refused with `NotFound`, which the response layer reports as 404. */
  lemma RotationRetiresAccessToken(cfg: Config, tokens: Store, ctx: AuthRefreshContext, m: Minting, f: IssueFaults,
                                   presented: AccessToken, users: UserTable, now: Instant, userFault: Fault)
    requires Refresh(cfg, tokens, ctx, m, f).result.Ok?
    requires m.accessId != ctx.refreshToken.accessTokenId
    requires presented in tokens.access && presented.id == ctx.refreshToken.accessTokenId
    // no other row shares the token's text, the new one included
    requires forall t :: t in tokens.access && t.jwt == presented.jwt ==> t.id == presented.id
    requires Refresh(cfg, tokens, ctx, m, f).result.value.access.jwt != presented.jwt
    // the token itself is still well signed and unexpired
    requires Decode(cfg.lib, presented.jwt, now).Ok? && Decode(cfg.lib, presented.jwt, now).value.variant == AccessVariant
    ensures
      var r := AuthenticateAccessToken(cfg, Refresh(cfg, tokens, ctx, m, f).state, users, presented.jwt, now, LookupFaults(None, userFault));
      r.Err? && KindOf(r.error) == NotFoundKind && StatusCode(r.error) == 404
  {
    var o := Refresh(cfg, tokens, ctx, m, f);
    forall a | a in o.state.access
      ensures a.jwt != presented.jwt
    {
      assert a.id != ctx.refreshToken.accessTokenId;
    }
    RevokedTokenYieldsNotFound(cfg, o.state, users, presented.jwt, AccessVariant, now, userFault);
  }

  /** After a rotation, the presented refresh token no longer authenticates either. */
  lemma RotationRetiresRefreshToken(cfg: Config, tokens: Store, ctx: AuthRefreshContext, m: Minting, f: IssueFaults,
                                    users: UserTable, now: Instant, userFault: Fault)
    requires Refresh(cfg, tokens, ctx, m, f).result.Ok?
    requires m.accessId != ctx.refreshToken.accessTokenId
    // every row under the token's text belongs to the presented pair, and the new one differs
    requires forall r :: r in tokens.refresh && r.jwt == ctx.refreshToken.jwt ==> r.accessTokenId == ctx.refreshToken.accessTokenId
    requires Refresh(cfg, tokens, ctx, m, f).result.value.refresh.jwt != ctx.refreshToken.jwt
    requires Decode(cfg.lib, ctx.refreshToken.jwt, now).Ok? && Decode(cfg.lib, ctx.refreshToken.jwt, now).value.variant == RefreshVariant
    ensures
      var r := AuthenticateRefreshToken(cfg, Refresh(cfg, tokens, ctx, m, f).state, users, ctx.refreshToken.jwt, now, LookupFaults(None, userFault));
      r.Err? && KindOf(r.error) == NotFoundKind && StatusCode(r.error) == 404
  {
    var o := Refresh(cfg, tokens, ctx, m, f);
    var revoke := Some(AccessById(ctx.refreshToken.accessTokenId));
    var parent :| parent in tokens.access && parent.id == ctx.refreshToken.accessTokenId;
    assert o == GenerateAuthTokens(cfg, tokens, ctx.user.id, revoke, m, f);
    assert parent in tokens.access && Revokes(revoke, parent);
    assert forall t :: t in o.state.refresh ==> t.jwt != ctx.refreshToken.jwt;
    RevokedTokenYieldsNotFound(cfg, o.state, users, ctx.refreshToken.jwt, RefreshVariant, now, userFault);
  }
}
