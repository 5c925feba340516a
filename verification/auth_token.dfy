/** Token payloads, persisted token records and their identifiers (app/src/types/auth_token.rs). */
module AuthTokens {
  import opened Primitives

  datatype TokenVariant = AccessVariant | RefreshVariant

  /** `JsonWebTokenData`: what a JWT carries. */
  datatype TokenData = TokenData(id: Uuid, userId: Uuid, expiresAt: Instant, variant: TokenVariant)

  /** A persisted access token row. */
  datatype AccessToken = AccessToken(id: Uuid, userId: Uuid, jwt: string, expiresAt: Instant)

  /** A persisted refresh token row, linked to the access token it was issued with. */
  datatype RefreshToken = RefreshToken(id: Uuid, userId: Uuid, accessTokenId: Uuid, jwt: string, expiresAt: Instant)

  datatype AuthTokenPair = AuthTokenPair(access: AccessToken, refresh: RefreshToken)

  /** The pair's refresh record belongs to its access record. */
  predicate Linked(p: AuthTokenPair) {
    p.refresh.accessTokenId == p.access.id
  }

  datatype AccessIdentifier = AccessById(id: Uuid) | AccessByJwt(jwt: string)

  datatype RefreshIdentifier = RefreshById(id: Uuid) | RefreshByJwt(jwt: string) | RefreshByAccessId(accessTokenId: Uuid)

  /** The access row an identifier selects: by its id alone, or by its jwt alone. */
  predicate MatchesAccess(ident: AccessIdentifier, t: AccessToken) {
    match ident
    case AccessById(id) => t.id == id
    case AccessByJwt(jwt) => t.jwt == jwt
  }

  /** The refresh row an identifier selects: by id, by jwt, or by the access token it belongs to. */
  predicate MatchesRefresh(ident: RefreshIdentifier, t: RefreshToken) {
    match ident
    case RefreshById(id) => t.id == id
    case RefreshByJwt(jwt) => t.jwt == jwt
    case RefreshByAccessId(accessId) => t.accessTokenId == accessId
  }

  /** `Display` of an access identifier: the wrapped value and nothing else. */
  function AccessIdentifierText(ident: AccessIdentifier): (s: string)
    ensures forall t :: MatchesAccess(ident, t) ==> s == (if ident.AccessById? then t.id else t.jwt)
  {
    match ident
    case AccessById(id) => id
    case AccessByJwt(jwt) => jwt
  }

  /** `Display` of a refresh identifier: the wrapped value and nothing else. */
  function RefreshIdentifierText(ident: RefreshIdentifier): (s: string)
    ensures forall t :: MatchesRefresh(ident, t) ==>
      s == (match ident case RefreshById(_) => t.id case RefreshByJwt(_) => t.jwt case RefreshByAccessId(_) => t.accessTokenId)
  {
    match ident
    case RefreshById(id) => id
    case RefreshByJwt(jwt) => jwt
    case RefreshByAccessId(accessId) => accessId
  }

  /** Every row is selected by each of the identifiers built from its own fields. */
  lemma RowsMatchTheirOwnKeys(a: AccessToken, r: RefreshToken)
    ensures MatchesAccess(AccessById(a.id), a) && MatchesAccess(AccessByJwt(a.jwt), a)
    ensures MatchesRefresh(RefreshById(r.id), r) && MatchesRefresh(RefreshByJwt(r.jwt), r)
    ensures MatchesRefresh(RefreshByAccessId(r.accessTokenId), r)
  {
  }

  /** `new_access`: an access payload for `userId` that expires `duration` after the clock
      reading `now`, under the freshly generated id `freshId`. */
  function NewAccess(userId: Uuid, duration: int, now: Instant, freshId: Uuid): (d: TokenData)
    ensures d.variant == AccessVariant && d.userId == userId && d.id == freshId
    ensures d.expiresAt - now == duration
    ensures duration % NanosPerSecond == 0 ==>
      TruncateToSecond(d.expiresAt) == TruncateToSecond(now) + duration
  {
    assert duration % NanosPerSecond == 0 ==> TruncateToSecond(now + duration) == TruncateToSecond(now) + duration by {
      if duration % NanosPerSecond == 0 {
        TruncateShift(now, duration);
      }
    }
    TokenData(freshId, userId, now + duration, AccessVariant)
  }

  /** `new_refresh`: as `new_access`, with the refresh variant. */
  function NewRefresh(userId: Uuid, duration: int, now: Instant, freshId: Uuid): (d: TokenData)
    ensures d.variant == RefreshVariant && d.userId == userId && d.id == freshId
    ensures d.expiresAt - now == duration
    ensures duration % NanosPerSecond == 0 ==>
      TruncateToSecond(d.expiresAt) == TruncateToSecond(now) + duration
  {
    assert duration % NanosPerSecond == 0 ==> TruncateToSecond(now + duration) == TruncateToSecond(now) + duration by {
      if duration % NanosPerSecond == 0 {
        TruncateShift(now, duration);
      }
    }
    TokenData(freshId, userId, now + duration, RefreshVariant)
  }
}
