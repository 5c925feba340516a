/** The JWT adapter (infra/src/auth/token_adapter.rs): payloads become `JwtClaims`, which the
    JWT library serializes, signs and later verifies. The library itself is a parameter. */
module TokenCodec {
  import opened Common
  import opened Primitives
  import opened AuthTokens

  datatype ClaimsVariant = AccessClaims | RefreshClaims

  /** `JwtClaims` in memory: `tokenId`, `sub`, `exp` and `type`. */
  datatype Claims = Claims(tokenId: Uuid, sub: Uuid, exp: Instant, variant: ClaimsVariant)

  /** `From<JsonWebTokenDataVariant> for JwtClaimsVariant`. */
  function ToClaimsVariant(v: TokenVariant): (c: ClaimsVariant)
    ensures c == AccessClaims <==> v == AccessVariant
  {
    match v
    case AccessVariant => AccessClaims
    case RefreshVariant => RefreshClaims
  }

  /** `From<JwtClaimsVariant> for JsonWebTokenDataVariant`. */
  function FromClaimsVariant(v: ClaimsVariant): (t: TokenVariant)
    ensures t == AccessVariant <==> v == AccessClaims
  {
    match v
    case AccessClaims => AccessVariant
    case RefreshClaims => RefreshVariant
  }

  /** The two variant conversions are inverse to each other. */
  lemma VariantConversionsInverse(v: TokenVariant, c: ClaimsVariant)
    ensures FromClaimsVariant(ToClaimsVariant(v)) == v
    ensures ToClaimsVariant(FromClaimsVariant(c)) == c
  {
  }

  /** `From<JsonWebTokenData> for JwtClaims`. */
  function ToClaims(d: TokenData): (c: Claims)
    ensures FromClaimsVariant(c.variant) == d.variant
  {
    Claims(d.id, d.userId, d.expiresAt, ToClaimsVariant(d.variant))
  }

  /** `From<JwtClaims> for JsonWebTokenData`. */
  function FromClaims(c: Claims): (d: TokenData)
    ensures ToClaimsVariant(d.variant) == c.variant
  {
    TokenData(c.tokenId, c.sub, c.exp, FromClaimsVariant(c.variant))
  }

  /** The conversions lose nothing in either direction. */
  lemma ClaimsConversionsInverse(d: TokenData, c: Claims)
    ensures FromClaims(ToClaims(d)) == d
    ensures ToClaims(FromClaims(c)) == c
  {
  }

  /** The serialized name of a variant (`#[serde(rename = ...)]`). */
  function VariantName(v: ClaimsVariant): (n: string)
    ensures n == "access" <==> v == AccessClaims
    ensures n == "refresh" <==> v == RefreshClaims
  {
    match v
    case AccessClaims => "access"
    case RefreshClaims => "refresh"
  }

  /** Reading a `type` field back: only the two names are accepted. */
  function ParseVariant(s: string): (r: Option<ClaimsVariant>)
    ensures r.Some? ==> VariantName(r.value) == s
  {
    if s == "access" then Some(AccessClaims)
    else if s == "refresh" then Some(RefreshClaims)
    else None
  }

  /** Names and variants correspond one to one. */
  lemma VariantNameBijection(v: ClaimsVariant, s: string)
    ensures ParseVariant(s) == Some(v) <==> VariantName(v) == s
  {
  }

  /** The JSON claims set as the library signs it: `exp` in whole Unix seconds, `type` as text. */
  datatype WireClaims = WireClaims(tokenId: Uuid, sub: Uuid, expSeconds: int, typ: string)

  /** `ts_seconds` serialization: the instant's whole second; the sub-second part is dropped. */
  function Serialize(c: Claims): (w: WireClaims)
    ensures w.expSeconds * NanosPerSecond == TruncateToSecond(c.exp)
    ensures ParseVariant(w.typ) == Some(c.variant)
  {
    WireClaims(c.tokenId, c.sub, c.exp / NanosPerSecond, VariantName(c.variant))
  }

  /** Deserialization: fails exactly on an unknown `type`. */
  function Deserialize(w: WireClaims): (r: Option<Claims>)
    ensures r.Some? <==> ParseVariant(w.typ).Some?
    ensures r.Some? ==> r.value.exp == w.expSeconds * NanosPerSecond
  {
    match ParseVariant(w.typ)
    case None => None
    case Some(v) => Some(Claims(w.tokenId, w.sub, w.expSeconds * NanosPerSecond, v))
  }

  /** Serializing and reading back gives the claims with the expiry cut to a whole second. */
  lemma SerializeRoundTrip(c: Claims)
    ensures Deserialize(Serialize(c)) == Some(c.(exp := TruncateToSecond(c.exp)))
  {
  }

  /** The JWT library: signing a claims set, and verifying a token at a clock reading (which
      includes the library's own expiry check). Either may fail with the library's error text. */
  datatype JwtLibrary = JwtLibrary(sign: WireClaims -> Foreign<string>, verify: (string, Instant) -> Foreign<WireClaims>)

  /** The library's default validation lets `exp` lag the clock by this many seconds. */
  const LeewaySeconds: int := 60

  /** What a correct library promises: a token it signed verifies back to the signed claims,
      at any clock reading whose whole second is at most `exp` plus the leeway. */
  ghost predicate Faithful(lib: JwtLibrary) {
    forall w: WireClaims, now: Instant ::
      lib.sign(w).Done? && now / NanosPerSecond <= w.expSeconds + LeewaySeconds ==>
        lib.verify(lib.sign(w).value, now) == Done(w)
  }

  const EncodeFailed: string := "Failed to encode token!"
  const DecodeFailed: string := "Failed to decode token!"

  /** The library error text reported when a verified token names an unknown `type`. */
  const UnknownVariantReason: string := "unknown variant, expected `access` or `refresh`"

  /** `encode`: the token text, or `Internal` "Failed to encode token!" with the library's
      error text as the private diagnostic. */
  function Encode(lib: JwtLibrary, d: TokenData): (r: Result<string>)
    ensures r.Ok? <==> lib.sign(Serialize(ToClaims(d))).Done?
    ensures r.Ok? ==> r.value == lib.sign(Serialize(ToClaims(d))).value
    ensures r.Err? ==> r.error == WithPrivate(InternalKind, EncodeFailed, lib.sign(Serialize(ToClaims(d))).reason)
  {
    match lib.sign(Serialize(ToClaims(d)))
    case Done(token) => Ok(token)
    case Failed(reason) => Err(WithPrivate(InternalKind, EncodeFailed, reason))
  }

  /** `decode`: the payload, or `Internal` "Failed to decode token!" with a private diagnostic. */
  function Decode(lib: JwtLibrary, token: string, now: Instant): (r: Result<TokenData>)
    ensures r.Err? ==> KindOf(r.error) == InternalKind && r.error.base.publicInfo == DecodeFailed
    ensures r.Err? ==> r.error.base.privateInfo.Some?
    ensures r.Ok? ==> lib.verify(token, now).Done? && Deserialize(lib.verify(token, now).value) == Some(ToClaims(r.value))
  {
    match lib.verify(token, now)
    case Failed(reason) => Err(WithPrivate(InternalKind, DecodeFailed, reason))
    case Done(w) =>
      match Deserialize(w)
      case None => Err(WithPrivate(InternalKind, DecodeFailed, UnknownVariantReason))
      case Some(c) => Ok(FromClaims(c))
  }

  /** With a faithful library, a token that was issued decodes, before its expiry (plus leeway),
      to the payload it was issued for with the expiry cut to a whole second. */
  lemma CodecRoundTrip(lib: JwtLibrary, d: TokenData, now: Instant)
    requires Faithful(lib)
    requires Encode(lib, d).Ok?
    requires now / NanosPerSecond <= d.expiresAt / NanosPerSecond + LeewaySeconds
    ensures Decode(lib, Encode(lib, d).value, now) == Ok(d.(expiresAt := TruncateToSecond(d.expiresAt)))
  {
    var w := Serialize(ToClaims(d));
    assert lib.verify(lib.sign(w).value, now) == Done(w);
    SerializeRoundTrip(ToClaims(d));
  }
}
