/** Token issue and verification (`generateToken`, `verifyToken`) over an abstract
    signature: a token carries its payload and the key it was signed with, and
    verification with a key accepts exactly the tokens signed with that key. The compact
    `header.payload.signature` text is abstract too: verification receives the parser
    `decode` as a parameter. Expiry follows section 4.1.4 of RFC 7519 as jsonwebtoken
    applies it: a token is expired once the current second reaches `exp`. */
module Jwt {
  import opened Base

  datatype TokenKind = AccessToken | RefreshToken | ActivationToken | ResetToken

  /** The registered and private claims of a signed object payload: the private claims
      `id` and `role`, the audience (the principal's display name), the issuer, the
      issue time and the expiry, in seconds. A token parsed from outside may lack `exp`. */
  datatype Claims = Claims(id: string, role: string, aud: string, iss: string, iat: int, exp: Option<int>)

  /** A payload is a claims object, or a bare string (which jsonwebtoken also signs). */
  datatype Payload = Object(claims: Claims) | Text(text: string)

  datatype Token = Token(payload: Payload, key: string)

  /** A lifetime as `expiresIn` reads it: a number of seconds, or text it cannot read. */
  datatype TimeSpan = Seconds(n: int) | Unreadable

  /** `'1y'`: 365.25 days, in seconds. */
  const OneYear := 31557600

  /** The environment variables of the JWT configuration; `None` is unset. */
  datatype JwtEnv = JwtEnv(
    accessSecret: Option<string>, accessVerifySecret: Option<string>, accessExpire: Option<TimeSpan>,
    refreshSecret: Option<string>, refreshExpire: Option<TimeSpan>,
    activationSecret: Option<string>, activationExpire: Option<TimeSpan>,
    resetSecret: Option<string>, resetExpire: Option<TimeSpan>,
    issuer: Option<string>)

  const Unset := JwtEnv(None, None, None, None, None, None, None, None, None, None)

  /** The configuration the helpers read: five secrets (the access token is verified with
      its own, separately configurable secret), four lifetimes and the issuer. */
  datatype JwtConfig = JwtConfig(
    accessSecret: string, accessVerifySecret: string, refreshSecret: string,
    activationSecret: string, resetSecret: string,
    accessTtl: TimeSpan, refreshTtl: TimeSpan, activationTtl: TimeSpan, resetTtl: TimeSpan,
    issuer: string)

  /** `process.env.X || fallback`: an unset or empty variable gives the fallback. */
  function Or(v: Option<string>, fallback: string): (r: string)
    ensures v.Some? && v.value != "" ==> r == v.value
    ensures v.None? || v.value == "" ==> r == fallback
  {
    if v.Some? && v.value != "" then v.value else fallback
  }

  function SpanOr(v: Option<TimeSpan>): TimeSpan
  {
    if v.Some? then v.value else Seconds(OneYear)
  }

  /** The configuration built from the environment with the defaults of the config file. */
  function FromEnv(env: JwtEnv): (c: JwtConfig)
    ensures c.accessSecret != "" && c.accessVerifySecret != "" && c.refreshSecret != ""
    ensures c.activationSecret != "" && c.resetSecret != ""
    ensures env.accessVerifySecret.None? ==> c.accessVerifySecret == c.accessSecret
  {
    var access := Or(env.accessSecret, "secret");
    JwtConfig(access, Or(env.accessVerifySecret, access), Or(env.refreshSecret, "secret"),
              Or(env.activationSecret, "secret"), Or(env.resetSecret, "secret"),
              SpanOr(env.accessExpire), SpanOr(env.refreshExpire),
              SpanOr(env.activationExpire), SpanOr(env.resetExpire),
              Or(env.issuer, "1y"))
  }

  /** The configuration with no variable set. */
  function DefaultConfig(): (c: JwtConfig)
    ensures c == FromEnv(Unset)
  {
    FromEnv(Unset)
  }

  lemma DefaultConfigValues()
    ensures DefaultConfig() == JwtConfig("secret", "secret", "secret", "secret", "secret",
      Seconds(OneYear), Seconds(OneYear), Seconds(OneYear), Seconds(OneYear), "1y")
  {
  }

  /** The key a kind is signed with; every kind other than the first three is a reset token. */
  function SigningSecret(c: JwtConfig, kind: TokenKind): string
  {
    if kind == AccessToken then c.accessSecret
    else if kind == RefreshToken then c.refreshSecret
    else if kind == ActivationToken then c.activationSecret
    else c.resetSecret
  }

  /** The key a kind is verified with: as for signing, except the access token's own. */
  function VerifyingSecret(c: JwtConfig, kind: TokenKind): string
  {
    if kind == AccessToken then c.accessVerifySecret
    else if kind == RefreshToken then c.refreshSecret
    else if kind == ActivationToken then c.activationSecret
    else c.resetSecret
  }

  /** The lifetime of a kind, chosen by the same selection as the signing key. */
  function Ttl(c: JwtConfig, kind: TokenKind): TimeSpan
  {
    if kind == AccessToken then c.accessTtl
    else if kind == RefreshToken then c.refreshTtl
    else if kind == ActivationToken then c.activationTtl
    else c.resetTtl
  }

  /** The secrets agree with each other for every kind but the access token. */
  lemma SecretsAgreeExceptAccess(c: JwtConfig, kind: TokenKind)
    ensures kind != AccessToken ==> SigningSecret(c, kind) == VerifyingSecret(c, kind)
    ensures kind == AccessToken ==>
      (SigningSecret(c, kind) == VerifyingSecret(c, kind) <==> c.accessSecret == c.accessVerifySecret)
  {
  }

  /** `IJwt_Meta`: what a token is issued for. */
  datatype Meta = Meta(id: string, name: string, role: string, kind: TokenKind)

  const SecretMissing := "secretOrPrivateKey must have a value"
  const BadExpiresIn := "\"expiresIn\" should be a number of seconds or string representing a timespan"

  /** `generateToken(meta)` at time `nowMs`: signs `{id, role}` with the kind's key, the
      name as audience, the configured issuer and the kind's lifetime. A failure of the
      signer rejects with its message and its error name as code. */
  function GenerateToken(meta: Meta, c: JwtConfig, nowMs: int): (r: Settle<Token>)
    ensures !r.NeverSettles?
    ensures r.Resolves? <==> SigningSecret(c, meta.kind) != "" && Ttl(c, meta.kind).Seconds?
    ensures r.Resolves? ==> r.value.key == SigningSecret(c, meta.kind)
    ensures r.Resolves? ==> r.value.payload.Object?
    ensures r.Resolves? ==> var cl := r.value.payload.claims;
      cl.id == meta.id && cl.role == meta.role && cl.aud == meta.name && cl.iss == c.issuer
      && cl.iat * 1000 <= nowMs < cl.iat * 1000 + 1000
      && cl.exp == Some(cl.iat + Ttl(c, meta.kind).n)
    ensures r.Rejects? ==> r.failure.statusCode.None? && r.failure.code == Named("Error")
  {
    var key := SigningSecret(c, meta.kind);
    var ttl := Ttl(c, meta.kind);
    if key == "" then Rejects(Failure(SecretMissing, None, Named("Error")))
    else if ttl.Unreadable? then Rejects(Failure(BadExpiresIn, None, Named("Error")))
    else
      var iat := nowMs / 1000;
      Resolves(Token(Object(Claims(meta.id, meta.role, meta.name, c.issuer, iat, Some(iat + ttl.n))), key))
  }

  function JwtError(message: string): Failure
  {
    Failure(message, None, Named("JsonWebTokenError"))
  }

  const ExpiredMessage := "jwt expired"

  /** `verifyToken(text, kind)` at time `nowMs`, in jsonwebtoken's order of checks:
      missing text, unparsable text, missing key, wrong signature, expiry. A verified
      string payload is never resolved, so the promise never settles. */
  function VerifyToken(text: string, kind: TokenKind, c: JwtConfig, nowMs: int,
                       decode: string -> Option<Token>): (r: Settle<Claims>)
    ensures r.Resolves? <==>
      text != "" && decode(text).Some? && VerifyingSecret(c, kind) != ""
      && decode(text).value.key == VerifyingSecret(c, kind)
      && decode(text).value.payload.Object?
      && !Expired(decode(text).value.payload.claims, nowMs)
    ensures r.Resolves? ==> text != "" && decode(text).Some? && decode(text).value.payload == Object(r.value)
    ensures r.NeverSettles? <==>
      text != "" && decode(text).Some? && VerifyingSecret(c, kind) != ""
      && decode(text).value.key == VerifyingSecret(c, kind) && decode(text).value.payload.Text?
    ensures r.Rejects? ==> r.failure.statusCode.None?
    ensures r.Rejects? ==> (r.failure.code == Named("TokenExpiredError") <==> r.failure.message == ExpiredMessage)
  {
    if text == "" then Rejects(JwtError("jwt must be provided"))
    else match decode(text)
      case None => Rejects(JwtError("jwt malformed"))
      case Some(t) =>
        var key := VerifyingSecret(c, kind);
        if key == "" then Rejects(JwtError("secret or public key must be provided"))
        else if t.key != key then Rejects(JwtError("invalid signature"))
        else match t.payload
          case Text(_) => NeverSettles
          case Object(cl) =>
            if Expired(cl, nowMs) then Rejects(Failure(ExpiredMessage, None, Named("TokenExpiredError")))
            else Resolves(cl)
  }

  /** The current second has reached the expiry claim. */
  predicate Expired(cl: Claims, nowMs: int)
  {
    cl.exp.Some? && nowMs / 1000 >= cl.exp.value
  }

  /** A token issued for some kind, parsed back from its text, verifies as that kind while
      it has not expired, provided the kind's signing and verifying keys agree; the claims
      come back unchanged. */
  lemma {:induction false} VerifyGenerated(meta: Meta, c: JwtConfig, issuedMs: int, nowMs: int,
                                            text: string, decode: string -> Option<Token>)
    requires GenerateToken(meta, c, issuedMs).Resolves?
    requires text != "" && decode(text) == Some(GenerateToken(meta, c, issuedMs).value)
    requires SigningSecret(c, meta.kind) == VerifyingSecret(c, meta.kind)
    requires !Expired(GenerateToken(meta, c, issuedMs).value.payload.claims, nowMs)
    ensures VerifyToken(text, meta.kind, c, nowMs, decode)
         == Resolves(GenerateToken(meta, c, issuedMs).value.payload.claims)
  {
  }

  /** Once the lifetime has passed, the same token is rejected as expired. */
  lemma GeneratedExpires(meta: Meta, c: JwtConfig, issuedMs: int, nowMs: int,
                         text: string, decode: string -> Option<Token>)
    requires GenerateToken(meta, c, issuedMs).Resolves?
    requires text != "" && decode(text) == Some(GenerateToken(meta, c, issuedMs).value)
    requires SigningSecret(c, meta.kind) == VerifyingSecret(c, meta.kind)
    requires nowMs / 1000 >= issuedMs / 1000 + Ttl(c, meta.kind).n
    ensures VerifyToken(text, meta.kind, c, nowMs, decode)
         == Rejects(Failure(ExpiredMessage, None, Named("TokenExpiredError")))
  {
  }

  /** A token of one kind verifies as another kind exactly when the two keys agree. */
  lemma CrossKind(meta: Meta, other: TokenKind, c: JwtConfig, issuedMs: int, nowMs: int,
                  text: string, decode: string -> Option<Token>)
    requires GenerateToken(meta, c, issuedMs).Resolves?
    requires text != "" && decode(text) == Some(GenerateToken(meta, c, issuedMs).value)
    requires !Expired(GenerateToken(meta, c, issuedMs).value.payload.claims, nowMs)
    ensures VerifyToken(text, other, c, nowMs, decode).Resolves?
        <==> SigningSecret(c, meta.kind) == VerifyingSecret(c, other)
    ensures VerifyingSecret(c, other) != "" && SigningSecret(c, meta.kind) != VerifyingSecret(c, other) ==>
      VerifyToken(text, other, c, nowMs, decode) == Rejects(JwtError("invalid signature"))
  {
  }

  /** With no variable set, every key is `'secret'`: a refresh (or reset, or activation)
      token is accepted wherever an access token is expected. */
  lemma DefaultRefreshPassesAsAccess(meta: Meta, issuedMs: int, nowMs: int,
                                     text: string, decode: string -> Option<Token>)
    requires meta.kind == RefreshToken
    requires text != "" && decode(text) == Some(GenerateToken(meta, DefaultConfig(), issuedMs).value)
    requires nowMs / 1000 < issuedMs / 1000 + OneYear
    ensures GenerateToken(meta, DefaultConfig(), issuedMs).Resolves?
    ensures VerifyToken(text, AccessToken, DefaultConfig(), nowMs, decode)
         == Resolves(GenerateToken(meta, DefaultConfig(), issuedMs).value.payload.claims)
  {
    DefaultConfigValues();
  }
}
