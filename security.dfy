/** Token issuance and refresh-token parsing. Tokens are JSON Web Tokens
    (RFC 7519) in compact serialization, signed with HMAC SHA-256 (section 3.2
    of RFC 7518); the access token and the refresh token use different
    secrets and lifetimes.

    The token library and the password hasher are foreign code: they enter the
    model as function values, and `Lawful` / `HashLawful` state the only facts
    the proofs assume about them. */
module Security {
  import opened Entity

  /** The two signing secrets, loaded once at start-up. */
  datatype Config = Config(accessSecret: string, refreshSecret: string)

  /** A representative subset of the signing methods the token library
      registers under their `alg` header names (section 3.1 of RFC 7518), and
      any other name. The other registered methods (RS384, PS256, ES512, ...)
      are refused by the key callback exactly as `RS256` is. */
  datatype Alg = HS256 | HS384 | HS512 | RS256 | ES256 | EdDSA | NoneAlg | Unregistered(name: string)

  /** The HMAC family, the only one this service accepts. */
  predicate IsHmac(alg: Alg) {
    alg.HS256? || alg.HS384? || alg.HS512?
  }

  /** The claims segment of a token, as whichever claims struct produced it. */
  datatype Payload = AccessPayload(access: AccessClaims) | RefreshPayload(refresh: RefreshClaims)

  /** A decoded compact serialization: header algorithm, claims, signature. */
  datatype Segments = Segments(alg: Alg, payload: Payload, signature: seq<bv8>)

  /** The token library's primitives: `encode` writes the three base64url
      segments, `decode` reads them back, `mac` computes the signature of a
      payload under a key, and `hashAvailable` says whether the hash behind an
      algorithm is linked in. */
  datatype JwtLib = JwtLib(
    encode: Segments -> string,
    decode: string -> Option<Segments>,
    mac: (Alg, string, Payload) -> seq<bv8>,
    hashAvailable: Alg -> bool)

  /** What the proofs assume of the library: decoding inverts encoding, and an
      encoded token never contains a space (base64url and '.' only). */
  ghost predicate Lawful(lib: JwtLib) {
    && (forall s: Segments :: lib.decode(lib.encode(s)) == Some(s))
    && (forall s: Segments :: ' ' !in lib.encode(s))
  }

  /** The password hasher: a salted one-way hash that may fail, and its check. */
  datatype Hasher = Hasher(hash: string -> Result<string>, check: (string, string) -> bool)

  /** A password always checks against a hash made from it. */
  ghost predicate HashLawful(hasher: Hasher) {
    forall p: string :: hasher.hash(p).Ok? ==> hasher.check(p, hasher.hash(p).value)
  }

  const Issuer := "myapp"
  /** Fifteen minutes, in seconds. */
  const AccessLifetime := 15 * 60
  /** Seven days, in seconds. */
  const RefreshLifetime := 7 * 24 * 60 * 60

  /** The claims segment decoded into an access-claims struct: fields the
      payload lacks keep their zero value. */
  function AsAccess(p: Payload): AccessClaims {
    match p
    case AccessPayload(c) => c
    case RefreshPayload(c) => AccessClaims(c.userID, "", "", c.registered)
  }

  /** The claims segment decoded into a refresh-claims struct. */
  function AsRefresh(p: Payload): RefreshClaims {
    match p
    case AccessPayload(c) => RefreshClaims(c.userID, c.registered)
    case RefreshPayload(c) => c
  }

  function RegisteredOf(p: Payload): RegisteredClaims {
    match p
    case AccessPayload(c) => c.registered
    case RefreshPayload(c) => c.registered
  }

  /** The expiry check: a token is valid strictly before its `exp`; a token
      without `exp` does not expire. */
  predicate NotExpired(p: Payload, now: int) {
    var exp := RegisteredOf(p).expiresAt;
    exp.None? || now < exp.value
  }

  /** `SignedString`: sign the payload under `key` and serialize. */
  function SignedString(lib: JwtLib, alg: Alg, p: Payload, key: string): Result<string> {
    if lib.hashAvailable(alg) then Ok(lib.encode(Segments(alg, p, lib.mac(alg, key, p))))
    else Err(Jwt(HashUnavailable))
  }

  /** A token the library parsed; `valid` is set once every check passed. */
  datatype ParsedToken = ParsedToken(alg: Alg, payload: Payload, valid: bool)

  /** The key-resolution callback both parsers pass to the library. */
  type KeyFunc = Alg -> Result<string>

  /** `jwt.ParseWithClaims`: decode, resolve the algorithm, ask the callback
      for a key, check the signature, then check expiry against `now`. */
  function ParseWithClaims(lib: JwtLib, s: string, keyFunc: KeyFunc, now: int): (r: Result<ParsedToken>)
    ensures r.Ok? ==> r.value.valid
  {
    match lib.decode(s)
    case None => Err(Jwt(Malformed))
    case Some(seg) =>
      if seg.alg.Unregistered? then
        Err(Jwt(Unverifiable(Internal("signing method (alg) is unavailable"))))
      else
        match keyFunc(seg.alg)
        case Err(e) => Err(Jwt(Unverifiable(e)))
        case Ok(key) =>
          if !lib.hashAvailable(seg.alg) then Err(Jwt(HashUnavailable))
          else if lib.mac(seg.alg, key, seg.payload) != seg.signature then Err(Jwt(SignatureInvalid))
          else if !NotExpired(seg.payload, now) then Err(Jwt(Expired))
          else Ok(ParsedToken(seg.alg, seg.payload, true))
  }

  /** The callback of both parsers: supply `secret` only for an HMAC method. */
  function KeyFor(secret: string, alg: Alg): (r: Result<string>)
    ensures r.Ok? <==> IsHmac(alg)
    ensures r.Ok? ==> r.value == secret
    ensures r.Err? ==> r.error == Internal("unexpected signing method")
  {
    if IsHmac(alg) then Ok(secret) else Err(Internal("unexpected signing method"))
  }

  /** `s` is a token the library accepts under `key` at `now`, with an HMAC
      algorithm. */
  ghost predicate AcceptedUnder(lib: JwtLib, s: string, key: string, now: int) {
    && lib.decode(s).Some?
    && var seg := lib.decode(s).value;
    && IsHmac(seg.alg)
    && lib.hashAvailable(seg.alg)
    && lib.mac(seg.alg, key, seg.payload) == seg.signature
    && NotExpired(seg.payload, now)
  }

  /** Issue an access token (user id, email, role; fifteen minutes; signed
      with the access secret) and a refresh token (user id only; seven days;
      signed with the refresh secret). Either both are issued or neither. */
  function GenerateTokens(lib: JwtLib, cfg: Config, userID: int, email: string, role: string, now: int): (r: Result<Token>)
    ensures r.Ok? <==> lib.hashAvailable(HS256)
    ensures r.Err? ==> r.error == Jwt(HashUnavailable)
    ensures Lawful(lib) && r.Ok? ==>
      && lib.decode(r.value.access).Some?
      && var seg := lib.decode(r.value.access).value;
      && seg.alg == HS256
      && seg.payload == AccessPayload(AccessClaims(userID, email, role,
           RegisteredClaims("myapp", "access_token", Some(now + 15 * 60), Some(now))))
      && seg.signature == lib.mac(HS256, cfg.accessSecret, seg.payload)
    ensures Lawful(lib) && r.Ok? ==>
      && lib.decode(r.value.refresh).Some?
      && var seg := lib.decode(r.value.refresh).value;
      && seg.alg == HS256
      && seg.payload == RefreshPayload(RefreshClaims(userID,
           RegisteredClaims("myapp", "refresh_token", Some(now + 7 * 24 * 60 * 60), Some(now))))
      && seg.signature == lib.mac(HS256, cfg.refreshSecret, seg.payload)
  {
    var accessClaims := AccessClaims(userID, email, role,
      RegisteredClaims(Issuer, "access_token", Some(now + AccessLifetime), Some(now)));
    match SignedString(lib, HS256, AccessPayload(accessClaims), cfg.accessSecret)
    case Err(e) => Err(e)
    case Ok(access) =>
      var refreshClaims := RefreshClaims(userID,
        RegisteredClaims(Issuer, "refresh_token", Some(now + RefreshLifetime), Some(now)));
      match SignedString(lib, HS256, RefreshPayload(refreshClaims), cfg.refreshSecret)
      case Err(e) => Err(e)
      case Ok(refresh) => Ok(Token(access, refresh))
  }

  /** Parse a refresh token under the refresh secret. A library error is
      returned as it is; a token the library does not mark valid is
      `token_invalid`; otherwise the refresh claims. */
  function ParseAndValidateRefreshToken(lib: JwtLib, cfg: Config, s: string, now: int): (r: Result<RefreshClaims>)
    ensures r.Ok? <==> AcceptedUnder(lib, s, cfg.refreshSecret, now)
    ensures r.Ok? ==> r.value == AsRefresh(lib.decode(s).value.payload)
    ensures r.Err? ==> r.error.Jwt?
    ensures lib.decode(s).Some? && !lib.decode(s).value.alg.Unregistered? && !IsHmac(lib.decode(s).value.alg) ==>
      r == Err(Jwt(Unverifiable(Internal("unexpected signing method"))))
  {
    match ParseWithClaims(lib, s, alg => KeyFor(cfg.refreshSecret, alg), now)
    case Err(e) => Err(e)
    case Ok(token) =>
      if !token.valid then Err(AppError("token_invalid", "token is invalid or expired"))
      else Ok(AsRefresh(token.payload))
  }

  /** The refresh token of a fresh pair parses back, under the refresh secret,
      to exactly the claims it was issued with, until it expires. */
  lemma RefreshRoundTrip(lib: JwtLib, cfg: Config, userID: int, email: string, role: string, now: int, later: int)
    requires Lawful(lib)
    requires GenerateTokens(lib, cfg, userID, email, role, now).Ok?
    requires later < now + RefreshLifetime
    ensures ParseAndValidateRefreshToken(lib, cfg, GenerateTokens(lib, cfg, userID, email, role, now).value.refresh, later)
      == Ok(RefreshClaims(userID, RegisteredClaims(Issuer, "refresh_token", Some(now + RefreshLifetime), Some(now))))
  {
  }

  /** At or after its expiry instant the same refresh token is rejected as expired. */
  lemma RefreshExpires(lib: JwtLib, cfg: Config, userID: int, email: string, role: string, now: int, later: int)
    requires Lawful(lib)
    requires GenerateTokens(lib, cfg, userID, email, role, now).Ok?
    requires now + RefreshLifetime <= later
    ensures ParseAndValidateRefreshToken(lib, cfg, GenerateTokens(lib, cfg, userID, email, role, now).value.refresh, later)
      == Err(Jwt(Expired))
  {
  }

  /** The cookie attributes of `http.Cookie`. */
  datatype SameSite = SameSiteDefault | SameSiteLax | SameSiteStrict | SameSiteNone

  datatype Cookie = Cookie(name: string, value: string, path: string, httpOnly: bool, secure: bool, sameSite: SameSite)

  /** The `Set-Cookie` headers written to a response so far. */
  class Response {
    var cookies: seq<Cookie>

    constructor ()
      ensures cookies == []
    {
      cookies := [];
    }
  }

  /** Hand the refresh token to an HttpOnly cookie scoped to `/refresh`, then
      blank it in the caller's token so that it is not also sent in the body. */
  method GenerateRefreshCookie(w: Response, token: TokenRef)
    modifies w, token
    ensures w.cookies == old(w.cookies) + [Cookie("refresh_token", old(token.value.refresh), "/refresh", true, false, SameSiteLax)]
    ensures token.value.refresh == "" && token.value.access == old(token.value.access)
  {
    w.cookies := w.cookies + [Cookie("refresh_token", token.value.refresh, "/refresh", true, false, SameSiteLax)];
    token.value := token.value.(refresh := "");
  }
}
