/** Access-token checking for protected routes: the strict form of the
    `Authorization: Bearer` header (section 2.1 of RFC 6750), parsing under the
    access secret, and the decision to forward or reject the request. */
module Middleware {
  import opened Entity
  import opened Security

  /** The pieces of `s` between occurrences of `sep`, as `strings.Split` cuts
      them: never empty, and adjacent separators give an empty piece. */
  function Split(s: string, sep: char): (parts: seq<string>)
    ensures |parts| >= 1
    ensures forall i :: 0 <= i < |parts| ==> sep !in parts[i]
    ensures Join(parts, sep) == s
    decreases |s|
  {
    if s == [] then [""]
    else
      var rest := Split(s[1..], sep);
      if s[0] == sep then [""] + rest
      else [[s[0]] + rest[0]] + rest[1..]
  }

  /** The pieces glued back together with `sep` between them. */
  function Join(parts: seq<string>, sep: char): string
    decreases |parts|
  {
    if parts == [] then ""
    else if |parts| == 1 then parts[0]
    else parts[0] + [sep] + Join(parts[1..], sep)
  }

  /** Splitting is the inverse of joining pieces that hold no separator, so
      `Split` is the only cut of a string into such pieces. */
  lemma {:induction false} SplitJoin(parts: seq<string>, sep: char)
    requires |parts| >= 1
    requires forall i :: 0 <= i < |parts| ==> sep !in parts[i]
    ensures Split(Join(parts, sep), sep) == parts
    decreases |Join(parts, sep)|
  {
    var s := Join(parts, sep);
    if parts[0] == "" {
      if |parts| > 1 {
        assert s == [sep] + Join(parts[1..], sep);
        assert s[1..] == Join(parts[1..], sep);
        SplitJoin(parts[1..], sep);
        assert parts == [""] + parts[1..];
      }
    } else {
      var c, w := parts[0][0], parts[0][1..];
      var tail := [w] + parts[1..];
      assert forall i :: 0 <= i < |tail| ==> sep !in tail[i] by {
        forall i | 0 <= i < |tail| ensures sep !in tail[i] {
          if i == 0 {
            assert parts[0] == [c] + w;
          } else {
            assert tail[i] == parts[i];
          }
        }
      }
      assert parts[0] == [c] + w;
      if |parts| == 1 {
        assert Join(tail, sep) == w;
      } else {
        assert tail[1..] == parts[1..];
        assert Join(tail, sep) == w + [sep] + Join(parts[1..], sep);
      }
      assert s == [c] + Join(tail, sep);
      assert s[1..] == Join(tail, sep);
      SplitJoin(tail, sep);
      assert c != sep;
      assert parts == [[c] + tail[0]] + tail[1..];
    }
  }

  /** The only header shape accepted: `Bearer`, one space, and a token with
      no further space. */
  predicate WellFormedBearer(header: string) {
    |header| >= 7 && header[..7] == "Bearer " && ' ' !in header[7..]
  }

  /** Splitting on a single space gives exactly two pieces, the first being
      `Bearer`, exactly when the header is well formed; the second piece is then
      the token. */
  lemma BearerSplit(header: string)
    ensures var parts := Split(header, ' ');
      (|parts| == 2 && parts[0] == "Bearer") <==> WellFormedBearer(header)
    ensures WellFormedBearer(header) ==> Split(header, ' ') == ["Bearer", header[7..]]
  {
    if WellFormedBearer(header) {
      WellFormedSplits(header);
    }
    var parts := Split(header, ' ');
    if |parts| == 2 && parts[0] == "Bearer" {
      TwoPiecesWellFormed(header, parts);
    }
  }

  /** A well-formed header splits into `Bearer` and its token. */
  lemma WellFormedSplits(header: string)
    requires WellFormedBearer(header)
    ensures Split(header, ' ') == ["Bearer", header[7..]]
  {
    var pieces := ["Bearer", header[7..]];
    assert Join(pieces, ' ') == header by {
      assert pieces[1..] == [header[7..]];
      assert Join(pieces, ' ') == "Bearer" + [' '] + header[7..];
      assert header == header[..7] + header[7..];
    }
    SplitJoin(pieces, ' ');
  }

  /** Two pieces, the first `Bearer`, can only come from a well-formed header. */
  lemma TwoPiecesWellFormed(header: string, parts: seq<string>)
    requires parts == Split(header, ' ')
    requires |parts| == 2 && parts[0] == "Bearer"
    ensures WellFormedBearer(header)
  {
    var token := parts[1];
    assert ' ' !in token;
    assert parts[1..] == [token];
    assert header == "Bearer" + [' '] + token by {
      assert Join(parts, ' ') == parts[0] + [' '] + Join(parts[1..], ' ');
    }
    assert header[..7] == "Bearer " && header[7..] == token;
  }

  /** Parse an access token under the access secret. A library error is
      returned as it is, a token the library does not mark valid is an error,
      and otherwise the access claims are returned. */
  function ParseAndValidateToken(lib: JwtLib, cfg: Config, s: string, now: int): (r: Result<AccessClaims>)
    ensures r.Ok? <==> AcceptedUnder(lib, s, cfg.accessSecret, now)
    ensures r.Ok? ==> r.value == AsAccess(lib.decode(s).value.payload)
    ensures r.Err? ==> r.error.Jwt?
    ensures lib.decode(s).Some? && !lib.decode(s).value.alg.Unregistered? && !IsHmac(lib.decode(s).value.alg) ==>
      r == Err(Jwt(Unverifiable(Internal("unexpected signing method"))))
  {
    match ParseWithClaims(lib, s, alg => KeyFor(cfg.accessSecret, alg), now)
    case Err(e) => Err(e)
    case Ok(token) =>
      if !token.valid then Err(Internal("token is invalid or expired"))
      else Ok(AsAccess(token.payload))
  }

  /** Check the `Authorization` header value (empty when the header is absent). */
  function ValidateBearerToken(lib: JwtLib, cfg: Config, header: string, now: int): (r: Result<AccessClaims>)
    ensures header == "" ==> r == Err(Internal("authorization header missing"))
    ensures header != "" && !WellFormedBearer(header) ==> r == Err(Internal("invalid authorization format"))
    ensures WellFormedBearer(header) ==> r == ParseAndValidateToken(lib, cfg, header[7..], now)
  {
    BearerSplit(header);
    if header == "" then
      Err(Internal("authorization header missing"))
    else
      var parts := Split(header, ' ');
      if |parts| != 2 || parts[0] != "Bearer" then
        Err(Internal("invalid authorization format"))
      else
        match ParseAndValidateToken(lib, cfg, parts[1], now)
        case Err(e) => Err(e)
        case Ok(claims) => Ok(claims)
  }

  /** The lower-case scheme and a doubled space are both refused. */
  lemma StrictBearerFormat(lib: JwtLib, cfg: Config, token: string, now: int)
    ensures ValidateBearerToken(lib, cfg, "bearer " + token, now) == Err(Internal("invalid authorization format"))
    ensures ValidateBearerToken(lib, cfg, "Bearer  " + token, now) == Err(Internal("invalid authorization format"))
  {
    assert ("bearer " + token)[..7] == "bearer ";
    assert ("Bearer  " + token)[7..][0] == ' ';
  }

  /** What the middleware does with a request: reject it with 401 before the
      next handler runs, or forward it carrying the parsed claims. */
  datatype Decision = Reject(status: int, error: Error) | Forward(claims: AccessClaims)

  function AuthMiddleware(lib: JwtLib, cfg: Config, header: string, now: int): (d: Decision)
    ensures d.Forward? <==> WellFormedBearer(header) && AcceptedUnder(lib, header[7..], cfg.accessSecret, now)
    ensures d.Forward? ==> d.claims == AsAccess(lib.decode(header[7..]).value.payload)
    ensures d.Reject? ==> d.status == 401
  {
    match ValidateBearerToken(lib, cfg, header, now)
    case Err(e) => Reject(401, e)
    case Ok(claims) => Forward(claims)
  }

  /** The access token of a fresh pair parses back, under the access secret,
      to exactly the claims it was issued with, until fifteen minutes pass. */
  lemma AccessRoundTrip(lib: JwtLib, cfg: Config, userID: int, email: string, role: string, now: int, later: int)
    requires Lawful(lib)
    requires GenerateTokens(lib, cfg, userID, email, role, now).Ok?
    requires later < now + AccessLifetime
    ensures ParseAndValidateToken(lib, cfg, GenerateTokens(lib, cfg, userID, email, role, now).value.access, later)
      == Ok(AccessClaims(userID, email, role, RegisteredClaims(Issuer, "access_token", Some(now + AccessLifetime), Some(now))))
  {
  }

  /** At or after its expiry instant the access token is rejected as expired. */
  lemma AccessExpires(lib: JwtLib, cfg: Config, userID: int, email: string, role: string, now: int, later: int)
    requires Lawful(lib)
    requires GenerateTokens(lib, cfg, userID, email, role, now).Ok?
    requires now + AccessLifetime <= later
    ensures ParseAndValidateToken(lib, cfg, GenerateTokens(lib, cfg, userID, email, role, now).value.access, later)
      == Err(Jwt(Expired))
  {
  }

  /** Presented as `Bearer <access token>`, a fresh access token is accepted
      and its claims reach the next handler. */
  lemma BearerRoundTrip(lib: JwtLib, cfg: Config, userID: int, email: string, role: string, now: int, later: int)
    requires Lawful(lib)
    requires GenerateTokens(lib, cfg, userID, email, role, now).Ok?
    requires later < now + AccessLifetime
    ensures AuthMiddleware(lib, cfg, "Bearer " + GenerateTokens(lib, cfg, userID, email, role, now).value.access, later)
      == Forward(AccessClaims(userID, email, role, RegisteredClaims(Issuer, "access_token", Some(now + AccessLifetime), Some(now))))
  {
    var t := GenerateTokens(lib, cfg, userID, email, role, now).value;
    var header := "Bearer " + t.access;
    assert header[..7] == "Bearer " && header[7..] == t.access;
    AccessRoundTrip(lib, cfg, userID, email, role, now, later);
  }

  /** When the two secrets never give the same HS256 signature, neither token
      of a pair passes for the other: each fails signature verification under
      the other's secret. (Distinct secrets are not enough for HMAC: a key and
      the same key followed by zero bytes sign alike.) */
  lemma SecretsSeparateTokenKinds(lib: JwtLib, cfg: Config, userID: int, email: string, role: string, now: int, later: int)
    requires Lawful(lib)
    requires forall p :: lib.mac(HS256, cfg.accessSecret, p) != lib.mac(HS256, cfg.refreshSecret, p)
    requires GenerateTokens(lib, cfg, userID, email, role, now).Ok?
    ensures ParseAndValidateToken(lib, cfg, GenerateTokens(lib, cfg, userID, email, role, now).value.refresh, later)
      == Err(Jwt(SignatureInvalid))
    ensures ParseAndValidateRefreshToken(lib, cfg, GenerateTokens(lib, cfg, userID, email, role, now).value.access, later)
      == Err(Jwt(SignatureInvalid))
  {
  }

  /** Nothing in the parsers looks at the `sub` claim: with a single shared
      secret a refresh token passes as an access token (empty email and role)
      for its whole seven days. */
  lemma SharedSecretConfusesKinds(lib: JwtLib, cfg: Config, userID: int, email: string, role: string, now: int, later: int)
    requires Lawful(lib)
    requires cfg.accessSecret == cfg.refreshSecret
    requires GenerateTokens(lib, cfg, userID, email, role, now).Ok?
    requires later < now + RefreshLifetime
    ensures ParseAndValidateToken(lib, cfg, GenerateTokens(lib, cfg, userID, email, role, now).value.refresh, later)
      == Ok(AccessClaims(userID, "", "", RegisteredClaims(Issuer, "refresh_token", Some(now + RefreshLifetime), Some(now))))
  {
  }
}
