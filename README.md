# gojwt token lifecycle, modelled in Dafny

gojwt is a small Go HTTP service that does signup, sign-in, profile lookup and
refresh-token rotation with JSON Web Tokens. This project models its core:

- the input validators;
- token issuance and parsing. There are two HMAC-SHA256 tokens. The access
  token lives fifteen minutes, is signed with the access secret and carries
  the user id, email and role. The refresh token lives seven days, is signed
  with the refresh secret and carries only the user id;
- the strict `Authorization: Bearer <token>` check of the middleware, and its
  choice between rejecting with 401 and forwarding;
- the MySQL repository. It is a `Store` class over a `user` table (UNIQUE
  email, AUTO_INCREMENT id, NOT NULL role) and a `blacklist_token` ledger of
  redeemed refresh tokens (UNIQUE token);
- the use-case layer that orchestrates these.

Foreign code enters the model as function values:

- the JWT library's encode, decode and HMAC, plus whether a hash is linked
  in (`Security.JwtLib`);
- bcrypt hashing and checking (`Security.Hasher`);
- `net/mail.ParseAddress` (`Validation.AddressParser`).

The only facts the proofs assume about them are stated as hypotheses:

- `Security.Lawful`: decoding inverts encoding, and an encoded token contains
  no space;
- `Security.HashLawful`: a password checks against its own hash;
- `Middleware.SecretsSeparateTokenKinds` alone also assumes that the access
  and refresh secrets never give the same HS256 signature for a payload.

Every database statement takes an injected fault: `None` means the database
answers normally. The wall clock is a `now` parameter in seconds.

Files:

- `entity.dfy`: the shared entities and errors.
- `validation.dfy`: the validators.
- `security.dfy`: issuance, the refresh parser and the refresh cookie.
- `middleware.dfy`: `strings.Split`, the bearer check, the access parser and
  the middleware decision.
- `repository.dfy`: the store.
- `usecase.dfy`: the use cases and two client scenarios.

## Model

| member | source | states |
|---|---|---|
| Validation.ValidateEmail | internal/validation/user_validation.go:8-24 | Empty email gives "email is required", a non-empty email the address parser rejects gives "email is invalid", and both are tied to the field `email`. The email is accepted exactly when it is non-empty and parses. |
| Validation.ValidatePassword | internal/validation/user_validation.go:26-35 | An error is returned exactly when the password is empty, and it is "password is required" on `password`. |
| Validation.ValidateRole | internal/validation/user_validation.go:37-49 | Accepted exactly when the role is absent, `regular` or `superuser`. Otherwise the error is "role is not regular or superuser" on `role`. |
| Security.GenerateTokens | internal/security/jwt.go:12-55 | Both tokens are issued or neither, and failure happens exactly when the HS256 hash is unavailable. The access token decodes to HS256 claims (id, email, role, iss `myapp`, sub `access_token`, exp now+900, iat now) signed with the access secret. The refresh token decodes to (id, iss `myapp`, sub `refresh_token`, exp now+604800, iat now) signed with the refresh secret. |
| Security.ParseWithClaims | internal/security/jwt.go:58-71 | The library's parse reports an Ok token only with `valid` set. The order of its checks (malformed, unregistered alg, key callback error, hash unavailable, bad signature, expired) is the body's; the contracts of the two parsers and `Middleware.SecretsSeparateTokenKinds` prove parts of that order. |
| Security.KeyFor | internal/security/jwt.go:61-70 | The key callback yields the secret exactly for an HMAC method, and "unexpected signing method" otherwise. |
| Security.ParseAndValidateRefreshToken | internal/security/jwt.go:57-92 | Succeeds exactly when the token decodes, uses HMAC, its hash is available, its signature matches under the refresh secret and it is not expired. The result is the decoded refresh claims. Every failure is a library error, and a registered non-HMAC alg fails with "unexpected signing method". |
| Security.RefreshRoundTrip | internal/security/jwt.go:12-92 | The refresh token of a fresh pair parses back to exactly the claims issued, at any time before now+7 days. |
| Security.RefreshExpires | internal/security/jwt.go:36-76 | At or after now+7 days the same refresh token is rejected as expired. |
| Security.GenerateRefreshCookie | internal/security/jwt.go:94-105 | Appends one cookie (`refresh_token`, the old refresh value, path `/refresh`, HttpOnly, not Secure, SameSite=Lax). Then blanks the caller's refresh token and keeps the access token. |
| Middleware.Split | internal/middleware/auth.go:65 | `strings.Split`: at least one piece, no piece contains the separator, and joining the pieces with it gives back the input. |
| Middleware.SplitJoin | internal/middleware/auth.go:65 | Splitting a join of separator-free pieces gives back those pieces, so `Split` is the only such cut. |
| Middleware.BearerSplit | internal/middleware/auth.go:65-68 | The header splits into exactly two pieces with the first equal to `Bearer` if and only if it is `Bearer`, one space, and a space-free token. The second piece is then that token. |
| Middleware.ParseAndValidateToken | internal/middleware/auth.go:23-55 | Succeeds exactly when the token is accepted under the access secret (HMAC, hash available, signature, not expired). The result is the decoded access claims, every failure is a library error, and a non-HMAC alg gives "unexpected signing method". |
| Middleware.ValidateBearerToken | internal/middleware/auth.go:57-80 | An empty header gives "authorization header missing". Any other header not of the exact `Bearer <token>` form gives "invalid authorization format". A well-formed header gives the access parse of its token. |
| Middleware.StrictBearerFormat | internal/middleware/auth.go:65-68 | A lower-case `bearer ` prefix and a doubled space are both refused as "invalid authorization format". |
| Middleware.AuthMiddleware | internal/middleware/auth.go:82-95 | The request is forwarded exactly when the header is well formed and its token is accepted under the access secret, and it carries that token's claims. Otherwise it is rejected with 401 before the next handler. |
| Middleware.AccessRoundTrip | internal/middleware/auth.go:23-55 | The access token of a fresh pair parses back to exactly its issued claims before now+15 minutes. |
| Middleware.AccessExpires | internal/middleware/auth.go:23-55 | At or after now+15 minutes the access token is rejected as expired. |
| Middleware.BearerRoundTrip | internal/middleware/auth.go:57-95 | `Bearer ` followed by a fresh access token is forwarded with exactly the issued claims. |
| Middleware.SecretsSeparateTokenKinds | internal/middleware/auth.go:27-36 | When the two secrets never give the same HS256 signature, a refresh token fails the access parser and an access token fails the refresh parser, both on the signature. |
| Middleware.SharedSecretConfusesKinds | internal/middleware/auth.go:23-55 | With one shared secret, a refresh token is accepted as an access token with empty email and role, because no parser checks `sub`. |
| Repository.InsertError | internal/repository/jwt_repo.go:52-59 | An INSERT failure becomes "email already exists" on `email` if and only if it is MySQL error 1062 (`isDuplicateKey`). Any other failure passes through unchanged. |
| Repository.Store.EmailIsUnique | internal/repository/jwt_repo.go:47-60 | Under the store invariant, no two users share an email. |
| Repository.Store.GetByEmail | internal/repository/jwt_repo.go:26-36 | Returns a user exactly when some row has the email and the query does not fail. The result is that row with its id, role and password hash. A missing row is `sql.ErrNoRows`, and a failure is passed through. |
| Repository.Store.GetByID | internal/repository/jwt_repo.go:38-45 | Returns a user exactly when the id is stored and the query does not fail. The result is the row with an empty password, since that column is not selected. |
| Repository.Store.InsertUser | internal/repository/jwt_repo.go:48-50 | The INSERT succeeds exactly without a fault, with a role and with a new email. It then adds the row at the next AUTO_INCREMENT id and keeps the store invariant. A missing role gives MySQL 1048, a duplicate email gives 1062, and a failure leaves the tables unchanged. |
| Repository.Store.CreateAsWritten | internal/repository/jwt_repo.go:47-68 | The source's `Create`: when `LastInsertId` fails after a successful insert, neither a user nor an error is returned, yet the row is stored. |
| Repository.Store.Create | internal/repository/jwt_repo.go:47-68 | Succeeds exactly when the insert, `LastInsertId` and the re-read all succeed. The result is the new row at the old next id with an empty password. A duplicate email is "email already exists", a missing role is MySQL 1048 and any other insert failure is returned as it is. After a successful insert, a `LastInsertId` failure is returned as that failure, and so is a failure of the re-read. The tables change exactly when the insert succeeds. |
| Repository.Store.IsRefreshTokenBlacklisted | internal/repository/jwt_repo.go:70-88 | Reports whether the token is in the ledger. `sql.ErrNoRows` means not blacklisted with no error. Any other failure gives `false` with that failure. |
| Repository.Store.AddBlacklistToken | internal/repository/jwt_repo.go:90-106 | Records (token, user id) exactly when the insert does not fail and the token is not already in the ledger. Otherwise the ledger is unchanged. A duplicate token reports "email already exists" on `email`. |
| UseCase.UserUseCase.ProfileShowsStoredRow | internal/usecase/jwt_usecase.go:139-146 | A found user's profile response is its stored row (id, name, email, role) without the password. |
| UseCase.UserUseCase.Create | internal/usecase/jwt_usecase.go:27-55 | Validates email, then password, then role, and returns the first error with the caller's user and the store unchanged. A hash failure is returned the same way. Otherwise the caller's password becomes its hash and a missing role becomes `regular`. After that, an insert failure is returned through `InsertError` and a duplicate email gives "email already exists" on `email`, both with the store unchanged. Once the insert succeeds, the row is stored at the old next id whatever follows, and a `LastInsertId` or re-read failure is returned as that failure (the corrected repository `Create`). Signup succeeds exactly when the input is valid, hashing works, the email is new and no store step fails, and the result is then the new row at the old next id. |
| UseCase.UserUseCase.Login | internal/usecase/jwt_usecase.go:57-87 | The email and password errors come first, then the lookup error. A hash mismatch gives "password tidak valid" on `password`. Otherwise the result is the token pair for the stored id, email and role. Success implies the lookup and check passed. Under a lawful library, the access token parses at `now` with the login email. Only the user table is read. |
| UseCase.UserUseCase.User | internal/usecase/jwt_usecase.go:89-101 | An invalid email is refused without a lookup, otherwise the lookup's result is returned. A found user has the requested email. |
| UseCase.UserUseCase.RefreshToken | internal/usecase/jwt_usecase.go:103-137 | A token already in the ledger is never redeemed. When the ledger read succeeds it is refused as `token_invalid` "Token is blacklisted.", and that is the only source of an AppError. A ledger failure other than no-rows is returned. A parse failure is returned as it is. A failed user lookup, unavailable signing hash or failed ledger insert returns no tokens. Any failure leaves the ledger unchanged. Success means the token parsed, its user exists, the pair is issued for that user, and the ledger gains exactly (token, user id). When every step is able to succeed, rotation succeeds. |
| UseCase.RotateThenReplay | internal/usecase/jwt_usecase.go:103-137 | The reuse law: after a successful rotation the presented token still parses, yet presenting it again fails. The replay is `token_invalid` when the ledger answers. |
| UseCase.SignupThenLogin | internal/usecase/jwt_usecase.go:27-87 | After a successful signup, sign-in with the same email and plaintext password succeeds when signing works. Its access token carries that email. |

## Left out

- HTTP handlers, JSON encoding of responses and `JSONError` are not modelled. The middleware's outcome is the `Decision` value (status 401 with the error, or forward with the claims); attaching the claims to the request context is not modelled.
- Configuration loading (`config.Get`) is not modelled; the two secrets are a `Config` parameter.
- HMAC, base64url, JSON and bcrypt are foreign code. They are function parameters with the laws above, and bcrypt's random salt is inside the `hash` parameter.
- `time.Now` is one `now` parameter per operation, in whole seconds. Every `time.Now()` call inside `GenerateTokens` therefore reads the same instant. `NumericDate` rounding below a second is not modelled.
- Validation of `nbf`, `iat` and `aud` by the token library is not modelled. Tokens issued here carry no `nbf` or `aud`, and `iat` is never in the future.
- Security.ParseWithClaims: non-HMAC algorithms are rejected by the key callback before any key material is used. Their verification paths (RSA, ECDSA, EdDSA, `none`) are not modelled separately.
- The `!token.Valid` branches of both parsers are kept in the model, but the library model never returns a parsed token that is not valid, so they are dead code.
- The `invalid token claims` type-assertion failure is left out. The claims type is fixed by the argument the parser passes, so that branch cannot be taken.
- Concurrency is not modelled. Two concurrent rotations of one token are the case where the ledger's UNIQUE key rejects the second insert. In `UseCase.UserUseCase.RefreshToken` that branch is reached only when the ledger read is injected as `NoRows` while the row exists, which stands for the stale read of the second rotation; it then ends in the duplicate-insert branch of `Repository.Store.AddBlacklistToken`.
- Repository.Store.InsertUser: the schema is not part of the repository. The NOT NULL role and the UNIQUE keys on `user.email` and `blacklist_token.refresh_token` are assumed, together with the MySQL error numbers 1048 and 1062. The exact MySQL message text is illustrative.
- Repository.Store.InsertUser: the `email` column is assumed to compare exactly (a binary or case-sensitive collation). Under MySQL's default case-insensitive collations the UNIQUE key would also reject a case variant of a stored email; the model accepts it.
- Repository.Store.GetByEmail: emails are compared exactly, under the same collation assumption. Under a case-insensitive collation `where email = ?` would also find a row stored with different case, and `UseCase.UserUseCase.User` and `UseCase.UserUseCase.Login` would then see a stored email that differs in case from the one asked for.
- Repository.Store.IsRefreshTokenBlacklisted and Repository.Store.AddBlacklistToken: the `blacklist_token.refresh_token` column is assumed to compare exactly (a binary collation), so the ledger lookup and its UNIQUE key match a token only character for character. Under a case-insensitive collation a case variant of a consumed token would be found by the lookup, and `UseCase.UserUseCase.RefreshToken` would refuse it as `token_invalid`; its AppError if-and-only-if (refused as reuse exactly when the presented token is in the ledger) holds under the exact-match assumption only. Inserting such a variant would likewise fail with 1062.
- UseCase.UserUseCase.Create: signup is modelled over the corrected `Repository.Store.Create`. When `LastInsertId` fails after a successful insert, the model's signup returns that failure, while the source returns neither a user nor an error (see Findings and `Repository.Store.CreateAsWritten`).
- Repository.Store.InsertUser: `nextId` is the next id the model hands out. InnoDB also uses up an AUTO_INCREMENT value on an insert that fails (a duplicate key, for one), so real ids can have gaps; the model keeps `nextId` unchanged on a failed insert and its ids are consecutive.
- Security.Lawful assumes nothing about how HMAC keys relate. `Middleware.SecretsSeparateTokenKinds` takes as a hypothesis that the two secrets never sign a payload alike, since distinct HMAC keys can (a key and the same key padded with zero bytes).
- Ids are unbounded integers, so the `int64` bound of the source and AUTO_INCREMENT overflow are not modelled.
- The mock use case and the test files are not modelled.
- Password hashing (`security.HashPassword`, `security.CheckPasswordHash`) is not part of this model. It appears only through the `Hasher` parameter.

## Findings

| source | as written | input that shows it | evidently intended | confidence | as-written member | corrected member |
|---|---|---|---|---|---|---|
| internal/repository/jwt_repo.go:62-65 | When `LastInsertId` fails, the function returns `nil, err`, and `err` is the nil error of the successful INSERT. | The insert succeeds and `LastInsertId` then reports a driver error. The caller gets neither a user nor an error while the row is stored. | Return `err2`, the `LastInsertId` error. | not executed | Repository.Store.CreateAsWritten | Repository.Store.Create |

Two further behaviours are modelled exactly as written:

- `AddBlacklistToken` reports a duplicate ledger row as "email already exists" on the `email` field (internal/repository/jwt_repo.go:96-100).
- Neither parser checks the `sub` claim, so with equal secrets the token kinds are interchangeable (`Middleware.SharedSecretConfusesKinds`).
