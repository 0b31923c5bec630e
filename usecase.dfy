/** The token lifecycle: signup, sign-in, profile lookup and refresh-token
    rotation with reuse detection. Rotation checks the ledger before anything
    else, so a refresh token that has been redeemed once is refused however
    valid its signature and expiry still are. */
module UseCase {
  import opened Entity
  import opened Validation
  import opened Security
  import opened Middleware
  import opened Repository

  /** The store failures injected into one operation, one per statement it
      may run (`None`: the database answers normally). */
  datatype Faults = Faults(
    ledgerRead: Option<StoreError>,
    ledgerWrite: Option<StoreError>,
    userRead: Option<StoreError>,
    userInsert: Option<StoreError>,
    lastInsertId: Option<StoreError>)

  /** The policy rejection for a refresh token found in the ledger. */
  const TokenReused := AppError("token_invalid", "Token is blacklisted.")

  /** The public view of a stored user; the password is not part of it. */
  function ToUserResponse(u: Entity.User): UserResponse
    requires u.id.Some? && u.role.Some?
  {
    UserResponse(u.id.value, u.name, u.email, u.role.value)
  }

  class UserUseCase {
    const repo: Store
    const cfg: Config
    const lib: JwtLib
    const hasher: Hasher
    const parseAddress: AddressParser

    constructor (repo: Store, cfg: Config, lib: JwtLib, hasher: Hasher, parseAddress: AddressParser)
      ensures this.repo == repo && this.cfg == cfg && this.lib == lib
      ensures this.hasher == hasher && this.parseAddress == parseAddress
    {
      this.repo := repo;
      this.cfg := cfg;
      this.lib := lib;
      this.hasher := hasher;
      this.parseAddress := parseAddress;
    }

    /** The signup input passes all three validators. */
    predicate ValidSignup(u: Entity.User) {
      ValidateEmail(parseAddress, u.email).None? && ValidatePassword(u.password).None? && ValidateRole(u.role).None?
    }

    /** Signup. Checks email, then password, then role, and stops at the first
        failure without touching the caller's user or the store. Otherwise
        replaces the caller's password by its hash, fills in the default role
        `regular` when none was given, and inserts. */
    method Create(user: UserRef, faults: Faults) returns (r: Result<Entity.User>)
      requires repo.Valid()
      modifies user, repo`users, repo`emailIndex, repo`nextId
      ensures repo.Valid()
      ensures ValidateEmail(parseAddress, old(user.value.email)).Some? ==>
        r == Err(ValidateEmail(parseAddress, old(user.value.email)).value)
      ensures ValidateEmail(parseAddress, old(user.value.email)).None? && ValidatePassword(old(user.value.password)).Some? ==>
        r == Err(ValidatePassword(old(user.value.password)).value)
      ensures (&& ValidateEmail(parseAddress, old(user.value.email)).None?
               && ValidatePassword(old(user.value.password)).None?
               && ValidateRole(old(user.value.role)).Some?) ==>
        r == Err(ValidateRole(old(user.value.role)).value)
      ensures (!ValidSignup(old(user.value)) || hasher.hash(old(user.value.password)).Err?) ==>
          user.value == old(user.value) && unchanged(repo)
      ensures ValidSignup(old(user.value)) && hasher.hash(old(user.value.password)).Err? ==> r == Err(hasher.hash(old(user.value.password)).error)
      ensures ValidSignup(old(user.value)) && hasher.hash(old(user.value.password)).Ok? ==>
          && user.value == old(user.value).(
               password := hasher.hash(old(user.value.password)).value,
               role := if old(user.value.role).None? then Some("regular") else old(user.value.role))
          && user.value.role.Some? && IsRole(user.value.role.value)
      // past validation and hashing, the outcome is the repository insert's
      ensures ValidSignup(old(user.value)) && hasher.hash(old(user.value.password)).Ok? && faults.userInsert.Some? ==>
          r == Err(InsertError(faults.userInsert.value)) && unchanged(repo)
      ensures (&& ValidSignup(old(user.value)) && hasher.hash(old(user.value.password)).Ok? && faults.userInsert.None?
         && old(user.value.email) in old(repo.emailIndex)) ==>
          r == Err(ValidationError("email", "email already exists")) && unchanged(repo)
      ensures (&& ValidSignup(old(user.value)) && hasher.hash(old(user.value.password)).Ok? && faults.userInsert.None?
         && old(user.value.email) !in old(repo.emailIndex) && faults.lastInsertId.Some?) ==>
          r == Err(Store(faults.lastInsertId.value))
      ensures (&& ValidSignup(old(user.value)) && hasher.hash(old(user.value.password)).Ok? && faults.userInsert.None?
         && old(user.value.email) !in old(repo.emailIndex) && faults.lastInsertId.None? && faults.userRead.Some?) ==>
          r == Err(Store(faults.userRead.value))
      ensures (&& ValidSignup(old(user.value)) && hasher.hash(old(user.value.password)).Ok? && faults.userInsert.None?
         && old(user.value.email) !in old(repo.emailIndex)) ==>
          && user.value.role.Some?
          && repo.users == old(repo.users)[old(repo.nextId) :=
               UserRow(old(user.value.name), old(user.value.email), user.value.role.value, user.value.password)]
          && repo.emailIndex == old(repo.emailIndex)[old(user.value.email) := old(repo.nextId)]
          && repo.nextId == old(repo.nextId) + 1
      ensures r.Ok? <==>
        && ValidSignup(old(user.value))
        && hasher.hash(old(user.value.password)).Ok?
        && old(user.value.email) !in old(repo.emailIndex)
        && faults.userInsert.None? && faults.lastInsertId.None? && faults.userRead.None?
      ensures r.Ok? ==>
        && r.value == Entity.User(Some(old(repo.nextId)), old(user.value.name), old(user.value.email), user.value.role, "")
        && repo.users == old(repo.users)[old(repo.nextId) :=
             UserRow(old(user.value.name), old(user.value.email), user.value.role.value, user.value.password)]
        && repo.emailIndex == old(repo.emailIndex)[old(user.value.email) := old(repo.nextId)]
    {
      var invalid := ValidateEmail(parseAddress, user.value.email);
      if invalid.Some? {
        return Err(invalid.value);
      }
      invalid := ValidatePassword(user.value.password);
      if invalid.Some? {
        return Err(invalid.value);
      }
      invalid := ValidateRole(user.value.role);
      if invalid.Some? {
        return Err(invalid.value);
      }
      var hashed := hasher.hash(user.value.password);
      if hashed.Err? {
        return Err(hashed.error);
      }
      user.value := user.value.(password := hashed.value);
      if user.value.role.None? {
        user.value := user.value.(role := Some("regular"));
      }
      r := repo.Create(user.value, faults.userInsert, faults.lastInsertId, faults.userRead);
    }

    /** Sign-in. Checks email and password before the lookup, returns a
        lookup failure as it is, refuses a wrong password on the `password`
        field, and otherwise issues a token pair for the stored user. Only the
        user table is read; the ledger is neither read nor written. */
    function Login(login: Credentials, now: int, lookupFault: Option<StoreError>): (r: Result<Token>)
      requires repo.Valid()
      reads repo`users, repo`emailIndex, repo`nextId
      ensures ValidateEmail(parseAddress, login.email).Some? ==> r == Err(ValidateEmail(parseAddress, login.email).value)
      ensures ValidateEmail(parseAddress, login.email).None? && ValidatePassword(login.password).Some? ==>
        r == Err(ValidatePassword(login.password).value)
      ensures (&& ValidateEmail(parseAddress, login.email).None? && ValidatePassword(login.password).None?
               && repo.GetByEmail(login.email, lookupFault).Err?) ==>
        r == Err(repo.GetByEmail(login.email, lookupFault).error)
      ensures (&& ValidateEmail(parseAddress, login.email).None? && ValidatePassword(login.password).None?
               && repo.GetByEmail(login.email, lookupFault).Ok?
               && !hasher.check(login.password, repo.GetByEmail(login.email, lookupFault).value.password)) ==>
        r == Err(ValidationError("password", "password tidak valid"))
      ensures (&& ValidateEmail(parseAddress, login.email).None? && ValidatePassword(login.password).None?
               && lookupFault.None? && login.email in repo.emailIndex
               && hasher.check(login.password, repo.users[repo.emailIndex[login.email]].password)) ==>
        var id := repo.emailIndex[login.email];
        r == GenerateTokens(lib, cfg, id, login.email, repo.users[id].role, now)
      ensures r.Ok? ==>
        && lookupFault.None? && login.email in repo.emailIndex
        && var id := repo.emailIndex[login.email];
        && hasher.check(login.password, repo.users[id].password)
        && Ok(r.value) == GenerateTokens(lib, cfg, id, login.email, repo.users[id].role, now)
      ensures Lawful(lib) && r.Ok? ==>
        && ParseAndValidateToken(lib, cfg, r.value.access, now).Ok?
        && ParseAndValidateToken(lib, cfg, r.value.access, now).value.email == login.email
    {
      if ValidateEmail(parseAddress, login.email).Some? then
        Err(ValidateEmail(parseAddress, login.email).value)
      else if ValidatePassword(login.password).Some? then
        Err(ValidatePassword(login.password).value)
      else
        match repo.GetByEmail(login.email, lookupFault)
        case Err(e) => Err(e)
        case Ok(user) =>
          if !hasher.check(login.password, user.password) then
            Err(ValidationError("password", "password tidak valid"))
          else
            GenerateTokens(lib, cfg, user.id.value, user.email, user.role.value, now)
    }

    /** Profile lookup: an invalid email is refused without a lookup;
        otherwise the lookup's outcome is returned as it is. */
    function User(email: string, lookupFault: Option<StoreError>): (r: Result<Entity.User>)
      requires repo.Valid()
      reads repo`users, repo`emailIndex, repo`nextId
      ensures ValidateEmail(parseAddress, email).Some? ==> r == Err(ValidateEmail(parseAddress, email).value)
      ensures ValidateEmail(parseAddress, email).None? ==> r == repo.GetByEmail(email, lookupFault)
      ensures r.Ok? ==> r.value.email == email
    {
      if ValidateEmail(parseAddress, email).Some? then
        Err(ValidateEmail(parseAddress, email).value)
      else
        match repo.GetByEmail(email, lookupFault)
        case Err(e) => Err(e)
        case Ok(user) => Ok(user)
    }

    /** The profile response of a found user is its stored row: id, name,
        email and role, and nothing of the password. */
    lemma ProfileShowsStoredRow(email: string)
      requires repo.Valid()
      requires User(email, None).Ok?
      ensures email in repo.emailIndex
      ensures var id := repo.emailIndex[email];
        ToUserResponse(User(email, None).value) == UserResponse(id, repo.users[id].name, email, repo.users[id].role)
    {
    }

    /** Refresh-token rotation: ledger check, parse, re-fetch the user by the
        id in the token, issue a new pair, and only then record the presented
        token as consumed. Any failure returns no tokens and leaves the ledger
        as it was; success adds exactly the row (user id, presented token). */
    method RefreshToken(refreshToken: string, now: int, faults: Faults) returns (r: Result<Token>)
      modifies repo`blacklist
      // a consumed token is never redeemed again, whatever the store does
      ensures refreshToken in old(repo.blacklist) ==> r.Err?
      // and, when the ledger answers, it is refused as reuse before parsing
      ensures refreshToken in old(repo.blacklist) && faults.ledgerRead.None? ==> r == Err(TokenReused)
      ensures r.Err? && r.error.AppError? <==> refreshToken in old(repo.blacklist) && faults.ledgerRead.None?
      ensures faults.ledgerRead.Some? && faults.ledgerRead != Some(NoRows) ==>
        r == Err(Store(faults.ledgerRead.value))
      ensures (&& refreshToken !in old(repo.blacklist) && faults.ledgerRead.None?
               && ParseAndValidateRefreshToken(lib, cfg, refreshToken, now).Err?) ==>
        r == Err(ParseAndValidateRefreshToken(lib, cfg, refreshToken, now).error)
      // a failed user lookup, signing or ledger insert returns no tokens
      ensures faults.userRead.Some? || !lib.hashAvailable(HS256) || faults.ledgerWrite.Some? ==> r.Err?
      ensures r.Err? ==> repo.blacklist == old(repo.blacklist)
      ensures r.Ok? ==>
        && refreshToken !in old(repo.blacklist)
        && var claims := ParseAndValidateRefreshToken(lib, cfg, refreshToken, now);
        && claims.Ok? && claims.value.userID in repo.users
        && var row := repo.users[claims.value.userID];
        && Ok(r.value) == GenerateTokens(lib, cfg, claims.value.userID, row.email, row.role, now)
        && repo.blacklist == old(repo.blacklist)[refreshToken := claims.value.userID]
      ensures
        && refreshToken !in old(repo.blacklist) && (faults.ledgerRead.None? || faults.ledgerRead == Some(NoRows))
        && ParseAndValidateRefreshToken(lib, cfg, refreshToken, now).Ok?
        && ParseAndValidateRefreshToken(lib, cfg, refreshToken, now).value.userID in repo.users
        && faults.userRead.None? && lib.hashAvailable(HS256) && faults.ledgerWrite.None? ==>
        r.Ok?
    {
      var (isBlacklisted, err) := repo.IsRefreshTokenBlacklisted(refreshToken, faults.ledgerRead);
      if err.Some? {
        return Err(err.value);
      }
      if isBlacklisted {
        return Err(TokenReused);
      }
      var claims := ParseAndValidateRefreshToken(lib, cfg, refreshToken, now);
      if claims.Err? {
        return Err(claims.error);
      }
      var user := repo.GetByID(claims.value.userID, faults.userRead);
      if user.Err? {
        return Err(user.error);
      }
      var token := GenerateTokens(lib, cfg, user.value.id.value, user.value.email, user.value.role.value, now);
      if token.Err? {
        return Err(token.error);
      }
      var addErr := repo.AddBlacklistToken(user.value.id.value, refreshToken, faults.ledgerWrite);
      if addErr.Some? {
        return Err(addErr.value);
      }
      return Ok(token.value);
    }
  }

  /** The reuse law: once a rotation of `t` has succeeded, presenting `t`
      again fails, and is reported as `token_invalid` when the ledger answers,
      although `t` itself still parses. */
  method RotateThenReplay(uc: UserUseCase, t: string, now: int, later: int, first: Faults, second: Faults)
    returns (rotated: Result<Token>, replayed: Result<Token>)
    modifies uc.repo`blacklist
    ensures rotated.Ok? ==> ParseAndValidateRefreshToken(uc.lib, uc.cfg, t, now).Ok?
    ensures rotated.Ok? ==> replayed.Err?
    ensures rotated.Ok? && second.ledgerRead.None? ==> replayed == Err(TokenReused)
    ensures rotated.Ok? ==> t in uc.repo.blacklist
  {
    rotated := uc.RefreshToken(t, now, first);
    replayed := uc.RefreshToken(t, later, second);
  }

  /** Signup followed by sign-in with the same email and password succeeds
      (when the store answers and signing works), and the access token
      carries that email. */
  method SignupThenLogin(uc: UserUseCase, user: UserRef, faults: Faults, now: int)
    returns (created: Result<Entity.User>, session: Result<Token>)
    requires uc.repo.Valid()
    requires Lawful(uc.lib) && HashLawful(uc.hasher)
    modifies user, uc.repo`users, uc.repo`emailIndex, uc.repo`nextId
    ensures created.Ok? && uc.lib.hashAvailable(HS256) ==>
      && session.Ok?
      && ParseAndValidateToken(uc.lib, uc.cfg, session.value.access, now).Ok?
      && ParseAndValidateToken(uc.lib, uc.cfg, session.value.access, now).value.email == old(user.value.email)
  {
    var email, password := user.value.email, user.value.password;
    created := uc.Create(user, faults);
    session := uc.Login(Credentials(email, password), now, None);
  }
}
