/** The persistent store: the `user` table and the `blacklist_token` ledger of
    redeemed refresh tokens. Every statement can fail; the failure a statement
    reports is passed in as `fault` (`None` when the database answers
    normally), so each operation is deterministic in its inputs. */
module Repository {
  import opened Entity

  /** A row of the `user` table; the `role` column is NOT NULL. */
  datatype UserRow = UserRow(name: string, email: string, role: string, password: string)

  /** MySQL error 1062: a UNIQUE key already holds the value. */
  predicate IsDuplicateKey(e: StoreError) {
    e.MySql? && e.number == 1062
  }

  /** How both inserts report a failed INSERT: a duplicate key becomes the
      signup "email already exists" error, any other failure passes through. */
  function InsertError(e: StoreError): (r: Error)
    ensures r.ValidationError? <==> IsDuplicateKey(e)
    ensures IsDuplicateKey(e) ==> r == ValidationError("email", "email already exists")
    ensures !IsDuplicateKey(e) ==> r == Store(e)
  {
    if IsDuplicateKey(e) then ValidationError("email", "email already exists") else Store(e)
  }

  class Store {
    /** `user`, keyed by its AUTO_INCREMENT id. */
    var users: map<int, UserRow>
    /** The UNIQUE key on `user.email`. */
    var emailIndex: map<string, int>
    /** The next AUTO_INCREMENT value. */
    var nextId: int
    /** `blacklist_token`: refresh token (UNIQUE) to the id of its user. */
    var blacklist: map<string, int>

    ghost predicate Valid()
      reads this`users, this`emailIndex, this`nextId
    {
      && (forall e :: e in emailIndex ==> emailIndex[e] in users && users[emailIndex[e]].email == e)
      && (forall id :: id in users ==> users[id].email in emailIndex && emailIndex[users[id].email] == id)
      && 0 < nextId
      && (forall id :: id in users ==> 0 < id < nextId)
    }

    constructor ()
      ensures Valid()
      ensures users == map[] && emailIndex == map[] && nextId == 1 && blacklist == map[]
    {
      users, emailIndex, nextId, blacklist := map[], map[], 1, map[];
    }

    /** No two users share an email. */
    lemma EmailIsUnique(i: int, j: int)
      requires Valid()
      requires i in users && j in users && users[i].email == users[j].email
      ensures i == j
    {
    }

    /** `select id, name, email, role, password from user where email = ?` */
    function GetByEmail(email: string, fault: Option<StoreError>): (r: Result<User>)
      requires Valid()
      reads this`users, this`emailIndex, this`nextId
      ensures fault.Some? ==> r == Err(Store(fault.value))
      ensures fault.None? ==> (r.Ok? <==> exists id :: id in users && users[id].email == email)
      ensures fault.None? && r.Err? ==> r == Err(Store(NoRows))
      ensures r.Ok? ==>
        && r.value.id.Some? && r.value.id.value in users
        && var row := users[r.value.id.value];
        && r.value == User(r.value.id, row.name, row.email, Some(row.role), row.password)
        && row.email == email
    {
      if fault.Some? then Err(Store(fault.value))
      else if email !in emailIndex then Err(Store(NoRows))
      else
        var id := emailIndex[email];
        var row := users[id];
        Ok(User(Some(id), row.name, row.email, Some(row.role), row.password))
    }

    /** `select id, name, email, role from user where id = ?`: the password
        column is not read, so the returned password is empty. */
    function GetByID(id: int, fault: Option<StoreError>): (r: Result<User>)
      reads this`users
      ensures r.Ok? <==> fault.None? && id in users
      ensures fault.Some? ==> r == Err(Store(fault.value))
      ensures fault.None? && id !in users ==> r == Err(Store(NoRows))
      ensures r.Ok? ==> r.value == User(Some(id), users[id].name, users[id].email, Some(users[id].role), "")
    {
      if fault.Some? then Err(Store(fault.value))
      else if id !in users then Err(Store(NoRows))
      else Ok(User(Some(id), users[id].name, users[id].email, Some(users[id].role), ""))
    }

    /** `insert into user (name, email, role, password) values (?, ?, ?, ?)`:
        the NOT NULL and UNIQUE constraints are checked, and a successful
        insert takes the next AUTO_INCREMENT id, returned as `lastId`. */
    method InsertUser(data: User, fault: Option<StoreError>) returns (err: Option<StoreError>, lastId: int)
      requires Valid()
      modifies this`users, this`emailIndex, this`nextId
      ensures Valid()
      ensures err.None? <==> fault.None? && data.role.Some? && data.email !in old(emailIndex)
      ensures fault.Some? ==> err == fault
      ensures fault.None? && data.role.None? ==> err == Some(MySql(1048, "Column 'role' cannot be null"))
      ensures fault.None? && data.role.Some? && data.email in old(emailIndex) ==>
        err == Some(MySql(1062, "Duplicate entry for key 'email'"))
      ensures err.None? ==>
        && lastId == old(nextId)
        && users == old(users)[lastId := UserRow(data.name, data.email, data.role.value, data.password)]
        && emailIndex == old(emailIndex)[data.email := lastId]
        && nextId == old(nextId) + 1
      ensures err.Some? ==> users == old(users) && emailIndex == old(emailIndex) && nextId == old(nextId)
    {
      lastId := 0;
      if fault.Some? {
        err := fault;
      } else if data.role.None? {
        err := Some(MySql(1048, "Column 'role' cannot be null"));
      } else if data.email in emailIndex {
        err := Some(MySql(1062, "Duplicate entry for key 'email'"));
      } else {
        lastId := nextId;
        users := users[lastId := UserRow(data.name, data.email, data.role.value, data.password)];
        emailIndex := emailIndex[data.email := lastId];
        nextId := nextId + 1;
        err := None;
      }
    }

    /** `Create` as the source has it: when `LastInsertId` fails after a
        successful insert, it returns the insert's error, which is nil, so
        the caller gets neither a user nor an error while the row is stored. */
    method CreateAsWritten(data: User, execFault: Option<StoreError>, idFault: Option<StoreError>, readFault: Option<StoreError>)
      returns (u: Option<User>, err: Option<Error>)
      requires Valid()
      modifies this`users, this`emailIndex, this`nextId
      ensures Valid()
      ensures execFault.None? && data.role.Some? && data.email !in old(emailIndex) && idFault.Some? ==>
        && u.None? && err.None?
        && old(nextId) in users && users[old(nextId)].email == data.email
      ensures idFault.None? ==> (u.Some? <==> err.None?)
      ensures execFault.None? && data.role.Some? && data.email in old(emailIndex) ==>
        u.None? && err == Some(ValidationError("email", "email already exists"))
    {
      var execErr, id := InsertUser(data, execFault);
      if execErr.Some? {
        return None, Some(InsertError(execErr.value));
      }
      if idFault.Some? {
        // the source returns the insert's error here, which is nil
        return None, None;
      }
      var r := GetByID(id, readFault);
      if r.Err? {
        return None, Some(r.error);
      }
      return Some(r.value), None;
    }

    /** Signup insert, then re-read of the new row by id. A duplicate email
        is a validation error on `email`; a failure of `LastInsertId` is
        reported as that failure. */
    method Create(data: User, execFault: Option<StoreError>, idFault: Option<StoreError>, readFault: Option<StoreError>)
      returns (r: Result<User>)
      requires Valid()
      modifies this`users, this`emailIndex, this`nextId
      ensures Valid()
      ensures execFault.None? && data.role.Some? && data.email in old(emailIndex) ==>
        r == Err(ValidationError("email", "email already exists"))
      ensures execFault.Some? ==> r == Err(InsertError(execFault.value))
      ensures execFault.None? && data.role.None? ==> r == Err(Store(MySql(1048, "Column 'role' cannot be null")))
      ensures r.Ok? <==>
        execFault.None? && data.role.Some? && data.email !in old(emailIndex) && idFault.None? && readFault.None?
      ensures execFault.None? && data.role.Some? && data.email !in old(emailIndex) && idFault.Some? ==>
        r == Err(Store(idFault.value))
      ensures execFault.None? && data.role.Some? && data.email !in old(emailIndex) && idFault.None? && readFault.Some? ==>
        r == Err(Store(readFault.value))
      ensures r.Ok? ==> r.value == User(Some(old(nextId)), data.name, data.email, data.role, "")
      ensures if execFault.None? && data.role.Some? && data.email !in old(emailIndex) then
          && users == old(users)[old(nextId) := UserRow(data.name, data.email, data.role.value, data.password)]
          && emailIndex == old(emailIndex)[data.email := old(nextId)]
          && nextId == old(nextId) + 1
        else
          users == old(users) && emailIndex == old(emailIndex) && nextId == old(nextId)
    {
      var execErr, id := InsertUser(data, execFault);
      if execErr.Some? {
        return Err(InsertError(execErr.value));
      }
      if idFault.Some? {
        return Err(Store(idFault.value));
      }
      r := GetByID(id, readFault);
    }

    /** `SELECT 1 FROM blacklist_token WHERE refresh_token = ?`: no row means
        not blacklisted; any other failure is returned with `false`. A `fault`
        of `NoRows` for a token that is in the ledger is the stale read of two
        concurrent rotations: the other one inserted the row after this read. */
    function IsRefreshTokenBlacklisted(token: string, fault: Option<StoreError>): (r: (bool, Option<Error>))
      reads this`blacklist
      ensures fault.None? ==> r == (token in blacklist, None)
      ensures fault == Some(NoRows) ==> r == (false, None)
      ensures fault.Some? && fault != Some(NoRows) ==> r == (false, Some(Store(fault.value)))
    {
      var err := if fault.Some? then fault else if token in blacklist then None else Some(NoRows);
      if err == Some(NoRows) then (false, None)
      else if err.Some? then (false, Some(Store(err.value)))
      else (true, None)
    }

    /** `insert into blacklist_token (user_id, refresh_token) values (?, ?)`:
        one new row on success; a second row for the same token violates the
        UNIQUE key. Rotation reaches that case only after a stale ledger read
        (see `IsRefreshTokenBlacklisted`). */
    method AddBlacklistToken(userID: int, token: string, fault: Option<StoreError>) returns (err: Option<Error>)
      modifies this`blacklist
      ensures err.None? <==> fault.None? && token !in old(blacklist)
      ensures err.None? ==> blacklist == old(blacklist)[token := userID]
      ensures err.Some? ==> blacklist == old(blacklist)
      ensures fault.None? && token in old(blacklist) ==> err == Some(ValidationError("email", "email already exists"))
      ensures fault.Some? ==> err == Some(InsertError(fault.value))
    {
      var execErr: Option<StoreError>;
      if fault.Some? {
        execErr := fault;
      } else if token in blacklist {
        execErr := Some(MySql(1062, "Duplicate entry for key 'refresh_token'"));
      } else {
        blacklist := blacklist[token := userID];
        execErr := None;
      }
      if execErr.Some? {
        return Some(InsertError(execErr.value));
      }
      return None;
    }
  }
}
