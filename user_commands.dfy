/**
 * register and login. The user table, the password hashing and the clock
 * are outside the model: each command receives them as functions, and a
 * small reference table at the end shows that the two commands fit together.
 */
module UserCommands {
  import opened Util
  import opened Models
  import opened Envelope

  const MIN_PASSWORD_LENGTH: nat := 8
  const MAX_USERNAME_LENGTH: nat := 50

  const LOGIN_TOO_LONG: string := "Username length must be less than 50"
  const PASSWORD_TOO_SHORT: string := "Password length must be at least 8"
  const ALREADY_EXISTS: string := "User already exists"
  const NOT_VALID: string := "User not registered, user fields are not valid!"
  const REGISTERED: string := "User successfully registered"

  /** PasswordHashing.hashPassword: the hash and the fresh salt. */
  datatype Hashed = Hashed(hash: string, salt: string)

  /**
   * Register.execute. Besides the reply, the user handed to insertUser, if
   * the command got that far and the database gave back an id.
   */
  function RegisterResult(req: RequestView, hash: string -> Hashed, now: Time, insert: User -> Outcome<Int32>)
    : (Reply, Option<User>)
  {
    if req.login.None? then (Responded(Response(false, Some(FaultText(NullPointer)), Some(IntData(-1)))), None)
    else if |req.login.value| >= MAX_USERNAME_LENGTH then (Responded(Fail(LOGIN_TOO_LONG)), None)
    else if req.password.None? then (Responded(Response(false, Some(FaultText(NullPointer)), Some(IntData(-1)))), None)
    else if |req.password.value| < MIN_PASSWORD_LENGTH then (Responded(Fail(PASSWORD_TOO_SHORT)), None)
    else if req.userId.Some? then (Responded(Response(false, Some(ALREADY_EXISTS), None)), None)
    else
      var crypto := hash(req.password.value);
      var user := NewUser(req.login, Some(crypto.hash), Some(crypto.salt), Some(now));
      var id := insert(user);
      if id.Thrown? then (Responded(Response(false, Some(FaultText(id.fault)), Some(IntData(-1)))), None)
      else if id.value < 0 then (Responded(Response(false, Some(ALREADY_EXISTS), None)), None)
      else
        var stored := user.(id := Some(id.value));
        if !ValidUser(stored) then (Responded(Fail(NOT_VALID)), Some(stored))
        else (Responded(Response(true, Some(REGISTERED), Some(IntData(id.value)))), Some(stored))
  }

  /**
   * Registration succeeds exactly when the login is under 50 characters,
   * the password at least 8, the request carries no user id, the database
   * hands back a non-negative id and the new user validates; the reply then
   * carries that id, and the stored user has the login, the hash and salt
   * of the password and the current time.
   */
  lemma RegisterContract(req: RequestView, hash: string -> Hashed, now: Time, insert: User -> Outcome<Int32>)
    ensures var (reply, stored) := RegisterResult(req, hash, now, insert);
      reply.Responded?
      && (reply.response.success <==>
            req.login.Some? && req.password.Some?
            && |req.login.value| < 50 && |req.password.value| >= 8 && req.userId.None?
            && var crypto := hash(req.password.value);
               var user := NewUser(req.login, Some(crypto.hash), Some(crypto.salt), Some(now));
               insert(user).Done? && insert(user).value >= 0 && ValidUser(user.(id := Some(insert(user).value))))
      && (reply.response.success ==>
            stored.Some? && stored.value.id.Some?
            && reply.response.data == Some(IntData(stored.value.id.value))
            && stored.value.username == req.login
            && stored.value.passwordHash == Some(hash(req.password.value).hash)
            && stored.value.salt == Some(hash(req.password.value).salt)
            && stored.value.registrationDate == Some(now))
  {
  }

  /** A request refused for its own fields never reaches the database. */
  lemma RegisterChecksBeforeInsert(req: RequestView, hash: string -> Hashed, now: Time, insert: User -> Outcome<Int32>)
    requires req.login.None? || req.password.None? || |req.login.value| >= 50
             || |req.password.value| < 8 || req.userId.Some?
    ensures RegisterResult(req, hash, now, insert).1.None?
    ensures !RegisterResult(req, hash, now, insert).0.response.success
  {
  }

  /**
   * The login is checked before the password is touched: a login of 50
   * characters or more is refused for its length even when the password
   * is missing, and a missing login or password is a NullPointerException.
   */
  lemma RegisterCheckOrder(req: RequestView, hash: string -> Hashed, now: Time, insert: User -> Outcome<Int32>)
    ensures req.login.Some? && |req.login.value| >= 50 ==>
      RegisterResult(req, hash, now, insert).0 == Responded(Fail(LOGIN_TOO_LONG))
    ensures req.login.None? || (|req.login.value| < 50 && req.password.None?) ==>
      RegisterResult(req, hash, now, insert).0 == Responded(Response(false, Some(FaultText(NullPointer)), Some(IntData(-1))))
  {
  }

  /**
   * The user is written to the database before it is validated: with a
   * salt shorter than 8 characters the user is stored and the reply still
   * says it was not registered.
   */
  lemma RegisterStoresBeforeValidating(req: RequestView, hash: string -> Hashed, now: Time, insert: User -> Outcome<Int32>)
    requires req.login.Some? && |req.login.value| < 50
    requires req.password.Some? && |req.password.value| >= 8 && req.userId.None?
    requires |hash(req.password.value).salt| < 8
    requires forall u :: insert(u) == Done(1)
    ensures RegisterResult(req, hash, now, insert).1.Some?
    ensures RegisterResult(req, hash, now, insert).0 == Responded(Fail(NOT_VALID))
  {
  }

  // ---------------------------------------------------------------------
  // login

  const BAD_CREDENTIALS: string := "Invalid username or password"
  const NOT_FOUND: string := "User not found"
  const NULL_ID: string := "User ID is null"
  const LOGGED_IN: string := "You have successfully logged in"

  /**
   * Login.execute, given the password check and the lookup by name; an
   * exception from either becomes a failure carrying its toString().
   */
  function LoginResult(req: RequestView, verify: (Option<string>, Option<string>) -> Outcome<bool>,
                       lookup: Option<string> -> Outcome<Option<User>>): Response
  {
    var ok := verify(req.login, req.password);
    if ok.Thrown? then Response(false, Some(FaultText(ok.fault)), None)
    else if !ok.value then Response(false, Some(BAD_CREDENTIALS), None)
    else
      var found := lookup(req.login);
      if found.Thrown? then Response(false, Some(FaultText(found.fault)), None)
      else if found.value.None? then Response(false, Some(NOT_FOUND), None)
      else if found.value.value.id.None? then Response(false, Some(NULL_ID), None)
      else
        var name := found.value.value.username;
        Response(true, Some(LOGGED_IN), if name.Some? then Some(TextData(name.value)) else None)
  }

  /**
   * Login succeeds exactly when the password checks out and the user found
   * under that name has an id; the reply then carries the stored name.
   */
  lemma LoginContract(req: RequestView, verify: (Option<string>, Option<string>) -> Outcome<bool>,
                      lookup: Option<string> -> Outcome<Option<User>>)
    ensures var r := LoginResult(req, verify, lookup);
      (r.success <==>
         verify(req.login, req.password) == Done(true)
         && lookup(req.login).Done? && lookup(req.login).value.Some? && lookup(req.login).value.value.id.Some?)
      && (r.success ==>
            r.message == Some(LOGGED_IN)
            && (lookup(req.login).value.value.username.Some? ==>
                  r.data == Some(TextData(lookup(req.login).value.value.username.value))))
      && (verify(req.login, req.password) == Done(false) ==> r == Response(false, Some(BAD_CREDENTIALS), None))
  {
  }

  // ---------------------------------------------------------------------
  // A reference user table

  /** The first user stored under a name, as the SELECT by username returns it. */
  function FindUser(table: seq<User>, name: Option<string>): (r: Option<User>)
    ensures r.Some? ==> r.value in table && r.value.username == name
    ensures r.None? ==> forall k :: 0 <= k < |table| ==> table[k].username != name
  {
    if table == [] then None
    else if table[0].username == name then Some(table[0])
    else FindUser(table[1..], name)
  }

  lemma {:induction false} FindUserAppend(table: seq<User>, u: User)
    requires forall k :: 0 <= k < |table| ==> table[k].username != u.username
    ensures FindUser(table + [u], u.username) == Some(u)
  {
    if table != [] {
      assert (table + [u])[1..] == table[1..] + [u];
      FindUserAppend(table[1..], u);
    } else {
      assert [u][0] == u;
    }
  }

  /**
   * verifyUserPassword against the table: a name with no user is a plain
   * false; otherwise the stored hash is compared with the password hashed
   * with the stored salt. hashPassword hashes salt + password, so a missing
   * password or salt is hashed as the text "null"; a missing stored hash
   * throws on equals.
   */
  function TableVerify(table: seq<User>, hashWith: (string, string) -> string, login: Option<string>, password: Option<string>)
    : (r: Outcome<bool>)
    ensures r.Thrown? <==> FindUser(table, login).Some? && FindUser(table, login).value.passwordHash.None?
    ensures r.Thrown? ==> r.fault == NullPointer
    ensures (forall k :: 0 <= k < |table| ==> table[k].username != login) ==> r == Done(false)
    ensures r == Done(true) ==>
      exists k :: 0 <= k < |table| && table[k].username == login
        && table[k].passwordHash == Some(hashWith(TextOf(password), TextOf(table[k].salt)))
  {
    var u := FindUser(table, login);
    if u.None? then Done(false)
    else if u.value.passwordHash.None? then Thrown(NullPointer)
    else Done(u.value.passwordHash.value == hashWith(TextOf(password), TextOf(u.value.salt)))
  }

  /** A missing password is checked as the password "null": nothing throws for it. */
  lemma TableVerifyNullPassword(table: seq<User>, hashWith: (string, string) -> string, login: Option<string>)
    ensures TableVerify(table, hashWith, login, None) == TableVerify(table, hashWith, login, Some("null"))
    ensures FindUser(table, login).Some? && FindUser(table, login).value.passwordHash.Some? ==>
      TableVerify(table, hashWith, login, None).Done?
  {
  }

  /**
   * A name not yet in the table, registered with a hash function that
   * agrees with the salted check, can log in right after with the same
   * credentials, and the reply names the registered user.
   */
  lemma RegisterThenLogin(table: seq<User>, req: RequestView, hash: string -> Hashed,
                          hashWith: (string, string) -> string, now: Time)
    requires forall k :: 0 <= k < |table| ==> table[k].username != req.login
    requires forall p :: hash(p).hash == hashWith(p, hash(p).salt)
    requires |table| + 1 < 0x8000_0000
    requires RegisterResult(req, hash, now, u => Done(|table| + 1)).0.response.success
    ensures var stored := RegisterResult(req, hash, now, u => Done(|table| + 1)).1;
      stored.Some?
      && var after := table + [stored.value];
         LoginResult(req, (n, p) => TableVerify(after, hashWith, n, p), n => Done(FindUser(after, n)))
           == Response(true, Some(LOGGED_IN), Some(TextData(req.login.value)))
  {
    var insert: User -> Outcome<Int32> := u => Done(|table| + 1);
    RegisterContract(req, hash, now, insert);
    var stored := RegisterResult(req, hash, now, insert).1.value;
    FindUserAppend(table, stored);
  }
}
