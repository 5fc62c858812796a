/** The user table and the two authentication handlers: registration, which
    refuses a taken username and otherwise stores one user with a hashed
    password, and login, which checks the password and issues a token.
    Hashing and hash verification are the password library's and are passed in. */
module Accounts {
  import opened Outcomes
  import opened Tokens

  const USERNAME_TAKEN: string := "Username already exists"
  const INVALID_CREDENTIALS: string := "Invalid credentials"
  const BEARER: string := "bearer"

  /** A stored user; `password` holds the password hash, never the password. */
  datatype User = User(id: int, username: string, password: string, email: string)

  /** The table invariant: ids increase in storage order and usernames are unique. */
  predicate WellFormed(users: seq<User>) {
    && (forall i, j :: 0 <= i < j < |users| ==> users[i].id < users[j].id)
    && (forall i, j :: 0 <= i < j < |users| ==> users[i].username != users[j].username)
  }

  predicate Taken(users: seq<User>, username: string) {
    exists u :: u in users && u.username == username
  }

  /** The first user with the given username, if any (`query(...).first()`). */
  function FindByUsername(users: seq<User>, username: string): (r: Option<User>)
    ensures r.None? <==> !Taken(users, username)
    ensures r.Some? ==>
              exists i :: 0 <= i < |users| && users[i] == r.value && r.value.username == username &&
                          forall k :: 0 <= k < i ==> users[k].username != username
  {
    if |users| == 0 then None
    else if users[0].username == username then Some(users[0])
    else
      var r := FindByUsername(users[1..], username);
      assert forall u :: u in users[1..] ==> u in users;
      assert forall u :: u in users ==> u == users[0] || u in users[1..];
      if r.Some? then
        var i :| 0 <= i < |users[1..]| && users[1..][i] == r.value &&
                 r.value.username == username &&
                 forall k :: 0 <= k < i ==> users[1..][k].username != username;
        assert users[i + 1] == r.value;
        r
      else r
  }

  /** The id the table assigns to the next inserted user. */
  function NextUserId(users: seq<User>): (id: int)
    ensures WellFormed(users) ==> forall u :: u in users ==> u.id < id
  {
    if |users| == 0 then 1 else users[|users| - 1].id + 1
  }

  /** The user table after a registration request, and its response. */
  datatype Registration = Registration(users: seq<User>, result: Result<User>)

  /** The registration handler; `hash` is the password hashing function and
      `committed` says whether the database accepted the insert. The handler
      does not catch a failed commit, so it surfaces as a 500 and no user is
      stored. */
  function Register(users: seq<User>, username: string, password: string, email: string,
                    hash: string -> string, committed: bool): (r: Registration)
    ensures r.result.Ok? <==> !Taken(users, username) && committed
    ensures Taken(users, username) ==>
              r == Registration(users, Err(Failure(BAD_REQUEST, USERNAME_TAKEN)))
    ensures !Taken(users, username) && !committed ==>
              r == Registration(users, Err(Failure(INTERNAL_SERVER_ERROR, UNHANDLED_ERROR)))
    ensures !Taken(users, username) && committed ==>
              && r.result.Ok?
              && r.users == users + [r.result.value]
              && r.result.value.username == username
              && r.result.value.password == hash(password)
              && r.result.value.email == email
    ensures WellFormed(users) && r.result.Ok? ==> forall u :: u in users ==> u.id < r.result.value.id
    ensures WellFormed(users) ==> WellFormed(r.users)
  {
    if FindByUsername(users, username).Some? then
      Registration(users, Err(Failure(BAD_REQUEST, USERNAME_TAKEN)))
    else
      var hashedPw := hash(password);
      var newUser := User(NextUserId(users), username, hashedPw, email);
      if committed then Registration(users + [newUser], Ok(newUser))
      else Registration(users, Err(Failure(INTERNAL_SERVER_ERROR, UNHANDLED_ERROR)))
  }

  /** The login handler's successful response. */
  datatype LoginResponse = LoginResponse(accessToken: string, tokenType: string, username: string, userId: int)

  /** The claims a login puts in its token. */
  function LoginClaims(u: User): (p: Payload)
    ensures p.Keys == {"sub", "id"}
    ensures p["sub"] == Text(u.username) && p["id"] == Number(u.id)
  {
    map["sub" := Text(u.username), "id" := Number(u.id)]
  }

  /** The login handler; `verify` checks a password against a stored hash,
      `now` is the issuance time in seconds. */
  function Login(users: seq<User>, username: string, password: string,
                 verify: (string, string) -> bool, signer: Signer, now: int): (r: Result<LoginResponse>)
    ensures !Taken(users, username) ==> r == Err(Failure(UNAUTHORIZED, INVALID_CREDENTIALS))
    ensures r.Err? ==> r.failure == Failure(UNAUTHORIZED, INVALID_CREDENTIALS)
    ensures r.Ok? ==>
              exists u :: u in users && u.username == username && verify(password, u.password) &&
                          r.value == LoginResponse(CreateAccessToken(LoginClaims(u), now, signer), BEARER, u.username, u.id)
  {
    match FindByUsername(users, username)
    case None => Err(Failure(UNAUTHORIZED, INVALID_CREDENTIALS))
    case Some(user) =>
      if !verify(password, user.password) then Err(Failure(UNAUTHORIZED, INVALID_CREDENTIALS))
      else
        var token := CreateAccessToken(LoginClaims(user), now, signer);
        Ok(LoginResponse(token, BEARER, user.username, user.id))
  }

  /** On a well-formed table, login succeeds exactly when some user has the
      username and the password verifies against that user's stored hash. */
  lemma LoginSucceedsIff(users: seq<User>, username: string, password: string,
                         verify: (string, string) -> bool, signer: Signer, now: int)
    requires WellFormed(users)
    ensures Login(users, username, password, verify, signer, now).Ok? <==>
            exists u :: u in users && u.username == username && verify(password, u.password)
  {
    var found := FindByUsername(users, username);
    if found.Some? {
      forall u | u in users && u.username == username
        ensures u == found.value
      {
        var i :| 0 <= i < |users| && users[i] == u;
        var k :| 0 <= k < |users| && users[k] == found.value;
        assert users[i].username == users[k].username;
      }
    }
  }

  /** Registering a fresh username and then logging in with the same password
      succeeds for the new user, provided the password verifies against its
      own hash; the token it returns authorises the new user's id for an hour. */
  lemma RegisterThenLogin(users: seq<User>, username: string, password: string, email: string,
                          hash: string -> string, verify: (string, string) -> bool,
                          signer: Signer, now: int, later: int)
    requires WellFormed(users) && !Taken(users, username)
    requires verify(password, hash(password))
    requires Sound(signer)
    ensures var reg := Register(users, username, password, email, hash, true);
            var r := Login(reg.users, username, password, verify, signer, now);
            && r.Ok?
            && r.value.tokenType == BEARER
            && r.value.username == username
            && r.value.userId == reg.result.value.id
            && GetCurrentUserId(r.value.accessToken, signer, later) ==
                 if later <= ExpiryFor(now) then Ok(Number(reg.result.value.id))
                 else Err(Failure(UNAUTHORIZED, INVALID_TOKEN))
  {
    var reg := Register(users, username, password, email, hash, true);
    var newUser := reg.result.value;
    assert newUser in reg.users;
    LoginSucceedsIff(reg.users, username, password, verify, signer, now);
    var r := Login(reg.users, username, password, verify, signer, now);
    var u :| u in reg.users && u.username == username && verify(password, u.password) &&
             r.value == LoginResponse(CreateAccessToken(LoginClaims(u), now, signer), BEARER, u.username, u.id);
    assert u == newUser;
    IssuedTokenAuthorizes(LoginClaims(u), now, later, signer);
  }

  /** Registering the same username twice: once the first attempt is
      committed, the second is refused with 400 (whatever the database would
      do with it) and leaves the table as the first one left it. */
  lemma RegisterTwice(users: seq<User>, username: string, password: string, email: string,
                      password2: string, email2: string, hash: string -> string, committed2: bool)
    requires !Taken(users, username)
    ensures var first := Register(users, username, password, email, hash, true);
            var second := Register(first.users, username, password2, email2, hash, committed2);
            && first.result.Ok?
            && second == Registration(first.users, Err(Failure(BAD_REQUEST, USERNAME_TAKEN)))
  {
    var first := Register(users, username, password, email, hash, true);
    assert first.result.value in first.users;
  }
}
