/** The older handlers of `src/api/auth.py`: a register with no schema and no email pre-check, and a
    login whose tokens name the row id. Their bodies are built with `jsonify` directly. */
module AuthApi {
  import opened Wrappers
  import opened Json
  import opened Responses
  import opened UserModel
  import opened Requests

  const USERNAME_TAKEN := "Username already taken!"
  const USER_CREATED := "User created successfully!"
  const INVALID_CREDENTIALS := "Invalid credentials!"

  /** A body holding just a message, as `jsonify({'message': m})` builds it. */
  function MessageOnly(m: string): (b: JsonObject)
    ensures b.Keys == {"message"} && b["message"] == JStr(m)
  {
    map["message" := JStr(m)]
  }

  /** The three fields the handler reads are present and are strings. */
  predicate StringFields(body: JsonObject) {
    && "username" in body && body["username"].JStr?
    && "email" in body && body["email"].JStr?
    && "password" in body && body["password"].JStr?
  }

  /** The register handler, answering a creation with `createdStatus`. Only the username is checked
      before the write; a taken email, an over-long value, a missing field or a non-string value makes
      the write or the hashing raise, which reaches the client as a 500. */
  function RegisterAnswering(s: Store, body: JsonObject, salt: Salt, createdStatus: int): (r: Exchange)
    ensures Valid(s) ==> Valid(r.store)
    ensures "username" !in body ==> r == Exchange(Abort(500), s)
    ensures "username" in body && UserByUsername(s, body["username"]).Some? ==>
              r == Exchange(Reply(MessageOnly(USERNAME_TAKEN), 400), s)
    ensures r.store != s ==>
              && StringFields(body)
              && AddedOne(s, r.store, body["username"].s, body["email"].s, body["password"].s)
              && r.response == Reply(MessageOnly(USER_CREATED), createdStatus)
    ensures "username" in body && UserByUsername(s, body["username"]).None? ==>
              if StringFields(body) && Fits(User(0, body["username"].s, body["email"].s, ""))
                 && GetUserByEmail(s, body["email"].s).None?
              then r.store != s && r.response == Reply(MessageOnly(USER_CREATED), createdStatus)
              else r == Exchange(Abort(500), s)
  {
    if "username" !in body then Exchange(Abort(500), s)  // KeyError
    else if UserByUsername(s, body["username"]).Some? then Exchange(Reply(MessageOnly(USERNAME_TAKEN), 400), s)
    else if !StringFields(body) then Exchange(Abort(500), s)  // KeyError, a NULL column, or hashing a non-string
    else
      var username, email, password := body["username"].s, body["email"].s, body["password"].s;
      CheckGeneratedHash(password, salt);
      match Insert(s, username, email, GeneratePasswordHash(password, salt))
      case Err(_) => Exchange(Abort(500), s)  // IntegrityError
      case Ok(s') => Exchange(Reply(MessageOnly(USER_CREATED), createdStatus), s')
  }

  /** POST /register of `auth.py` as written: a creation is answered with status 400, the status of a
      refusal, so the status does not tell a client whether an account was made. */
  function Register(s: Store, body: JsonObject, salt: Salt): (r: Exchange)
    ensures r.response.Reply? ==> r.response.status == 400
    ensures r.store != s ==> r.response == Reply(MessageOnly(USER_CREATED), 400)
  {
    RegisterAnswering(s, body, salt, 400)
  }

  /** POST /register of `auth.py` with the evident intent of its success message: a 200 reply is given
      exactly when a row was written. */
  function RegisterCorrected(s: Store, body: JsonObject, salt: Salt): (r: Exchange)
    ensures r.response.status == 200 <==> r.store != s
    ensures r.store != s ==> r.response == Reply(MessageOnly(USER_CREATED), 200)
  {
    RegisterAnswering(s, body, salt, 200)
  }

  /** POST /login of `auth.py`. An unknown username and a wrong password get the same 400; on success
      both tokens name the row's id and the access token keeps the configured lifetime. */
  function Login(s: Store, body: JsonObject): (r: Response)
    ensures "username" !in body ==> r == Abort(500)
    ensures "username" in body && UserByUsername(s, body["username"]).None? ==>
              r == Reply(MessageOnly(INVALID_CREDENTIALS), 400)
    ensures "username" in body && UserByUsername(s, body["username"]).Some? ==>
              var u := UserByUsername(s, body["username"]).value;
              if "password" !in body || !body["password"].JStr? then r == Abort(500)
              else if CheckPassword(u, body["password"].s) then r == Reply(LoginBody(u, JInt(u.id), None), 200)
              else r == Reply(MessageOnly(INVALID_CREDENTIALS), 400)
  {
    if "username" !in body then Abort(500)  // KeyError
    else
      match UserByUsername(s, body["username"])
      case None => Reply(MessageOnly(INVALID_CREDENTIALS), 400)
      case Some(u) =>
        if "password" !in body || !body["password"].JStr? then Abort(500)  // KeyError, or hashing a non-string
        else if !CheckPassword(u, body["password"].s) then Reply(MessageOnly(INVALID_CREDENTIALS), 400)
        else Reply(LoginBody(u, JInt(u.id), None), 200)
  }

  /** Logging in through `auth.py` with the credentials a registration through it stored succeeds. */
  lemma RegisterThenLogin(s: Store, body: JsonObject, salt: Salt)
    requires Valid(s) && Register(s, body, salt).store != s
    ensures var s' := Register(s, body, salt).store;
            var u := s'.rows[|s.rows|];
            Login(s', map["username" := body["username"], "password" := body["password"]])
              == Reply(LoginBody(u, JInt(u.id), None), 200)
  {
    var s' := Register(s, body, salt).store;
    UsernameLookupIsUnique(s', |s.rows|);
    var creds := map["username" := body["username"], "password" := body["password"]];
    assert creds["username"] == JStr(s'.rows[|s.rows|].username);
    assert UserByUsername(s', creds["username"]) == Some(s'.rows[|s.rows|]);
  }
}
