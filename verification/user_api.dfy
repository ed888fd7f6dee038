/** The account handlers of `src/api/user.py` as transitions of the users table: register, login,
    update-password, delete, the lookup guard of request-password-reset, and reset-password. */
module UserApi {
  import opened Wrappers
  import opened Json
  import opened Errors
  import opened Responses
  import opened UserModel
  import opened Requests
  import Registration

  /** `timedelta(days=7)`, the lifetime of the access token issued at login, in seconds. */
  const ACCESS_TOKEN_LIFETIME := 7 * 24 * 60 * 60

  /** `max_age=3600`: how old, in seconds, a password-reset token may be. */
  const RESET_TOKEN_MAX_AGE := 3600

  /** The registration passes both uniqueness pre-checks. */
  predicate Unclaimed(s: Store, d: Registration.RegistrationData) {
    GetUserByUsername(s, d.username).None? && GetUserByEmail(s, d.email).None?
  }

  /** POST /register. A body the schema rejects gets the schema's messages under `message`; a body it
      accepts goes on to `Admit`. */
  function Register(s: Store, body: JsonObject, cfg: Registration.SchemaConfig, salt: Salt): (r: Exchange)
    ensures Registration.Load(body, cfg).Err? ==>
              && IsError(r.response, 400, "bad_request_body_not_valid")
              && r.response.body["message"] == JObj(Registration.Load(body, cfg).error)
              && r.store == s
    ensures Registration.Load(body, cfg).Ok? ==> r == Admit(s, Registration.Load(body, cfg).value, salt)
  {
    match Registration.Load(body, cfg)
    case Err(messages) =>
      Exchange(CatalogCode(RequestErrors, BAD_REQUEST_BODY_NOT_VALID, JObj(messages)), s)
    case Ok(d) =>
      Admit(s, d, salt)
  }

  /** The part of POST /register after the schema: the username is checked first, then the email; only
      a request that passes both writes, and a write the database refuses is reported as a 500. */
  function Admit(s: Store, d: Registration.RegistrationData, salt: Salt): (r: Exchange)
    ensures Valid(s) ==> Valid(r.store)
    ensures r.store != s ==>
              Unclaimed(s, d) && AddedOne(s, r.store, d.username, d.email, d.password)
              && IsSuccess(r.response, 200, "User created successfully!")
    ensures GetUserByUsername(s, d.username).Some? ==>
              IsError(r.response, 400, "username_already_taken") && r.store == s
    ensures GetUserByUsername(s, d.username).None? && GetUserByEmail(s, d.email).Some? ==>
              IsError(r.response, 400, "email_already_taken") && r.store == s
    ensures Unclaimed(s, d) && |d.username| <= USERNAME_MAX_LENGTH && |d.email| <= EMAIL_MAX_LENGTH ==>
              IsSuccess(r.response, 200, "User created successfully!") && AddedOne(s, r.store, d.username, d.email, d.password)
    ensures Unclaimed(s, d) && !(|d.username| <= USERNAME_MAX_LENGTH && |d.email| <= EMAIL_MAX_LENGTH) ==>
              IsError(r.response, 500, "internal_server_error") && r.store == s
  {
    if GetUserByUsername(s, d.username).Some? then
      Exchange(CatalogError(AuthenticationErrors, USERNAME_ALREADY_TAKEN), s)
    else if GetUserByEmail(s, d.email).Some? then
      Exchange(CatalogError(AuthenticationErrors, EMAIL_ALREADY_TAKEN), s)
    else if !ValidatePassword(d.password) then
      Exchange(CatalogError(RequestErrors, BAD_REQUEST_BODY_NOT_VALID), s)
    else
      CheckGeneratedHash(d.password, salt);
      match Insert(s, d.username, d.email, GeneratePasswordHash(d.password, salt))
      case Err(_) =>
        Exchange(CatalogCode(ServerErrors, INTERNAL_SERVER_ERROR, JStr("An error occurred while creating the user"), 500), s)
      case Ok(s') =>
        Exchange(SuccessResponse(JStr("User created successfully!")), s')
  }

  /** The credentials in `body` identify no row, or a row whose hash rejects the string password given. */
  predicate LoginRejected(s: Store, body: JsonObject) {
    var u := UserByUsername(s, Get(body, "username"));
    u.None? || ("password" in body && body["password"].JStr? && !CheckPassword(u.value, body["password"].s))
  }

  /** POST /login. An unknown username and a wrong password get the same `login_failed` response; on
      success both tokens name the username and the access token lives seven days. */
  function Login(s: Store, body: JsonObject): (r: Response)
    ensures LoginRejected(s, body) ==> IsError(r, 400, "login_failed") && r.body["message"] == JStr("Login failed")
    ensures !LoginRejected(s, body) ==>
              var u := UserByUsername(s, Get(body, "username")).value;
              if "password" in body && body["password"].JStr? then
                r == Reply(LoginBody(u, JStr(u.username), Some(ACCESS_TOKEN_LIFETIME)), 200)
              else
                r == Abort(500)
  {
    var u := UserByUsername(s, Get(body, "username"));
    if u.None? then CatalogError(AuthenticationErrors, LOGIN_FAILED)
    else if "password" !in body || !body["password"].JStr? then Abort(500)  // KeyError, or hashing a non-string
    else if !CheckPassword(u.value, body["password"].s) then CatalogError(AuthenticationErrors, LOGIN_FAILED)
    else Reply(LoginBody(u.value, JStr(u.value.username), Some(ACCESS_TOKEN_LIFETIME)), 200)
  }

  /** A failed login reveals nothing about why it failed: any two rejected attempts, against any tables,
      get the identical response. */
  lemma LoginFailuresIdentical(s1: Store, body1: JsonObject, s2: Store, body2: JsonObject)
    requires LoginRejected(s1, body1) && LoginRejected(s2, body2)
    ensures Login(s1, body1) == Login(s2, body2)
  {
  }

  /** `s'` differs from `s` only in the password hash of the row named `username`, which now accepts `password`. */
  predicate OnlyPasswordChanged(s: Store, s': Store, username: string, password: string, salt: Salt) {
    && |s'.rows| == |s.rows| && s'.nextId == s.nextId
    && forall j :: 0 <= j < |s.rows| ==>
         s'.rows[j] == (if s.rows[j].username == username then SetPassword(s.rows[j], password, salt) else s.rows[j])
  }

  /** Set the password of row `u` and save it (`user.set_password(p); user.save()`). */
  function SavePassword(s: Store, u: User, password: string, salt: Salt, message: string): (r: Exchange)
    requires u in s.rows
    ensures Valid(s) ==> IsSuccess(r.response, 200, message) && Valid(r.store)
                         && OnlyPasswordChanged(s, r.store, u.username, password, salt)
  {
    var u' := SetPassword(u, password, salt);
    RowIsUniqueByKey(s, u);
    assert KeepsKeys(s, u');
    match Update(s, u')
    case Err(_) => Exchange(Abort(500), s)
    case Ok(s') => Exchange(SuccessResponse(JStr(message)), s')
  }

  /** POST /update-password. The new password is checked before the caller's identity; the identity is
      the token's `sub` claim, a username. A truthy password that is not a string cannot be hashed. */
  function UpdatePassword(s: Store, body: JsonObject, claims: JsonObject, salt: Salt): (r: Exchange)
    ensures Valid(s) ==> Valid(r.store)
    ensures !Truthy(Get(body, "new_password")) ==>
              IsError(r.response, 400, "bad_request_body_not_found") && r.store == s
    ensures Truthy(Get(body, "new_password")) && UserByUsername(s, Get(claims, "sub")).None? ==>
              IsError(r.response, 400, "invalid_user") && r.store == s
    ensures Truthy(Get(body, "new_password")) && !Get(body, "new_password").JStr?
            && UserByUsername(s, Get(claims, "sub")).Some? ==>
              r == Exchange(Abort(500), s)
    ensures Valid(s) && Truthy(Get(body, "new_password")) && Get(body, "new_password").JStr?
            && UserByUsername(s, Get(claims, "sub")).Some? ==>
              && IsSuccess(r.response, 200, "Password updated successfully!")
              && OnlyPasswordChanged(s, r.store, Get(claims, "sub").s, Get(body, "new_password").s, salt)
  {
    var newPassword := Get(body, "new_password");
    if !Truthy(newPassword) then
      Exchange(CatalogError(RequestErrors, BAD_REQUEST_BODY_NOT_FOUND), s)
    else if !ValidatePassword(newPassword) then
      Exchange(CatalogError(RequestErrors, BAD_REQUEST_BODY_NOT_VALID), s)
    else
      match UserByUsername(s, Get(claims, "sub"))
      case None => Exchange(CatalogError(AuthenticationErrors, INVALID_USER), s)
      case Some(u) =>
        if !newPassword.JStr? then Exchange(Abort(500), s)
        else SavePassword(s, u, newPassword.s, salt, "Password updated successfully!")
  }

  /** POST /delete: removes the caller's own row, named by the token's `sub` claim. */
  function DeleteUser(s: Store, claims: JsonObject): (r: Exchange)
    ensures Valid(s) ==> Valid(r.store)
    ensures r.store.nextId == s.nextId
    ensures UserByUsername(s, Get(claims, "sub")).None? ==> IsError(r.response, 400, "invalid_user") && r.store == s
    ensures UserByUsername(s, Get(claims, "sub")).Some? ==> IsSuccess(r.response, 200, "User deleted successfully!")
    ensures Valid(s) && UserByUsername(s, Get(claims, "sub")).Some? ==>
              forall x :: x in r.store.rows <==> x in s.rows && x.username != Get(claims, "sub").s
  {
    match UserByUsername(s, Get(claims, "sub"))
    case None => Exchange(CatalogError(AuthenticationErrors, INVALID_USER), s)
    case Some(u) =>
      RowIsUniqueByKey(s, u);
      Exchange(SuccessResponse(JStr("User deleted successfully!")), Delete(s, u.id))
  }

  /** What POST /request-password-reset did: its response, and the address a reset link was relayed to. */
  datatype ResetRequest = ResetRequest(response: Response, mailedTo: Option<string>)

  /** POST /request-password-reset. Only the address of a registered row is ever mailed; the mail
      relay's HTTP status is an input. The signed link itself is not modelled. */
  function RequestPasswordReset(s: Store, body: JsonObject, relayStatus: int): (r: ResetRequest)
    ensures r.mailedTo.Some? <==> UserByEmail(s, Get(body, "email")).Some? && Truthy(Get(body, "email"))
    ensures r.mailedTo.Some? ==> exists i :: 0 <= i < |s.rows| && s.rows[i].email == r.mailedTo.value
    ensures r.mailedTo.None? ==>
              IsError(r.response, 404, "invalid_user") && r.response.body["message"] == JStr("User email not found")
    ensures r.mailedTo.Some? && relayStatus != 200 ==>
              IsError(r.response, 500, "internal_server_error")
              && r.response.body["message"] == JStr("Failed to send password reset email")
    ensures r.mailedTo.Some? && relayStatus == 200 ==>
              IsSuccess(r.response, 200, "Password reset link sent successfully!")
  {
    var email := Get(body, "email");
    var user := UserByEmail(s, email);
    if user.None? || !Truthy(email) then
      ResetRequest(CatalogCode(AuthenticationErrors, INVALID_USER, JStr("User email not found"), 404), None)
    else if relayStatus != 200 then
      ResetRequest(CatalogCode(ServerErrors, INTERNAL_SERVER_ERROR, JStr("Failed to send password reset email"), 500),
                   Some(email.s))
    else
      ResetRequest(SuccessResponse(JStr("Password reset link sent successfully!")), Some(email.s))
  }

  /** The outcome of `serializer.loads(token, max_age=3600)`: a token whose signature does not check, or
      the email it signs and its age in seconds. */
  datatype ResetToken = BadSignature | Signed(email: Json, age: nat)

  /** The token is accepted: its signature checks and it is at most an hour old. */
  predicate TokenAccepted(t: ResetToken) {
    t.Signed? && t.age <= RESET_TOKEN_MAX_AGE
  }

  /** POST /reset_password/<token>. The token is checked first, then the row it names, then the body. */
  function ResetPassword(s: Store, token: ResetToken, body: JsonObject, salt: Salt): (r: Exchange)
    ensures Valid(s) ==> Valid(r.store)
    ensures !TokenAccepted(token) ==> IsError(r.response, 400, "invalid_token") && r.store == s
    ensures TokenAccepted(token) && UserByEmail(s, token.email).None? ==>
              IsError(r.response, 404, "invalid_user") && r.store == s
    ensures TokenAccepted(token) && UserByEmail(s, token.email).Some? ==>
              if "new_password" !in body then r == Exchange(Abort(500), s)
              else if !Truthy(body["new_password"]) then
                IsError(r.response, 400, "bad_request_body_not_found") && r.store == s
              else if !body["new_password"].JStr? then r == Exchange(Abort(500), s)
              else Valid(s) ==>
                && IsSuccess(r.response, 200, "Password reset successfully!")
                && OnlyPasswordChanged(s, r.store, UserByEmail(s, token.email).value.username, body["new_password"].s, salt)
  {
    if !TokenAccepted(token) then
      Exchange(CatalogError(AuthenticationErrors, INVALID_TOKEN), s)
    else
      match UserByEmail(s, token.email)
      case None => Exchange(CatalogError(AuthenticationErrors, INVALID_USER, 404), s)
      case Some(u) =>
        if "new_password" !in body then Exchange(Abort(500), s)  // KeyError
        else
          var newPassword := body["new_password"];
          if !Truthy(newPassword) then
            Exchange(CatalogError(RequestErrors, BAD_REQUEST_BODY_NOT_FOUND), s)
          else if !ValidatePassword(newPassword) then
            Exchange(CatalogError(AuthenticationErrors, INVALID_PASSWORD), s)
          else if !newPassword.JStr? then Exchange(Abort(500), s)
          else SavePassword(s, u, newPassword.s, salt, "Password reset successfully!")
  }

  /** The login request a client sends for the given credentials. */
  function Credentials(username: string, password: string): JsonObject {
    map["username" := JStr(username), "password" := JStr(password)]
  }

  /** Login with the credentials of a row whose hash accepts the password succeeds. */
  lemma LoginAccepts(s: Store, u: User, password: string)
    requires GetUserByUsername(s, u.username) == Some(u) && CheckPassword(u, password)
    ensures Login(s, Credentials(u.username, password)) == Reply(LoginBody(u, JStr(u.username), Some(ACCESS_TOKEN_LIFETIME)), 200)
  {
    var body := Credentials(u.username, password);
    assert Get(body, "username") == JStr(u.username);
    assert "password" in body && body["password"] == JStr(password);
    assert !LoginRejected(s, body);
  }

  /** Registering and then logging in with the same credentials succeeds, and the session names the new row. */
  lemma RegisterThenLogin(s: Store, body: JsonObject, cfg: Registration.SchemaConfig, salt: Salt)
    requires Valid(s) && Registration.Load(body, cfg).Ok?
    requires Unclaimed(s, Registration.Load(body, cfg).value)
    requires |Registration.Load(body, cfg).value.username| <= USERNAME_MAX_LENGTH
    requires |Registration.Load(body, cfg).value.email| <= EMAIL_MAX_LENGTH
    ensures var d := Registration.Load(body, cfg).value;
            var s' := Register(s, body, cfg, salt).store;
            Login(s', Credentials(d.username, d.password))
              == Reply(LoginBody(s'.rows[|s.rows|], JStr(d.username), Some(ACCESS_TOKEN_LIFETIME)), 200)
  {
    var d := Registration.Load(body, cfg).value;
    var s' := Register(s, body, cfg, salt).store;
    assert AddedOne(s, s', d.username, d.email, d.password);
    UsernameLookupIsUnique(s', |s.rows|);
    LoginAccepts(s', s'.rows[|s.rows|], d.password);
  }

  /** Registering the same body twice: the second attempt is refused as a taken username and writes nothing. */
  lemma RegisterTwiceRejected(s: Store, body: JsonObject, cfg: Registration.SchemaConfig, salt: Salt)
    requires Registration.Load(body, cfg).Ok?
    requires Register(s, body, cfg, salt).store != s
    ensures var s' := Register(s, body, cfg, salt).store;
            IsError(Register(s', body, cfg, salt).response, 400, "username_already_taken")
            && Register(s', body, cfg, salt).store == s'
  {
    var d := Registration.Load(body, cfg).value;
    var s' := Register(s, body, cfg, salt).store;
    assert s'.rows[|s.rows|].username == d.username;
    assert GetUserByUsername(s', d.username).Some?;
  }

  /** After a successful password update, logging in with the new password succeeds. */
  lemma UpdatePasswordThenLogin(s: Store, body: JsonObject, claims: JsonObject, salt: Salt)
    requires Valid(s)
    requires Get(body, "new_password").JStr? && Get(body, "new_password").s != []
    requires UserByUsername(s, Get(claims, "sub")).Some?
    ensures var s' := UpdatePassword(s, body, claims, salt).store;
            Login(s', Credentials(Get(claims, "sub").s, Get(body, "new_password").s)).Reply?
            && Login(s', Credentials(Get(claims, "sub").s, Get(body, "new_password").s)).status == 200
  {
    var name := Get(claims, "sub").s;
    var p := Get(body, "new_password").s;
    var s' := UpdatePassword(s, body, claims, salt).store;
    var u := UserByUsername(s, Get(claims, "sub")).value;
    var k :| 0 <= k < |s.rows| && s.rows[k] == u;
    assert s'.rows[k] == SetPassword(u, p, salt);
    UsernameLookupIsUnique(s', k);
    LoginAccepts(s', s'.rows[k], p);
  }
}
