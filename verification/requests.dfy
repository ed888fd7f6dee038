/** What every user-facing handler shares: the (response, table) pair it produces, and the lookups it
    makes with values taken straight from a JSON body or from JWT claims. */
module Requests {
  import opened Wrappers
  import opened Json
  import opened Responses
  import opened UserModel

  /** The outcome of one request: the response sent and the table afterwards. */
  datatype Exchange = Exchange(response: Response, store: Store)

  /** `User.get_user_by_username(v)` for a value read from a body or from claims. Only a string can equal
      a username; `None` (an absent key) matches no row because the column is not nullable. */
  function UserByUsername(s: Store, v: Json): (r: Option<User>)
    ensures r.Some? ==> v == JStr(r.value.username) && r.value in s.rows
    ensures r.None? <==> !v.JStr? || forall i :: 0 <= i < |s.rows| ==> s.rows[i].username != v.s
  {
    if v.JStr? then GetUserByUsername(s, v.s) else None
  }

  /** `User.get_user_by_email(v)` for a value read from a body or from a reset token. */
  function UserByEmail(s: Store, v: Json): (r: Option<User>)
    ensures r.Some? ==> v == JStr(r.value.email) && r.value in s.rows
    ensures r.None? <==> !v.JStr? || forall i :: 0 <= i < |s.rows| ==> s.rows[i].email != v.s
  {
    if v.JStr? then GetUserByEmail(s, v.s) else None
  }

  /** The `user` object of a login response: id, username and email, and nothing else. */
  function UserView(u: User): (j: Json)
    ensures j.JObj? && j.fields.Keys == {"id", "username", "email"}
    ensures j.fields["id"] == JInt(u.id) && j.fields["username"] == JStr(u.username) && j.fields["email"] == JStr(u.email)
  {
    JObj(map["id" := JInt(u.id), "username" := JStr(u.username), "email" := JStr(u.email)])
  }

  /** In a valid table, the row `u` is the only row with its id and the only row with its username. */
  lemma RowIsUniqueByKey(s: Store, u: User)
    ensures Valid(s) && u in s.rows ==>
              forall j :: 0 <= j < |s.rows| ==>
                (s.rows[j].id == u.id <==> s.rows[j] == u) && (s.rows[j].username == u.username <==> s.rows[j] == u)
  {
    if Valid(s) && u in s.rows {
      var k :| 0 <= k < |s.rows| && s.rows[k] == u;
      forall j | 0 <= j < |s.rows| && j != k
        ensures Apart(s.rows[j], u)
      {
        if j < k {
          assert Apart(s.rows[j], s.rows[k]);
        } else {
          assert Apart(s.rows[k], s.rows[j]);
        }
      }
    }
  }

  const LOGIN_SUCCESSFUL := "Login successful!"

  /** The body of a successful login: the message, an access and a refresh token naming `identity` (the
      access token living `accessLifetime` seconds, `None` meaning the configured default), and the user view. */
  function LoginBody(u: User, identity: Json, accessLifetime: Option<nat>): (b: JsonObject)
    ensures b.Keys == {"message", "tokens", "user"}
    ensures b["message"] == JStr(LOGIN_SUCCESSFUL)
    ensures b["tokens"] == JObj(map["access_token" := JToken(Token(Access, identity, accessLifetime)),
                                    "refresh_token" := JToken(Token(Refresh, identity, None))])
    ensures b["user"] == UserView(u)
  {
    map[
      "message" := JStr(LOGIN_SUCCESSFUL),
      "tokens" := JObj(map["access_token" := JToken(Token(Access, identity, accessLifetime)),
                           "refresh_token" := JToken(Token(Refresh, identity, None))]),
      "user" := UserView(u)
    ]
  }

  /** The password hash appears nowhere in a login body: the user view carries no `password` field. */
  lemma LoginBodyHidesPassword(u: User, identity: Json, accessLifetime: Option<nat>)
    ensures "password" !in LoginBody(u, identity, accessLifetime)
    ensures "password" !in LoginBody(u, identity, accessLifetime)["user"].fields
  {
  }

  /** `s'` is `s` with exactly one row added at the end: the next id, the given username and email, and
      a hash that accepts `password`. */
  predicate AddedOne(s: Store, s': Store, username: string, email: string, password: string) {
    && |s'.rows| == |s.rows| + 1
    && s'.rows[..|s.rows|] == s.rows
    && s'.rows[|s.rows|].id == s.nextId
    && s'.rows[|s.rows|].username == username
    && s'.rows[|s.rows|].email == email
    && CheckPassword(s'.rows[|s.rows|], password)
  }
}
