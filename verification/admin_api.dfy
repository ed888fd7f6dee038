/** The handlers of `src/api/admin.py`: both are gated on the token's `role` claim being `admin`. */
module AdminApi {
  import opened Wrappers
  import opened Json
  import opened Errors
  import opened Responses
  import opened UserModel
  import opened Requests
  import Text

  const ADMIN_ROLE := "admin"
  const DEFAULT_PAGE := 1
  const DEFAULT_PER_PAGE := 3

  /** `claims.get('role') == 'admin'`. */
  predicate IsAdmin(claims: JsonObject) {
    Get(claims, "role") == JStr(ADMIN_ROLE)
  }

  /** POST /admin/delete: an admin removes the row named in the body. */
  function AdminDelete(s: Store, claims: JsonObject, body: JsonObject): (r: Exchange)
    ensures Valid(s) ==> Valid(r.store)
    ensures r.store.nextId == s.nextId
    ensures !IsAdmin(claims) ==> IsError(r.response, 403, "auth_required") && r.store == s
    ensures IsAdmin(claims) && UserByUsername(s, Get(body, "username")).None? ==>
              IsError(r.response, 404, "bad_request_body_not_valid") && r.store == s
    ensures IsAdmin(claims) && UserByUsername(s, Get(body, "username")).Some? ==>
              IsSuccess(r.response, 200, "User deleted successfully") && r.response.body.Keys == {"message"}
    ensures Valid(s) && IsAdmin(claims) && UserByUsername(s, Get(body, "username")).Some? ==>
              forall x :: x in r.store.rows <==> x in s.rows && x.username != Get(body, "username").s
  {
    if !IsAdmin(claims) then
      Exchange(CatalogError(AuthenticationErrors, AUTH_REQUIRED, 403), s)
    else
      match UserByUsername(s, Get(body, "username"))
      case None =>
        // the exception text only reaches the log
        var response := match GetErrorInstance(RequestErrors, BAD_REQUEST_BODY_NOT_VALID, Some("Username not found"))
                        case None => Abort(500)
                        case Some(e) => ErrorResponse(JStr(e.message), JStr(e.code), 404);
        Exchange(response, s)
      case Some(u) =>
        RowIsUniqueByKey(s, u);
        Exchange(SuccessResponse(JStr("User deleted successfully"), None, 200), Delete(s, u.id))
  }

  /** A query-string argument read with `type=int`: absent, present but not an integer, or an integer. */
  datatype QueryArg = Absent | NotAnInt | IntArg(n: int)

  /** `request.args.get(name, default=d, type=int)`: a value that does not convert falls back to the default. */
  function ArgOr(a: QueryArg, default: int): (v: int)
    ensures a.IntArg? ==> v == a.n
    ensures !a.IntArg? ==> v == default
  {
    if a.IntArg? then a.n else default
  }

  /** The number of rows on the pages before page `page` (from 1). */
  function Offset(page: int, perPage: int): nat
    requires page >= 1 && perPage >= 1
  {
    (page - 1) * perPage
  }

  /** The rows of page `page` (from 1) when pages hold `perPage` rows each, in table order. */
  function Window(rows: seq<User>, page: int, perPage: int): (w: seq<User>)
    requires page >= 1 && perPage >= 1
    ensures |w| <= perPage
    ensures forall k :: 0 <= k < |w| ==> Offset(page, perPage) + k < |rows| && w[k] == rows[Offset(page, perPage) + k]
    ensures forall i :: Offset(page, perPage) <= i < |rows| && i < Offset(page, perPage) + perPage ==>
              i - Offset(page, perPage) < |w| && w[i - Offset(page, perPage)] == rows[i]
  {
    var offset := Offset(page, perPage);
    if offset >= |rows| then []
    else if offset + perPage <= |rows| then rows[offset..offset + perPage]
    else rows[offset..]
  }

  /** `UserSchema().dump(user)`: every declared field, the id as a string, the password hash included. */
  function Dump(u: User): (j: Json)
    ensures j.JObj? && j.fields.Keys == {"id", "username", "email", "password"}
    ensures j.fields["id"] == JStr(Text.Decimal(u.id))
    ensures j.fields["username"] == JStr(u.username) && j.fields["email"] == JStr(u.email)
    ensures j.fields["password"] == JStr(u.password)
  {
    JObj(map["id" := JStr(Text.Decimal(u.id)), "username" := JStr(u.username), "email" := JStr(u.email),
             "password" := JStr(u.password)])
  }

  /** In a valid table, no two rows are dumped with the same `id` string. */
  lemma DumpedIdsDistinct(s: Store)
    requires Valid(s)
    ensures forall i, j :: 0 <= i < j < |s.rows| ==> Dump(s.rows[i]).fields["id"] != Dump(s.rows[j]).fields["id"]
  {
    forall i, j | 0 <= i < j < |s.rows|
      ensures Dump(s.rows[i]).fields["id"] != Dump(s.rows[j]).fields["id"]
    {
      assert Apart(s.rows[i], s.rows[j]);
      if Text.Decimal(s.rows[i].id) == Text.Decimal(s.rows[j].id) {
        Text.DecimalInjective(s.rows[i].id, s.rows[j].id);
      }
    }
  }

  /** A dump of the public fields only. */
  function PublicDump(u: User): (j: Json)
    ensures j.JObj? && j.fields.Keys == {"id", "username", "email"}
    ensures j.fields["id"] == JStr(Text.Decimal(u.id))
    ensures j.fields["username"] == JStr(u.username) && j.fields["email"] == JStr(u.email)
  {
    JObj(map["id" := JStr(Text.Decimal(u.id)), "username" := JStr(u.username), "email" := JStr(u.email)])
  }

  /** The rows GET /admin/get-all lists for the given arguments, or `None` where the paginator answers
      404: a page or page size below 1, or an empty page other than the first. */
  function Page(s: Store, page: QueryArg, perPage: QueryArg): (w: Option<seq<User>>)
    ensures (ArgOr(page, DEFAULT_PAGE) < 1 || ArgOr(perPage, DEFAULT_PER_PAGE) < 1) ==> w.None?
    ensures ArgOr(page, DEFAULT_PAGE) >= 1 && ArgOr(perPage, DEFAULT_PER_PAGE) >= 1 ==>
              var rows := Window(s.rows, ArgOr(page, DEFAULT_PAGE), ArgOr(perPage, DEFAULT_PER_PAGE));
              w == if rows == [] && ArgOr(page, DEFAULT_PAGE) != 1 then None else Some(rows)
  {
    var p, pp := ArgOr(page, DEFAULT_PAGE), ArgOr(perPage, DEFAULT_PER_PAGE);
    if p < 1 || pp < 1 then None
    else
      var rows := Window(s.rows, p, pp);
      if rows == [] && p != 1 then None else Some(rows)
  }

  /** Each row of a page through the projection `dump`, in order. */
  function Dumped(rows: seq<User>, dump: User -> Json): (items: seq<Json>)
    ensures |items| == |rows| && forall k :: 0 <= k < |rows| ==> items[k] == dump(rows[k])
  {
    seq(|rows|, k requires 0 <= k < |rows| => dump(rows[k]))
  }

  /** The entries of a listing response; empty for any other response. */
  function Listed(r: Response): seq<Json> {
    if r.Reply? && "users" in r.body && r.body["users"].JList? then r.body["users"].items else []
  }

  /** GET /admin/get-all with the projection `dump` applied to every listed row. */
  function ListUsers(s: Store, claims: JsonObject, page: QueryArg, perPage: QueryArg, dump: User -> Json): (r: Response)
    ensures !IsAdmin(claims) ==> IsError(r, 403, "auth_required")
    ensures IsAdmin(claims) && Page(s, page, perPage).None? ==> r == Abort(404)
    ensures IsAdmin(claims) && Page(s, page, perPage).Some? ==>
              && IsSuccess(r, 200, "Users retrieved successfully")
              && r.body.Keys == {"message", "users"}
              && r.body["users"] == JList(Dumped(Page(s, page, perPage).value, dump))
  {
    if !IsAdmin(claims) then
      CatalogError(AuthenticationErrors, AUTH_REQUIRED, 403)
    else
      match Page(s, page, perPage)
      case None => Abort(404)
      case Some(rows) =>
        SuccessResponse(JStr("Users retrieved successfully"), Some(map["users" := JList(Dumped(rows, dump))]), 200)
  }

  /** GET /admin/get-all as written: rows are dumped with `UserSchema`, so every listed entry carries the
      row's password hash. */
  function GetAll(s: Store, claims: JsonObject, page: QueryArg, perPage: QueryArg): (r: Response)
    ensures forall k :: 0 <= k < |Listed(r)| ==> Listed(r)[k].JObj? && "password" in Listed(r)[k].fields
  {
    ListedRows(s, claims, page, perPage, Dump);
    ListUsers(s, claims, page, perPage, Dump)
  }

  /** GET /admin/get-all with the password left out of every listed row: the same rows as `GetAll`, each
      with every field but `password`. */
  function GetAllRedacted(s: Store, claims: JsonObject, page: QueryArg, perPage: QueryArg): (r: Response)
    ensures forall k :: 0 <= k < |Listed(r)| ==> Listed(r)[k].JObj? && "password" !in Listed(r)[k].fields
    ensures |Listed(r)| == |Listed(GetAll(s, claims, page, perPage))|
    ensures forall k :: 0 <= k < |Listed(r)| ==>
              Listed(r)[k].fields == Listed(GetAll(s, claims, page, perPage))[k].fields - {"password"}
  {
    ListedRows(s, claims, page, perPage, Dump);
    ListedRows(s, claims, page, perPage, PublicDump);
    RedactionDropsOnlyPassword();
    ListUsers(s, claims, page, perPage, PublicDump)
  }

  /** The entries of a listing are the page's rows through the projection, or nothing. */
  lemma ListedRows(s: Store, claims: JsonObject, page: QueryArg, perPage: QueryArg, dump: User -> Json)
    ensures Listed(ListUsers(s, claims, page, perPage, dump))
            == if IsAdmin(claims) && Page(s, page, perPage).Some? then Dumped(Page(s, page, perPage).value, dump) else []
  {
    var r := ListUsers(s, claims, page, perPage, dump);
    if !IsAdmin(claims) {
      assert "users" !in r.body;
    }
  }

  /** The public projection is the full one without its `password` field. */
  lemma RedactionDropsOnlyPassword()
    ensures forall u :: PublicDump(u).fields == Dump(u).fields - {"password"}
  {
    forall u
      ensures PublicDump(u).fields == Dump(u).fields - {"password"}
    {
      var full := Dump(u).fields;
      assert (full - {"password"}).Keys == PublicDump(u).fields.Keys;
    }
  }

  /** Missing or unparsable arguments list the first three rows. */
  lemma DefaultsAreFirstPageOfThree(s: Store, claims: JsonObject, page: QueryArg, perPage: QueryArg, dump: User -> Json)
    requires !page.IntArg? && !perPage.IntArg?
    ensures ListUsers(s, claims, page, perPage, dump) == ListUsers(s, claims, IntArg(1), IntArg(3), dump)
  {
  }

  /** Paging covers the table: row `i` is listed at position `i % perPage` of page `i / perPage + 1`. */
  lemma RowOnItsPage(s: Store, claims: JsonObject, i: nat, perPage: int, dump: User -> Json)
    requires IsAdmin(claims) && i < |s.rows| && perPage >= 1
    ensures var r := ListUsers(s, claims, IntArg(i / perPage + 1), IntArg(perPage), dump);
            r.Reply? && r.status == 200 && i % perPage < |Listed(r)| && Listed(r)[i % perPage] == dump(s.rows[i])
  {
    var page := i / perPage + 1;
    assert Offset(page, perPage) == i / perPage * perPage;
    assert Offset(page, perPage) + i % perPage == i;
    var w := Window(s.rows, page, perPage);
    assert w[i - Offset(page, perPage)] == s.rows[i];
  }

  /** As written, an admin listing shows each listed row's password hash. */
  lemma GetAllListsHashes(s: Store, claims: JsonObject)
    requires IsAdmin(claims) && |s.rows| >= 1
    ensures var r := GetAll(s, claims, Absent, Absent);
            |Listed(r)| >= 1 && Listed(r)[0].fields["password"] == JStr(s.rows[0].password)
  {
    RowOnItsPage(s, claims, 0, DEFAULT_PER_PAGE, Dump);
    DefaultsAreFirstPageOfThree(s, claims, Absent, Absent, Dump);
  }
}
