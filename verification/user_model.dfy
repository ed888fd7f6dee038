/** The `users` table of `src/data/user_model.py`: rows with an autoincrement id, a unique username of at
    most 80 characters, a unique email of at most 120 characters and a password hash; lookups by username
    and by email; inserting, updating and deleting one row; and the password hash as a salted digest. */
module UserModel {
  import opened Wrappers
  import Text
  import Lists

  const USERNAME_MAX_LENGTH := 80
  const EMAIL_MAX_LENGTH := 120

  /** A row of the table; `password` holds the generated hash string. */
  datatype User = User(id: nat, username: string, email: string, password: string)

  /** The table: its rows in insertion order, and the next value of the autoincrement id. */
  datatype Store = Store(rows: seq<User>, nextId: nat)

  /** Why the database refuses a write. */
  datatype DbError =
    | IntegrityError  // a unique constraint or a column width would be violated
    | StaleRow        // the row being updated is no longer in the table

  /** A row respects the widths of its columns. */
  predicate Fits(u: User) {
    |u.username| <= USERNAME_MAX_LENGTH && |u.email| <= EMAIL_MAX_LENGTH
  }

  /** Two rows share no id, no username and no email. */
  predicate Apart(a: User, b: User) {
    a.id != b.id && a.username != b.username && a.email != b.email
  }

  /** The table's constraints: every row fits its columns and has an id below the counter, and ids,
      usernames and emails are each unique. */
  predicate Valid(s: Store) {
    && (forall i :: 0 <= i < |s.rows| ==> Fits(s.rows[i]) && s.rows[i].id < s.nextId)
    && (forall i, j :: 0 <= i < j < |s.rows| ==> Apart(s.rows[i], s.rows[j]))
  }

  // ---------------------------------------------------------------------------------------------
  // Password hashing (werkzeug's generate_password_hash / check_password_hash)
  // ---------------------------------------------------------------------------------------------

  /** A salt as werkzeug draws it: it never contains the `$` that separates the fields of a hash. */
  type Salt = s: string | '$' !in s

  const HASH_METHOD := "scrypt"

  /** A 32-bit polynomial checksum standing in for the key-derivation function; like any hash it has
      collisions, and nothing in the model depends on its particular values. */
  function Checksum(s: string): nat
    decreases |s|
  {
    if s == [] then 0 else (Checksum(s[..|s| - 1]) * 31 + s[|s| - 1] as int) % 0x1_0000_0000
  }

  function Digest(salt: string, password: string): string {
    Text.Decimal(Checksum(salt + "$" + password))
  }

  /** `generate_password_hash(password)` with the random salt passed in: `method$salt$digest`. */
  function GeneratePasswordHash(password: string, salt: Salt): string {
    HASH_METHOD + "$" + salt + "$" + Digest(salt, password)
  }

  /** `check_password_hash(pwhash, password)`: read the salt back out of the hash and recompute the digest. */
  function CheckPasswordHash(pwhash: string, password: string): bool {
    var prefix := HASH_METHOD + "$";
    if !Text.StartsWith(pwhash, prefix) then false
    else
      var rest := pwhash[|prefix|..];
      var k := Text.Find(rest, '$');
      k >= 0 && rest[k + 1..] == Digest(rest[..k], password)
  }

  /** A hash always accepts the password it was made from, whatever the salt. */
  lemma CheckGeneratedHash(password: string, salt: Salt)
    ensures CheckPasswordHash(GeneratePasswordHash(password, salt), password)
  {
    var h := GeneratePasswordHash(password, salt);
    var prefix := HASH_METHOD + "$";
    var rest := h[|prefix|..];
    assert Text.StartsWith(h, prefix);
    assert rest == salt + "$" + Digest(salt, password);
    assert rest[|salt|] == '$';
    assert forall t :: 0 <= t < |salt| ==> rest[t] == salt[t] != '$';
    var k := Text.Find(rest, '$');
    assert k == |salt|;
    assert rest[..k] == salt;
    assert rest[k + 1..] == Digest(salt, password);
  }

  /** `user.set_password(password)`: only the stored hash changes. */
  function SetPassword(u: User, password: string, salt: Salt): (r: User)
    ensures r.id == u.id && r.username == u.username && r.email == u.email
    ensures r.password == GeneratePasswordHash(password, salt)
    ensures CheckPassword(r, password)
  {
    CheckGeneratedHash(password, salt);
    u.(password := GeneratePasswordHash(password, salt))
  }

  /** `user.check_password(password)`. */
  function CheckPassword(u: User, password: string): bool {
    CheckPasswordHash(u.password, password)
  }

  /** `User.validate_password(new_password)`: a placeholder that accepts every value. */
  function ValidatePassword<T>(newPassword: T): (valid: bool)
    ensures valid
  {
    true
  }

  // ---------------------------------------------------------------------------------------------
  // Lookups
  // ---------------------------------------------------------------------------------------------

  /** `User.get_user_by_username(username)`: the first row with that username, if any. */
  function GetUserByUsername(s: Store, username: string): (r: Option<User>)
    ensures r.Some? ==> r.value in s.rows && r.value.username == username
    ensures r.Some? ==> exists i :: 0 <= i < |s.rows| && s.rows[i] == r.value &&
                          forall k :: 0 <= k < i ==> s.rows[k].username != username
    ensures r.None? <==> forall i :: 0 <= i < |s.rows| ==> s.rows[i].username != username
  {
    match Lists.FirstIndex(s.rows, (u: User) => u.username == username)
    case None => None
    case Some(i) => Some(s.rows[i])
  }

  /** `User.get_user_by_email(email)`: the first row with that email, if any. */
  function GetUserByEmail(s: Store, email: string): (r: Option<User>)
    ensures r.Some? ==> r.value in s.rows && r.value.email == email
    ensures r.Some? ==> exists i :: 0 <= i < |s.rows| && s.rows[i] == r.value &&
                          forall k :: 0 <= k < i ==> s.rows[k].email != email
    ensures r.None? <==> forall i :: 0 <= i < |s.rows| ==> s.rows[i].email != email
  {
    match Lists.FirstIndex(s.rows, (u: User) => u.email == email)
    case None => None
    case Some(i) => Some(s.rows[i])
  }

  /** In a valid table a username names at most one row, so the lookup returns that row. */
  lemma UsernameLookupIsUnique(s: Store, i: nat)
    requires Valid(s) && i < |s.rows|
    ensures GetUserByUsername(s, s.rows[i].username) == Some(s.rows[i])
  {
    var r := GetUserByUsername(s, s.rows[i].username);
    var j :| 0 <= j < |s.rows| && s.rows[j] == r.value;
  }

  // ---------------------------------------------------------------------------------------------
  // Writes: `save()` of a new row, `save()` of a loaded row, `delete()`
  // ---------------------------------------------------------------------------------------------

  /** `User(username=…, email=…)` with its hash, then `save()`: the database assigns the next id and
      refuses the row when a unique constraint or a column width would be violated. */
  function Insert(s: Store, username: string, email: string, passwordHash: string): (r: Result<Store, DbError>)
    ensures r.Ok? <==>
              && |username| <= USERNAME_MAX_LENGTH && |email| <= EMAIL_MAX_LENGTH
              && GetUserByUsername(s, username).None? && GetUserByEmail(s, email).None?
    ensures r.Err? ==> r.error == IntegrityError
    ensures r.Ok? ==> && |r.value.rows| == |s.rows| + 1
                      && r.value.rows[..|s.rows|] == s.rows
                      && r.value.rows[|s.rows|] == User(s.nextId, username, email, passwordHash)
    ensures r.Ok? && Valid(s) ==> Valid(r.value)
  {
    var u := User(s.nextId, username, email, passwordHash);
    if !Fits(u) || GetUserByUsername(s, username).Some? || GetUserByEmail(s, email).Some? then
      Err(IntegrityError)
    else
      var rows := s.rows + [u];
      assert rows[..|s.rows|] == s.rows;
      Ok(Store(rows, s.nextId + 1))
  }

  /** `save()` of a row loaded from the table: the row with the same id is replaced in place, provided
      no other row holds its username or email and it fits its columns. */
  function Update(s: Store, u: User): (r: Result<Store, DbError>)
    ensures r.Err? && r.error == StaleRow <==> forall j :: 0 <= j < |s.rows| ==> s.rows[j].id != u.id
    ensures r.Ok? ==> |r.value.rows| == |s.rows| && r.value.nextId == s.nextId && u in r.value.rows
    ensures r.Ok? ==> forall j :: 0 <= j < |s.rows| && s.rows[j].id != u.id ==> r.value.rows[j] == s.rows[j]
    ensures r.Ok? && Valid(s) ==> Valid(r.value)
    ensures r.Ok? && Valid(s) ==> forall j :: 0 <= j < |s.rows| && s.rows[j].id == u.id ==> r.value.rows[j] == u
    ensures Valid(s) && Fits(u) && KeepsKeys(s, u) ==> r.Ok?
  {
    KeptKeysDoNotConflict(s, u);
    match Lists.FirstIndex(s.rows, (x: User) => x.id == u.id)
    case None => Err(StaleRow)
    case Some(i) =>
      if !Fits(u) || Lists.FirstIndex(s.rows, (x: User) => Conflicts(x, u)).Some? then
        Err(IntegrityError)
      else
        UpdateKeepsValid(s, i, u);
        var rows := s.rows[i := u];
        assert rows[i] == u;
        Ok(s.(rows := rows))
  }

  /** Row `x` is another row that already holds `u`'s username or email. */
  predicate Conflicts(x: User, u: User) {
    x.id != u.id && (x.username == u.username || x.email == u.email)
  }

  /** `u` is an existing row with only non-key fields (the password hash) changed. */
  predicate KeepsKeys(s: Store, u: User) {
    exists j :: 0 <= j < |s.rows| && s.rows[j].id == u.id && s.rows[j].username == u.username && s.rows[j].email == u.email
  }

  lemma KeptKeysDoNotConflict(s: Store, u: User)
    ensures Valid(s) && KeepsKeys(s, u) ==> forall k :: 0 <= k < |s.rows| ==> !Conflicts(s.rows[k], u)
  {
    if Valid(s) && KeepsKeys(s, u) {
      var j :| 0 <= j < |s.rows| && s.rows[j].id == u.id && s.rows[j].username == u.username && s.rows[j].email == u.email;
      forall k | 0 <= k < |s.rows|
        ensures !Conflicts(s.rows[k], u)
      {
        if k < j {
          assert Apart(s.rows[k], s.rows[j]);
        } else if k > j {
          assert Apart(s.rows[j], s.rows[k]);
        }
      }
    }
  }

  lemma UpdateKeepsValid(s: Store, i: nat, u: User)
    requires i < |s.rows| && s.rows[i].id == u.id && Fits(u)
    requires forall k :: 0 <= k < |s.rows| ==> !Conflicts(s.rows[k], u)
    ensures Valid(s) ==> Valid(s.(rows := s.rows[i := u]))
  {
    if Valid(s) {
      var rows := s.rows[i := u];
      forall a, b | 0 <= a < b < |rows|
        ensures Apart(rows[a], rows[b])
      {
        assert Apart(s.rows[a], s.rows[b]);
        if a == i {
          assert !Conflicts(s.rows[b], u);
        } else if b == i {
          assert !Conflicts(s.rows[a], u);
        }
      }
    }
  }

  /** The rows of `rows` other than the one(s) with id `id`, in their original order. */
  function Without(rows: seq<User>, id: nat): (r: seq<User>)
    ensures forall x :: x in r <==> x in rows && x.id != id
    ensures |r| <= |rows|
    decreases |rows|
  {
    if rows == [] then []
    else if rows[0].id == id then Without(rows[1..], id)
    else [rows[0]] + Without(rows[1..], id)
  }

  /** `user.delete()`: the row with that id leaves the table and every other row stays. */
  function Delete(s: Store, id: nat): (r: Store)
    ensures forall x :: x in r.rows <==> x in s.rows && x.id != id
    ensures r.nextId == s.nextId
    ensures Valid(s) ==> Valid(r)
  {
    WithoutKeepsValid(s.rows, id, s.nextId);
    Store(Without(s.rows, id), s.nextId)
  }

  /** The constraints of `Valid`, stated of a bare sequence of rows. */
  predicate RowsValid(rows: seq<User>, nextId: nat) {
    && (forall i :: 0 <= i < |rows| ==> Fits(rows[i]) && rows[i].id < nextId)
    && (forall i, j :: 0 <= i < j < |rows| ==> Apart(rows[i], rows[j]))
  }

  lemma {:induction false} WithoutKeepsValid(rows: seq<User>, id: nat, nextId: nat)
    ensures RowsValid(rows, nextId) ==> RowsValid(Without(rows, id), nextId)
    decreases |rows|
  {
    if rows != [] && RowsValid(rows, nextId) {
      assert RowsValid(rows[1..], nextId) by {
        forall i, j | 0 <= i < j < |rows[1..]|
          ensures Apart(rows[1..][i], rows[1..][j])
        {
          assert Apart(rows[i + 1], rows[j + 1]);
        }
      }
      WithoutKeepsValid(rows[1..], id, nextId);
      if rows[0].id != id {
        var w := Without(rows[1..], id);
        forall x | x in w
          ensures Apart(rows[0], x)
        {
          var k :| 0 <= k < |rows[1..]| && rows[1..][k] == x;
          assert Apart(rows[0], rows[k + 1]);
        }
        ConsKeepsValid(rows[0], w, nextId);
      }
    }
  }

  /** A row that fits, is below the counter and is apart from every row of a valid sequence can go in front. */
  lemma ConsKeepsValid(u: User, rows: seq<User>, nextId: nat)
    requires RowsValid(rows, nextId) && Fits(u) && u.id < nextId
    requires forall x :: x in rows ==> Apart(u, x)
    ensures RowsValid([u] + rows, nextId)
  {
    var r := [u] + rows;
    forall i, j | 0 <= i < j < |r|
      ensures Apart(r[i], r[j])
    {
      if i == 0 {
        assert r[j] == rows[j - 1];
      } else {
        assert r[i] == rows[i - 1] && r[j] == rows[j - 1];
      }
    }
    forall i | 0 <= i < |r|
      ensures Fits(r[i]) && r[i].id < nextId
    {
      if i > 0 {
        assert r[i] == rows[i - 1];
      }
    }
  }
}
