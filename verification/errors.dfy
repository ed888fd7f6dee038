/** The error catalogue of `src/api/errors.py`: four classes, each with a fixed table from key to
    (message, code), and a class-level lookup that logs what it found and returns the table's entry or `None`. */
module Errors {
  import opened Wrappers
  import Text

  /** The four catalogue classes; each answers lookups from its own table only. */
  datatype ErrorClass = AuthenticationErrors | RequestErrors | ServerErrors | AiErrors

  /** A catalogue entry: the human-readable message and the machine code a response carries as `error`. */
  datatype ErrorInfo = ErrorInfo(message: string, code: string)

  // Keys of AuthenticationErrors
  const TOKEN_EXPIRED := "TOKEN_EXPIRED"
  const INVALID_TOKEN := "INVALID_TOKEN"
  const AUTH_REQUIRED := "AUTH_REQUIRED"
  const USERNAME_ALREADY_TAKEN := "USERNAME_ALREADY_TAKEN"
  const EMAIL_ALREADY_TAKEN := "EMAIL_ALREADY_TAKEN"
  const INVALID_PASSWORD := "INVALID_PASSWORD"
  const LOGIN_FAILED := "LOGIN_FAILED"
  const INVALID_USER := "INVALID_USER"
  const SUDO_PASSWORD_INCORRECT := "SUDO_PASSWORD_INCORRECT"

  // Keys of RequestErrors
  const BAD_REQUEST_BODY_NOT_FOUND := "BAD_REQUEST_BODY_NOT_FOUND"
  const BAD_REQUEST_BODY_NOT_VALID := "BAD_REQUEST_BODY_NOT_VALID"

  // Keys of ServerErrors
  const INTERNAL_SERVER_ERROR := "INTERNAL_SERVER_ERROR"

  // Keys of AiErrors
  const CLIENT_RUN_FAIL := "CLIENT_RUN_FAIL"
  const REQUEST_FAILED := "REQUEST_FAILED"
  const UNHANDLED_EXCEPTION := "UNHANDLED_EXCEPTION"
  const FILE_NOT_FOUND := "FILE_NOT_FOUND"
  const FILENAME_NOT_ALLOWED := "FILENAME_NOT_ALLOWED"
  const ASSISTANT_NOT_FOUND := "ASSISTANT_NOT_FOUND"

  /** The `errors` table of each class. */
  function Table(c: ErrorClass): map<string, ErrorInfo> {
    match c
    case AuthenticationErrors =>
      map[
        TOKEN_EXPIRED := ErrorInfo("Token expired, login again to get a new one.", "token_expired"),
        INVALID_TOKEN := ErrorInfo("Signature verification failed", "invalid_token"),
        AUTH_REQUIRED := ErrorInfo("Authorization is required to access this resource", "auth_required"),
        USERNAME_ALREADY_TAKEN := ErrorInfo("Username already taken", "username_already_taken"),
        EMAIL_ALREADY_TAKEN := ErrorInfo("Email already in use", "email_already_taken"),
        INVALID_PASSWORD := ErrorInfo("Password is not valid", "invalid_password"),
        LOGIN_FAILED := ErrorInfo("Login failed", "login_failed"),
        INVALID_USER := ErrorInfo("The user who sent the request was not found", "invalid_user"),
        SUDO_PASSWORD_INCORRECT := ErrorInfo("The sudo password is incorrect", "sudo_password_incorrect")
      ]
    case RequestErrors =>
      map[
        BAD_REQUEST_BODY_NOT_FOUND := ErrorInfo("Bad request from client side, a json body was expected", "bad_request_body_not_found"),
        BAD_REQUEST_BODY_NOT_VALID := ErrorInfo("The request body was found, but its value is not valid", "bad_request_body_not_valid")
      ]
    case ServerErrors =>
      map[
        INTERNAL_SERVER_ERROR := ErrorInfo("An internal server error occured", "internal_server_error")
      ]
    case AiErrors =>
      map[
        CLIENT_RUN_FAIL := ErrorInfo("The call to the AI API failed.", "client_run_fail"),
        REQUEST_FAILED := ErrorInfo("Communication to the AI API failed.", "request_failed"),
        UNHANDLED_EXCEPTION := ErrorInfo("An unhandled exception occured.", "unhandled_exception"),
        FILE_NOT_FOUND := ErrorInfo("The file was not found in the request", "file_not_found"),
        FILENAME_NOT_ALLOWED := ErrorInfo("The filename is not allowed", "filename_not_allowed"),
        ASSISTANT_NOT_FOUND := ErrorInfo("The assistant was not found", "assistant_not_found")
      ]
  }

  /** The line the logging decorator writes for one lookup. */
  datatype LogEntry =
    | RetrievedWithException(cls: ErrorClass, info: ErrorInfo, exception: string)
    | Retrieved(cls: ErrorClass, info: ErrorInfo)
    | NotRetrieved(cls: ErrorClass, key: string)

  /** The value a lookup returns together with the line it logs. */
  datatype Lookup = Lookup(result: Option<ErrorInfo>, log: LogEntry)

  /** `cls.get_error_instance(key, exception)`, with the decorator's log line made visible. An `exception`
      that is absent or empty is falsy in the decorator and is not mentioned in the log. */
  function GetErrorInstanceLogged(c: ErrorClass, key: string, exception: Option<string>): (r: Lookup)
    ensures r.result.Some? <==> key in Table(c)
    ensures r.result.Some? ==> r.result.value == Table(c)[key]
    ensures r.log.NotRetrieved? <==> key !in Table(c)
    ensures r.log.RetrievedWithException? <==> key in Table(c) && exception.Some? && exception.value != ""
    ensures r.log.cls == c
  {
    var error := if key in Table(c) then Some(Table(c)[key]) else None;
    if error.Some? && exception.Some? && exception.value != "" then
      Lookup(error, RetrievedWithException(c, error.value, exception.value))
    else if error.Some? then
      Lookup(error, Retrieved(c, error.value))
    else
      Lookup(error, NotRetrieved(c, key))
  }

  /** The value handlers see from `cls.get_error_instance(key, exception)`. */
  function GetErrorInstance(c: ErrorClass, key: string, exception: Option<string> := None): Option<ErrorInfo> {
    GetErrorInstanceLogged(c, key, exception).result
  }

  /** The optional exception text changes only the log line, never the value returned. */
  lemma ExceptionOnlyAffectsLog(c: ErrorClass, key: string, e1: Option<string>, e2: Option<string>)
    ensures GetErrorInstance(c, key, e1) == GetErrorInstance(c, key, e2)
    ensures GetErrorInstance(c, key, e1) == GetErrorInstance(c, key)
  {
  }

  /** A key of a class's table yields exactly that table's entry. */
  lemma KnownKeyYieldsEntry(c: ErrorClass, key: string, exception: Option<string>)
    requires key in Table(c)
    ensures GetErrorInstance(c, key, exception) == Some(Table(c)[key])
  {
  }

  /** The keys each class declares as constants, as a set. */
  function DeclaredKeys(c: ErrorClass): set<string> {
    match c
    case AuthenticationErrors =>
      {TOKEN_EXPIRED, INVALID_TOKEN, AUTH_REQUIRED, USERNAME_ALREADY_TAKEN, EMAIL_ALREADY_TAKEN,
       INVALID_PASSWORD, LOGIN_FAILED, INVALID_USER, SUDO_PASSWORD_INCORRECT}
    case RequestErrors => {BAD_REQUEST_BODY_NOT_FOUND, BAD_REQUEST_BODY_NOT_VALID}
    case ServerErrors => {INTERNAL_SERVER_ERROR}
    case AiErrors =>
      {CLIENT_RUN_FAIL, REQUEST_FAILED, UNHANDLED_EXCEPTION, FILE_NOT_FOUND, FILENAME_NOT_ALLOWED, ASSISTANT_NOT_FOUND}
  }

  /** Each table holds exactly the keys its class declares: no constant is missing and nothing else is present. */
  lemma TableKeysAreDeclared(c: ErrorClass)
    ensures Table(c).Keys == DeclaredKeys(c)
  {
    match c
    case AuthenticationErrors =>
      assert Table(c).Keys == DeclaredKeys(c);
    case RequestErrors =>
    case ServerErrors =>
    case AiErrors =>
      assert Table(c).Keys == DeclaredKeys(c);
  }

  /** The key `'Not found'` is in no table, so every class answers `None` for it. */
  lemma UnknownKeyYieldsNone(c: ErrorClass)
    ensures "Not found" !in Table(c)
    ensures GetErrorInstance(c, "Not found") == None
  {
    TableKeysAreDeclared(c);
    // No declared key starts with 'N'.
    match c
    case AuthenticationErrors =>
    case RequestErrors =>
    case ServerErrors =>
    case AiErrors =>
  }

  /** No key belongs to two classes. */
  lemma TablesDisjoint(c1: ErrorClass, c2: ErrorClass)
    requires c1 != c2
    ensures Table(c1).Keys !! Table(c2).Keys
  {
    TableKeysAreDeclared(c1);
    TableKeysAreDeclared(c2);
    forall k | k in DeclaredKeys(c1)
      ensures k !in DeclaredKeys(c2)
    {
      KeyHasOneClass(k, c1, c2);
    }
  }

  lemma KeyHasOneClass(k: string, c1: ErrorClass, c2: ErrorClass)
    requires c1 != c2 && k in DeclaredKeys(c1)
    ensures k !in DeclaredKeys(c2)
  {
    // Keys of different classes already differ in length or in one of their first few characters.
  }

  /** Lookup goes through the class's own table: a key registered in another class yields `None`,
      e.g. `AuthenticationErrors.get_error_instance(CLIENT_RUN_FAIL)`. */
  lemma LookupIsPerClass(c: ErrorClass, other: ErrorClass, key: string)
    requires c != other && key in Table(other)
    ensures GetErrorInstance(c, key) == None
  {
    TablesDisjoint(c, other);
  }

  /** Every code in every table is the lower-case spelling of its key. */
  lemma CodesAreLowercaseKeys(c: ErrorClass, key: string)
    requires key in Table(c)
    ensures Table(c)[key].code == Text.Lower(key)
  {
    TableKeysAreDeclared(c);
    CodeIsLowercaseKey(c, key);
  }

  lemma CodeIsLowercaseKey(c: ErrorClass, key: string)
    requires key in DeclaredKeys(c) && key in Table(c)
    ensures Table(c)[key].code == Text.Lower(key)
  {
    LoweredKeys();
  }

  /** The lower-case spelling of every declared key (computed two keys at a time to keep each proof small). */
  lemma LoweredKeys()
    ensures Text.Lower(TOKEN_EXPIRED) == "token_expired"
    ensures Text.Lower(INVALID_TOKEN) == "invalid_token"
    ensures Text.Lower(AUTH_REQUIRED) == "auth_required"
    ensures Text.Lower(USERNAME_ALREADY_TAKEN) == "username_already_taken"
    ensures Text.Lower(EMAIL_ALREADY_TAKEN) == "email_already_taken"
    ensures Text.Lower(INVALID_PASSWORD) == "invalid_password"
    ensures Text.Lower(LOGIN_FAILED) == "login_failed"
    ensures Text.Lower(INVALID_USER) == "invalid_user"
    ensures Text.Lower(SUDO_PASSWORD_INCORRECT) == "sudo_password_incorrect"
    ensures Text.Lower(BAD_REQUEST_BODY_NOT_FOUND) == "bad_request_body_not_found"
    ensures Text.Lower(BAD_REQUEST_BODY_NOT_VALID) == "bad_request_body_not_valid"
    ensures Text.Lower(INTERNAL_SERVER_ERROR) == "internal_server_error"
    ensures Text.Lower(CLIENT_RUN_FAIL) == "client_run_fail"
    ensures Text.Lower(REQUEST_FAILED) == "request_failed"
    ensures Text.Lower(UNHANDLED_EXCEPTION) == "unhandled_exception"
    ensures Text.Lower(FILE_NOT_FOUND) == "file_not_found"
    ensures Text.Lower(FILENAME_NOT_ALLOWED) == "filename_not_allowed"
    ensures Text.Lower(ASSISTANT_NOT_FOUND) == "assistant_not_found"
  {
    KeysLowered0();
    KeysLowered1();
    KeysLowered2();
    KeysLowered3();
    KeysLowered4();
    KeysLowered5();
    KeysLowered6();
    KeysLowered7();
    KeysLowered8();
  }

  lemma KeysLowered0()
    ensures Text.Lower(TOKEN_EXPIRED) == "token_expired"
    ensures Text.Lower(INVALID_TOKEN) == "invalid_token"
  {
  }

  lemma KeysLowered1()
    ensures Text.Lower(AUTH_REQUIRED) == "auth_required"
    ensures Text.Lower(USERNAME_ALREADY_TAKEN) == "username_already_taken"
  {
  }

  lemma KeysLowered2()
    ensures Text.Lower(EMAIL_ALREADY_TAKEN) == "email_already_taken"
    ensures Text.Lower(INVALID_PASSWORD) == "invalid_password"
  {
  }

  lemma KeysLowered3()
    ensures Text.Lower(LOGIN_FAILED) == "login_failed"
    ensures Text.Lower(INVALID_USER) == "invalid_user"
  {
  }

  lemma KeysLowered4()
    ensures Text.Lower(SUDO_PASSWORD_INCORRECT) == "sudo_password_incorrect"
    ensures Text.Lower(BAD_REQUEST_BODY_NOT_FOUND) == "bad_request_body_not_found"
  {
  }

  lemma KeysLowered5()
    ensures Text.Lower(BAD_REQUEST_BODY_NOT_VALID) == "bad_request_body_not_valid"
    ensures Text.Lower(INTERNAL_SERVER_ERROR) == "internal_server_error"
  {
  }

  lemma KeysLowered6()
    ensures Text.Lower(CLIENT_RUN_FAIL) == "client_run_fail"
    ensures Text.Lower(REQUEST_FAILED) == "request_failed"
  {
  }

  lemma KeysLowered7()
    ensures Text.Lower(UNHANDLED_EXCEPTION) == "unhandled_exception"
    ensures Text.Lower(FILE_NOT_FOUND) == "file_not_found"
  {
  }

  lemma KeysLowered8()
    ensures Text.Lower(FILENAME_NOT_ALLOWED) == "filename_not_allowed"
    ensures Text.Lower(ASSISTANT_NOT_FOUND) == "assistant_not_found"
  {
  }
}
