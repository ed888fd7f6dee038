/** `RegistrationSchema` of `src/api/schema/registration_schema.py` as marshmallow loads it: four required
    string fields (`email` also in email format), the sudo-password check on `sudoPassword`, and unknown
    fields refused; all problems are reported together as a map from field name to messages. */
module Registration {
  import opened Wrappers
  import opened Json

  /** What the schema reads from outside the request: the configured `SUDO_PASSWORD`, and the email-format
      check of marshmallow's `fields.Email`, which is library behaviour and is taken as given. */
  datatype SchemaConfig = SchemaConfig(sudoPassword: string, isEmail: string -> bool)

  /** The loaded fields. */
  datatype RegistrationData = RegistrationData(username: string, email: string, password: string, sudoPassword: string)

  const MISSING := "Missing data for required field."
  const NULL_VALUE := "Field may not be null."
  const NOT_A_STRING := "Not a valid string."
  const NOT_AN_EMAIL := "Not a valid email address."
  const UNKNOWN_FIELD := "Unknown field."
  const SUDO_INCORRECT := "Sudo password is incorrect"

  /** The declared fields. */
  predicate Declared(name: string) {
    name == "username" || name == "email" || name == "password" || name == "sudoPassword"
  }

  /** The messages the schema records under `name`; empty when that key is fine. A declared field is
      checked for presence, then null, then type (`fields.Email` words its type error as a format error),
      then its validator; a key the schema does not declare is refused as unknown. */
  function FieldErrors(body: JsonObject, name: string, cfg: SchemaConfig): seq<string> {
    if !Declared(name) then (if name in body then [UNKNOWN_FIELD] else [])
    else if name !in body then [MISSING]
    else
      match body[name]
      case JNull => [NULL_VALUE]
      case JStr(v) =>
        if name == "email" && !cfg.isEmail(v) then [NOT_AN_EMAIL]
        else if name == "sudoPassword" && v != cfg.sudoPassword then [SUDO_INCORRECT]
        else []
      case _ => if name == "email" then [NOT_AN_EMAIL] else [NOT_A_STRING]
  }

  /** A list of messages as JSON: a list of strings, in order. */
  function MessageList(errs: seq<string>): (j: Json)
    ensures j.JList? && |j.items| == |errs|
    ensures forall i :: 0 <= i < |errs| ==> j.items[i] == JStr(errs[i])
  {
    JList(seq(|errs|, i requires 0 <= i < |errs| => JStr(errs[i])))
  }

  /** `err.messages`: every key with a complaint, mapped to its list of messages. */
  function Messages(body: JsonObject, cfg: SchemaConfig): (m: JsonObject)
    ensures forall k :: k in m <==> (k in body || Declared(k)) && FieldErrors(body, k, cfg) != []
    ensures forall k :: k in m ==> m[k] == MessageList(FieldErrors(body, k, cfg))
  {
    var keys := body.Keys + {"username", "email", "password", "sudoPassword"};
    map k | k in keys && FieldErrors(body, k, cfg) != [] :: MessageList(FieldErrors(body, k, cfg))
  }

  /** The field `name` is present and holds a string. */
  predicate HasString(body: JsonObject, name: string) {
    name in body && body[name].JStr?
  }

  /** The conditions under which the schema accepts a body: the four fields are strings, the email is
      well formed, the sudo password is the configured one, and no other key is present. */
  predicate Acceptable(body: JsonObject, cfg: SchemaConfig) {
    && HasString(body, "username") && HasString(body, "email")
    && HasString(body, "password") && HasString(body, "sudoPassword")
    && cfg.isEmail(body["email"].s)
    && body["sudoPassword"].s == cfg.sudoPassword
    && (forall k :: k in body ==> Declared(k))
  }

  /** No field has a complaint exactly when the body is acceptable. */
  lemma NoMessagesIffAcceptable(body: JsonObject, cfg: SchemaConfig)
    ensures Messages(body, cfg) == map[] <==> Acceptable(body, cfg)
  {
    var m := Messages(body, cfg);
    if m == map[] {
      assert "username" !in m && "email" !in m && "password" !in m && "sudoPassword" !in m;
      forall k | k in body ensures Declared(k) {
        assert k !in m;
      }
    }
    if Acceptable(body, cfg) {
      forall k ensures FieldErrors(body, k, cfg) == [] {
      }
      assert m.Keys == {};
    }
  }

  /** `RegistrationSchema().load(data)`. */
  function Load(body: JsonObject, cfg: SchemaConfig): (r: Result<RegistrationData, JsonObject>)
    ensures r.Ok? <==>
              && HasString(body, "username") && HasString(body, "email")
              && HasString(body, "password") && HasString(body, "sudoPassword")
              && cfg.isEmail(body["email"].s)
              && body["sudoPassword"].s == cfg.sudoPassword
              && (forall k :: k in body ==> Declared(k))
    ensures r.Ok? ==> r.value == RegistrationData(body["username"].s, body["email"].s, body["password"].s, body["sudoPassword"].s)
    ensures r.Err? ==> r.error != map[] && r.error == Messages(body, cfg)
  {
    NoMessagesIffAcceptable(body, cfg);
    var m := Messages(body, cfg);
    if m != map[] then Err(m)
    else Ok(RegistrationData(body["username"].s, body["email"].s, body["password"].s, body["sudoPassword"].s))
  }

  /** What loading reports under `name`, when `name` has exactly the one complaint `message`. */
  lemma ReportedAs(body: JsonObject, cfg: SchemaConfig, name: string, message: string)
    requires (name in body || Declared(name)) && FieldErrors(body, name, cfg) == [message]
    ensures Load(body, cfg).Err?
    ensures name in Load(body, cfg).error && Load(body, cfg).error[name] == JList([JStr(message)])
  {
    var m := Messages(body, cfg);
    assert name in m;
    assert MessageList([message]).items == [JStr(message)];
  }

  /** Any `sudoPassword` string other than the configured one is reported under `sudoPassword`. */
  lemma WrongSudoPasswordRejected(body: JsonObject, cfg: SchemaConfig)
    requires HasString(body, "sudoPassword") && body["sudoPassword"].s != cfg.sudoPassword
    ensures Load(body, cfg).Err?
    ensures "sudoPassword" in Load(body, cfg).error
    ensures Load(body, cfg).error["sudoPassword"] == JList([JStr(SUDO_INCORRECT)])
  {
    ReportedAs(body, cfg, "sudoPassword", SUDO_INCORRECT);
  }

  /** Each required field that is absent is reported as missing, and loading fails. */
  lemma MissingFieldRejected(body: JsonObject, cfg: SchemaConfig, name: string)
    requires Declared(name) && name !in body
    ensures Load(body, cfg).Err?
    ensures name in Load(body, cfg).error && Load(body, cfg).error[name] == JList([JStr(MISSING)])
  {
    ReportedAs(body, cfg, name, MISSING);
  }

  /** Each required field given as `null` is reported as null. */
  lemma NullFieldRejected(body: JsonObject, cfg: SchemaConfig, name: string)
    requires Declared(name) && name in body && body[name] == JNull
    ensures Load(body, cfg).Err?
    ensures name in Load(body, cfg).error && Load(body, cfg).error[name] == JList([JStr(NULL_VALUE)])
  {
    ReportedAs(body, cfg, name, NULL_VALUE);
  }

  /** A `username`, `password` or `sudoPassword` that is neither a string nor `null` is reported as not a string. */
  lemma NonStringFieldRejected(body: JsonObject, cfg: SchemaConfig, name: string)
    requires Declared(name) && name != "email" && name in body && !body[name].JStr? && body[name] != JNull
    ensures Load(body, cfg).Err?
    ensures name in Load(body, cfg).error && Load(body, cfg).error[name] == JList([JStr(NOT_A_STRING)])
  {
    ReportedAs(body, cfg, name, NOT_A_STRING);
  }

  /** An `email` that is neither a string nor `null` is reported as not an email address. */
  lemma NonStringEmailRejected(body: JsonObject, cfg: SchemaConfig)
    requires "email" in body && !body["email"].JStr? && body["email"] != JNull
    ensures Load(body, cfg).Err?
    ensures "email" in Load(body, cfg).error && Load(body, cfg).error["email"] == JList([JStr(NOT_AN_EMAIL)])
  {
    ReportedAs(body, cfg, "email", NOT_AN_EMAIL);
  }

  /** An `email` string that fails the format check is reported as not an email address. */
  lemma MalformedEmailRejected(body: JsonObject, cfg: SchemaConfig)
    requires HasString(body, "email") && !cfg.isEmail(body["email"].s)
    ensures Load(body, cfg).Err?
    ensures "email" in Load(body, cfg).error && Load(body, cfg).error["email"] == JList([JStr(NOT_AN_EMAIL)])
  {
    ReportedAs(body, cfg, "email", NOT_AN_EMAIL);
  }

  /** A key the schema does not declare is reported as unknown. */
  lemma UnknownFieldRejected(body: JsonObject, cfg: SchemaConfig, name: string)
    requires name in body && !Declared(name)
    ensures Load(body, cfg).Err?
    ensures name in Load(body, cfg).error && Load(body, cfg).error[name] == JList([JStr(UNKNOWN_FIELD)])
  {
    ReportedAs(body, cfg, name, UNKNOWN_FIELD);
  }
}
