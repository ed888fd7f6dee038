/** JSON values as the handlers read them from request bodies and JWT claims and write them into responses. */
module Json {
  import opened Wrappers

  datatype TokenKind = Access | Refresh

  /** A signed JWT, kept as the claims it is signed over: the identity it names and its lifetime in
      seconds, where `None` stands for the application's configured default lifetime. */
  datatype Token = Token(kind: TokenKind, identity: Json, expiresIn: Option<nat>)

  /** A JSON value; `JToken` is the string a JWT encodes to, kept symbolic. */
  datatype Json =
    | JNull
    | JBool(b: bool)
    | JInt(i: int)
    | JStr(s: string)
    | JList(items: seq<Json>)
    | JObj(fields: map<string, Json>)
    | JToken(token: Token)

  /** A JSON object: a request body, a set of JWT claims or a response body. */
  type JsonObject = map<string, Json>

  /** Python's `d.get(key)`: the value, or `None` when the key is absent. */
  function Get(obj: JsonObject, key: string): Json {
    if key in obj then obj[key] else JNull
  }

  /** Python truthiness of a decoded JSON value: `None`, `False`, `0`, `""`, `[]` and `{}` are false. */
  predicate Truthy(j: Json) {
    match j
    case JNull => false
    case JBool(b) => b
    case JInt(i) => i != 0
    case JStr(s) => s != []
    case JList(items) => items != []
    case JObj(fields) => fields != map[]
    case JToken(_) => true
  }
}
