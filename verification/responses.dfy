/** Response bodies and status codes as `src/api/utils/response_builder.py` builds them, plus the two
    ways a handler can end without a JSON body of its own (an uncaught exception, or a framework abort). */
module Responses {
  import opened Wrappers
  import opened Json
  import opened Errors

  /** What a handler returns: a JSON body with a status, or the framework's own error page for `status`
      (500 when an exception escapes the handler). */
  datatype Response = Reply(body: JsonObject, status: int) | Abort(status: int)

  /** `error_response(message, error_code, status_code=400)`. */
  function ErrorResponse(message: Json, errorCode: Json, statusCode: int := 400): (r: Response)
    ensures r.Reply? && r.status == statusCode
    ensures r.body.Keys == {"message", "error"}
    ensures r.body["message"] == message && r.body["error"] == errorCode
  {
    Reply(map["message" := message, "error" := errorCode], statusCode)
  }

  /** The fields `data` contributes: none when it is `None`. */
  function DataFields(data: Option<JsonObject>): JsonObject {
    if data.Some? then data.value else map[]
  }

  /** `success_response(message, data=None, status_code=200)`: the body starts as `{message}` and, when
      `data` is truthy (present and non-empty), is updated with `data`, whose keys win. */
  function SuccessResponse(message: Json, data: Option<JsonObject> := None, statusCode: int := 200): (r: Response)
    ensures r.Reply? && r.status == statusCode
    ensures r.body.Keys == {"message"} + DataFields(data).Keys
    ensures forall k :: k in DataFields(data) ==> r.body[k] == DataFields(data)[k]
    ensures "message" !in DataFields(data) ==> r.body["message"] == message
  {
    var response := map["message" := message];
    if data.Some? && data.value != map[] then Reply(response + data.value, statusCode)
    else Reply(response, statusCode)
  }

  /** An error response: status `statusCode`, exactly the fields `message` and `error`, and `error` = `code`. */
  predicate IsError(r: Response, statusCode: int, code: string) {
    r.Reply? && r.status == statusCode && r.body.Keys == {"message", "error"} && r.body["error"] == JStr(code)
  }

  /** A success response: the given status and the given `message`. */
  predicate IsSuccess(r: Response, statusCode: int, message: string) {
    r.Reply? && r.status == statusCode && "message" in r.body && r.body["message"] == JStr(message)
  }

  /** `error = C.get_error_instance(key); return error_response(error[0], error[1], status)`. Indexing the
      `None` an unknown key yields raises, which reaches the client as a 500 page. */
  function CatalogError(c: ErrorClass, key: string, statusCode: int := 400): (r: Response)
    ensures key in Table(c) ==> IsError(r, statusCode, Table(c)[key].code) && r.body["message"] == JStr(Table(c)[key].message)
    ensures key !in Table(c) ==> r == Abort(500)
  {
    match GetErrorInstance(c, key)
    case None => Abort(500)
    case Some(e) => ErrorResponse(JStr(e.message), JStr(e.code), statusCode)
  }

  /** `error = C.get_error_instance(key); return error_response(message, error[1], status)`: the catalogue
      supplies only the code and the handler its own message. */
  function CatalogCode(c: ErrorClass, key: string, message: Json, statusCode: int := 400): (r: Response)
    ensures key in Table(c) ==> IsError(r, statusCode, Table(c)[key].code) && r.body["message"] == message
    ensures key !in Table(c) ==> r == Abort(500)
  {
    match GetErrorInstance(c, key)
    case None => Abort(500)
    case Some(e) => ErrorResponse(message, JStr(e.code), statusCode)
  }

  /** With no status given, an error response has status 400 and a success response 200. */
  lemma DefaultStatuses(message: Json, code: Json)
    ensures ErrorResponse(message, code).status == 400
    ensures SuccessResponse(message).status == 200
  {
  }

  /** With `data` absent or empty the success body is exactly `{message}`. */
  lemma SuccessWithoutData(message: Json, data: Option<JsonObject>, statusCode: int)
    requires data.None? || data.value == map[]
    ensures SuccessResponse(message, data, statusCode).body == map["message" := message]
  {
  }

  /** A `message` key inside `data` overrides the message argument. */
  lemma DataMessageWins(message: Json, data: JsonObject, statusCode: int)
    requires "message" in data
    ensures SuccessResponse(message, Some(data), statusCode).body["message"] == data["message"]
  {
  }
}
