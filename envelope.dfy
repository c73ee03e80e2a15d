/**
 * The JSON envelope every Imam endpoint answers with (`_response` and
 * `_error`): the HTTP status plus a body carrying `data`, `status`,
 * `message` and, only when given a truthy value, `code`, `errors`, `meta`.
 */
module Envelope {
  import opened JsonValue

  /** An HTTP reply: its status code and its JSON body. */
  datatype Reply = Reply(status: int, body: map<string, Json>)

  /** The six keys an envelope may carry. */
  predicate EnvelopeKey(k: string)
  {
    k == "data" || k == "status" || k == "message" || k == "code" || k == "errors" || k == "meta"
  }

  /** Adds `key: value` to the body only when the value is truthy (`if code: payload["code"] = code`). */
  function PutIfTruthy(body: map<string, Json>, key: string, value: Json): (r: map<string, Json>)
  {
    if Truthy(value) then body[key := value] else body
  }

  /**
   * `_response(data, status, message, code, errors, meta)`.  The body says
   * "success" exactly for statuses below 400, and the optional keys appear
   * exactly when their argument is truthy.
   */
  function Respond(data: Json, status: int, message: string, code: Json, errors: Json, meta: Json): (r: Reply)
    ensures r.status == status
    ensures forall k :: k in r.body ==> EnvelopeKey(k)
    ensures "data" in r.body && r.body["data"] == data
    ensures "message" in r.body && r.body["message"] == JStr(message)
    ensures "status" in r.body
    ensures r.body["status"] == JStr("success") <==> status < 400
    ensures r.body["status"] == JStr("error") <==> status >= 400
    ensures ("code" in r.body <==> Truthy(code)) && ("code" in r.body ==> r.body["code"] == code)
    ensures ("errors" in r.body <==> Truthy(errors)) && ("errors" in r.body ==> r.body["errors"] == errors)
    ensures ("meta" in r.body <==> Truthy(meta)) && ("meta" in r.body ==> r.body["meta"] == meta)
  {
    var base := map[
      "data" := data,
      "status" := JStr(if status < 400 then "success" else "error"),
      "message" := JStr(message)];
    Reply(status, PutIfTruthy(PutIfTruthy(PutIfTruthy(base, "code", code), "errors", errors), "meta", meta))
  }

  /**
   * `_error(message, code, status, errors)`: an envelope with no data.  The
   * numeric `code` is echoed only when it is non-zero.
   */
  function Error(message: string, code: int, status: int, errors: Json): (r: Reply)
    ensures r.status == status
    ensures "data" in r.body && r.body["data"] == JNull
    ensures "message" in r.body && r.body["message"] == JStr(message)
    ensures status >= 400 ==> "status" in r.body && r.body["status"] == JStr("error")
    ensures "code" in r.body <==> code != 0
    ensures "code" in r.body ==> r.body["code"] == JNum(code)
    ensures "errors" in r.body <==> Truthy(errors)
    ensures "errors" in r.body ==> r.body["errors"] == errors
    ensures "meta" !in r.body
  {
    Respond(JNull, status, message, JNum(code), errors, JNull)
  }

  /** A plain 200 envelope: it reports success and carries neither code, errors nor meta. */
  lemma SuccessEnvelope(data: Json, message: string)
    ensures var r := Respond(data, 200, message, JNull, JNull, JNull);
      r.body.Keys == {"data", "status", "message"} && r.body["status"] == JStr("success")
  {
    var r := Respond(data, 200, message, JNull, JNull, JNull);
    assert forall k :: k in r.body ==> k == "data" || k == "status" || k == "message";
  }
}
