/**
 * The password-reset request (auth.py, forgot_password): the address is
 * checked, trimmed and lower-cased, looked up among the users, and the
 * framework's reset mail is triggered. Every outcome is a JSON body with
 * `data`, `status`, `code`, `message`, `meta` and, on errors, `errors`.
 *
 * The request id, the timestamp, the user table and the outcome of the
 * framework's reset call are inputs.
 */
module PasswordReset {
  import opened Wrappers
  import opened JsonValue
  import opened Text
  import opened Envelope

  /** What the framework's reset call raised: a validation error or any other exception. */
  datatype Raised = ValidationRaised(msg: string) | OtherRaised(msg: string)

  const MISSING_EMAIL := "Missing required field: 'email'"
  const VALIDATION_FAILED := "Validation failed."
  const USER_NOT_FOUND := "User not found."
  const RESET_FAILED := "Failed to send password reset link."
  const RESET_SENT := "Password reset link sent to email."

  /** The 404 description, naming the address as it was looked up. */
  function NoUserWith(userEmail: string): string
  {
    "No user exists with email '" + userEmail + "'."
  }

  /** The address as it is looked up: surrounding whitespace removed, then lower-cased. */
  function NormaliseEmail(email: string): (r: string)
    ensures |r| <= |email|
    ensures r == [] <==> AllSpace(email)
    ensures forall i :: 0 <= i < |r| ==> !('A' <= r[i] <= 'Z')
  {
    LowerIdempotent(Strip(email));
    Lower(Strip(email))
  }

  /** The `meta` object every reply carries. */
  function Meta(requestId: string, timestamp: string): (r: Json)
    ensures r.JObj? && r.fields.Keys == {"request_id", "timestamp"}
    ensures r.fields["request_id"] == JStr(requestId) && r.fields["timestamp"] == JStr(timestamp)
    ensures Truthy(r)
  {
    JObj(map["request_id" := JStr(requestId), "timestamp" := JStr(timestamp)])
  }

  /** An error body: no data, the numeric code, a message and a description. */
  function FailureReply(status: int, message: string, description: string, meta: Json): (r: Reply)
    ensures r.status == status
    ensures "data" in r.body && "status" in r.body && "code" in r.body && "message" in r.body
    ensures "errors" in r.body && "meta" in r.body
    ensures r.body["data"] == JNull && r.body["status"] == JStr("error") && r.body["code"] == JNum(status)
    ensures r.body["message"] == JStr(message) && r.body["meta"] == meta
    ensures r.body["errors"] == JObj(map["description" := JStr(description)])
  {
    Reply(status, map[
      "data" := JNull,
      "status" := JStr("error"),
      "code" := JNum(status),
      "message" := JStr(message),
      "errors" := Description(description),
      "meta" := meta])
  }

  /** The success body: the looked-up address as data, no `errors`. */
  function SuccessReply(userEmail: string, meta: Json): (r: Reply)
    ensures r.status == 200
    ensures "data" in r.body && "status" in r.body && "code" in r.body && "message" in r.body
    ensures "errors" !in r.body && "meta" in r.body
    ensures r.body["data"] == JObj(map["email" := JStr(userEmail)]) && r.body["status"] == JStr("success")
    ensures r.body["code"] == JNum(200) && r.body["meta"] == meta
    ensures r.body["message"] == JStr(RESET_SENT)
  {
    Reply(200, map[
      "data" := JObj(map["email" := JStr(userEmail)]),
      "status" := JStr("success"),
      "code" := JNum(200),
      "message" := JStr(RESET_SENT),
      "meta" := meta])
  }

  /**
   * forgot_password. A missing address is a validation failure (400); an
   * unknown one is 404 naming the normalised address; a reset call that
   * raises is 400 for a validation error and 500 otherwise; else 200 with
   * the normalised address as data.
   */
  function ForgotPassword(email: string, users: set<string>, resetError: Option<Raised>,
                          requestId: string, timestamp: string): (r: Reply)
    ensures r.status in {200, 400, 404, 500}
    ensures "meta" in r.body && r.body["meta"] == Meta(requestId, timestamp)
    ensures "code" in r.body && r.body["code"] == JNum(r.status)
    ensures "data" in r.body && "status" in r.body && "message" in r.body
    ensures "errors" in r.body <==> r.status != 200
    ensures r.status == 200 <==> email != "" && NormaliseEmail(email) in users && resetError.None?
    ensures r.status == 404 <==> email != "" && NormaliseEmail(email) !in users
    ensures r.status == 500 <==> email != "" && NormaliseEmail(email) in users && resetError.Some? && resetError.value.OtherRaised?
    ensures email == "" ==> r.status == 400 && r.body["errors"] == Description(MISSING_EMAIL)
    ensures r.status == 200 ==> r.body["data"] == JObj(map["email" := JStr(NormaliseEmail(email))])
    ensures r.status != 200 ==> r.body["data"] == JNull && r.body["status"] == JStr("error")
    ensures email == "" ==> r == FailureReply(400, VALIDATION_FAILED, MISSING_EMAIL, Meta(requestId, timestamp))
    ensures email != "" && NormaliseEmail(email) !in users ==>
      r == FailureReply(404, USER_NOT_FOUND, NoUserWith(NormaliseEmail(email)), Meta(requestId, timestamp))
    ensures email != "" && NormaliseEmail(email) in users && resetError.None? ==>
      r == SuccessReply(NormaliseEmail(email), Meta(requestId, timestamp))
    ensures email != "" && NormaliseEmail(email) in users && resetError.Some? && resetError.value.ValidationRaised? ==>
      r == FailureReply(400, VALIDATION_FAILED, resetError.value.msg, Meta(requestId, timestamp))
    ensures email != "" && NormaliseEmail(email) in users && resetError.Some? && resetError.value.OtherRaised? ==>
      r == FailureReply(500, RESET_FAILED, resetError.value.msg, Meta(requestId, timestamp))
  {
    var meta := Meta(requestId, timestamp);
    if email == "" then
      FailureReply(400, VALIDATION_FAILED, MISSING_EMAIL, meta)
    else
      var userEmail := NormaliseEmail(email);
      if userEmail !in users then
        FailureReply(404, USER_NOT_FOUND, NoUserWith(userEmail), meta)
      else
        if resetError.None? then SuccessReply(userEmail, meta)
        else if resetError.value.ValidationRaised? then FailureReply(400, VALIDATION_FAILED, resetError.value.msg, meta)
        else FailureReply(500, RESET_FAILED, resetError.value.msg, meta)
  }

  /** Normalising an already normalised address changes nothing. */
  lemma NormaliseEmailIdempotent(email: string)
    ensures NormaliseEmail(NormaliseEmail(email)) == NormaliseEmail(email)
  {
    var core := Strip(email);
    var lowered := Lower(core);
    if core != [] {
      LowerKeepsSpaces(core[0]);
      LowerKeepsSpaces(core[|core| - 1]);
      StripPadded([], lowered, []);
      assert [] + lowered + [] == lowered;
    }
    LowerIdempotent(core);
  }

  /**
   * Resubmitting the address in the form the success reply echoes gives
   * the same reply: padding and upper case never decide the outcome.
   */
  lemma ResubmitNormalisedSameReply(email: string, users: set<string>, resetError: Option<Raised>,
                                    requestId: string, timestamp: string)
    requires !AllSpace(email)
    ensures ForgotPassword(NormaliseEmail(email), users, resetError, requestId, timestamp)
         == ForgotPassword(email, users, resetError, requestId, timestamp)
  {
    NormaliseEmailIdempotent(email);
  }

  /**
   * An address made only of whitespace is not missing: it passes the
   * first check and is looked up as the empty address.
   */
  lemma BlankEmailLookedUpAsEmpty(email: string, users: set<string>, resetError: Option<Raised>,
                                  requestId: string, timestamp: string)
    requires email != "" && AllSpace(email)
    requires "" !in users
    ensures var r := ForgotPassword(email, users, resetError, requestId, timestamp);
      r.status == 404 && r.body["errors"] == Description("No user exists with email ''.")
  {
    assert NormaliseEmail(email) == "";
    assert NoUserWith("") == "No user exists with email ''.";
  }

  /**
   * The error bodies have the shape of the Imam endpoints' envelope, with
   * the HTTP status repeated as `code`.
   */
  lemma FailureFollowsEnvelope(status: int, message: string, description: string, requestId: string, timestamp: string)
    requires status >= 400
    ensures FailureReply(status, message, description, Meta(requestId, timestamp))
         == Respond(JNull, status, message, JNum(status), Description(description), Meta(requestId, timestamp))
  {
    var meta := Meta(requestId, timestamp);
    var r := FailureReply(status, message, description, meta);
    var e := Respond(JNull, status, message, JNum(status), Description(description), meta);
    assert Truthy(meta) by {
      assert "request_id" in map["request_id" := JStr(requestId), "timestamp" := JStr(timestamp)];
    }
    assert r.body.Keys == e.body.Keys;
  }

  /** So has the success body, which carries no `errors`. */
  lemma SuccessFollowsEnvelope(userEmail: string, requestId: string, timestamp: string)
    ensures SuccessReply(userEmail, Meta(requestId, timestamp))
         == Respond(JObj(map["email" := JStr(userEmail)]), 200, RESET_SENT,
                    JNum(200), JNull, Meta(requestId, timestamp))
  {
    var meta := Meta(requestId, timestamp);
    var r := SuccessReply(userEmail, meta);
    var e := Respond(JObj(map["email" := JStr(userEmail)]), 200, RESET_SENT,
                     JNum(200), JNull, meta);
    assert Truthy(meta) by {
      assert "request_id" in map["request_id" := JStr(requestId), "timestamp" := JStr(timestamp)];
    }
    assert r.body.Keys == e.body.Keys;
  }
}
