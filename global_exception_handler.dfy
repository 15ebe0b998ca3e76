/**
 * `GlobalExceptionHandler`: turns an exception escaping a controller into an HTTP status and a
 * JSON body. Spring picks the handler for the most specific declared type: validation errors,
 * `AnalysisException`, `DataAccessException`, and `Exception` for everything else. The clock
 * reading for the `timestamp` entry is passed in.
 */
module GlobalExceptionHandler {
  import opened Wrappers
  import opened Text
  import opened Exceptions

  const VALIDATION_FAILED := "Validation failed"
  const DATABASE_ERROR := "Database error"
  const UNEXPECTED_ERROR := "Unexpected error"

  /** A value of the response body map. */
  datatype BodyValue =
    | Timestamp(at: int)
    | Text(text: string)
    | FieldMessages(errors: map<string, Option<string>>)

  datatype Reply = Reply(status: int, body: map<string, BodyValue>)

  /** `createBaseBody(message)`: exactly a timestamp and the message. */
  function CreateBaseBody(message: string, now: int): (body: map<string, BodyValue>)
    ensures body.Keys == {"timestamp", "message"}
    ensures body["timestamp"] == Timestamp(now) && body["message"] == Text(message)
  {
    map["timestamp" := Timestamp(now), "message" := Text(message)]
  }

  /** `getClass().getSimpleName()`. */
  function SimpleName(ex: Exception): string {
    match ex
    case AnalysisException(_) => "AnalysisException"
    case ResponseStatusException(_, _) => "ResponseStatusException"
    case UnauthorizedException(_) => "UnauthorizedException"
    case ValidationException(_) => "MethodArgumentNotValidException"
    case DataAccessException(name, _) => name
    case OtherException(name, _) => name
  }

  /** `HttpStatusCode.toString()`: the code, then the constant's name for a known status. */
  function StatusText(code: int): string {
    IntToString(code)
    + if code == 400 then " BAD_REQUEST"
      else if code == 401 then " UNAUTHORIZED"
      else if code == 409 then " CONFLICT"
      else if code == 500 then " INTERNAL_SERVER_ERROR"
      else if code == 502 then " BAD_GATEWAY"
      else ""
  }

  /** `getMessage()`. A `ResponseStatusException` reports its status and quoted reason. */
  function Message(ex: Exception): Option<string> {
    match ex
    case AnalysisException(m) => Some(m)
    case ResponseStatusException(code, reason) => Some(StatusText(code) + " \"" + reason + "\"")
    case UnauthorizedException(m) => Some(m)
    case ValidationException(_) => Some(VALIDATION_FAILED)
    case DataAccessException(_, detail) => detail
    case OtherException(_, detail) => detail
  }

  /** `resolveMessage(prefix, ex)`: the prefix, a colon, then the exception's message, or its
      class name when the message is null or blank. */
  function ResolveMessage(prefix: string, ex: Exception): (r: string)
    ensures |r| >= |prefix| + 2 && r[..|prefix| + 2] == prefix + ": "
    ensures var d := Message(ex);
            r[|prefix| + 2..] == if d.None? || JavaIsBlank(d.value) then SimpleName(ex) else d.value
  {
    var detail := Message(ex);
    var shown := if detail.None? || JavaIsBlank(detail.value) then SimpleName(ex) else detail.value;
    prefix + ": " + shown
  }

  /** The `errors` map of `handleValidation`: one entry per field, holding the message of the
      last error reported for that field. */
  function FieldErrorMap(errs: seq<FieldError>): map<string, Option<string>> {
    if errs == [] then map[]
    else
      var last := errs[|errs| - 1];
      FieldErrorMap(errs[..|errs| - 1])[last.field := last.defaultMessage]
  }

  /** The error at `i` is the last one reported for its field. */
  ghost predicate LastFor(errs: seq<FieldError>, i: int) {
    0 <= i < |errs| && forall j :: i < j < |errs| ==> errs[j].field != errs[i].field
  }

  /** The `errors` map names exactly the fields with an error. */
  lemma {:induction false} FieldErrorMapKeys(errs: seq<FieldError>)
    ensures forall k :: k in FieldErrorMap(errs) <==> exists i :: 0 <= i < |errs| && errs[i].field == k
  {
    if errs != [] {
      var init := errs[..|errs| - 1];
      FieldErrorMapKeys(init);
      forall k | k in FieldErrorMap(errs) ensures exists i :: 0 <= i < |errs| && errs[i].field == k {
        if k != errs[|errs| - 1].field {
          assert k in FieldErrorMap(init);
          var i :| 0 <= i < |init| && init[i].field == k;
          assert errs[i] == init[i];
        }
      }
      forall k | exists i :: 0 <= i < |errs| && errs[i].field == k ensures k in FieldErrorMap(errs) {
        var i :| 0 <= i < |errs| && errs[i].field == k;
        if i < |init| {
          assert init[i] == errs[i];
        }
      }
    }
  }

  /** For each field the `errors` map keeps the message of the last error on that field: a
      later error on the same field overwrites an earlier one. */
  lemma {:induction false} FieldErrorMapLastWins(errs: seq<FieldError>, i: int)
    requires LastFor(errs, i)
    ensures errs[i].field in FieldErrorMap(errs)
    ensures FieldErrorMap(errs)[errs[i].field] == errs[i].defaultMessage
  {
    var init := errs[..|errs| - 1];
    if i < |init| {
      assert init[i] == errs[i];
      assert LastFor(init, i);
      FieldErrorMapLastWins(init, i);
    }
  }

  /** The handlers as declared: 400 with the field messages for a validation failure, 502 with
      the exception's message for an `AnalysisException`, 500 with a prefixed message for a
      `DataAccessException` and for every other exception. */
  function Handle(ex: Exception, now: int): (r: Reply)
    ensures "timestamp" in r.body && "message" in r.body
    ensures "errors" in r.body <==> ex.ValidationException?
    ensures r.status == if ex.ValidationException? then 400 else if ex.AnalysisException? then 502 else 500
    ensures ex.ValidationException? ==> r.body["message"] == Text(VALIDATION_FAILED)
    ensures ex.AnalysisException? ==> r.body["message"] == Text(ex.message)
    ensures ex.DataAccessException? ==> r.body["message"] == Text(ResolveMessage(DATABASE_ERROR, ex))
    ensures !(ex.ValidationException? || ex.AnalysisException? || ex.DataAccessException?) ==>
              r.body["message"] == Text(ResolveMessage(UNEXPECTED_ERROR, ex))
  {
    match ex
    case ValidationException(errs) =>
      Reply(400, CreateBaseBody(VALIDATION_FAILED, now)["errors" := FieldMessages(FieldErrorMap(errs))])
    case AnalysisException(m) => Reply(502, CreateBaseBody(m, now))
    case DataAccessException(_, _) => Reply(500, CreateBaseBody(ResolveMessage(DATABASE_ERROR, ex), now))
    case _ => Reply(500, CreateBaseBody(ResolveMessage(UNEXPECTED_ERROR, ex), now))
  }

  /** `handleValidation(ex)`: fills the `errors` map field error by field error. */
  method HandleValidation(fieldErrors: seq<FieldError>, now: int) returns (r: Reply)
    ensures r == Handle(ValidationException(fieldErrors), now)
  {
    var errors: map<string, Option<string>> := map[];
    var i := 0;
    while i < |fieldErrors|
      invariant 0 <= i <= |fieldErrors|
      invariant errors == FieldErrorMap(fieldErrors[..i])
    {
      assert fieldErrors[..i + 1][..i] == fieldErrors[..i];
      errors := errors[fieldErrors[i].field := fieldErrors[i].defaultMessage];
      i := i + 1;
    }
    assert fieldErrors[..i] == fieldErrors;
    r := Reply(400, CreateBaseBody(VALIDATION_FAILED, now)["errors" := FieldMessages(errors)]);
  }

  /** A decimal rendering starts with a digit or a minus sign, never with white space. */
  lemma {:induction false} RenderedNumberStartsVisibly(n: nat)
    ensures '0' <= NatToString(n)[0] <= '9'
  {
    if n >= 10 {
      RenderedNumberStartsVisibly(n / 10);
    }
  }

  /** As declared, every `ResponseStatusException` (the BAD_REQUEST and CONFLICT that `register`
      raises among them) reaches the catch-all handler and is answered 500, its status folded
      into the message. */
  lemma StatusExceptionAnsweredAsServerError(code: int, reason: string, now: int)
    ensures var r := Handle(ResponseStatusException(code, reason), now);
            r.status == 500
            && r.body["message"] == Text(UNEXPECTED_ERROR + ": " + StatusText(code) + " \"" + reason + "\"")
  {
    StatusMessageNotBlank(code, reason);
  }

  /** The message of a `ResponseStatusException` starts with its status number, so it is never
      blank and is shown after the prefix as it is. */
  lemma StatusMessageNotBlank(code: int, reason: string)
    ensures Message(ResponseStatusException(code, reason)) == Some(StatusText(code) + " \"" + reason + "\"")
    ensures !JavaIsBlank(Message(ResponseStatusException(code, reason)).value)
    ensures ResolveMessage(UNEXPECTED_ERROR, ResponseStatusException(code, reason))
            == UNEXPECTED_ERROR + ": " + StatusText(code) + " \"" + reason + "\""
  {
    var m := Message(ResponseStatusException(code, reason)).value;
    RenderedNumberStartsVisibly(if code < 0 then -code else code);
    assert m[0] == IntToString(code)[0];
    assert !JavaWhitespace(m[0]);
  }

  /** Example: the status text of the CONFLICT raised for a taken username, as it appears in the
      500 message that StatusExceptionAnsweredAsServerError describes. */
  lemma ConflictStatusText()
    ensures StatusText(409) == "409 CONFLICT"
  {
    assert NatToString(4) == "4";
    assert NatToString(40) == "40";
    assert NatToString(409) == "409";
  }

  /** The mapping with status exceptions honoured: a `ResponseStatusException` answers with its
      own status and reason, an `UnauthorizedException` with 401 and its message; every other
      exception is handled as declared. */
  function HandleHonouringStatus(ex: Exception, now: int): (r: Reply)
    ensures "timestamp" in r.body && "message" in r.body
    ensures ex.ResponseStatusException? ==> r.status == ex.status && r.body["message"] == Text(ex.reason)
    ensures ex.UnauthorizedException? ==> r.status == 401 && r.body["message"] == Text(ex.message)
    ensures !(ex.ResponseStatusException? || ex.UnauthorizedException?) ==> r == Handle(ex, now)
  {
    match ex
    case ResponseStatusException(code, reason) => Reply(code, CreateBaseBody(reason, now))
    case UnauthorizedException(m) => Reply(401, CreateBaseBody(m, now))
    case _ => Handle(ex, now)
  }
}
