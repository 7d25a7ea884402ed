/** The response envelope and the validation-result middleware of
    backend/src/utils/apiUtils.ts. */
module ApiUtils {
  import opened Wrappers
  import opened JsValues

  /** The body `sendResponse` serialises: `data` and `message` are optional
      properties, absent when `None`. */
  datatype Envelope = Envelope(success: bool, timestamp: string, data: Option<Json>, message: Option<string>)

  /** The status and body handed to `res.status(..).json(..)`. */
  datatype Sent = Sent(status: int, body: Envelope)

  /** `sendResponse(res, status, success, data, message)`: `data` is the
      JavaScript value passed (`null` being `Json.Null`), `message` the
      optional string; `timestamp` stands for the current time's ISO form. */
  function SendResponse(status: int, success: bool, data: Json, message: Option<string>, timestamp: string): (r: Sent)
    ensures r.status == status
    ensures r.body.success == success && r.body.timestamp == timestamp
    ensures r.body.data.Some? <==> Truthy(data)
    ensures r.body.data.Some? ==> r.body.data.value == data
    ensures r.body.message.Some? <==> message.Some? && message.value != ""
    ensures r.body.message.Some? ==> r.body.message == message
  {
    var withData := if Truthy(data) then Some(data) else None;
    var withMessage := if message.Some? && message.value != "" then message else None;
    Sent(status, Envelope(success, timestamp, withData, withMessage))
  }

  /** One entry of express-validator's `validationResult(req).array()`. */
  datatype ValidationError = ValidationError(param: string, msg: string)

  /** The `reduce` that formats the errors: every param is sent to the
      message of its last error in array order. */
  function FormatErrors(errors: seq<ValidationError>): (formatted: map<string, string>)
    ensures forall p :: p in formatted <==> exists i :: 0 <= i < |errors| && errors[i].param == p
  {
    if errors == [] then map[]
    else
      var last := errors[|errors| - 1];
      FormatErrors(errors[..|errors| - 1])[last.param := last.msg]
  }

  /** The index of the last error for `p`, searching down from the end. */
  lemma {:induction false} LastErrorWins(errors: seq<ValidationError>, i: nat)
    requires i < |errors|
    requires forall j :: i < j < |errors| ==> errors[j].param != errors[i].param
    ensures errors[i].param in FormatErrors(errors)
    ensures FormatErrors(errors)[errors[i].param] == errors[i].msg
  {
    if i < |errors| - 1 {
      var front := errors[..|errors| - 1];
      assert front[i] == errors[i];
      forall j | i < j < |front| ensures front[j].param != front[i].param {
        assert front[j] == errors[j];
      }
      LastErrorWins(front, i);
    }
  }

  /** What `validate(validations)` does once the chains have run. */
  datatype Outcome =
    | Next
    | Reject(status: int, success: bool, errors: map<string, string>, message: string)

  function Validate(errors: seq<ValidationError>): (r: Outcome)
    ensures r.Next? <==> errors == []
    ensures r.Reject? ==> r.status == 400 && !r.success && r.message == "Validation failed"
    ensures r.Reject? ==> r.errors.Keys == set e | e in errors :: e.param
  {
    if errors == [] then Next
    else
      var formatted := FormatErrors(errors);
      assert forall p :: p in formatted <==> p in set e | e in errors :: e.param by {
        forall p ensures p in formatted <==> p in set e | e in errors :: e.param {
          if p in formatted {
            var i :| 0 <= i < |errors| && errors[i].param == p;
            assert errors[i] in errors;
          }
        }
      }
      Reject(400, false, formatted, "Validation failed")
  }

  /** A rejected request carries at least one formatted error. */
  lemma RejectionNonEmpty(errors: seq<ValidationError>)
    requires errors != []
    ensures Validate(errors).Reject? && Validate(errors).errors != map[]
  {
    assert errors[0].param in Validate(errors).errors;
  }
}
