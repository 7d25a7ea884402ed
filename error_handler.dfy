/** `AppError` and the Express error-handling middleware of
    backend/src/utils/errorHandler.ts. A thrown error is modelled by the
    properties the handler inspects; the log lines are left out. */
module ErrorHandler {
  import opened Wrappers

  /** An operational error raised by the application, with its HTTP status. */
  datatype AppError = AppError(message: string, statusCode: int, isOperational: bool)

  /** `new AppError(message, statusCode)`. */
  function NewAppError(message: string, statusCode: int): (e: AppError)
    ensures e.message == message && e.statusCode == statusCode
    ensures e.isOperational
  {
    AppError(message, statusCode, true)
  }

  /** What the handler can see of a thrown error:
      - `statusCode`: present (an `AppError`, or any error carrying that property) or not;
      - `validation`: the `errors` of a Mongoose ValidationError, as its keys in
        order, each with the message of its entry or `None` for a falsy entry;
      - `code` and `keyValue`: the fields of a MongoDB server error, the values
        of `keyValue` as they render in a template string;
      - `path` and `value`: the fields of a CastError, likewise rendered. */
  datatype ThrownError = ThrownError(
    name: string,
    message: string,
    stack: Option<string>,
    statusCode: Option<int>,
    validation: Option<seq<(string, Option<string>)>>,
    code: Option<int>,
    keyValue: Option<seq<(string, string)>>,
    path: string,
    value: string)

  /** An `AppError` as thrown: an `Error` carrying its own `statusCode`. */
  function Thrown(e: AppError, stack: Option<string>): ThrownError {
    ThrownError("Error", e.message, stack, Some(e.statusCode), None, None, None, "", "")
  }

  /** The JSON body and status the handler sends. */
  datatype ErrorResponse = ErrorResponse(
    status: int,
    success: bool,
    error: string,
    details: Option<map<string, string>>,
    stack: Option<string>,
    timestamp: string)

  const DefaultStatus := 500
  const DefaultMessage := "Something went wrong"

  /** The branches of the handler, tried in order; the first that applies wins. */
  predicate IsStatusError(err: ThrownError) {
    err.statusCode.Some?
  }

  predicate IsValidationError(err: ThrownError) {
    !IsStatusError(err) && err.validation.Some?
  }

  predicate IsDuplicateKeyError(err: ThrownError) {
    && !IsStatusError(err) && !IsValidationError(err)
    && (err.name == "MongoError" || err.name == "MongoServerError")
    && err.code == Some(11000)
  }

  predicate IsCastError(err: ThrownError) {
    !IsStatusError(err) && !IsValidationError(err) && !IsDuplicateKeyError(err) && err.name == "CastError"
  }

  /** The `details` of a validation failure: the `reduce` over the error keys,
      recording the message of every truthy entry. */
  function ValidationDetails(errors: seq<(string, Option<string>)>): (details: map<string, string>)
    ensures forall k :: k in details <==> exists i :: 0 <= i < |errors| && errors[i].0 == k && errors[i].1.Some?
  {
    if errors == [] then map[]
    else
      var acc := ValidationDetails(errors[..|errors| - 1]);
      var last := errors[|errors| - 1];
      if last.1.Some? then acc[last.0 := last.1.value] else acc
  }

  /** A path whose entry at `i` is truthy and is not repeated later is
      recorded with that entry's message. */
  lemma {:induction false} ValidationDetailsLastEntry(errors: seq<(string, Option<string>)>, i: nat)
    requires i < |errors| && errors[i].1.Some?
    requires forall j :: i < j < |errors| ==> errors[j].0 != errors[i].0
    ensures ValidationDetails(errors)[errors[i].0] == errors[i].1.value
  {
    if i < |errors| - 1 {
      var front := errors[..|errors| - 1];
      assert front[i] == errors[i];
      forall j | i < j < |front| ensures front[j].0 != front[i].0 {
        assert front[j] == errors[j];
      }
      ValidationDetailsLastEntry(front, i);
    }
  }

  /** The first own key of `keyValue`, or `"field"` when there is none or it is empty. */
  function DuplicateKey(keyValue: seq<(string, string)>): string {
    if keyValue != [] && keyValue[0].0 != "" then keyValue[0].0 else "field"
  }

  /** `keyValue[key]` rendered in a template string: `undefined` when absent. */
  function RenderedValue(keyValue: seq<(string, string)>, key: string): string {
    if keyValue == [] then "undefined"
    else if keyValue[0].0 == key then keyValue[0].1
    else RenderedValue(keyValue[1..], key)
  }

  function DuplicateMessage(keyValue: Option<seq<(string, string)>>): (r: string)
    ensures "Duplicate value entered for " <= r
    ensures keyValue.Some? && keyValue.value != [] && keyValue.value[0].0 == "" ==>
      "Duplicate value entered for field: " <= r
  {
    var kv := if keyValue.Some? then keyValue.value else [];
    var key := DuplicateKey(kv);
    "Duplicate value entered for " + key + ": " + RenderedValue(kv, key)
  }

  /** `errorHandler(err, req, res, next)`: the status and body it sends.
      `nodeEnv` is `process.env.NODE_ENV` as read at the time, `timestamp`
      the ISO rendering of the current time. */
  method HandleError(err: ThrownError, nodeEnv: Option<string>, timestamp: string) returns (r: ErrorResponse)
    ensures !r.success && r.timestamp == timestamp
    ensures IsStatusError(err) ==> r.status == err.statusCode.value && r.error == err.message && r.details == None
    ensures IsValidationError(err) ==>
      r.status == 400 && r.error == "Validation failed" && r.details == Some(ValidationDetails(err.validation.value))
    ensures IsDuplicateKeyError(err) ==>
      r.status == 400 && r.error == DuplicateMessage(err.keyValue) && r.details == None
    ensures IsCastError(err) ==>
      r.status == 400 && r.error == "Invalid " + err.path + ": " + err.value && r.details == None
    ensures !IsStatusError(err) && !IsValidationError(err) && !IsDuplicateKeyError(err) && !IsCastError(err) ==>
      r.status == 500 && r.error == "Something went wrong" && r.details == None
    ensures r.stack == if nodeEnv == Some("development") then err.stack else None
  {
    var statusCode := DefaultStatus;
    var message := DefaultMessage;
    var stack := if nodeEnv == Some("production") then None else err.stack;
    var details: Option<map<string, string>> := None;

    if err.statusCode.Some? {
      statusCode := err.statusCode.value;
      message := err.message;
    } else if err.validation.Some? {
      statusCode := 400;
      message := "Validation failed";
      details := Some(ValidationDetails(err.validation.value));
    } else if (err.name == "MongoError" || err.name == "MongoServerError") && err.code == Some(11000) {
      statusCode := 400;
      message := DuplicateMessage(err.keyValue);
    } else if err.name == "CastError" {
      statusCode := 400;
      message := "Invalid " + err.path + ": " + err.value;
    }

    r := ErrorResponse(statusCode, false, message, details,
                       if nodeEnv == Some("development") then stack else None, timestamp);
  }

  /** An `AppError` reaches the client with its own status and message. */
  lemma AppErrorKeepsStatus(message: string, statusCode: int, stack: Option<string>)
    ensures IsStatusError(Thrown(NewAppError(message, statusCode), stack))
    ensures Thrown(NewAppError(message, statusCode), stack).statusCode == Some(statusCode)
    ensures Thrown(NewAppError(message, statusCode), stack).message == message
  {
  }

  /** The branches are exclusive: at most one applies to any error. */
  lemma BranchesExclusive(err: ThrownError)
    ensures !(IsStatusError(err) && IsValidationError(err))
    ensures !(IsValidationError(err) && IsDuplicateKeyError(err))
    ensures !(IsDuplicateKeyError(err) && IsCastError(err))
    ensures !(IsStatusError(err) && IsCastError(err))
  {
  }

  /** A duplicate-key error without `keyValue` names the placeholder key. */
  lemma DuplicateWithoutKeyValue()
    ensures DuplicateMessage(None) == "Duplicate value entered for field: undefined"
  {
  }

  /** With a first key, the message names it and its rendered value. */
  lemma DuplicateNamesFirstKey(key: string, value: string, rest: seq<(string, string)>)
    requires key != ""
    ensures DuplicateMessage(Some([(key, value)] + rest)) == "Duplicate value entered for " + key + ": " + value
  {
    assert ([(key, value)] + rest)[0] == (key, value);
  }
}
