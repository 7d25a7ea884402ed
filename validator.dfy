/** The rule-driven request validator `validateRequest` of
    backend/src/utils/validator.ts. The express-validator chains declared in
    the same file are the library's and are not part of this model. */
module Validator {
  import opened Wrappers
  import opened JsValues

  /** The rules for one field: `required` and `isArray` as their truthiness,
      the numeric bounds as present or absent. */
  datatype Rule = Rule(
    required: bool,
    minLength: Option<int>,
    maxLength: Option<int>,
    min: Option<int>,
    max: Option<int>,
    isArray: bool,
    minArrayLength: Option<int>)

  /** `body[field]`: a property the body lacks reads as `undefined`. */
  function BodyValue(body: map<string, Json>, field: string): (v: Json)
    ensures field !in body ==> v == Undefined
  {
    if field in body then body[field] else Undefined
  }

  function Length(v: Json): int {
    match v
    case Str(s) => |s|
    case Arr(items) => |items|
    case _ => 0
  }

  predicate Missing(v: Json) {
    v == Undefined || v == Null
  }

  function RequiredMessage(field: string): string { field + " is required" }
  function MinLengthMessage(field: string, n: int): string { field + " must be at least " + IntToString(n) + " characters" }
  function MaxLengthMessage(field: string, n: int): string { field + " must be less than " + IntToString(n) + " characters" }
  function MinMessage(field: string, n: int): string { field + " must be at least " + IntToString(n) }
  function MaxMessage(field: string, n: int): string { field + " must be at most " + IntToString(n) }
  function ArrayMessage(field: string): string { field + " must be an array" }
  function MinArrayMessage(field: string, n: int): string { field + " must have at least " + IntToString(n) + " items" }

  /** The six type-gated checks, in source order, each with the message it
      produces when it fails. */
  function Checks(field: string, rule: Rule, v: Json): (checks: seq<Option<string>>)
    ensures |checks| == 6
  {
    [ if rule.minLength.Some? && v.Str? && |v.s| < rule.minLength.value then Some(MinLengthMessage(field, rule.minLength.value)) else None,
      if rule.maxLength.Some? && v.Str? && |v.s| > rule.maxLength.value then Some(MaxLengthMessage(field, rule.maxLength.value)) else None,
      if rule.min.Some? && v.Num? && v.n < rule.min.value then Some(MinMessage(field, rule.min.value)) else None,
      if rule.max.Some? && v.Num? && v.n > rule.max.value then Some(MaxMessage(field, rule.max.value)) else None,
      if rule.isArray && !v.Arr? then Some(ArrayMessage(field)) else None,
      if rule.isArray && v.Arr? && rule.minArrayLength.Some? && |v.items| < rule.minArrayLength.value
      then Some(MinArrayMessage(field, rule.minArrayLength.value)) else None ]
  }

  /** The last failure of a sequence of checks, if any: a later message
      overwrites an earlier one. */
  function LastFailure(checks: seq<Option<string>>): Option<string> {
    if checks == [] then None
    else if checks[|checks| - 1].Some? then checks[|checks| - 1]
    else LastFailure(checks[..|checks| - 1])
  }

  /** `LastFailure` is the failure of the last failing check, and there is
      none exactly when every check passes. */
  lemma {:induction false} LastFailureIsLast(checks: seq<Option<string>>)
    ensures LastFailure(checks).None? <==> forall i :: 0 <= i < |checks| ==> checks[i].None?
    ensures LastFailure(checks).Some? ==>
      exists i :: 0 <= i < |checks| && checks[i] == LastFailure(checks) && forall j :: i < j < |checks| ==> checks[j].None?
  {
    if checks != [] && checks[|checks| - 1].None? {
      var front := checks[..|checks| - 1];
      LastFailureIsLast(front);
      assert forall i :: 0 <= i < |front| ==> front[i] == checks[i];
      if LastFailure(front).Some? {
        var i :| 0 <= i < |front| && front[i] == LastFailure(front) && forall j :: i < j < |front| ==> front[j].None?;
        assert checks[i] == LastFailure(checks);
      }
    }
  }

  /** The message, if any, that the rules give a field holding `v`. */
  function FieldError(field: string, rule: Rule, v: Json): Option<string> {
    if rule.required && (Missing(v) || v == Str("")) then Some(RequiredMessage(field))
    else if Missing(v) then None
    else LastFailure(Checks(field, rule, v))
  }

  /** The error record `validateRequest` builds: one entry per failing field. */
  function Errors(rules: map<string, Rule>, body: map<string, Json>): (errors: map<string, string>)
    ensures errors.Keys <= rules.Keys
  {
    map f | f in rules && FieldError(f, rules[f], BodyValue(body, f)).Some? :: FieldError(f, rules[f], BodyValue(body, f)).value
  }

  /** The body of the loop for one field: the required check with its
      `continue`, the skip of an absent optional field, then the six checks,
      each overwriting the message of the ones before. */
  method CheckField(field: string, rule: Rule, v: Json) returns (msg: Option<string>)
    ensures msg == FieldError(field, rule, v)
    ensures rule.required && (Missing(v) || v == Str("")) ==> msg == Some(RequiredMessage(field))
    ensures !rule.required && Missing(v) ==> msg == None
  {
    if rule.required && (v == Undefined || v == Null || v == Str("")) {
      return Some(RequiredMessage(field));
    }
    if v == Undefined || v == Null {
      return None;
    }
    msg := None;
    if rule.minLength.Some? && v.Str? && |v.s| < rule.minLength.value {
      msg := Some(MinLengthMessage(field, rule.minLength.value));
    }
    if rule.maxLength.Some? && v.Str? && |v.s| > rule.maxLength.value {
      msg := Some(MaxLengthMessage(field, rule.maxLength.value));
    }
    if rule.min.Some? && v.Num? && v.n < rule.min.value {
      msg := Some(MinMessage(field, rule.min.value));
    }
    if rule.max.Some? && v.Num? && v.n > rule.max.value {
      msg := Some(MaxMessage(field, rule.max.value));
    }
    if rule.isArray && !v.Arr? {
      msg := Some(ArrayMessage(field));
    }
    if rule.isArray && v.Arr? && rule.minArrayLength.Some? && |v.items| < rule.minArrayLength.value {
      msg := Some(MinArrayMessage(field, rule.minArrayLength.value));
    }
    LastFailureOfSix(Checks(field, rule, v));
  }

  /** `LastFailure` of six checks, spelled out from the last one back. */
  lemma LastFailureOfSix(c: seq<Option<string>>)
    requires |c| == 6
    ensures LastFailure(c) ==
      if c[5].Some? then c[5] else if c[4].Some? then c[4] else if c[3].Some? then c[3]
      else if c[2].Some? then c[2] else if c[1].Some? then c[1] else c[0]
  {
    assert LastFailure(c) == if c[5].Some? then c[5] else LastFailure(c[..5]);
    var c5 := c[..5];
    assert LastFailure(c5) == if c[4].Some? then c[4] else LastFailure(c5[..4]);
    var c4 := c5[..4];
    assert LastFailure(c4) == if c[3].Some? then c[3] else LastFailure(c4[..3]);
    var c3 := c4[..3];
    assert LastFailure(c3) == if c[2].Some? then c[2] else LastFailure(c3[..2]);
    var c2 := c3[..2];
    assert LastFailure(c2) == if c[1].Some? then c[1] else LastFailure(c2[..1]);
    var c1 := c2[..1];
    assert c1[..0] == [];
    assert LastFailure(c1) == if c[0].Some? then c[0] else LastFailure(c1[..0]);
  }

  /** What the middleware does: pass on, or answer 400 with the errors. */
  datatype Outcome =
    | Next
    | Reject(status: int, success: bool, message: string, errors: map<string, string>)

  /** `validateRequest(rules)` applied to a request body: the loop over the
      rule entries, then the 400-or-next decision. */
  method ValidateRequest(rules: map<string, Rule>, body: map<string, Json>) returns (r: Outcome)
    ensures r.Next? <==> forall f :: f in rules ==> FieldError(f, rules[f], BodyValue(body, f)).None?
    ensures r.Reject? ==> r.status == 400 && !r.success && r.message == "Validation failed"
    ensures r.Reject? ==> r.errors == Errors(rules, body) && r.errors != map[]
  {
    ghost var verdicts := map f | f in rules :: FieldError(f, rules[f], BodyValue(body, f));
    var errors: map<string, string> := map[];
    var pending := rules.Keys;
    while pending != {}
      invariant pending <= rules.Keys
      invariant errors.Keys <= rules.Keys - pending
      invariant forall f :: f in rules.Keys - pending ==> (f in errors <==> verdicts[f].Some?)
      invariant forall f :: f in errors ==> errors[f] == verdicts[f].value
      decreases pending
    {
      var field :| field in pending;
      pending := pending - {field};
      var msg := CheckField(field, rules[field], BodyValue(body, field));
      if msg.Some? {
        errors := errors[field := msg.value];
      }
    }
    ErrorsFromVerdicts(rules, body, verdicts, errors);
    if |errors| > 0 {
      return Reject(400, false, "Validation failed", errors);
    }
    assert errors == map[];
    return Next;
  }

  /** Once every field has been visited, the record holds exactly the
      failing fields with their messages. */
  lemma ErrorsFromVerdicts(rules: map<string, Rule>, body: map<string, Json>,
                           verdicts: map<string, Option<string>>, errors: map<string, string>)
    requires verdicts == map f | f in rules :: FieldError(f, rules[f], BodyValue(body, f))
    requires errors.Keys <= rules.Keys
    requires forall f :: f in rules ==> (f in errors <==> verdicts[f].Some?)
    requires forall f :: f in errors ==> errors[f] == verdicts[f].value
    ensures errors == Errors(rules, body)
    ensures errors == map[] <==> forall f :: f in rules ==> FieldError(f, rules[f], BodyValue(body, f)).None?
  {
    if errors == map[] {
      forall f | f in rules ensures FieldError(f, rules[f], BodyValue(body, f)).None? {
        assert verdicts[f].None?;
      }
    }
  }

  /** A required field that is absent, null or empty gets exactly the
      "is required" message, whatever its other rules say. */
  lemma RequiredShortCircuits(field: string, rule: Rule, rule': Rule, v: Json)
    requires rule.required && rule'.required
    requires Missing(v) || v == Str("")
    ensures FieldError(field, rule, v) == FieldError(field, rule', v) == Some(RequiredMessage(field))
  {
  }

  /** The length bounds are only read for strings, the value bounds only for numbers. */
  lemma ChecksAreTypeGated(field: string, rule: Rule, v: Json)
    ensures !v.Str? ==> FieldError(field, rule, v) == FieldError(field, rule.(minLength := None, maxLength := None), v)
    ensures !v.Num? ==> FieldError(field, rule, v) == FieldError(field, rule.(min := None, max := None), v)
  {
    assert !v.Str? ==> Checks(field, rule, v) == Checks(field, rule.(minLength := None, maxLength := None), v);
    assert !v.Num? ==> Checks(field, rule, v) == Checks(field, rule.(min := None, max := None), v);
  }

  /** A present value that is not an array fails an `isArray` rule with the
      array message: no check after it can fire and it overwrites those before. */
  lemma NonArrayMessage(field: string, rule: Rule, v: Json)
    requires rule.isArray && !Missing(v) && !v.Arr?
    requires !(rule.required && v == Str(""))
    ensures FieldError(field, rule, v) == Some(ArrayMessage(field))
  {
    LastFailureOfSix(Checks(field, rule, v));
  }

  /** An array shorter than `minArrayLength` gets the item-count message. */
  lemma ShortArrayMessage(field: string, rule: Rule, items: seq<Json>, n: int)
    requires rule.isArray && rule.minArrayLength == Some(n) && |items| < n
    ensures FieldError(field, rule, Arr(items)) == Some(MinArrayMessage(field, n))
  {
    LastFailureOfSix(Checks(field, rule, Arr(items)));
  }

  /** When several checks fail, the message is the one of the last of them:
      a string too short for `minLength` that is also not an array gets the
      array message. */
  lemma LaterCheckOverwrites(field: string, rule: Rule, s: string)
    requires rule.isArray && !rule.required
    requires rule.minLength.Some? && |s| < rule.minLength.value
    ensures Checks(field, rule, Str(s))[0] == Some(MinLengthMessage(field, rule.minLength.value))
    ensures FieldError(field, rule, Str(s)) == Some(ArrayMessage(field))
  {
    LastFailureOfSix(Checks(field, rule, Str(s)));
  }
}
