/** The signup page's own validation and its submit gate. */
module SignupPage {
  import opened Wrappers
  import opened FormChecks

  datatype Field = Username | Email | Password | ConfirmPassword

  datatype SignupForm = SignupForm(username: string, email: string, password: string, confirmPassword: string)

  /** What submitting the form does: call `register`, or mark the fields in error. */
  datatype Submit =
    | Register(username: string, email: string, password: string)
    | ShowErrors(errors: map<Field, string>)

  /** The username field: required, then at least three characters. */
  function UsernameError(username: string): (r: Option<string>)
    ensures r.None? <==> |username| >= 3
    ensures r == Some("Username is required") <==> username == ""
    ensures r.Some? && username != "" ==> r.value == "Username must be at least 3 characters"
  {
    if username == "" then Some("Username is required")
    else if |username| < 3 then Some("Username must be at least 3 characters")
    else None
  }

  /** The confirmation field: required, then equal to the password. */
  function ConfirmError(password: string, confirm: string): (r: Option<string>)
    ensures r.None? <==> confirm != "" && confirm == password
    ensures r == Some("Please confirm your password") <==> confirm == ""
    ensures r.Some? && confirm != "" ==> r.value == "Passwords don't match"
  {
    if confirm == "" then Some("Please confirm your password")
    else if password != confirm then Some("Passwords don't match")
    else None
  }

  /** Records a field's message, if it has one. */
  function Put(errors: map<Field, string>, f: Field, e: Option<string>): map<Field, string> {
    if e.Some? then errors[f := e.value] else errors
  }

  /** The `validate` function: each field in error carries that field's one message. */
  function Validate(form: SignupForm): (errors: map<Field, string>)
    ensures Username in errors <==> UsernameError(form.username).Some?
    ensures Email in errors <==> EmailError(form.email).Some?
    ensures Password in errors <==> PasswordError(form.password).Some?
    ensures ConfirmPassword in errors <==> ConfirmError(form.password, form.confirmPassword).Some?
    ensures Username in errors ==> Some(errors[Username]) == UsernameError(form.username)
    ensures Email in errors ==> Some(errors[Email]) == EmailError(form.email)
    ensures Password in errors ==> Some(errors[Password]) == PasswordError(form.password)
    ensures ConfirmPassword in errors ==>
      Some(errors[ConfirmPassword]) == ConfirmError(form.password, form.confirmPassword)
  {
    var e0 := Put(map[], Username, UsernameError(form.username));
    var e1 := Put(e0, Email, EmailError(form.email));
    var e2 := Put(e1, Password, PasswordError(form.password));
    Put(e2, ConfirmPassword, ConfirmError(form.password, form.confirmPassword))
  }

  /** Every field accepts its value. */
  predicate Acceptable(form: SignupForm) {
    && |form.username| >= 3
    && MatchesEmail(form.email)
    && |form.password| >= 8
    && form.confirmPassword == form.password
  }

  /** The submit gate of `onSubmit`: `register` runs with the form's values exactly when
      the error map is empty, and otherwise the errors are shown and nothing is sent. */
  function OnSubmit(form: SignupForm): (s: Submit)
    ensures s.Register? <==> Validate(form) == map[]
    ensures s.Register? <==> Acceptable(form)
    ensures s.Register? ==> s == Register(form.username, form.email, form.password)
    ensures s.ShowErrors? ==> s.errors == Validate(form)
  {
    var errors := Validate(form);
    if |errors.Keys| > 0 then
      ShowErrors(errors)
    else
      assert errors == map[];
      Register(form.username, form.email, form.password)
  }

  /** The confirmation check compares values only: a confirmed password that is too
      short still passes the confirmation field and fails only the password field. */
  lemma ConfirmIgnoresPasswordValidity(form: SignupForm)
    requires form.password != "" && |form.password| < 8
    requires form.confirmPassword == form.password
    ensures ConfirmPassword !in Validate(form)
    ensures Validate(form)[Password] == "Password must be at least 8 characters"
    ensures OnSubmit(form).ShowErrors?
  {
  }

  /** An empty form reports every field with its "required" message. */
  lemma EmptyFormReportsAll()
    ensures Validate(SignupForm("", "", "", "")) ==
      map[Username := "Username is required", Email := "Email is required",
          Password := "Password is required", ConfirmPassword := "Please confirm your password"]
  {
    var errors := Validate(SignupForm("", "", "", ""));
    assert errors.Keys == {Username, Email, Password, ConfirmPassword};
  }
}
