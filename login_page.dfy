/** The login page's validation and its submit gate. */
module LoginPage {
  import opened Wrappers
  import opened FormChecks

  datatype Field = Email | Password

  datatype LoginForm = LoginForm(email: string, password: string)

  /** What submitting the form does: call `login`, or mark the fields in error. */
  datatype Submit =
    | Login(email: string, password: string)
    | ShowErrors(errors: map<Field, string>)

  /** The `validate` function: the e-mail and password fields, each with at most one message. */
  function Validate(form: LoginForm): (errors: map<Field, string>)
    ensures Email in errors <==> EmailError(form.email).Some?
    ensures Password in errors <==> PasswordError(form.password).Some?
    ensures Email in errors ==> Some(errors[Email]) == EmailError(form.email)
    ensures Password in errors ==> Some(errors[Password]) == PasswordError(form.password)
  {
    var e0: map<Field, string> := map[];
    var e1 := if EmailError(form.email).Some? then e0[Email := EmailError(form.email).value] else e0;
    if PasswordError(form.password).Some? then e1[Password := PasswordError(form.password).value] else e1
  }

  /** The submit gate of `onSubmit`: `login` runs exactly when the address matches the
      pattern and the password has at least eight characters. */
  function OnSubmit(form: LoginForm): (s: Submit)
    ensures s.Login? <==> Validate(form) == map[]
    ensures s.Login? <==> MatchesEmail(form.email) && |form.password| >= 8
    ensures s.Login? ==> s == Login(form.email, form.password)
    ensures s.ShowErrors? ==> s.errors == Validate(form)
  {
    var errors := Validate(form);
    if |errors.Keys| > 0 then
      ShowErrors(errors)
    else
      assert errors == map[];
      Login(form.email, form.password)
  }

  /** An address with a space beside the `@` is refused before any request is made. */
  lemma SpacedAddressRefused(password: string)
    ensures Validate(LoginForm("a @b.c", password))[Email] == "Please enter a valid email address"
    ensures OnSubmit(LoginForm("a @b.c", password)).ShowErrors?
  {
    SpacedAddressFails();
  }
}
