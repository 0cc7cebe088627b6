/** The login form: validation before the login call is made. */
module Login {
  import opened Base
  import opened Forms
  import Email

  const Fields := {"email", "password"}

  /** `validateForm`'s new error map. */
  function ValidateForm(values: map<string, string>): (errors: map<string, string>)
    ensures KeysWithin(errors, Fields)
    ensures "email" in errors <==> !Email.EmailRegex(Value(values, "email"))
    ensures "password" in errors <==> Value(values, "password") == ""
  {
    var email := Value(values, "email");
    var password := Value(values, "password");
    var e1: map<string, string> :=
      if email == "" then map["email" := "Email is required"]
      else if !Email.EmailRegex(email) then map["email" := "Email is invalid"]
      else map[];
    if password == "" then e1["password" := "Password is required"] else e1
  }

  /** The messages: an empty address is reported as missing without the
      grammar being consulted, a non-empty one the grammar refuses as
      invalid, and an empty password as missing. */
  lemma ValidateFormMessages(values: map<string, string>)
    ensures var errors := ValidateForm(values);
            var email := Value(values, "email");
            && (email == "" ==> errors["email"] == "Email is required")
            && (email != "" && !Email.EmailRegex(email) ==> errors["email"] == "Email is invalid")
            && (Value(values, "password") == "" ==> errors["password"] == "Password is required")
  {
  }

  /** `validateForm()`: the form is valid exactly when no error was found,
      which is exactly when the address fits the grammar and a password was
      given. */
  function IsValid(values: map<string, string>): (ok: bool)
    ensures ok <==> Email.EmailRegex(Value(values, "email")) && Value(values, "password") != ""
  {
    |ValidateForm(values)| == 0
  }

  /** `handleSubmit`: the error map is replaced by the validation result,
      and the credentials are handed to the login call only when valid. */
  function Submit(st: FormState): (r: (FormState, Option<map<string, string>>))
    ensures r.0.values == st.values
    ensures r.0.errors == ValidateForm(st.values)
    ensures r.1.Some? <==> IsValid(st.values)
    ensures r.1.Some? ==> r.1.value == st.values
  {
    var errors := ValidateForm(st.values);
    (FormState(st.values, errors), if |errors| == 0 then Some(st.values) else None)
  }
}
