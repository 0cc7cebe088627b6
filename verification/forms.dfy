/** The controlled-form state shared by the login and sign-up pages: the
    field values and the error messages, both keyed by input name. */
module Forms {

  /** `formState` and `errors`. A missing key is `undefined`. */
  datatype FormState = FormState(values: map<string, string>, errors: map<string, string>)

  /** `formState[name]`, with `undefined` read as the empty string: the
      validators test it for falsiness first, where both agree. */
  function Value(values: map<string, string>, name: string): (v: string)
    ensures name in values ==> v == values[name]
    ensures name !in values ==> v == ""
  {
    if name in values then values[name] else ""
  }

  /** `errors[name]` is truthy. */
  predicate HasError(errors: map<string, string>, name: string) {
    name in errors && errors[name] != ""
  }

  /** Every key of `errors` is one of `names`. */
  predicate KeysWithin(errors: map<string, string>, names: set<string>) {
    forall k :: k in errors ==> k in names
  }

  /** `handleChange`: the edited field takes the new value, and its error,
      if truthy, is blanked. */
  function HandleChange(st: FormState, name: string, value: string): (r: FormState)
    ensures r.values == st.values[name := value]
    ensures !HasError(r.errors, name)
    ensures r.errors.Keys == st.errors.Keys
    ensures forall k :: k in st.errors && k != name ==> r.errors[k] == st.errors[k]
  {
    var errors := if HasError(st.errors, name) then st.errors[name := ""] else st.errors;
    FormState(st.values[name := value], errors)
  }

  /** Editing a field touches nothing but that field: every other value and
      every other error message is as before, and the edited field no longer
      shows an error. */
  lemma HandleChangeLocal(st: FormState, name: string, value: string, other: string)
    requires other != name
    ensures Value(HandleChange(st, name, value).values, name) == value
    ensures Value(HandleChange(st, name, value).values, other) == Value(st.values, other)
    ensures HasError(HandleChange(st, name, value).errors, other) == HasError(st.errors, other)
    ensures other in st.errors ==> HandleChange(st, name, value).errors[other] == st.errors[other]
    ensures !HasError(HandleChange(st, name, value).errors, name)
  {
  }
}
