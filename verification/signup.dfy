/** The two-step sign-up form: account details, then restaurant details. */
module Signup {
  import opened Base
  import opened Forms
  import Seqs

  const MaxSteps := 2
  const Step1Fields := {"name", "email", "password", "confirmPassword"}
  const Step2Fields := {"restaurantName", "restaurantType"}

  // ---- The loose address check `/\S+@\S+\.\S+/` ----

  predicate NonSpace(t: string) {
    forall i :: 0 <= i < |t| ==> !IsJsSpace(t[i])
  }

  /** `t` matches `\S+@\S+\.\S+` as a whole, with the `@` at `p` and the
      dot at `d`. */
  predicate MatchAt(t: string, p: nat, d: nat) {
    && 1 <= p && p + 2 <= d && d + 2 <= |t| && t[p] == '@' && t[d] == '.'
    && NonSpace(t[..p]) && NonSpace(t[p + 1..d]) && NonSpace(t[d + 1..])
  }

  predicate LooseMatch(t: string) {
    exists p: nat, d: nat | p < d < |t| :: MatchAt(t, p, d)
  }

  /** `.test(s)`: the expression is not anchored, so any substring may match. */
  predicate LooseEmailRegex(s: string) {
    exists a: nat, b: nat :: a <= b <= |s| && LooseMatch(s[a..b])
  }

  /** An `@` at `p` with a non-space before it, a dot at `d` with at least
      one character between them and no space there, and a non-space after
      the dot. */
  predicate ShapeAt(s: string, p: nat, d: nat) {
    && 1 <= p && p + 2 <= d && d + 1 < |s| && s[p] == '@' && s[d] == '.'
    && !IsJsSpace(s[p - 1]) && !IsJsSpace(s[d + 1]) && NonSpace(s[p + 1..d])
  }

  /** What the loose check comes down to. */
  predicate LooseEmailShape(s: string) {
    exists p: nat, d: nat | p < d < |s| :: ShapeAt(s, p, d)
  }

  lemma MatchHasShape(s: string, a: nat, b: nat, p: nat, d: nat)
    requires a <= b <= |s| && MatchAt(s[a..b], p, d)
    ensures ShapeAt(s, a + p, a + d)
  {
    var t := s[a..b];
    assert t[..p][p - 1] == s[a + p - 1];
    assert t[d + 1..][0] == s[a + d + 1];
    Seqs.SliceOfSlice(s, a, b, p + 1, d);
  }

  lemma ShapeHasMatch(s: string, p: nat, d: nat)
    requires ShapeAt(s, p, d)
    ensures MatchAt(s[p - 1..d + 2], 1, d - p + 1)
  {
    var t := s[p - 1..d + 2];
    assert t[1] == '@' && t[d - p + 1] == '.';
    assert t[..1] == [s[p - 1]];
    Seqs.SliceOfSlice(s, p - 1, d + 2, 2, d - p + 1);
    assert t[d - p + 2..] == [s[d + 1]];
  }

  /** The unanchored expression matches exactly the strings of the flat shape. */
  lemma LooseEmailMeaning(s: string)
    ensures LooseEmailRegex(s) <==> LooseEmailShape(s)
  {
    if LooseEmailRegex(s) {
      var a: nat, b: nat :| a <= b <= |s| && LooseMatch(s[a..b]);
      var p: nat, d: nat :| MatchAt(s[a..b], p, d);
      MatchHasShape(s, a, b, p, d);
    }
    if LooseEmailShape(s) {
      var p: nat, d: nat :| ShapeAt(s, p, d);
      ShapeHasMatch(s, p, d);
      assert LooseMatch(s[p - 1..d + 2]);
    }
  }

  // ---- Step validators ----

  /** `errors[key] = message` when a check produced one. */
  function Put(errors: map<string, string>, key: string, message: Option<string>): (r: map<string, string>)
    ensures key in r <==> key in errors || message.Some?
    ensures message.Some? ==> r[key] == message.value
    ensures forall k :: k != key ==> (k in r <==> k in errors) && (k in errors ==> r[k] == errors[k])
  {
    if message.Some? then errors[key := message.value] else errors
  }

  function NameError(name: string): (e: Option<string>)
    ensures e.Some? <==> Utf16Length(name) < 4
  {
    if name == "" then Some("Name is required")
    else if Utf16Length(name) < 4 then Some("Name must be at least 4 characters")
    else None
  }

  /** `length` counts code units: two characters outside the Basic
      Multilingual Plane make a name long enough. */
  lemma TwoAstralCharsName()
    ensures |"\U{1F600}\U{1F600}"| == 2
    ensures NameError("\U{1F600}\U{1F600}") == None
  {
    var name := "\U{1F600}\U{1F600}";
    assert Utf16Length(name[..1]) == 2;
  }

  function EmailError(email: string): (e: Option<string>)
    ensures e.Some? <==> !LooseEmailRegex(email)
  {
    if email == "" then
      assert !LooseMatch(email[0..0]);
      Some("Email is required")
    else if !LooseEmailRegex(email) then Some("Please enter a valid email address")
    else None
  }

  function PasswordError(password: string): (e: Option<string>)
    ensures e.Some? <==> Utf16Length(password) < 6
  {
    if password == "" then Some("Password is required")
    else if Utf16Length(password) < 6 then Some("Password must be at least 6 characters")
    else None
  }

  function ConfirmError(password: string, confirm: string): (e: Option<string>)
    ensures e.Some? <==> confirm == "" || confirm != password
  {
    if confirm == "" then Some("Please confirm your password")
    else if password != confirm then Some("Passwords do not match")
    else None
  }

  /** `validateStep1`'s new error map. */
  function ValidateStep1(values: map<string, string>): (errors: map<string, string>)
    ensures KeysWithin(errors, Step1Fields)
    ensures "name" in errors <==> Utf16Length(Value(values, "name")) < 4
    ensures "email" in errors <==> !LooseEmailRegex(Value(values, "email"))
    ensures "password" in errors <==> Utf16Length(Value(values, "password")) < 6
    ensures "confirmPassword" in errors <==>
              Value(values, "confirmPassword") == "" || Value(values, "confirmPassword") != Value(values, "password")
  {
    var password := Value(values, "password");
    var e1 := Put(map[], "name", NameError(Value(values, "name")));
    var e2 := Put(e1, "email", EmailError(Value(values, "email")));
    var e3 := Put(e2, "password", PasswordError(password));
    Put(e3, "confirmPassword", ConfirmError(password, Value(values, "confirmPassword")))
  }

  /** Each field's message, the first check that fails deciding it. */
  lemma ValidateStep1Messages(values: map<string, string>)
    ensures var errors := ValidateStep1(values);
            var name := Value(values, "name");
            var email := Value(values, "email");
            var password := Value(values, "password");
            var confirm := Value(values, "confirmPassword");
            && (name == "" ==> errors["name"] == "Name is required")
            && (name != "" && Utf16Length(name) < 4 ==> errors["name"] == "Name must be at least 4 characters")
            && (email == "" ==> errors["email"] == "Email is required")
            && (email != "" && !LooseEmailRegex(email) ==> errors["email"] == "Please enter a valid email address")
            && (password == "" ==> errors["password"] == "Password is required")
            && (password != "" && Utf16Length(password) < 6 ==> errors["password"] == "Password must be at least 6 characters")
            && (confirm == "" ==> errors["confirmPassword"] == "Please confirm your password")
            && (confirm != "" && confirm != password ==> errors["confirmPassword"] == "Passwords do not match")
  {
  }

  /** `validateStep1()`: the first step passes exactly when the name has a
      `length` of at least four (UTF-16 code units), the address has the
      loose shape, the password a `length` of at least six, and the
      confirmation repeats it. */
  function Step1Valid(values: map<string, string>): (ok: bool)
    ensures ok <==> Utf16Length(Value(values, "name")) >= 4 && LooseEmailShape(Value(values, "email"))
                    && Utf16Length(Value(values, "password")) >= 6
                    && Value(values, "confirmPassword") == Value(values, "password")
  {
    LooseEmailMeaning(Value(values, "email"));
    |ValidateStep1(values)| == 0
  }

  /** `validateStep2`'s new error map. */
  function ValidateStep2(values: map<string, string>): (errors: map<string, string>)
    ensures KeysWithin(errors, Step2Fields)
    ensures "restaurantName" in errors <==> Value(values, "restaurantName") == ""
    ensures "restaurantType" in errors <==> Value(values, "restaurantType") == ""
  {
    var e1: map<string, string> :=
      if Value(values, "restaurantName") == "" then map["restaurantName" := "Restaurant name is required"]
      else map[];
    if Value(values, "restaurantType") == "" then e1["restaurantType" := "Please select a restaurant type"]
    else e1
  }

  /** `validateStep2()`: both restaurant fields are filled in. */
  function Step2Valid(values: map<string, string>): (ok: bool)
    ensures ok <==> Value(values, "restaurantName") != "" && Value(values, "restaurantType") != ""
  {
    |ValidateStep2(values)| == 0
  }

  // ---- The step machine ----

  datatype SignupState = SignupState(form: FormState, step: int, signingUp: bool)

  predicate StepInRange(st: SignupState) {
    1 <= st.step <= MaxSteps
  }

  const Initial := SignupState(
    FormState(map["name" := "", "email" := "", "password" := "", "confirmPassword" := "",
                  "restaurantName" := "", "restaurantType" := ""], map[]),
    1,
    false)

  /** `nextStep`: from the first step, the form is validated (replacing the
      error map) and the step advances only when it passes; from any other
      step it advances, but never past the last. */
  function NextStep(st: SignupState): (r: SignupState)
    ensures r.form.values == st.form.values && r.signingUp == st.signingUp
    ensures st.step == 1 ==> r.form.errors == ValidateStep1(st.form.values)
    ensures st.step != 1 ==> r.form.errors == st.form.errors
  {
    if st.step == 1 then
      var errors := ValidateStep1(st.form.values);
      var form := st.form.(errors := errors);
      if |errors| == 0 then st.(form := form, step := Min(st.step + 1, MaxSteps))
      else st.(form := form)
    else st.(step := Min(st.step + 1, MaxSteps))
  }

  /** `prevStep`: one step back, never before the first. */
  function PrevStep(st: SignupState): (r: SignupState)
    ensures r.form == st.form && r.signingUp == st.signingUp
  {
    st.(step := Max(st.step - 1, 1))
  }

  /** The step stays within `1..MaxSteps` under both moves; from the first
      step, `nextStep` reaches the second exactly when the first step is
      valid and otherwise stays; `prevStep` from the second returns to the
      first. */
  lemma StepMoves(st: SignupState)
    requires StepInRange(st)
    ensures StepInRange(NextStep(st)) && StepInRange(PrevStep(st))
    ensures st.step == 1 ==> (NextStep(st).step == 2 <==> Step1Valid(st.form.values))
    ensures st.step == 1 && !Step1Valid(st.form.values) ==> NextStep(st).step == 1
    ensures PrevStep(st).step == 1
  {
  }

  /** The form opens on the first step. */
  lemma InitialInRange()
    ensures StepInRange(Initial) && Initial.step == 1
  {
  }

  function HandleInput(st: SignupState, name: string, value: string): (r: SignupState)
    ensures r.step == st.step && r.signingUp == st.signingUp
    ensures r.form == Forms.HandleChange(st.form, name, value)
  {
    st.(form := Forms.HandleChange(st.form, name, value))
  }

  /** `setRestaurantType`: the type takes the chosen value and its error,
      if shown, is blanked; nothing else changes. */
  function SetRestaurantType(st: SignupState, kind: string): (r: SignupState)
    ensures r.step == st.step && r.signingUp == st.signingUp
    ensures Value(r.form.values, "restaurantType") == kind
    ensures forall k :: k != "restaurantType" ==> Value(r.form.values, k) == Value(st.form.values, k)
    ensures !HasError(r.form.errors, "restaurantType")
    ensures r.form.errors.Keys == st.form.errors.Keys
    ensures forall k :: k in st.form.errors && k != "restaurantType" ==> r.form.errors[k] == st.form.errors[k]
  {
    var values := st.form.values["restaurantType" := kind];
    var errors :=
      if HasError(st.form.errors, "restaurantType") then st.form.errors["restaurantType" := ""]
      else st.form.errors;
    st.(form := FormState(values, errors))
  }

  /** Choosing a type is the same edit as typing it into a field named
      `restaurantType`. */
  lemma SetRestaurantTypeIsEdit(st: SignupState, kind: string)
    ensures SetRestaurantType(st, kind) == HandleInput(st, "restaurantType", kind)
  {
  }

  /** `handleSubmit`: the second step is validated (replacing the error map),
      and sign-up starts only when it passes. */
  function Submit(st: SignupState): (r: SignupState)
    ensures r.form.values == st.form.values && r.step == st.step
    ensures r.form.errors == ValidateStep2(st.form.values)
    ensures Step2Valid(st.form.values) ==> r.signingUp
    ensures !Step2Valid(st.form.values) ==> r.signingUp == st.signingUp
  {
    var errors := ValidateStep2(st.form.values);
    st.(form := st.form.(errors := errors), signingUp := if |errors| == 0 then true else st.signingUp)
  }
}
