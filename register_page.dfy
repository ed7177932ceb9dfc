/**
 * RegisterPage.js: the driver registration form: its field updates, the
 * ordered validation chain, the payload, how the server's answer is read, and
 * the reset after a successful registration.
 */
module RegisterPage {
  import opened Wrappers
  import opened Ascii

  /** The form; every field holds the text of its input. */
  datatype Form = Form(
    username: string, password: string, name: string, age: string, gender: string,
    contactNumber: string, email: string, licenseNumber: string)

  /** The input names. */
  datatype Field = Username | Password | Name | Age | Gender | ContactNumber | Email | LicenseNumber

  /** The initial form: every field empty, the gender select on MALE. */
  const Initial := Form("", "", "", "", "MALE", "", "", "")

  function Get(f: Form, field: Field): string {
    match field
    case Username => f.username
    case Password => f.password
    case Name => f.name
    case Age => f.age
    case Gender => f.gender
    case ContactNumber => f.contactNumber
    case Email => f.email
    case LicenseNumber => f.licenseNumber
  }

  /** `onChange`: `{ ...prev, [name]: value }`, the named field takes the value and the others stay. */
  function OnChange(f: Form, field: Field, value: string): (r: Form)
    ensures Get(r, field) == value
    ensures forall other :: other != field ==> Get(r, other) == Get(f, other)
  {
    match field
    case Username => f.(username := value)
    case Password => f.(password := value)
    case Name => f.(name := value)
    case Age => f.(age := value)
    case Gender => f.(gender := value)
    case ContactNumber => f.(contactNumber := value)
    case Email => f.(email := value)
    case LicenseNumber => f.(licenseNumber := value)
  }

  // -------------------------------------------------------------------- age

  predicate AllDigitsText(s: string) {
    forall i :: 0 <= i < |s| ==> IsDigit(s[i])
  }

  /**
   * `Number(age)` for the integer texts a number input yields: optional sign,
   * then digits. Anything else is NaN, written `None`.
   */
  function AgeNumber(s: string): (r: Option<int>)
    ensures r.Some? && s != [] && IsDigit(s[0]) ==> r.value >= 0
  {
    if s != [] && AllDigitsText(s) then Some(DigitsValue(s))
    else if |s| > 1 && (s[0] == '-' || s[0] == '+') && AllDigitsText(s[1..]) then
      var v: int := DigitsValue(s[1..]);
      Some(if s[0] == '-' then -v else v)
    else None
  }

  /** The age read back from `String(n)` is `n`. */
  lemma AgeRoundTrip(n: int)
    ensures AgeNumber(IntToString(n)) == Some(n)
  {
    if n < 0 {
      NegativeAge(n);
    } else {
      NaturalAge(n);
    }
  }

  lemma NaturalAge(n: nat)
    ensures AgeNumber(NatToString(n)) == Some(n)
  {
    NatToStringRoundTrip(n);
    assert AllDigitsText(NatToString(n));
  }

  lemma NegativeAge(n: int)
    requires n < 0
    ensures AgeNumber("-" + NatToString(-n)) == Some(n)
  {
    var digits := NatToString(-n);
    var s := "-" + digits;
    NatToStringRoundTrip(-n);
    assert s[1..] == digits;
    assert AllDigitsText(digits);
    assert !IsDigit(s[0]);
  }

  // ------------------------------------------------------------- validation

  const UsernameMessage := "Username must be at least 3 characters"
  const PasswordMessage := "Password must be at least 6 characters"
  const NameMessage := "Name is required"
  const AgeMessage := "Age must be at least 18"
  const ContactMessage := "Contact number is required"
  const EmailMessage := "Email is required"
  const LicenseMessage := "License number is required"

  predicate UsernameOk(f: Form) { |f.username| >= 3 }
  predicate PasswordOk(f: Form) { |f.password| >= 6 }
  predicate NameOk(f: Form) { f.name != "" }
  /** `!(!age || Number(age) < 18)`: a NaN age is not below 18, so it passes. */
  predicate AgeOk(f: Form) { f.age != "" && !(AgeNumber(f.age).Some? && AgeNumber(f.age).value < 18) }
  predicate ContactOk(f: Form) { f.contactNumber != "" }
  predicate EmailOk(f: Form) { f.email != "" }
  predicate LicenseOk(f: Form) { f.licenseNumber != "" }

  predicate Valid(f: Form) {
    UsernameOk(f) && PasswordOk(f) && NameOk(f) && AgeOk(f) && ContactOk(f) && EmailOk(f) && LicenseOk(f)
  }

  /**
   * The checks of `onSubmit`, in their order; the message of the first one
   * that fails, or none when all pass.
   */
  function Validate(f: Form): (r: Option<string>)
    ensures r.None? <==> Valid(f)
    ensures r == Some(UsernameMessage) <==> !UsernameOk(f)
    ensures r == Some(PasswordMessage) <==> UsernameOk(f) && !PasswordOk(f)
    ensures r == Some(NameMessage) <==> UsernameOk(f) && PasswordOk(f) && !NameOk(f)
    ensures r == Some(AgeMessage) <==> UsernameOk(f) && PasswordOk(f) && NameOk(f) && !AgeOk(f)
    ensures r == Some(ContactMessage) <==> UsernameOk(f) && PasswordOk(f) && NameOk(f) && AgeOk(f) && !ContactOk(f)
    ensures r == Some(EmailMessage) <==>
      UsernameOk(f) && PasswordOk(f) && NameOk(f) && AgeOk(f) && ContactOk(f) && !EmailOk(f)
    ensures r == Some(LicenseMessage) <==>
      UsernameOk(f) && PasswordOk(f) && NameOk(f) && AgeOk(f) && ContactOk(f) && EmailOk(f) && !LicenseOk(f)
  {
    if !UsernameOk(f) then Some(UsernameMessage)
    else if !PasswordOk(f) then Some(PasswordMessage)
    else if !NameOk(f) then Some(NameMessage)
    else if !AgeOk(f) then Some(AgeMessage)
    else if !ContactOk(f) then Some(ContactMessage)
    else if !EmailOk(f) then Some(EmailMessage)
    else if !LicenseOk(f) then Some(LicenseMessage)
    else None
  }

  /** The reset form fails the first check: a blank form cannot be resubmitted. */
  lemma InitialIsInvalid()
    ensures Validate(Initial) == Some(UsernameMessage)
  {
  }

  /** Changing the gender never changes the verdict: no check reads it. */
  lemma GenderNotChecked(f: Form, g: string)
    ensures Validate(OnChange(f, Gender, g)) == Validate(f)
  {
    var r := OnChange(f, Gender, g);
    assert r == f.(gender := g);
  }

  // -------------------------------------------------------------- submitting

  /** The body of the registration POST: the form with a numeric age and the DRIVER role. */
  datatype Payload = Payload(
    username: string, password: string, name: string, age: Option<int>, gender: string,
    contactNumber: string, email: string, licenseNumber: string, role: string)

  function PayloadOf(f: Form): (p: Payload)
    ensures p.role == "DRIVER" && p.age == AgeNumber(f.age)
    ensures p.username == f.username && p.password == f.password && p.name == f.name && p.gender == f.gender
    ensures p.contactNumber == f.contactNumber && p.email == f.email && p.licenseNumber == f.licenseNumber
  {
    Payload(f.username, f.password, f.name, AgeNumber(f.age), f.gender, f.contactNumber, f.email, f.licenseNumber, "DRIVER")
  }

  /** The server's answer: a body with the created user's id (if any) and a message, or a request that threw. */
  datatype Answer =
    | Answered(userId: Option<int>, message: Option<string>)
    | Threw(responseMessage: Option<string>, errorMessage: string)

  datatype Outcome = Invalid(error: string) | Registered | Failed(error: string)

  /** `a || b` on strings. */
  function OrText(a: Option<string>, b: string): string {
    if a.Some? && a.value != "" then a.value else b
  }

  /** How the answer is read: only a body naming a non-zero user id is a registration. */
  function ReadAnswer(a: Answer): (r: Outcome)
    ensures r.Registered? <==> a.Answered? && a.userId.Some? && a.userId.value != 0
    ensures r.Failed? <==> !r.Registered?
    ensures r.Failed? ==> r.error != ""
  {
    match a
    case Answered(userId, message) =>
      if userId.Some? && userId.value != 0 then Registered else Failed(OrText(message, "Registration failed"))
    case Threw(responseMessage, errorMessage) =>
      Failed(OrText(responseMessage, OrText(Some(errorMessage), "Failed to register")))
  }

  /**
   * `onSubmit`: an invalid form shows the first failing message and posts
   * nothing; otherwise the payload is posted, and only a registration resets
   * the form to its initial values, a failure keeping what was typed.
   */
  function Submit(f: Form, server: Payload -> Answer): (r: (Form, Outcome))
    ensures r.1.Invalid? <==> !Valid(f)
    ensures r.1.Invalid? ==> Some(r.1.error) == Validate(f) && r.0 == f
    ensures !r.1.Invalid? ==> r.1 == ReadAnswer(server(PayloadOf(f)))
    ensures r.1.Registered? ==> r.0 == Initial
    ensures r.1.Failed? ==> r.0 == f
  {
    match Validate(f)
    case Some(message) => (f, Invalid(message))
    case None =>
      var outcome := ReadAnswer(server(PayloadOf(f)));
      if outcome.Registered? then (Initial, outcome) else (f, outcome)
  }

  /** An invalid form reaches no server: the outcome is the same whatever the server would answer. */
  lemma InvalidPostsNothing(f: Form, s1: Payload -> Answer, s2: Payload -> Answer)
    requires !Valid(f)
    ensures Submit(f, s1) == Submit(f, s2)
  {
  }

  /** After a registration, submitting again at once is rejected with the username message. */
  lemma NoDoubleRegistration(f: Form, server: Payload -> Answer)
    requires Submit(f, server).1.Registered?
    ensures Submit(Submit(f, server).0, server).1 == Invalid(UsernameMessage)
  {
    InitialIsInvalid();
  }
}
