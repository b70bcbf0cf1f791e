/** Registering a user (SignupActivity.registerUser): the five inputs are trimmed,
    checked in a fixed order with the first failure reported alone, and only a
    form that passes every check and whose e-mail is not yet registered is
    inserted. */
module Signup {
  import opened Common

  /** The signup form's five fields. */
  datatype SignupForm = SignupForm(firstname: string, lastname: string, email: string,
                                   password: string, confirmPassword: string)

  /** The error each check reports on its field. */
  datatype SignupError =
    | FirstNameRequired
    | LastNameRequired
    | EmailRequired
    | InvalidEmail
    | PasswordRequired
    | ConfirmPasswordRequired
    | PasswordsDoNotMatch

  /** Lines 97-101: every field trimmed. */
  function Trimmed(raw: SignupForm): SignupForm
  {
    SignupForm(Trim(raw.firstname), Trim(raw.lastname), Trim(raw.email), Trim(raw.password), Trim(raw.confirmPassword))
  }

  /** The checks, in the order the source runs them. */
  const SIGNUP_CHECKS: seq<SignupError> := [FirstNameRequired, LastNameRequired, EmailRequired, InvalidEmail,
                                            PasswordRequired, ConfirmPasswordRequired, PasswordsDoNotMatch]

  /** What makes each check fail, taken on its own. */
  predicate CheckFails(form: SignupForm, emailPattern: string -> bool, e: SignupError)
  {
    match e
      case FirstNameRequired => form.firstname == []
      case LastNameRequired => form.lastname == []
      case EmailRequired => form.email == []
      case InvalidEmail => !IsValidEmail(form.email, emailPattern)
      case PasswordRequired => form.password == []
      case ConfirmPasswordRequired => form.confirmPassword == []
      case PasswordsDoNotMatch => form.password != form.confirmPassword
  }

  function Fails(form: SignupForm, emailPattern: string -> bool): SignupError -> bool
  {
    e => CheckFails(form, emailPattern, e)
  }

  /** Lines 104-129: the guard chain over the trimmed fields. */
  function Validate(form: SignupForm, emailPattern: string -> bool): Option<SignupError>
  {
    if form.firstname == [] then Some(FirstNameRequired)
    else if form.lastname == [] then Some(LastNameRequired)
    else if form.email == [] then Some(EmailRequired)
    else if !IsValidEmail(form.email, emailPattern) then Some(InvalidEmail)
    else if form.password == [] then Some(PasswordRequired)
    else if form.confirmPassword == [] then Some(ConfirmPasswordRequired)
    else if form.password != form.confirmPassword then Some(PasswordsDoNotMatch)
    else None
  }

  /** The chain reports exactly the first check, in order, that fails, and nothing
      when every check passes. */
  lemma ValidateReportsFirstFailingCheck(form: SignupForm, emailPattern: string -> bool)
    ensures Validate(form, emailPattern) == FirstFailing(SIGNUP_CHECKS, Fails(form, emailPattern))
  {
    var fails := Fails(form, emailPattern);
    var c := SIGNUP_CHECKS;
    assert c[1..][1..][1..][1..][1..][1..][1..] == [];
    var k := FirstFailingIndex(c, fails);
    assert FirstFailingIndex(c[1..][1..][1..][1..][1..][1..][1..], fails) == 0;
  }

  /** What registerUser ends in. The insert carries the trimmed fields. */
  datatype SignupOutcome =
    | Rejected(error: SignupError)
    | EmailAlreadyExists
    | Registered(firstname: string, lastname: string, email: string, password: string)

  /** registerUser (lines 94-139). Whether an address is registered and whether it
      matches the e-mail pattern are parameters. */
  function RegisterUser(raw: SignupForm, emailPattern: string -> bool, userExists: string -> bool): (outcome: SignupOutcome)
    ensures outcome.Rejected? <==> Validate(Trimmed(raw), emailPattern).Some?
    ensures outcome.Rejected? ==> Validate(Trimmed(raw), emailPattern) == Some(outcome.error)
    ensures outcome.EmailAlreadyExists? <==>
              Validate(Trimmed(raw), emailPattern).None? && userExists(Trim(raw.email))
    ensures outcome.Registered? ==>
              && outcome.firstname == Trim(raw.firstname) && outcome.firstname != []
              && outcome.lastname == Trim(raw.lastname) && outcome.lastname != []
              && outcome.email == Trim(raw.email) && IsValidEmail(outcome.email, emailPattern)
              && !userExists(outcome.email)
              && outcome.password == Trim(raw.password) == Trim(raw.confirmPassword) && outcome.password != []
  {
    var form := Trimmed(raw);
    var error := Validate(form, emailPattern);
    if error.Some? then Rejected(error.value)
    else if userExists(form.email) then EmailAlreadyExists
    else Registered(form.firstname, form.lastname, form.email, form.password)
  }

  /** A first name that trims to nothing is reported whatever the other fields hold. */
  lemma EmptyFirstNameComesFirst(raw: SignupForm, emailPattern: string -> bool, userExists: string -> bool)
    requires forall k :: 0 <= k < |raw.firstname| ==> raw.firstname[k] <= ' '
    ensures RegisterUser(raw, emailPattern, userExists) == Rejected(FirstNameRequired)
  {
    TrimEmptyIffBlank(raw.firstname);
  }

  /** The mismatch is reported only for two filled-in passwords that differ, and
      only when every earlier field is fine. */
  lemma MismatchNeedsBothPasswords(raw: SignupForm, emailPattern: string -> bool, userExists: string -> bool)
    ensures RegisterUser(raw, emailPattern, userExists) == Rejected(PasswordsDoNotMatch) <==>
              && Trim(raw.firstname) != [] && Trim(raw.lastname) != []
              && IsValidEmail(Trim(raw.email), emailPattern)
              && Trim(raw.password) != [] && Trim(raw.confirmPassword) != []
              && Trim(raw.password) != Trim(raw.confirmPassword)
  {
  }

  lemma TrimPaddedSecret()
    ensures Trim(" secret") == "secret" && Trim("secret ") == "secret"
  {
    assert TrimStart(" secret") == 1;
    assert " secret"[1..] == "secret";
    assert TrimEnd("secret") == "secret";
    assert TrimStart("secret ") == 0;
    assert "secret "[0..] == "secret ";
    assert "secret "[..6] == "secret";
  }

  lemma TrimPlainNames()
    ensures Trim("Ann") == "Ann" && Trim("Lee") == "Lee" && Trim("a@b.c") == "a@b.c"
  {
    assert "Ann"[0..] == "Ann" && "Lee"[0..] == "Lee" && "a@b.c"[0..] == "a@b.c";
  }

  /** Spaces around the password do not matter: " secret" and "secret " match. */
  lemma PasswordsCompareTrimmed(emailPattern: string -> bool, userExists: string -> bool)
    requires emailPattern("a@b.c") && !userExists("a@b.c")
    ensures RegisterUser(SignupForm("Ann", "Lee", "a@b.c", " secret", "secret "), emailPattern, userExists)
            == Registered("Ann", "Lee", "a@b.c", "secret")
  {
    TrimPaddedSecret();
    TrimPlainNames();
  }
}
