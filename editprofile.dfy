/** Editing the profile (EditProfileActivity.saveUserData): the six inputs are
    trimmed and checked in a fixed order, the old password is then compared with
    the stored hash, and the stored preferences change only when the database
    update succeeds. */
module EditProfile {
  import opened Common
  import opened Security

  /** The edit form's six fields. */
  datatype EditForm = EditForm(firstname: string, lastname: string, email: string,
                               oldPassword: string, newPassword: string, confirmNewPassword: string)

  /** The error each check reports on its field. */
  datatype EditError =
    | FirstNameRequired
    | LastNameRequired
    | EmailRequired
    | InvalidEmail
    | OldPasswordRequired
    | NewPasswordRequired
    | PasswordsDoNotMatch
    | OldPasswordIncorrect

  /** Lines 81-86: every field trimmed. */
  function Trimmed(raw: EditForm): EditForm
  {
    EditForm(Trim(raw.firstname), Trim(raw.lastname), Trim(raw.email),
             Trim(raw.oldPassword), Trim(raw.newPassword), Trim(raw.confirmNewPassword))
  }

  /** The input checks, in the order the source runs them; the confirmation field
      has no emptiness check of its own. */
  const EDIT_CHECKS: seq<EditError> := [FirstNameRequired, LastNameRequired, EmailRequired, InvalidEmail,
                                        OldPasswordRequired, NewPasswordRequired, PasswordsDoNotMatch]

  /** What makes each input check fail, taken on its own. */
  predicate CheckFails(form: EditForm, emailPattern: string -> bool, e: EditError)
  {
    match e
      case FirstNameRequired => form.firstname == []
      case LastNameRequired => form.lastname == []
      case EmailRequired => form.email == []
      case InvalidEmail => !IsValidEmail(form.email, emailPattern)
      case OldPasswordRequired => form.oldPassword == []
      case NewPasswordRequired => form.newPassword == []
      case PasswordsDoNotMatch => form.newPassword != form.confirmNewPassword
      case OldPasswordIncorrect => false
  }

  function Fails(form: EditForm, emailPattern: string -> bool): EditError -> bool
  {
    e => CheckFails(form, emailPattern, e)
  }

  /** Lines 89-114: the guard chain over the trimmed fields. */
  function Validate(form: EditForm, emailPattern: string -> bool): Option<EditError>
  {
    if form.firstname == [] then Some(FirstNameRequired)
    else if form.lastname == [] then Some(LastNameRequired)
    else if form.email == [] then Some(EmailRequired)
    else if !IsValidEmail(form.email, emailPattern) then Some(InvalidEmail)
    else if form.oldPassword == [] then Some(OldPasswordRequired)
    else if form.newPassword == [] then Some(NewPasswordRequired)
    else if form.newPassword != form.confirmNewPassword then Some(PasswordsDoNotMatch)
    else None
  }

  /** The chain reports exactly the first input check, in order, that fails, and
      nothing when every check passes. */
  lemma ValidateReportsFirstFailingCheck(form: EditForm, emailPattern: string -> bool)
    ensures Validate(form, emailPattern) == FirstFailing(EDIT_CHECKS, Fails(form, emailPattern))
  {
    var fails := Fails(form, emailPattern);
    var c := EDIT_CHECKS;
    assert c[1..][1..][1..][1..][1..][1..][1..] == [];
    assert FirstFailingIndex(c[1..][1..][1..][1..][1..][1..][1..], fails) == 0;
  }

  /** An empty confirmation is not reported on its own: once the earlier fields
      pass and a new password is given, it fails as a mismatch. */
  lemma EmptyConfirmationIsMismatch(form: EditForm, emailPattern: string -> bool)
    requires form.firstname != [] && form.lastname != [] && IsValidEmail(form.email, emailPattern)
    requires form.oldPassword != [] && form.newPassword != [] && form.confirmNewPassword == []
    ensures Validate(form, emailPattern) == Some(PasswordsDoNotMatch)
  {
  }

  /** The old password is right: a stored hash exists and is the hex rendering of
      the SHA-256 digest of the password. */
  predicate OldPasswordMatches(oldPassword: string, storedPasswordHash: Option<string>, sha256: string -> seq<int8>)
  {
    storedPasswordHash.Some? && HexEncode(sha256(oldPassword)) == storedPasswordHash.value
  }

  /** isOldPasswordCorrect (lines 149-161). The stored hash is looked up by the
      signed-in e-mail; the lookup and the digest are parameters. */
  method IsOldPasswordCorrect(oldPassword: string, currentEmail: Option<string>,
                              getUserPassword: Option<string> -> Option<string>, sha256: string -> seq<int8>)
    returns (correct: bool)
    ensures correct <==> OldPasswordMatches(oldPassword, getUserPassword(currentEmail), sha256)
    ensures getUserPassword(currentEmail).None? ==> !correct
  {
    var storedPasswordHash := getUserPassword(currentEmail);
    if storedPasswordHash.Some? {
      var hashedOldPassword := HashPassword(oldPassword, sha256);
      correct := SlowEquals(hashedOldPassword, storedPasswordHash.value);
    } else {
      correct := false;
    }
  }

  /** The user_prefs store: the signed-in user's names and e-mail. */
  class Preferences {
    var firstname: Option<string>
    var lastname: Option<string>
    var email: Option<string>

    constructor(firstname: Option<string>, lastname: Option<string>, email: Option<string>)
      ensures this.firstname == firstname && this.lastname == lastname && this.email == email
    {
      this.firstname := firstname;
      this.lastname := lastname;
      this.email := email;
    }
  }

  /** What saveUserData ends in. Updated carries what was sent to updateUser. */
  datatype EditOutcome =
    | Rejected(error: EditError)
    | UpdateFailed
    | Updated(firstname: string, lastname: string, email: string, newPassword: string)

  /** saveUserData (lines 79-141). The database update is a parameter that says
      whether it succeeded. */
  method SaveUserData(prefs: Preferences, userId: int, raw: EditForm, emailPattern: string -> bool,
                      getUserPassword: Option<string> -> Option<string>, sha256: string -> seq<int8>,
                      updateUser: (int, string, string, string, string) -> bool)
    returns (outcome: EditOutcome)
    modifies prefs
    ensures var form := Trimmed(raw);
      && (Validate(form, emailPattern).Some? ==> outcome == Rejected(Validate(form, emailPattern).value))
      && (Validate(form, emailPattern).None? ==>
            (outcome == Rejected(OldPasswordIncorrect) <==>
               !OldPasswordMatches(form.oldPassword, getUserPassword(old(prefs.email)), sha256)))
      && (outcome.Updated? <==>
            Validate(form, emailPattern).None? &&
            OldPasswordMatches(form.oldPassword, getUserPassword(old(prefs.email)), sha256) &&
            updateUser(userId, form.firstname, form.lastname, form.email, form.newPassword))
      && (outcome == UpdateFailed <==>
            Validate(form, emailPattern).None? &&
            OldPasswordMatches(form.oldPassword, getUserPassword(old(prefs.email)), sha256) &&
            !updateUser(userId, form.firstname, form.lastname, form.email, form.newPassword))
      && (outcome.Updated? ==> outcome == Updated(form.firstname, form.lastname, form.email, form.newPassword))
    ensures outcome.Updated? ==>
              prefs.firstname == Some(outcome.firstname) && prefs.lastname == Some(outcome.lastname) &&
              prefs.email == Some(outcome.email)
    ensures !outcome.Updated? ==>
              prefs.firstname == old(prefs.firstname) && prefs.lastname == old(prefs.lastname) &&
              prefs.email == old(prefs.email)
  {
    var form := Trimmed(raw);
    var error := Validate(form, emailPattern);
    if error.Some? {
      return Rejected(error.value);
    }
    var correct := IsOldPasswordCorrect(form.oldPassword, prefs.email, getUserPassword, sha256);
    if !correct {
      return Rejected(OldPasswordIncorrect);
    }
    var isUpdated := updateUser(userId, form.firstname, form.lastname, form.email, form.newPassword);
    if isUpdated {
      prefs.firstname := Some(form.firstname);
      prefs.lastname := Some(form.lastname);
      prefs.email := Some(form.email);
      outcome := Updated(form.firstname, form.lastname, form.email, form.newPassword);
    } else {
      outcome := UpdateFailed;
    }
  }
}
