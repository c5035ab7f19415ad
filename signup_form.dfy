/** The sign-up page: `validateForm`, which fills an error map field by
    field, and the guard at the start of `handleSubmit`, which sends the
    registration request only for a form without errors. */
module SignUpForm {
  import opened Common
  import opened Users
  import opened JsText
  import opened AuthService

  /** The role selector offers two of the three roles. */
  type FormRole = r: Role | r != Staff witness Attendee

  datatype SignUpData = SignUpData(
    username: string, email: string, password: string, confirmPassword: string, name: string, role: FormRole)

  const UsernameMessage: string := "Username must be at least 3 characters"
  const EmailMessage: string := "Please enter a valid email address"
  const PasswordMessage: string := "Password must be at least 8 characters"
  const ConfirmMessage: string := "Passwords do not match"
  const NameMessage: string := "Please enter your full name"

  /** The keys the error map can hold, one per field of the form; `Key` is
      the property name the page uses. */
  datatype Field = Username | Email | Password | ConfirmPassword | Name {
    function Key(): string {
      match this
      case Username => "username"
      case Email => "email"
      case Password => "password"
      case ConfirmPassword => "confirmPassword"
      case Name => "name"
    }
  }

  const SignUpFields: set<Field> := {Username, Email, Password, ConfirmPassword, Name}

  // Each rule, as the page states it. `!s` holds for the empty string only;
  // lengths are JavaScript lengths.

  predicate UsernameRejected(f: SignUpData) {
    f.username == "" || Utf16Length(f.username) < 3
  }

  ghost predicate EmailRejected(f: SignUpData) {
    f.email == "" || !EmailPatternMatches(f.email)
  }

  predicate PasswordRejected(f: SignUpData) {
    f.password == "" || Utf16Length(f.password) < 8
  }

  predicate ConfirmRejected(f: SignUpData) {
    f.password != f.confirmPassword
  }

  predicate NameRejected(f: SignUpData) {
    f.name == "" || Utf16Length(f.name) < 2
  }

  /** Whether the rule of field `key` rejects the form. */
  ghost predicate FieldRejected(f: SignUpData, key: Field) {
    match key
    case Username => UsernameRejected(f)
    case Email => EmailRejected(f)
    case Password => PasswordRejected(f)
    case ConfirmPassword => ConfirmRejected(f)
    case Name => NameRejected(f)
  }

  function FieldMessage(key: Field): string {
    match key
    case Username => UsernameMessage
    case Email => EmailMessage
    case Password => PasswordMessage
    case ConfirmPassword => ConfirmMessage
    case Name => NameMessage
  }

  /** The errors of a form: one entry per field whose rule rejects it, with
      that field's message, and nothing else. */
  ghost function SignUpErrors(f: SignUpData): (r: map<Field, string>)
    ensures Username in r <==> UsernameRejected(f)
    ensures Email in r <==> EmailRejected(f)
    ensures Password in r <==> PasswordRejected(f)
    ensures ConfirmPassword in r <==> ConfirmRejected(f)
    ensures Name in r <==> NameRejected(f)
    ensures forall key :: key in r ==> r[key] == FieldMessage(key)
  {
    map key | key in SignUpFields && FieldRejected(f, key) :: FieldMessage(key)
  }

  /** A map with exactly the entries `SignUpErrors` describes is that map. */
  lemma SignUpErrorsByKey(f: SignUpData, m: map<Field, string>)
    requires Username in m <==> UsernameRejected(f)
    requires Email in m <==> EmailRejected(f)
    requires Password in m <==> PasswordRejected(f)
    requires ConfirmPassword in m <==> ConfirmRejected(f)
    requires Name in m <==> NameRejected(f)
    requires Username in m ==> m[Username] == UsernameMessage
    requires Email in m ==> m[Email] == EmailMessage
    requires Password in m ==> m[Password] == PasswordMessage
    requires ConfirmPassword in m ==> m[ConfirmPassword] == ConfirmMessage
    requires Name in m ==> m[Name] == NameMessage
    ensures m == SignUpErrors(f)
  {
    var r := SignUpErrors(f);
    forall key: Field ensures (key in m <==> key in r) && (key in m ==> m[key] == r[key]) {
      match key
      case Username =>
      case Email =>
      case Password =>
      case ConfirmPassword =>
      case Name =>
    }
    assert m.Keys == r.Keys;
  }

  /** A form the page accepts has a username of three or more characters, a
      password of eight or more that the confirmation repeats, a name of two
      or more, and an address with an `@` that is not its first character
      followed by a `.` that is not its last. */
  lemma AcceptedFormShape(f: SignUpData)
    requires SignUpErrors(f) == map[]
    ensures Utf16Length(f.username) >= 3 && Utf16Length(f.name) >= 2
    ensures Utf16Length(f.password) >= 8 && f.confirmPassword == f.password
    ensures exists b, c :: 0 < b < c < |f.email| - 1 && f.email[b] == '@' && f.email[c] == '.'
  {
    assert Email !in SignUpErrors(f);
    EmailPatternNeedsAtAndDot(f.email);
  }

  /** The page's state. */
  class SignUpPage {
    var formData: SignUpData
    var errors: map<Field, string>
    var isLoading: bool
    var successMessage: string

    constructor ()
      ensures formData == SignUpData("", "", "", "", "", Attendee)
      ensures errors == map[] && !isLoading && successMessage == ""
    {
      formData := SignUpData("", "", "", "", "", Attendee);
      errors := map[];
      isLoading := false;
      successMessage := "";
    }

    /** `validateForm()`: the error map is replaced by the form's errors, and
        the form is valid when there are none. */
    method ValidateForm() returns (valid: bool)
      modifies this
      ensures errors == SignUpErrors(formData)
      ensures valid <==> SignUpErrors(formData) == map[]
      ensures formData == old(formData) && isLoading == old(isLoading) && successMessage == old(successMessage)
    {
      var f := formData;
      var newErrors: map<Field, string> := map[];
      if UsernameRejected(f) {
        newErrors := newErrors[Username := UsernameMessage];
      }
      EmailPatternTestDecides(f.email);
      if f.email == "" || !EmailPatternTest(f.email) {
        newErrors := newErrors[Email := EmailMessage];
      }
      if PasswordRejected(f) {
        newErrors := newErrors[Password := PasswordMessage];
      }
      if ConfirmRejected(f) {
        newErrors := newErrors[ConfirmPassword := ConfirmMessage];
      }
      if NameRejected(f) {
        newErrors := newErrors[Name := NameMessage];
      }
      assert Username in newErrors <==> UsernameRejected(f);
      assert Email in newErrors <==> EmailRejected(f);
      assert Password in newErrors <==> PasswordRejected(f);
      assert ConfirmPassword in newErrors <==> ConfirmRejected(f);
      assert Name in newErrors <==> NameRejected(f);
      SignUpErrorsByKey(f, newErrors);
      errors := newErrors;
      valid := |newErrors.Keys| == 0;
    }

    /** The start of `handleSubmit`: an invalid form stops before any
        request; a valid one clears the messages, starts loading and yields
        the registration request the page posts. */
    method HandleSubmit() returns (request: Option<RegistrationRequest>)
      modifies this
      ensures formData == old(formData)
      ensures request.None? <==> SignUpErrors(formData) != map[]
      ensures request.None? ==>
                errors == SignUpErrors(formData) && isLoading == old(isLoading) && successMessage == old(successMessage)
      ensures request.Some? ==>
                && request.value == RegistrationRequest(formData.username, Some(formData.email), formData.password,
                                                        Some(formData.name), formData.role)
                && isLoading && errors == map[] && successMessage == ""
    {
      var valid := ValidateForm();
      if !valid {
        return None;
      }
      isLoading := true;
      errors := map[];
      successMessage := "";
      request := Some(RegistrationRequest(formData.username, Some(formData.email), formData.password,
                                          Some(formData.name), formData.role));
    }
  }
}
