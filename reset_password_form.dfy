/** The reset-password page: the missing-token message, `validateForm` with
    its two rules, and the guard at the start of `handleSubmit`, which posts
    the token and the new password only for a valid form and a present
    token. The token is the `token` query parameter of the page's address,
    read once. */
module ResetPasswordForm {
  import opened Common
  import opened JsText

  datatype ResetData = ResetData(newPassword: string, confirmPassword: string)

  /** The keys the error map can hold; `Key` is the property name the page
      uses. */
  datatype Field = NewPassword | ConfirmPassword {
    function Key(): string {
      match this
      case NewPassword => "newPassword"
      case ConfirmPassword => "confirmPassword"
    }
  }

  const MissingTokenMessage: string := "Invalid or missing reset token"
  const PasswordMessage: string := "Password must be at least 8 characters"
  const ConfirmMessage: string := "Passwords do not match"

  predicate PasswordRejected(f: ResetData) {
    f.newPassword == "" || Utf16Length(f.newPassword) < 8
  }

  predicate ConfirmRejected(f: ResetData) {
    f.newPassword != f.confirmPassword
  }

  /** The errors of a form: an entry for each rule that rejects it, with
      that rule's message, and nothing else. */
  function ResetErrors(f: ResetData): (r: map<Field, string>)
    ensures NewPassword in r <==> Utf16Length(f.newPassword) < 8
    ensures ConfirmPassword in r <==> f.newPassword != f.confirmPassword
    ensures NewPassword in r ==> r[NewPassword] == PasswordMessage
    ensures ConfirmPassword in r ==> r[ConfirmPassword] == ConfirmMessage
    ensures r == map[] <==> Utf16Length(f.newPassword) >= 8 && f.confirmPassword == f.newPassword
  {
    var password := if PasswordRejected(f) then map[NewPassword := PasswordMessage] else map[];
    var confirm := if ConfirmRejected(f) then map[ConfirmPassword := ConfirmMessage] else map[];
    var r := password + confirm;
    assert r == map[] <==> !PasswordRejected(f) && !ConfirmRejected(f) by {
      if PasswordRejected(f) {
        assert NewPassword in r;
      } else if ConfirmRejected(f) {
        assert ConfirmPassword in r;
      }
    }
    r
  }

  /** The body posted to the reset endpoint. */
  datatype ResetRequestBody = ResetRequestBody(token: string, newPassword: string)

  /** The page's state. */
  class ResetPasswordPage {
    const token: Option<string>
    var formData: ResetData
    var errors: map<Field, string>
    var isLoading: bool
    var successMessage: string
    var errorMessage: string

    constructor (token: Option<string>)
      ensures this.token == token
      ensures formData == ResetData("", "") && errors == map[]
      ensures !isLoading && successMessage == "" && errorMessage == ""
    {
      this.token := token;
      formData := ResetData("", "");
      errors := map[];
      isLoading := false;
      successMessage := "";
      errorMessage := "";
    }

    /** The effect run when the token changes: a missing or empty token
        shows the missing-token message; otherwise nothing changes. */
    method CheckToken()
      modifies this
      ensures !Truthy(token) ==> errorMessage == MissingTokenMessage
      ensures Truthy(token) ==> errorMessage == old(errorMessage)
      ensures formData == old(formData) && errors == old(errors)
      ensures isLoading == old(isLoading) && successMessage == old(successMessage)
    {
      if !Truthy(token) {
        errorMessage := MissingTokenMessage;
      }
    }

    /** `validateForm()`: the error map is replaced by the form's errors, and
        the form is valid when there are none. */
    method ValidateForm() returns (valid: bool)
      modifies this
      ensures errors == ResetErrors(formData)
      ensures valid <==> Utf16Length(formData.newPassword) >= 8 && formData.confirmPassword == formData.newPassword
      ensures formData == old(formData) && isLoading == old(isLoading)
      ensures successMessage == old(successMessage) && errorMessage == old(errorMessage)
    {
      var f := formData;
      var newErrors: map<Field, string> := map[];
      if PasswordRejected(f) {
        newErrors := newErrors[NewPassword := PasswordMessage];
      }
      if ConfirmRejected(f) {
        newErrors := newErrors[ConfirmPassword := ConfirmMessage];
      }
      assert newErrors == ResetErrors(f);
      errors := newErrors;
      valid := |newErrors.Keys| == 0;
    }

    /** The start of `handleSubmit`: both messages are cleared and the form
        is validated; only a valid form with a present token goes on, by
        starting to load and posting the token with the new password. A
        submit without a token therefore also clears the missing-token
        message and posts nothing. */
    method HandleSubmit() returns (request: Option<ResetRequestBody>)
      modifies this
      ensures formData == old(formData)
      ensures errors == ResetErrors(formData)
      ensures errorMessage == "" && successMessage == ""
      ensures request.Some? <==> ResetErrors(formData) == map[] && Truthy(token)
      ensures request.Some? ==> request.value == ResetRequestBody(token.value, formData.newPassword) && isLoading
      ensures request.None? ==> isLoading == old(isLoading)
    {
      errorMessage := "";
      successMessage := "";
      var valid := ValidateForm();
      if !valid || !Truthy(token) {
        return None;
      }
      isLoading := true;
      request := Some(ResetRequestBody(token.value, formData.newPassword));
    }
  }
}
