/** The registration page: the password checks made before anything is sent,
    and the payload handed to `register`. */
module Register {
  import opened Common
  import opened JsString

  const MinPasswordLength := 6
  const MismatchError := "Passwords do not match"
  const TooShortError := "Password must be at least 6 characters"

  /** The form's fields; `role` is chosen from a select. */
  datatype RegisterForm = RegisterForm(username: string, email: string, password: string,
                                       confirmPassword: string, role: string)

  /** The form as the page opens: all empty, role "user". */
  const InitialForm := RegisterForm("", "", "", "", "user")

  /** What `register` receives: the form without `confirmPassword`. */
  datatype UserData = UserData(username: string, email: string, password: string, role: string)

  /** The outcome `register` reports. */
  datatype RegisterResult = Registered | RegisterFailed(error: string)

  /** The name of an input, as `handleChange` reads it from `e.target.name`. */
  datatype Field = UsernameField | EmailField | PasswordField | ConfirmField | RoleField

  /** `validateForm`: the error it reports, or `None`. The mismatch check comes
      first, so a short password that differs from its confirmation is
      reported as a mismatch. Length is counted in UTF-16 code units. */
  function ValidateForm(form: RegisterForm): (err: Option<string>)
    ensures err.None? <==>
              form.password == form.confirmPassword && Utf16Length(form.password) >= MinPasswordLength
    ensures err == Some(MismatchError) <==> form.password != form.confirmPassword
    ensures err == Some(TooShortError) <==>
              form.password == form.confirmPassword && Utf16Length(form.password) < MinPasswordLength
  {
    if form.password != form.confirmPassword then Some(MismatchError)
    else if Utf16Length(form.password) < MinPasswordLength then Some(TooShortError)
    else None
  }

  /** A password of six or more characters, each within the Basic Multilingual
      Plane, confirmed exactly, passes. */
  lemma SixCharactersSuffice(form: RegisterForm)
    requires form.password == form.confirmPassword && |form.password| >= MinPasswordLength
    requires forall i :: 0 <= i < |form.password| ==> form.password[i] as int <= 0xFFFF
    ensures ValidateForm(form).None?
  {
  }

  /** `const { confirmPassword, ...userData } = formData`. */
  function Payload(form: RegisterForm): (u: UserData)
    ensures u.username == form.username && u.email == form.email
    ensures u.password == form.password && u.role == form.role
  {
    UserData(form.username, form.email, form.password, form.role)
  }

  /** The payload with the confirmation put back is the form again: nothing
      but `confirmPassword` is dropped. */
  function WithConfirmation(u: UserData, confirmPassword: string): RegisterForm {
    RegisterForm(u.username, u.email, u.password, confirmPassword, u.role)
  }

  lemma PayloadDropsOnlyConfirmation(form: RegisterForm)
    ensures WithConfirmation(Payload(form), form.confirmPassword) == form
  {
  }

  /** Forms that differ only in `confirmPassword` give the same payload. */
  lemma PayloadIgnoresConfirmation(a: RegisterForm, b: RegisterForm)
    requires a.(confirmPassword := b.confirmPassword) == b
    ensures Payload(a) == Payload(b)
  {
  }

  /** `{ ...formData, [name]: value }`. */
  function WithField(form: RegisterForm, field: Field, value: string): (r: RegisterForm)
    ensures field == UsernameField ==> r == form.(username := value)
    ensures field == EmailField ==> r == form.(email := value)
    ensures field == PasswordField ==> r == form.(password := value)
    ensures field == ConfirmField ==> r == form.(confirmPassword := value)
    ensures field == RoleField ==> r == form.(role := value)
  {
    match field
    case UsernameField => form.(username := value)
    case EmailField => form.(email := value)
    case PasswordField => form.(password := value)
    case ConfirmField => form.(confirmPassword := value)
    case RoleField => form.(role := value)
  }

  /** A second edit of the same input overwrites the first. */
  lemma WithFieldOverwrites(form: RegisterForm, field: Field, first: string, second: string)
    ensures WithField(WithField(form, field, first), field, second) == WithField(form, field, second)
  {
  }

  /** Edits of different inputs do not interfere: their order does not matter. */
  lemma WithFieldCommutes(form: RegisterForm, f: Field, a: string, g: Field, b: string)
    requires f != g
    ensures WithField(WithField(form, f, a), g, b) == WithField(WithField(form, g, b), f, a)
  {
  }

  /** The page's state: the form, the alert text and the spinner flag. */
  class RegisterPage {
    var formData: RegisterForm
    var error: string
    var loading: bool

    constructor ()
      ensures formData == InitialForm && error == "" && !loading
    {
      formData, error, loading := InitialForm, "", false;
    }

    /** `handleChange`: one input changes. */
    method HandleChange(field: Field, value: string)
      modifies this`formData
      ensures formData == WithField(old(formData), field, value)
    {
      formData := WithField(formData, field, value);
    }

    /** `handleSubmit`, with `result` what `register` reports. Returns the
        payload sent (`None` when `register` was not called) and whether the
        page navigates to the login page. */
    method HandleSubmit(result: RegisterResult) returns (sent: Option<UserData>, toLogin: bool)
      modifies this`error, this`loading
      ensures ValidateForm(formData).Some? ==>
                sent.None? && !toLogin && error == ValidateForm(formData).value
                && loading == old(loading)
      ensures ValidateForm(formData).Some? ==> error != ""
      ensures ValidateForm(formData).None? ==>
                sent == Some(Payload(formData)) && !loading
                && (result.Registered? ==> toLogin && error == "")
                && (result.RegisterFailed? ==> !toLogin && error == result.error)
    {
      error := "";
      sent, toLogin := None, false;
      var invalid := ValidateForm(formData);
      if invalid.Some? {
        error := invalid.value;
        return;
      }
      loading := true;
      sent := Some(Payload(formData));
      if result.Registered? {
        toLogin := true;
      } else {
        error := result.error;
      }
      loading := false;
    }
  }
}
