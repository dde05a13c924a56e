/**
 * The registration form of frontend/src/components/Register.jsx: the
 * client-side validator `validateForm`, and the component state that
 * `handleChange` and `handleSubmit` update. The submit handler is split at its
 * `await`: `Submit` runs up to the request it sends, `Receive` runs what follows
 * once the server has answered.
 */
module RegisterForm {
  import opened Wrappers
  import opened Text
  import opened FormErrors
  import Validation
  import Server

  const LoginRequiredMessage := "Login jest wymagany"
  const LoginTooShortMessage := "Login musi mieć co najmniej 3 znaki"
  const LoginTooLongMessage := "Login może mieć maksymalnie 50 znaków"
  const LoginPatternMessage := "Login może zawierać tylko litery, cyfry i podkreślniki"
  const PasswordRequiredMessage := "Hasło jest wymagane"
  const PasswordTooShortMessage := "Hasło musi mieć co najmniej 6 znaków"
  const ConfirmRequiredMessage := "Potwierdzenie hasła jest wymagane"
  const PasswordsDifferMessage := "Hasła nie są identyczne"
  const SuccessMessage := "Rejestracja zakończona sukcesem. Możesz się zalogować."
  const FallbackMessage := "Błąd rejestracji"

  /** The three inputs of the form. */
  datatype FormData = FormData(login: string, password: string, confirmPassword: string)

  /** The `name` of an input, as `handleChange` receives it. */
  datatype Field = Login | Password | ConfirmPassword {
    function Key(): string {
      match this
      case Login => "login"
      case Password => "password"
      case ConfirmPassword => "confirmPassword"
    }
  }

  const EmptyForm := FormData("", "", "")

  // ---------------------------------------------------------------------------
  // validateForm

  /** The login's error, checks tried in order: blank, under 3, over 50, pattern. */
  function LoginError(login: string): (e: Option<string>)
    ensures e.Some? ==> e.value != ""
  {
    if Trim(login) == "" then Some(LoginRequiredMessage)
    else if Utf16Length(login) < 3 then Some(LoginTooShortMessage)
    else if Utf16Length(login) > 50 then Some(LoginTooLongMessage)
    else if !MatchesWordPattern(login) then Some(LoginPatternMessage)
    else None
  }

  /**
   * The login has no error exactly when it is not blank, 3 to 50 units long
   * and of word characters; otherwise the first failing check names it.
   */
  lemma LoginErrorIff(login: string)
    ensures LoginError(login).None? <==> !IsBlank(login) && 3 <= Utf16Length(login) <= 50 && MatchesWordPattern(login)
    ensures IsBlank(login) ==> LoginError(login) == Some(LoginRequiredMessage)
    ensures !IsBlank(login) && Utf16Length(login) < 3 ==> LoginError(login) == Some(LoginTooShortMessage)
    ensures !IsBlank(login) && Utf16Length(login) > 50 ==> LoginError(login) == Some(LoginTooLongMessage)
    ensures !IsBlank(login) && 3 <= Utf16Length(login) <= 50 && !MatchesWordPattern(login) ==>
      LoginError(login) == Some(LoginPatternMessage)
  {
    TrimEmptyIffBlank(login);
  }

  /** The password's error: empty, then under 6. */
  function PasswordError(password: string): (e: Option<string>)
    ensures e.None? <==> Utf16Length(password) >= 6
    ensures password == "" ==> e == Some(PasswordRequiredMessage)
    ensures password != "" && Utf16Length(password) < 6 ==> e == Some(PasswordTooShortMessage)
  {
    if password == "" then Some(PasswordRequiredMessage)
    else if Utf16Length(password) < 6 then Some(PasswordTooShortMessage)
    else None
  }

  /** The confirmation's error: empty, then different from the password. */
  function ConfirmError(password: string, confirm: string): (e: Option<string>)
    ensures e.None? <==> confirm != "" && confirm == password
    ensures confirm == "" ==> e == Some(ConfirmRequiredMessage)
    ensures confirm != "" && confirm != password ==> e == Some(PasswordsDifferMessage)
  {
    if confirm == "" then Some(ConfirmRequiredMessage)
    else if password != confirm then Some(PasswordsDifferMessage)
    else None
  }

  /** `newErrors` as `validateForm` builds it: one entry per field that has an error. */
  function ValidateForm(form: FormData): (errors: map<string, string>)
    ensures forall k :: k in errors ==> k == "login" || k == "password" || k == "confirmPassword"
  {
    Put(Put(Put(map[], "login", LoginError(form.login)), "password", PasswordError(form.password)), "confirmPassword", ConfirmError(form.password, form.confirmPassword))
  }

  /** Each field has an entry exactly when its validator reports, holding that report. */
  lemma ValidateFormEntries(form: FormData)
    ensures var errors := ValidateForm(form);
      && ("login" in errors <==> LoginError(form.login).Some?)
      && ("login" in errors ==> errors["login"] == LoginError(form.login).value)
      && ("password" in errors <==> PasswordError(form.password).Some?)
      && ("password" in errors ==> errors["password"] == PasswordError(form.password).value)
      && ("confirmPassword" in errors <==> ConfirmError(form.password, form.confirmPassword).Some?)
      && ("confirmPassword" in errors ==> errors["confirmPassword"] == ConfirmError(form.password, form.confirmPassword).value)
  {
    assert |"login"| == 5 && |"password"| == 8 && |"confirmPassword"| == 15;
    PutThree("login", LoginError(form.login), "password", PasswordError(form.password), "confirmPassword", ConfirmError(form.password, form.confirmPassword));
  }

  /** The form passes exactly when no field has an error. */
  lemma FormValidIff(form: FormData)
    ensures |ValidateForm(form)| == 0 <==>
      && !IsBlank(form.login) && 3 <= |form.login| <= 50 && MatchesWordPattern(form.login)
      && Utf16Length(form.password) >= 6
      && form.confirmPassword == form.password
  {
    var errors := ValidateForm(form);
    ValidateFormEntries(form);
    LoginErrorIff(form.login);
    if MatchesWordPattern(form.login) {
      WordLengths(form.login);
    }
    if |errors| == 0 {
      assert "login" !in errors && "password" !in errors && "confirmPassword" !in errors;
    } else {
      var k :| k in errors;
    }
  }

  /** A login of spaces is reported as missing, however long it is. */
  lemma BlankLoginRequired(n: nat)
    ensures LoginError(seq(n, _ => ' ')) == Some(LoginRequiredMessage)
  {
    LoginErrorIff(seq(n, _ => ' '));
  }

  /**
   * The client accepts a login exactly when both login rules of
   * backend/validation.js accept it.
   */
  lemma {:induction false} LoginRulesAgree(login: string)
    ensures LoginError(login).None? <==> Validation.LoginLengthOk(login) && Validation.LoginFormatOk(login)
  {
    LoginErrorIff(login);
    if MatchesWordPattern(login) {
      WordLengths(login);
      WordNotBlank(login);
    }
  }

  /**
   * For a present login, the client accepts a password exactly when the
   * server's register precheck does (both count UTF-16 code units).
   */
  lemma PasswordRuleAgreesWithServer(login: string, password: string)
    requires login != ""
    ensures PasswordError(password).None? <==> Server.RegisterPrecheck(Some(login), Some(password)).None?
  {
  }

  // ---------------------------------------------------------------------------
  // The component

  /** The body `{login, password}` that a valid form posts to `/register`. */
  datatype RegisterRequest = RegisterRequest(login: string, password: string)

  /** How the `/register` request ended. */
  datatype Reply = Created | Rejected(failure: Failure)

  /** The errors object a failed request leaves. */
  function FailureErrors(failure: Failure): (errors: map<string, string>)
    ensures failure.data.fieldErrors.Some? ==> errors == LastWins(failure.data.fieldErrors.value)
    ensures failure.data.fieldErrors.None? ==> errors.Keys == {"general"}
    ensures failure.data.fieldErrors.None? && Truthy(failure.data.message) ==>
      errors == map["general" := failure.data.message.value]
    ensures failure.data.fieldErrors.None? && !Truthy(failure.data.message) && Truthy(failure.data.error) ==>
      errors == map["general" := failure.data.error.value]
    ensures failure.data.fieldErrors.None? && !Truthy(failure.data.message) && !Truthy(failure.data.error) ==>
      errors == map["general" := FallbackMessage]
  {
    var data := failure.data;
    if data.fieldErrors.Some? then LastWins(data.fieldErrors.value)
    else if Truthy(data.message) then map["general" := data.message.value]
    else map["general" := if Truthy(data.error) then data.error.value else FallbackMessage]
  }

  class RegisterComponent {
    var formData: FormData
    var errors: map<string, string>
    var success: string

    constructor ()
      ensures formData == EmptyForm && errors == map[] && success == ""
    {
      formData := EmptyForm;
      errors := map[];
      success := "";
    }

    /**
     * `handleChange`: the named input takes the value, and that field's error,
     * if it has a non-empty one, is set to ''; nothing else changes.
     */
    method HandleChange(name: Field, value: string)
      modifies this
      ensures formData == match name
        case Login => old(formData).(login := value)
        case Password => old(formData).(password := value)
        case ConfirmPassword => old(formData).(confirmPassword := value)
      ensures errors == if name.Key() in old(errors) && old(errors)[name.Key()] != "" then old(errors)[name.Key() := ""] else old(errors)
      ensures success == old(success)
    {
      match name {
        case Login => formData := formData.(login := value);
        case Password => formData := formData.(password := value);
        case ConfirmPassword => formData := formData.(confirmPassword := value);
      }
      if name.Key() in errors && errors[name.Key()] != "" {
        errors := errors[name.Key() := ""];
      }
    }

    /**
     * `handleSubmit` up to its request: the success note is cleared, the form
     * is validated and its errors shown, and only a valid form sends
     * `{login, password}`.
     */
    method Submit() returns (request: Option<RegisterRequest>)
      modifies this
      ensures formData == old(formData) && success == ""
      ensures errors == ValidateForm(formData)
      ensures request.Some? <==> |ValidateForm(formData)| == 0
      ensures request.Some? ==> request.value == RegisterRequest(formData.login, formData.password)
    {
      errors := map[];
      success := "";
      errors := ValidateForm(formData);
      if |errors| != 0 {
        return None;
      }
      request := Some(RegisterRequest(formData.login, formData.password));
    }

    /**
     * The rest of `handleSubmit`: on success a note and an empty form; on
     * failure the errors of the reply.
     */
    method Receive(reply: Reply)
      modifies this
      ensures reply.Created? ==> success == SuccessMessage && formData == EmptyForm && errors == old(errors)
      ensures reply.Rejected? ==>
        errors == FailureErrors(reply.failure) && formData == old(formData) && success == old(success)
    {
      match reply
      case Created =>
        success := SuccessMessage;
        formData := EmptyForm;
      case Rejected(failure) =>
        var data := failure.data;
        if data.fieldErrors.Some? {
          errors := CollectFieldErrors(data.fieldErrors.value);
        } else if Truthy(data.message) {
          errors := map["general" := data.message.value];
        } else {
          errors := map["general" := if Truthy(data.error) then data.error.value else FallbackMessage];
        }
    }
  }
}
