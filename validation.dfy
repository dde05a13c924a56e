/**
 * The request validation rules of backend/validation.js: the `validateAuth`
 * and `validateTask` rule chains, the error report of
 * `handleValidationErrors`, and the keyword classifier `getErrorCode`.
 *
 * express-validator itself is not modelled; its behaviour is encoded here as
 * stated assumptions: every validator of a chain runs and each failure adds one
 * error, in chain order and then validator order; a missing value is checked
 * as the empty string; `.optional()` skips only a missing (undefined) value.
 */
module Validation {
  import opened Wrappers
  import opened Text

  const LoginLengthMessage := "Login musi mieć od 3 do 50 znaków"
  /** Written in pieces around its one 'w' and its one 'f', on which the keyword proofs below turn. */
  const LoginPatternMessage := "Login może za" + "w" + "ierać tylko litery, cy" + "f" + "ry i podkreślniki"
  const PasswordLengthMessage := "Hasło musi mieć co najmniej 6 znaków"
  const TitleRequiredMessage := "Tytuł jest wymagany"
  const TitleLengthMessage := "Tytuł może mieć maksymalnie 255 znaków"
  const DescriptionLengthMessage := "Opis może mieć maksymalnie 1000 znaków"
  const StatusMessage := "Nieprawidłowy status zadania"

  /** The closed set of task statuses `isIn` accepts. */
  const TaskStatuses: seq<string> := ["PENDING", "IN_PROGRESS", "COMPLETED"]

  /** One error of `validationResult(req).array()`: its `type`, `path` and `msg`. */
  datatype ValidationError = ValidationError(kind: string, path: string, msg: string)

  /** The body fields the two rule sets read; `None` is an absent field. */
  datatype AuthInput = AuthInput(login: Option<string>, password: Option<string>)
  datatype TaskInput = TaskInput(title: Option<string>, description: Option<string>, status: Option<string>)

  // ---------------------------------------------------------------------------
  // The rules, one predicate each

  /** `isLength({ min: 3, max: 50 })` on the login. */
  function LoginLengthOk(login: string): (ok: bool)
    ensures ok ==> 3 <= |login|
  {
    3 <= ValidatorLength(login) <= 50
  }

  /** `matches(/^[a-zA-Z0-9_]+$/)` on the login. */
  function LoginFormatOk(login: string): (ok: bool)
    ensures ok ==> login != "" && ' ' !in login
  {
    MatchesWordPattern(login)
  }

  /** `isLength({ min: 6 })` on the password. */
  function PasswordLengthOk(password: string): (ok: bool)
    ensures ok ==> 6 <= |password|
  {
    ValidatorLength(password) >= 6
  }

  /** `notEmpty()` on the title: a title of spaces is not empty. */
  function TitleNotEmpty(title: string): (ok: bool)
    ensures !ok ==> !TitleLengthOk(title)
  {
    title != ""
  }

  /** `isLength({ min: 1, max: 255 })` on the title. */
  function TitleLengthOk(title: string): (ok: bool)
    ensures ok ==> 1 <= |title|
  {
    1 <= ValidatorLength(title) <= 255
  }

  /** `optional().isLength({ max: 1000 })` on the description. */
  function DescriptionOk(description: Option<string>): (ok: bool)
    ensures description.None? || |description.value| <= 1000 ==> ok
  {
    description.None? || ValidatorLength(description.value) <= 1000
  }

  /** `optional().isIn([...])` on the status. */
  function StatusOk(status: Option<string>): (ok: bool)
    ensures status == Some("") ==> !ok
  {
    status.None? || status.value in TaskStatuses
  }

  /** One validator of a `body(path)` chain: no error when it passes, one when it fails. */
  function Check(ok: bool, path: string, msg: string): (errors: seq<ValidationError>)
    ensures |errors| <= 1
    ensures errors == [] <==> ok
    ensures forall e :: e in errors ==> e == ValidationError("field", path, msg)
  {
    if ok then [] else [ValidationError("field", path, msg)]
  }

  /** The `validateAuth` chains run on a request body. */
  function ValidateAuth(input: AuthInput): (errors: seq<ValidationError>)
    ensures var login, password := input.login.GetOr(""), input.password.GetOr("");
      errors == [] <==> LoginLengthOk(login) && LoginFormatOk(login) && PasswordLengthOk(password)
    ensures forall e :: e in errors ==> e.kind == "field" && e.path in {"login", "password"}
    ensures forall i, j :: 0 <= i < j < |errors| && errors[i].path == "password" ==> errors[j].path == "password"
  {
    var login, password := input.login.GetOr(""), input.password.GetOr("");
    Check(LoginLengthOk(login), "login", LoginLengthMessage)
    + Check(LoginFormatOk(login), "login", LoginPatternMessage)
    + Check(PasswordLengthOk(password), "password", PasswordLengthMessage)
  }

  /** The `validateTask` chains run on a request body. */
  function ValidateTask(input: TaskInput): (errors: seq<ValidationError>)
    ensures var title := input.title.GetOr("");
      errors == [] <==> TitleNotEmpty(title) && TitleLengthOk(title)
                        && DescriptionOk(input.description) && StatusOk(input.status)
    ensures forall e :: e in errors ==> e.kind == "field" && e.path in {"title", "description", "status"}
  {
    var title := input.title.GetOr("");
    Check(TitleNotEmpty(title), "title", TitleRequiredMessage)
    + Check(TitleLengthOk(title), "title", TitleLengthMessage)
    + Check(DescriptionOk(input.description), "description", DescriptionLengthMessage)
    + Check(StatusOk(input.status), "status", StatusMessage)
  }

  /** The error a failing validator adds; every one carries the `field` type. */
  function FieldError(path: string, msg: string): ValidationError {
    ValidationError("field", path, msg)
  }

  /**
   * Each validator of `validateAuth` adds its own error exactly when it fails,
   * so a login like `a!` gets both login errors; the report holds one error per
   * failing validator.
   */
  lemma ValidateAuthErrors(input: AuthInput)
    ensures var login, password, errors := input.login.GetOr(""), input.password.GetOr(""), ValidateAuth(input);
      && (FieldError("login", LoginLengthMessage) in errors <==> !LoginLengthOk(login))
      && (FieldError("login", LoginPatternMessage) in errors <==> !LoginFormatOk(login))
      && (FieldError("password", PasswordLengthMessage) in errors <==> !PasswordLengthOk(password))
      && |errors| == (if LoginLengthOk(login) then 0 else 1) + (if LoginFormatOk(login) then 0 else 1)
                     + (if PasswordLengthOk(password) then 0 else 1)
  {
    assert |LoginLengthMessage| == 33 && |LoginPatternMessage| == 54;
    assert |"login"| == 5 && |"password"| == 8;
  }

  /**
   * Each validator of `validateTask` adds its own error exactly when it fails:
   * an empty title gets both title errors; the report holds one error per
   * failing validator.
   */
  lemma ValidateTaskErrors(input: TaskInput)
    ensures var title, errors := input.title.GetOr(""), ValidateTask(input);
      && (FieldError("title", TitleRequiredMessage) in errors <==> !TitleNotEmpty(title))
      && (FieldError("title", TitleLengthMessage) in errors <==> !TitleLengthOk(title))
      && (FieldError("description", DescriptionLengthMessage) in errors <==> !DescriptionOk(input.description))
      && (FieldError("status", StatusMessage) in errors <==> !StatusOk(input.status))
      && |errors| == (if TitleNotEmpty(title) then 0 else 1) + (if TitleLengthOk(title) then 0 else 1)
                     + (if DescriptionOk(input.description) then 0 else 1) + (if StatusOk(input.status) then 0 else 1)
  {
    assert |TitleRequiredMessage| == 19 && |TitleLengthMessage| == 38;
    assert |"title"| == 5 && |"description"| == 11 && |"status"| == 6;
  }

  // ---------------------------------------------------------------------------
  // getErrorCode

  datatype ErrorCode = Required | InvalidLength | InvalidFormat | InvalidValue | Unclassified {

    /** The code as it appears in a report. */
    function Name(): string {
      match this
      case Required => "REQUIRED"
      case InvalidLength => "INVALID_LENGTH"
      case InvalidFormat => "INVALID_FORMAT"
      case InvalidValue => "INVALID_VALUE"
      case Unclassified => "VALIDATION_ERROR"
    }

    /** The position of the code's keyword in the order the classifier tries them. */
    function Rank(): nat {
      match this
      case Required => 0
      case InvalidLength => 1
      case InvalidFormat => 2
      case InvalidValue => 3
      case Unclassified => 4
    }

    /** The keyword that selects the code. */
    function Keyword(): string
      requires !Unclassified?
    {
      match this
      case Required => "wymagany"
      case InvalidLength => "znaków"
      case InvalidFormat => "format"
      case InvalidValue => "Nieprawidłowy"
    }
  }

  /** `getErrorCode(error)`: the first keyword of the error's message picks the code. */
  function GetErrorCode(e: ValidationError): (code: ErrorCode)
    ensures !code.Unclassified? ==> e.kind == "field" && Contains(e.msg, code.Keyword())
  {
    if e.kind != "field" then Unclassified
    else if Contains(e.msg, "wymagany") then Required
    else if Contains(e.msg, "znaków") then InvalidLength
    else if Contains(e.msg, "format") then InvalidFormat
    else if Contains(e.msg, "Nieprawidłowy") then InvalidValue
    else Unclassified
  }

  /**
   * First match wins: no keyword ranked before the chosen code occurs in the
   * message, and a field error is unclassified only when no keyword occurs.
   */
  lemma ErrorCodePriority(e: ValidationError, c: ErrorCode)
    requires e.kind == "field" && !c.Unclassified? && c.Rank() < GetErrorCode(e).Rank()
    ensures !Contains(e.msg, c.Keyword())
  {
  }

  /** The names of the codes are distinct. */
  lemma CodeNamesDistinct(c: ErrorCode, d: ErrorCode)
    requires c != d
    ensures c.Name() != d.Name()
  {
  }

  /**
   * The converse of ErrorCodePriority: a field error whose message holds the
   * keyword of `c` and none ranked before it is classified `c`.
   */
  lemma CodeFromKeywords(e: ValidationError, c: ErrorCode)
    requires e.kind == "field" && !c.Unclassified? && Contains(e.msg, c.Keyword())
    requires c.Rank() > 0 ==> !Contains(e.msg, "wymagany")
    requires c.Rank() > 1 ==> !Contains(e.msg, "znaków")
    requires c.Rank() > 2 ==> !Contains(e.msg, "format")
    ensures GetErrorCode(e) == c
  {
  }

  // The keyword facts about each message, one lemma per message so that each
  // literal is reasoned about on its own.

  lemma TitleRequiredKeywords(m: string)
    requires m == TitleRequiredMessage
    ensures Contains(m, "wymagany")
  {
    assert m == "Tytuł jest " + "wymagany";
    ContainsAt(m, "wymagany", 11);
  }

  lemma LoginLengthKeywords(m: string)
    requires m == LoginLengthMessage
    ensures !Contains(m, "wymagany") && Contains(m, "znaków")
  {
    AbsentChar(m, "wymagany", 'y');
    assert m == "Login musi mieć od 3 do 50 " + "znaków";
    ContainsAt(m, "znaków", 27);
  }

  lemma PasswordLengthKeywords(m: string)
    requires m == PasswordLengthMessage
    ensures !Contains(m, "wymagany") && Contains(m, "znaków")
  {
    AbsentChar(m, "wymagany", 'y');
    assert m == "Hasło musi mieć co najmniej 6 " + "znaków";
    ContainsAt(m, "znaków", 30);
  }

  lemma TitleLengthKeywords(m: string)
    requires m == TitleLengthMessage
    ensures !Contains(m, "wymagany") && Contains(m, "znaków")
  {
    AbsentChar(m, "wymagany", 'g');
    assert m == "Tytuł może mieć maksymalnie 255 " + "znaków";
    ContainsAt(m, "znaków", 32);
  }

  lemma DescriptionLengthKeywords(m: string)
    requires m == DescriptionLengthMessage
    ensures !Contains(m, "wymagany") && Contains(m, "znaków")
  {
    AbsentChar(m, "wymagany", 'g');
    assert m == "Opis może mieć maksymalnie 1000 " + "znaków";
    ContainsAt(m, "znaków", 32);
  }

  lemma StatusKeywords(m: string)
    requires m == StatusMessage
    ensures !Contains(m, "wymagany") && !Contains(m, "znaków") && !Contains(m, "format")
    ensures Contains(m, "Nieprawidłowy")
  {
    StatusLacksRequired(m);
    StatusLacksLength(m);
    StatusLacksFormat(m);
    assert m == "Nieprawidłowy" + " status zadania";
    ContainsAt(m, "Nieprawidłowy", 0);
  }

  lemma StatusLacksRequired(m: string)
    requires m == StatusMessage
    ensures !Contains(m, "wymagany")
  {
    AbsentChar(m, "wymagany", 'g');
  }

  lemma StatusLacksLength(m: string)
    requires m == StatusMessage
    ensures !Contains(m, "znaków")
  {
    AbsentChar(m, "znaków", 'k');
  }

  lemma StatusLacksFormat(m: string)
    requires m == StatusMessage
    ensures !Contains(m, "format")
  {
    AbsentChar(m, "format", 'f');
  }

  lemma PatternKeywords(m: string)
    requires m == LoginPatternMessage
    ensures !Contains(m, "wymagany") && !Contains(m, "znaków")
    ensures !Contains(m, "format") && !Contains(m, "Nieprawidłowy")
  {
    PatternLacksRequired(m);
    PatternLacksLength(m);
    PatternLacksFormat(m);
    PatternLacksInvalid(m);
  }

  /** The login-pattern message has no 'N'. */
  lemma PatternLacksN()
    ensures 'N' !in LoginPatternMessage
  {
  }

  /** The login-pattern message has no 'ó'. */
  lemma PatternLacksAcuteO()
    ensures 'ó' !in LoginPatternMessage
  {
  }

  /** The one 'w' of the login-pattern message is followed by 'i'. */
  lemma PatternSplitW()
    ensures var a, b := "Login może za", "ierać tylko litery, cy" + "f" + "ry i podkreślniki";
      LoginPatternMessage == a + ['w'] + b && 'w' !in a && b[0] != 'y'
  {
  }

  lemma PatternTailLacksW()
    ensures 'w' !in "ierać tylko litery, cy" + "f" + "ry i podkreślniki"
  {
  }

  /** The one 'f' of the login-pattern message is followed by 'r'. */
  lemma PatternSplitF()
    ensures var a, b := "Login może za" + "w" + "ierać tylko litery, cy", "ry i podkreślniki";
      LoginPatternMessage == a + ['f'] + b && 'f' !in b && b[0] != 'o'
  {
  }

  lemma PatternHeadLacksF()
    ensures 'f' !in "Login może za" + "w" + "ierać tylko litery, cy"
  {
  }

  lemma PatternLacksRequired(m: string)
    requires m == LoginPatternMessage
    ensures !Contains(m, "wymagany")
  {
    PatternSplitW();
    PatternTailLacksW();
    AbsentPair("Login może za", 'w', "ierać tylko litery, cy" + "f" + "ry i podkreślniki", 'y');
    assert "wymagany"[..2] == ['w', 'y'];
    if Contains(m, "wymagany") {
      ContainsPrefix(m, "wymagany", 2);
    }
  }

  lemma PatternLacksLength(m: string)
    requires m == LoginPatternMessage
    ensures !Contains(m, "znaków")
  {
    PatternLacksAcuteO();
    AbsentChar(m, "znaków", 'ó');
  }

  lemma PatternLacksFormat(m: string)
    requires m == LoginPatternMessage
    ensures !Contains(m, "format")
  {
    PatternSplitF();
    PatternHeadLacksF();
    AbsentPair("Login może za" + "w" + "ierać tylko litery, cy", 'f', "ry i podkreślniki", 'o');
    assert "format"[..2] == ['f', 'o'];
    if Contains(m, "format") {
      ContainsPrefix(m, "format", 2);
    }
  }

  lemma PatternLacksInvalid(m: string)
    requires m == LoginPatternMessage
    ensures !Contains(m, "Nieprawidłowy")
  {
    PatternLacksN();
    AbsentChar(m, "Nieprawidłowy", 'N');
  }

  /** What the classifier makes of each message of this file's rules. */
  lemma RuleMessageCodes(path: string)
    ensures GetErrorCode(ValidationError("field", path, TitleRequiredMessage)) == Required
    ensures GetErrorCode(ValidationError("field", path, LoginLengthMessage)) == InvalidLength
    ensures GetErrorCode(ValidationError("field", path, PasswordLengthMessage)) == InvalidLength
    ensures GetErrorCode(ValidationError("field", path, TitleLengthMessage)) == InvalidLength
    ensures GetErrorCode(ValidationError("field", path, DescriptionLengthMessage)) == InvalidLength
    ensures GetErrorCode(ValidationError("field", path, StatusMessage)) == InvalidValue
  {
    TitleRequiredKeywords(TitleRequiredMessage);
    CodeFromKeywords(ValidationError("field", path, TitleRequiredMessage), Required);
    LoginLengthKeywords(LoginLengthMessage);
    CodeFromKeywords(ValidationError("field", path, LoginLengthMessage), InvalidLength);
    PasswordLengthKeywords(PasswordLengthMessage);
    CodeFromKeywords(ValidationError("field", path, PasswordLengthMessage), InvalidLength);
    TitleLengthKeywords(TitleLengthMessage);
    CodeFromKeywords(ValidationError("field", path, TitleLengthMessage), InvalidLength);
    DescriptionLengthKeywords(DescriptionLengthMessage);
    CodeFromKeywords(ValidationError("field", path, DescriptionLengthMessage), InvalidLength);
    StatusKeywords(StatusMessage);
    CodeFromKeywords(ValidationError("field", path, StatusMessage), InvalidValue);
  }

  /**
   * The login-pattern message contains none of the four keywords, so its error
   * is reported as VALIDATION_ERROR and no rule of this file yields INVALID_FORMAT.
   */
  lemma PatternMessageUnclassified(path: string)
    ensures GetErrorCode(ValidationError("field", path, LoginPatternMessage)) == Unclassified
  {
    PatternKeywords(LoginPatternMessage);
  }

  /** No error the two rule sets produce is classified INVALID_FORMAT. */
  lemma {:induction false} NoInvalidFormat(auth: AuthInput, task: TaskInput)
    ensures forall e :: e in ValidateAuth(auth) + ValidateTask(task) ==> GetErrorCode(e) != InvalidFormat
  {
    forall e | e in ValidateAuth(auth) + ValidateTask(task) ensures GetErrorCode(e) != InvalidFormat {
      RuleMessageCodes(e.path);
      PatternMessageUnclassified(e.path);
    }
  }

  // ---------------------------------------------------------------------------
  // handleValidationErrors

  /** One `{field, code, message}` entry of a report. */
  datatype FieldReport = FieldReport(field: string, code: ErrorCode, message: string)

  /** The 400 body `{timestamp, status, error, fieldErrors}`. */
  datatype ErrorReport = ErrorReport(timestamp: string, status: int, error: string, fieldErrors: seq<FieldReport>)

  /** What the middleware does: call `next`, or answer with an HTTP status and a report. */
  datatype Outcome = Next | Respond(httpStatus: int, report: ErrorReport)

  /** `errors.array().map(...)`: one entry per error, in order. */
  function Entries(errors: seq<ValidationError>): (entries: seq<FieldReport>)
    ensures |entries| == |errors|
    ensures forall i :: 0 <= i < |errors| ==>
      entries[i] == FieldReport(errors[i].path, GetErrorCode(errors[i]), errors[i].msg)
  {
    if errors == [] then []
    else [FieldReport(errors[0].path, GetErrorCode(errors[0]), errors[0].msg)] + Entries(errors[1..])
  }

  /** `handleValidationErrors`, with `new Date().toISOString()` given as `timestamp`. */
  function HandleValidationErrors(errors: seq<ValidationError>, timestamp: string): (o: Outcome)
    ensures o.Next? <==> errors == []
    ensures o.Respond? ==>
      && o.httpStatus == 400
      && o.report.timestamp == timestamp && o.report.status == 400 && o.report.error == "Bad Request"
      && |o.report.fieldErrors| == |errors|
      && forall i :: 0 <= i < |errors| ==>
           o.report.fieldErrors[i].field == errors[i].path
           && o.report.fieldErrors[i].message == errors[i].msg
           && o.report.fieldErrors[i].code == GetErrorCode(errors[i])
  {
    if errors == [] then Next
    else Respond(400, ErrorReport(timestamp, 400, "Bad Request", Entries(errors)))
  }

  // ---------------------------------------------------------------------------
  // Boundaries

  /**
   * For a login of word characters, the report holds an INVALID_LENGTH entry
   * for `login` exactly when its length is outside 3..50: 3 and 50 pass, 2 and
   * 51 fail.
   */
  lemma LoginLengthBoundary(login: string, password: Option<string>, timestamp: string)
    requires forall i :: 0 <= i < |login| ==> IsWordChar(login[i])
    ensures var o := HandleValidationErrors(ValidateAuth(AuthInput(Some(login), password)), timestamp);
      (o.Respond? && FieldReport("login", InvalidLength, LoginLengthMessage) in o.report.fieldErrors)
      <==> !(3 <= |login| <= 50)
  {
    WordLengths(login);
    RuleMessageCodes("login");
    var errors := ValidateAuth(AuthInput(Some(login), password));
    var o := HandleValidationErrors(errors, timestamp);
    if !(3 <= |login| <= 50) {
      assert errors[0] == ValidationError("field", "login", LoginLengthMessage);
      assert o.report.fieldErrors[0] == FieldReport("login", InvalidLength, LoginLengthMessage);
    } else if o.Respond? {
      forall i | 0 <= i < |errors| ensures o.report.fieldErrors[i].message != LoginLengthMessage {
        assert errors[i].msg in {LoginPatternMessage, PasswordLengthMessage};
      }
    }
  }

  /** A non-empty title of at most 255 counted characters passes; 256 does not. */
  lemma TitleLengthBoundary(title: string)
    requires title != [] && forall i :: 0 <= i < |title| ==> IsWordChar(title[i])
    ensures ValidateTask(TaskInput(Some(title), None, None)) == [] <==> |title| <= 255
  {
    WordLengths(title);
  }
}
