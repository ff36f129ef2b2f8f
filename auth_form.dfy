/**
 * The login and signup form: the two field validators, the per-field error and
 * "touched" state, and the gate that decides whether the credentials are sent. The
 * request itself is not modelled; a submission is returned instead.
 */
module AuthForm {
  import opened Values
  import opened Strings

  const EmailRequired := "Email é obrigatório"
  const EmailMalformed := "Formato de email inválido"
  const PasswordRequired := "Senha é obrigatória"
  const PasswordTooShort := "Senha deve ter pelo menos 6 caracteres"
  const MinPasswordLength := 6

  /** A character the class `[^\s@]` accepts. */
  predicate Plain(c: char) {
    !IsSpace(c) && c != '@'
  }

  /** The regular expression `^[^\s@]+@[^\s@]+\.[^\s@]+$`: one `@` with plain characters before it,
      and after it a `.` with plain characters on both sides. */
  ghost predicate EmailRegexMatch(s: string) {
    exists i, j :: 0 < i && i + 1 < j < |s| - 1 && s[i] == '@' && s[j] == '.' &&
      forall k :: 0 <= k < |s| && k != i ==> Plain(s[k])
  }

  /** The same test, computed: no white space, a single `@` with something before it, and a `.`
      strictly inside the part after it. */
  predicate EmailShape(s: string) {
    var at := IndexOf(s, '@');
    && at > 0
    && (forall k :: 0 <= k < |s| ==> !IsSpace(s[k]))
    && '@' !in s[at + 1..]
    && at + 3 < |s|
    && '.' in s[at + 2..|s| - 1]
  }

  /** The computed test accepts exactly what the regular expression matches. */
  lemma EmailShapeIff(s: string)
    ensures EmailShape(s) <==> EmailRegexMatch(s)
  {
    var at := IndexOf(s, '@');
    if EmailShape(s) {
      var inner := s[at + 2..|s| - 1];
      var t :| 0 <= t < |inner| && inner[t] == '.';
      var j := at + 2 + t;
      assert s[j] == '.';
      forall k | 0 <= k < |s| && k != at ensures Plain(s[k]) {
        if k < at {
          assert s[k] in s[..at];
        } else {
          assert s[k] == s[at + 1..][k - at - 1];
        }
      }
      assert 0 < at && at + 1 < j < |s| - 1 && s[at] == '@' && s[j] == '.';
    }
    if EmailRegexMatch(s) {
      var i, j :| 0 < i && i + 1 < j < |s| - 1 && s[i] == '@' && s[j] == '.' &&
        forall k :: 0 <= k < |s| && k != i ==> Plain(s[k]);
      assert '@' in s by { assert s[i] == '@'; }
      assert at == i by {
        assert s[at] == '@';
      }
      forall k | 0 <= k < |s| ensures !IsSpace(s[k]) {
        if k != i { assert Plain(s[k]); } else { assert s[k] == '@'; }
      }
      var after := s[at + 1..];
      assert '@' !in after by {
        forall m | 0 <= m < |after| ensures after[m] != '@' {
          assert Plain(s[at + 1 + m]);
        }
      }
      assert s[at + 2..|s| - 1][j - at - 2] == '.';
    }
  }

  /** `validateEmail`: `None` is the `null` of no error. */
  function ValidateEmail(email: string): (r: Option<string>)
    ensures email == "" ==> r == Some(EmailRequired)
    ensures email != "" && !EmailRegexMatch(email) ==> r == Some(EmailMalformed)
    ensures r.None? <==> email != "" && EmailRegexMatch(email)
  {
    EmailShapeIff(email);
    if email == "" then Some(EmailRequired)
    else if !EmailShape(email) then Some(EmailMalformed)
    else None
  }

  /** `validatePassword`: the minimum length applies only when signing up. */
  function ValidatePassword(password: string, isLogin: bool): (r: Option<string>)
    ensures password == "" ==> r == Some(PasswordRequired)
    ensures password != "" && !isLogin && |password| < MinPasswordLength ==> r == Some(PasswordTooShort)
    ensures r.None? <==> password != "" && (isLogin || |password| >= MinPasswordLength)
  {
    if password == "" then Some(PasswordRequired)
    else if !isLogin && |password| < MinPasswordLength then Some(PasswordTooShort)
    else None
  }

  /** A password good enough to sign up with is good enough to log in with. */
  lemma SignupPasswordLogsIn(password: string)
    requires ValidatePassword(password, false).None?
    ensures ValidatePassword(password, true).None?
  {
  }

  /** The two named inputs of the form. */
  datatype Field = Email | Password

  /** The credentials handed to the request, with the mode chosen by the `mode` query parameter. */
  datatype Submission = Submission(email: string, password: string, mode: string)

  function Validate(field: Field, value: string, isLogin: bool): Option<string> {
    match field
    case Email => ValidateEmail(value)
    case Password => ValidatePassword(value, isLogin)
  }

  class AuthFormState {
    /** `mode=login` in the query string. */
    const isLogin: bool
    var email: string
    var password: string
    var emailError: Option<string>
    var passwordError: Option<string>
    var emailTouched: bool
    var passwordTouched: bool

    constructor (isLogin: bool)
      ensures this.isLogin == isLogin
      ensures email == "" && password == "" && emailError.None? && passwordError.None?
      ensures !emailTouched && !passwordTouched
    {
      this.isLogin := isLogin;
      email := "";
      password := "";
      emailError := None;
      passwordError := None;
      emailTouched := false;
      passwordTouched := false;
    }

    /** `validateField`: store the field's error and report whether there is none. */
    method ValidateField(field: Field, value: string) returns (ok: bool)
      modifies this`emailError, this`passwordError
      ensures ok <==> Validate(field, value, isLogin).None?
      ensures field == Email ==> emailError == ValidateEmail(value) && passwordError == old(passwordError)
      ensures field == Password ==> passwordError == ValidatePassword(value, isLogin) && emailError == old(emailError)
    {
      var errorMessage := None;
      match field {
        case Email => errorMessage := ValidateEmail(value);
        case Password => errorMessage := ValidatePassword(value, isLogin);
      }
      if field == Email {
        emailError := errorMessage;
      } else {
        passwordError := errorMessage;
      }
      ok := errorMessage.None?;
    }

    /** `validateAllFields`: both validators run, so both error slots are refreshed. */
    method ValidateAllFields() returns (ok: bool)
      modifies this`emailError, this`passwordError
      ensures emailError == ValidateEmail(email) && passwordError == ValidatePassword(password, isLogin)
      ensures ok <==> emailError.None? && passwordError.None?
    {
      var emailValid := ValidateField(Email, email);
      var passwordValid := ValidateField(Password, password);
      ok := emailValid && passwordValid;
    }

    /** `handleInputChange`: store the value, and revalidate a field already touched. */
    method HandleInputChange(field: Field, value: string)
      modifies this
      ensures field == Email ==> email == value && password == old(password)
      ensures field == Password ==> password == value && email == old(email)
      ensures emailTouched == old(emailTouched) && passwordTouched == old(passwordTouched)
      ensures emailError == if field == Email && emailTouched then ValidateEmail(value) else old(emailError)
      ensures passwordError == if field == Password && passwordTouched then ValidatePassword(value, isLogin) else old(passwordError)
    {
      if field == Email {
        email := value;
        if emailTouched {
          var _ := ValidateField(Email, value);
        }
      } else {
        password := value;
        if passwordTouched {
          var _ := ValidateField(Password, value);
        }
      }
    }

    /** `handleInputBlur`: the field becomes touched and is validated. */
    method HandleInputBlur(field: Field, value: string)
      modifies this
      ensures email == old(email) && password == old(password)
      ensures field == Email ==> emailTouched && passwordTouched == old(passwordTouched)
      ensures field == Password ==> passwordTouched && emailTouched == old(emailTouched)
      ensures emailError == if field == Email then ValidateEmail(value) else old(emailError)
      ensures passwordError == if field == Password then ValidatePassword(value, isLogin) else old(passwordError)
    {
      if field == Email {
        emailTouched := true;
      } else {
        passwordTouched := true;
      }
      var _ := ValidateField(field, value);
    }

    /** `handleSubmit`: touch both fields, validate both, and send only when both are valid. */
    method HandleSubmit() returns (sent: Option<Submission>)
      modifies this
      ensures emailTouched && passwordTouched
      ensures email == old(email) && password == old(password)
      ensures emailError == ValidateEmail(email) && passwordError == ValidatePassword(password, isLogin)
      ensures sent.Some? <==> ValidateEmail(email).None? && ValidatePassword(password, isLogin).None?
      ensures sent.Some? ==>
                sent.value == Submission(email, password, if isLogin then "login" else "signup")
                && EmailRegexMatch(email)
                && (isLogin || |password| >= MinPasswordLength)
    {
      emailTouched := true;
      passwordTouched := true;
      var valid := ValidateAllFields();
      if !valid {
        return None;
      }
      var mode := if isLogin then "login" else "signup";
      sent := Some(Submission(email, password, mode));
    }
  }
}
