/** The login form (src/Pages/LoginPage.tsx): the e-mail pattern, the
    ordered e-mail and password checks of `validateForm`, the input
    sanitising and live checks of `handleInputChange`, `handleBlur` and
    the checks `handleSubmit` runs before it logs in. The simulated delay,
    `alert`, `console.log` and focusing a field are not modelled. */
module LoginPage {
  import opened Wrappers
  import opened Text
  import ClientForm

  const EmailEmpty := "Email field cannot be empty"
  const EmailSpaces := "Email cannot have leading or trailing spaces"
  const EmailFormat := "Please enter a valid email address"
  const EmailTooLong := "Email address is too long"
  const PasswordEmpty := "Password field cannot be empty"
  const PasswordSpaces := "Password cannot have leading or trailing spaces"
  const PasswordTooShort := "Password must be at least 6 characters"
  const PasswordTooLong := "Password is too long (max 128 characters)"
  const PasswordNoLetter := "Password must contain at least one letter"
  const PasswordNoDigit := "Password must contain at least one number"

  const MaxEmailLength := 254
  const MinPasswordLength := 6
  const MaxPasswordLength := 128

  // ---------------------------------------------------------------------
  // validateEmail and isEmptyOrWhitespace

  /** Neither white space nor `@`: the class `[^\s@]`. */
  predicate Plain(t: string) {
    forall k | 0 <= k < |t| :: !IsSpace(t[k]) && t[k] != '@'
  }

  /** The whole of s is `[^\s@]+` `@` `[^\s@]+` `.` `[^\s@]+`, with the
      `@` at i and the `.` at j. */
  predicate LoginEmailAt(s: string, i: int, j: int)
    requires 0 < i && i + 1 < j && j + 1 < |s|
  {
    s[i] == '@' && s[j] == '.' && Plain(s[..i]) && Plain(s[i + 1..j]) && Plain(s[j + 1..])
  }

  /** `validateEmail(email)`: the pattern `^[^\s@]+@[^\s@]+\.[^\s@]+$`. */
  predicate ValidateEmail(s: string) {
    exists i, j | 0 < i && i + 1 < j && j + 1 < |s| :: LoginEmailAt(s, i, j)
  }

  /** A valid address has no white space and exactly one `@`. */
  lemma ValidEmailShape(s: string)
    requires ValidateEmail(s)
    ensures NoSpace(s) && |s| >= 5
    ensures exists i | 0 <= i < |s| :: s[i] == '@' && forall k | 0 <= k < |s| && k != i :: s[k] != '@'
  {
    var i, j :| 0 < i && i + 1 < j && j + 1 < |s| && LoginEmailAt(s, i, j);
    forall k | 0 <= k < |s| ensures !IsSpace(s[k]) && (k != i ==> s[k] != '@') {
      if k < i {
        assert s[..i][k] == s[k];
      } else if i < k < j {
        assert s[i + 1..j][k - i - 1] == s[k];
      } else if j < k {
        assert s[j + 1..][k - j - 1] == s[k];
      }
    }
  }

  /** Every address the login page accepts also passes the client form's
      looser, unanchored pattern. */
  lemma LoginEmailIsClientEmail(s: string)
    requires ValidateEmail(s)
    ensures ClientForm.EmailShape(s)
  {
    var i, j :| 0 < i && i + 1 < j && j + 1 < |s| && LoginEmailAt(s, i, j);
    assert s[..i][i - 1] == s[i - 1];
    assert s[j + 1..][0] == s[j + 1];
    assert NoSpace(s[i + 1..j]) by {
      var t := s[i + 1..j];
      assert forall k | 0 <= k < |t| :: !IsSpace(t[k]);
    }
    assert ClientForm.EmailAt(s, i, j);
  }

  /** The client form accepts addresses the login page refuses: text may
      surround the match. */
  lemma ClientEmailIsLooser(s: string)
    requires s == " a@b.c"
    ensures ClientForm.EmailShape(s) && !ValidateEmail(s)
  {
    assert s[1..] == "a@b.c";
    assert ClientForm.EmailShape("a@b.c") by {
      ClientForm.EmailFromParts("a", "b", "c");
      assert "a" + "@" + "b" + "." + "c" == "a@b.c";
    }
    ClientForm.EmailShapeUnanchored(" ", "a@b.c", []);
    assert " " + "a@b.c" + [] == s;
    assert !NoSpace(s) by {
      assert IsSpace(s[0]);
    }
    if ValidateEmail(s) {
      ValidEmailShape(s);
    }
  }

  /** `isEmptyOrWhitespace(str)` on a string. */
  predicate EmptyOrWhitespace(s: string) {
    s == [] || IsBlank(s)
  }

  lemma EmptyOrWhitespaceIsBlank(s: string)
    ensures EmptyOrWhitespace(s) <==> AllSpace(s)
  {
    BlankIffAllSpace(s);
  }

  // ---------------------------------------------------------------------
  // The checks, in order

  /** The e-mail checks, first failure wins. */
  function EmailError(s: string): Option<string> {
    if EmptyOrWhitespace(s) then Some(EmailEmpty)
    else if Trim(s) != s then Some(EmailSpaces)
    else if !ValidateEmail(Trim(s)) then Some(EmailFormat)
    else if |s| > MaxEmailLength then Some(EmailTooLong)
    else None
  }

  /** `/[A-Za-z]/.test(p)` */
  predicate HasLetter(p: string) {
    exists k | 0 <= k < |p| :: IsAsciiLetter(p[k])
  }

  /** `/\d/.test(p)` */
  predicate HasDigit(p: string) {
    exists k | 0 <= k < |p| :: IsDigit(p[k])
  }

  /** The password checks, first failure wins. */
  function PasswordError(p: string): Option<string> {
    if EmptyOrWhitespace(p) then Some(PasswordEmpty)
    else if p != Trim(p) then Some(PasswordSpaces)
    else if |p| < MinPasswordLength then Some(PasswordTooShort)
    else if |p| > MaxPasswordLength then Some(PasswordTooLong)
    else if !HasLetter(p) then Some(PasswordNoLetter)
    else if !HasDigit(p) then Some(PasswordNoDigit)
    else None
  }

  /** An accepted e-mail is exactly a well-formed address of at most 254
      characters. */
  lemma EmailAcceptedIff(s: string)
    ensures EmailError(s).None? <==> ValidateEmail(s) && |s| <= MaxEmailLength
  {
    if ValidateEmail(s) {
      ValidEmailShape(s);
      TrimOfNoSpace(s);
      BlankIffAllSpace(s);
      assert !IsSpace(s[0]);
    }
  }

  /** An accepted password has 6 to 128 characters, a letter and a digit,
      and no white space at either end; and every such password is
      accepted. */
  lemma PasswordAcceptedIff(p: string)
    ensures PasswordError(p).None? <==>
      && MinPasswordLength <= |p| <= MaxPasswordLength
      && HasLetter(p) && HasDigit(p)
      && Trim(p) == p
  {
    if MinPasswordLength <= |p| && Trim(p) == p {
      assert |Trim(p)| > 0;
    }
  }

  /** The order of the checks: an e-mail with a space at an end is refused
      for the space even when it is also too long or malformed. */
  lemma EmailSpacesBeforeFormat(s: string)
    requires !AllSpace(s) && |s| > 0 && IsSpace(s[|s| - 1])
    ensures EmailError(s) == Some(EmailSpaces)
  {
    BlankIffAllSpace(s);
    TrimEnds(s);
    if Trim(s) == s {
      assert false;
    }
  }

  // ---------------------------------------------------------------------
  // The form

  datatype LoginKey = Email | Password

  datatype LoginData = LoginData(email: string, password: string)

  function LoginField(d: LoginData, key: LoginKey): string {
    match key
    case Email => d.email
    case Password => d.password
  }

  function LoginFieldError(d: LoginData, key: LoginKey): Option<string> {
    match key
    case Email => EmailError(d.email)
    case Password => PasswordError(d.password)
  }

  /** `validateForm()`: both fields are checked; valid when neither failed. */
  function ValidateLogin(d: LoginData): (r: map<LoginKey, string>)
    ensures forall k :: k in r <==> LoginFieldError(d, k).Some?
    ensures forall k | k in r :: r[k] == LoginFieldError(d, k).value
  {
    var errors := map k | k in {Email, Password} && LoginFieldError(d, k).Some? :: LoginFieldError(d, k).value;
    assert forall k: LoginKey :: k.Email? || k.Password?;
    errors
  }

  /** The form's state: `formData`, `errors` and the touched fields. */
  datatype LoginState = LoginState(data: LoginData, errors: map<LoginKey, string>, touched: set<LoginKey>)

  /** The value stored for an input: the e-mail loses its leading white
      space, the password is kept as typed. */
  function Sanitize(key: LoginKey, value: string): (r: string)
    ensures key == Password ==> r == value
    ensures key == Email ==> (r == [] || !IsSpace(r[0])) && |r| <= |value| && r == value[|value| - |r|..]
    ensures key == Email ==> AllSpace(value[..|value| - |r|])
  {
    if key == Email then TrimStart(value) else value
  }

  function WithLoginField(d: LoginData, key: LoginKey, value: string): LoginData {
    match key
    case Email => d.(email := value)
    case Password => d.(password := value)
  }

  /** `handleInputChange`: store the sanitised value; for a touched field,
      run that field's checks on it at once, setting or deleting its
      error. */
  function HandleInputChange(s: LoginState, key: LoginKey, value: string): (r: LoginState)
    ensures r.touched == s.touched
    ensures LoginField(r.data, key) == Sanitize(key, value)
    ensures forall k | k != key :: LoginField(r.data, k) == LoginField(s.data, k)
    ensures forall k | k != key :: (k in r.errors <==> k in s.errors) && (k in r.errors ==> r.errors[k] == s.errors[k])
    ensures key !in s.touched ==> r.errors == s.errors
  {
    var v := Sanitize(key, value);
    var data := WithLoginField(s.data, key, v);
    var errors :=
      if key !in s.touched then s.errors
      else
        match LoginFieldError(data, key)
        case Some(m) => s.errors[key := m]
        case None => s.errors - {key};
    LoginState(data, errors, s.touched)
  }

  /** For a touched field, the live check leaves exactly the message the
      full validation gives for the stored value, or none. */
  lemma LiveCheckAgreesWithValidate(s: LoginState, key: LoginKey, value: string)
    requires key in s.touched
    ensures var r := HandleInputChange(s, key, value);
      var full := ValidateLogin(r.data);
      && (key in r.errors <==> key in full)
      && (key in r.errors ==> r.errors[key] == full[key])
  {
  }

  /** Typing never leaves a leading space in the e-mail, so a spaces error
      after typing is always about trailing white space. */
  lemma TypedEmailHasNoLeadingSpace(s: LoginState, value: string)
    ensures var e := HandleInputChange(s, Email, value).data.email;
      e == [] || !IsSpace(e[0])
  {
  }

  /** `handleBlur`: the field becomes touched and the whole form is
      validated. */
  function HandleBlur(s: LoginState, key: LoginKey): (r: LoginState)
    ensures r.data == s.data && r.touched == s.touched + {key}
    ensures forall k :: k in r.errors <==> LoginFieldError(s.data, k).Some?
  {
    LoginState(s.data, ValidateLogin(s.data), s.touched + {key})
  }

  /** What a submit leads to: the new state and the credentials sent, if
      any (the trimmed e-mail and the password). */
  datatype LoginSubmitted = LoginSubmitted(state: LoginState, sent: Option<LoginData>)

  /** `handleSubmit`: both fields become touched. An empty field stops the
      submit at once, adding its "cannot be empty" message to the errors
      already shown. Otherwise the form is validated; a valid one is sent
      and the form cleared. */
  function HandleSubmit(s: LoginState): (r: LoginSubmitted)
    ensures r.sent.Some? ==> ValidateLogin(s.data) == map[] && r.sent.value == LoginData(Trim(s.data.email), s.data.password)
    ensures r.sent.Some? ==> r.state == LoginState(LoginData([], []), map[], {})
    ensures r.sent.None? ==> r.state.data == s.data && r.state.touched == {Email, Password}
  {
    var touched := {Email, Password};
    var emailEmpty := EmptyOrWhitespace(s.data.email);
    var passwordEmpty := EmptyOrWhitespace(s.data.password);
    if emailEmpty || passwordEmpty then
      var withEmail := if emailEmpty then s.errors[Email := EmailEmpty] else s.errors;
      var errors := if passwordEmpty then withEmail[Password := PasswordEmpty] else withEmail;
      LoginSubmitted(LoginState(s.data, errors, touched), None)
    else
      var errors := ValidateLogin(s.data);
      if errors != map[] then LoginSubmitted(LoginState(s.data, errors, touched), None)
      else LoginSubmitted(LoginState(LoginData([], []), map[], {}), Some(LoginData(Trim(s.data.email), s.data.password)))
  }

  /** The form is valid exactly when both fields pass their checks. */
  lemma ValidIffBothAccepted(d: LoginData)
    ensures ValidateLogin(d) == map[] <==> EmailError(d.email).None? && PasswordError(d.password).None?
  {
    var v := ValidateLogin(d);
    if EmailError(d.email).None? && PasswordError(d.password).None? {
      assert Email !in v && Password !in v;
      forall k | k in v ensures false {
        match k {
          case Email =>
          case Password =>
        }
      }
    } else if EmailError(d.email).Some? {
      assert Email in v;
    } else {
      assert Password in v;
    }
  }

  /** Credentials are sent exactly when both fields pass their checks, and
      the address sent is the one typed. */
  lemma SubmitSendsIffValid(s: LoginState)
    ensures var r := HandleSubmit(s);
      && (r.sent.Some? <==> EmailError(s.data.email).None? && PasswordError(s.data.password).None?)
      && (r.sent.Some? ==> r.sent.value == s.data)
  {
    ValidIffBothAccepted(s.data);
  }

  /** The early stop keeps stale messages: with only the e-mail empty, the
      password's earlier error stays on screen unchecked. */
  lemma EarlyStopKeepsOtherError(s: LoginState)
    requires EmptyOrWhitespace(s.data.email) && !EmptyOrWhitespace(s.data.password)
    ensures var r := HandleSubmit(s);
      && r.sent.None?
      && r.state.errors[Email] == EmailEmpty
      && (Password in r.state.errors <==> Password in s.errors)
      && (Password in s.errors ==> r.state.errors[Password] == s.errors[Password])
  {
  }
}
