/** The sign-up page (script/register.js): the password and e-mail rules, the order of the
    form checks, the check for an existing account, the error mapping and the two
    password-visibility counters. */
module Register {
  import opened Model
  import opened Text

  // ---------------------------------------------------------------------------------------
  // Password rule: /^(?=.*[A-Z])(?=.*\d)(?=.*[@$!%*?&.,:])[A-Za-z\d@$!%*?&.,:]{8,}$/

  predicate IsSpecial(c: char) {
    c in "@$!%*?&.,:"
  }

  /** The characters the password class admits. */
  predicate PasswordChar(c: char) {
    IsAsciiLetter(c) || IsDigit(c) || IsSpecial(c)
  }

  /** `isValidPassword`: at least eight admitted characters, among them an upper-case letter,
      a digit and a special character; nothing asks for a lower-case letter. */
  predicate IsValidPassword(p: string): (ok: bool)
    ensures ok ==> |p| >= 8 && forall k :: 0 <= k < |p| ==> !IsWhitespace(p[k])
  {
    && |p| >= 8
    && (forall k :: 0 <= k < |p| ==> PasswordChar(p[k]))
    && (exists k :: 0 <= k < |p| && IsAsciiUpper(p[k]))
    && (exists k :: 0 <= k < |p| && IsDigit(p[k]))
    && (exists k :: 0 <= k < |p| && IsSpecial(p[k]))
  }

  /** Appending admitted characters to an accepted password keeps it accepted. */
  lemma PasswordExtend(p: string, more: string)
    requires IsValidPassword(p)
    requires forall k :: 0 <= k < |more| ==> PasswordChar(more[k])
    ensures IsValidPassword(p + more)
  {
    var q := p + more;
    var u :| 0 <= u < |p| && IsAsciiUpper(p[u]);
    var d :| 0 <= d < |p| && IsDigit(p[d]);
    var s :| 0 <= s < |p| && IsSpecial(p[s]);
    assert q[u] == p[u] && q[d] == p[d] && q[s] == p[s];
    forall k | 0 <= k < |q| ensures PasswordChar(q[k]) {
      if k < |p| {
        assert q[k] == p[k];
      } else {
        assert q[k] == more[k - |p|];
      }
    }
  }

  /** An all-capital password passes, and one without a special character or with a space
      does not. */
  lemma PasswordExamples()
    ensures IsValidPassword("PASSWORD1!")
    ensures !IsValidPassword("Password12")
    ensures !IsValidPassword("Pass word1!")
  {
    var p := "PASSWORD1!";
    assert IsAsciiUpper(p[0]) && IsDigit(p[8]) && IsSpecial(p[9]);
    var q := "Password12";
    assert forall k :: 0 <= k < |q| ==> !IsSpecial(q[k]);
    var r := "Pass word1!";
    assert !PasswordChar(r[4]);
  }

  // ---------------------------------------------------------------------------------------
  // E-mail rule: /^[^\s@]+@[^\s@]+\.[a-zA-Z]+$/

  predicate PlainPart(s: string) {
    s != [] && forall k :: 0 <= k < |s| ==> !IsWhitespace(s[k]) && s[k] != '@'
  }

  predicate AllLetters(s: string) {
    s != [] && forall k :: 0 <= k < |s| ==> IsAsciiLetter(s[k])
  }

  /** The regular expression matches with "@" at i and the final "." at j. */
  predicate EmailShape(e: string, i: int, j: int) {
    && 0 <= i < j < |e|
    && e[i] == '@' && e[j] == '.'
    && PlainPart(e[..i]) && PlainPart(e[i + 1..j]) && AllLetters(e[j + 1..])
  }

  /** `isValidEmail`: the regular expression matches. */
  predicate IsValidEmail(e: string): (ok: bool)
    ensures ok ==> |e| >= 5 && '@' in e && e[0] != '@'
  {
    exists i, j :: 0 <= i < j < |e| && EmailShape(e, i, j)
  }

  /** A domain that ends in "." and one or more letters, with something before the dot. */
  predicate EndsWithTld(d: string) {
    exists j :: 0 < j < |d| && d[j] == '.' && AllLetters(d[j + 1..])
  }

  /** The rule in words: a non-empty part before the only "@", no whitespace anywhere, and a
      domain ending in "." followed by letters. */
  predicate EmailRule(e: string) {
    && '@' in e
    && (forall k :: 0 <= k < |e| ==> !IsWhitespace(e[k]))
    && var i := FirstIndex(e, '@');
       && i > 0
       && '@' !in e[i + 1..]
       && EndsWithTld(e[i + 1..])
  }

  /** The regular expression accepts exactly the addresses the rule in words describes. */
  lemma EmailRuleExact(e: string)
    ensures IsValidEmail(e) <==> EmailRule(e)
  {
    if IsValidEmail(e) {
      var i, j :| 0 <= i < j < |e| && EmailShape(e, i, j);
      EmailShapeRule(e, i, j);
    }
    if EmailRule(e) {
      RuleEmailShape(e);
    }
  }

  /** An address that follows the rule in words matches the expression, with "@" at its only
      "@" and the dot of the domain's ending. */
  lemma RuleEmailShape(e: string)
    requires EmailRule(e)
    ensures IsValidEmail(e)
  {
    var i := FirstIndex(e, '@');
    var d := e[i + 1..];
    var j' :| 0 < j' < |d| && d[j'] == '.' && AllLetters(d[j' + 1..]);
    var j := i + 1 + j';
    assert e[j + 1..] == d[j' + 1..];
    var local := e[..i];
    forall k | 0 <= k < |local| ensures !IsWhitespace(local[k]) && local[k] != '@' {
      assert local[k] == e[k];
      assert local[k] in local;
    }
    assert PlainPart(local);
    var domain := e[i + 1..j];
    forall k | 0 <= k < |domain| ensures !IsWhitespace(domain[k]) && domain[k] != '@' {
      assert domain[k] == e[i + 1 + k] == d[k];
      assert d[k] in d;
    }
    assert PlainPart(domain);
    assert EmailShape(e, i, j);
  }

  lemma EmailShapeRule(e: string, i: int, j: int)
    requires EmailShape(e, i, j)
    ensures EmailRule(e)
  {
    assert '@' !in e[..i] by {
      assert forall k :: 0 <= k < i ==> e[..i][k] != '@';
    }
    FirstIndexAt(e, '@', i);
    var d := e[i + 1..];
    forall k | 0 <= k < |d| ensures d[k] != '@' {
      if k < j - i - 1 {
        assert d[k] == e[i + 1..j][k];
      } else if k > j - i - 1 {
        assert d[k] == e[j + 1..][k - (j - i)];
      }
    }
    forall k | 0 <= k < |e| ensures !IsWhitespace(e[k]) {
      if k < i {
        assert e[k] == e[..i][k];
      } else if i < k < j {
        assert e[k] == e[i + 1..j][k - i - 1];
      } else if k > j {
        assert e[k] == e[j + 1..][k - j - 1];
      }
    }
    assert d[j - i - 1] == '.' && d[j - i..] == e[j + 1..];
  }

  // ---------------------------------------------------------------------------------------
  // Existing accounts and the form checks

  /** What `emailExists` resolves to: `false` when a user account has the address (or the
      read fails), `undefined` otherwise; both are falsy. */
  datatype Lookup = FalseValue | UndefinedValue

  /** A stored contact that is a user account with this address, compared in lower case. */
  predicate AccountFor(c: StoredContact, email: string) {
    LowerStr(c.mail) == LowerStr(email) && c.isUser
  }

  /** Some stored contact is a user account with this address. */
  predicate AccountExists(users: seq<Option<StoredContact>>, email: string) {
    exists k :: 0 <= k < |users| && users[k].Some? && AccountFor(users[k].value, email)
  }

  /** `emailExists` as written: the loop over the stored contacts answers `false` on the
      first account with the address and falls through to `undefined` otherwise. */
  method EmailExists(email: string, users: seq<Option<StoredContact>>) returns (r: Lookup)
    ensures r == FalseValue <==> AccountExists(users, email)
  {
    var i := 0;
    while i < |users|
      invariant 0 <= i <= |users|
      invariant forall k :: 0 <= k < i ==> !(users[k].Some? && AccountFor(users[k].value, email))
    {
      if users[i].Some? && AccountFor(users[i].value, email) {
        return FalseValue;
      }
      i := i + 1;
    }
    return UndefinedValue;
  }

  /** `emailExists` answering true exactly when a user account has the address. */
  method EmailExistsCorrected(email: string, users: seq<Option<StoredContact>>) returns (exists_: bool)
    ensures exists_ <==> AccountExists(users, email)
  {
    var i := 0;
    while i < |users|
      invariant 0 <= i <= |users|
      invariant forall k :: 0 <= k < i ==> !(users[k].Some? && AccountFor(users[k].value, email))
    {
      if users[i].Some? && AccountFor(users[i].value, email) {
        return true;
      }
      i := i + 1;
    }
    return false;
  }

  /** The message `validateForm` shows for the first check that fails. */
  datatype FormError = PrivacyCheck | MailErrorMessage | EmailExistsMessage | CriteriaMessage | PasswordErrorMessage

  /** `validateForm`: privacy box, e-mail format, existing account, password rule,
      confirmation, in that order; the first failure is reported, None means all passed. */
  function ValidateForm(privacyChecked: bool, email: string, exists_: bool, password: string,
                        confirmPassword: string): (r: Option<FormError>)
    ensures r.None? <==> privacyChecked && IsValidEmail(email) && !exists_ && IsValidPassword(password)
                         && password == confirmPassword
    ensures r == Some(PrivacyCheck) <==> !privacyChecked
    ensures r == Some(MailErrorMessage) <==> privacyChecked && !IsValidEmail(email)
    ensures r == Some(EmailExistsMessage) <==> privacyChecked && IsValidEmail(email) && exists_
    ensures r == Some(CriteriaMessage) <==> privacyChecked && IsValidEmail(email) && !exists_ && !IsValidPassword(password)
  {
    if !privacyChecked then Some(PrivacyCheck)
    else if !IsValidEmail(email) then Some(MailErrorMessage)
    else if exists_ then Some(EmailExistsMessage)
    else if !IsValidPassword(password) then Some(CriteriaMessage)
    else if password != confirmPassword then Some(PasswordErrorMessage)
    else None
  }

  /** With the as-written lookup, whose answer is never truthy, the existing-account check
      never rejects: an address already taken by a user account passes the form. */
  lemma TakenAddressPasses(email: string, password: string)
    requires IsValidEmail(email) && IsValidPassword(password)
    ensures ValidateForm(true, email, false, password, password).None?
  {
  }

  /** The two messages a failed sign-up can show. */
  datatype SignUpMessage = EmailExistsShown | ErrorMessageShown

  /** `submitDataErrorHandling`: only the code "auth/email-already-in-use" gets its own message. */
  function SubmitDataErrorHandling(code: string): (m: SignUpMessage)
    ensures m == EmailExistsShown <==> code == "auth/email-already-in-use"
  {
    if code == "auth/email-already-in-use" then EmailExistsShown else ErrorMessageShown
  }

  /** How a submission ends: a form check fails, the account service refuses, or the account
      is created with the given name, address and password. */
  datatype Outcome =
    | Rejected(error: FormError)
    | Refused(message: SignUpMessage)
    | SignedUp(name: string, email: string, password: string)

  /** `submitData`: name and address are trimmed, the passwords are taken as typed; the form
      is checked with the as-written lookup, then the account service answers (`authError`
      is the code it refuses with, if it does). */
  method SubmitData(name: string, email: string, password: string, confirmPassword: string,
                    privacyChecked: bool, users: seq<Option<StoredContact>>, authError: Option<string>)
    returns (r: Outcome)
    ensures var check := ValidateForm(privacyChecked, Trim(email), false, password, confirmPassword);
      && (check.Some? ==> r == Rejected(check.value))
      && (check.None? && authError.Some? ==> r == Refused(SubmitDataErrorHandling(authError.value)))
      && (check.None? && authError.None? ==> r == SignedUp(Trim(name), Trim(email), password))
  {
    var n := Trim(name);
    var e := Trim(email);
    var found := EmailExists(e, users);
    // both answers of the lookup are falsy
    var check := ValidateForm(privacyChecked, e, false, password, confirmPassword);
    if check.Some? {
      return Rejected(check.value);
    }
    if authError.Some? {
      return Refused(SubmitDataErrorHandling(authError.value));
    }
    return SignedUp(n, e, password);
  }

  /** `submitData` with the lookup answering true for a taken address: such an address is
      rejected before any account is requested. */
  method SubmitDataCorrected(name: string, email: string, password: string, confirmPassword: string,
                             privacyChecked: bool, users: seq<Option<StoredContact>>, authError: Option<string>)
    returns (r: Outcome)
    ensures var check := ValidateForm(privacyChecked, Trim(email), AccountExists(users, Trim(email)), password, confirmPassword);
      && (check.Some? ==> r == Rejected(check.value))
      && (check.None? && authError.Some? ==> r == Refused(SubmitDataErrorHandling(authError.value)))
      && (check.None? && authError.None? ==> r == SignedUp(Trim(name), Trim(email), password))
    ensures privacyChecked && IsValidEmail(Trim(email)) && AccountExists(users, Trim(email)) ==>
      r == Rejected(EmailExistsMessage)
  {
    var n := Trim(name);
    var e := Trim(email);
    var found := EmailExistsCorrected(e, users);
    var check := ValidateForm(privacyChecked, e, found, password, confirmPassword);
    if check.Some? {
      return Rejected(check.value);
    }
    if authError.Some? {
      return Refused(SubmitDataErrorHandling(authError.value));
    }
    return SignedUp(n, e, password);
  }

  // ---------------------------------------------------------------------------------------
  // Password visibility

  datatype PasswordField = PasswordInput | ConfirmInput

  /** The module counters `clickCount1` and `clickCount2`, one per password field. */
  class Toggles {
    var clickCount1: int
    var clickCount2: int

    /** Each counter only ever holds 0 or 1. */
    ghost predicate Valid()
      reads this
    {
      clickCount1 in {0, 1} && clickCount2 in {0, 1}
    }

    constructor ()
      ensures clickCount1 == 0 && clickCount2 == 0 && Valid()
    {
      clickCount1 := 0;
      clickCount2 := 0;
    }

    function Count(f: PasswordField): int
      reads this
    {
      if f == PasswordInput then clickCount1 else clickCount2
    }

    /** `togglePassword`: the field shows its text when its counter is odd, and the counter
        then moves the other way (down from 1, up from 0); the other field is untouched.
        Returns whether the field now shows its text. */
    method TogglePassword(f: PasswordField) returns (textShown: bool)
      requires Valid()
      modifies this
      ensures Valid()
      ensures textShown <==> old(Count(f)) == 1
      ensures Count(f) == 1 - old(Count(f))
      ensures f == PasswordInput ==> clickCount2 == old(clickCount2)
      ensures f == ConfirmInput ==> clickCount1 == old(clickCount1)
    {
      var count := if f == PasswordInput then clickCount1 else clickCount2;
      textShown := count % 2 == 1;
      if textShown {
        if f == PasswordInput { clickCount1 := clickCount1 - 1; } else { clickCount2 := clickCount2 - 1; }
      } else {
        if f == PasswordInput { clickCount1 := clickCount1 + 1; } else { clickCount2 := clickCount2 + 1; }
      }
    }

    /** `resetState` on blur: the field's counter returns to 0. */
    method ResetState(f: PasswordField)
      requires Valid()
      modifies this
      ensures Valid()
      ensures Count(f) == 0
      ensures f == PasswordInput ==> clickCount2 == old(clickCount2)
      ensures f == ConfirmInput ==> clickCount1 == old(clickCount1)
    {
      if f == PasswordInput { clickCount1 := 0; } else { clickCount2 := 0; }
    }
  }

  /** After a blur, the first click keeps the field hidden and the second one shows it. */
  method FirstTwoClicks(t: Toggles, f: PasswordField) returns (first: bool, second: bool)
    requires t.Valid()
    modifies t
    ensures !first && second
    ensures t.Valid() && t.Count(f) == 0
  {
    t.ResetState(f);
    first := t.TogglePassword(f);
    second := t.TogglePassword(f);
  }
}
