/** The log-in page (script/login.js): the password-visibility state machine, the lookup of
    the signed-in account, "remember me", the guest log-in and the error text. */
module Login {
  import opened Model
  import opened Text
  import opened Register

  /** The module state of the page and the storage it writes. */
  class LoginPage {
    var clickCount: int
    var isPasswordVisible: bool
    /** The `type` of the password input: "password" or "text". */
    var passwordType: string
    var currentUser: Option<User>
    /** Whether the signed-in authentication account has been deleted (`deleteUser`). */
    var accountDeleted: bool
    var local: map<string, Stored>
    var session: map<string, Stored>

    constructor (local: map<string, Stored>, session: map<string, Stored>)
      ensures clickCount == -1 && !isPasswordVisible && passwordType == "password"
      ensures currentUser == None && !accountDeleted && this.local == local && this.session == session
    {
      clickCount := -1;
      isPasswordVisible := false;
      passwordType := "password";
      currentUser := None;
      accountDeleted := false;
      this.local := local;
      this.session := session;
    }

    /** Focusing the password field counts one up. */
    method Focus()
      modifies this`clickCount
      ensures clickCount == old(clickCount) + 1
    {
      clickCount := clickCount + 1;
    }

    /** `togglePasswordVisibility`: the field type follows the flag as it was, then the flag
        flips. */
    method TogglePasswordVisibility()
      modifies this`passwordType, this`isPasswordVisible
      ensures passwordType == if old(isPasswordVisible) then "text" else "password"
      ensures isPasswordVisible == !old(isPasswordVisible)
    {
      passwordType := if isPasswordVisible then "text" else "password";
      isPasswordVisible := !isPasswordVisible;
    }

    /** `changeVisibility`: a click toggles only when the counter is 0 (which becomes 1) or 1
        (which becomes 0); at any other value nothing changes. */
    method ChangeVisibility()
      modifies this`clickCount, this`passwordType, this`isPasswordVisible
      ensures old(clickCount) == 0 || old(clickCount) == 1 ==>
        && clickCount == 1 - old(clickCount)
        && passwordType == (if old(isPasswordVisible) then "text" else "password")
        && isPasswordVisible == !old(isPasswordVisible)
      ensures old(clickCount) != 0 && old(clickCount) != 1 ==>
        clickCount == old(clickCount) && passwordType == old(passwordType)
        && isPasswordVisible == old(isPasswordVisible)
    {
      if clickCount == 0 {
        TogglePasswordVisibility();
        clickCount := clickCount + 1;
      } else if clickCount == 1 {
        TogglePasswordVisibility();
        clickCount := clickCount - 1;
      }
    }

    /** `resetState` on blur: hidden, counter back to -1, flag cleared. */
    method ResetState()
      modifies this`clickCount, this`passwordType, this`isPasswordVisible
      ensures passwordType == "password" && clickCount == -1 && !isPasswordVisible
    {
      passwordType := "password";
      clickCount := -1;
      isPasswordVisible := false;
    }

    /** `setCurrentUser`: the first stored contact that is a user account with this address
        (the address is already trimmed and lower-cased) becomes the current user. Returns
        false, leaving the user unset, when there is none; the signed-in account is then
        deleted and the log-in fails. */
    method SetCurrentUser(email: string, users: seq<Option<StoredContact>>) returns (found: bool)
      modifies this`currentUser, this`accountDeleted
      ensures var k := FirstAccount(users, email);
        && (found <==> k >= 0)
        && (found ==> currentUser == Some(Member(users[k].value)) && accountDeleted == old(accountDeleted))
        && (!found ==> currentUser == old(currentUser) && accountDeleted)
    {
      var i := 0;
      while i < |users|
        invariant 0 <= i <= |users|
        invariant forall k :: 0 <= k < i ==> !Signs(users[k], email)
      {
        if users[i].Some? && LowerStr(users[i].value.mail) == email && users[i].value.isUser {
          FirstAccountAt(users, email, i);
          currentUser := Some(Member(users[i].value));
          return true;
        }
        i := i + 1;
      }
      FirstAccountNone(users, email);
      accountDeleted := true;
      return false;
    }

    /** The tail of a successful log-in (`handleRememberMe`, then `continueToSummary`):
        "remember me" is handled and the summary tab opened. */
    method EnterSummary(emailInput: string, passwordInput: string, rememberMe: bool)
      modifies this`local, this`session
      ensures local == Remembered(old(local), currentUser, rememberMe, emailInput, passwordInput)
      ensures "currentUser" in local && local["currentUser"] == StoredUser(currentUser)
      ensures rememberMe <==> Prefill(local) == Some((emailInput, passwordInput))
      ensures session == old(session)["activeTab" := Str("summary")]
    {
      RememberThenPrefill(local, currentUser, emailInput, passwordInput);
      HandleRememberMe(rememberMe, emailInput, passwordInput);
      session := session["activeTab" := Str("summary")];
    }

    /** `handleRememberMe`: the current user is always stored; with "remember me" the typed
        address and password are stored too, otherwise all three remembered items are
        removed. */
    method HandleRememberMe(rememberMe: bool, emailInput: string, passwordInput: string)
      modifies this`local
      ensures local == Remembered(old(local), currentUser, rememberMe, emailInput, passwordInput)
    {
      local := local["currentUser" := StoredUser(currentUser)];
      if rememberMe {
        local := local["email" := Str(emailInput)];
        local := local["password" := Str(passwordInput)];
        local := local["rememberMe" := Str("true")];
      } else {
        local := local - {"rememberMe", "email", "password"};
      }
    }

    /** `handleGuestLogin`: the guest is stored for the session, local storage is cleared and
        the summary tab is made active. */
    method HandleGuestLogin()
      modifies this`local, this`session
      ensures local == map[]
      ensures session == old(session)["currentUser" := UserJson(Guest)]["activeTab" := Str("summary")]
    {
      session := session["currentUser" := UserJson(Guest)];
      local := map[];
      session := session["activeTab" := Str("summary")];
    }
  }

  /** A click on the unfocused field first focuses it (the counter goes from -1 to 0) and then
      toggles: the type follows the old flag, so the first click leaves the password hidden
      and only the second shows it. */
  method FocusAndTwoClicks(page: LoginPage) returns (afterFirst: string)
    requires page.clickCount == -1 && !page.isPasswordVisible
    modifies page`clickCount, page`passwordType, page`isPasswordVisible
    ensures afterFirst == "password"
    ensures page.passwordType == "text" && !page.isPasswordVisible && page.clickCount == 0
  {
    page.Focus();
    page.ChangeVisibility();
    afterFirst := page.passwordType;
    page.ChangeVisibility();
  }

  /** `JSON.stringify(currentUser)`: the user, or "null". */
  function StoredUser(u: Option<User>): Stored {
    if u.Some? then UserJson(u.value) else Str("null")
  }

  /** The entry signs in this (trimmed, lower-cased) address: a user account whose address
      in lower case is the same. */
  predicate Signs(entry: Option<StoredContact>, email: string) {
    entry.Some? && LowerStr(entry.value.mail) == email && entry.value.isUser
  }

  /** The position of the first entry that signs in the address, or -1. */
  function FirstAccount(users: seq<Option<StoredContact>>, email: string): (k: int)
    ensures -1 <= k < |users|
    ensures k >= 0 ==> Signs(users[k], email)
    ensures forall j :: 0 <= j < |users| && (k == -1 || j < k) ==> !Signs(users[j], email)
  {
    if users == [] then -1
    else if Signs(users[0], email) then 0
    else
      var k := FirstAccount(users[1..], email);
      if k == -1 then -1 else k + 1
  }

  lemma FirstAccountAt(users: seq<Option<StoredContact>>, email: string, i: nat)
    requires i < |users| && Signs(users[i], email)
    requires forall k :: 0 <= k < i ==> !Signs(users[k], email)
    ensures FirstAccount(users, email) == i
  {
  }

  lemma FirstAccountNone(users: seq<Option<StoredContact>>, email: string)
    requires forall k :: 0 <= k < |users| ==> !Signs(users[k], email)
    ensures FirstAccount(users, email) == -1
  {
  }

  /** The log-in finds an account exactly when the sign-up check would call the typed address
      taken: both compare addresses in lower case. */
  lemma LoginMatchesSignUp(users: seq<Option<StoredContact>>, typed: string)
    ensures FirstAccount(users, LowerStr(Trim(typed))) >= 0 <==> AccountExists(users, Trim(typed))
  {
    var e := Trim(typed);
    LowerStrIdempotent(e);
    if AccountExists(users, e) {
      var k :| 0 <= k < |users| && users[k].Some? && AccountFor(users[k].value, e);
      assert Signs(users[k], LowerStr(e));
    }
    var f := FirstAccount(users, LowerStr(e));
    if f >= 0 {
      assert AccountFor(users[f].value, e);
    }
  }

  /** What `initLogin` fills in from local storage: the remembered address and password when
      "rememberMe" is "true" (a missing item leaves its field empty). */
  /** The local storage `handleRememberMe` leaves behind. */
  function Remembered(local: map<string, Stored>, user: Option<User>, rememberMe: bool,
                      email: string, password: string): map<string, Stored>
  {
    var withUser := local["currentUser" := StoredUser(user)];
    if rememberMe then withUser["email" := Str(email)]["password" := Str(password)]["rememberMe" := Str("true")]
    else withUser - {"rememberMe", "email", "password"}
  }

  function Prefill(local: map<string, Stored>): (r: Option<(string, string)>)
    ensures r.Some? <==> "rememberMe" in local && local["rememberMe"] == Str("true")
  {
    if "rememberMe" in local && local["rememberMe"] == Str("true") then
      Some((if "email" in local && local["email"].Str? then local["email"].s else "",
            if "password" in local && local["password"].Str? then local["password"].s else ""))
    else None
  }

  /** What "remember me" stores, the next visit fills in; without it nothing is filled in. */
  lemma RememberThenPrefill(local: map<string, Stored>, user: Option<User>, email: string, password: string)
    ensures var l := local["currentUser" := StoredUser(user)];
      var kept := l["email" := Str(email)]["password" := Str(password)]["rememberMe" := Str("true")];
      var dropped := l - {"rememberMe", "email", "password"};
      && Prefill(kept) == Some((email, password)) && Prefill(dropped) == None
      && "currentUser" in kept && kept["currentUser"] == StoredUser(user)
      && "currentUser" in dropped && dropped["currentUser"] == StoredUser(user)
  {
  }

  /** `showError`: a message mentioning "auth/invalid-credential" becomes the fixed hint,
      any other message is shown as it is. */
  function ShowError(message: string): (shown: string)
    ensures Includes(message, "auth/invalid-credential") ==> shown == "Oops, wrong email address or password! Try it again."
    ensures !Includes(message, "auth/invalid-credential") ==> shown == message
  {
    if Includes(message, "auth/invalid-credential") then "Oops, wrong email address or password! Try it again."
    else message
  }

  /** `loginButtonClick`: the typed address is trimmed and lower-cased; the account service
      answers (`authError` is its error message, if any); the account is looked up; then
      "remember me" is handled and the summary tab opened. Returns the error text shown, if
      any. */
  method LoginButtonClick(page: LoginPage, emailInput: string, passwordInput: string, rememberMe: bool,
                          users: seq<Option<StoredContact>>, authError: Option<string>)
    returns (error: Option<string>)
    modifies page`currentUser, page`accountDeleted, page`local, page`session
    ensures authError.Some? ==>
      && error == Some(ShowError(authError.value)) && page.currentUser == old(page.currentUser)
      && page.accountDeleted == old(page.accountDeleted)
    ensures var k := FirstAccount(users, LowerStr(Trim(emailInput)));
      authError.None? ==>
        && (error.None? <==> k >= 0)
        && (k >= 0 ==> page.currentUser == Some(Member(users[k].value))
                       && page.accountDeleted == old(page.accountDeleted)
                       && page.local == Remembered(old(page.local), page.currentUser, rememberMe, emailInput, passwordInput)
                       && page.session == old(page.session)["activeTab" := Str("summary")]
                       && "currentUser" in page.local && page.local["currentUser"] == UserJson(Member(users[k].value))
                       && (rememberMe <==> Prefill(page.local) == Some((emailInput, passwordInput))))
        && (k < 0 ==> error == Some(ShowError("No user found with the provided email address."))
                      && page.currentUser == old(page.currentUser) && page.accountDeleted)
    ensures error.Some? ==> page.local == old(page.local) && page.session == old(page.session)
  {
    var email := LowerStr(Trim(emailInput));
    if authError.Some? {
      return Some(ShowError(authError.value));
    }
    var found := page.SetCurrentUser(email, users);
    if !found {
      assert page.local == old(page.local) && page.session == old(page.session);
      return Some(ShowError("No user found with the provided email address."));
    }
    page.EnterSummary(emailInput, passwordInput, rememberMe);
    return None;
  }
}
