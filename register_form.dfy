/**
 * The registration form of the front end. Submitting runs an ordered chain of
 * checks. The first check that fails sets its error message, and nothing is
 * posted. When every check passes, the form posts the registration and shows
 * that it is loading.
 *
 * Lengths are JavaScript string lengths, counted in UTF-16 code units. The
 * email rule is the regular expression /^[^\s@]+@[^\s@]+\.[^\s@]+$/. The
 * model states it both as a language over strings and as a check by index,
 * and proves that the two agree.
 */
module RegisterForm {
  import opened Common
  import ClientAuth

  const MsgFillAllFields := "Please fill in all fields"
  const MsgUsernameTooShort := "Username must be at least 3 characters"
  const MsgPasswordTooShort := "Password must be at least 6 characters"
  const MsgPasswordsDiffer := "Passwords do not match"
  const MsgInvalidEmail := "Please enter a valid email address"
  const MsgRegistrationSucceeded := "Registration successful! Redirecting to login..."
  const MsgRegistrationFailed := "Registration failed"
  const MsgRegistrationError := "Registration failed. Please try again."

  const MinUsernameLength := 3
  const MinPasswordLength := 6

  // ---------------------------------------------------------------------------
  // String length as JavaScript counts it

  /** The number of UTF-16 code units of `s`. A character outside the Basic Multilingual Plane takes two. */
  function Utf16Length(s: string): (n: nat)
    ensures |s| <= n <= 2 * |s|
    ensures n == |s| <==> forall k :: 0 <= k < |s| ==> s[k] as int <= 0xFFFF
  {
    if s == [] then 0
    else (if s[0] as int > 0xFFFF then 2 else 1) + Utf16Length(s[1..])
  }

  // ---------------------------------------------------------------------------
  // The email rule

  /** JavaScript's `\s`: white space and line terminators. */
  predicate IsWhitespace(c: char) {
    || c == '\t' || c == '\n' || c == '\U{B}' || c == '\U{C}' || c == '\r' || c == ' '
    || c == '\U{A0}' || c == '\U{1680}' || ('\U{2000}' <= c <= '\U{200A}')
    || c == '\U{2028}' || c == '\U{2029}' || c == '\U{202F}' || c == '\U{205F}'
    || c == '\U{3000}' || c == '\U{FEFF}'
  }

  /** A character of the class `[^\s@]`. */
  predicate IsAtomChar(c: char) {
    !IsWhitespace(c) && c != '@'
  }

  /** A string of the language `[^\s@]+`. */
  ghost predicate IsAtomRun(s: string) {
    |s| > 0 && forall k :: 0 <= k < |s| ==> IsAtomChar(s[k])
  }

  /** The language of /^[^\s@]+@[^\s@]+\.[^\s@]+$/. */
  ghost predicate MatchesEmailPattern(s: string) {
    exists local: string, host: string, suffix: string ::
      IsAtomRun(local) && IsAtomRun(host) && IsAtomRun(suffix) &&
      s == local + "@" + host + "." + suffix
  }

  /**
   * What `emailRegex.test(email)` answers. The string has an '@' at position
   * `at` and a '.' at position `dot`, with at least one character before the
   * '@', between them and after the '.'. Every other character is in `[^\s@]`.
   */
  predicate IsValidEmail(s: string) {
    exists at, dot | 0 < at < |s| && 0 < dot < |s| ::
      at + 1 < dot && dot + 1 < |s| && s[at] == '@' && s[dot] == '.' &&
      forall k | 0 <= k < |s| && k != at :: IsAtomChar(s[k])
  }

  /** The check by index accepts exactly the strings of the regular language. */
  lemma IsValidEmailMatchesPattern(s: string)
    ensures IsValidEmail(s) <==> MatchesEmailPattern(s)
  {
    if IsValidEmail(s) {
      var at, dot :| 0 < at < |s| && 0 < dot < |s| &&
        at + 1 < dot && dot + 1 < |s| && s[at] == '@' && s[dot] == '.' &&
        forall k | 0 <= k < |s| && k != at :: IsAtomChar(s[k]);
      var local, host, suffix := s[..at], s[at + 1..dot], s[dot + 1..];
      assert s == local + "@" + host + "." + suffix;
      assert IsAtomRun(local) && IsAtomRun(host) && IsAtomRun(suffix) by {
        forall k | 0 <= k < |local| ensures IsAtomChar(local[k]) {
          assert local[k] == s[k] && k != at;
        }
        forall k | 0 <= k < |host| ensures IsAtomChar(host[k]) {
          var i := at + 1 + k;
          assert host[k] == s[i] && 0 <= i < |s| && i != at;
        }
        forall k | 0 <= k < |suffix| ensures IsAtomChar(suffix[k]) {
          var i := dot + 1 + k;
          assert suffix[k] == s[i] && 0 <= i < |s| && i != at;
        }
      }
    }
    if MatchesEmailPattern(s) {
      var local, host, suffix :|
        IsAtomRun(local) && IsAtomRun(host) && IsAtomRun(suffix) &&
        s == local + "@" + host + "." + suffix;
      var at, dot := |local|, |local| + 1 + |host|;
      assert s[at] == '@' && s[dot] == '.';
      forall k | 0 <= k < |s| && k != at ensures IsAtomChar(s[k]) {
        if k < at {
          assert s[k] == local[k];
        } else if k < dot {
          assert s[k] == host[k - at - 1];
        } else if k == dot {
        } else {
          assert s[k] == suffix[k - dot - 1];
        }
      }
    }
  }

  // ---------------------------------------------------------------------------
  // The chain of checks

  /** The form's four inputs are all non-empty. */
  predicate AllFilled(username: string, email: string, password: string, confirmPassword: string) {
    username != "" && email != "" && password != "" && confirmPassword != ""
  }

  /**
   * The message of the first check that fails, or None when all pass. A
   * message is reported exactly when its own check fails and every earlier
   * check passes.
   */
  function FirstValidationError(username: string, email: string, password: string, confirmPassword: string): (r: Option<string>)
    ensures r.None? <==>
              && AllFilled(username, email, password, confirmPassword)
              && Utf16Length(username) >= MinUsernameLength
              && Utf16Length(password) >= MinPasswordLength
              && password == confirmPassword
              && IsValidEmail(email)
    ensures r == Some(MsgFillAllFields) <==> !AllFilled(username, email, password, confirmPassword)
    ensures r == Some(MsgUsernameTooShort) <==>
              AllFilled(username, email, password, confirmPassword) && Utf16Length(username) < MinUsernameLength
    ensures r == Some(MsgPasswordTooShort) <==>
              && AllFilled(username, email, password, confirmPassword)
              && Utf16Length(username) >= MinUsernameLength
              && Utf16Length(password) < MinPasswordLength
    ensures r == Some(MsgPasswordsDiffer) <==>
              && AllFilled(username, email, password, confirmPassword)
              && Utf16Length(username) >= MinUsernameLength
              && Utf16Length(password) >= MinPasswordLength
              && password != confirmPassword
    ensures r == Some(MsgInvalidEmail) <==>
              && AllFilled(username, email, password, confirmPassword)
              && Utf16Length(username) >= MinUsernameLength
              && Utf16Length(password) >= MinPasswordLength
              && password == confirmPassword
              && !IsValidEmail(email)
  {
    if !AllFilled(username, email, password, confirmPassword) then Some(MsgFillAllFields)
    else if Utf16Length(username) < MinUsernameLength then Some(MsgUsernameTooShort)
    else if Utf16Length(password) < MinPasswordLength then Some(MsgPasswordTooShort)
    else if password != confirmPassword then Some(MsgPasswordsDiffer)
    else if !IsValidEmail(email) then Some(MsgInvalidEmail)
    else None
  }

  /**
   * JavaScript's `text || fallback` for a string that may be missing. The
   * result is the server's text or the fallback. A non-empty server text wins.
   * With a non-empty fallback the result is never empty.
   */
  function OrElse(text: Option<string>, fallback: string): (r: string)
    ensures text == Some(r) || r == fallback
    ensures ClientAuth.Truthy(text) ==> text == Some(r)
    ensures fallback != "" ==> r != ""
  {
    if ClientAuth.Truthy(text) then text.value else fallback
  }

  // ---------------------------------------------------------------------------
  // The component

  class RegisterComponent {
    const authService: ClientAuth.AuthService
    var username: string
    var email: string
    var password: string
    var confirmPassword: string
    var loading: bool
    var submitted: bool
    var error: string
    var success: string

    constructor (authService: ClientAuth.AuthService)
      ensures this.authService == authService
      ensures username == "" && email == "" && password == "" && confirmPassword == ""
      ensures !loading && !submitted && error == "" && success == ""
    {
      this.authService := authService;
      username, email, password, confirmPassword := "", "", "", "";
      loading, submitted, error, success := false, false, "", "";
    }

    /**
     * Submitting marks the form submitted and clears both messages. It then
     * either reports the first failing check, or sets loading and posts the
     * registration.
     */
    method OnSubmit() returns (request: Option<ClientAuth.RegisterRequest>)
      modifies this
      ensures submitted && success == ""
      ensures username == old(username) && email == old(email)
      ensures password == old(password) && confirmPassword == old(confirmPassword)
      ensures var verdict := FirstValidationError(username, email, password, confirmPassword);
              && (verdict.Some? ==> error == verdict.value && loading == old(loading) && request.None?)
              && (verdict.None? ==>
                    error == "" && loading &&
                    request == Some(ClientAuth.RegisterRequest(username, email, password)))
    {
      submitted := true;
      error := "";
      success := "";

      if username == "" || email == "" || password == "" || confirmPassword == "" {
        error := MsgFillAllFields;
        return None;
      }
      if Utf16Length(username) < MinUsernameLength {
        error := MsgUsernameTooShort;
        return None;
      }
      if Utf16Length(password) < MinPasswordLength {
        error := MsgPasswordTooShort;
        return None;
      }
      if password != confirmPassword {
        error := MsgPasswordsDiffer;
        return None;
      }
      if !IsValidEmail(email) {
        error := MsgInvalidEmail;
        return None;
      }

      loading := true;
      var posted := authService.Register(username, email, password);
      request := Some(posted);
    }

    /** The server answered the registration. */
    method OnRegisterResponse(response: ClientAuth.RegisterResponse)
      modifies this
      ensures !loading
      ensures response.success ==>
                && success == OrElse(response.message, MsgRegistrationSucceeded)
                && error == old(error)
                && username == "" && email == "" && password == "" && confirmPassword == ""
                && !submitted
      ensures !response.success ==>
                && error == OrElse(response.message, MsgRegistrationFailed)
                && success == old(success)
                && username == old(username) && email == old(email)
                && password == old(password) && confirmPassword == old(confirmPassword)
                && submitted == old(submitted)
    {
      loading := false;
      if response.success {
        success := OrElse(response.message, MsgRegistrationSucceeded);
        ResetForm();
      } else {
        error := OrElse(response.message, MsgRegistrationFailed);
      }
    }

    /** The registration request failed at the HTTP level. */
    method OnRegisterError()
      modifies this
      ensures !loading && error == MsgRegistrationError
      ensures success == old(success) && submitted == old(submitted)
      ensures username == old(username) && email == old(email)
      ensures password == old(password) && confirmPassword == old(confirmPassword)
    {
      loading := false;
      error := MsgRegistrationError;
    }

    /** Empties the four inputs and clears `submitted`. The messages and `loading` are left as they are. */
    method ResetForm()
      modifies this
      ensures username == "" && email == "" && password == "" && confirmPassword == ""
      ensures !submitted
      ensures error == old(error) && success == old(success) && loading == old(loading)
    {
      username := "";
      email := "";
      password := "";
      confirmPassword := "";
      submitted := false;
    }
  }
}
