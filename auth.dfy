/**
 * The sign-in page (src/app/auth/page.tsx): three field validators, the ordered
 * checks of the login and sign-up handlers, and the state those handlers update.
 * The backend's sign-in and sign-up calls are foreign: their outcome is a parameter.
 */
module Auth {
  import opened Wrappers
  import Text

  /** The messages the page shows, by meaning. */
  datatype AuthError =
    | InvalidEmail       // "please enter a valid e-mail address"
    | ShortPassword      // "the password must hold at least 6 characters"
    | ShortName          // "the name must hold at least 2 characters"
    | WrongCredentials   // sign-in refused by the backend
    | SignupFailed       // account creation refused by the backend

  const MinPasswordLength := 6
  const MinNameLength := 2

  /** `validateEmail`: the address contains an `@`. */
  predicate ValidEmail(email: string)
  {
    Text.Includes(email, '@')
  }

  /** `validatePassword`: at least six characters. */
  predicate ValidPassword(password: string)
  {
    |password| >= MinPasswordLength
  }

  /** `validateName`: at least two characters. */
  predicate ValidName(name: string)
  {
    |name| >= MinNameLength
  }

  /** The three validators, stated without the helper definitions. */
  lemma ValidatorsMeaning(s: string)
    ensures ValidEmail(s) <==> '@' in s
    ensures ValidPassword(s) <==> |s| >= 6
    ensures ValidName(s) <==> |s| >= 2
  {
    if '@' in s {
      var i :| 0 <= i < |s| && s[i] == '@';
    }
  }

  /**
   * The handlers test `!field || !validate(field)`; the emptiness test adds nothing,
   * because every validator already rejects the empty string.
   */
  lemma EmptinessTestsSubsumed(s: string)
    ensures (s == "" || !ValidEmail(s)) <==> !ValidEmail(s)
    ensures (s == "" || !ValidPassword(s)) <==> !ValidPassword(s)
    ensures (s == "" || !ValidName(s)) <==> !ValidName(s)
  {
  }

  /** The validation part of `handleLogin`: the e-mail first, then the password. */
  function LoginCheck(email: string, password: string): (e: Option<AuthError>)
    ensures e == None <==> ValidEmail(email) && ValidPassword(password)
    ensures !ValidEmail(email) ==> e == Some(InvalidEmail)
    ensures ValidEmail(email) && !ValidPassword(password) ==> e == Some(ShortPassword)
  {
    if email == "" || !ValidEmail(email) then Some(InvalidEmail)
    else if password == "" || !ValidPassword(password) then Some(ShortPassword)
    else None
  }

  /** The validation part of `handleSignup`: the name, then the e-mail, then the password. */
  function SignupCheck(name: string, email: string, password: string): (e: Option<AuthError>)
    ensures e == None <==> ValidName(name) && ValidEmail(email) && ValidPassword(password)
    ensures !ValidName(name) ==> e == Some(ShortName)
    ensures ValidName(name) && !ValidEmail(email) ==> e == Some(InvalidEmail)
    ensures ValidName(name) && ValidEmail(email) && !ValidPassword(password) ==> e == Some(ShortPassword)
  {
    if name == "" || !ValidName(name) then Some(ShortName)
    else if email == "" || !ValidEmail(email) then Some(InvalidEmail)
    else if password == "" || !ValidPassword(password) then Some(ShortPassword)
    else None
  }

  /** An empty e-mail field always yields the e-mail error, whatever the password. */
  lemma EmptyEmailRejectedFirst(password: string)
    ensures LoginCheck("", password) == Some(InvalidEmail)
    ensures forall name :: ValidName(name) ==> SignupCheck(name, "", password) == Some(InvalidEmail)
  {
  }

  /** Sign-up after a valid name checks exactly what login checks, in the same order. */
  lemma SignupExtendsLogin(name: string, email: string, password: string)
    ensures ValidName(name) ==> SignupCheck(name, email, password) == LoginCheck(email, password)
    ensures !ValidName(name) ==> SignupCheck(name, email, password) == Some(ShortName)
  {
  }

  /** The request handed to the backend: the credentials, and for sign-up the display name. */
  datatype AuthRequest =
    | SignIn(email: string, password: string)
    | SignUp(email: string, password: string, name: string)

  /** The page's state: both forms with their error message and loading flag. */
  class AuthPage {
    var loginEmail: string
    var loginPassword: string
    var loginError: Option<AuthError>
    var loginLoading: bool

    var signupName: string
    var signupEmail: string
    var signupPassword: string
    var signupError: Option<AuthError>
    var signupLoading: bool

    /** The initial state: every field empty, no error, nothing loading. */
    constructor ()
      ensures loginEmail == "" && loginPassword == "" && loginError == None && !loginLoading
      ensures signupName == "" && signupEmail == "" && signupPassword == "" && signupError == None && !signupLoading
    {
      loginEmail, loginPassword, loginError, loginLoading := "", "", None, false;
      signupName, signupEmail, signupPassword, signupError, signupLoading := "", "", "", None, false;
    }

    /**
     * `handleLogin`. The error is cleared first; a failed check sets its message and stops
     * before the backend is reached; otherwise the loading flag is raised and the sign-in
     * request is made. `refused` is the backend's answer. On success the page navigates
     * away (`navigated`) and the loading flag stays raised.
     */
    method HandleLogin(refused: bool) returns (request: Option<AuthRequest>, navigated: bool)
      modifies this`loginError, this`loginLoading
      ensures var check := LoginCheck(loginEmail, loginPassword);
        if check.Some? then
          request == None && !navigated && loginError == check && loginLoading == old(loginLoading)
        else
          request == Some(SignIn(loginEmail, loginPassword)) &&
          (refused ==> !navigated && loginError == Some(WrongCredentials) && !loginLoading) &&
          (!refused ==> navigated && loginError == None && loginLoading)
    {
      loginError := None;
      if loginEmail == "" || !ValidEmail(loginEmail) {
        loginError := Some(InvalidEmail);
        return None, false;
      }
      if loginPassword == "" || !ValidPassword(loginPassword) {
        loginError := Some(ShortPassword);
        return None, false;
      }
      loginLoading := true;
      request := Some(SignIn(loginEmail, loginPassword));
      if refused {
        loginError := Some(WrongCredentials);
        loginLoading := false;
        return request, false;
      }
      navigated := true;
    }

    /**
     * `handleSignup`: as `HandleLogin`, with the name checked before the e-mail and the
     * name sent along with the credentials.
     */
    method HandleSignup(refused: bool) returns (request: Option<AuthRequest>, navigated: bool)
      modifies this`signupError, this`signupLoading
      ensures var check := SignupCheck(signupName, signupEmail, signupPassword);
        if check.Some? then
          request == None && !navigated && signupError == check && signupLoading == old(signupLoading)
        else
          request == Some(SignUp(signupEmail, signupPassword, signupName)) &&
          (refused ==> !navigated && signupError == Some(SignupFailed) && !signupLoading) &&
          (!refused ==> navigated && signupError == None && signupLoading)
    {
      signupError := None;
      if signupName == "" || !ValidName(signupName) {
        signupError := Some(ShortName);
        return None, false;
      }
      if signupEmail == "" || !ValidEmail(signupEmail) {
        signupError := Some(InvalidEmail);
        return None, false;
      }
      if signupPassword == "" || !ValidPassword(signupPassword) {
        signupError := Some(ShortPassword);
        return None, false;
      }
      signupLoading := true;
      request := Some(SignUp(signupEmail, signupPassword, signupName));
      if refused {
        signupError := Some(SignupFailed);
        signupLoading := false;
        return request, false;
      }
      navigated := true;
    }
  }
}
