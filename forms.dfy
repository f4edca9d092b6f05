/** app/forms.py: the login form's identifier resolution, the registration
    form's validators and the one-time-code form. Field values arrive as the
    framework's field cleaning leaves them; the empty string stands for a
    missing value. `passwordOk(account, password)` stands for what the model
    backend of `authenticate` checks of an account (the salted hash, and that
    the account is active); the model does not look inside it. */
module Forms {
  import opened Queries
  import opened Models

  // ----- LoginForm -----

  /** How LoginForm.clean ends: no attempt (a field is missing), the account
      it authenticated, the one uniform error, or the exception `get(email=...)`
      raises when several accounts share the address. */
  datatype LoginOutcome = NotAttempted | Authenticated(id: UserId) | InvalidCredentials | MultipleAccounts

  /** `authenticate(username=..., password=...)`: the account with that
      username, if the credential check accepts the password. */
  function Authenticate(users: seq<Account>, username: string, password: string,
                        passwordOk: (Account, string) -> bool): (r: Option<UserId>)
    ensures r.Some? ==> r.value < |users| && users[r.value].username == username && passwordOk(users[r.value], password)
    ensures UsernamesUnique(users) ==>
      (r.None? <==> forall i :: 0 <= i < |users| && users[i].username == username ==> !passwordOk(users[i], password))
  {
    match UserByUsername(users, username)
    case None => None
    case Some(i) => if passwordOk(users[i], password) then Some(i) else None
  }

  /** LoginForm.clean: try the identifier as a username; failing that, look it
      up as an e-mail address and try again with that account's username. */
  function ResolveLogin(users: seq<Account>, login: string, password: string,
                        passwordOk: (Account, string) -> bool): (r: LoginOutcome)
    ensures r == NotAttempted <==> login == "" || password == ""
    ensures r.Authenticated? ==> r.id < |users| && passwordOk(users[r.id], password)
    ensures r.Authenticated? && UsernamesUnique(users) ==>
      users[r.id].username == login || users[r.id].email == login
    ensures r == MultipleAccounts ==>
      exists i, j :: 0 <= i < j < |users| && users[i].email == login && users[j].email == login
  {
    if login == "" || password == "" then NotAttempted
    else
      match Authenticate(users, login, password, passwordOk)
      case Some(id) => Authenticated(id)
      case None =>
        match UserByEmail(users, login)
        case DoesNotExist => InvalidCredentials
        case MultipleObjectsReturned => MultipleAccounts
        case Found(i) =>
          match Authenticate(users, users[i].username, password, passwordOk)
          case Some(id) => Authenticated(id)
          case None => InvalidCredentials
  }

  /** With a field missing no authentication is attempted. */
  lemma MissingFieldSkipsAuthentication(users: seq<Account>, login: string, password: string,
                                        passwordOk: (Account, string) -> bool)
    requires login == "" || password == ""
    ensures ResolveLogin(users, login, password, passwordOk) == NotAttempted
  {
  }

  /** A username match whose password is accepted wins, whatever the e-mail addresses are. */
  lemma UsernameTriedFirst(users: seq<Account>, login: string, password: string,
                           passwordOk: (Account, string) -> bool, id: UserId)
    requires login != "" && password != ""
    requires id < |users| && users[id].username == login && passwordOk(users[id], password)
    requires UsernamesUnique(users)
    ensures ResolveLogin(users, login, password, passwordOk) == Authenticated(id)
  {
    var first := UserByUsername(users, login);
    assert first == Some(id);
  }

  /** Only when the username attempt fails is the identifier taken as an
      e-mail address; the one account with that address is then
      authenticated by its own username and the same password. */
  lemma EmailFallback(users: seq<Account>, login: string, password: string,
                      passwordOk: (Account, string) -> bool, id: UserId)
    requires login != "" && password != "" && UsernamesUnique(users)
    requires forall j :: 0 <= j < |users| && j != id ==> users[j].email != login
    requires Authenticate(users, login, password, passwordOk).None?
    requires id < |users| && users[id].email == login
    ensures ResolveLogin(users, login, password, passwordOk) ==
      if passwordOk(users[id], password) then Authenticated(id) else InvalidCredentials
  {
    var byEmail := UserByEmail(users, login);
    assert byEmail == Found(id);
    var byName := UserByUsername(users, users[id].username);
    assert byName == Some(id);
  }

  /** With distinct e-mail addresses, login succeeds exactly when some
      account has the identifier as its username or its e-mail address and
      accepts the password; a success names such an account. */
  lemma {:induction false} LoginSucceedsIff(users: seq<Account>, login: string, password: string,
                                            passwordOk: (Account, string) -> bool)
    requires login != "" && password != "" && UsernamesUnique(users) && EmailsUnique(users)
    ensures var r := ResolveLogin(users, login, password, passwordOk);
      && (r.Authenticated? ==>
            r.id < |users| && passwordOk(users[r.id], password)
            && (users[r.id].username == login || users[r.id].email == login))
      && (r.Authenticated? <==>
            exists i :: 0 <= i < |users| && (users[i].username == login || users[i].email == login)
                        && passwordOk(users[i], password))
  {
    var r := ResolveLogin(users, login, password, passwordOk);
    if i :| 0 <= i < |users| && (users[i].username == login || users[i].email == login) && passwordOk(users[i], password) {
      if users[i].username == login {
        UsernameTriedFirst(users, login, password, passwordOk, i);
      } else if Authenticate(users, login, password, passwordOk).None? {
        EmailFallback(users, login, password, passwordOk, i);
      }
    }
  }

  /** Every failed attempt gives the same error, whether no account has the
      identifier or the password was wrong: with distinct e-mail addresses the
      exception case cannot arise. */
  lemma UniformLoginError(users: seq<Account>, login: string, password: string,
                          passwordOk: (Account, string) -> bool)
    requires login != "" && password != "" && EmailsUnique(users)
    ensures ResolveLogin(users, login, password, passwordOk) != NotAttempted
    ensures ResolveLogin(users, login, password, passwordOk) != MultipleAccounts
    ensures !ResolveLogin(users, login, password, passwordOk).Authenticated? ==>
      ResolveLogin(users, login, password, passwordOk) == InvalidCredentials
  {
    forall i, j | 0 <= i < j < |users|
      ensures !(users[i].email == login && users[j].email == login)
    {
    }
    assert !UserByEmail(users, login).MultipleObjectsReturned?;
  }

  /** An identifier that is no accepted username and is the address of two
      accounts makes `get(email=...)` raise: the request fails with a server
      error instead of the uniform message. */
  lemma SharedAddressRaises(users: seq<Account>, login: string, password: string,
                            passwordOk: (Account, string) -> bool, i: nat, j: nat)
    requires login != "" && password != ""
    requires Authenticate(users, login, password, passwordOk).None?
    requires i < j < |users| && users[i].email == login && users[j].email == login
    ensures ResolveLogin(users, login, password, passwordOk) == MultipleAccounts
  {
  }

  /** The account "alice" with address "alice@x.com" logs in identically by
      either identifier, and fails identically with a wrong password. */
  lemma AliceExample(alice: Account, password: string, passwordOk: (Account, string) -> bool)
    requires alice.username == "alice" && alice.email == "alice@x.com" && password != ""
    ensures ResolveLogin([alice], "alice", password, passwordOk) ==
            ResolveLogin([alice], "alice@x.com", password, passwordOk) ==
            if passwordOk(alice, password) then Authenticated(0) else InvalidCredentials
  {
    assert "alice" != "alice@x.com";
    assert UsernamesUnique([alice]) && EmailsUnique([alice]);
    if passwordOk(alice, password) {
      UsernameTriedFirst([alice], "alice", password, passwordOk, 0);
    }
    EmailFallback([alice], "alice@x.com", password, passwordOk, 0);
  }

  /** The login form: its two fields, and the account `clean` authenticated. */
  class LoginForm {
    const login: string
    const password: string
    var user: Option<UserId>
    var invalidLogin: bool   // the non-field error "Неверный логин или пароль" was raised

    constructor (login: string, password: string)
      ensures this.login == login && this.password == password
      ensures GetUser().None? && !invalidLogin
    {
      this.login := login;
      this.password := password;
      user := None;
      invalidLogin := false;
    }

    /** LoginForm.clean, step by step. */
    method Clean(users: seq<Account>, passwordOk: (Account, string) -> bool) returns (outcome: LoginOutcome)
      modifies this
      ensures outcome == ResolveLogin(users, login, password, passwordOk)
      ensures GetUser() == if outcome.Authenticated? then Some(outcome.id) else old(GetUser())
      ensures invalidLogin == (old(invalidLogin) || outcome == InvalidCredentials)
    {
      if login == "" || password == "" {
        return NotAttempted;
      }
      var found := Authenticate(users, login, password, passwordOk);
      if found.None? {
        match UserByEmail(users, login) {
          case DoesNotExist =>
          case MultipleObjectsReturned =>
            return MultipleAccounts;
          case Found(i) =>
            found := Authenticate(users, users[i].username, password, passwordOk);
        }
      }
      if found.None? {
        invalidLogin := true;
        return InvalidCredentials;
      }
      user := found;
      outcome := Authenticated(found.value);
    }

    /** LoginForm.get_user: the authenticated account, or None if clean authenticated none. */
    function GetUser(): Option<UserId>
      reads this
    {
      user
    }
  }

  // ----- RegistrationForm -----

  datatype RegistrationError =
    | UsernameRequired | UsernameTaken | EmailTaken
    | PasswordRequired | PasswordTooShort | PasswordTooLong | ConfirmRequired | PasswordMismatch

  const MIN_PASSWORD_LENGTH := 6

  /** max_length of AbstractBaseUser's `password` column. */
  const PASSWORD_COLUMN_LENGTH := 128

  /** The username field: required, then clean_username's "already taken" check. */
  function UsernameErrors(users: seq<Account>, username: string): (r: set<RegistrationError>)
    ensures r <= {UsernameRequired, UsernameTaken}
    ensures r == {} <==> username != "" && forall i :: 0 <= i < |users| ==> users[i].username != username
  {
    if username == "" then {UsernameRequired}
    else if UsernameInUse(users, username) then {UsernameTaken}
    else {}
  }

  /** The e-mail field is optional; clean_email rejects an address any account
      already has, the empty address included. */
  function EmailErrors(users: seq<Account>, email: string): (r: set<RegistrationError>)
    ensures r <= {EmailTaken}
    ensures r == {} <==> forall i :: 0 <= i < |users| ==> users[i].email != email
  {
    if EmailInUse(users, email) then {EmailTaken} else {}
  }

  /** The password field: required, then clean_password's minimum length. */
  function PasswordErrors(password: string): (r: set<RegistrationError>)
    ensures r <= {PasswordRequired, PasswordTooShort}
    ensures r == {} <==> |password| >= MIN_PASSWORD_LENGTH
  {
    if password == "" then {PasswordRequired}
    else if |password| < MIN_PASSWORD_LENGTH then {PasswordTooShort}
    else {}
  }

  /** The confirmation field is required. */
  function ConfirmErrors(confirm: string): (r: set<RegistrationError>)
    ensures r <= {ConfirmRequired}
    ensures r == {} <==> |confirm| > 0
  {
    if confirm == "" then {ConfirmRequired} else {}
  }

  /** A field's entry in cleaned_data: present only when its validation passed. */
  function Cleaned(value: string, errors: set<RegistrationError>): Option<string> {
    if errors == {} then Some(value) else None
  }

  /** RegistrationForm.clean: a mismatch is reported only when both cleaned values are present and non-empty. */
  function MismatchErrors(password: Option<string>, confirm: Option<string>): set<RegistrationError> {
    if password.Some? && password.value != "" && confirm.Some? && confirm.value != "" && password.value != confirm.value
    then {PasswordMismatch}
    else {}
  }

  /** The model validation the ModelForm runs after the form's own clean: the
      raw password is checked against the length of the `password` column,
      unless the field already failed. */
  function PasswordColumnErrors(password: string): (r: set<RegistrationError>)
    ensures r <= {PasswordTooLong}
    ensures r != {} <==> |password| > PASSWORD_COLUMN_LENGTH
  {
    if PasswordErrors(password) == {} && |password| > PASSWORD_COLUMN_LENGTH then {PasswordTooLong} else {}
  }

  /** All errors RegistrationForm.is_valid() collects. */
  function RegistrationErrors(users: seq<Account>, username: string, email: string,
                              password: string, confirm: string): (r: set<RegistrationError>)
    ensures PasswordErrors(password) <= r && UsernameErrors(users, username) <= r
    ensures EmailErrors(users, email) <= r && ConfirmErrors(confirm) <= r
    ensures PasswordMismatch in r ==> PasswordRequired !in r && PasswordTooShort !in r && ConfirmRequired !in r
  {
    UsernameErrors(users, username) + EmailErrors(users, email) + PasswordErrors(password)
    + ConfirmErrors(confirm)
    + MismatchErrors(Cleaned(password, PasswordErrors(password)), Cleaned(confirm, ConfirmErrors(confirm)))
    + PasswordColumnErrors(password)
  }

  /** A password shorter than six characters never passes. */
  lemma ShortPasswordRejected(users: seq<Account>, username: string, email: string, password: string, confirm: string)
    requires |password| < MIN_PASSWORD_LENGTH
    ensures var errors := RegistrationErrors(users, username, email, password, confirm);
      (if password == "" then PasswordRequired else PasswordTooShort) in errors
      && PasswordMismatch !in errors
  {
  }

  /** The mismatch error is raised exactly when the password passed its own
      checks, the confirmation is present, and the two differ. */
  lemma MismatchIff(users: seq<Account>, username: string, email: string, password: string, confirm: string)
    ensures PasswordMismatch in RegistrationErrors(users, username, email, password, confirm) <==>
      |password| >= MIN_PASSWORD_LENGTH && confirm != "" && password != confirm
  {
  }

  /** Taken usernames and taken addresses are rejected, and only those. */
  lemma TakenIdentityRejected(users: seq<Account>, username: string, email: string, password: string, confirm: string)
    ensures UsernameTaken in RegistrationErrors(users, username, email, password, confirm) <==>
      username != "" && exists i :: 0 <= i < |users| && users[i].username == username
    ensures EmailTaken in RegistrationErrors(users, username, email, password, confirm) <==>
      exists i :: 0 <= i < |users| && users[i].email == email
  {
  }

  /** The form is valid exactly for a fresh non-empty username, an unused
      address, a password of six to 128 characters and an equal confirmation. */
  lemma {:induction false} RegistrationValidIff(users: seq<Account>, username: string, email: string, password: string, confirm: string)
    ensures RegistrationErrors(users, username, email, password, confirm) == {} <==>
      && username != "" && !UsernameInUse(users, username) && !EmailInUse(users, email)
      && MIN_PASSWORD_LENGTH <= |password| <= PASSWORD_COLUMN_LENGTH && confirm == password
  {
    var errors := RegistrationErrors(users, username, email, password, confirm);
    if errors == {} {
      assert UsernameErrors(users, username) <= errors;
      assert EmailErrors(users, email) <= errors;
      assert PasswordErrors(password) <= errors;
      assert ConfirmErrors(confirm) <= errors;
      assert PasswordColumnErrors(password) <= errors;
      assert PasswordMismatch !in errors;
    }
  }

  /** "abc" is too short; "abcdef" confirmed as "abcdeg" is a mismatch. */
  lemma PasswordExamples(users: seq<Account>, username: string, email: string)
    ensures PasswordTooShort in RegistrationErrors(users, username, email, "abc", "abc")
    ensures PasswordMismatch in RegistrationErrors(users, username, email, "abcdef", "abcdeg")
  {
    assert "abcdef" != "abcdeg";
  }

  // ----- OTPForm -----

  datatype OtpFormError = CodeRequired | CodeTooLong

  const OTP_CODE_MAX_LENGTH := 6

  /** OTPForm's single field: required, at most six characters. The form
      accepts exactly the codes of one to six characters. */
  function OtpFormErrors(code: string): (r: set<OtpFormError>)
    ensures r == {} <==> 1 <= |code| <= OTP_CODE_MAX_LENGTH
  {
    if code == "" then {CodeRequired}
    else if |code| > OTP_CODE_MAX_LENGTH then {CodeTooLong}
    else {}
  }
}
