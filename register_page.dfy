/** The registration form: the e-mail domain and password length checks in
    `handleSubmit`, and what a submit does to the form's `error` and `loading` state. The
    registration call is a parameter. */
module RegisterPage {
  import opened Common
  import opened JsString

  const EmailDomain := "@umd.edu"
  const MinPasswordLength := 6
  const DomainError := "Only @umd.edu email addresses are allowed"
  const PasswordError := "Password must be at least 6 characters long"
  const RegistrationFailed := "Registration failed"

  /** The client-side checks: the e-mail domain first, then the password length. */
  function RegistrationError(email: string, password: string): (error: Option<string>)
    ensures error.None? <==> EndsWith(email, EmailDomain) && |password| >= MinPasswordLength
    ensures error.Some? ==> error.value in {DomainError, PasswordError}
  {
    if !EndsWith(email, EmailDomain) then Some(DomainError)
    else if |password| < MinPasswordLength then Some(PasswordError)
    else None
  }

  /** A foreign address is reported whatever the password is: the password is examined
      only for a '@umd.edu' address. */
  lemma DomainCheckedFirst(email: string, password: string, other: string)
    requires !EndsWith(email, EmailDomain)
    ensures RegistrationError(email, password) == RegistrationError(email, other) == Some(DomainError)
  {
  }

  /** The password message appears exactly for a '@umd.edu' address with a short
      password. */
  lemma PasswordMessage(email: string, password: string)
    ensures RegistrationError(email, password) == Some(PasswordError) <==>
      EndsWith(email, EmailDomain) && |password| < MinPasswordLength
  {
  }

  datatype RegisterRequest = RegisterRequest(name: string, email: string, password: string)

  /** The authentication service's answer: a token and a user, or an error with the
      body's `error` text if any. */
  datatype RegisterAnswer = Registered(token: string, user: User) | RegisterFailed(error: Option<string>)

  /** The state of the registration form. */
  class RegisterForm {
    var name: string
    var email: string
    var password: string
    var error: string
    var loading: bool

    constructor ()
      ensures name == "" && email == "" && password == "" && error == "" && !loading
    {
      name, email, password := "", "", "";
      error := "";
      loading := false;
    }

    /** `handleSubmit`: the error is cleared first. A failed check shows its message,
        sends nothing and leaves `loading` alone. Otherwise the form shows the loader and
        sends one request; a failure shows the service's error (or a generic one) and
        hides the loader, and a success keeps the loader up and hands the token and user
        on to the login callback. */
    method HandleSubmit(register: RegisterRequest -> RegisterAnswer)
      returns (sent: Option<RegisterRequest>, handoff: Option<(string, User)>)
      modifies this
      ensures name == old(name) && email == old(email) && password == old(password)
      ensures RegistrationError(email, password).Some? ==>
        sent.None? && handoff.None? && error == RegistrationError(email, password).value &&
        loading == old(loading)
      ensures RegistrationError(email, password).None? ==>
        sent == Some(RegisterRequest(name, email, password))
      ensures sent.Some? && register(sent.value).RegisterFailed? ==>
        var e := register(sent.value).error;
        handoff.None? && !loading && error == (if e.Some? && e.value != "" then e.value else RegistrationFailed)
      ensures sent.Some? && register(sent.value).Registered? ==>
        handoff == Some((register(sent.value).token, register(sent.value).user)) && loading && error == ""
    {
      error := "";
      if !EndsWith(email, EmailDomain) {
        error := DomainError;
        return None, None;
      }
      if |password| < MinPasswordLength {
        error := PasswordError;
        return None, None;
      }
      loading := true;
      var request := RegisterRequest(name, email, password);
      sent := Some(request);
      var answer := register(request);
      if answer.RegisterFailed? {
        var e := answer.error;
        error := if e.Some? && e.value != "" then e.value else RegistrationFailed;
        loading := false;
        handoff := None;
      } else {
        handoff := Some((answer.token, answer.user));
      }
    }
  }
}
