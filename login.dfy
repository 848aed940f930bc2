/**
 * The login form's submit handler: input validation, the token check and
 * the mapping from how the login call failed to the message shown.
 */
module Login {
  import opened Results

  const ValidationText: string := "Please enter email and password"
  const NoTokenText: string := "No token received"
  const BadPasswordText: string := "Invalid password."
  const UnknownUserText: string := "User does not exist. Please register."
  const DuplicateUserText: string := "User already exists"
  const ServerErrorText: string := "Server error. Please try again later."
  const FallbackStatusText: string := "Something went wrong. Please try again."
  const NetworkText: string := "Network error. Please check your connection."
  const LoginFailedText: string := "Login failed"

  /** The error caught by the handler, as axios shapes it. */
  datatype LoginError =
    /** `error.response` is set: its status and `data?.msg` (`""` when absent). */
    | HttpStatus(status: int, msg: string)
    /** No response, but `error.request` is set: the server was not reached. */
    | NoResponse
    /** Neither is set: a plain exception with its `message` (`""` when absent). */
    | Thrown(message: string)

  /** How the login call settled: a response with `data?.token` (`""` when
      absent), or a rejection. */
  datatype LoginReply = Responded(token: string) | Rejected(error: LoginError)

  /** The statuses whose message does not depend on what the server said. */
  predicate FixedStatus(status: int) {
    status == 401 || status == 404 || status == 409 || status >= 500
  }

  /** The message for a response with an error status. It is never empty;
      it is the server's `msg` when that is present and the status is 400 or
      not one of the fixed ones, and one of the handler's own texts
      otherwise. */
  function StatusText(status: int, msg: string): (t: string)
    ensures t != ""
    ensures !FixedStatus(status) && msg != "" ==> t == msg
    ensures FixedStatus(status) || msg == "" ==> t in {ValidationText, BadPasswordText, UnknownUserText, DuplicateUserText, ServerErrorText, FallbackStatusText}
    ensures status == 400 && msg == "" ==> t == ValidationText
    ensures status == 401 ==> t == BadPasswordText
    ensures status == 404 ==> t == UnknownUserText
    ensures status == 409 ==> t == DuplicateUserText
    ensures status >= 500 ==> t == ServerErrorText
    ensures !FixedStatus(status) && status != 400 && msg == "" ==> t == FallbackStatusText
  {
    if status == 400 then (if msg != "" then msg else ValidationText)
    else if status == 401 then BadPasswordText
    else if status == 404 then UnknownUserText
    else if status == 409 then DuplicateUserText
    else if status >= 500 then ServerErrorText
    else if msg != "" then msg else FallbackStatusText
  }

  /** For the fixed statuses the server's `msg` is ignored. */
  lemma FixedStatusIgnoresMsg(status: int, m1: string, m2: string)
    requires FixedStatus(status)
    ensures StatusText(status, m1) == StatusText(status, m2)
  {
  }

  /** The message set for a caught error; never empty, so every failed
      attempt shows exactly one visible message. */
  function ErrorText(e: LoginError): (t: string)
    ensures t != ""
    ensures e.NoResponse? ==> t == NetworkText
    ensures e.HttpStatus? ==> t == StatusText(e.status, e.msg)
    ensures e.Thrown? && e.message != "" ==> t == e.message
    ensures e.Thrown? && e.message == "" ==> t == LoginFailedText
  {
    match e
    case HttpStatus(status, msg) => StatusText(status, msg)
    case NoResponse => NetworkText
    case Thrown(message) => if message != "" then message else LoginFailedText
  }

  /** The result of one submit: whether the login call was made, the token
      handed to `onLoggedIn` if any, and the final error text. */
  datatype Attempt = Attempt(requested: bool, token: Option<string>, err: string)

  /** `handleLogin` as a function of the form fields and the call's outcome.
      Empty fields stop it before any request. Only a non-empty token logs
      the user in, and then the error text is the empty string it was reset
      to; every other outcome ends with a non-empty error text. */
  function LoginAttempt(email: string, password: string, reply: LoginReply): (a: Attempt)
    ensures a.requested <==> email != "" && password != ""
    ensures !a.requested ==> a.err == ValidationText && a.token == None
    ensures a.token.Some? <==> a.requested && reply.Responded? && reply.token != ""
    ensures a.token.Some? ==> a.token.value == reply.token && a.err == ""
    ensures a.token.None? ==> a.err != ""
    ensures a.requested && reply.Responded? && reply.token == "" ==> a.err == NoTokenText
    ensures a.requested && reply.Rejected? ==> a.err == ErrorText(reply.error)
  {
    if email == "" || password == "" then Attempt(false, None, ValidationText)
    else
      match reply
      case Responded(token) =>
        if token != "" then Attempt(true, Some(token), "")
        else Attempt(true, None, ErrorText(Thrown(NoTokenText)))
      case Rejected(e) => Attempt(true, None, ErrorText(e))
  }

  class LoginForm {
    var email: string
    var password: string
    var err: string

    constructor ()
      ensures email == "" && password == "" && err == ""
    {
      email, password, err := "", "", "";
    }

    /** `handleLogin`: resets the error text, validates the fields, makes the
        call and either logs in with the token or sets one error text. What
        it ends with does not depend on the error text it started with. */
    method HandleLogin(reply: LoginReply) returns (requested: bool, loggedInWith: Option<string>)
      modifies this`err
      ensures var a := LoginAttempt(email, password, reply);
        requested == a.requested && loggedInWith == a.token && err == a.err
    {
      err := "";
      if email == "" || password == "" {
        err := ValidationText;
        return false, None;
      }
      requested := true;
      var caught: LoginError;
      match reply {
        case Responded(token) =>
          if token != "" {
            return true, Some(token);
          }
          caught := Thrown(NoTokenText);
        case Rejected(e) =>
          caught := e;
      }
      err := ErrorText(caught);
      loggedInWith := None;
    }
  }
}
