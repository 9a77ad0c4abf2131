/** Who is making a request: the login-time password check and the per-request token
    gate. Both resolve a username against the users table and collapse every way of
    failing into one outcome, so that a caller cannot tell which step refused it. */
module Identity {
  import opened Common
  import opened Models
  import Auth
  import Crud

  /** The single error every refusal of the gate raises. */
  const CredentialsException: HttpError :=
    HttpError(Unauthorized, "Could not validate credentials", BearerChallenge)

  /** `get_current_user`: verify the token, look its subject up, admit that user. An
      absent or empty subject, and an unknown username, are all refused alike. */
  function GetCurrentUser(users: seq<User>, token: string, now: int, env: Auth.Env): (r: Result<User>)
    ensures r.Ok? <==>
      var subject := Auth.VerifyToken(token, now, env);
      subject.Some? && subject.value != "" && Crud.GetUserByUsername(users, subject.value).Some?
    ensures r.Ok? ==> r.value in users && Auth.VerifyToken(token, now, env) == Some(r.value.username)
    ensures r.Err? ==> r.error == CredentialsException
  {
    var username := Auth.VerifyToken(token, now, env);
    if username.None? || username.value == "" then Err(CredentialsException)
    else
      match Crud.GetUserByUsername(users, username.value)
      case None => Err(CredentialsException)
      case Some(user) => Ok(user)
  }

  /** `authenticate_user`: the user of that name if the password verifies against its
      stored hash. An unknown username and a wrong password give the same `None`. */
  function AuthenticateUser(users: seq<User>, username: string, password: string, crypto: Auth.Crypto)
    : (r: Option<User>)
    ensures r.Some? <==>
      var found := Crud.GetUserByUsername(users, username);
      found.Some? && Auth.VerifyPassword(crypto, password, found.value.hashedPassword)
    ensures r.Some? ==> r == Crud.GetUserByUsername(users, username)
    ensures r.Some? ==> r.value in users && r.value.username == username
  {
    var user := Crud.GetUserByUsername(users, username);
    if user.None? || !Auth.VerifyPassword(crypto, password, user.value.hashedPassword) then None
    else user
  }

  /** An account with an empty username, which registration does not forbid, can never
      pass the gate, whatever else the table holds and whatever token is shown. */
  lemma EmptyUsernameNeverAdmitted(users: seq<User>, token: string, now: int, env: Auth.Env)
    ensures GetCurrentUser(users, token, now, env).Ok? ==> GetCurrentUser(users, token, now, env).value.username != ""
  {
  }
}
