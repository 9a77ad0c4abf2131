/** The HTTP routes, as outcomes. Each todo route first runs the identity gate (the
    framework resolves the `current_user` dependency before the handler body), then
    works only on the rows the resolved user owns; an absent row becomes a 404. */
module Routes {
  import opened Common
  import opened Models
  import opened Schemas
  import Auth
  import Crud
  import Identity

  const UsernameTaken: HttpError := HttpError(BadRequest, "Username already taken", map[])
  const IncorrectCredentials: HttpError :=
    HttpError(Unauthorized, "Incorrect username or password", BearerChallenge)
  const TodoNotFound: HttpError := HttpError(NotFound, "Todo not found", map[])
  const TodoDeleted: string := "Todo deleted successfully"

  const DefaultSkip: nat := 0
  const DefaultLimit: nat := 100

  /** The password-grant login form. */
  datatype LoginForm = LoginForm(username: string, password: string)

  // ---------------------------------------------------------------- accounts

  /** Whether registering `user` clashes with an existing account, by email or by username. */
  function Taken(users: seq<User>, user: UserCreate): (b: bool)
    ensures b <==> exists u :: u in users && (u.email == user.email || u.username == user.username)
  {
    Crud.GetUserByEmail(users, user.email).Some? || Crud.GetUserByUsername(users, user.username).Some?
  }

  /** No two accounts share a username, and no two share an email. */
  ghost predicate UniqueAccounts(users: seq<User>)
  {
    forall i, j :: 0 <= i < j < |users| ==>
      users[i].username != users[j].username && users[i].email != users[j].email
  }

  /** Adding an account whose username and email are both free keeps accounts unique. */
  lemma RegisterKeepsAccountsUnique(users: seq<User>, user: UserCreate, u: User)
    requires UniqueAccounts(users) && !Taken(users, user)
    requires u.username == user.username && u.email == user.email
    ensures UniqueAccounts(users + [u])
  {
  }

  /** `register`: refuses a taken username or email with one and the same 400; otherwise
      stores the new account. */
  method Register(store: Crud.Store, user: UserCreate, salt: nat, now: int, crypto: Auth.Crypto)
    returns (r: Result<User>)
    requires store.Valid()
    modifies store
    ensures store.Valid()
    ensures r.Err? <==> Taken(old(store.users), user)
    ensures r.Err? ==> r.error == UsernameTaken
    ensures r.Err? ==> store.users == old(store.users) && store.todos == old(store.todos)
    ensures r.Ok? ==> store.users == old(store.users) + [r.value] && store.todos == old(store.todos)
    ensures r.Ok? ==> r.value.username == user.username && r.value.email == user.email
    ensures r.Ok? ==> r.value.hashedPassword == Auth.GetPasswordHash(crypto, user.password, salt)
    ensures UniqueAccounts(old(store.users)) ==> UniqueAccounts(store.users)
  {
    var byEmail := Crud.GetUserByEmail(store.users, user.email);
    var byName := Crud.GetUserByUsername(store.users, user.username);
    if byName.Some? || byEmail.Some? {
      return Err(UsernameTaken);
    }
    ghost var before := store.users;
    var created := store.CreateUser(user, salt, now, crypto);
    if UniqueAccounts(before) {
      RegisterKeepsAccountsUnique(before, user, created);
    }
    r := Ok(created);
  }

  /** The lifetime, in seconds, that login asks for. A configured lifetime of zero
      minutes is falsy as a `timedelta`, so the token gets the 15-minute default. */
  function LoginLifetime(env: Auth.Env): (d: int)
    ensures Auth.Lifetime(Some(d)) ==
      if env.settings.accessTokenExpireMinutes == 0 then 15 * 60 else env.settings.accessTokenExpireMinutes * 60
  {
    env.settings.accessTokenExpireMinutes * 60
  }

  /** `login`: a bearer token whose subject is the user's name, or the 401. */
  function Login(users: seq<User>, form: LoginForm, now: int, env: Auth.Env): (r: Result<Token>)
    ensures r.Err? <==> Identity.AuthenticateUser(users, form.username, form.password, env.crypto).None?
    ensures r.Err? ==> r.error == IncorrectCredentials
    ensures r.Ok? ==> r.value.tokenType == "bearer"
    ensures r.Ok? ==>
      r.value.accessToken
      == Auth.CreateAccessToken(map["sub" := Auth.Text(form.username)], Some(LoginLifetime(env)), now, env)
  {
    match Identity.AuthenticateUser(users, form.username, form.password, env.crypto)
    case None => Err(IncorrectCredentials)
    case Some(user) =>
      var accessToken :=
        Auth.CreateAccessToken(map["sub" := Auth.Text(user.username)], Some(LoginLifetime(env)), now, env);
      Ok(Token(accessToken, BearerTokenType))
  }

  /** An unknown username and a wrong password are refused with the very same error. */
  lemma LoginFailuresAlike(users: seq<User>, unknown: LoginForm, wrong: LoginForm, now: int, env: Auth.Env)
    requires Crud.GetUserByUsername(users, unknown.username).None?
    requires Crud.GetUserByUsername(users, wrong.username).Some?
    requires !env.crypto.verify(wrong.password, Crud.GetUserByUsername(users, wrong.username).value.hashedPassword)
    ensures Login(users, unknown, now, env) == Login(users, wrong, now, env) == Err(IncorrectCredentials)
  {
  }

  /** Registration followed by login with the same password succeeds and yields the new account. */
  lemma RegisterThenAuthenticate(users: seq<User>, user: UserCreate, u: User, salt: nat, crypto: Auth.Crypto)
    requires Auth.HashVerifies(crypto)
    requires !Taken(users, user)
    requires u.username == user.username && u.hashedPassword == Auth.GetPasswordHash(crypto, user.password, salt)
    ensures Identity.AuthenticateUser(users + [u], user.username, user.password, crypto) == Some(u)
  {
  }

  /** The token a successful login returns admits, until it expires, exactly the user
      that logged in, provided that user's name is not empty. */
  lemma LoginTokenAdmitsUser(users: seq<User>, form: LoginForm, issuedAt: int, now: int, env: Auth.Env)
    requires Auth.CodecRoundTrip(env)
    requires Login(users, form, issuedAt, env).Ok?
    requires form.username != ""
    requires now <= issuedAt + Auth.Lifetime(Some(LoginLifetime(env)))
    ensures Identity.GetCurrentUser(users, Login(users, form, issuedAt, env).value.accessToken, now, env)
            == Ok(Identity.AuthenticateUser(users, form.username, form.password, env.crypto).value)
  {
  }

  /** After its lifetime the login token is refused with the gate's single 401. (By
      `LoginLifetime`, a configured lifetime of zero minutes means 15 minutes here.) */
  lemma LoginTokenExpires(users: seq<User>, form: LoginForm, issuedAt: int, now: int, env: Auth.Env)
    requires Auth.CodecRoundTrip(env)
    requires Login(users, form, issuedAt, env).Ok?
    requires now > issuedAt + Auth.Lifetime(Some(LoginLifetime(env)))
    ensures Identity.GetCurrentUser(users, Login(users, form, issuedAt, env).value.accessToken, now, env)
            == Err(Identity.CredentialsException)
  {
  }

  // ---------------------------------------------------------------- todos

  /** `GET /todos/`: the caller's todos, windowed by `skip` and `limit`. */
  function GetTodosRoute(users: seq<User>, todos: seq<Todo>, token: string, now: int, env: Auth.Env,
                         skip: nat := DefaultSkip, limit: nat := DefaultLimit): (r: Result<seq<Todo>>)
    ensures r.Err? <==> Identity.GetCurrentUser(users, token, now, env).Err?
    ensures r.Err? ==> r.error == Identity.CredentialsException
    ensures r.Ok? ==>
      var me := Identity.GetCurrentUser(users, token, now, env).value;
      && r.value == Crud.GetTodos(todos, me.id, skip, limit)
      && |r.value| <= limit
      && forall t :: t in r.value ==> t in todos && t.userId == me.id
  {
    match Identity.GetCurrentUser(users, token, now, env)
    case Err(e) => Err(e)
    case Ok(me) => Ok(Crud.GetTodos(todos, me.id, skip, limit))
  }

  /** Without `skip` and `limit`, the listing starts at the caller's first todo and holds
      at most 100 of them. */
  lemma GetTodosDefaults(users: seq<User>, todos: seq<Todo>, token: string, now: int, env: Auth.Env)
    requires Identity.GetCurrentUser(users, token, now, env).Ok?
    ensures |GetTodosRoute(users, todos, token, now, env).value| <= 100
    ensures |Crud.Owned(todos, Identity.GetCurrentUser(users, token, now, env).value.id)| <= 100 ==>
      GetTodosRoute(users, todos, token, now, env).value
      == Crud.Owned(todos, Identity.GetCurrentUser(users, token, now, env).value.id)
  {
  }

  /** `GET /todos/{id}`: the caller's todo with that id, or 404. */
  function GetTodoRoute(users: seq<User>, todos: seq<Todo>, token: string, now: int, env: Auth.Env,
                        todoId: int): (r: Result<Todo>)
    ensures Identity.GetCurrentUser(users, token, now, env).Err? ==> r == Err(Identity.CredentialsException)
    ensures Identity.GetCurrentUser(users, token, now, env).Ok? ==>
      var me := Identity.GetCurrentUser(users, token, now, env).value;
      && (r.Err? <==> Crud.GetTodo(todos, todoId, me.id).None?)
      && (r.Err? ==> r.error == TodoNotFound)
      && (r.Ok? ==> r.value in todos && r.value.id == todoId && r.value.userId == me.id)
  {
    match Identity.GetCurrentUser(users, token, now, env)
    case Err(e) => Err(e)
    case Ok(me) =>
      match Crud.GetTodo(todos, todoId, me.id)
      case None => Err(TodoNotFound)
      case Some(t) => Ok(t)
  }

  /** `POST /todos/`: a new todo owned by the caller. */
  method CreateTodoRoute(store: Crud.Store, todo: TodoCreate, token: string, now: int, env: Auth.Env)
    returns (r: Result<Todo>)
    requires store.Valid()
    modifies store
    ensures store.Valid() && store.users == old(store.users)
    ensures old(Identity.GetCurrentUser(store.users, token, now, env)).Err? ==>
      r == Err(Identity.CredentialsException) && store.todos == old(store.todos)
    ensures old(Identity.GetCurrentUser(store.users, token, now, env)).Ok? ==>
      var me := old(Identity.GetCurrentUser(store.users, token, now, env)).value;
      && r.Ok? && store.todos == old(store.todos) + [r.value]
      && r.value.userId == me.id && r.value.title == todo.title
      && r.value.description == todo.description && r.value.completed == todo.completed
      && (forall v :: v in old(store.todos) ==> v.id != r.value.id)
      && (forall v :: v != me.id ==> Crud.Owned(store.todos, v) == Crud.Owned(old(store.todos), v))
  {
    var who := Identity.GetCurrentUser(store.users, token, now, env);
    if who.Err? {
      return Err(who.error);
    }
    var created := store.CreateTodo(todo, who.value.id, now);
    r := Ok(created);
  }

  /** `PUT /todos/{id}`: the caller's todo with the set fields replaced, or 404. */
  method UpdateTodoRoute(store: Crud.Store, todoId: int, update: TodoUpdate, token: string, now: int,
                         env: Auth.Env) returns (r: Result<Todo>)
    requires store.Valid()
    modifies store
    ensures store.Valid() && store.users == old(store.users)
    ensures old(Identity.GetCurrentUser(store.users, token, now, env)).Err? ==>
      r == Err(Identity.CredentialsException) && store.todos == old(store.todos)
    ensures old(Identity.GetCurrentUser(store.users, token, now, env)).Ok? ==>
      var me := old(Identity.GetCurrentUser(store.users, token, now, env)).value;
      && (r.Err? <==> Crud.GetTodo(old(store.todos), todoId, me.id).None?)
      && (r.Err? ==> r.error == TodoNotFound && store.todos == old(store.todos))
      && (r.Ok? ==> r.value.id == todoId && r.value.userId == me.id
                    && r.value == Crud.ApplyUpdate(Crud.GetTodo(old(store.todos), todoId, me.id).value, update))
      && (r.Ok? ==>
            var i := Crud.TodoIndex(old(store.todos), todoId, me.id).value;
            store.todos == old(store.todos)[i := r.value])
      && (forall v :: v != me.id ==> Crud.Owned(store.todos, v) == Crud.Owned(old(store.todos), v))
  {
    var who := Identity.GetCurrentUser(store.users, token, now, env);
    if who.Err? {
      return Err(who.error);
    }
    var updated := store.UpdateTodo(todoId, update, who.value.id);
    if updated.None? {
      return Err(TodoNotFound);
    }
    r := Ok(updated.value);
  }

  /** `DELETE /todos/{id}`: removes the caller's todo with that id, or 404. */
  method DeleteTodoRoute(store: Crud.Store, todoId: int, token: string, now: int, env: Auth.Env)
    returns (r: Result<Message>)
    requires store.Valid()
    modifies store
    ensures store.Valid() && store.users == old(store.users)
    ensures old(Identity.GetCurrentUser(store.users, token, now, env)).Err? ==>
      r == Err(Identity.CredentialsException) && store.todos == old(store.todos)
    ensures old(Identity.GetCurrentUser(store.users, token, now, env)).Ok? ==>
      var me := old(Identity.GetCurrentUser(store.users, token, now, env)).value;
      && (r.Ok? <==> Crud.GetTodo(old(store.todos), todoId, me.id).Some?)
      && (r.Ok? ==> r.value == Message(TodoDeleted) && |store.todos| == |old(store.todos)| - 1)
      && (r.Ok? ==>
            var i := Crud.TodoIndex(old(store.todos), todoId, me.id).value;
            store.todos == old(store.todos)[..i] + old(store.todos)[i + 1..])
      && (r.Err? ==> r.error == TodoNotFound && store.todos == old(store.todos))
      && (forall v :: v != me.id ==> Crud.Owned(store.todos, v) == Crud.Owned(old(store.todos), v))
  {
    var who := Identity.GetCurrentUser(store.users, token, now, env);
    if who.Err? {
      return Err(who.error);
    }
    var success := store.DeleteTodo(todoId, who.value.id);
    if !success {
      return Err(TodoNotFound);
    }
    r := Ok(Message(TodoDeleted));
  }
}
