# To-do backend: accounts, tokens and owner-scoped todos, in Dafny

This project models the decision logic of a small multi-user to-do web service. Users
register with a username, an email and a password. They log in to obtain a signed bearer
token. With that token they list, read, create, update and delete their own todo items.

The model covers:

- the user and todo tables and their queries and updates (`crud.py`), as an in-memory `Store`;
- password hashing hooks, token claims and token verification (`auth.py`);
- the request gate, which turns a token into a user, and the password check at login (`auth.py`);
- the routes' outcomes: value, 400, 401 or 404 (`routes.py`);
- the payload field bounds (`schemas.py`).

Modules, in dependency order:

- `Common`: `Option`, `Result`, `HttpError` and the status codes.
- `Models`: the `User` and `Todo` records.
- `Schemas`: payloads and their validity predicates. `ValidUserBase` bounds the username to
  3–50 characters. `ValidUserCreate` bounds nothing but the email. `ValidTodoFields` bounds a
  title to 1–100 characters and a description to at most 500. `TodoUpdate` makes every field
  a `Patch`: `Unset` or `Set(value)`.
- `Auth`: lines 12-58 of `auth.py`.
- `Crud`: `crud.py`. Lookups are functions over a table's rows. The writes are methods of
  `Store`, a class holding both tables.
- `Identity`: lines 60-88 of `auth.py`. It is a module of its own because `auth.py` and
  `crud.py` import each other, and Dafny modules cannot be cyclic.
- `Routes`: `routes.py`. Every todo route first runs `Identity.GetCurrentUser`, as the framework
  resolves the `current_user` dependency before the handler body.

The foreign primitives are the fields of the datatype `Auth.Crypto`, which is passed in:

- the Argon2 hasher (`hash`, `verify`);
- the JWT signer (`encode`, `decode`).

The current instant is the parameter `now`, in whole seconds. The salt that hashing would
draw at random is a parameter too. What the model relies on about the primitives is stated
as three named assumptions. Each appears as a `requires` of the lemmas that use it:

- `Auth.HashVerifies`: a hash verifies against its own password.
- `Auth.CodecRoundTrip`: a token signed with the process secret, over a claim set of the shape
  this program issues (`Auth.IssuedShape`: at most a string `sub` and an instant `exp`), decodes
  to its claims until its `exp` instant and is refused after.
- `Auth.RejectsForeignKey`: a token signed with another secret is refused.

Main results:

- Owner isolation. A user's reads depend only on that user's rows (`Crud.ReadsDependOnlyOnOwned`).
  Every write by one user leaves every other user's rows as they were (the `Owned` clauses of
  `Store.CreateTodo`, `Store.UpdateTodo`, `Store.DeleteTodo` and of the todo routes).
- Account uniqueness. Registration keeps usernames and emails unique across accounts
  (`Routes.Register`, `Routes.RegisterKeepsAccountsUnique`).
- Uniform refusals. Every refusal of the gate is the one 401 `Identity.CredentialsException`.
  Login refuses an unknown user and a wrong password with the same error.
- Token lifecycle. A login token admits exactly the user who logged in until it expires, and
  is refused after.

Token lifetime: a zero `timedelta` is falsy, so a zero lifetime is replaced by the 15-minute
default, and such a token is accepted for 15 minutes (`auth.py:41-44`; `Auth.ZeroLifetimeMeansDefault`,
`Routes.LoginLifetime`).

## Model

| member | source | states |
|---|---|---|
| `Schemas.UserCreateLooserThanUserBase` | schemas.py:7-21 | a two-character username is a valid registration payload but not a valid `UserBase`/`UserResponse`: the 3–50 bound sits only on the latter |
| `Schemas.ValidUserBase` | schemas.py:7-9 | the 3–50 username bound and email syntax; a valid `UserBase` is also a valid registration with any password |
| `Schemas.ValidUserCreate` | schemas.py:11-14 | only the email is checked: any username and any password are accepted with a valid email |
| `Schemas.ValidUserResponse` | schemas.py:17-21 | a renderable account meets the `UserBase` bounds, so its username has 3 to 50 characters |
| `Schemas.ValidTodoFields` | schemas.py:29-32 | the title is 1–100 characters and a description at most 500; such fields are also a valid update |
| `Schemas.ValidTodoCreate` | schemas.py:34-35 | a valid creation payload stores as a todo that `TodoResponse` can render, whatever its ids and instants |
| `Schemas.ValidTodoResponse` | schemas.py:42-48 | a renderable todo, sent back as a full update, is a valid update |
| `Schemas.ValidTodoUpdate` | schemas.py:37-40 | every field is optional: the empty update is valid, and so is an explicitly null description |
| `Schemas.SetFields` | crud.py:70 | the dumped fields are exactly the set ones: a field value appears iff the update set that field to it; an update that sets nothing dumps nothing |
| `Schemas.TodoCreateDefaults` | schemas.py:29-35 | a todo payload given only a title has no description and `completed == false` |
| `Auth.VerifyPassword` | auth.py:30-32 | defers to the hasher; under `HashVerifies`, a hash made from the password with any salt is accepted |
| `Auth.GetPasswordHash` | auth.py:34-36 | defers to the hasher; under `HashVerifies`, the hash verifies against the password it came from |
| `Auth.Truthy` | auth.py:41 | a lifetime is truthy iff it is present and non-zero |
| `Auth.Lifetime` | auth.py:41-44 | the issued lifetime is never zero: a truthy request is kept (even a negative one), otherwise 15 minutes |
| `Auth.AccessClaims` | auth.py:38-45 | the signed claims are `data` plus `exp`: same keys plus `exp`, every other entry unchanged; `exp = now + delta` for a non-zero delta, `now + 15 min` for none or zero |
| `Auth.CreateAccessToken` | auth.py:38-47 | under `CodecRoundTrip`, a token over claims of the issued shape with a non-negative lifetime decodes, when issued, to `data` plus `exp` |
| `Auth.VerifyToken` | auth.py:49-58 | yields a subject iff the token decodes and has a string `sub`, and then yields exactly that `sub`; every other case is `None` |
| `Auth.IssuedTokenDecodes` | auth.py:38-47 | under `CodecRoundTrip`, a token issued over `data` of the issued shape decodes to `data` plus `exp` until `now + lifetime`, and is refused after |
| `Auth.VerifyIssuedToken` | auth.py:38-58 | under `CodecRoundTrip`, a token issued for `sub` verifies to `sub` until it expires, then to `None` |
| `Auth.ZeroLifetimeMeansDefault` | auth.py:41-44 | a zero lifetime yields the same token as no lifetime, and that token still verifies 15 minutes later |
| `Auth.ForeignKeyTokenRejected` | auth.py:51-58 | under `RejectsForeignKey`, a token signed with another secret never yields a subject |
| `Crud.GetUser` | crud.py:9-11 | the result is a stored user with that id; `None` iff no stored user has it |
| `Crud.GetUserByEmail` | crud.py:13-15 | the result is a stored user with that email; `None` iff no stored user has it |
| `Crud.GetUserByUsername` | crud.py:17-19 | the result is a stored user with that username; `None` iff no stored user has it |
| `Crud.Owned` | crud.py:38-39 | the owner filter: a todo is in the result iff it is stored and its `userId` is the caller's |
| `Crud.GetTodos` | crud.py:36-40 | only stored todos of the caller; at most `limit`; the count is what is left after `skip`, capped by `limit`; element `k` is the caller's todo number `skip + k` in table order |
| `Crud.GetTodo` | crud.py:42-47 | a result is stored, has that id and belongs to the caller; `None` iff no stored todo matches both id and owner, so another user's todo gives `None` |
| `Crud.GetTodoSeesOnlyOwned` | crud.py:42-47 | the single-todo lookup answers the same on the whole table as on the caller's own rows |
| `Crud.ReadsDependOnlyOnOwned` | crud.py:36-47 | two tables that agree on a user's rows answer that user's list and get queries identically |
| `Crud.ApplyUpdate` | crud.py:68-72 | the merge: each set field takes its new value, each unset field and the id, owner and timestamps keep theirs; an empty update changes nothing |
| `Crud.ApplyFieldsIsMerge` | crud.py:70-72 | setting the dumped fields one by one, in order, is the merge |
| `Crud.ApplyUpdateIdempotent` | crud.py:68-72 | applying an update twice is applying it once |
| `Crud.ApplyUpdateKeepsValid` | schemas.py:29-40 | an update within the `TodoUpdate` bounds keeps a todo within the `TodoBase` bounds |
| `Crud.Store.CreateUser` | crud.py:21-32 | exactly one user is appended, with a fresh id, the payload's username and email, and the hash of the password; the todos table is unchanged |
| `Crud.Store.CreateTodo` | crud.py:49-55 | exactly one todo is appended, with a fresh id, the payload's fields and the caller as owner; other users' rows are unchanged |
| `Crud.Store.UpdateTodo` | crud.py:57-77 | on the caller's todo with that id: the set fields are assigned by the loop, the result is the merge, and only that row changes; with no such todo, `None` and nothing changes; other users' rows are unchanged |
| `Crud.Store.DeleteTodo` | crud.py:79-90 | true iff the caller owned a todo with that id; then exactly that row is removed; on false nothing changes; other users' rows are unchanged |
| `Identity.GetCurrentUser` | auth.py:60-81 | admits iff the token yields a non-empty subject and a user of exactly that name exists; the admitted user is stored and is named by the token; every refusal is the same 401 with the `Bearer` challenge |
| `Identity.AuthenticateUser` | auth.py:83-88 | returns the user iff one of that name exists and the password verifies against its stored hash; unknown user and wrong password both give `None` |
| `Identity.EmptyUsernameNeverAdmitted` | auth.py:72-74 | whatever the table holds, including an account with an empty username, the gate never admits an empty-named user |
| `Routes.Taken` | routes.py:29-32 | registration is refused iff some stored account has the payload's email or its username |
| `Routes.RegisterKeepsAccountsUnique` | routes.py:29-39 | adding an account whose username and email are both free keeps usernames and emails pairwise unique |
| `Routes.Register` | routes.py:25-39 | refuses with the one 400 "Username already taken" iff the email or the username is taken, changing nothing; otherwise appends exactly the new account; unique accounts stay unique |
| `Routes.LoginLifetime` | routes.py:54 | the login lifetime is the configured minutes in seconds, except that zero minutes gives the 15-minute default |
| `Routes.Login` | routes.py:42-58 | the 401 "Incorrect username or password" with the `Bearer` challenge iff authentication fails; otherwise a "bearer" token for `sub = username` with the configured lifetime |
| `Routes.LoginFailuresAlike` | routes.py:46-52 | an unknown username and a wrong password get the very same refusal |
| `Routes.RegisterThenAuthenticate` | routes.py:39-46 | under `HashVerifies`, a newly registered account authenticates with its own password |
| `Routes.LoginTokenAdmitsUser` | routes.py:54-58 | under `CodecRoundTrip`, the login token admits exactly the authenticated user until it expires, for a non-empty username |
| `Routes.LoginTokenExpires` | routes.py:54-57 | under `CodecRoundTrip`, the login token is refused with the gate's 401 once its lifetime has passed |
| `Routes.GetTodosRoute` | routes.py:62-71 | the gate's 401 iff the token is refused; otherwise exactly `get_todos` for the caller's id with the given `skip` and `limit`: only the caller's stored todos, at most `limit` |
| `Routes.GetTodosDefaults` | routes.py:66-67 | with `skip` and `limit` omitted: at most 100 todos, and all of the caller's when they own at most 100 |
| `Routes.GetTodoRoute` | routes.py:84-97 | the gate's 401 on a refused token; otherwise 404 "Todo not found" iff the caller owns no todo with that id, else that todo |
| `Routes.CreateTodoRoute` | routes.py:74-81 | the gate's 401 changes nothing; otherwise exactly one todo is appended, with a fresh id, the payload's title, description and completed, and the caller as owner; other users' rows are unchanged |
| `Routes.UpdateTodoRoute` | routes.py:100-116 | the gate's 401 changes nothing; otherwise 404 with nothing changed iff the caller owns no such todo, else the merged todo, stored in place of that row and nowhere else; other users' rows are unchanged |
| `Routes.DeleteTodoRoute` | routes.py:119-132 | the gate's 401 changes nothing; otherwise "Todo deleted successfully" iff the caller owned such a todo, and exactly that row is removed; else 404 with nothing changed; other users' rows are unchanged |

## Left out

- Application start-up in `main.py` is not modelled: app construction, CORS middleware, table creation, the root and health endpoints, and the server run.
- Argon2 hashing and JWT signing and decoding are foreign code. They are the function fields of `Auth.Crypto`. Their salt randomness, signature soundness and constant-time comparison are not modelled. Their properties enter only as the named assumptions.
- Expiry enforcement happens inside the token library. It is captured only by the assumption `Auth.CodecRoundTrip` (no leeway). Instants are whole seconds; sub-second precision is dropped.
- The library's refusal of a non-string `sub` is modelled as the `None` branch of `Auth.VerifyToken`.
- Database sessions (`add`, `commit`, `refresh`), transactions, `database.get_db` and database-level unique constraints are not modelled. `models.py` is not part of this model: the record fields follow the response schemas.
- Ids come from per-table counters, which stand in for auto-increment. Creation instants are passed in.
- Crud.Store.UpdateTodo: does not refresh `updated_at`. That refresh would come from column settings in `models.py`, which is not part of this model.
- Crud.Store.UpdateTodo: an explicit JSON `null` for `title` or `completed` is not modelled. It passes validation, and its effect depends on column nullability in `models.py`. An explicit `null` description is modelled.
- Crud.GetTodos: `skip` and `limit` are natural numbers. The meaning of negative values depends on the database dialect, which is not part of this model.
- Email syntax checking is the opaque predicate `isEmail`. Its address normalisation is not modelled.
- Request validation (the 422 for a payload outside the schema bounds) happens in the framework before a handler runs. The bounds are stated as predicates and used in the lemmas, not as a route outcome.
- Response-model validation is not modelled. Because `UserCreate` has no username bound, a registration with a username under 3 characters stores the account, yet its `UserResponse` fails validation (`Schemas.UserCreateLooserThanUserBase`).
- Bearer-header extraction by `OAuth2PasswordBearer` is not modelled. A missing header is refused by the framework with its own 401 before `get_current_user` runs.
- Dependency injection, async execution and HTTP rendering are not modelled: outcomes are values.
- The schemas `UserLogin` and `TokenData` are not used by the modelled routes and are not modelled.
- Configuration (`SECRET_KEY`, `ALGORITHM`, `ACCESS_TOKEN_EXPIRE_MINUTES`) is the value `Auth.Config`, passed in.
