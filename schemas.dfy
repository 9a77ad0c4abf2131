/** Request and response payloads and their declarative field bounds. A payload that
    breaks a bound is refused with a validation error before any handler runs, so the
    bounds are stated here as validity predicates over the payload values. Email syntax
    is checked by an outside library and enters as the opaque predicate `isEmail`. */
module Schemas {
  import opened Common
  import opened Models

  const UsernameMinLength: nat := 3
  const UsernameMaxLength: nat := 50
  const TitleMinLength: nat := 1
  const TitleMaxLength: nat := 100
  const DescriptionMaxLength: nat := 500

  // ---------------------------------------------------------------- users

  /** `UserBase`: a username and an email address. */
  datatype UserBase = UserBase(username: string, email: string)

  /** `UserCreate`: the registration payload. Note: it does NOT extend `UserBase`. */
  datatype UserCreate = UserCreate(username: string, email: string, password: string)

  /** `UserResponse`: what registration returns; it extends `UserBase`. */
  datatype UserResponse = UserResponse(id: int, username: string, email: string, createdAt: int)

  /** A valid `UserBase` also makes a valid registration, whatever the password. */
  function ValidUserBase(u: UserBase, isEmail: string -> bool): (b: bool)
    ensures b ==> forall password :: ValidUserCreate(UserCreate(u.username, u.email, password), isEmail)
  {
    UsernameMinLength <= |u.username| <= UsernameMaxLength && isEmail(u.email)
  }

  /** Only the email is constrained: no bound on username or password length. */
  function ValidUserCreate(u: UserCreate, isEmail: string -> bool): (b: bool)
    ensures isEmail(u.email) ==> b
  {
    isEmail(u.email)
  }

  /** The response bounds are those of `UserBase`: a renderable account has a username of
      3 to 50 characters. */
  function ValidUserResponse(u: UserResponse, isEmail: string -> bool): (b: bool)
    ensures b ==> 3 <= |u.username| <= 50 && isEmail(u.email)
    ensures b <==> ValidUserBase(UserBase(u.username, u.email), isEmail)
  {
    ValidUserBase(UserBase(u.username, u.email), isEmail)
  }

  /** The username bound of `UserBase` is not part of `UserCreate`: a two-character
      username is an acceptable registration payload, yet not an acceptable `UserBase`. */
  lemma UserCreateLooserThanUserBase(isEmail: string -> bool, email: string)
    requires isEmail(email)
    ensures ValidUserCreate(UserCreate("ab", email, ""), isEmail)
    ensures !ValidUserBase(UserBase("ab", email), isEmail)
    ensures !ValidUserResponse(UserResponse(0, "ab", email, 0), isEmail)
  {
  }

  // ---------------------------------------------------------------- todos

  /** `TodoBase`/`TodoCreate`: description and completed may be omitted. */
  datatype TodoCreate = TodoCreate(
    title: string,
    description: Option<string> := None,
    completed: bool := false)

  /** The bounds that `TodoBase` places on a title and a description. */
  function ValidTodoFields(title: string, description: Option<string>): (b: bool)
    ensures b ==> title != []
    ensures b ==> ValidTodoUpdate(TodoUpdate(Set(title), Set(description), Unset))
  {
    && TitleMinLength <= |title| <= TitleMaxLength
    && (description.Some? ==> |description.value| <= DescriptionMaxLength)
  }

  /** A valid creation payload stores as a renderable todo, whatever ids and instants it gets. */
  function ValidTodoCreate(t: TodoCreate): (b: bool)
    ensures b ==> forall id, userId, at ::
      ValidTodoResponse(Todo(id, t.title, t.description, t.completed, userId, at, at))
  {
    ValidTodoFields(t.title, t.description)
  }

  /** `TodoResponse` extends `TodoBase`, so a stored todo is rendered only if its
      title and description meet the same bounds. */
  function ValidTodoResponse(t: Todo): (b: bool)
    ensures b ==> ValidTodoUpdate(TodoUpdate(Set(t.title), Set(t.description), Set(t.completed)))
  {
    ValidTodoFields(t.title, t.description)
  }

  /** A field of a partial update: either left unset by the client, or set to a value. */
  datatype Patch<+T> = Unset | Set(value: T)

  /** `TodoUpdate`: every field optional; a description may be explicitly set to null. */
  datatype TodoUpdate = TodoUpdate(
    title: Patch<string> := Unset,
    description: Patch<Option<string>> := Unset,
    completed: Patch<bool> := Unset)

  /** Every field is optional: the empty update is valid. An explicitly null description
      is valid as well. */
  function ValidTodoUpdate(u: TodoUpdate): (b: bool)
    ensures u == TodoUpdate() ==> b
    ensures u.title.Unset? && u.description == Set(None) ==> b
  {
    && (u.title.Set? ==> TitleMinLength <= |u.title.value| <= TitleMaxLength)
    && (u.description.Set? && u.description.value.Some? ==>
          |u.description.value.value| <= DescriptionMaxLength)
  }

  /** One entry of `model_dump(exclude_unset=True)`: a field name with its value. */
  datatype Field =
    | TitleField(title: string)
    | DescriptionField(description: Option<string>)
    | CompletedField(completed: bool)

  /** The fields the client set, in declaration order. */
  function SetFields(u: TodoUpdate): (fs: seq<Field>)
    ensures |fs| <= 3
    ensures forall s :: TitleField(s) in fs <==> u.title == Set(s)
    ensures forall d :: DescriptionField(d) in fs <==> u.description == Set(d)
    ensures forall c :: CompletedField(c) in fs <==> u.completed == Set(c)
    ensures u == TodoUpdate() <==> fs == []
  {
    (if u.title.Set? then [TitleField(u.title.value)] else [])
    + (if u.description.Set? then [DescriptionField(u.description.value)] else [])
    + (if u.completed.Set? then [CompletedField(u.completed.value)] else [])
  }

  /** Creating from only a title yields no description and `completed == false`. */
  lemma TodoCreateDefaults(title: string)
    ensures TodoCreate(title).description == None
    ensures !TodoCreate(title).completed
  {
  }

  // ---------------------------------------------------------------- tokens

  const BearerTokenType: string := "bearer"

  /** `Token`: the login response carries exactly these two fields. */
  datatype Token = Token(accessToken: string, tokenType: string)

  /** `Message`: a plain confirmation. */
  datatype Message = Message(message: string)
}
