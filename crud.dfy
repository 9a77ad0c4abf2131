/** The record store: the `users` and `todos` tables and the operations on them.

    A query `filter(...).first()` is the first matching row in table order; the
    `get_*` lookups are functions over a table's rows. The operations that add, change
    or remove rows are methods of `Store`, which holds both tables and changes them in
    place. Row ids come from per-table counters, standing in for the database's
    auto-increment; creation instants are passed in. No uniqueness of usernames or
    emails is assumed of the store itself. */
module Crud {
  import opened Common
  import opened Models
  import opened Schemas
  import Auth

  // ---------------------------------------------------------------- queries

  /** The position of the first row satisfying `p`, if any. */
  function FirstIndex<T>(rows: seq<T>, p: T -> bool): (r: Option<nat>)
    ensures r.Some? ==> r.value < |rows| && p(rows[r.value])
    ensures r.Some? ==> forall j :: 0 <= j < r.value ==> !p(rows[j])
    ensures r.None? ==> forall j :: 0 <= j < |rows| ==> !p(rows[j])
  {
    if |rows| == 0 then None
    else if p(rows[0]) then Some(0)
    else match FirstIndex(rows[1..], p)
      case None => None
      case Some(i) => Some(i + 1)
  }

  /** `get_user`: the user with that id. */
  function GetUser(users: seq<User>, userId: int): (r: Option<User>)
    ensures r.Some? ==> r.value in users && r.value.id == userId
    ensures r.None? <==> forall u :: u in users ==> u.id != userId
  {
    match FirstIndex(users, (u: User) => u.id == userId)
    case None => None
    case Some(i) => Some(users[i])
  }

  /** `get_user_by_email`: the first user with exactly that email. */
  function GetUserByEmail(users: seq<User>, email: string): (r: Option<User>)
    ensures r.Some? ==> r.value in users && r.value.email == email
    ensures r.None? <==> forall u :: u in users ==> u.email != email
  {
    match FirstIndex(users, (u: User) => u.email == email)
    case None => None
    case Some(i) => Some(users[i])
  }

  /** `get_user_by_username`: the first user with exactly that username. */
  function GetUserByUsername(users: seq<User>, username: string): (r: Option<User>)
    ensures r.Some? ==> r.value in users && r.value.username == username
    ensures r.None? <==> forall u :: u in users ==> u.username != username
  {
    match FirstIndex(users, (u: User) => u.username == username)
    case None => None
    case Some(i) => Some(users[i])
  }

  /** The todos owned by `userId`, in table order. */
  function Owned(todos: seq<Todo>, userId: int): (r: seq<Todo>)
    ensures |r| <= |todos|
    ensures forall t :: t in r <==> t in todos && t.userId == userId
  {
    if |todos| == 0 then []
    else (if todos[0].userId == userId then [todos[0]] else []) + Owned(todos[1..], userId)
  }

  /** `get_todos`: the caller's todos after skipping `skip` of them, at most `limit`. */
  function GetTodos(todos: seq<Todo>, userId: int, skip: nat, limit: nat): (r: seq<Todo>)
    ensures forall t :: t in r ==> t in todos && t.userId == userId
    ensures |r| <= limit
    ensures |r| == if skip >= |Owned(todos, userId)| then 0
                   else if |Owned(todos, userId)| - skip <= limit then |Owned(todos, userId)| - skip
                   else limit
    ensures forall k :: 0 <= k < |r| ==> skip + k < |Owned(todos, userId)| && r[k] == Owned(todos, userId)[skip + k]
  {
    var mine := Owned(todos, userId);
    if skip >= |mine| then []
    else mine[skip..if skip + limit <= |mine| then skip + limit else |mine|]
  }

  /** The position of the first todo with that id that `userId` owns. */
  function TodoIndex(todos: seq<Todo>, todoId: int, userId: int): (r: Option<nat>)
  {
    FirstIndex(todos, (t: Todo) => t.id == todoId && t.userId == userId)
  }

  /** `get_todo`: a todo with that id, only if `userId` owns it. */
  function GetTodo(todos: seq<Todo>, todoId: int, userId: int): (r: Option<Todo>)
    ensures r.Some? ==> r.value in todos && r.value.id == todoId && r.value.userId == userId
    ensures r.None? <==> forall t :: t in todos ==> !(t.id == todoId && t.userId == userId)
  {
    match TodoIndex(todos, todoId, userId)
    case None => None
    case Some(i) => Some(todos[i])
  }

  // ---------------------------------------------------------------- partial update

  /** `setattr(db_todo, field, value)` for one set field. */
  function ApplyField(t: Todo, f: Field): Todo
  {
    match f
    case TitleField(s) => t.(title := s)
    case DescriptionField(d) => t.(description := d)
    case CompletedField(c) => t.(completed := c)
  }

  /** The fields applied one after the other, in order. */
  function ApplyFields(t: Todo, fs: seq<Field>): Todo
  {
    if fs == [] then t else ApplyField(ApplyFields(t, fs[..|fs| - 1]), fs[|fs| - 1])
  }

  /** The merge a partial update means: a set field replaces the stored one; an unset
      field, and every field the update does not name, is kept. */
  function ApplyUpdate(t: Todo, u: TodoUpdate): (r: Todo)
    ensures r.id == t.id && r.userId == t.userId
    ensures r.createdAt == t.createdAt && r.updatedAt == t.updatedAt
    ensures u.title.Set? ==> r.title == u.title.value
    ensures u.description.Set? ==> r.description == u.description.value
    ensures u.completed.Set? ==> r.completed == u.completed.value
    ensures u.title.Unset? ==> r.title == t.title
    ensures u.description.Unset? ==> r.description == t.description
    ensures u.completed.Unset? ==> r.completed == t.completed
    ensures u == TodoUpdate() ==> r == t
  {
    Todo(t.id,
         if u.title.Set? then u.title.value else t.title,
         if u.description.Set? then u.description.value else t.description,
         if u.completed.Set? then u.completed.value else t.completed,
         t.userId, t.createdAt, t.updatedAt)
  }

  /** Setting the dumped fields one by one is the merge. */
  lemma {:induction false} ApplyFieldsIsMerge(t: Todo, u: TodoUpdate)
    ensures ApplyFields(t, SetFields(u)) == ApplyUpdate(t, u)
  {
    var a := if u.title.Set? then [TitleField(u.title.value)] else [];
    var b := if u.description.Set? then [DescriptionField(u.description.value)] else [];
    var c := if u.completed.Set? then [CompletedField(u.completed.value)] else [];
    assert SetFields(u) == a + b + c;
    ApplyFieldsAppend(t, a + b, c);
    ApplyFieldsAppend(t, a, b);
    var t1 := ApplyFields(t, a);
    assert t1 == if u.title.Set? then t.(title := u.title.value) else t by {
      ApplyFieldsAtMostOne(t, a);
    }
    var t2 := ApplyFields(t1, b);
    assert t2 == if u.description.Set? then t1.(description := u.description.value) else t1 by {
      ApplyFieldsAtMostOne(t1, b);
    }
    var t3 := ApplyFields(t2, c);
    assert t3 == if u.completed.Set? then t2.(completed := u.completed.value) else t2 by {
      ApplyFieldsAtMostOne(t2, c);
    }
  }

  lemma ApplyFieldsAtMostOne(t: Todo, fs: seq<Field>)
    requires |fs| <= 1
    ensures ApplyFields(t, fs) == if fs == [] then t else ApplyField(t, fs[0])
  {
  }

  lemma {:induction false} ApplyFieldsAppend(t: Todo, xs: seq<Field>, ys: seq<Field>)
    ensures ApplyFields(t, xs + ys) == ApplyFields(ApplyFields(t, xs), ys)
    decreases |ys|
  {
    if ys == [] {
      assert xs + ys == xs;
    } else {
      var n := |ys| - 1;
      assert (xs + ys)[..|xs + ys| - 1] == xs + ys[..n];
      assert (xs + ys)[|xs + ys| - 1] == ys[n];
      ApplyFieldsAppend(t, xs, ys[..n]);
    }
  }

  /** Applying the same update twice is applying it once. */
  lemma ApplyUpdateIdempotent(t: Todo, u: TodoUpdate)
    ensures ApplyUpdate(ApplyUpdate(t, u), u) == ApplyUpdate(t, u)
  {
  }

  /** A valid update keeps a renderable todo renderable. */
  lemma ApplyUpdateKeepsValid(t: Todo, u: TodoUpdate)
    requires ValidTodoResponse(t) && ValidTodoUpdate(u)
    ensures ValidTodoResponse(ApplyUpdate(t, u))
  {
  }

  // ---------------------------------------------------------------- owner isolation

  lemma {:induction false} OwnedAppend(a: seq<Todo>, b: seq<Todo>, userId: int)
    ensures Owned(a + b, userId) == Owned(a, userId) + Owned(b, userId)
  {
    if a == [] {
      assert a + b == b;
    } else {
      assert (a + b)[1..] == a[1..] + b;
      OwnedAppend(a[1..], b, userId);
    }
  }

  /** Replacing a row that `userId` neither owned nor gets leaves `userId`'s todos as they were. */
  lemma OwnedReplaceOther(todos: seq<Todo>, i: nat, t: Todo, userId: int)
    requires i < |todos| && todos[i].userId != userId && t.userId != userId
    ensures Owned(todos[i := t], userId) == Owned(todos, userId)
  {
    assert todos == todos[..i] + [todos[i]] + todos[i + 1..];
    assert todos[i := t] == todos[..i] + [t] + todos[i + 1..];
    OwnedAppend(todos[..i] + [todos[i]], todos[i + 1..], userId);
    OwnedAppend(todos[..i], [todos[i]], userId);
    OwnedAppend(todos[..i] + [t], todos[i + 1..], userId);
    OwnedAppend(todos[..i], [t], userId);
  }

  /** Removing a row that `userId` does not own leaves `userId`'s todos as they were. */
  lemma OwnedRemoveOther(todos: seq<Todo>, i: nat, userId: int)
    requires i < |todos| && todos[i].userId != userId
    ensures Owned(todos[..i] + todos[i + 1..], userId) == Owned(todos, userId)
  {
    var left, right := todos[..i], todos[i + 1..];
    assert todos == left + [todos[i]] + right;
    OwnedAppend(left + [todos[i]], right, userId);
    OwnedAppend(left, [todos[i]], userId);
    OwnedSingleton(todos[i], userId);
    assert Owned(left + [todos[i]], userId) == Owned(left, userId);
    OwnedAppend(left, right, userId);
  }

  lemma OwnedSingleton(t: Todo, userId: int)
    ensures Owned([t], userId) == if t.userId == userId then [t] else []
  {
  }

  /** Appending another user's row leaves `userId`'s todos as they were. */
  lemma OwnedAppendOther(todos: seq<Todo>, t: Todo, userId: int)
    requires t.userId != userId
    ensures Owned(todos + [t], userId) == Owned(todos, userId)
  {
    OwnedAppend(todos, [t], userId);
  }

  /** A user's single-todo lookup sees only that user's rows. */
  lemma {:induction false} GetTodoSeesOnlyOwned(todos: seq<Todo>, todoId: int, userId: int)
    ensures GetTodo(todos, todoId, userId) == GetTodo(Owned(todos, userId), todoId, userId)
  {
    if todos != [] {
      GetTodoSeesOnlyOwned(todos[1..], todoId, userId);
      var head := if todos[0].userId == userId then [todos[0]] else [];
      assert Owned(todos, userId) == head + Owned(todos[1..], userId);
      if head != [] {
        assert Owned(todos, userId)[1..] == Owned(todos[1..], userId);
      } else {
        assert Owned(todos, userId) == Owned(todos[1..], userId);
      }
    }
  }

  /** Everything a user can read of the todo table is fixed by that user's own rows: two
      tables that agree on them answer that user's queries identically. */
  lemma ReadsDependOnlyOnOwned(a: seq<Todo>, b: seq<Todo>, userId: int, todoId: int, skip: nat, limit: nat)
    requires Owned(a, userId) == Owned(b, userId)
    ensures GetTodos(a, userId, skip, limit) == GetTodos(b, userId, skip, limit)
    ensures GetTodo(a, todoId, userId) == GetTodo(b, todoId, userId)
  {
    GetTodoSeesOnlyOwned(a, todoId, userId);
    GetTodoSeesOnlyOwned(b, todoId, userId);
  }

  // ---------------------------------------------------------------- the store

  /** Both tables, with the next id each will hand out. */
  class Store {
    var users: seq<User>
    var todos: seq<Todo>
    var nextUserId: int
    var nextTodoId: int

    /** Ids are positive, unique within their table, and below the next id to hand out. */
    ghost predicate Valid()
      reads this
    {
      && 1 <= nextUserId && 1 <= nextTodoId
      && (forall i :: 0 <= i < |users| ==> 1 <= users[i].id < nextUserId)
      && (forall i, j :: 0 <= i < j < |users| ==> users[i].id != users[j].id)
      && (forall i :: 0 <= i < |todos| ==> 1 <= todos[i].id < nextTodoId)
      && (forall i, j :: 0 <= i < j < |todos| ==> todos[i].id != todos[j].id)
    }

    constructor ()
      ensures Valid() && users == [] && todos == []
    {
      users, todos := [], [];
      nextUserId, nextTodoId := 1, 1;
    }

    /** `create_user`: stores one new user holding the hash of the password, never the
        password itself, with username and email copied from the payload. */
    method CreateUser(user: UserCreate, salt: nat, now: int, crypto: Auth.Crypto) returns (u: User)
      requires Valid()
      modifies this
      ensures Valid()
      ensures users == old(users) + [u] && todos == old(todos) && nextTodoId == old(nextTodoId)
      ensures u.username == user.username && u.email == user.email && u.createdAt == now
      ensures u.hashedPassword == Auth.GetPasswordHash(crypto, user.password, salt)
      ensures forall v :: v in old(users) ==> v.id != u.id
    {
      var hashedPassword := Auth.GetPasswordHash(crypto, user.password, salt);
      u := User(nextUserId, user.username, user.email, hashedPassword, now);
      users := users + [u];
      nextUserId := nextUserId + 1;
    }

    /** `create_todo`: stores one new todo with the payload's fields, owned by `userId`. */
    method CreateTodo(todo: TodoCreate, userId: int, now: int) returns (t: Todo)
      requires Valid()
      modifies this
      ensures Valid()
      ensures todos == old(todos) + [t] && users == old(users) && nextUserId == old(nextUserId)
      ensures t.title == todo.title && t.description == todo.description && t.completed == todo.completed
      ensures t.userId == userId && t.createdAt == now && t.updatedAt == now
      ensures forall v :: v in old(todos) ==> v.id != t.id
      ensures ValidTodoCreate(todo) ==> ValidTodoResponse(t)
      ensures forall v :: v != userId ==> Owned(todos, v) == Owned(old(todos), v)
    {
      t := Todo(nextTodoId, todo.title, todo.description, todo.completed, userId, now, now);
      forall v | v != userId
        ensures Owned(todos + [t], v) == Owned(todos, v)
      {
        OwnedAppendOther(todos, t, v);
      }
      todos := todos + [t];
      nextTodoId := nextTodoId + 1;
    }

    /** `update_todo`: on the first todo with that id that `userId` owns, sets the fields
        the update set, one by one, and returns it; otherwise returns `None`. */
    method UpdateTodo(todoId: int, update: TodoUpdate, userId: int) returns (r: Option<Todo>)
      requires Valid()
      modifies this
      ensures Valid()
      ensures users == old(users) && nextUserId == old(nextUserId) && nextTodoId == old(nextTodoId)
      ensures r.None? <==> GetTodo(old(todos), todoId, userId).None?
      ensures r.None? ==> todos == old(todos)
      ensures r.Some? ==>
        var i := TodoIndex(old(todos), todoId, userId).value;
        r.value == ApplyUpdate(old(todos)[i], update) && todos == old(todos)[i := r.value]
      ensures r.Some? ==> r.value.id == todoId && r.value.userId == userId
      ensures forall v :: v != userId ==> Owned(todos, v) == Owned(old(todos), v)
    {
      var found := TodoIndex(todos, todoId, userId);
      if found.None? {
        return None;
      }
      var i := found.value;
      var record := todos[i];
      var fields := SetFields(update);
      var k := 0;
      while k < |fields|
        invariant 0 <= k <= |fields|
        invariant record == ApplyFields(todos[i], fields[..k])
      {
        assert fields[..k + 1][..k] == fields[..k];
        record := ApplyField(record, fields[k]);
        k := k + 1;
      }
      assert fields[..k] == fields;
      ApplyFieldsIsMerge(todos[i], update);
      forall v | v != userId
        ensures Owned(todos[i := record], v) == Owned(todos, v)
      {
        OwnedReplaceOther(todos, i, record, v);
      }
      todos := todos[i := record];
      r := Some(record);
    }

    /** `delete_todo`: removes the first todo with that id that `userId` owns and reports
        whether there was one. */
    method DeleteTodo(todoId: int, userId: int) returns (deleted: bool)
      requires Valid()
      modifies this
      ensures Valid()
      ensures users == old(users) && nextUserId == old(nextUserId) && nextTodoId == old(nextTodoId)
      ensures deleted <==> GetTodo(old(todos), todoId, userId).Some?
      ensures !deleted ==> todos == old(todos)
      ensures deleted ==>
        var i := TodoIndex(old(todos), todoId, userId).value;
        todos == old(todos)[..i] + old(todos)[i + 1..]
      ensures deleted ==> |todos| == |old(todos)| - 1 && GetTodo(todos, todoId, userId).None?
      ensures forall v :: v != userId ==> Owned(todos, v) == Owned(old(todos), v)
    {
      var found := TodoIndex(todos, todoId, userId);
      if found.None? {
        return false;
      }
      var i := found.value;
      forall v | v != userId
        ensures Owned(todos[..i] + todos[i + 1..], v) == Owned(todos, v)
      {
        OwnedRemoveOther(todos, i, v);
      }
      var rest := todos[..i] + todos[i + 1..];
      forall t | t in rest
        ensures t.id != todoId
      {
        var j :| 0 <= j < |rest| && rest[j] == t;
        if j < i {
          assert t == todos[j];
        } else {
          assert t == todos[j + 1];
        }
      }
      todos := rest;
      deleted := true;
    }
  }
}
