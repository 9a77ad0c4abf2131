/** The two persistent records. Their field sets follow what the response schemas expose
    (`UserResponse`, `TodoResponse`) plus the stored password hash; instants are whole
    seconds since the epoch. */
module Models {
  import opened Common

  /** One registered account; `hashedPassword` is whatever the password hasher produced. */
  datatype User = User(
    id: int,
    username: string,
    email: string,
    hashedPassword: string,
    createdAt: int)

  /** One to-do item, owned by the user whose id is `userId`. */
  datatype Todo = Todo(
    id: int,
    title: string,
    description: Option<string>,
    completed: bool,
    userId: int,
    createdAt: int,
    updatedAt: int)
}
