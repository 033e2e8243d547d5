/** The rows of the Kanban tables, the session and the uniform action result. */
module Types {

  /** Database identifiers (cuids) are opaque strings. */
  type Id = string

  datatype Option<T> = None | Some(value: T)

  /** A Board row of the database. */
  datatype Board = Board(id: Id, userId: Id, title: string, order: int)

  /** A Task row of the database. */
  datatype Task = Task(id: Id, boardId: Id, userId: Id, description: string, order: int)

  /** A User row of the database. */
  datatype User = User(id: Id, fullName: string, email: string, provider: string, photoUrl: Option<string>)

  /** A user without its id, as an identity provider reports it. */
  datatype CreateUserDto = CreateUserDto(fullName: string, email: string, provider: string, photoUrl: Option<string>)

  /** The translated error messages, as abstract tags. `Invalid` stands for any schema error. */
  datatype Error = UserNotFound | Invalid | BoardNotFound | TaskNotFound

  /** `{ success: true }` or `{ success: false, message }`. */
  datatype ActionResult = Success | Failure(error: Error)
}
