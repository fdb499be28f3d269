/** What a handler or middleware produces: an HTTP response (status and JSON body), or for a
    middleware, passing control on with the value it attached to the request. */
module Http {
  import Json
  import TodoModel

  /** The public view of a user: id, username and email, with no room for the password hash. */
  datatype UserView = UserView(id: string, username: string, email: string)

  /** The JSON bodies the core sends. */
  datatype Body =
    | Message(message: string)                     // { message }
    | Error(error: string)                         // { error }
    | FieldErrors(errors: Json.Object<string>)     // { errors: { field: message } }
    | ErrorList(messages: seq<string>)             // { errors: [message] }
    | Registered(user: UserView)                   // { user }
    | LoggedIn(token: string, user: UserView)      // { token, user }
    | TodoRecord(todo: TodoModel.Todo)             // the todo itself
    | TodoList(todos: seq<TodoModel.Todo>)         // an array of todos
    | NoContent                                    // empty body

  datatype Response = Response(status: nat, body: Body)

  /** A middleware's decision: call `next` with what it attached to the request, answer the
      request itself, or throw a JavaScript `TypeError` (which Express turns into a 500). */
  datatype Outcome<+T> = Next(value: T) | Respond(response: Response) | TypeError
}
