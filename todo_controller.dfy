/** The todo handlers: create for the signed-in user, delete and update by the owner only, and
    search with filters taken from the query string. `userId` is what the auth guard attached to
    the request (`None` when nothing was attached). */
module TodoController {
  import opened Wrappers
  import opened Http
  import opened TodoModel
  import Json

  const Unauthorized: string := "Unauthorized"
  const TodoNotFound: string := "Todo not found"
  const OnlyCreatorDeletes: string := "Unauthorized, only creator can delete todo"
  const OnlyCreatorUpdates: string := "Unauthorized, only creator can update todo"
  const TodoUpdated: string := "Todo updated successfully"

  /** `!ownerId` is false: a user id is attached and it is not the empty string. */
  predicate SignedIn(userId: Option<string>) {
    userId.Some? && userId.value != ""
  }

  /** `ownerId !== todo.ownerId` is false: the attached user id is the todo's owner. */
  predicate IsOwner(userId: Option<string>, t: Todo) {
    userId == Some(t.ownerId)
  }

  /** `createTodo`: 401 without a signed-in user; otherwise one new todo owned by that user is
      appended and returned with 201. */
  method CreateTodo(store: TodoStore, userId: Option<string>, title: string, description: string,
                    category: string, freshId: string, now: int) returns (resp: Response)
    modifies store
    ensures !SignedIn(userId) ==>
      resp == Response(401, Message(Unauthorized)) && store.todos == old(store.todos)
    ensures SignedIn(userId) ==>
      var t := Todo(freshId, title, description, category, false, userId.value, now, now);
      store.todos == old(store.todos) + [t] && resp == Response(201, TodoRecord(t))
  {
    if !SignedIn(userId) {
      return Response(401, Message(Unauthorized));
    }
    var todo := store.Create(TodoCreate(userId.value, title, description, category), freshId, now);
    resp := Response(201, TodoRecord(todo));
  }

  /** `deleteTodo`: 404 for an unknown id, 403 unless the first todo with that id belongs to the
      user, both leaving the store alone; otherwise every todo with that id is removed and the
      answer is 204 with no body. */
  method DeleteTodo(store: TodoStore, id: string, userId: Option<string>) returns (resp: Response)
    modifies store
    ensures old(FindById(store.todos, id)).None? ==>
      resp == Response(404, Message(TodoNotFound)) && store.todos == old(store.todos)
    ensures old(FindById(store.todos, id)).Some? && !IsOwner(userId, old(FindById(store.todos, id)).value) ==>
      resp == Response(403, Message(OnlyCreatorDeletes)) && store.todos == old(store.todos)
    ensures old(FindById(store.todos, id)).Some? && IsOwner(userId, old(FindById(store.todos, id)).value) ==>
      resp == Response(204, NoContent) && store.todos == WithoutId(old(store.todos), id)
  {
    var todo := FindById(store.todos, id);
    if todo.None? {
      return Response(404, Message(TodoNotFound));
    }
    if !IsOwner(userId, todo.value) {
      return Response(403, Message(OnlyCreatorDeletes));
    }
    var _ := store.Delete(id);
    resp := Response(204, NoContent);
  }

  /** `updateTodo`: 404 for an unknown id and 403 for a non-owner, both leaving the store alone;
      otherwise the validated update is merged into the first todo with that id (an empty
      update changes nothing) and the answer is 200 with a fixed message. */
  method UpdateTodo(store: TodoStore, id: string, userId: Option<string>, updates: TodoUpdate, now: int)
    returns (resp: Response)
    modifies store
    ensures old(FindById(store.todos, id)).None? ==>
      resp == Response(404, Message(TodoNotFound)) && store.todos == old(store.todos)
    ensures old(FindById(store.todos, id)).Some? && !IsOwner(userId, old(FindById(store.todos, id)).value) ==>
      resp == Response(403, Message(OnlyCreatorUpdates)) && store.todos == old(store.todos)
    ensures old(FindById(store.todos, id)).Some? && IsOwner(userId, old(FindById(store.todos, id)).value) ==>
      var i := old(IndexOfId(store.todos, id)).value;
      && resp == Response(200, Message(TodoUpdated))
      && store.todos == if updates.IsEmpty() then old(store.todos)
                        else old(store.todos)[i := Merge(old(store.todos)[i], updates, now)]
  {
    var todo := FindById(store.todos, id);
    if todo.None? {
      return Response(404, Message(TodoNotFound));
    }
    if !IsOwner(userId, todo.value) {
      return Response(403, Message(OnlyCreatorUpdates));
    }
    var _ := store.Update(id, updates, now);
    resp := Response(200, Message(TodoUpdated));
  }

  /** The `completed` query parameter: exactly "true" and "false" give a criterion; a missing
      parameter and any other text give none. */
  function ParseCompleted(param: Option<string>): (r: Option<bool>)
    ensures r == Some(true) <==> param == Some("true")
    ensures r == Some(false) <==> param == Some("false")
  {
    match param
    case None => None
    case Some(p) => if p == "true" then Some(true) else if p == "false" then Some(false) else None
  }

  /** The filter object `searchTodos` builds from the query string: the text criteria are the
      parameters as given, and `completed` is set exactly for the texts "true" and "false". */
  function QueryFilters(query: Json.Object<string>): (f: Filters)
    ensures f.title == Json.Get(query, "title") && f.description == Json.Get(query, "description")
    ensures f.category == Json.Get(query, "category") && f.ownerId == Json.Get(query, "ownerId")
    ensures f.completed.Some? <==> Json.Get(query, "completed") == Some("true") || Json.Get(query, "completed") == Some("false")
    ensures f.completed.Some? ==> Json.Get(query, "completed") == Some(if f.completed.value then "true" else "false")
  {
    Filters(Json.Get(query, "title"), Json.Get(query, "description"), Json.Get(query, "category"),
            ParseCompleted(Json.Get(query, "completed")), Json.Get(query, "ownerId"))
  }

  /** `searchTodos`: always 200, listing in store order exactly the todos that satisfy every
      criterion the query supplies. The store is only read. */
  function SearchTodos(store: TodoStore, query: Json.Object<string>): (r: Response)
    reads store
    ensures r.status == 200 && r.body.TodoList?
    ensures forall t :: t in r.body.todos <==> t in store.todos && Matches(Some(QueryFilters(query)), t)
    ensures Seqs.IsSubsequence(r.body.todos, store.todos)
    ensures r.body.todos == Seqs.Filter(store.todos, Matching(Some(QueryFilters(query))))
  {
    Response(200, TodoList(FindAllTodos(store.todos, Some(QueryFilters(query)))))
  }
}
