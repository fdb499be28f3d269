/** The in-memory todo repository: its records, the first-match lookup by id, the filtered query,
    and the store whose array is appended to, merged into and filtered by the mutators.
    Identifiers come from a uuid generator and timestamps from the clock; both enter as parameters. */
module TodoModel {
  import opened Wrappers
  import opened Seqs
  import Text

  /** A todo item; timestamps are clock readings in milliseconds. */
  datatype Todo = Todo(
    id: string,
    title: string,
    description: string,
    category: string,
    completed: bool,
    ownerId: string,
    createdAt: int,
    updatedAt: int)

  /** The data a todo is created from. */
  datatype TodoCreate = TodoCreate(ownerId: string, title: string, description: string, category: string)

  /** A partial update: `None` for a key the update object does not have. */
  datatype TodoUpdate = TodoUpdate(
    title: Option<string>,
    description: Option<string>,
    category: Option<string>,
    completed: Option<bool>)
  {
    /** The update object has no keys at all. */
    predicate IsEmpty() {
      title.None? && description.None? && category.None? && completed.None?
    }
  }

  /** Optional query criteria: `None` for a key the filter object does not have. */
  datatype Filters = Filters(
    title: Option<string>,
    description: Option<string>,
    category: Option<string>,
    completed: Option<bool>,
    ownerId: Option<string>)

  function HasId(id: string): Todo -> bool {
    (t: Todo) => t.id == id
  }

  /** The position of the todo a lookup by `id` yields: the first one carrying that id. */
  function IndexOfId(todos: seq<Todo>, id: string): (r: Option<nat>)
    ensures r.Some? ==> r.value < |todos| && todos[r.value].id == id
    ensures r.Some? ==> forall j :: 0 <= j < r.value ==> todos[j].id != id
    ensures r.None? <==> forall t :: t in todos ==> t.id != id
  {
    IndexOf(todos, HasId(id))
  }

  /** `findById`: the first todo whose id is `id`, or `None` (null) when there is none. */
  function FindById(todos: seq<Todo>, id: string): (r: Option<Todo>)
    ensures r.None? <==> forall t :: t in todos ==> t.id != id
    ensures r.Some? ==> IndexOfId(todos, id).Some? && r.value == todos[IndexOfId(todos, id).value]
    ensures r.Some? ==> r.value.id == id && r.value in todos
  {
    Find(todos, HasId(id))
  }

  /** A string criterion takes part only when it is truthy: present and non-empty. */
  predicate Active(criterion: Option<string>) {
    criterion.Some? && criterion.value != ""
  }

  /** Case-insensitive substring match of the description. */
  predicate DescriptionContains(t: Todo, part: string) {
    Text.Includes(Text.ToLower(t.description), Text.ToLower(part))
  }

  /** What a query means: the todo satisfies every criterion that takes part. */
  predicate Matches(filters: Option<Filters>, t: Todo) {
    match filters
    case None => true
    case Some(f) =>
      && (Active(f.title) ==> t.title == f.title.value)
      && (Active(f.description) ==> DescriptionContains(t, f.description.value))
      && (Active(f.category) ==> t.category == f.category.value)
      && (f.completed.Some? ==> t.completed == f.completed.value)
      && (Active(f.ownerId) ==> t.ownerId == f.ownerId.value)
  }

  function Matching(filters: Option<Filters>): Todo -> bool {
    (t: Todo) => Matches(filters, t)
  }

  /** The filter passes `findAllTodos` runs, in its order: title, description, category,
      completed, owner. */
  function Passes(f: Filters): seq<Todo -> bool> {
    TitlePass(f) + DescriptionPass(f) + CategoryPass(f) + CompletedPass(f) + OwnerPass(f)
  }

  function TitlePass(f: Filters): seq<Todo -> bool> {
    if Active(f.title) then var x := f.title.value; [(t: Todo) => t.title == x] else []
  }

  function DescriptionPass(f: Filters): seq<Todo -> bool> {
    if Active(f.description) then var x := f.description.value; [(t: Todo) => DescriptionContains(t, x)] else []
  }

  function CategoryPass(f: Filters): seq<Todo -> bool> {
    if Active(f.category) then var x := f.category.value; [(t: Todo) => t.category == x] else []
  }

  function CompletedPass(f: Filters): seq<Todo -> bool> {
    if f.completed.Some? then var x := f.completed.value; [(t: Todo) => t.completed == x] else []
  }

  function OwnerPass(f: Filters): seq<Todo -> bool> {
    if Active(f.ownerId) then var x := f.ownerId.value; [(t: Todo) => t.ownerId == x] else []
  }

  /** A todo passes `findAllTodos`' passes exactly when it matches the filter. */
  lemma PassesMatch(f: Filters, t: Todo)
    ensures AllHold(Passes(f), t) == Matches(Some(f), t)
  {
    var p1, p2, p3, p4, p5 := TitlePass(f), DescriptionPass(f), CategoryPass(f), CompletedPass(f), OwnerPass(f);
    AllHoldConcat(p1, p2, t);
    AllHoldConcat(p1 + p2, p3, t);
    AllHoldConcat(p1 + p2 + p3, p4, t);
    AllHoldConcat(p1 + p2 + p3 + p4, p5, t);
    if p1 != [] { AllHoldOne(p1[0], t); assert p1 == [p1[0]]; }
    if p2 != [] { AllHoldOne(p2[0], t); assert p2 == [p2[0]]; }
    if p3 != [] { AllHoldOne(p3[0], t); assert p3 == [p3[0]]; }
    if p4 != [] { AllHoldOne(p4[0], t); assert p4 == [p4[0]]; }
    if p5 != [] { AllHoldOne(p5[0], t); assert p5 == [p5[0]]; }
  }

  /** `findAllTodos`: no filter object returns the store as it is; otherwise one filter pass per
      criterion that takes part. The result is exactly a single pass of `Matches`: the todos
      satisfying every criterion, in store order. */
  function FindAllTodos(todos: seq<Todo>, filters: Option<Filters>): (r: seq<Todo>)
    ensures r == Filter(todos, Matching(filters))
    ensures forall t :: t in r <==> t in todos && Matches(filters, t)
    ensures IsSubsequence(r, todos)
  {
    FilterIsSubsequence(todos, Matching(filters));
    match filters
    case None =>
      FilterKeepsAll(todos, Matching(filters));
      todos
    case Some(f) =>
      forall t | t in todos ensures Matching(filters)(t) == AllHold(Passes(f), t) {
        PassesMatch(f, t);
      }
      FilterEachIsFilter(todos, Passes(f), Matching(filters));
      FilterEach(todos, Passes(f))
  }

  /** How `update` merges: supplied fields overwrite, everything else stays, and the update
      time is the clock reading. */
  function Merge(t: Todo, u: TodoUpdate, now: int): (r: Todo)
    ensures r.id == t.id && r.ownerId == t.ownerId && r.createdAt == t.createdAt
    ensures r.updatedAt == now
    ensures u.title.Some? ==> r.title == u.title.value
    ensures u.title.None? ==> r.title == t.title
    ensures u.description.Some? ==> r.description == u.description.value
    ensures u.description.None? ==> r.description == t.description
    ensures u.category.Some? ==> r.category == u.category.value
    ensures u.category.None? ==> r.category == t.category
    ensures u.completed.Some? ==> r.completed == u.completed.value
    ensures u.completed.None? ==> r.completed == t.completed
  {
    t.(
      title := if u.title.Some? then u.title.value else t.title,
      description := if u.description.Some? then u.description.value else t.description,
      category := if u.category.Some? then u.category.value else t.category,
      completed := if u.completed.Some? then u.completed.value else t.completed,
      updatedAt := now)
  }

  /** What `delete` leaves: every todo without that id, in the same order and multiplicity. */
  function WithoutId(todos: seq<Todo>, id: string): (r: seq<Todo>)
    ensures forall t :: t in r <==> t in todos && t.id != id
    ensures IsSubsequence(r, todos)
  {
    FilterIsSubsequence(todos, KeepsOtherIds(id));
    Filter(todos, KeepsOtherIds(id))
  }

  function KeepsOtherIds(id: string): Todo -> bool {
    (t: Todo) => t.id != id
  }

  /** `delete` keeps every todo with another id as often as the store held it. */
  lemma WithoutIdKeepsMultiplicity(todos: seq<Todo>, id: string)
    ensures forall t: Todo :: t.id != id ==> multiset(WithoutId(todos, id))[t] == multiset(todos)[t]
  {
    forall t: Todo | t.id != id ensures multiset(WithoutId(todos, id))[t] == multiset(todos)[t] {
      FilterMultiplicity(todos, KeepsOtherIds(id), t);
    }
  }

  /** The todo store (the static `todos` array of the repository). */
  class TodoStore {
    var todos: seq<Todo>

    constructor ()
      ensures todos == []
    {
      todos := [];
    }

    /** `create`: appends one new todo, not completed, created and updated now. */
    method Create(data: TodoCreate, freshId: string, now: int) returns (todo: Todo)
      modifies this
      ensures todo == Todo(freshId, data.title, data.description, data.category, false, data.ownerId, now, now)
      ensures todos == old(todos) + [todo]
    {
      todo := Todo(freshId, data.title, data.description, data.category, false, data.ownerId, now, now);
      todos := todos + [todo];
    }

    /** `update`: null for an unknown id; the todo as it is for an empty update; otherwise the
        first todo with that id merged with the update, and nothing else touched. */
    method Update(id: string, updates: TodoUpdate, now: int) returns (r: Option<Todo>)
      modifies this
      ensures old(FindById(todos, id)).None? ==> r.None? && todos == old(todos)
      ensures old(FindById(todos, id)).Some? && updates.IsEmpty() ==>
        r == old(FindById(todos, id)) && todos == old(todos)
      ensures old(FindById(todos, id)).Some? && !updates.IsEmpty() ==>
        var i := old(IndexOfId(todos, id)).value;
        && todos == old(todos)[i := Merge(old(todos)[i], updates, now)]
        && r == Some(todos[i])
    {
      var found := FindById(todos, id);
      if found.None? {
        return None;
      }
      if updates.IsEmpty() {
        return found;
      }
      var i := IndexOfId(todos, id).value;
      var merged := Merge(todos[i], updates, now);
      todos := todos[i := merged];
      r := Some(merged);
    }

    /** `delete`: false and nothing changed for an unknown id; otherwise every todo with that
        id is removed and true is returned. */
    method Delete(id: string) returns (deleted: bool)
      modifies this
      ensures deleted <==> old(FindById(todos, id)).Some?
      ensures todos == if deleted then WithoutId(old(todos), id) else old(todos)
    {
      var found := FindById(todos, id);
      if found.None? {
        return false;
      }
      todos := WithoutId(todos, id);
      deleted := true;
    }

    /** `reset`: empties the store. */
    method Reset()
      modifies this
      ensures todos == []
    {
      todos := [];
    }
  }

  /** After `create`, lookups of earlier ids are unaffected and a fresh id finds the new todo. */
  lemma {:induction false} FindByIdAfterAppend(todos: seq<Todo>, t: Todo, id: string)
    ensures FindById(todos + [t], id) ==
      if FindById(todos, id).Some? then FindById(todos, id)
      else if t.id == id then Some(t) else None
  {
    IndexOfAppend(todos, t, HasId(id));
  }

  /** After a merge at the first todo with `id`, looking up `id` yields the merged todo and
      looking up any other id yields what it did before. */
  lemma FindByIdAfterMerge(todos: seq<Todo>, id: string, u: TodoUpdate, now: int, other: string)
    requires IndexOfId(todos, id).Some?
    ensures var i := IndexOfId(todos, id).value;
      var after := todos[i := Merge(todos[i], u, now)];
      FindById(after, id) == Some(Merge(todos[i], u, now)) &&
      (other != id ==> FindById(after, other) == FindById(todos, other))
  {
    var i := IndexOfId(todos, id).value;
    var after := todos[i := Merge(todos[i], u, now)];
    assert IndexOfId(after, id) == Some(i) by {
      var k := IndexOfId(after, id);
      assert after[i].id == id;
    }
    if other != id {
      match IndexOfId(todos, other)
      case None =>
        assert forall t :: t in after ==> t.id != other by {
          forall t | t in after ensures t.id != other {
            var j :| 0 <= j < |after| && after[j] == t;
            if j != i { assert todos[j] in todos; }
          }
        }
      case Some(j) =>
        assert j != i;
        assert IndexOfId(after, other) == Some(j) by {
          assert after[j].id == other;
          var k := IndexOfId(after, other);
        }
    }
  }

  /** Deleting one id leaves every other id's lookup as it was. */
  lemma {:induction false} FindByIdAfterDelete(todos: seq<Todo>, id: string, other: string)
    ensures FindById(WithoutId(todos, id), id).None?
    ensures other != id ==> FindById(WithoutId(todos, id), other) == FindById(todos, other)
  {
    if todos != [] && other != id {
      var t, rest := todos[0], todos[1..];
      assert todos == [t] + rest;
      FindByIdAfterDelete(rest, id, other);
      WithoutIdCons(t, rest, id);
      FindByIdCons(t, rest, other);
      if t.id == id {
        assert WithoutId(todos, id) == WithoutId(rest, id);
        assert FindById(todos, other) == FindById(rest, other);
      } else {
        assert WithoutId(todos, id) == [t] + WithoutId(rest, id);
        FindByIdCons(t, WithoutId(rest, id), other);
      }
    }
  }

  /** `delete` looks at the first todo, then at the rest. */
  lemma WithoutIdCons(t: Todo, rest: seq<Todo>, id: string)
    ensures WithoutId([t] + rest, id) == (if t.id == id then [] else [t]) + WithoutId(rest, id)
  {
    assert ([t] + rest)[1..] == rest;
  }

  /** A lookup tries the first todo, then the rest. */
  lemma FindByIdCons(t: Todo, rest: seq<Todo>, id: string)
    ensures FindById([t] + rest, id) == if t.id == id then Some(t) else FindById(rest, id)
  {
    var s := [t] + rest;
    assert s[0] == t && s[1..] == rest;
  }
}
