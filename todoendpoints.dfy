/** The five todo handlers that `MapTodos` registers on `/todos`
    (IEndpointRouteBuilderExtensions.cs). They run the same table statements
    as the service and turn the outcome into typed results: a missing or
    foreign row is NotFound, never Forbidden, and a PUT whose route id differs
    from the body's id is BadRequest. */
module TodoEndpoints {
  import opened Wrappers
  import opened Text
  import opened Todos
  import opened Authorization
  import opened TodoDb
  import TodoService

  /** The typed results the handlers return. */
  datatype TodoResult =
    | OkItems(items: seq<TodoItem>)
    | OkItem(item: TodoItem)
    | Ok
    | Created(location: string, item: TodoItem)
    | NotFound
    | BadRequest

  function StatusCode(r: TodoResult): int {
    match r
    case OkItems(_) => 200
    case OkItem(_) => 200
    case Ok => 200
    case Created(_, _) => 201
    case NotFound => 404
    case BadRequest => 400
  }

  /** `MapGet("/")`: the caller's own rows, the same list the service gives. */
  function GetTodos(db: TodoDb, owner: Caller): (r: TodoResult)
    reads db
    ensures r.OkItems? && StatusCode(r) == 200
    ensures forall x :: x in r.items <==> exists t :: t in db.rows && t.ownerId == owner.id && AsTodoItem(t) == x
    ensures r.items == TodoService.GetTodos(db, owner)
  {
    OwnedItemsMembers(db.rows, owner.id);
    OkItems(OwnedItems(db.rows, owner.id))
  }

  /** `MapGet("/{id:int}")`: Ok with the item iff the row exists and the caller
      owns it or is an admin; NotFound otherwise, never Forbidden. */
  function GetTodoById(db: TodoDb, id: int, owner: Caller): (r: TodoResult)
    reads db
    requires db.Valid()
    ensures r.OkItem? || r.NotFound?
    ensures r.OkItem? <==> exists i :: 0 <= i < |db.rows| && Selected(db.rows[i], id, owner)
    ensures r.OkItem? ==> TodoService.GetTodoById(db, id, owner) == Some(r.item)
  {
    match FindRow(db.rows, id)
    case Some(todo) => if CanAccess(todo, owner) then OkItem(AsTodoItem(todo)) else NotFound
    case None => NotFound
  }

  /** The location header of a created todo. */
  function TodoLocation(id: int): (r: string)
    ensures |r| > 7 && r[..7] == "/todos/"
    ensures id >= 0 ==> DecimalDigits(r[7..]) && DigitsValue(r[7..]) == id
  {
    assert ("/todos/" + IntToString(id))[7..] == IntToString(id);
    "/todos/" + IntToString(id)
  }

  /** Created locations name their todo: different ids, different locations. */
  lemma TodoLocationInjective(a: int, b: int)
    requires a >= 0 && b >= 0
    ensures TodoLocation(a) == TodoLocation(b) ==> a == b
  {
  }

  /** `MapPost("/")`: store a row with the request's title, owned by the caller
      and not complete; answer Created at `/todos/{id}` with the new id. */
  method PostTodo(db: TodoDb, newTodo: TodoItem, owner: Caller) returns (r: TodoResult)
    requires db.Valid()
    modifies db
    ensures db.Valid()
    ensures r.Created? && StatusCode(r) == 201
    ensures r.location == TodoLocation(r.item.id)
    ensures r.item == TodoItem(r.item.id, false, newTodo.title)
    ensures db.rows == old(db.rows) + [Todo(r.item.id, false, newTodo.title, owner.id)]
    ensures forall t :: t in old(db.rows) ==> t.id != r.item.id
  {
    var saved := db.AddAndSave(Todo(0, false, newTodo.title, owner.id));
    r := Created(TodoLocation(saved.id), AsTodoItem(saved));
  }

  /** `MapPut("/{id}")`: BadRequest and no change when the route id differs
      from the body's id; otherwise title and completion are set on the selected
      row, and the answer is NotFound iff no row changed, Ok otherwise. */
  method PutTodo(db: TodoDb, id: int, todo: TodoItem, owner: Caller) returns (r: TodoResult)
    requires db.Valid()
    modifies db
    ensures db.Valid()
    ensures id != todo.id ==> r == BadRequest && db.rows == old(db.rows)
    ensures id == todo.id ==> db.rows == UpdateWhere(old(db.rows), id, owner, todo.isComplete, todo.title)
    ensures id == todo.id ==> (r == NotFound <==> CountWhere(old(db.rows), id, owner) == 0)
    ensures id == todo.id ==> (r == Ok <==> old(TodoService.GetTodoById(db, id, owner)).Some?)
    ensures r == Ok || r == NotFound || r == BadRequest
  {
    if id != todo.id {
      return BadRequest;
    }
    CountWherePositive(db.rows, id, owner);
    var rowsAffected := db.ExecuteUpdate(id, owner, todo.isComplete, todo.title);
    r := if rowsAffected == 0 then NotFound else Ok;
  }

  /** `MapDelete("/{id:int}")`: remove the selected row; NotFound iff no row was
      removed, Ok otherwise. */
  method DeleteTodo(db: TodoDb, id: int, owner: Caller) returns (r: TodoResult)
    requires db.Valid()
    modifies db
    ensures db.Valid()
    ensures db.rows == DeleteWhere(old(db.rows), id, owner)
    ensures r == NotFound <==> CountWhere(old(db.rows), id, owner) == 0
    ensures r == Ok <==> old(TodoService.GetTodoById(db, id, owner)).Some?
    ensures r == Ok || r == NotFound
  {
    CountWherePositive(db.rows, id, owner);
    var rowsAffected := db.ExecuteDelete(id, owner);
    r := if rowsAffected == 0 then NotFound else Ok;
  }
}
