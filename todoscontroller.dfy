/** `TodosController`: the MVC front-end over `TodoService`. Each action only
    turns the service's answer into a status: null or false is 404. Because
    the service reports an id/body mismatch on PUT as false, this front-end
    answers 404 where the minimal-API handler answers 400. As an
    `[ApiController]`, it answers 400 with a validation problem before the
    action runs when a bound todo breaks `[Required] Title`. */
module TodosController {
  import opened Wrappers
  import opened Todos
  import opened Authorization
  import opened TodoDb
  import TodoService

  datatype ResponseBody = Items(items: seq<TodoItem>) | Item(item: TodoItem)

  datatype ActionResult =
    | OkObject(value: ResponseBody)
    | OkResult
    | NotFoundResult
    | CreatedAtAction(actionName: string, routeId: int, created: TodoItem)
    | ValidationProblemResult

  function StatusCode(r: ActionResult): int {
    match r
    case OkObject(_) => 200
    case OkResult => 200
    case NotFoundResult => 404
    case CreatedAtAction(_, _, _) => 201
    case ValidationProblemResult => 400
  }

  /** `GetTodos`: always 200 with the service's list. */
  function GetTodos(db: TodoDb, currentUser: Caller): (r: ActionResult)
    reads db
    ensures StatusCode(r) == 200
    ensures r.OkObject? && r.value.Items?
    ensures forall x :: x in r.value.items <==>
      exists t :: t in db.rows && t.ownerId == currentUser.id && AsTodoItem(t) == x
    ensures r.value.items == TodoService.GetTodos(db, currentUser)
  {
    OkObject(Items(TodoService.GetTodos(db, currentUser)))
  }

  /** `GetTodoById`: 404 iff the service returns null, else 200 with the item. */
  function GetTodoById(db: TodoDb, id: int, currentUser: Caller): (r: ActionResult)
    reads db
    requires db.Valid()
    ensures StatusCode(r) == 404 <==> TodoService.GetTodoById(db, id, currentUser).None?
    ensures StatusCode(r) == 404 <==> forall i :: 0 <= i < |db.rows| ==> !Selected(db.rows[i], id, currentUser)
    ensures TodoService.GetTodoById(db, id, currentUser).Some? ==>
      r == OkObject(Item(TodoService.GetTodoById(db, id, currentUser).value))
  {
    match TodoService.GetTodoById(db, id, currentUser)
    case None => NotFoundResult
    case Some(todo) => OkObject(Item(todo))
  }

  /** `CreateTodo`: a todo without a title is refused with 400 before the
      action runs; otherwise 201 pointing at GetTodoById with the created
      item's id. */
  method CreateTodo(db: TodoDb, newTodo: TodoItem, currentUser: Caller) returns (r: ActionResult)
    requires db.Valid()
    modifies db
    ensures db.Valid()
    ensures !HasTitle(newTodo) ==> r == ValidationProblemResult && StatusCode(r) == 400 && db.rows == old(db.rows)
    ensures HasTitle(newTodo) ==>
      && StatusCode(r) == 201 && r.CreatedAtAction?
      && r.actionName == "GetTodoById" && r.routeId == r.created.id
      && r.created == TodoItem(r.created.id, false, newTodo.title)
      && db.rows == old(db.rows) + [Todo(r.created.id, false, newTodo.title, currentUser.id)]
  {
    if !HasTitle(newTodo) {
      return ValidationProblemResult;
    }
    var todo := TodoService.CreateTodo(db, newTodo, currentUser);
    r := CreatedAtAction("GetTodoById", todo.id, todo);
  }

  /** `UpdateTodo`: a todo without a title is refused with 400 before the
      action runs; otherwise 404 iff the service returns false, else 200, so an
      id/body mismatch is 404 here and changes nothing. */
  method UpdateTodo(db: TodoDb, id: int, todo: TodoItem, currentUser: Caller) returns (r: ActionResult)
    requires db.Valid()
    modifies db
    ensures db.Valid()
    ensures !HasTitle(todo) ==> r == ValidationProblemResult && StatusCode(r) == 400 && db.rows == old(db.rows)
    ensures HasTitle(todo) ==> r == OkResult || r == NotFoundResult
    ensures HasTitle(todo) ==>
      (r == NotFoundResult <==> !(id == todo.id && old(TodoService.GetTodoById(db, id, currentUser)).Some?))
    ensures HasTitle(todo) && id != todo.id ==> r == NotFoundResult && db.rows == old(db.rows)
    ensures HasTitle(todo) && id == todo.id ==>
      db.rows == UpdateWhere(old(db.rows), id, currentUser, todo.isComplete, todo.title)
  {
    if !HasTitle(todo) {
      return ValidationProblemResult;
    }
    var updated := TodoService.UpdateTodo(db, id, todo, currentUser);
    r := if !updated then NotFoundResult else OkResult;
  }

  /** `DeleteTodo`: 404 iff the service returns false, else 200. */
  method DeleteTodo(db: TodoDb, id: int, currentUser: Caller) returns (r: ActionResult)
    requires db.Valid()
    modifies db
    ensures db.Valid()
    ensures r == OkResult || r == NotFoundResult
    ensures r == NotFoundResult <==> old(TodoService.GetTodoById(db, id, currentUser)).None?
    ensures db.rows == DeleteWhere(old(db.rows), id, currentUser)
  {
    var deleted := TodoService.DeleteTodo(db, id, currentUser);
    r := if !deleted then NotFoundResult else OkResult;
  }
}
