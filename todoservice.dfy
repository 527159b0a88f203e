/** `TodoService`: the todo CRUD rules over the table, for the current user
    (`Caller`): the list shows only the caller's rows; get, update and delete
    by id reach a row only for its owner or an admin, and report anything else
    as absent. */
module TodoService {
  import opened Wrappers
  import opened Todos
  import opened Authorization
  import opened TodoDb

  /** `GetTodosAsync`: the caller's own rows, admins included. */
  function GetTodos(db: TodoDb, owner: Caller): (r: seq<TodoItem>)
    reads db
    ensures forall x :: x in r <==> exists t :: t in db.rows && t.ownerId == owner.id && AsTodoItem(t) == x
  {
    OwnedItemsMembers(db.rows, owner.id);
    OwnedItems(db.rows, owner.id)
  }

  /** `GetTodoByIdAsync`: the item iff a row with that id exists and the caller
      owns it or is an admin; null (None) otherwise. */
  function GetTodoById(db: TodoDb, id: int, owner: Caller): (r: Option<TodoItem>)
    reads db
    requires db.Valid()
    ensures r.Some? <==> exists i :: 0 <= i < |db.rows| && Selected(db.rows[i], id, owner)
    ensures r.Some? ==> exists t :: t in db.rows && Selected(t, id, owner) && r.value == AsTodoItem(t)
  {
    CountWherePositive(db.rows, id, owner);
    SelectedIffAccessible(db.rows, id, owner);
    match FindRow(db.rows, id)
    case Some(todo) => if CanAccess(todo, owner) then Some(AsTodoItem(todo)) else None
    case None => None
  }

  /** `CreateTodoAsync`: one new row with the request's title, owned by the
      caller, not complete (the request's IsComplete is ignored); the result is
      that row's projection, with its newly assigned id, and reading it back
      gives it. */
  method CreateTodo(db: TodoDb, newTodo: TodoItem, owner: Caller) returns (r: TodoItem)
    requires db.Valid()
    modifies db
    ensures db.Valid()
    ensures db.rows == old(db.rows) + [Todo(r.id, false, newTodo.title, owner.id)]
    ensures forall t :: t in old(db.rows) ==> t.id != r.id
    ensures r == TodoItem(r.id, false, newTodo.title)
    ensures GetTodoById(db, r.id, owner) == Some(r)
  {
    var saved := db.AddAndSave(Todo(0, false, newTodo.title, owner.id));
    r := AsTodoItem(saved);
    FindRowUnique(db.rows, |db.rows| - 1);
  }

  /** `UpdateTodoAsync`: a route id that differs from the body's id changes
      nothing; otherwise title and completion are set on the selected row. True
      iff a row changed, which is iff reading that id would have found it. */
  method UpdateTodo(db: TodoDb, id: int, todo: TodoItem, owner: Caller) returns (ok: bool)
    requires db.Valid()
    modifies db
    ensures db.Valid()
    ensures id != todo.id ==> db.rows == old(db.rows)
    ensures id == todo.id ==> db.rows == UpdateWhere(old(db.rows), id, owner, todo.isComplete, todo.title)
    ensures ok <==> id == todo.id && old(GetTodoById(db, id, owner)).Some?
    ensures ok ==> GetTodoById(db, id, owner) == Some(TodoItem(id, todo.isComplete, todo.title))
  {
    if id != todo.id {
      return false;
    }
    ghost var before := GetTodoById(db, id, owner);
    CountWherePositive(db.rows, id, owner);
    assert before.Some? <==> CountWhere(db.rows, id, owner) > 0;
    var rowsAffected := db.ExecuteUpdate(id, owner, todo.isComplete, todo.title);
    ok := rowsAffected > 0;
    if ok {
      ghost var i :| 0 <= i < |old(db.rows)| && Selected(old(db.rows)[i], id, owner);
      ghost var row := db.rows[i];
      assert row == old(db.rows)[i].(isComplete := todo.isComplete, title := todo.title);
      FindRowUnique(db.rows, i);
      assert FindRow(db.rows, id) == Some(row) && CanAccess(row, owner);
      assert AsTodoItem(row) == TodoItem(id, todo.isComplete, todo.title);
    }
  }

  /** `DeleteTodoAsync`: the selected row goes, every other row stays in order.
      True iff a row was removed, which is iff reading that id would have found
      it; afterwards the id is not found. */
  method DeleteTodo(db: TodoDb, id: int, owner: Caller) returns (ok: bool)
    requires db.Valid()
    modifies db
    ensures db.Valid()
    ensures db.rows == DeleteWhere(old(db.rows), id, owner)
    ensures ok <==> old(GetTodoById(db, id, owner)).Some?
    ensures GetTodoById(db, id, owner) == None
  {
    CountWherePositive(db.rows, id, owner);
    var rowsAffected := db.ExecuteDelete(id, owner);
    ok := rowsAffected > 0;
  }
}
