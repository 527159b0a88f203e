/** The todos table (`TodoDbContext.Todos`) as an in-memory table: rows in
    insertion order, ids assigned by an auto-incrementing counter. The bulk
    `Where(...).ExecuteUpdateAsync` / `ExecuteDeleteAsync` statements both
    front-ends issue are the functions UpdateWhere, DeleteWhere and
    CountWhere over the rows. */
module TodoDb {
  import opened Wrappers
  import opened Todos
  import opened Authorization

  /** The ownership rule: the owner or an admin. */
  predicate CanAccess(t: Todo, caller: Caller) {
    t.ownerId == caller.id || caller.isAdmin
  }

  /** `t.Id == id && (t.OwnerId == owner.Id || owner.IsAdmin)`. */
  predicate Selected(t: Todo, id: int, caller: Caller) {
    t.id == id && CanAccess(t, caller)
  }

  /** The primary key. */
  predicate UniqueIds(rows: seq<Todo>) {
    forall i, j :: 0 <= i < j < |rows| ==> rows[i].id != rows[j].id
  }

  /** `FindAsync(id)`: the row with that key. */
  function FindRow(rows: seq<Todo>, id: int): (r: Option<Todo>)
    ensures r.Some? ==> r.value in rows && r.value.id == id
    ensures r.None? <==> forall i :: 0 <= i < |rows| ==> rows[i].id != id
  {
    if rows == [] then None
    else if rows[0].id == id then Some(rows[0])
    else FindRow(rows[1..], id)
  }

  /** `Where(todo => todo.OwnerId == ownerId).Select(t => t.AsTodoItem())`. */
  function OwnedItems(rows: seq<Todo>, ownerId: string): seq<TodoItem> {
    if rows == [] then []
    else (if rows[0].ownerId == ownerId then [AsTodoItem(rows[0])] else [])
         + OwnedItems(rows[1..], ownerId)
  }

  /** The rows affected by the shared WHERE clause. */
  function CountWhere(rows: seq<Todo>, id: int, caller: Caller): nat {
    if rows == [] then 0
    else (if Selected(rows[0], id, caller) then 1 else 0) + CountWhere(rows[1..], id, caller)
  }

  /** `ExecuteUpdateAsync` setting IsComplete and Title on the selected rows. */
  function UpdateWhere(rows: seq<Todo>, id: int, caller: Caller, isComplete: bool, title: string)
    : (r: seq<Todo>)
    ensures |r| == |rows|
    ensures forall i :: 0 <= i < |rows| ==>
      r[i] == if Selected(rows[i], id, caller)
              then rows[i].(isComplete := isComplete, title := title)
              else rows[i]
  {
    if rows == [] then []
    else [if Selected(rows[0], id, caller) then rows[0].(isComplete := isComplete, title := title) else rows[0]]
         + UpdateWhere(rows[1..], id, caller, isComplete, title)
  }

  /** `ExecuteDeleteAsync` on the selected rows: the others, in order. */
  function DeleteWhere(rows: seq<Todo>, id: int, caller: Caller): (r: seq<Todo>)
    ensures forall t :: t in r <==> t in rows && !Selected(t, id, caller)
    ensures |r| + CountWhere(rows, id, caller) == |rows|
  {
    if rows == [] then []
    else (if Selected(rows[0], id, caller) then [] else [rows[0]]) + DeleteWhere(rows[1..], id, caller)
  }

  /** The list holds exactly the projections of the caller's own rows, in table order. */
  lemma {:induction false} OwnedItemsMembers(rows: seq<Todo>, ownerId: string)
    ensures forall x :: x in OwnedItems(rows, ownerId) <==>
      exists t :: t in rows && t.ownerId == ownerId && AsTodoItem(t) == x
    ensures |OwnedItems(rows, ownerId)| <= |rows|
  {
    if rows != [] {
      OwnedItemsMembers(rows[1..], ownerId);
      assert forall t :: t in rows <==> t == rows[0] || t in rows[1..];
    }
  }

  /** Order: listing a concatenation lists each part in turn. */
  lemma {:induction false} OwnedItemsAppend(a: seq<Todo>, b: seq<Todo>, ownerId: string)
    ensures OwnedItems(a + b, ownerId) == OwnedItems(a, ownerId) + OwnedItems(b, ownerId)
  {
    if a != [] {
      assert (a + b)[0] == a[0] && (a + b)[1..] == a[1..] + b;
      OwnedItemsAppend(a[1..], b, ownerId);
    } else {
      assert a + b == b;
    }
  }

  /** Some row is affected exactly when some row is selected. */
  lemma {:induction false} CountWherePositive(rows: seq<Todo>, id: int, caller: Caller)
    ensures CountWhere(rows, id, caller) > 0 <==> exists i :: 0 <= i < |rows| && Selected(rows[i], id, caller)
  {
    if rows != [] {
      CountWherePositive(rows[1..], id, caller);
      if exists i :: 0 <= i < |rows| && Selected(rows[i], id, caller) {
        var i :| 0 <= i < |rows| && Selected(rows[i], id, caller);
        if i > 0 { assert Selected(rows[1..][i - 1], id, caller); }
      }
    }
  }

  /** With a primary key, at most one row is affected. */
  lemma {:induction false} CountWhereAtMostOne(rows: seq<Todo>, id: int, caller: Caller)
    requires UniqueIds(rows)
    ensures CountWhere(rows, id, caller) <= 1
  {
    if rows != [] {
      if Selected(rows[0], id, caller) {
        forall i | 0 <= i < |rows[1..]| ensures !Selected(rows[1..][i], id, caller) {
          assert rows[1..][i] == rows[i + 1];
        }
        NothingSelectedNothingChanges(rows[1..], id, caller, false, "");
      } else {
        CountWhereAtMostOne(rows[1..], id, caller);
      }
    }
  }

  /** With a primary key, the bulk statements hit a row exactly when looking the
      id up finds a row the caller may access: get, update and delete agree. */
  lemma SelectedIffAccessible(rows: seq<Todo>, id: int, caller: Caller)
    requires UniqueIds(rows)
    ensures CountWhere(rows, id, caller) > 0 <==>
      FindRow(rows, id).Some? && CanAccess(FindRow(rows, id).value, caller)
  {
    CountWherePositive(rows, id, caller);
    var found := FindRow(rows, id);
    if found.Some? {
      var k :| 0 <= k < |rows| && rows[k] == found.value;
      assert forall i :: 0 <= i < |rows| && rows[i].id == id ==> i == k;
    }
  }

  /** With a primary key, looking an id up finds the one row that has it. */
  lemma {:induction false} FindRowUnique(rows: seq<Todo>, k: nat)
    requires UniqueIds(rows) && k < |rows|
    ensures FindRow(rows, rows[k].id) == Some(rows[k])
  {
    if k > 0 {
      assert rows[0].id != rows[k].id;
      assert rows[1..][k - 1] == rows[k];
      FindRowUnique(rows[1..], k - 1);
    }
  }

  /** A caller who may touch no row with that id changes nothing. */
  lemma {:induction false} NothingSelectedNothingChanges(rows: seq<Todo>, id: int, caller: Caller,
                                                          isComplete: bool, title: string)
    requires forall i :: 0 <= i < |rows| ==> !Selected(rows[i], id, caller)
    ensures UpdateWhere(rows, id, caller, isComplete, title) == rows
    ensures DeleteWhere(rows, id, caller) == rows
    ensures CountWhere(rows, id, caller) == 0
  {
    if rows != [] {
      NothingSelectedNothingChanges(rows[1..], id, caller, isComplete, title);
    }
  }

  /** Deleting keeps the primary key. */
  lemma {:induction false} DeleteWhereKeepsUniqueIds(rows: seq<Todo>, id: int, caller: Caller)
    requires UniqueIds(rows)
    ensures UniqueIds(DeleteWhere(rows, id, caller))
  {
    if rows != [] {
      DeleteWhereKeepsUniqueIds(rows[1..], id, caller);
      var rest := DeleteWhere(rows[1..], id, caller);
      forall t | t in rest ensures t.id != rows[0].id {
        var k :| 0 <= k < |rows[1..]| && rows[1..][k] == t;
        assert rows[k + 1] == t;
      }
    }
  }

  class TodoDb {
    var rows: seq<Todo>
    /** the next key the auto-increment column hands out */
    var nextId: int

    ghost predicate Valid()
      reads this
    {
      UniqueIds(rows) && 0 < nextId && forall t :: t in rows ==> 0 < t.id < nextId
    }

    constructor ()
      ensures Valid() && rows == [] && nextId == 1
    {
      rows, nextId := [], 1;
    }

    /** `Todos.Add(todo)` followed by `SaveChangesAsync()`: the row is stored
        under a key no row has held before. */
    method AddAndSave(todo: Todo) returns (saved: Todo)
      requires Valid()
      modifies this
      ensures Valid()
      ensures saved == todo.(id := old(nextId))
      ensures rows == old(rows) + [saved]
      ensures forall t :: t in old(rows) ==> t.id < saved.id
    {
      saved := todo.(id := nextId);
      rows := rows + [saved];
      nextId := nextId + 1;
    }

    /** `Where(selected).ExecuteUpdateAsync(...)`. */
    method ExecuteUpdate(id: int, caller: Caller, isComplete: bool, title: string)
      returns (rowsAffected: nat)
      requires Valid()
      modifies this
      ensures Valid() && nextId == old(nextId)
      ensures rows == UpdateWhere(old(rows), id, caller, isComplete, title)
      ensures rowsAffected == CountWhere(old(rows), id, caller)
    {
      rowsAffected := CountWhere(rows, id, caller);
      rows := UpdateWhere(rows, id, caller, isComplete, title);
    }

    /** `Where(selected).ExecuteDeleteAsync()`. */
    method ExecuteDelete(id: int, caller: Caller) returns (rowsAffected: nat)
      requires Valid()
      modifies this
      ensures Valid() && nextId == old(nextId)
      ensures rows == DeleteWhere(old(rows), id, caller)
      ensures rowsAffected == CountWhere(old(rows), id, caller)
    {
      rowsAffected := CountWhere(rows, id, caller);
      DeleteWhereKeepsUniqueIds(rows, id, caller);
      rows := DeleteWhere(rows, id, caller);
    }
  }
}
