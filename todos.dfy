/** The stored todo row, the client-facing todo DTO, and the projection
    between them (Todo.cs, TodoItem.cs, TodoExtensions.cs). */
module Todos {

  /** A row of the todos table; `id` is assigned by the store. */
  datatype Todo = Todo(id: int, isComplete: bool, title: string, ownerId: string)

  /** The DTO handed to clients: a todo without its owner. */
  datatype TodoItem = TodoItem(id: int, isComplete: bool, title: string)

  /** `AsTodoItem`: copy id, title and completion, drop the owner. */
  function AsTodoItem(todo: Todo): TodoItem {
    TodoItem(todo.id, todo.isComplete, todo.title)
  }

  /** Two rows project to the same item exactly when they agree on id, title
      and completion; the owner never shows in the projection. */
  lemma AsTodoItemForgetsOnlyOwner(a: Todo, b: Todo)
    ensures AsTodoItem(a) == AsTodoItem(b) <==> a.(ownerId := b.ownerId) == b
    ensures AsTodoItem(a).id == a.id && AsTodoItem(a).title == a.title
    ensures AsTodoItem(a).isComplete == a.isComplete
  {
  }

  predicate IsWhiteSpace(c: char) {
    c == ' ' || c == '\t' || c == '\n' || c == '\r' || c == '\U{B}' || c == '\U{C}'
  }

  /** `[Required] Title` on the DTO: a title that is empty or only white space
      is missing (ASCII white space only). */
  predicate HasTitle(item: TodoItem) {
    exists i :: 0 <= i < |item.title| && !IsWhiteSpace(item.title[i])
  }
}
