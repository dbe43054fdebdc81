/** Sequences of handler calls, proved from the handlers' contracts alone. */
module Scenarios {
  import opened Wrappers
  import opened Store
  import opened Lambda
  import opened TodoModel
  import JsText
  import TodoListComponent
  import CreateTodo
  import GetTodos
  import UpdateTodo
  import DeleteTodo

  /** Create "Buy milk", mark it done, list, delete, list again, all as one owner on an empty
      table. */
  method BuyMilkLifecycle(owner: UserId, newId: TodoId, t0: string, t1: string, t2: string, t3: string)
    returns (created: Response, updated: Response, listed: Response, deleted: Response, relisted: Response)
    requires owner != "" && newId != ""
    ensures created == Response(201, CreateTodo.Headers,
      ItemPayload(Item(owner, newId, Some("Buy milk"), Some(false), Some(t0), t1)))
    ensures updated == Response(200, UpdateTodo.Headers, MessagePayload("Todo updated successfully"))
    ensures listed == Response(200, GetTodos.Headers,
      ListPayload({Item(owner, newId, Some("Buy milk"), Some(true), Some(t0), t2)}))
    ensures deleted == Response(200, DeleteTodo.Headers, MessagePayload("Todo deleted successfully"))
    ensures relisted == Response(200, GetTodos.Headers, ListPayload({}))
  {
    var table := new Table(map[]);
    var ev := Event(Some(owner), None, Json(Body(Some("Buy milk"), None)));
    created := CreateTodo.Handler(table, ev, newId, t0, t1, false);
    var ev2 := Event(Some(owner), Some(newId), Json(Body(Some("Buy milk"), Some(true))));
    updated := UpdateTodo.Handler(table, ev2, t2, false);
    var done := Item(owner, newId, Some("Buy milk"), Some(true), Some(t0), t2);
    assert table.items == map[(owner, newId) := done];
    listed := GetTodos.Handler(table.items, Event(Some(owner), None, NoBody), false);
    assert QueryPartition(table.items, owner) == {done} by {
      assert table.items[(owner, newId)] == done;
    }
    deleted := DeleteTodo.Handler(table, Event(Some(owner), Some(newId), NoBody), false);
    assert table.items == map[];
    relisted := GetTodos.Handler(table.items, Event(Some(owner), None, NoBody), false);
  }

  /** Saving an edit sends the `completed` flag captured when edit mode began: after a toggle
      during edit mode the update request carries the old flag while the local list keeps the
      toggled one. */
  method EditSnapshotAfterToggle(id: string, token: string) returns (sent: Option<TodoListComponent.ApiCall>, local: seq<Todo>)
    requires token != ""
    ensures sent == Some(TodoListComponent.UpdateCall(id, "milk", false, token))
    ensures local == [Todo(id, "milk", true)]
  {
    var list := new TodoListComponent.TodoList();
    var before := Todo(id, "milk", false);
    var after := Todo(id, "milk", true);
    var _ := list.FetchTodos(Some(token), TodoListComponent.Ok([before]));
    assert list.todos[0].todoId == id;
    list.EditTitle(id);
    assert list.editingTodo == Some(before) && list.input == "milk";
    var _ := list.ToggleComplete(Some(token), id, true);
    assert list.todos == [after] by {
      assert list.todos[0] == after;
    }
    assert JsText.Trim("milk") == "milk" by {
      JsText.TrimOfPadded([], "milk", []);
      assert [] + "milk" + [] == "milk";
    }
    assert !JsText.IsBlank("milk") by {
      assert !JsText.IsWhitespace("milk"[0]);
    }
    sent := list.SaveEdit(Some(token), true);
    assert list.todos == [after] by {
      assert list.todos[0] == after;
    }
    local := list.todos;
  }
}
