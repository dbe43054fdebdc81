/** The todo-list component's state machine: five state cells and the handlers that update them.
    Each handler is one atomic step. The server call it issues is returned as `call` (`None` when
    the handler stops before calling the server), and the call's outcome is a parameter. */
module TodoListComponent {
  import opened Wrappers
  import opened JsText
  import opened TodoModel

  /** The request a handler sends through the client data layer. */
  datatype ApiCall =
    | ListCall(token: string)
    | CreateCall(title: string, token: string)
    | UpdateCall(todoId: string, title: string, completed: bool, token: string)
    | DeleteCall(todoId: string, token: string)

  /** What an awaited server call produced: its data, or a thrown error. */
  datatype Reply<T> = Ok(value: T) | Failed

  /** `requireToken()`: the token when it is truthy, `null` otherwise. */
  function RequireToken(token: Option<string>): (r: Option<string>)
    ensures r.Some? <==> Truthy(token)
    ensures r.Some? ==> r == token
  {
    match token
    case Some(t) => if t == "" then None else Some(t)
    case None => None
  }

  const LoadError := "Could not load todos."

  class TodoList {
    var todos: seq<Todo>
    var input: string
    var editingTodo: Option<Todo>
    var loading: bool
    var error: string

    /** The initial `useState` values. */
    constructor ()
      ensures todos == [] && input == "" && editingTodo == None && loading && error == ""
    {
      todos := [];
      input := "";
      editingTodo := None;
      loading := true;
      error := "";
    }

    /** The mount effect `fetchTodos`. Without a token it returns before touching any state, so
        `loading` stays as it was; otherwise `loading` ends false on both outcomes. */
    method FetchTodos(token: Option<string>, reply: Reply<seq<Todo>>) returns (call: Option<ApiCall>)
      modifies this
      ensures input == old(input) && editingTodo == old(editingTodo)
      ensures RequireToken(token).None? ==>
        call == None && todos == old(todos) && loading == old(loading) && error == old(error)
      ensures RequireToken(token).Some? ==>
        && call == Some(ListCall(token.value))
        && !loading
        && (reply.Ok? ==> todos == reply.value && error == old(error))
        && (reply.Failed? ==> todos == old(todos) && error == LoadError)
    {
      var tok := RequireToken(token);
      if tok.None? {
        return None;
      }
      call := Some(ListCall(tok.value));
      if reply.Ok? {
        todos := reply.value;
      } else {
        error := LoadError;
      }
      loading := false;
    }

    /** `handleCreateTodo`. It needs a token and non-blank input; the request carries the input
        as typed (untrimmed). On success the server's item is appended and the input cleared. */
    method CreateTodo(token: Option<string>, reply: Reply<CreatedItem>) returns (call: Option<ApiCall>)
      modifies this
      ensures editingTodo == old(editingTodo) && error == old(error)
      ensures RequireToken(token).None? || IsBlank(old(input)) ==>
        call == None && todos == old(todos) && input == old(input) && loading == old(loading)
      ensures RequireToken(token).Some? && !IsBlank(old(input)) ==>
        && call == Some(CreateCall(old(input), token.value))
        && !loading
        && (reply.Ok? ==>
              todos == old(todos) + [Project(reply.value)]
              && input == "")
        && (reply.Failed? ==> todos == old(todos) && input == old(input))
    {
      var tok := RequireToken(token);
      if tok.None? || Trim(input) == "" {
        return None;
      }
      loading := true;
      call := Some(CreateCall(input, tok.value));
      if reply.Ok? {
        todos := todos + [Project(reply.value)];
        input := "";
      }
      loading := false;
    }

    /** `handleToggleComplete`. It needs a token and an element with that id; the request sends
        the first such element's title and flipped flag, and on success every element with that
        id has its flag flipped. */
    method ToggleComplete(token: Option<string>, todoId: string, serverOk: bool) returns (call: Option<ApiCall>)
      modifies this
      ensures input == old(input) && editingTodo == old(editingTodo)
      ensures loading == old(loading) && error == old(error)
      ensures RequireToken(token).None? || !HasId(old(todos), todoId) ==>
        call == None && todos == old(todos)
      ensures RequireToken(token).Some? && HasId(old(todos), todoId) ==>
        && var t := Find(old(todos), todoId).value;
        && call == Some(UpdateCall(todoId, t.title, !t.completed, token.value))
        && todos == (if serverOk then MapToggle(old(todos), todoId) else old(todos))
    {
      var tok := RequireToken(token);
      if tok.None? {
        return None;
      }
      var found := Find(todos, todoId);
      if found.None? {
        return None;
      }
      var todo := found.value;
      call := Some(UpdateCall(todoId, todo.title, !todo.completed, tok.value));
      if serverOk {
        todos := MapToggle(todos, todoId);
      }
    }

    /** `handleEditTitle`: no token is needed. A known id enters edit mode with the input seeded
        from the element's title; an unknown id changes nothing. */
    method EditTitle(todoId: string)
      modifies this
      ensures todos == old(todos) && loading == old(loading) && error == old(error)
      ensures !HasId(todos, todoId) ==> editingTodo == old(editingTodo) && input == old(input)
      ensures HasId(todos, todoId) ==>
        && editingTodo == Find(todos, todoId)
        && editingTodo.value.todoId == todoId
        && input == editingTodo.value.title
    {
      var found := Find(todos, todoId);
      if found.None? {
        return;
      }
      editingTodo := found;
      input := found.value.title;
    }

    /** `handleSaveEdit`. It needs a token, edit mode and a non-blank trimmed input. The request
        carries the trimmed title and the `completed` flag of the element as it was when edit
        mode began. On success the elements with the edited id take the trimmed title and edit
        mode ends. */
    method SaveEdit(token: Option<string>, serverOk: bool) returns (call: Option<ApiCall>)
      modifies this
      ensures loading == old(loading) && error == old(error)
      ensures RequireToken(token).None? || old(editingTodo).None? || IsBlank(old(input)) ==>
        call == None && todos == old(todos) && input == old(input) && editingTodo == old(editingTodo)
      ensures RequireToken(token).Some? && old(editingTodo).Some? && !IsBlank(old(input)) ==>
        && var e := old(editingTodo).value;
        && call == Some(UpdateCall(e.todoId, Trim(old(input)), e.completed, token.value))
        && (serverOk ==>
              todos == MapRetitle(old(todos), e.todoId, Trim(old(input)))
              && editingTodo == None && input == "")
        && (!serverOk ==>
              todos == old(todos) && editingTodo == old(editingTodo) && input == old(input))
    {
      var tok := RequireToken(token);
      if tok.None? || editingTodo.None? {
        return None;
      }
      var newTitle := Trim(input);
      if newTitle == "" {
        return None;
      }
      var e := editingTodo.value;
      call := Some(UpdateCall(e.todoId, newTitle, e.completed, tok.value));
      if serverOk {
        todos := MapRetitle(todos, e.todoId, newTitle);
        editingTodo := None;
        input := "";
      }
    }

    /** `cancelEdit`: leaves edit mode and clears the input. */
    method CancelEdit()
      modifies this
      ensures editingTodo == None && input == ""
      ensures todos == old(todos) && loading == old(loading) && error == old(error)
    {
      editingTodo := None;
      input := "";
    }

    /** `handleDeleteTodo`. It needs a token and an element with that id; on success every
        element with that id is removed. */
    method DeleteTodo(token: Option<string>, todoId: string, serverOk: bool) returns (call: Option<ApiCall>)
      modifies this
      ensures input == old(input) && editingTodo == old(editingTodo)
      ensures loading == old(loading) && error == old(error)
      ensures RequireToken(token).None? || !HasId(old(todos), todoId) ==>
        call == None && todos == old(todos)
      ensures RequireToken(token).Some? && HasId(old(todos), todoId) ==>
        && call == Some(DeleteCall(todoId, token.value))
        && todos == (if serverOk then FilterOut(old(todos), todoId) else old(todos))
    {
      var tok := RequireToken(token);
      if tok.None? {
        return None;
      }
      var index := FindIndex(todos, todoId);
      if index == -1 {
        return None;
      }
      call := Some(DeleteCall(todoId, tok.value));
      if serverOk {
        todos := FilterOut(todos, todoId);
      }
    }
  }
}
