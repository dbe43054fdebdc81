# Todo list: client state machine and Lambda handlers

This project models the behavioural core of a small task-tracking application in Dafny:

- the browser component `TodoList` (`src/components/TodoList.tsx`), which holds the list of todos,
  the text input, the todo being edited, a loading flag and an error message, and changes them in
  response to user actions after the corresponding server call succeeds;
- the four AWS Lambda handlers `createTodo`, `getTodos`, `updateTodo` and `deleteTodo`, which
  validate an API Gateway event, perform one command on the DynamoDB table `Todos` (partition key
  `userId`, sort key `todoId`) and answer with a fixed JSON envelope carrying CORS headers.

Layout:

- `wrappers.dfy` (`Wrappers`): `Option`, standing for `undefined`/`null`.
- `text.dfy` (`JsText`): truthiness of an optional string and `String.prototype.trim` over the
  ECMAScript whitespace and line-terminator characters.
- `todo_model.dfy` (`TodoModel`): the client `Todo`, `find`, `findIndex` and the `map`/`filter`
  rewrites of the list, with their order and "only the target changes" properties.
- `todo_list.dfy` (`TodoListComponent`): the component as a class with the five state cells. Each
  handler returns the request it sent to the client data layer (`None` when it stopped before
  calling the server) and takes the call's outcome as a parameter. The token is an
  `Option<string>` standing for `useTokenGuard`.
- `store.dfy` (`Store`): the table as `map<(userId, todoId), Item>`, the put / query / update /
  delete commands as functions, a `Table` class whose methods apply them in place, and the
  ownership-isolation lemmas.
- `lambda_common.dfy` (`Lambda`): the parsed event, the response envelope, the CORS headers.
- `create_todo.dfy`, `get_todos.dfy`, `update_todo.dfy`, `delete_todo.dfy`: one module per handler,
  each with a `Handler`. Create, update and delete change a `Table` in place; `getTodos` is a
  function of the table's contents, so it cannot change the table.
- `scenarios.dfy` (`Scenarios`): call sequences proved from the contracts alone.

Some functions are the source's own literals and carry no contract of their own: `JsText.Truthy`
(the `!x` test), `Lambda.ParseBody` (`JSON.parse(event.body || '{}')`), `Lambda.CorsHeaders`,
`Lambda.BadRequest`, `Lambda.InternalError`, `TodoModel.Project` (the todo built from the created
item) and `CreateTodo.NewItem` (the item written by create, whose contract states only that it
lies in the caller's partition and has a title). The handler and component contracts are stated
through them, so what each response or new state is follows from these definitions.

Inputs that the code takes from its environment are parameters: the token, the outcome of each
server call (and the item returned by create, the list returned by the fetch), the fresh id that
`uuidv4()` produces, the timestamps `new Date().toISOString()` produces, and a flag saying that the
DynamoDB command throws. A body that `JSON.parse` rejects is the `Malformed` case of the event body.

Behaviour worth knowing that the contracts make explicit:

- `createTodo` and `updateTodo` parse the body before checking the identity, so a malformed body
  yields 500 even when `userId` is missing; `deleteTodo` and `getTodos` never read the body.
- The Access-Control-Allow-Methods header differs between handlers: `OPTIONS,GET,POST` for create and
  list, `OPTIONS,PUT` for update, `OPTIONS,DELETE` for delete.
- `updateTodo` sends no condition expression (aws/lambda/updateTodo/index.mjs:30-40), so it is an
  upsert: on an absent key it creates an item holding only the key, `title`,
  `completed` and `updatedAt` (no `createdAt`). The model writes an absent body field as an absent
  attribute; the document client would reject such a value, which the model folds into the
  store-failure flag.
- The initial fetch returns early without a token, so `loading` stays true in that case.
- Create sends the input untrimmed, while the blank check and save-edit use the trimmed input.
- Save-edit sends the `completed` flag of the todo captured when edit mode began, not the list's
  current flag (`Scenarios.EditSnapshotAfterToggle` shows the two diverging after a toggle).
- Toggle and delete act on every list element with the given id; with unique ids
  (`TodoModel.UniqueIds`) that is exactly the element found.
- `createTodo` reads the clock twice (aws/lambda/createTodo/index.mjs:32-33), so `createdAt` and
  `updatedAt` are independent parameters and are not assumed equal.

## Model

| member | source | states |
|---|---|---|
| JsText.Trim | src/components/TodoList.tsx:36 | the trimmed string starts and ends with non-whitespace and is empty exactly when the input is blank |
| JsText.TrimOfPadded | src/components/TodoList.tsx:94 | trimming whitespace padding around a trimmed non-empty core returns that core |
| JsText.TrimIdempotent | src/components/TodoList.tsx:94 | trimming twice equals trimming once |
| TodoModel.FindIndex | src/components/TodoList.tsx:123-124 | -1 exactly when no element has the id; otherwise the first position holding it |
| TodoModel.Find | src/components/TodoList.tsx:62-63 | none exactly when no element has the id; otherwise an element of the list with that id |
| TodoModel.FindIsAtFindIndex | src/components/TodoList.tsx:81 | find returns the element at the index findIndex reports |
| TodoModel.FindUnique | src/components/TodoList.tsx:62 | with unique ids, find returns the one element carrying the id |
| TodoModel.MapToggle | src/components/TodoList.tsx:70-73 | same length, ids and titles; completed flipped exactly on elements with the id |
| TodoModel.MapRetitle | src/components/TodoList.tsx:99-103 | same length, ids and flags; the title replaced exactly on elements with the id |
| TodoModel.FilterOut | src/components/TodoList.tsx:131 | the result holds exactly the elements without the id, and is shorter exactly when the id was present |
| TodoModel.FilterOutConcat | src/components/TodoList.tsx:131 | filtering distributes over concatenation, so the kept elements stay in order |
| TodoModel.FilterOutCounts | src/components/TodoList.tsx:131 | each kept element occurs as often as before; removed ones not at all |
| TodoModel.FilterOutAbsent | src/components/TodoList.tsx:131 | filtering an id no element has leaves the list unchanged |
| TodoModel.ToggleTwice | src/components/TodoList.tsx:71-72 | toggling the same id twice restores the list |
| TodoModel.MapAbsent | src/components/TodoList.tsx:100-101 | toggling or retitling an absent id leaves the list unchanged |
| TodoModel.RewritesKeepUniqueIds | src/components/TodoList.tsx:44-48 | toggle, retitle and delete keep ids unique; so does appending an item with a new id |
| TodoModel.ToggleMirrorsRequest | src/components/TodoList.tsx:68-73 | after a successful toggle the element found by the id holds the flag the request sent |
| TodoModel.RetitleKeepsFlag | src/components/TodoList.tsx:99-103 | after a successful save the element found by the id holds the new title and keeps the flag it has in the list (which may differ from the flag the request sent) |
| TodoModel.FilterOutKeepsUnique | src/components/TodoList.tsx:131 | filtering a list with unique ids leaves a list with unique ids |
| TodoModel.RewriteAfterDelete | src/components/TodoList.tsx:131 | after a delete, toggling or retitling that id changes nothing locally |
| TodoListComponent.RequireToken | src/hooks/useTokenGuard.ts:8-14 | the token is returned exactly when it is a non-empty string |
| TodoListComponent.TodoList.constructor | src/components/TodoList.tsx:10-14 | empty list, empty input, no edit, loading, no error |
| TodoListComponent.TodoList.FetchTodos | src/components/TodoList.tsx:16-32 | no token: no request and no change; else a list request, the list replaced on success or the error set on failure, and loading false either way |
| TodoListComponent.TodoList.CreateTodo | src/components/TodoList.tsx:34-56 | no token or blank input: no request and no change; else a create request with the raw input, and on success exactly the server item's projection appended and the input cleared; on failure list and input unchanged; loading false after |
| TodoListComponent.TodoList.ToggleComplete | src/components/TodoList.tsx:58-78 | no token or unknown id: no request, no change; else an update request with the found title and flipped flag, and the list toggled on success and unchanged on failure |
| TodoListComponent.TodoList.EditTitle | src/components/TodoList.tsx:80-88 | a known id sets the edited todo to the found element and the input to its title; an unknown id changes nothing; the list is unchanged |
| TodoListComponent.TodoList.SaveEdit | src/components/TodoList.tsx:90-111 | no token, no edit or blank input: no request, no change; else an update request with the trimmed title and the snapshot's flag; on success only the title of that id changes and edit mode and input are cleared; on failure nothing changes |
| TodoListComponent.TodoList.CancelEdit | src/components/TodoList.tsx:113-116 | edit mode and input cleared, list unchanged |
| TodoListComponent.TodoList.DeleteTodo | src/components/TodoList.tsx:118-138 | no token or unknown id: no request, no change; else a delete request, and the id filtered out on success and the list unchanged on failure |
| Store.PutItem | aws/lambda/createTodo/index.mjs:36-39 | the item is stored under its own key and every other key keeps its item |
| Store.QueryPartition | aws/lambda/getTodos/index.mjs:25-33 | the result holds every item under a key of the owner and only such items |
| Store.UpdateAttributes | aws/lambda/updateTodo/index.mjs:29-41 | the key holds the three new attribute values; an existing item keeps its key attributes and createdAt; an absent key gets an item with no createdAt; other keys keep their items |
| Store.DeleteKey | lambda/deleteTodo/index.mjs:27-32 | the key is gone and every other key keeps its item |
| Store.WritesKeepWellKeyed | aws/lambda/updateTodo/index.mjs:32 | put, update and delete keep every item under its own key |
| Store.WritesStayInPartition | lambda/deleteTodo/index.mjs:30 | a write under a key of one owner leaves every other owner's keys and items unchanged |
| Store.QueryIsolated | aws/lambda/getTodos/index.mjs:28-31 | another owner's query result is unaffected by such a write |
| Store.QueryOnlyOwner | aws/lambda/getTodos/index.mjs:28-31 | in a well-keyed table a query returns only items of the asked owner |
| Store.QueryEmpty | aws/lambda/getTodos/index.mjs:38 | an owner without keys gets the empty result |
| Store.PutFresh | aws/lambda/createTodo/index.mjs:29-39 | a put under a fresh key grows the table by one and adds exactly that item to the owner's query |
| Store.DeleteIdempotent | lambda/deleteTodo/index.mjs:27-32 | deleting a key twice equals deleting it once |
| Store.Table.Put | aws/lambda/createTodo/index.mjs:36-39 | the table's contents become the put of the item, and stay well-keyed |
| Store.Table.Update | aws/lambda/updateTodo/index.mjs:29-41 | the table's contents become the three-attribute update on the key, and stay well-keyed |
| Store.Table.Delete | lambda/deleteTodo/index.mjs:27-32 | the table's contents lose the key, and stay well-keyed |
| Store.Table.constructor | aws/lambda/createTodo/index.mjs:5-6 | a store client over the table's current contents; a well-keyed table stays well-keyed |
| CreateTodo.Accepted | aws/lambda/createTodo/index.mjs:16-19 | an accepted event has a JSON body with a non-empty title and a non-empty claims sub; an absent or malformed body is never accepted |
| CreateTodo.NewItem | aws/lambda/createTodo/index.mjs:27-34 | the new item sits in the caller's partition under the fresh id and never has an empty title |
| CreateTodo.Handler | aws/lambda/createTodo/index.mjs:8-54 | malformed body: 500; falsy title or identity: 400 "Missing required fields"; store failure: 500; these leave the table unchanged; else 201 with the new item, which is exactly what is put; same headers on every path; other owners untouched; a well-keyed table stays well-keyed |
| GetTodos.Handler | aws/lambda/getTodos/index.mjs:7-48 | falsy identity: 400 "Missing user identity"; store failure: 500 with the fixed body; else 200 with a list holding every item under a key of the caller and only such items; same headers on every path |
| GetTodos.ListsCallerPartition | aws/lambda/getTodos/index.mjs:25-39 | in a well-keyed table a 200 answer holds every item of the caller's partition and only items whose owner is the caller, each stored under its own key |
| GetTodos.EmptyPartition | aws/lambda/getTodos/index.mjs:35-39 | a caller without items gets 200 and the empty list |
| UpdateTodo.Handler | aws/lambda/updateTodo/index.mjs:7-56 | malformed body: 500; falsy identity or id: 400; store failure: 500; these leave the table unchanged; else 200 "Todo updated successfully" and the three attributes overwritten on (claims sub, path id) only; other owners untouched; a well-keyed table stays well-keyed |
| DeleteTodo.Handler | lambda/deleteTodo/index.mjs:7-47 | falsy identity or id: 400; store failure: 500; both leave the table unchanged; else 200 "Todo deleted successfully", present key or not, and (claims sub, path id) removed; other owners untouched; a well-keyed table stays well-keyed |
| Scenarios.BuyMilkLifecycle | aws/lambda/updateTodo/index.mjs:29-47 | create, update, list, delete, list on an empty table give 201 with the item, 200, a list holding exactly the updated item with the original createdAt, 200, and the empty list |
| Scenarios.EditSnapshotAfterToggle | src/components/TodoList.tsx:86-103 | edit, toggle, save: the save request carries the pre-toggle flag while the local element keeps the toggled flag |

## Left out

- Asynchrony: each client handler is one atomic step, so overlapping actions, the stale `todos`
  closure in create (src/components/TodoList.tsx:44) and races between toggle and delete are not modelled.
- Toast notifications, `console.error` and the JSX rendering are not modelled.
- `src/services/todoServices.ts` is not part of this model beyond its outcome: each call is a success or
  failure parameter, and the fetch's projection to `{todoId, title, completed}` is the reply's element type.
- `useTokenGuard` is modelled only as the token input and `RequireToken`; its OIDC source is out of scope.
- `JSON.parse`, `JSON.stringify`, `uuidv4()` and the clock are parameters or abstract values. Bodies that
  parse to something other than an object (`null`, a number) and non-string titles or non-boolean flags
  are not modelled; body fields are typed.
- CreateTodo.Handler: freshness of the `uuidv4()` id is not assumed in its contract (the put is
  unconditional); the consequences of a fresh id are stated separately by `Store.PutFresh`.
- UpdateTodo.Handler: the DynamoDB document client's rejection of `undefined` attribute values is not
  modelled; an absent body field is written as an absent attribute (a rejection is covered by the
  store-failure flag).
- GetTodos.Handler: the result is a set, so the store's ordering (by sort key) is not modelled, and
  the 1 MB page limit of a single `Query` (the handler does not paginate) is not modelled.
- DynamoDB internals (marshalling, `ReturnValues: "ALL_NEW"`, consistency, partial failures) are out of scope;
  a store failure is a flag that yields 500 and no write.
- `src/App.tsx`, `src/main.tsx` and `src/components/AuthButton.tsx` are identity-provider configuration and
  presentation and are not part of this model.
