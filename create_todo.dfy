/** The `createTodo` handler: validate, build the new item, put it, answer 201. */
module CreateTodo {
  import opened Wrappers
  import opened JsText
  import opened Store
  import opened Lambda

  const Headers := CorsHeaders("OPTIONS,GET,POST")

  /** The body parses and carries a truthy title, and the claims carry a truthy `sub`. */
  predicate Accepted(event: Event)
    ensures Accepted(event) ==> event.body.Json? && Truthy(event.body.fields.title) && Truthy(event.sub)
    ensures event.body.NoBody? || event.body.Malformed? ==> !Accepted(event)
  {
    && ParseBody(event.body).Some?
    && Truthy(ParseBody(event.body).value.title)
    && Truthy(event.sub)
  }

  /** The item the handler builds; `newTodoId` stands for `uuidv4()` and the two timestamps for
      the two clock reads. */
  function NewItem(event: Event, newTodoId: TodoId, createdAt: string, updatedAt: string): (item: Item)
    requires Accepted(event)
    ensures KeyOf(item) == (event.sub.value, newTodoId)
    ensures Truthy(item.title)
  {
    Item(event.sub.value, newTodoId, ParseBody(event.body).value.title, Some(false),
         Some(createdAt), updatedAt)
  }

  /** `handler`. `storeFails` stands for the put throwing. */
  method Handler(table: Table, event: Event, newTodoId: TodoId, createdAt: string,
                 updatedAt: string, storeFails: bool) returns (resp: Response)
    modifies table
    ensures resp.headers == Headers
    ensures event.body.Malformed? ==>
      resp == InternalError(Headers) && table.items == old(table.items)
    ensures !event.body.Malformed? && !Accepted(event) ==>
      resp == BadRequest(Headers, "Missing required fields") && table.items == old(table.items)
    ensures Accepted(event) && storeFails ==>
      resp == InternalError(Headers) && table.items == old(table.items)
    ensures Accepted(event) && !storeFails ==>
      && var item := NewItem(event, newTodoId, createdAt, updatedAt);
      && resp == Response(201, Headers, ItemPayload(item))
      && table.items == PutItem(old(table.items), item)
    ensures OtherOwnersUntouched(old(table.items), table.items, event.sub)
    ensures WellKeyed(old(table.items)) ==> WellKeyed(table.items)
  {
    var body := ParseBody(event.body);
    if body.None? {
      return InternalError(Headers);
    }
    var userId := event.sub;
    if !Truthy(body.value.title) || !Truthy(userId) {
      return BadRequest(Headers, "Missing required fields");
    }
    var newItem := NewItem(event, newTodoId, createdAt, updatedAt);
    if storeFails {
      return InternalError(Headers);
    }
    table.Put(newItem);
    resp := Response(201, Headers, ItemPayload(newItem));
  }
}
