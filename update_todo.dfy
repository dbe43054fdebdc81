/** The `updateTodo` handler: an unconditional overwrite of three attributes on the caller's key. */
module UpdateTodo {
  import opened Wrappers
  import opened JsText
  import opened Store
  import opened Lambda

  const Headers := CorsHeaders("OPTIONS,PUT")

  /** `handler`. `updatedAt` stands for the clock read and `storeFails` for the update throwing.
      The key is always `(claims sub, path id)`; the body supplies only the new attribute values,
      written as they are (an absent field is written as absent). */
  method Handler(table: Table, event: Event, updatedAt: string, storeFails: bool) returns (resp: Response)
    modifies table
    ensures resp.headers == Headers
    ensures event.body.Malformed? ==>
      resp == InternalError(Headers) && table.items == old(table.items)
    ensures !event.body.Malformed? && (!Truthy(event.sub) || !Truthy(event.pathId)) ==>
      resp == BadRequest(Headers, "Missing required fields") && table.items == old(table.items)
    ensures !event.body.Malformed? && Truthy(event.sub) && Truthy(event.pathId) && storeFails ==>
      resp == InternalError(Headers) && table.items == old(table.items)
    ensures !event.body.Malformed? && Truthy(event.sub) && Truthy(event.pathId) && !storeFails ==>
      && var body := ParseBody(event.body).value;
      && resp == Response(200, Headers, MessagePayload("Todo updated successfully"))
      && table.items == UpdateAttributes(old(table.items), (event.sub.value, event.pathId.value),
                                         body.title, body.completed, updatedAt)
    ensures OtherOwnersUntouched(old(table.items), table.items, event.sub)
    ensures WellKeyed(old(table.items)) ==> WellKeyed(table.items)
  {
    var body := ParseBody(event.body);
    if body.None? {
      return InternalError(Headers);
    }
    var userId := event.sub;
    var todoId := event.pathId;
    if !Truthy(userId) || !Truthy(todoId) {
      return BadRequest(Headers, "Missing required fields");
    }
    if storeFails {
      return InternalError(Headers);
    }
    table.Update((userId.value, todoId.value), body.value.title, body.value.completed, updatedAt);
    resp := Response(200, Headers, MessagePayload("Todo updated successfully"));
  }
}
