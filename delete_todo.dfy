/** The `deleteTodo` handler: an unconditional delete of the caller's key. */
module DeleteTodo {
  import opened Wrappers
  import opened JsText
  import opened Store
  import opened Lambda

  const Headers := CorsHeaders("OPTIONS,DELETE")

  /** `handler`. `storeFails` stands for the delete throwing. The body is never read. */
  method Handler(table: Table, event: Event, storeFails: bool) returns (resp: Response)
    modifies table
    ensures resp.headers == Headers
    ensures !Truthy(event.sub) || !Truthy(event.pathId) ==>
      resp == BadRequest(Headers, "Missing required fields") && table.items == old(table.items)
    ensures Truthy(event.sub) && Truthy(event.pathId) && storeFails ==>
      resp == InternalError(Headers) && table.items == old(table.items)
    ensures Truthy(event.sub) && Truthy(event.pathId) && !storeFails ==>
      && resp == Response(200, Headers, MessagePayload("Todo deleted successfully"))
      && table.items == DeleteKey(old(table.items), (event.sub.value, event.pathId.value))
    ensures OtherOwnersUntouched(old(table.items), table.items, event.sub)
    ensures WellKeyed(old(table.items)) ==> WellKeyed(table.items)
  {
    var userId := event.sub;
    var todoId := event.pathId;
    if !Truthy(userId) || !Truthy(todoId) {
      return BadRequest(Headers, "Missing required fields");
    }
    if storeFails {
      return InternalError(Headers);
    }
    table.Delete((userId.value, todoId.value));
    resp := Response(200, Headers, MessagePayload("Todo deleted successfully"));
  }
}
