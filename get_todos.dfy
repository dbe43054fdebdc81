/** The `getTodos` handler: a read-only query of the caller's partition. */
module GetTodos {
  import opened Wrappers
  import opened JsText
  import opened Store
  import opened Lambda

  const Headers := CorsHeaders("OPTIONS,GET,POST")

  /** `handler`, on the table's current contents. `storeFails` stands for the query throwing. */
  function Handler(items: map<Key, Item>, event: Event, storeFails: bool): (resp: Response)
    ensures resp.headers == Headers
    ensures !Truthy(event.sub) ==> resp == BadRequest(Headers, "Missing user identity")
    ensures Truthy(event.sub) && storeFails ==> resp == InternalError(Headers)
    ensures Truthy(event.sub) && !storeFails ==>
      && resp.statusCode == 200 && resp.body.ListPayload?
      && (forall k | k in items && k.0 == event.sub.value :: items[k] in resp.body.items)
      && (forall it | it in resp.body.items :: exists k | k in items :: k.0 == event.sub.value && items[k] == it)
  {
    if !Truthy(event.sub) then BadRequest(Headers, "Missing user identity")
    else if storeFails then InternalError(Headers)
    else Response(200, Headers, ListPayload(QueryPartition(items, event.sub.value)))
  }

  /** A 200 answer lists exactly the caller's partition, and in a well-keyed table only items
      the caller owns. */
  lemma ListsCallerPartition(items: map<Key, Item>, event: Event)
    requires Truthy(event.sub) && WellKeyed(items)
    ensures var r := Handler(items, event, false).body.items;
      && (forall k | k in items && k.0 == event.sub.value :: items[k] in r)
      && (forall it | it in r :: it.userId == event.sub.value && KeyOf(it) in items && items[KeyOf(it)] == it)
  {
  }

  /** A caller with no items gets 200 and the empty list. */
  lemma EmptyPartition(items: map<Key, Item>, event: Event)
    requires Truthy(event.sub) && forall k | k in items :: k.0 != event.sub.value
    ensures Handler(items, event, false) == Response(200, Headers, ListPayload({}))
  {
  }
}
