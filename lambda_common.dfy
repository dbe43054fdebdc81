/** What the four handlers share: the already-parsed API Gateway event and the response
    envelope with its CORS headers. */
module Lambda {
  import opened Wrappers
  import opened Store

  /** The JSON body fields a handler reads (`undefined` is `None`). */
  datatype Body = Body(title: Option<string>, completed: Option<bool>)

  /** `event.body`: absent or empty, JSON that parses to an object, or text `JSON.parse` rejects. */
  datatype RawBody = NoBody | Json(fields: Body) | Malformed

  /** The event: the claims `sub`, the path parameter `id` and the body. */
  datatype Event = Event(sub: Option<UserId>, pathId: Option<TodoId>, body: RawBody)

  /** `event.body ? JSON.parse(event.body) : {}`: `None` when parsing throws. */
  function ParseBody(b: RawBody): Option<Body> {
    match b
    case NoBody => Some(Body(None, None))
    case Json(fields) => Some(fields)
    case Malformed => None
  }

  type Headers = map<string, string>

  /** The fixed CORS header set; only the allowed-methods value differs between handlers. */
  function CorsHeaders(methods: string): Headers {
    map["Access-Control-Allow-Origin" := "*",
        "Access-Control-Allow-Headers" := "Content-Type,Authorization",
        "Access-Control-Allow-Methods" := methods]
  }

  /** The JSON documents a handler puts in the response body. */
  datatype Payload =
    | ErrorPayload(error: string)
    | MessagePayload(message: string)
    | ItemPayload(item: Item)
    | ListPayload(items: set<Item>)

  datatype Response = Response(statusCode: int, headers: Headers, body: Payload)

  /** The 400 envelope. */
  function BadRequest(headers: Headers, message: string): Response {
    Response(400, headers, ErrorPayload(message))
  }

  /** The 500 envelope: the fixed text, never the caught error. */
  function InternalError(headers: Headers): Response {
    Response(500, headers, ErrorPayload("Internal Server Error"))
  }
}
