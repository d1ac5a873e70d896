/**
 * What a handler hands back to the HTTP layer: a status code and a JSON
 * body, and the shared error responses registered with the application.
 * The JSON serialisation done by `jsonify` is abstracted to the `Body`
 * datatype.
 */
module Responses {
  import opened Wrappers

  /** One row of the notes table as the handlers expose it: `{title, content}`. */
  datatype Note = Note(title: string, content: string)

  /** The JSON bodies the service produces. */
  datatype Body =
    | NoteList(notes: seq<Note>)   // {"notes": [ {title, content}, ... ]}
    | OneNote(note: Note)          // {"notes": {title, content}}
    | Deleted(result: bool)        // {"result": true}
    | Error(message: string)       // {"error": message}

  datatype Response = Response(status: int, body: Body)

  /** The status Flask gives a response whose handler names none. */
  const DefaultStatus: int := 200

  /** `page_not_found`, registered for 404. */
  function PageNotFound(): (r: Response)
    ensures r.status == 404 && r.body == Error("not found")
  {
    Response(404, Error("not found"))
  }

  /** `bad_request`, registered for 400. */
  function BadRequest(): (r: Response)
    ensures r.status == 400 && r.body == Error("bad request")
  {
    Response(400, Error("bad request"))
  }

  /** `method_not_allowed`, registered for 405. */
  function MethodNotAllowed(): (r: Response)
    ensures r.status == 405 && r.body == Error("method not allowed")
  {
    Response(405, Error("method not allowed"))
  }

  /**
   * `unauthorized`, the authentication error handler. It returns the body
   * only, so the response keeps Flask's default status.
   */
  function Unauthorized(): (r: Response)
    ensures r.status == DefaultStatus == 200 && r.body == Error("unauthorized access")
  {
    Response(DefaultStatus, Error("unauthorized access"))
  }

  /**
   * The application's error-handler registry: the response that `abort(code)`
   * produces, or None for a code with no handler of its own.
   */
  function HandleError(code: int): (r: Option<Response>)
    ensures r.Some? <==> code in {400, 404, 405}
    ensures r.Some? ==> r.value.status == code && r.value.body.Error?
    ensures code == 404 ==> r == Some(PageNotFound())
    ensures code == 400 ==> r == Some(BadRequest())
    ensures code == 405 ==> r == Some(MethodNotAllowed())
  {
    if code == 404 then Some(PageNotFound())
    else if code == 400 then Some(BadRequest())
    else if code == 405 then Some(MethodNotAllowed())
    else None
  }

  /** True of exactly the error responses: their body is `{"error": ...}`. */
  predicate IsError(r: Response) { r.body.Error? }

  /**
   * The four error responses are told apart by their messages, and the
   * unauthorized one is the only error answered with a success status.
   */
  lemma ErrorResponsesDistinct()
    ensures IsError(PageNotFound()) && IsError(BadRequest())
    ensures IsError(MethodNotAllowed()) && IsError(Unauthorized())
    ensures |{PageNotFound().body.message, BadRequest().body.message,
              MethodNotAllowed().body.message, Unauthorized().body.message}| == 4
    ensures Unauthorized().status == 200 && Unauthorized().status != 401
  {
  }

  /** A parsed request body: a JSON object whose fields are strings. */
  type JsonObject = map<string, string>

  /**
   * Python's truth value of `request.json`: false when there is no JSON body
   * (None) and also for the empty object `{}`.
   */
  predicate Truthy(json: Option<JsonObject>)
    ensures json.None? ==> !Truthy(json)
    ensures json == Some(map[]) ==> !Truthy(json)
    ensures json.Some? && |json.value| > 0 ==> Truthy(json)
  {
    json.Some? && json.value != map[]
  }
}
