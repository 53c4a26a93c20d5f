/**
 * cmd/api/errors.go: the error helpers. Each one answers through
 * `errorResponse`, which wraps its message in an envelope under the single
 * key "error"; when `writeJSON` fails only the status 500 goes out. Logging
 * is not modelled.
 */
module Responses {
  import opened Wrappers
  import opened Validator
  import Items
  import Accounts

  /** The values the handlers place in a JSON envelope. */
  datatype Value =
    | Text(text: string)
    | Fields(fields: Errors)
    | ItemValue(item: Items.Item)
    | ItemList(items: seq<Items.Item>)
      /** What `calculateMetadata` builds from these three numbers. */
    | Metadata(totalRecords: nat, page: int, pageSize: int)
    | UserValue(user: Accounts.User)
    | TokenValue(token: Accounts.Token)

  type Envelope = map<string, Value>

  type Headers = map<string, string>

  /** The error helpers a handler or middleware can call. */
  datatype Helper =
    | ServerError
    | NotFound
    | MethodNotAllowed(verb: string)
    | BadRequest(message: string)
    | FailedValidation(errors: Errors)
    | EditConflict
    | InvalidCredentials
    | RateLimitExceeded

  /** One attempt to answer: an error helper, or `writeJSON` of a success envelope. */
  datatype Reply = Error(helper: Helper) | Json(status: int, envelope: Envelope, headers: Headers)

  /** What a handler did: the collaborator calls it issued and the replies it attempted, in order. */
  datatype Run<C> = Run(calls: seq<C>, replies: seq<Reply>)

  /** `writeJSON` of a success envelope; when the write fails the handler falls back on `serverErrorResponse`. */
  function Answer(reply: Reply, writeOk: bool): (r: seq<Reply>)
    ensures r != [] && r[0] == reply
    ensures |r| == 1 <==> writeOk
  {
    if writeOk then [reply] else [reply, Error(ServerError)]
  }

  /** What one `errorResponse` puts on the wire: the status and, if `writeJSON` succeeded, the body. */
  datatype Written = Written(status: int, body: Option<Envelope>)

  const ServerErrorMessage: string := "the server encountered a problem and could not process the request"
  const NotFoundMessage: string := "the requested resource could not be found"
  const EditConflictMessage: string := "unable to update the record due to an edit conflict, please try again"

  /** `fmt.Sprintf("the %s method is not supported for this resource", r.Method)`. */
  function MethodNotAllowedMessage(verb: string): string
  {
    "the " + verb + " method is not supported for this resource"
  }

  /** The helpers errors.go defines; `invalidCredentialsResponse` and `rateLimitExceededResponse` live elsewhere. */
  predicate Local(h: Helper)
  {
    !h.InvalidCredentials? && !h.RateLimitExceeded?
  }

  /** The status each helper passes to `errorResponse`, as written. */
  function Status(h: Helper): (s: int)
    requires Local(h)
    ensures s == 500 <==> h.ServerError? || h.NotFound? || h.MethodNotAllowed?
    ensures s == 400 <==> h.BadRequest?
    ensures s == 422 <==> h.FailedValidation?
    ensures s == 409 <==> h.EditConflict?
  {
    match h
    case ServerError => 500
    case NotFound => 500
    case MethodNotAllowed(_) => 500
    case BadRequest(_) => 400
    case FailedValidation(_) => 422
    case EditConflict => 409
  }

  /** The message each helper passes to `errorResponse`. */
  function Message(h: Helper): Value
    requires Local(h)
  {
    match h
    case ServerError => Text(ServerErrorMessage)
    case NotFound => Text(NotFoundMessage)
    case MethodNotAllowed(verb) => Text(MethodNotAllowedMessage(verb))
    case BadRequest(message) => Text(message)
    case FailedValidation(errors) => Fields(errors)
    case EditConflict => Text(EditConflictMessage)
  }

  /** `errorResponse(w, r, status, message)`. */
  function ErrorResponse(status: int, message: Value, writeOk: bool): (w: Written)
    ensures writeOk ==> w.status == status && w.body.Some? && w.body.value.Keys == {"error"}
    ensures writeOk ==> w.body.value["error"] == message
    ensures !writeOk ==> w == Written(500, None)
  {
    if writeOk then Written(status, Some(map["error" := message])) else Written(500, None)
  }

  /** The answer of one helper of errors.go. */
  function Respond(h: Helper, writeOk: bool): Written
    requires Local(h)
  {
    ErrorResponse(Status(h), Message(h), writeOk)
  }

  /**
   * Every helper answers with a status that is a server error or a client
   * error, and a body holding exactly the key "error" with the helper's
   * message, or no body and 500 when the write fails.
   */
  lemma RespondShape(h: Helper, writeOk: bool)
    requires Local(h)
    ensures Respond(h, writeOk).status in {400, 409, 422, 500}
    ensures writeOk ==> Respond(h, writeOk).body == Some(map["error" := Message(h)])
    ensures !writeOk ==> Respond(h, writeOk) == Written(500, None)
  {
    var w := Respond(h, writeOk);
    if writeOk {
      assert w.body.value.Keys == {"error"};
      assert w.body.value == map["error" := Message(h)];
    }
  }

  /** A request error and a server fault put the same status on the wire. */
  lemma NotFoundLooksLikeServerError(verb: string)
    ensures Respond(NotFound, true).status == Respond(ServerError, true).status == 500
    ensures Respond(MethodNotAllowed(verb), true).status == 500
    ensures Respond(NotFound, true).body == Some(map["error" := Text("the requested resource could not be found")])
  {
  }

  /** The table the helpers' names and messages call for: 404 and 405 for the router's two fallbacks. */
  function IntendedStatus(h: Helper): (s: int)
    requires Local(h)
    ensures h.NotFound? ==> s == 404
    ensures h.MethodNotAllowed? ==> s == 405
    ensures !h.NotFound? && !h.MethodNotAllowed? ==> s == Status(h)
  {
    if h.NotFound? then 404 else if h.MethodNotAllowed? then 405 else Status(h)
  }

  function RespondIntended(h: Helper, writeOk: bool): Written
    requires Local(h)
  {
    ErrorResponse(IntendedStatus(h), Message(h), writeOk)
  }

  /** With the intended table only a server fault answers 500, and every helper has its own status class. */
  lemma IntendedStatusDistinguishes(h: Helper, g: Helper)
    requires Local(h) && Local(g)
    ensures RespondIntended(h, true).status == 500 <==> h.ServerError?
    ensures IntendedStatus(h) == IntendedStatus(g) ==> h.ServerError? == g.ServerError? && h.NotFound? == g.NotFound?
    ensures IntendedStatus(h) == IntendedStatus(g) ==> h.MethodNotAllowed? == g.MethodNotAllowed? && h.BadRequest? == g.BadRequest?
    ensures IntendedStatus(h) == IntendedStatus(g) ==> h.FailedValidation? == g.FailedValidation? && h.EditConflict? == g.EditConflict?
  {
  }
}
