/** What a serverless handler receives and returns. The CORS headers, which
    are the same on every response of a handler, are not modelled; the JSON
    bodies are kept as the values they serialise. */
module Http {

  import opened JsValues
  import opened Store

  /** The request body after `JSON.parse`, or a body that is not valid JSON
      (the parse throws). */
  datatype Body = Unparsable | Parsed(json: Json)

  datatype Event = Event(httpMethod: string, body: Body)

  /** The response bodies: empty for a preflight, `{ error }` on every failure,
      and one success shape per handler. */
  datatype Payload =
    | Empty
    | Failure(error: string)
    | Submitted(message: string, registrationId: Id, studentId: Id)
    | Updated(message: string, registration: Registration)
    | Rows(rows: seq<RegistrationView>)

  datatype Response = Response(statusCode: int, body: Payload)

  /** The answer to a CORS preflight (`OPTIONS`). */
  const Preflight: Response := Response(200, Empty)

  const MethodNotAllowed: Response := Response(405, Failure("Method not allowed"))

  const Unauthorized: Response := Response(401, Failure("Unauthorized"))

  const Forbidden: Response := Response(403, Failure("Insufficient permissions"))

  /** What every handler's `catch` block answers: a thrown exception (an
      unparsable body, a property read on `null`) becomes a generic 500. */
  const InternalError: Response := Response(500, Failure("Internal server error"))

  function Fail(statusCode: int, error: string): Response {
    Response(statusCode, Failure(error))
  }

}
