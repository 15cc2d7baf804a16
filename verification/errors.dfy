/** The values the service throws and catches, as far as its handlers look at them:
    nothing at all (`null`, `undefined`), a primitive, an `Error`-like object with an
    optional `name` and `message`, and the two HTTP exceptions the core raises. */
module Errors {
  import opened Wrappers

  datatype Error =
    | Undefined
    | Null
      /** A thrown string, number or boolean: `typeof` is not `'object'`. */
    | Primitive(text: string)
      /** An object; a missing `name` or `message` reads as `undefined`. */
    | Plain(name: Option<string>, message: Option<string>)
      /** `ChromaDBException`: the internal `details` and the optional `cause`. */
    | ChromaDB(details: Option<string>, cause: Option<Error>)
      /** NestJS `BadRequestException` raised with a text. */
    | BadRequest(text: string)

  const ServiceUnavailable: int := 503
  const BadRequestStatus: int := 400

  const ChromaDBExceptionName: string := "ChromaDBException"
  const BadRequestName: string := "BadRequestException"

  /** The fixed user-facing text of every `ChromaDBException`, built from pieces so that
      facts about its characters stay cheap to prove. */
  const UnavailableMessage: string :=
    "Векторное " + "хранилище " + "временно " + "недоступно. " + "Попробуйте " + "позже."
  const UnavailableLabel: string := "Service Unavailable"
  const BadRequestLabel: string := "Bad Request"

  /** `null` and `undefined`: reading any property of them faults. */
  predicate Nullish(e: Error) {
    e.Undefined? || e.Null?
  }

  /** `err && typeof err === 'object'`. */
  predicate IsObject(e: Error) {
    !Nullish(e) && !e.Primitive?
  }

  /** The body an `HttpException` carries, when the value is one. */
  datatype HttpBody = HttpBody(statusCode: int, message: string, error: string, details: Option<string>)

  function Response(e: Error): Option<HttpBody> {
    match e
    case ChromaDB(details, _) => Some(HttpBody(ServiceUnavailable, UnavailableMessage, UnavailableLabel, details))
    case BadRequest(text) => Some(HttpBody(BadRequestStatus, text, BadRequestLabel, None))
    case _ => None
  }

  /** The HTTP status an exception filter would answer with, for the HTTP exceptions. */
  function Status(e: Error): (r: Option<int>)
    ensures r.Some? <==> e.ChromaDB? || e.BadRequest?
  {
    match Response(e)
    case Some(body) => Some(body.statusCode)
    case None => None
  }

  /** `err.name` on a value that is not nullish: an HTTP exception is named after its class. */
  function Name(e: Error): Option<string> {
    match e
    case Plain(name, _) => name
    case ChromaDB(_, _) => Some(ChromaDBExceptionName)
    case BadRequest(_) => Some(BadRequestName)
    case _ => None
  }

  /** `err.message` on a value that is not nullish: an HTTP exception takes the `message`
      of its response body. */
  function Message(e: Error): Option<string> {
    match e
    case Plain(_, message) => message
    case ChromaDB(_, _) => Some(UnavailableMessage)
    case BadRequest(text) => Some(text)
    case _ => None
  }

  /** `${v}` inside a template literal: a missing value renders as "undefined". */
  function Template(v: Option<string>): string {
    v.GetOr("undefined")
  }

  /** The `TypeError` raised by reading property `prop` of `null` or `undefined`. */
  function PropertyFault(e: Error, prop: string): (r: Error)
    requires Nullish(e)
    ensures IsObject(r) && Name(r) == Some("TypeError")
  {
    var what := if e.Null? then "null" else "undefined";
    Plain(Some("TypeError"), Some("Cannot read properties of " + what + " (reading '" + prop + "')"))
  }

  /** What a `catch` block that logs `(err as Error).message` ends up throwing when it
      goes on to throw `thrown`: the fault when `err` is nullish, otherwise `thrown`. */
  function AfterLoggingMessage(err: Error, thrown: Error): Error {
    if Nullish(err) then PropertyFault(err, "message") else thrown
  }
}
