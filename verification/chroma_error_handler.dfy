/** The single classifier of vector-store failures: which thrown values mean "the Chroma
    server could not be reached", how such a value is wrapped into the 503
    `ChromaDBException`, and which values the answer orchestrator may recover from. */
module ChromaErrorHandler {
  import opened Wrappers
  import opened Strings
  import opened Errors

  /** The `name` the Chroma client gives its connection failures. */
  const ConnectionErrorName: string := "ChromaConnectionError"
  /** The text a generic error from the Chroma client carries when the server is unreachable. */
  const ConnectionNeedle: string := "Failed to connect to chromadb"
  /** Opening of the `details` of a wrapped failure when the operation is named. */
  const OperationPrefix: string := "Не удалось выполнить операцию \""

  /** `new ChromaDBException(message, cause)`. */
  function NewChromaDBException(message: Option<string>, cause: Option<Error>): (r: Error)
    ensures Status(r) == Some(ServiceUnavailable)
    ensures Name(r) == Some(ChromaDBExceptionName)
    ensures Message(r) == Some(UnavailableMessage)
    ensures Response(r) == Some(HttpBody(503, UnavailableMessage, "Service Unavailable", message))
    ensures r.ChromaDB? && r.details == message && r.cause == cause
  {
    ChromaDB(message, cause)
  }

  /** `isChromaConnectionError`: only objects qualify, and an object qualifies by its exact
      name or by the connection text anywhere in its message; a missing name or message
      counts as the empty string. */
  predicate IsConnectionError(e: Error)
    ensures IsConnectionError(e) <==>
              IsObject(e)
              && (Name(e) == Some(ConnectionErrorName) || Occurs(Message(e).GetOr(""), ConnectionNeedle))
  {
    if !IsObject(e) then false
    else
      var msg := Message(e).GetOr("");
      var name := Name(e).GetOr("");
      IncludesIffOccurs(msg, ConnectionNeedle);
      name == ConnectionErrorName || Includes(msg, ConnectionNeedle)
  }

  /** The `details` of the exception that wraps `e`: the operation named when there is a
      non-empty context, the bare message of `e` otherwise. */
  function WrappedDetails(e: Error, context: Option<string>): (r: Option<string>)
    ensures context.None? || context == Some("") ==> r == Message(e)
    ensures context.Some? && context.value != "" ==>
              r == Some(OperationPrefix + context.value + "\": " + Template(Message(e)))
  {
    if context.Some? && context.value != "" then
      Some(OperationPrefix + context.value + "\": " + Template(Message(e)))
    else
      Message(e)
  }

  /** `handleError` never returns: the value it throws is the result. A connection failure
      becomes a 503 `ChromaDBException` whose cause is the original; anything else is
      thrown again as it is. */
  function HandleError(e: Error, context: Option<string>): (thrown: Error)
    ensures IsConnectionError(e) ==>
              && Status(thrown) == Some(ServiceUnavailable)
              && thrown.ChromaDB?
              && thrown.cause == Some(e)
              && thrown.details == WrappedDetails(e, context)
    ensures !IsConnectionError(e) ==> thrown == e
  {
    if IsConnectionError(e) then NewChromaDBException(WrappedDetails(e, context), Some(e))
    else e
  }

  /** `isChromaError`: a connection failure, or one already wrapped. */
  predicate IsChromaError(e: Error)
    ensures !IsObject(e) ==> !IsChromaError(e)
    ensures e.ChromaDB? ==> IsChromaError(e)
    ensures !e.ChromaDB? ==> (IsChromaError(e) <==> IsConnectionError(e))
  {
    IsConnectionError(e) || e.ChromaDB?
  }

  /** A wrapped exception is not itself a connection failure: its name is its class and its
      message is the fixed user-facing text, which does not hold the connection text. */
  lemma WrappedIsNotConnectionError(details: Option<string>, cause: Option<Error>)
    ensures !IsConnectionError(ChromaDB(details, cause))
  {
    assert ConnectionNeedle[0] == 'F';
    NotIncludesWithoutHead(UnavailableMessage, ConnectionNeedle);
    IncludesIffOccurs(UnavailableMessage, ConnectionNeedle);
  }

  /** The connection text anywhere in the message of an object classifies it, whatever its name. */
  lemma NeedleClassifies(name: Option<string>, before: string, after: string)
    ensures IsConnectionError(Plain(name, Some(before + ConnectionNeedle + after)))
  {
    NeedleInContext(before, ConnectionNeedle, after);
    IncludesIffOccurs(before + ConnectionNeedle + after, ConnectionNeedle);
  }

  /** Handling twice throws what handling once throws. */
  lemma HandleErrorIdempotent(e: Error, c1: Option<string>, c2: Option<string>)
    ensures HandleError(HandleError(e, c1), c2) == HandleError(e, c1)
  {
    if IsConnectionError(e) {
      WrappedIsNotConnectionError(WrappedDetails(e, c1), Some(e));
    }
  }

  /** Whatever `handleError` throws is recoverable for the orchestrator exactly when the
      original was: wrapping neither creates nor loses a Chroma failure. */
  lemma HandleErrorKeepsChromaError(e: Error, context: Option<string>)
    ensures IsChromaError(HandleError(e, context)) <==> IsChromaError(e)
  {
  }
}
