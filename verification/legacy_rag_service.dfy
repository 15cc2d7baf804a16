/** The earlier answer orchestrator, with its own inline classifier instead of the shared
    handler. Its flow is that of the current one; it differs in what it recovers from. */
module LegacyRagService {
  import opened Wrappers
  import opened Strings
  import opened Errors
  import opened ChromaErrorHandler
  import opened Answering
  import Current = RagService

  /** The inline `isChromaConnectionError`: it reads `message` before anything else and has
      no guard, so classifying `null` or `undefined` throws a TypeError. On every other value
      it agrees with the shared classifier. */
  function InlineIsConnectionError(e: Error): (r: Result<bool, Error>)
    ensures Nullish(e) ==> r == Failure(PropertyFault(e, "message"))
    ensures !Nullish(e) ==> r == Success(IsConnectionError(e))
  {
    if Nullish(e) then Failure(PropertyFault(e, "message"))
    else
      var msg := Message(e).GetOr("");
      Success(Name(e) == Some(ConnectionErrorName) || Includes(msg, ConnectionNeedle))
  }

  /** The inline classifier does not recognise an exception already wrapped by the handler. */
  lemma InlineRejectsWrapped(details: Option<string>, cause: Option<Error>)
    ensures InlineIsConnectionError(ChromaDB(details, cause)) == Success(false)
  {
    WrappedIsNotConnectionError(details, cause);
  }

  /** `ask` of the earlier version, over the same oracle outcomes as the current one. */
  function Ask(question: string, documentCount: int, chain: Result<ChainOutput, Error>, llm: Result<Content, Error>): (r: AskRun)
    ensures |r.calls| >= 2 && r.calls[0] == StatusRead
    ensures AssistantCalls(r.calls) <= 1
    ensures (ChainInvoke(question) in r.calls) <==> documentCount != 0
    ensures documentCount == 0 ==>
              && r.calls == [StatusRead, AssistantInvoke(GeneralAssistantSystem, question)]
              && r.result == AskGeneralAssistant(question, llm).result
    ensures documentCount != 0 && chain.Success? ==>
              && r.result == Success(Answer(chain.value.answer, chain.value.context))
              && r.calls == ChainTrace(question)
              && AssistantCalls(r.calls) == 0
    // Only an unwrapped connection failure falls back.
    ensures documentCount != 0 && chain.Failure? && IsConnectionError(chain.error) ==>
              && r.calls == ChainTrace(question) + [AssistantInvoke(GeneralAssistantSystem, question)]
              && r.result == AskGeneralAssistant(question, llm).result
    // Everything else, a wrapped `ChromaDBException` included, is thrown again unchanged.
    ensures documentCount != 0 && chain.Failure? && !Nullish(chain.error) && !IsConnectionError(chain.error) ==>
              r == AskRun(Failure(chain.error), ChainTrace(question))
    // Classifying a nullish rejection is what throws.
    ensures documentCount != 0 && chain.Failure? && Nullish(chain.error) ==>
              r == AskRun(Failure(PropertyFault(chain.error, "message")), ChainTrace(question))
    ensures AssistantCalls(r.calls) == 1 && llm.Failure? ==> r.result == Failure(llm.error)
  {
    TraceCounts(question);
    if documentCount == 0 then
      var general := AskGeneralAssistant(question, llm);
      AskRun(general.result, [StatusRead] + general.calls)
    else
      match chain
      case Success(out) => AskRun(Success(Answer(out.answer, out.context)), ChainTrace(question))
      case Failure(e) =>
        match InlineIsConnectionError(e)
        case Failure(fault) => AskRun(Failure(fault), ChainTrace(question))
        case Success(true) =>
          var general := AskGeneralAssistant(question, llm);
          AskRun(general.result, ChainTrace(question) + general.calls)
        case Success(false) => AskRun(Failure(e), ChainTrace(question))
  }

  /** The two versions give the same outcome and make the same calls on every input except
      a chain rejection carrying a `ChromaDBException`. In particular the missing null guard
      changes nothing observable: the current version faults on the same property read,
      in its log line instead of its classifier. */
  lemma VersionsAgreeExceptOnWrapped(question: string, documentCount: int,
                                     chain: Result<ChainOutput, Error>, llm: Result<Content, Error>)
    requires !(chain.Failure? && chain.error.ChromaDB?)
    ensures Ask(question, documentCount, chain, llm) == Current.Ask(question, documentCount, chain, llm)
  {
    var legacy := Ask(question, documentCount, chain, llm);
    var current := Current.Ask(question, documentCount, chain, llm);
    if documentCount != 0 && chain.Failure? {
      var e := chain.error;
      if Nullish(e) {
        assert !IsChromaError(e);
        assert current.result == Failure(PropertyFault(e, "message"));
      } else if IsConnectionError(e) {
        assert IsChromaError(e);
      } else {
        assert !IsChromaError(e);
      }
    }
  }

  /** On a wrapped `ChromaDBException` from the chain the earlier version throws it again
      while the current one answers in the unaugmented mode. */
  lemma VersionsDifferOnWrapped(question: string, documentCount: int, details: Option<string>,
                                cause: Option<Error>, llm: Result<Content, Error>)
    requires documentCount != 0
    ensures Ask(question, documentCount, Failure(ChromaDB(details, cause)), llm)
            == AskRun(Failure(ChromaDB(details, cause)), ChainTrace(question))
    ensures Current.Ask(question, documentCount, Failure(ChromaDB(details, cause)), llm).calls
            == ChainTrace(question) + [AssistantInvoke(GeneralAssistantSystem, question)]
  {
    WrappedIsNotConnectionError(details, cause);
  }
}
