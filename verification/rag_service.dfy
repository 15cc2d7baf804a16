/** The answer orchestrator the controller uses: read the store status; with no documents
    answer in the unaugmented mode; otherwise run the retrieval chain and, when it fails
    with a Chroma failure, fall back to the unaugmented mode once.

    The general-assistant call is returned without being awaited inside the `try`, so its
    rejection never reaches the `catch`: a failure of that call is passed on as it is in both
    branches, and no second fallback is attempted from it. The retrieval chain calls the
    model too, inside `ChainInvoke`; a failure there is a chain failure like any other. */
module RagService {
  import opened Wrappers
  import opened Errors
  import opened ChromaErrorHandler
  import opened VectorStore
  import opened Answering

  /** `ask`: `documentCount` is what the status read returned, `chain` what the retrieval
      chain resolves or rejects with, `llm` what the general-assistant call resolves or
      rejects with. */
  function Ask(question: string, documentCount: int, chain: Result<ChainOutput, Error>, llm: Result<Content, Error>): (r: AskRun)
    ensures |r.calls| >= 2 && r.calls[0] == StatusRead
    ensures AssistantCalls(r.calls) <= 1
    ensures AssistantCalls(r.calls) == 1 ==> r.calls[|r.calls| - 1] == AssistantInvoke(GeneralAssistantSystem, question)
    ensures (ChainInvoke(question) in r.calls) <==> documentCount != 0
    // No documents: the unaugmented mode, whatever the general-assistant call does.
    ensures documentCount == 0 ==>
              && r.calls == [StatusRead, AssistantInvoke(GeneralAssistantSystem, question)]
              && r.result == AskGeneralAssistant(question, llm).result
    // Documents and a working chain: its answer and context, untouched.
    ensures documentCount != 0 && chain.Success? ==>
              && r.result == Success(Answer(chain.value.answer, chain.value.context))
              && r.calls == ChainTrace(question)
              && AssistantCalls(r.calls) == 0
    // A Chroma failure of the chain: one fallback to the unaugmented mode.
    ensures documentCount != 0 && chain.Failure? && IsChromaError(chain.error) ==>
              && r.calls == ChainTrace(question) + [AssistantInvoke(GeneralAssistantSystem, question)]
              && r.result == AskGeneralAssistant(question, llm).result
    // Any other chain failure: thrown again (a nullish one faults in the log line).
    ensures documentCount != 0 && chain.Failure? && !IsChromaError(chain.error) ==>
              && r.calls == ChainTrace(question)
              && r.result == Failure(AfterLoggingMessage(chain.error, chain.error))
    // Whenever the general assistant was called, its failure is the outcome, classified or not.
    ensures AssistantCalls(r.calls) == 1 && llm.Failure? ==> r.result == Failure(llm.error)
    ensures AssistantCalls(r.calls) == 1 && llm.Success? ==> r.result.Success? && r.result.value.context == []
  {
    TraceCounts(question);
    if documentCount == 0 then
      var general := AskGeneralAssistant(question, llm);
      AskRun(general.result, [StatusRead] + general.calls)
    else
      match chain
      case Success(out) => AskRun(Success(Answer(out.answer, out.context)), ChainTrace(question))
      case Failure(e) =>
        if IsChromaError(e) then
          var general := AskGeneralAssistant(question, llm);
          AskRun(general.result, ChainTrace(question) + general.calls)
        else
          AskRun(Failure(AfterLoggingMessage(e, e)), ChainTrace(question))
  }

  /** A chain that fails because the store is unreachable gives the caller exactly what an
      empty store gives: the same outcome from one general-assistant call. */
  lemma FallbackLooksLikeEmptyStore(question: string, documentCount: int, e: Error,
                                    chain: Result<ChainOutput, Error>, llm: Result<Content, Error>)
    requires documentCount != 0 && IsChromaError(e)
    ensures Ask(question, documentCount, Failure(e), llm).result == Ask(question, 0, chain, llm).result
  {
  }

  /** A store whose status cannot be read counts as empty: the chain is never invoked. */
  lemma UnreadableStatusSkipsChain(g: Gateway, collection: Result<Collection, Error>, count: Result<int, Error>,
                                   question: string, chain: Result<ChainOutput, Error>, llm: Result<Content, Error>)
    requires g.store.None? || collection.Failure? || count.Failure?
    ensures ChainInvoke(question) !in Ask(question, GetStatus(g, collection, count).documentCount, chain, llm).calls
  {
  }

  /** A general-assistant failure that would itself classify as a Chroma failure is still
      not recovered from: it is the outcome, after a single general-assistant call. */
  lemma ModelFailureNeverFallsBackTwice(question: string, documentCount: int,
                                        chain: Result<ChainOutput, Error>, e: Error)
    requires IsChromaError(e)
    requires documentCount == 0 || (chain.Failure? && IsChromaError(chain.error))
    ensures Ask(question, documentCount, chain, Failure(e)).result == Failure(e)
    ensures AssistantCalls(Ask(question, documentCount, chain, Failure(e)).calls) == 1
  {
    TraceCounts(question);
  }
}
