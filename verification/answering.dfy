/** What both versions of the answer orchestrator share: the outcomes of the oracles they
    call, the answer they shape, the trace of calls they make, and the unaugmented
    "general assistant" mode, which the two versions implement identically. */
module Answering {
  import opened Wrappers
  import opened Errors
  import opened Documents

  /** The system instruction of the unaugmented mode. */
  const GeneralAssistantSystem: string :=
    "Ты — полезный помощник. Отвечай на вопросы пользователя на основе своих знаний. Будь краток и информативен."

  /** The `content` of a model response: a string, or an array of content-part objects. */
  datatype Content = Text(text: string) | Parts(count: nat)

  /** What the retrieval chain resolves to. */
  datatype ChainOutput = ChainOutput(answer: string, context: seq<Document>)

  /** The `{ answer, context }` the service resolves to. */
  datatype Answer = Answer(answer: string, context: seq<Document>)

  /** The oracles an `ask` consults, in order: the store status, the retrieval chain with
      the question as input (which calls the model itself, inside the chain), and the
      model directly with the general-assistant instruction and the question. */
  datatype Call = StatusRead | ChainInvoke(input: string) | AssistantInvoke(system: string, human: string)

  /** What one `ask` resolves or rejects with, and the calls it made. */
  datatype AskRun = AskRun(result: Result<Answer, Error>, calls: seq<Call>)

  const ObjectText: string := "[object Object]"

  /** `String(parts)` for an array of n objects: their `toString` texts joined by commas.
      Part i occupies the 15 characters from 16i, and a comma precedes every part but the
      first. */
  function PartsText(n: nat): (r: string)
    ensures r == "" <==> n == 0
    ensures n > 0 ==> |r| == 16 * n - 1
    ensures forall i :: 0 <= i < n ==> r[16 * i..16 * i + 15] == ObjectText
    ensures forall i :: 0 < i < n ==> r[16 * i - 1] == ','
  {
    if n == 0 then ""
    else if n == 1 then ObjectText
    else
      var prev := PartsText(n - 1);
      var r := prev + "," + ObjectText;
      assert r[16 * (n - 1)..16 * (n - 1) + 15] == ObjectText;
      assert forall i :: 0 <= i < n - 1 ==> r[16 * i..16 * i + 15] == prev[16 * i..16 * i + 15];
      r
  }

  /** `typeof content === 'string' ? content : String(content)`: a string is the text
      itself; an array of parts is rendered, one `[object Object]` per part,
      comma-separated. */
  function ContentText(c: Content): (r: string)
    ensures c.Text? ==> r == c.text
    ensures c.Parts? ==> (r == "" <==> c.count == 0)
    ensures c.Parts? && c.count > 0 ==> |r| == 16 * c.count - 1
    ensures c.Parts? ==> forall i :: 0 <= i < c.count ==> r[16 * i..16 * i + 15] == ObjectText
    ensures c.Parts? ==> forall i :: 0 < i < c.count ==> r[16 * i - 1] == ','
  {
    match c
    case Text(s) => s
    case Parts(n) => PartsText(n)
  }

  /** `askGeneralAssistant`: one model call with the general instruction and the raw
      question; the answer is the response text and the context is always empty; a model
      failure is passed on as it is. */
  function AskGeneralAssistant(question: string, llm: Result<Content, Error>): (r: AskRun)
    ensures r.calls == [AssistantInvoke(GeneralAssistantSystem, question)]
    ensures llm.Failure? ==> r.result == Failure(llm.error)
    ensures llm.Success? ==> r.result.Success? && r.result.value.context == []
    ensures llm.Success? && llm.value.Text? ==> r.result.value.answer == llm.value.text
    ensures llm.Success? && llm.value.Parts? ==> r.result.value.answer == PartsText(llm.value.count)
  {
    match llm
    case Success(content) => AskRun(Success(Answer(ContentText(content), [])), [AssistantInvoke(GeneralAssistantSystem, question)])
    case Failure(e) => AskRun(Failure(e), [AssistantInvoke(GeneralAssistantSystem, question)])
  }

  /** How many direct general-assistant calls a trace holds. The model call the retrieval
      chain makes internally is part of `ChainInvoke` and is not counted here. */
  function AssistantCalls(calls: seq<Call>): nat {
    if calls == [] then 0
    else (if calls[0].AssistantInvoke? then 1 else 0) + AssistantCalls(calls[1..])
  }

  lemma {:induction false} AssistantCallsAppend(a: seq<Call>, b: seq<Call>)
    ensures AssistantCalls(a + b) == AssistantCalls(a) + AssistantCalls(b)
    decreases |a|
  {
    if a == [] {
      assert a + b == b;
    } else {
      assert (a + b)[0] == a[0];
      assert (a + b)[1..] == a[1..] + b;
      AssistantCallsAppend(a[1..], b);
    }
  }

  /** A trace of calls none of which is a general-assistant call. */
  lemma {:induction false} NoAssistantCalls(calls: seq<Call>)
    requires forall i :: 0 <= i < |calls| ==> !calls[i].AssistantInvoke?
    ensures AssistantCalls(calls) == 0
    decreases |calls|
  {
    if calls != [] {
      NoAssistantCalls(calls[1..]);
    }
  }

  /** The trace of a run that went to the chain and then, possibly, to the model. */
  function ChainTrace(question: string): seq<Call> {
    [StatusRead, ChainInvoke(question)]
  }

  /** The general-assistant call counts of the three traces an `ask` can leave. */
  lemma TraceCounts(question: string)
    ensures AssistantCalls(ChainTrace(question)) == 0
    ensures AssistantCalls([StatusRead] + [AssistantInvoke(GeneralAssistantSystem, question)]) == 1
    ensures AssistantCalls(ChainTrace(question) + [AssistantInvoke(GeneralAssistantSystem, question)]) == 1
  {
    NoAssistantCalls(ChainTrace(question));
    NoAssistantCalls([StatusRead]);
    AssistantCallsAppend([StatusRead], [AssistantInvoke(GeneralAssistantSystem, question)]);
    AssistantCallsAppend(ChainTrace(question), [AssistantInvoke(GeneralAssistantSystem, question)]);
  }
}
