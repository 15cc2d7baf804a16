# Failure policy of a retrieval-augmented question answerer, in Dafny

This project models the decision and failure-handling layer of a NestJS service that answers
questions from uploaded documents. The layer has five parts:

- the `ChromaDBErrorHandler`. It decides whether a thrown value means "the Chroma server
  could not be reached". It wraps such values into a 503 `ChromaDBException` and tells the
  orchestrator what it may recover from.
- the `VectorStoreService`. It holds at most one Chroma store, created once from the
  configuration, and exposes `addDocuments`, `getRetriever` and `getStatus`.
- the current `RagService.ask` (`src/agent/services/rag.service.ts`). It reads the store status,
  answers without retrieval when the store is empty, and otherwise runs the retrieval chain.
  When the chain fails with a Chroma failure, it falls back to that unaugmented mode once.
- the earlier `RagService.ask` (`src/agent/rag.service.ts`). It has an inline classifier with
  no null guard and no knowledge of `ChromaDBException`.
- the `DocumentLoaderService.loadFromFile` upload gate. It rejects uploads without bytes or
  with an unsupported format. It builds a sanitised, time-stamped temporary file name and
  hands the file to the parser. Parser failures are wrapped, and the temporary file is
  removed on every path.

Everything the layer calls is an oracle whose outcome is a parameter:

- the language model
- the embeddings
- the Chroma client
- the retrieval chain
- the PDF and text parsers
- `fs.writeFile` and `fs.unlink`
- `Date.now()` and `os.tmpdir()`

Thrown values are the datatype `Errors.Error`:

- `undefined` and `null`
- a primitive
- an object with an optional `name` and `message`
- `ChromaDBException`
- `BadRequestException`

Every `catch` that logs `(err as Error).message` is modelled with its JavaScript consequence:
a `null` or `undefined` value makes that property read throw a `TypeError`, and that
`TypeError` is what escapes.

The modules follow the source files:

| module | file |
|---|---|
| `Wrappers`, `Strings`, `Paths`, `Errors`, `Documents` | shared vocabulary. `Strings` holds `includes`, ASCII `toLowerCase` and decimal rendering. `Paths` holds Node's POSIX `path.extname`. |
| `ChromaErrorHandler` | `src/agent/services/chromadb-error-handler.service.ts` |
| `VectorStore` | `src/agent/services/vector-store.service.ts` |
| `Answering`, `RagService` | `src/agent/services/rag.service.ts` |
| `LegacyRagService` | `src/agent/rag.service.ts` |
| `DocumentLoader` | `src/agent/services/document-loader.service.ts` |

Three facts about the code shape the model.

- In both versions of `ask`, `return this.askGeneralAssistant(question)` is not awaited
  inside the `try`. A failure of that general-assistant call therefore never reaches the
  `catch` and is passed on as it is. No second fallback is attempted from it, even when its
  failure would classify as a Chroma failure. The retrieval chain calls the same model
  internally. A failure there is a chain failure, so it can lead to the fallback.
- The two versions of `ask` give the same outcome and make the same calls on every input
  except one: a chain rejection carrying a `ChromaDBException`. The earlier version's
  missing null guard changes nothing observable. The current version faults on the same
  property read, in its log line instead of its classifier.
- The status read is meant never to fail. The code does not keep that
  promise for a `null` or `undefined` rejection (see Findings). The model keeps the code
  as written and proves the intended behaviour of a corrected version.

## Model

| member | source | states |
|---|---|---|
| ChromaErrorHandler.NewChromaDBException | src/agent/services/chromadb-error-handler.service.ts:8-26 | every `ChromaDBException` answers 503, is named `ChromaDBException`, carries the fixed user-facing text as its message and body, and keeps the given details and cause |
| ChromaErrorHandler.IsConnectionError | src/agent/services/chromadb-error-handler.service.ts:35-48 | holds exactly for objects whose name is `ChromaConnectionError` or whose message (missing reads as empty) contains the connection text somewhere; `null`, `undefined` and primitives never qualify |
| ChromaErrorHandler.NeedleClassifies | src/agent/services/chromadb-error-handler.service.ts:41-47 | an object whose message contains the connection text anywhere is classified as a connection failure, whatever its name |
| ChromaErrorHandler.WrappedDetails | src/agent/services/chromadb-error-handler.service.ts:62-64 | with a non-empty operation name the details name the operation and then quote the original message; without one they are the original message itself |
| ChromaErrorHandler.HandleError | src/agent/services/chromadb-error-handler.service.ts:59-76 | a connection failure is thrown as a 503 `ChromaDBException` whose cause is the original and whose details are the wrapped details; any other value is thrown again identically |
| ChromaErrorHandler.IsChromaError | src/agent/services/chromadb-error-handler.service.ts:85-87 | a `ChromaDBException` is always recoverable, any other value exactly when it is a connection failure, and no non-object ever is |
| ChromaErrorHandler.WrappedIsNotConnectionError | src/agent/services/chromadb-error-handler.service.ts:8-20 | a wrapped exception is not itself a connection failure: neither its class name nor its fixed message matches |
| ChromaErrorHandler.HandleErrorIdempotent | src/agent/services/chromadb-error-handler.service.ts:59-76 | handling what the handler threw throws it again unchanged, whatever the operation name |
| ChromaErrorHandler.HandleErrorKeepsChromaError | src/agent/services/chromadb-error-handler.service.ts:59-87 | what the handler throws is recoverable for the orchestrator exactly when the original was |
| Strings.IncludesIffOccurs | src/agent/services/chromadb-error-handler.service.ts:46 | the recursive `includes` agrees with "occurs at some index", in both directions |
| VectorStore.SetEmbeddings | src/agent/services/vector-store.service.ts:29-53 | the embeddings are always replaced; an existing store is kept and nothing is thrown; otherwise a store is created from the configuration exactly when both settings are non-empty, and the missing-configuration error leaves it unset |
| VectorStore.StoreNeverReplaced | src/agent/services/vector-store.service.ts:37-38 | once a store exists, no sequence of later initialisations replaces it |
| VectorStore.IncompleteConfigNeverInitialises | src/agent/services/vector-store.service.ts:40-47 | while every configuration read is incomplete, no sequence of initialisations creates a store |
| VectorStore.AddDocuments | src/agent/services/vector-store.service.ts:67-83 | a missing or empty list yields `[]` without touching the store; the store is called exactly for a non-empty list and an existing store; success returns exactly the store's ids; a connection failure becomes a 503 whose details name `addDocuments` and quote the original message and whose cause is the original, any other failure is thrown unchanged, a nullish one faults in the log line; with no store the `TypeError` of calling through `undefined` escapes |
| VectorStore.NotAConnectionFault | src/agent/services/vector-store.service.ts:70-82 | the `TypeError` of reading `message` or `addDocuments` (any property whose name has no `F`) of `null` or `undefined` is never taken for a connection failure |
| VectorStore.GetRetriever | src/agent/services/vector-store.service.ts:93-104 | without a store the plain "not initialised" error is thrown unchanged; with one, a retriever over it with the requested k is returned unless the store throws, in which case a connection failure is wrapped into a 503 whose details name `getRetriever` and whose cause is the original, and anything else is thrown as it is |
| VectorStore.NotInitialisedIsNotConnectionError | src/agent/services/vector-store.service.ts:96-98 | the "not initialised" error does not match the connection classifier, so the handler passes it through |
| VectorStore.GetStatusAsWritten | src/agent/services/vector-store.service.ts:112-128 | as written, the status read fails exactly when the store exists and it reaches a `null` or `undefined` rejection, and then with a `TypeError`; on every other input it answers what the corrected read answers |
| VectorStore.GetStatusAsWrittenThrows | src/agent/services/vector-store.service.ts:122-125 | as written, a `null` or `undefined` rejection from the collection or count read escapes the status read as a `TypeError` |
| VectorStore.GetStatus | src/agent/services/vector-store.service.ts:112-128 | the corrected status read never fails; it reports a non-zero count exactly when the store exists, the collection has a `count` function and the count resolves to a non-zero number, which it then reports unchanged |
| VectorStore.GetStatusAsWrittenAgrees | src/agent/services/vector-store.service.ts:112-128 | the status read as written and the corrected one agree on every input without a nullish rejection |
| Answering.PartsText | src/agent/services/rag.service.ts:102-107 | `String` of an array of n content-part objects is empty exactly for no parts; otherwise it is n copies of `[object Object]`, part i at offset 16i, with a comma before every part but the first (16n-1 characters) |
| Answering.ContentText | src/agent/services/rag.service.ts:103-106 | a string response is the text verbatim; an array response is one `[object Object]` per part, comma-separated, and empty exactly when it has no parts |
| Answering.AskGeneralAssistant | src/agent/services/rag.service.ts:94-109 | one model call with the general instruction and the raw question; a string response is the answer verbatim, an array response is its `String` rendering, and the context is always empty; a model failure is the outcome |
| RagService.Ask | src/agent/services/rag.service.ts:117-150 | the status is read first; the chain is invoked exactly when the count is non-zero; the general-assistant call is made at most once and last; no documents means the unaugmented answer; a chain success is passed through untouched, after one status read and one chain call; a Chroma failure of the chain gives one fallback; any other failure is thrown again (a nullish one faults in the log line); a failure of the general-assistant call is always the outcome |
| RagService.FallbackLooksLikeEmptyStore | src/agent/services/rag.service.ts:120-141 | a chain that fails with a Chroma failure gives the caller exactly what an empty store gives |
| RagService.UnreadableStatusSkipsChain | src/agent/services/rag.service.ts:121-128 | when the store is missing or its status cannot be read, the chain is never invoked |
| RagService.ModelFailureNeverFallsBackTwice | src/agent/services/rag.service.ts:123-141 | a failure of the general-assistant call that would itself classify as a Chroma failure is still the outcome, after exactly one general-assistant call |
| LegacyRagService.InlineIsConnectionError | src/agent/rag.service.ts:112-119 | on `null` and `undefined` the inline classifier faults reading `message`; on every other value it agrees with the shared connection classifier |
| LegacyRagService.InlineRejectsWrapped | src/agent/rag.service.ts:112-119 | the inline classifier does not recognise an exception the handler already wrapped |
| LegacyRagService.Ask | src/agent/rag.service.ts:126-156 | the same flow as the current version (a chain success after one status read and one chain call), except that only an unwrapped connection failure falls back; any other failure, a wrapped `ChromaDBException` included, is thrown again, and a nullish one faults in the classifier |
| LegacyRagService.VersionsAgreeExceptOnWrapped | src/agent/rag.service.ts:126-156 | the two versions give the same outcome and the same calls on every input whose chain does not reject with a `ChromaDBException` |
| LegacyRagService.VersionsDifferOnWrapped | src/agent/rag.service.ts:142-155 | on a chain rejection carrying a `ChromaDBException` the earlier version throws it again while the current one falls back to the model |
| Paths.ExtName | src/agent/services/document-loader.service.ts:35 | the extension is empty or a dot followed by characters that are neither slashes nor dots; a non-empty one is the tail of the path before its trailing slashes and does not start the last segment; a slash-free name other than `..` with a dot after its first character always has one |
| Paths.ExtNameWithoutDot | src/agent/services/document-loader.service.ts:35 | a name without a dot has no extension |
| Paths.ExtNameOfStemAndSuffix | src/agent/services/document-loader.service.ts:35 | a slash-free name made of a non-empty stem, a dot and a dot-free suffix has that dotted suffix as its extension |
| Strings.ToLower | src/agent/services/document-loader.service.ts:34-35 | lower-casing keeps the length and maps every character to its lower-case form |
| Strings.ToLowerIdempotent | src/agent/services/document-loader.service.ts:34-35 | lower-casing twice is lower-casing once |
| DocumentLoader.Classify | src/agent/services/document-loader.service.ts:34-51 | PDF exactly when the lower-cased MIME type or extension says PDF; text exactly when it is not PDF and one of them says text; rejected exactly when neither holds |
| DocumentLoader.UpperCasePdfAccepted | src/agent/services/document-loader.service.ts:35-36 | a name ending in `.PDF` with no MIME type is loaded as a PDF, because the extension is lower-cased before the comparison |
| DocumentLoader.ClassifyIgnoresCase | src/agent/services/document-loader.service.ts:34-35 | the classification of a file does not change when its MIME type is lower-cased first |
| DocumentLoader.PlainTextWithoutExtension | src/agent/services/document-loader.service.ts:34-37 | a `text/plain` upload without an extension is loaded as text |
| DocumentLoader.ExecutableRejected | src/agent/services/document-loader.service.ts:34-43 | an upload named `*.exe` with no MIME type is rejected |
| DocumentLoader.PdfNameBeatsTextMime | src/agent/services/document-loader.service.ts:36-51 | a `.pdf` name wins over a `text/plain` MIME type |
| DocumentLoader.Sanitize | src/agent/services/document-loader.service.ts:46 | the sanitised name has the original's length, only allowed characters, keeps every allowed character in place and puts `_` for every other one |
| DocumentLoader.SanitizeIdempotent | src/agent/services/document-loader.service.ts:46 | sanitising a sanitised name changes nothing |
| DocumentLoader.SanitizeKeepsSafeNames | src/agent/services/document-loader.service.ts:46 | a name made only of allowed characters is kept as it is |
| Strings.Decimal | src/agent/services/document-loader.service.ts:47 | the rendering of a timestamp is a non-empty string of decimal digits, one digit long exactly below ten, and never starts with `0` when it has more than one digit |
| Strings.DecimalRoundTrip | src/agent/services/document-loader.service.ts:47 | reading the decimal rendering of a number back gives that number |
| Strings.DecimalInjective | src/agent/services/document-loader.service.ts:47 | different numbers render differently |
| DocumentLoader.SafeName | src/agent/services/document-loader.service.ts:45-46 | the safe name is never empty and holds only allowed characters; a missing or empty original name becomes `upload`; any other keeps its length and its allowed characters in place and has `_` for every other character |
| DocumentLoader.TempName | src/agent/services/document-loader.service.ts:47 | the temporary name is `rag-upload-`, then digits without a leading zero that read back to the timestamp, then a dash and the safe name |
| DocumentLoader.TempPath | src/agent/services/document-loader.service.ts:45-47 | the temporary path is the temporary directory, a slash and the temporary name, and nothing after that slash is another slash |
| DocumentLoader.TempNameIsOneSegment | src/agent/services/document-loader.service.ts:46-47 | the temporary name contains no slash, so the file lands directly in the temporary directory whatever the original name holds |
| DocumentLoader.TempNamesDifferInTime | src/agent/services/document-loader.service.ts:47 | two uploads of the same file at different milliseconds use different temporary names |
| DocumentLoader.LoadFailure | src/agent/services/document-loader.service.ts:57-59 | a write or parse failure becomes a 400 whose text starts with `Failed to load document: ` and quotes the original message; a nullish one faults in the log line |
| DocumentLoader.Attempt | src/agent/services/document-loader.service.ts:49-59 | the write comes first; a failed write stops there with the wrapped failure; otherwise the parser for the kind runs and its documents or wrapped failure are the outcome; no removal happens inside the `try` |
| DocumentLoader.LoadFromFile | src/agent/services/document-loader.service.ts:29-63 | no bytes and an unsupported format are rejected before anything is written; otherwise the file is written first and removed last, exactly once, on every path; a write failure still removes it; the documents returned are exactly the parser's |
| DocumentLoader.UnlinkFailureSwallowed | src/agent/services/document-loader.service.ts:60-62 | a failure to remove the temporary file never changes the outcome |

## Left out

- The language model, the embeddings provider, the Chroma client, the retrieval and
  stuff-documents chains and the prompt templates are remote or library code. Each call
  into them is a parameter giving its outcome. The retrieval-augmented system prompt is
  therefore not modelled.
- `onModuleInit` of both services is left out: the HTTPS agent, the model and embeddings
  construction and building the chain. The store it initialises is modelled by
  `VectorStore.SetEmbeddings` over a configuration parameter.
- `src/agent/vector-store.service.ts`, which the earlier service imports, is not part of
  this model. The earlier `ask` is modelled over the same status count as the current one.
- The text splitter, the controller, the DTO and the Nest modules are left out. They are
  wiring around a library splitter.
- All logging is left out, except where a log line's own property read faults.
- Concurrency is not modelled. Two uploads of the same name in the same millisecond would
  share a temporary path. `DocumentLoader.TempNamesDifferInTime` only separates
  different milliseconds.
- Strings.ToLower: only ASCII letters are lower-cased. JavaScript's full Unicode mapping is
  not modelled. The only non-ASCII character that lower-cases to an ASCII letter is the
  Kelvin sign, which becomes `k`, and no MIME type or extension compared here contains `k`.
  So every classification decision is the same as the source's.
- DocumentLoader.Sanitize: works on Dafny characters, not UTF-16 code units. The source
  replaces a character outside the Basic Multilingual Plane with two underscores; the model
  replaces it with one.
- DocumentLoader.TempPath: `path.join` is modelled as the directory, a slash and the name.
  The normalisation `path.join` applies to the directory (repeated or trailing slashes,
  `.` and `..` segments) is not modelled.
- Paths.ExtName: follows Node's POSIX `path.extname`. Windows path semantics are not
  modelled.
- Thrown values: `name` and `message` are strings or absent. Non-string values of those
  properties are not modelled. A `ChromaDBException`'s message is the `message` of its
  response body, as Nest derives it.
- RagService.Ask and LegacyRagService.Ask take the status count as an integer. A
  non-numeric count is not modelled. The count is what `VectorStore.GetStatus` reports,
  so the rare `TypeError` of the status read as written (see Findings) is not fed into `ask`.
- The retrieval chain is built with the same model (`src/agent/services/rag.service.ts:79-87`).
  Its own model call happens inside `ChainInvoke` and is not counted by
  `Answering.AssistantCalls`. So the "at most once" of `RagService.Ask` and
  `LegacyRagService.Ask` is about the direct general-assistant call. When an in-chain model
  failure classifies as a Chroma failure, the fallback calls the model a second time.
- VectorStore.GetRetriever: the default `k` (`RAG_CONSTANTS.DEFAULT_RETRIEVER_K`) is not
  modelled, because the constants file is not part of this model. The caller always passes `k`.
- Strings.Decimal: agrees with JavaScript's `${n}` only below 10^21, where JavaScript switches
  to exponent notation. `Date.now()` timestamps stay far below that.
- Answering.PartsText: an array content is modelled as a number of plain objects, each
  rendered `[object Object]`. Parts with their own `toString` are not modelled.

## Findings

| source | as written | input that shows it | evidently intended | confidence | as-written member | corrected member |
|---|---|---|---|---|---|---|
| src/agent/services/vector-store.service.ts:122-127 | the `catch` of `getStatus` logs `(err as Error).message` before answering 0 | `ensureCollection()` or `count()` rejects with `undefined` or `null`: the log line throws a `TypeError`, so the status read fails | every failure of the status read reports zero documents and nothing is thrown | medium, not executed | VectorStore.GetStatusAsWritten, VectorStore.GetStatusAsWrittenThrows | VectorStore.GetStatus |
