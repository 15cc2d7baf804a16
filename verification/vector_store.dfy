/** The store gateway: a service that holds at most one Chroma store, created once from
    the configuration, and exposes adding documents, a retriever and a document count.
    The Chroma client is not modelled; each call into it is a parameter giving its outcome. */
module VectorStore {
  import opened Wrappers
  import opened Errors
  import opened ChromaErrorHandler
  import opened Documents

  /** An embeddings provider; only its identity matters here. */
  datatype Embeddings = Embeddings(id: nat)

  /** A Chroma store as constructed: the embeddings it was given, its URL and collection. */
  datatype Store = Store(embeddings: Embeddings, url: string, collectionName: string)

  /** The service's two fields; both start unset. */
  datatype Gateway = Gateway(embeddings: Option<Embeddings>, store: Option<Store>)

  /** `CHROMA_DB_PATH` and `CHROMA_COLLECTION_NAME` as the configuration returns them. */
  datatype Config = Config(dbPath: Option<string>, collectionName: Option<string>)

  /** A call that changes the service: the fields afterwards and whether it threw. */
  datatype Step = Step(gateway: Gateway, outcome: Result<(), Error>)

  const Uninitialised: Gateway := Gateway(None, None)

  const ConfigMissing: Error :=
    Plain(Some("Error"), Some("CHROMA_DB_PATH and CHROMA_COLLECTION_NAME must be set in environment"))

  const NotInitialisedMessage: string := "Векторное " + "хранилище " + "не " + "инициализировано"
  const NotInitialised: Error := Plain(Some("Error"), Some(NotInitialisedMessage))

  /** Both settings present and non-empty (`?? ''` then a truthiness test). */
  predicate Configured(cfg: Config) {
    cfg.dbPath.GetOr("") != "" && cfg.collectionName.GetOr("") != ""
  }

  /** `setEmbeddings` followed by `initializeStore`: the embeddings are always replaced, the
      store is created only when none exists yet, and only from a complete configuration. */
  function SetEmbeddings(g: Gateway, emb: Embeddings, cfg: Config): (s: Step)
    ensures s.gateway.embeddings == Some(emb)
    ensures g.store.Some? ==> s.gateway.store == g.store && s.outcome.Success?
    ensures g.store.None? ==> (s.outcome.Success? <==> Configured(cfg))
    ensures s.outcome.Failure? ==> s.outcome.error == ConfigMissing && s.gateway.store.None?
    ensures g.store.None? && s.outcome.Success? ==>
              s.gateway.store == Some(Store(emb, cfg.dbPath.value, cfg.collectionName.value))
  {
    var g1 := g.(embeddings := Some(emb));
    if g1.store.Some? then Step(g1, Success(()))
    else
      var dbPath := cfg.dbPath.GetOr("");
      var name := cfg.collectionName.GetOr("");
      if dbPath == "" || name == "" then Step(g1, Failure(ConfigMissing))
      else Step(g1.(store := Some(Store(emb, dbPath, name))), Success(()))
  }

  /** The service after a series of `setEmbeddings` calls, each with its embeddings and
      the configuration it reads. */
  function Replay(g: Gateway, calls: seq<(Embeddings, Config)>): Gateway
    decreases |calls|
  {
    if calls == [] then g
    else Replay(SetEmbeddings(g, calls[0].0, calls[0].1).gateway, calls[1..])
  }

  /** Once a store exists, no later initialisation replaces it. */
  lemma {:induction false} StoreNeverReplaced(g: Gateway, calls: seq<(Embeddings, Config)>)
    requires g.store.Some?
    ensures Replay(g, calls).store == g.store
    decreases |calls|
  {
    if calls != [] {
      StoreNeverReplaced(SetEmbeddings(g, calls[0].0, calls[0].1).gateway, calls[1..]);
    }
  }

  /** With an incomplete configuration every initialisation fails and no store appears. */
  lemma {:induction false} IncompleteConfigNeverInitialises(g: Gateway, calls: seq<(Embeddings, Config)>)
    requires g.store.None?
    requires forall i :: 0 <= i < |calls| ==> !Configured(calls[i].1)
    ensures Replay(g, calls).store.None?
    decreases |calls|
  {
    if calls != [] {
      assert !Configured(calls[0].1);
      IncompleteConfigNeverInitialises(SetEmbeddings(g, calls[0].0, calls[0].1).gateway, calls[1..]);
    }
  }

  /** The result of `addDocuments` and whether the store was asked to add anything. */
  datatype AddRun = AddRun(result: Result<seq<string>, Error>, storeCalled: bool)

  /** `addDocuments`: `stored` is what `store.addDocuments` returns or throws. */
  function AddDocuments(g: Gateway, documents: Option<seq<Document>>, stored: Result<seq<string>, Error>): (r: AddRun)
    ensures documents.None? || documents.value == [] ==> r == AddRun(Success([]), false)
    ensures r.result.Success? ==> r.result.value == [] || (r.storeCalled && stored == Success(r.result.value))
    ensures r.storeCalled <==> documents.Some? && documents.value != [] && g.store.Some?
    ensures r.storeCalled && stored.Success? ==> r.result == stored
    ensures r.storeCalled && stored.Failure? ==>
              var e := stored.error;
              && r.result.Failure?
              && (Nullish(e) ==> r.result.error == PropertyFault(e, "message"))
              && (!Nullish(e) && IsConnectionError(e) ==>
                    && Status(r.result.error) == Some(ServiceUnavailable)
                    && r.result.error.details == WrappedDetails(e, Some("addDocuments"))
                    && r.result.error.cause == Some(e))
              && (!Nullish(e) && !IsConnectionError(e) ==> r.result.error == e)
    ensures documents.Some? && documents.value != [] && g.store.None? ==>
              r.result == Failure(PropertyFault(Undefined, "addDocuments"))
  {
    if documents.None? || |documents.value| == 0 then AddRun(Success([]), false)
    else
      match g.store
      case None =>
        // `store` is undefined: calling `addDocuments` on it throws a TypeError,
        // which the handler does not recognise and throws again.
        var fault := PropertyFault(Undefined, "addDocuments");
        NotAConnectionFault(Undefined, "addDocuments");
        AddRun(Failure(HandleError(fault, Some("addDocuments"))), false)
      case Some(_) =>
        match stored
        case Success(ids) => AddRun(Success(ids), true)
        case Failure(e) => AddRun(Failure(AfterLoggingMessage(e, HandleError(e, Some("addDocuments")))), true)
  }

  /** A property-read fault on a nullish value is never taken for a connection failure. */
  lemma NotAConnectionFault(e: Error, prop: string)
    requires Nullish(e)
    requires 'F' !in prop
    ensures !IsConnectionError(PropertyFault(e, prop))
  {
    var msg := Message(PropertyFault(e, prop)).value;
    assert ConnectionNeedle[0] == 'F';
    assert 'F' !in msg;
    Strings.NotIncludesWithoutHead(msg, ConnectionNeedle);
    Strings.IncludesIffOccurs(msg, ConnectionNeedle);
  }

  /** What `asRetriever` hands back: a view of the store returning k documents. */
  datatype Retriever = Retriever(store: Store, k: int)

  /** `getRetriever`: `fault` is what `store.asRetriever` throws, if it throws. */
  function GetRetriever(g: Gateway, k: int, fault: Option<Error>): (r: Result<Retriever, Error>)
    ensures g.store.None? ==> r == Failure(NotInitialised)
    ensures r.Success? <==> g.store.Some? && fault.None?
    ensures r.Success? ==> r.value == Retriever(g.store.value, k)
    ensures g.store.Some? && fault.Some? && IsConnectionError(fault.value) ==>
              && r.Failure? && Status(r.error) == Some(ServiceUnavailable)
              && r.error.details == WrappedDetails(fault.value, Some("getRetriever"))
              && r.error.cause == fault
    ensures g.store.Some? && fault.Some? && !IsConnectionError(fault.value) ==> r == Failure(fault.value)
  {
    match g.store
    case None =>
      NotInitialisedIsNotConnectionError();
      Failure(HandleError(NotInitialised, Some("getRetriever")))
    case Some(s) =>
      if fault.Some? then Failure(HandleError(fault.value, Some("getRetriever")))
      else Success(Retriever(s, k))
  }

  lemma NotInitialisedIsNotConnectionError()
    ensures !IsConnectionError(NotInitialised)
  {
    assert ConnectionNeedle[0] == 'F';
    Strings.NotIncludesWithoutHead(NotInitialisedMessage, ConnectionNeedle);
    Strings.IncludesIffOccurs(NotInitialisedMessage, ConnectionNeedle);
  }

  /** The collection `ensureCollection` yields; some lack a `count` function. */
  datatype Collection = Collection(hasCount: bool)

  datatype StoreStatus = StoreStatus(documentCount: int)

  /** The status read reaches a `null` or `undefined` rejection: from `ensureCollection`,
      or from `count()` on a collection that has one. */
  predicate NullishRejectionReached(collection: Result<Collection, Error>, count: Result<int, Error>) {
    || (collection.Failure? && Nullish(collection.error))
    || (collection.Success? && collection.value.hasCount && count.Failure? && Nullish(count.error))
  }

  /** `getStatus` as written: `collection` is what `ensureCollection` yields or throws and
      `count` what `count()` yields or throws. The handler logs `(err as Error).message`
      before answering 0, so a nullish rejection escapes as a TypeError; on every other
      input it answers what the corrected read answers. */
  function GetStatusAsWritten(g: Gateway, collection: Result<Collection, Error>, count: Result<int, Error>): (r: Result<StoreStatus, Error>)
    ensures r.Failure? <==> g.store.Some? && NullishRejectionReached(collection, count)
    ensures r.Failure? ==> IsObject(r.error) && Name(r.error) == Some("TypeError")
    ensures r.Success? ==> r.value == GetStatus(g, collection, count)
  {
    match g.store
    case None => Success(StoreStatus(0))
    case Some(_) =>
      match collection
      case Failure(e) => if Nullish(e) then Failure(PropertyFault(e, "message")) else Success(StoreStatus(0))
      case Success(c) =>
        if !c.hasCount then Success(StoreStatus(0))
        else
          match count
          case Failure(e) => if Nullish(e) then Failure(PropertyFault(e, "message")) else Success(StoreStatus(0))
          case Success(n) => Success(StoreStatus(n))
  }

  /** A nullish rejection from the store makes the as-written status read throw. */
  lemma GetStatusAsWrittenThrows(g: Gateway, count: Result<int, Error>)
    requires g.store.Some?
    ensures GetStatusAsWritten(g, Failure(Undefined), count) == Failure(PropertyFault(Undefined, "message"))
    ensures GetStatusAsWritten(g, Success(Collection(true)), Failure(Null)) == Failure(PropertyFault(Null, "message"))
  {
  }

  /** `getStatus` as its handler intends: total, every failure reads as zero documents. */
  function GetStatus(g: Gateway, collection: Result<Collection, Error>, count: Result<int, Error>): (r: StoreStatus)
    ensures r.documentCount != 0 <==>
              && g.store.Some?
              && collection.Success? && collection.value.hasCount
              && count.Success? && count.value != 0
    ensures r.documentCount != 0 ==> r.documentCount == count.value
  {
    match g.store
    case None => StoreStatus(0)
    case Some(_) =>
      match collection
      case Failure(_) => StoreStatus(0)
      case Success(c) =>
        if !c.hasCount then StoreStatus(0)
        else
          match count
          case Failure(_) => StoreStatus(0)
          case Success(n) => StoreStatus(n)
  }

  /** The two agree whenever no rejection the read reaches is nullish. */
  lemma GetStatusAsWrittenAgrees(g: Gateway, collection: Result<Collection, Error>, count: Result<int, Error>)
    requires collection.Failure? ==> !Nullish(collection.error)
    requires count.Failure? ==> !Nullish(count.error)
    ensures GetStatusAsWritten(g, collection, count) == Success(GetStatus(g, collection, count))
  {
  }
}
