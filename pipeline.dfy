/** `process_message`: one chat turn. The message and the customer record are masked, the
    tables merged, documents retrieved for the masked message, the prompt built from masked
    data only, the model called, and its reply unmasked. The database reads, the retrieval
    and the model are parameters: each returns a value or raises. */
module Pipeline {
  import opened Wrappers
  import opened Text
  import opened Table
  import opened Masking
  import opened Pieces
  import opened RoundTrip
  import opened Records
  import opened ContextMasking
  import opened Prompt
  import Rag

  /** How many documents a turn retrieves. */
  const TopK := 4

  const ApologyPrefix := "I apologize, but I encountered an error: "

  /** The reply to a turn in which something raised. */
  function Apology(e: PyError): (r: string)
    ensures |r| > |ApologyPrefix| + |ErrorText(e)| && r[..|ApologyPrefix|] == ApologyPrefix
    ensures r[|ApologyPrefix|..|ApologyPrefix| + |ErrorText(e)|] == ErrorText(e)
  {
    ApologyPrefix + ErrorText(e) + "\n\nPlease make sure your GROQ_API_KEY is set in the .env file."
  }

  /** The documents a turn uses: the retrieved ones, or none when retrieval raised. */
  function Docs(retrieved: Result<seq<string>, PyError>): seq<string>
  {
    match retrieved
    case Ok(docs) => docs
    case Err(_) => []
  }

  /** The rest of a turn once the documents are known: the prompt is built from the masked
      record, the store, the documents and the masked message, and the model's reply is
      unmasked with the merged table. */
  function Answer(maskedCustomer: Record, store: Record, docs: seq<string>, masked: string,
                  mapping: Table, llm: (string, string) -> Result<string, PyError>,
                  other: Value -> string): string
  {
    match UserLines(maskedCustomer, store, docs, masked, other)
    case Err(e) => Apology(e)
    case Ok(lines) =>
      match llm(SystemPrompt, Join(lines, "\n"))
      case Err(e) => Apology(e)
      case Ok(reply) => Unmask(reply, mapping)
  }

  /** The reply to a turn. `customer` and `store` are what `get_customer_context` and
      `get_nearest_store_for_customer` give, `retrieve` is `rag_retrieve`, `llm` is
      `call_llm_with_system`. */
  function Turn(message: string, customer: Result<Record, PyError>, store: Result<Record, PyError>,
                retrieve: (string, nat) -> Result<seq<string>, PyError>,
                llm: (string, string) -> Result<string, PyError>, other: Value -> string): string
  {
    match customer
    case Err(e) => Apology(e)
    case Ok(c) =>
      match store
      case Err(e) => Apology(e)
      case Ok(s) =>
        var (masked, table) := Mask(message);
        match MaskContext(c)
        case Err(e) => Apology(e)
        case Ok((maskedCustomer, customerTable)) =>
          Answer(maskedCustomer, s, Docs(retrieve(masked, TopK)), masked,
                 Update(table, customerTable), llm, other)
  }

  /** `process_message(user_message, customer_id)`, step by step as the original. */
  method ProcessMessage(message: string, customer: Result<Record, PyError>,
                        store: Result<Record, PyError>,
                        retrieve: (string, nat) -> Result<seq<string>, PyError>,
                        llm: (string, string) -> Result<string, PyError>, other: Value -> string)
    returns (response: string)
    ensures response == Turn(message, customer, store, retrieve, llm, other)
  {
    if customer.Err? {
      return Apology(customer.error);
    }
    if store.Err? {
      return Apology(store.error);
    }
    var maskedMessage, piiMapping := MaskText(message);
    var maskedCustomer := MaskCustomerContext(customer.value);
    if maskedCustomer.Err? {
      return Apology(maskedCustomer.error);
    }
    piiMapping := Update(piiMapping, maskedCustomer.value.1);
    var ragDocs: seq<string> := [];
    var retrieved := retrieve(maskedMessage, TopK);
    if retrieved.Ok? {
      ragDocs := retrieved.value;
    }
    response := Respond(maskedCustomer.value.0, store.value, ragDocs, maskedMessage, piiMapping,
                        llm, other);
  }

  /** The tail of `process_message`: build the prompt, call the model, unmask its reply. */
  method Respond(maskedCustomer: Record, store: Record, docs: seq<string>, masked: string,
                 mapping: Table, llm: (string, string) -> Result<string, PyError>,
                 other: Value -> string)
    returns (response: string)
    ensures response == Answer(maskedCustomer, store, docs, masked, mapping, llm, other)
  {
    var prompts := BuildPrompt(maskedCustomer, store, docs, masked, other);
    if prompts.Err? {
      return Apology(prompts.error);
    }
    var reply := llm(prompts.value.0, prompts.value.1);
    if reply.Err? {
      return Apology(reply.error);
    }
    response := UnmaskText(reply.value, mapping);
  }

  /** Retrieval only ever sees the masked message: two retrievers that agree on it give the
      same turn. */
  lemma QueriesMaskedMessage(message: string, customer: Result<Record, PyError>,
                             store: Result<Record, PyError>,
                             retrieve1: (string, nat) -> Result<seq<string>, PyError>,
                             retrieve2: (string, nat) -> Result<seq<string>, PyError>,
                             llm: (string, string) -> Result<string, PyError>, other: Value -> string)
    requires retrieve1(Mask(message).0, TopK) == retrieve2(Mask(message).0, TopK)
    ensures Turn(message, customer, store, retrieve1, llm, other)
         == Turn(message, customer, store, retrieve2, llm, other)
  {
  }

  /** A retrieval that raises degrades to no documents, and the turn goes on. */
  lemma RetrievalFailureIgnored(message: string, customer: Result<Record, PyError>,
                                store: Result<Record, PyError>,
                                retrieve: (string, nat) -> Result<seq<string>, PyError>,
                                llm: (string, string) -> Result<string, PyError>, other: Value -> string)
    requires retrieve(Mask(message).0, TopK).Err?
    ensures Turn(message, customer, store, retrieve, llm, other)
         == Turn(message, customer, store, (q: string, k: nat) => Ok([]), llm, other)
  {
  }

  /** `rag_retrieve` over the vector store whose collections are `collections`, with the
      query's embedding and ranking as `search`. */
  function StoreRetriever(collections: map<string, seq<Rag.StoredChunk>>,
                          search: (seq<Rag.StoredChunk>, string, int) -> Result<seq<seq<string>>, PyError>)
    : (string, nat) -> Result<seq<string>, PyError>
  {
    (q: string, k: nat) => Rag.Retrieved(collections, Rag.CollectionName, q, k, search)
  }

  /** Over the vector store, a turn whose collection is missing or whose query raises answers
      as if no document had been found, and otherwise uses the first result list of the query
      for the masked message. */
  lemma StoreRetrievalInTurn(message: string, customer: Result<Record, PyError>,
                             store: Result<Record, PyError>,
                             collections: map<string, seq<Rag.StoredChunk>>,
                             search: (seq<Rag.StoredChunk>, string, int) -> Result<seq<seq<string>>, PyError>,
                             llm: (string, string) -> Result<string, PyError>, other: Value -> string)
    ensures Rag.CollectionName !in collections
            || search(collections[Rag.CollectionName], Mask(message).0, TopK).Err? ==>
              Turn(message, customer, store, StoreRetriever(collections, search), llm, other)
              == Turn(message, customer, store, (q: string, k: nat) => Ok([]), llm, other)
    ensures Rag.CollectionName in collections
            && search(collections[Rag.CollectionName], Mask(message).0, TopK).Ok? ==>
              Turn(message, customer, store, StoreRetriever(collections, search), llm, other)
              == Turn(message, customer, store,
                      (q: string, k: nat) =>
                        Ok(Rag.FirstResults(search(collections[Rag.CollectionName], Mask(message).0, TopK).value)),
                      llm, other)
  {
    var retrieve := StoreRetriever(collections, search);
    if Rag.CollectionName !in collections {
      QueriesMaskedMessage(message, customer, store, retrieve, (q: string, k: nat) => Ok([]), llm, other);
    } else if search(collections[Rag.CollectionName], Mask(message).0, TopK).Err? {
      RetrievalFailureIgnored(message, customer, store, retrieve, llm, other);
    } else {
      var docs := Rag.FirstResults(search(collections[Rag.CollectionName], Mask(message).0, TopK).value);
      QueriesMaskedMessage(message, customer, store, retrieve, (q: string, k: nat) => Ok(docs), llm, other);
    }
  }

  /** When every step succeeds, the reply is unmasked with the merged table, in which the
      customer record's entry wins over the message's for a placeholder both hold. */
  lemma ReplyUnmasked(message: string, c: Record, s: Record,
                      retrieve: (string, nat) -> Result<seq<string>, PyError>,
                      llm: (string, string) -> Result<string, PyError>, other: Value -> string,
                      reply: string)
    requires MaskContext(c).Ok?
    requires UserLines(MaskContext(c).value.0, s, Docs(retrieve(Mask(message).0, TopK)),
                       Mask(message).0, other).Ok?
    requires llm(SystemPrompt, Join(UserLines(MaskContext(c).value.0, s,
                                              Docs(retrieve(Mask(message).0, TopK)),
                                              Mask(message).0, other).value, "\n")) == Ok(reply)
    ensures Turn(message, Ok(c), Ok(s), retrieve, llm, other)
         == Unmask(reply, Update(Mask(message).1, MaskContext(c).value.1))
    ensures forall k :: Get(Update(Mask(message).1, MaskContext(c).value.1), k)
              == if HasKey(MaskContext(c).value.1, k) then Get(MaskContext(c).value.1, k)
                 else Get(Mask(message).1, k)
  {
    forall k {
      UpdateGet(Mask(message).1, MaskContext(c).value.1, k);
    }
  }

  /** A turn in which the database or the masking of the record raises answers with the
      apology for that error. */
  lemma FailureApologises(message: string, customer: Result<Record, PyError>,
                          store: Result<Record, PyError>,
                          retrieve: (string, nat) -> Result<seq<string>, PyError>,
                          llm: (string, string) -> Result<string, PyError>, other: Value -> string)
    ensures customer.Err? ==> Turn(message, customer, store, retrieve, llm, other) == Apology(customer.error)
    ensures customer.Ok? && store.Err? ==>
              Turn(message, customer, store, retrieve, llm, other) == Apology(store.error)
    ensures customer.Ok? && store.Ok? && MaskContext(customer.value).Err? ==>
              Turn(message, customer, store, retrieve, llm, other) == Apology(MaskContext(customer.value).error)
  {
    if customer.Err? {
      assert Turn(message, customer, store, retrieve, llm, other) == Apology(customer.error);
    } else if store.Err? {
      assert Turn(message, customer, store, retrieve, llm, other) == Apology(store.error);
    } else if MaskContext(customer.value).Err? {
      assert Turn(message, customer, store, retrieve, llm, other) == Apology(MaskContext(customer.value).error);
    }
  }

  /** A turn that gets past the database and the masking of the record, and in which building
      the prompt or calling the model raises, answers with the apology for that error. */
  lemma PromptOrModelApologises(message: string, c: Record, s: Record,
                                retrieve: (string, nat) -> Result<seq<string>, PyError>,
                                llm: (string, string) -> Result<string, PyError>,
                                other: Value -> string)
    requires MaskContext(c).Ok?
    ensures var lines := UserLines(MaskContext(c).value.0, s, Docs(retrieve(Mask(message).0, TopK)),
                                   Mask(message).0, other);
            lines.Err? ==> Turn(message, Ok(c), Ok(s), retrieve, llm, other) == Apology(lines.error)
    ensures var lines := UserLines(MaskContext(c).value.0, s, Docs(retrieve(Mask(message).0, TopK)),
                                   Mask(message).0, other);
            lines.Ok? && llm(SystemPrompt, Join(lines.value, "\n")).Err? ==>
              Turn(message, Ok(c), Ok(s), retrieve, llm, other)
              == Apology(llm(SystemPrompt, Join(lines.value, "\n")).error)
  {
  }

  /** With no customer record, a model that answers with the masked message gets the message
      back: the turn is a mask-unmask round trip. */
  lemma EchoRoundTrip(message: string, s: Record,
                      retrieve: (string, nat) -> Result<seq<string>, PyError>, other: Value -> string)
    requires NoOpen(message) && |message| <= 10_000_000
    ensures Turn(message, Ok([]), Ok(s), retrieve, (sys: string, user: string) => Ok(Mask(message).0), other)
         == message
  {
    var table := Mask(message).1;
    UpdateIntoEmpty(table, []);
    assert table + [] == table;
    RoundTrip.RoundTrip(message);
  }
}
