/** The glue between the knowledge base and the retrieval chain: stored
    knowledge records become documents, `mainrag` indexes them behind three
    guards, and `get_rag_response` builds the context from the retrieved
    documents and turns every failure into a message. Ollama, Chroma, the
    text splitter and the LLM are parameters the model knows nothing about. */
module Rag {
  import opened Common
  import opened KnowledgeModel

  const TopicLabel: string := "Topik Bahasan: "
  const DetailLabel: string := "\n\nInformasi Detail: "
  const MongoSource: string := "mongodb"

  /** How many documents the retriever is asked for. */
  const RetrievedCount: nat := 4

  const ContextSeparator: string := "\n\n"

  const NotLoadedMessage: string :=
    "Error: Model AI (LLM atau Embeddings) " + "gagal dimuat. Pastikan Ollama berjalan."
  const NoTextMessage: string :=
    "Terjadi kesalahan saat " + "memproses jawaban."
  const NoStoreMessage: string :=
    "Database pengetahuan (vector store) " + "belum dibuat. " + "Admin perlu menjalankan proses RAG."
  const ErrorPrefix: string := "Terjadi kesalahan: "

  /** A LangChain document with the metadata `load_from_mongo` attaches. */
  datatype Document = Document(pageContent: string, source: string, topic: string)

  /** The exceptions `get_rag_response` tells apart: a missing file, and
      anything else, by its text. */
  datatype PyError = FileNotFound | OtherError(text: string)

  // ---------------------------------------------------------------------
  // Loading the knowledge base

  /** The document one stored record becomes. */
  function ToDocument(r: Knowledge): (d: Document)
    ensures d.source == MongoSource && d.topic == r.topic
    ensures TopicLabel <= d.pageContent
  {
    Document(TopicLabel + r.topic + DetailLabel + r.content, MongoSource, r.topic)
  }

  /** The detail part of a document's text, located through the topic
      recorded in its metadata. */
  function DetailOf(d: Document): string {
    var header := TopicLabel + d.topic + DetailLabel;
    if header <= d.pageContent then d.pageContent[|header|..] else ""
  }

  /** A document gives back the topic and content of its record. */
  lemma DocumentRoundTrip(r: Knowledge)
    ensures ToDocument(r).topic == r.topic
    ensures DetailOf(ToDocument(r)) == r.content
  {
    var header := TopicLabel + r.topic + DetailLabel;
    assert ToDocument(r).pageContent == header + r.content;
  }

  /** One document per record, in the collection's order. */
  function ToDocuments(records: seq<Knowledge>): (docs: seq<Document>)
    ensures |docs| == |records|
    ensures forall i :: 0 <= i < |records| ==> docs[i] == ToDocument(records[i])
  {
    if records == [] then [] else ToDocuments(records[..|records| - 1]) + [ToDocument(records[|records| - 1])]
  }

  /** What `load_from_mongo` returns: nothing without a MONGO_URI or when
      connecting or reading fails, otherwise every record as a document. */
  function LoadedDocuments(mongoUri: Option<string>, fetched: Result<seq<Knowledge>, PyError>): seq<Document> {
    if !Truthy(mongoUri) || fetched.Err? then [] else ToDocuments(fetched.value)
  }

  /** `load_from_mongo` with its loop over the fetched records. */
  method LoadFromMongo(mongoUri: Option<string>, fetched: Result<seq<Knowledge>, PyError>) returns (docs: seq<Document>)
    ensures docs == LoadedDocuments(mongoUri, fetched)
  {
    if !Truthy(mongoUri) {
      return [];
    }
    if fetched.Err? {
      return [];
    }
    var mongoDocs := fetched.value;
    docs := [];
    var i := 0;
    while i < |mongoDocs|
      invariant 0 <= i <= |mongoDocs|
      invariant docs == ToDocuments(mongoDocs[..i])
    {
      assert mongoDocs[..i + 1][..i] == mongoDocs[..i];
      docs := docs + [ToDocument(mongoDocs[i])];
      i := i + 1;
    }
    assert mongoDocs[..i] == mongoDocs;
  }

  /** The index is built from every record, whatever its status: an
      INACTIVE entry is indexed like an ACTIVE one. */
  lemma EveryRecordIsIndexed(mongoUri: Option<string>, records: seq<Knowledge>, i: nat)
    requires Truthy(mongoUri) && i < |records|
    ensures ToDocument(records[i]) in LoadedDocuments(mongoUri, Ok(records))
    ensures |LoadedDocuments(mongoUri, Ok(records))| == |records|
  {
    assert LoadedDocuments(mongoUri, Ok(records))[i] == ToDocument(records[i]);
  }

  // ---------------------------------------------------------------------
  // Building the index

  /** How `mainrag` ends: it returns a count, or the exception raised while
      the chunks are embedded and written propagates. */
  datatype RagOutcome = Returned(count: nat) | Raised

  /** `mainrag`: 0 when the embeddings were not loaded, when no document was
      loaded, or when splitting gave no chunk, checked in that order; else
      the chunks are added to the store and their number is returned. */
  function MainRag(embeddingsLoaded: bool, mongoUri: Option<string>, fetched: Result<seq<Knowledge>, PyError>,
                   split: seq<Document> -> seq<Document>, writeSucceeds: bool,
                   store: seq<Document>): (r: (RagOutcome, seq<Document>))
    ensures !embeddingsLoaded ==> r == (Returned(0), store)
    ensures embeddingsLoaded && LoadedDocuments(mongoUri, fetched) == [] ==> r == (Returned(0), store)
    ensures embeddingsLoaded && LoadedDocuments(mongoUri, fetched) != [] && split(LoadedDocuments(mongoUri, fetched)) == [] ==>
              r == (Returned(0), store)
    ensures embeddingsLoaded && LoadedDocuments(mongoUri, fetched) != [] && split(LoadedDocuments(mongoUri, fetched)) != [] ==>
              r == (if writeSucceeds then (Returned(|split(LoadedDocuments(mongoUri, fetched))|),
                                           store + split(LoadedDocuments(mongoUri, fetched)))
                    else (Raised, store))
    ensures r.0 == Raised ==> r.1 == store
    ensures r.0.Returned? ==> store <= r.1 && |r.1| == |store| + r.0.count
  {
    if !embeddingsLoaded then (Returned(0), store)
    else
      var allDocuments := LoadedDocuments(mongoUri, fetched);
      if allDocuments == [] then (Returned(0), store)
      else
        var texts := split(allDocuments);
        if texts == [] then (Returned(0), store)
        else if !writeSucceeds then (Raised, store)
        else (Returned(|texts|), store + texts)
  }

  /** A zero count means one of the three guards stopped the run, and then
      the store is untouched; a positive count is the number of chunks the
      documents were split into, and exactly those were added. */
  lemma MainRagCount(embeddingsLoaded: bool, mongoUri: Option<string>, fetched: Result<seq<Knowledge>, PyError>,
                     split: seq<Document> -> seq<Document>, writeSucceeds: bool, store: seq<Document>)
    ensures var r := MainRag(embeddingsLoaded, mongoUri, fetched, split, writeSucceeds, store);
            r.0 == Returned(0) <==>
              !embeddingsLoaded || LoadedDocuments(mongoUri, fetched) == [] || split(LoadedDocuments(mongoUri, fetched)) == []
    ensures var r := MainRag(embeddingsLoaded, mongoUri, fetched, split, writeSucceeds, store);
            r.0 == Returned(0) ==> r.1 == store
    ensures var r := MainRag(embeddingsLoaded, mongoUri, fetched, split, writeSucceeds, store);
            r.0.Returned? && r.0.count > 0 ==>
              r.1 == store + split(LoadedDocuments(mongoUri, fetched)) && r.0.count == |split(LoadedDocuments(mongoUri, fetched))|
  {
  }

  // ---------------------------------------------------------------------
  // Answering

  /** `sep.join(parts)`. */
  function Join(sep: string, parts: seq<string>): (r: string)
    ensures parts == [] ==> r == []
    ensures |parts| == 1 ==> r == parts[0]
  {
    if parts == [] then []
    else if |parts| == 1 then parts[0]
    else Join(sep, parts[..|parts| - 1]) + sep + parts[|parts| - 1]
  }

  function TotalLength(parts: seq<string>): nat {
    if parts == [] then 0 else TotalLength(parts[..|parts| - 1]) + |parts[|parts| - 1]|
  }

  /** Where part `i` starts in the joined text: after the parts before it,
      each followed by a separator. */
  function PartOffset(sep: string, parts: seq<string>, i: nat): nat
    requires i <= |parts|
  {
    if i == 0 then 0 else PartOffset(sep, parts, i - 1) + |parts[i - 1]| + |sep|
  }

  lemma {:induction false} PartOffsetPrefix(sep: string, parts: seq<string>, n: nat, i: nat)
    requires i <= n <= |parts|
    ensures PartOffset(sep, parts[..n], i) == PartOffset(sep, parts, i)
  {
    if i > 0 {
      PartOffsetPrefix(sep, parts, n, i - 1);
    }
  }

  lemma {:induction false} JoinLength(sep: string, parts: seq<string>)
    requires parts != []
    ensures |Join(sep, parts)| == TotalLength(parts) + (|parts| - 1) * |sep|
  {
    if |parts| > 1 {
      JoinLength(sep, parts[..|parts| - 1]);
      assert (|parts| - 1) * |sep| == (|parts| - 2) * |sep| + |sep|;
    }
  }

  /** The last part starts right after the join of the others and a
      separator. */
  lemma {:induction false} JoinLastOffset(sep: string, parts: seq<string>)
    requires |parts| > 1
    ensures PartOffset(sep, parts, |parts| - 1) == |Join(sep, parts[..|parts| - 1])| + |sep|
    decreases |parts|
  {
    var init := parts[..|parts| - 1];
    if |parts| == 2 {
      assert PartOffset(sep, parts, 0) == 0;
    } else {
      JoinLastOffset(sep, init);
      PartOffsetPrefix(sep, parts, |parts| - 1, |parts| - 2);
      assert init[..|init| - 1] == parts[..|parts| - 2];
    }
  }

  /** Part `i` of a join sits at its offset: the parts in order, with one
      separator between each two. */
  lemma {:induction false} JoinPart(sep: string, parts: seq<string>, i: nat)
    requires i < |parts|
    ensures PartOffset(sep, parts, i) + |parts[i]| <= |Join(sep, parts)|
    ensures Join(sep, parts)[PartOffset(sep, parts, i)..PartOffset(sep, parts, i) + |parts[i]|] == parts[i]
  {
    var r := Join(sep, parts);
    if |parts| > 1 {
      var init := parts[..|parts| - 1];
      var j := Join(sep, init);
      assert r == j + sep + parts[|parts| - 1];
      if i == |parts| - 1 {
        JoinLastOffset(sep, parts);
      } else {
        JoinPart(sep, init, i);
        PartOffsetPrefix(sep, parts, |parts| - 1, i);
        assert r[..|j|] == j;
      }
    }
  }

  /** Every part is a substring of the join. */
  lemma JoinContainsPart(sep: string, parts: seq<string>, i: nat)
    requires i < |parts|
    ensures Contains(Join(sep, parts), parts[i])
  {
    JoinPart(sep, parts, i);
    var r := Join(sep, parts);
    var at := PartOffset(sep, parts, i);
    assert parts[i] <= r[at..];
    ContainsAt(r, parts[i], at);
  }

  /** Between part `i - 1` and part `i` stands the separator. */
  lemma {:induction false} JoinSeparator(sep: string, parts: seq<string>, i: nat)
    requires 0 < i < |parts|
    ensures |sep| <= PartOffset(sep, parts, i) <= |Join(sep, parts)|
    ensures Join(sep, parts)[PartOffset(sep, parts, i) - |sep|..PartOffset(sep, parts, i)] == sep
  {
    var r := Join(sep, parts);
    var init := parts[..|parts| - 1];
    var j := Join(sep, init);
    assert r == j + sep + parts[|parts| - 1];
    if i == |parts| - 1 {
      JoinLastOffset(sep, parts);
    } else {
      JoinSeparator(sep, init, i);
      PartOffsetPrefix(sep, parts, |parts| - 1, i);
      assert r[..|j|] == j;
    }
  }

  function Contents(docs: seq<Document>): (contents: seq<string>)
    ensures |contents| == |docs|
    ensures forall i :: 0 <= i < |docs| ==> contents[i] == docs[i].pageContent
  {
    if docs == [] then [] else Contents(docs[..|docs| - 1]) + [docs[|docs| - 1].pageContent]
  }

  /** The context handed to the LLM: the retrieved documents' texts,
      separated by a blank line, in retrieval order. */
  function Context(docs: seq<Document>): string {
    Join(ContextSeparator, Contents(docs))
  }

  /** Every retrieved document's text appears whole in the context, at the
      place its rank gives it. */
  lemma ContextHoldsEveryDocument(docs: seq<Document>, i: nat)
    requires i < |docs|
    ensures Contains(Context(docs), docs[i].pageContent)
    ensures var at := PartOffset(ContextSeparator, Contents(docs), i);
            at + |docs[i].pageContent| <= |Context(docs)| &&
            Context(docs)[at..at + |docs[i].pageContent|] == docs[i].pageContent
  {
    var parts := Contents(docs);
    assert parts[i] == docs[i].pageContent;
    JoinPart(ContextSeparator, parts, i);
    JoinContainsPart(ContextSeparator, parts, i);
  }

  /** The text `f"Terjadi kesalahan: {e}"`, or the fixed message for a
      missing file. */
  function ErrorMessage(e: PyError): string {
    match e
    case FileNotFound => NoStoreMessage
    case OtherError(text) => ErrorPrefix + text
  }

  /** The three failure messages can be told apart: a missing store is
      never reported as another error, and neither looks like the
      not-loaded message. */
  lemma ErrorMessagesDistinct(text: string)
    ensures ErrorMessage(FileNotFound) != ErrorMessage(OtherError(text))
    ensures ErrorMessage(FileNotFound) != NotLoadedMessage
    ensures ErrorMessage(OtherError(text)) != NotLoadedMessage
    ensures ErrorPrefix <= ErrorMessage(OtherError(text))
  {
    assert ErrorMessage(FileNotFound)[0] == 'D';
    assert ErrorMessage(OtherError(text))[0] == 'T';
    assert NotLoadedMessage[0] == 'E';
  }

  /** `get_rag_response(query)`. `openStore` is what opening the persisted
      store raises, `retrieve(query, k)` the retriever's answer and
      `generate(context, query)` the chain's response dictionary. */
  function GetRagResponse(chainLoaded: bool, embeddingsLoaded: bool, query: string,
                          openStore: Option<PyError>,
                          retrieve: (string, nat) -> Result<seq<Document>, PyError>,
                          generate: (string, string) -> Result<map<string, string>, PyError>): (answer: string)
    ensures !chainLoaded || !embeddingsLoaded ==> answer == NotLoadedMessage
    ensures chainLoaded && embeddingsLoaded && openStore.Some? ==> answer == ErrorMessage(openStore.value)
    ensures chainLoaded && embeddingsLoaded && openStore.None? && retrieve(query, RetrievedCount).Err? ==>
              answer == ErrorMessage(retrieve(query, RetrievedCount).error)
    ensures chainLoaded && embeddingsLoaded && openStore.None? && retrieve(query, RetrievedCount).Ok? ==>
              var response := generate(Context(retrieve(query, RetrievedCount).value), query);
              && (response.Err? ==> answer == ErrorMessage(response.error))
              && (response.Ok? && "text" in response.value ==> answer == response.value["text"])
              && (response.Ok? && "text" !in response.value ==> answer == NoTextMessage)
  {
    if !chainLoaded || !embeddingsLoaded then NotLoadedMessage
    else if openStore.Some? then ErrorMessage(openStore.value)
    else match retrieve(query, RetrievedCount)
      case Err(e) => ErrorMessage(e)
      case Ok(relevantDocs) =>
        match generate(Context(relevantDocs), query)
        case Err(e) => ErrorMessage(e)
        case Ok(response) => if "text" in response then response["text"] else NoTextMessage
  }

  /** Without the chain or the embeddings the store is never consulted: the
      answer is the same whatever the store, the retriever and the LLM do. */
  lemma NotLoadedSkipsStore(chainLoaded: bool, embeddingsLoaded: bool, query: string,
                            openStore1: Option<PyError>, openStore2: Option<PyError>,
                            retrieve1: (string, nat) -> Result<seq<Document>, PyError>,
                            retrieve2: (string, nat) -> Result<seq<Document>, PyError>,
                            generate1: (string, string) -> Result<map<string, string>, PyError>,
                            generate2: (string, string) -> Result<map<string, string>, PyError>)
    requires !chainLoaded || !embeddingsLoaded
    ensures GetRagResponse(chainLoaded, embeddingsLoaded, query, openStore1, retrieve1, generate1)
         == GetRagResponse(chainLoaded, embeddingsLoaded, query, openStore2, retrieve2, generate2)
  {
  }

  /** The LLM sees only the retrieved documents: two retrievals with the
      same texts in the same order produce the same answer. */
  lemma AnswerDependsOnRetrievedTexts(query: string,
                                      retrieve1: (string, nat) -> Result<seq<Document>, PyError>,
                                      retrieve2: (string, nat) -> Result<seq<Document>, PyError>,
                                      generate: (string, string) -> Result<map<string, string>, PyError>)
    requires retrieve1(query, RetrievedCount).Ok? && retrieve2(query, RetrievedCount).Ok?
    requires Contents(retrieve1(query, RetrievedCount).value) == Contents(retrieve2(query, RetrievedCount).value)
    ensures GetRagResponse(true, true, query, None, retrieve1, generate)
         == GetRagResponse(true, true, query, None, retrieve2, generate)
  {
  }
}
