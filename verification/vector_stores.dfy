/** The FAISS-backed document store (vector_stores.py:57-184) and the
    factory that selects it (vector_stores.py:435-448). The FAISS index is
    abstracted to the sequence of vectors added to it; the embedding model
    and the nearest-neighbour search are functions passed in. Persisting
    the index and the document list to disk is not modelled: a store value
    is what was loaded at start-up. */
module VectorStores {
  import opened Wrappers
  import opened Records
  import opened Config

  /** An embedding; its coordinates are never inspected by the store. */
  type Embedding = seq<real>

  /** The index's vectors and the document list kept beside it. */
  datatype FaissStore = FaissStore(vectors: seq<Embedding>, documents: seq<Doc>)

  /** The store as a freshly created `IndexFlatL2` with no documents. */
  const EmptyStore: FaissStore := FaissStore([], [])

  /** Position `i` of the index holds the embedding of document `i`. */
  predicate Lockstep(s: FaissStore) {
    |s.vectors| == |s.documents|
  }

  /** The text of a document that gets embedded: its content, or "". */
  function TextOf(d: Doc): string {
    d.content.GetOr("")
  }

  /** The embedding of each document's text, in order. */
  function Embeddings(docs: seq<Doc>, embed: string -> Embedding): (vs: seq<Embedding>)
    ensures |vs| == |docs|
    ensures forall i :: 0 <= i < |docs| ==> vs[i] == embed(TextOf(docs[i]))
  {
    seq(|docs|, i requires 0 <= i < |docs| => embed(TextOf(docs[i])))
  }

  /** `add_documents`: an empty batch changes nothing; otherwise one vector
      per document is added to the index and the documents are appended to
      the list, in order. */
  function AddDocuments(s: FaissStore, docs: seq<Doc>, embed: string -> Embedding): (r: FaissStore)
    ensures docs == [] ==> r == s
    ensures r.documents == s.documents + docs
    ensures |r.vectors| == |s.vectors| + |docs| && r.vectors[..|s.vectors|] == s.vectors
    ensures forall i :: 0 <= i < |docs| ==> r.vectors[|s.vectors| + i] == embed(TextOf(docs[i]))
    ensures Lockstep(s) ==> Lockstep(r)
  {
    if docs == [] then s
    else FaissStore(s.vectors + Embeddings(docs, embed), s.documents + docs)
  }

  /** Adding two batches one after the other is adding their
      concatenation once. */
  lemma AddDocumentsConcat(s: FaissStore, a: seq<Doc>, b: seq<Doc>, embed: string -> Embedding)
    ensures AddDocuments(AddDocuments(s, a, embed), b, embed) == AddDocuments(s, a + b, embed)
  {
    if a == [] {
      assert a + b == b;
    } else if b == [] {
      assert a + b == a;
    } else {
      EmbeddingsConcat(a, b, embed);
      assert s.documents + a + b == s.documents + (a + b);
      assert s.vectors + Embeddings(a, embed) + Embeddings(b, embed) == s.vectors + Embeddings(a + b, embed);
    }
  }

  lemma EmbeddingsConcat(a: seq<Doc>, b: seq<Doc>, embed: string -> Embedding)
    ensures Embeddings(a + b, embed) == Embeddings(a, embed) + Embeddings(b, embed)
  {
    var l := Embeddings(a + b, embed);
    var r := Embeddings(a, embed) + Embeddings(b, embed);
    forall i | 0 <= i < |a + b| ensures l[i] == r[i] {
      if i < |a| {
        assert (a + b)[i] == a[i];
      } else {
        assert (a + b)[i] == b[i - |a|];
      }
    }
  }

  /** `delete_all`: a new empty index and no documents. */
  function DeleteAll(s: FaissStore): (r: FaissStore)
    ensures r.vectors == [] && r.documents == []
    ensures Lockstep(r)
  {
    EmptyStore
  }

  // ---------------------------------------------------------------------
  // Search

  /** One row of the index's answer: a position in the index and the
      relevance score derived from its distance. */
  datatype Hit = Hit(idx: int, score: string)

  function Min(a: int, b: int): int {
    if a < b then a else b
  }

  /** The documents the hits point at, each with its score attached.
      Positions past the end of the document list are skipped; a negative
      position counts from the end as a Python index does, and one before
      the start raises. */
  function Collect(docs: seq<Doc>, hits: seq<Hit>): (r: Result<seq<Doc>>)
    ensures r.Success? ==> |r.value| <= |hits|
    ensures r.Success? ==> forall j :: 0 <= j < |r.value| ==> exists k :: 0 <= k < |docs| && r.value[j] == docs[k].(score := r.value[j].score)
    ensures r.Failure? <==> exists j :: 0 <= j < |hits| && hits[j].idx + |docs| < 0
  {
    if hits == [] then Success([])
    else
      var h := hits[0];
      if h.idx >= |docs| then
        var r := Collect(docs, hits[1..]);
        assert forall j :: 1 <= j < |hits| ==> hits[j] == hits[1..][j - 1];
        r
      else if h.idx + |docs| < 0 then Failure("list index out of range")
      else
        var k := if h.idx < 0 then h.idx + |docs| else h.idx;
        var rest := Collect(docs, hits[1..]);
        assert forall j :: 1 <= j < |hits| ==> hits[j] == hits[1..][j - 1];
        if rest.Failure? then rest
        else
          var d := docs[k].(score := Some(h.score));
          assert d == docs[k].(score := d.score);
          Success([d] + rest.value)
  }

  /** When every hit names a stored document, nothing is skipped and
      result `j` is the document at hit `j` with that hit's score. */
  lemma {:induction false} CollectInRange(docs: seq<Doc>, hits: seq<Hit>)
    requires forall j :: 0 <= j < |hits| ==> 0 <= hits[j].idx < |docs|
    ensures Collect(docs, hits).Success?
    ensures |Collect(docs, hits).value| == |hits|
    ensures forall j :: 0 <= j < |hits| ==>
              Collect(docs, hits).value[j] == docs[hits[j].idx].(score := Some(hits[j].score))
  {
    if hits != [] {
      CollectInRange(docs, hits[1..]);
    }
  }

  /** The hits that name a position before `n`. */
  function Below(hits: seq<Hit>, n: int): (r: seq<Hit>)
    ensures |r| <= |hits|
    ensures forall j :: 0 <= j < |r| ==> r[j].idx < n && r[j] in hits
  {
    if hits == [] then []
    else if hits[0].idx >= n then Below(hits[1..], n)
    else [hits[0]] + Below(hits[1..], n)
  }

  /** Hits past the end of the document list are skipped and nothing
      else: collecting all hits is collecting only those before the end. */
  lemma {:induction false} CollectSkipsPastEnd(docs: seq<Doc>, hits: seq<Hit>)
    ensures Collect(docs, hits) == Collect(docs, Below(hits, |docs|))
  {
    if hits != [] {
      CollectSkipsPastEnd(docs, hits[1..]);
      if hits[0].idx < |docs| {
        var b := Below(hits, |docs|);
        assert b[1..] == Below(hits[1..], |docs|);
      }
    }
  }

  /** `search`: an empty index answers `[]`; otherwise the index is asked
      for the `min(top_k, ntotal)` nearest vectors to the query's
      embedding and their documents are collected. */
  function Search(s: FaissStore, query: string, topK: int, embed: string -> Embedding,
                  nearest: (Embedding, int) -> seq<Hit>): (r: Result<seq<Doc>>)
    ensures |s.vectors| == 0 ==> r == Success([])
    ensures |s.vectors| > 0 ==> r == Collect(s.documents, nearest(embed(query), Min(topK, |s.vectors|)))
  {
    if |s.vectors| == 0 then Success([])
    else Collect(s.documents, nearest(embed(query), Min(topK, |s.vectors|)))
  }

  /** When the index keeps its contract (at most `k` rows, each a position
      of a vector it holds) and the document list is in lockstep with it,
      a search succeeds with at most `min(top_k, ntotal)` results, each a
      stored document carrying its score. */
  lemma SearchWithinTopK(s: FaissStore, query: string, topK: int, embed: string -> Embedding,
                         nearest: (Embedding, int) -> seq<Hit>)
    requires Lockstep(s)
    requires |nearest(embed(query), Min(topK, |s.vectors|))| <= Min(topK, |s.vectors|)
    requires forall j :: 0 <= j < |nearest(embed(query), Min(topK, |s.vectors|))| ==>
               0 <= nearest(embed(query), Min(topK, |s.vectors|))[j].idx < |s.vectors|
    ensures Search(s, query, topK, embed, nearest).Success?
    ensures |Search(s, query, topK, embed, nearest).value| <= topK || |s.vectors| == 0
    ensures |Search(s, query, topK, embed, nearest).value| <= |s.documents|
    ensures forall j :: 0 <= j < |Search(s, query, topK, embed, nearest).value| ==>
              var d := Search(s, query, topK, embed, nearest).value[j];
              d.score.Some? && d.(score := None) in Unscored(s.documents)
  {
    if |s.vectors| > 0 {
      var hits := nearest(embed(query), Min(topK, |s.vectors|));
      CollectInRange(s.documents, hits);
      var r := Search(s, query, topK, embed, nearest).value;
      forall j | 0 <= j < |r|
        ensures r[j].score.Some? && r[j].(score := None) in Unscored(s.documents)
      {
        var k := hits[j].idx;
        assert Unscored(s.documents)[k] == s.documents[k].(score := None);
      }
    }
  }

  /** The stored documents with any score removed. */
  function Unscored(docs: seq<Doc>): (r: seq<Doc>)
    ensures |r| == |docs|
    ensures forall i :: 0 <= i < |docs| ==> r[i] == docs[i].(score := None)
  {
    seq(|docs|, i requires 0 <= i < |docs| => docs[i].(score := None))
  }

  /** After `delete_all` every search answers `[]`. */
  lemma SearchAfterDeleteAll(s: FaissStore, query: string, topK: int, embed: string -> Embedding,
                             nearest: (Embedding, int) -> seq<Hit>)
    ensures Search(DeleteAll(s), query, topK, embed, nearest) == Success([])
  {
  }

  // ---------------------------------------------------------------------
  // Factory

  /** `get_vector_store`: only FAISS is available; the other kinds raise.
      `loaded` is the FAISS store as read from disk. */
  function GetVectorStore(kind: StoreKind, loaded: FaissStore): (r: Result<FaissStore>)
    ensures r.Success? <==> kind == Faiss
    ensures r.Success? ==> r.value == loaded
  {
    match kind
    case Faiss => Success(loaded)
    case Pinecone => Failure("Unsupported vector store: pinecone")
    case AzureSearch => Failure("Unsupported vector store: azure_search")
  }

  /** A store the factory hands out is one whose configuration validates,
      but a validated configuration need not yield a store. */
  lemma FactoryImpliesValid(s: Settings, loaded: FaissStore)
    ensures GetVectorStore(s.vectorStore, loaded).Success? ==> ValidateVectorStoreConfig(s)
    ensures ValidateVectorStoreConfig(s.(vectorStore := Pinecone, pineconeApiKey := "k", pineconeEnvironment := "e"))
    ensures GetVectorStore(Pinecone, loaded).Failure?
  {
  }
}
