/** The QA chain: on every question it reloads the documents, rebuilds the
    in-memory index of (text, embedding) pairs, embeds the question, ranks
    every entry, keeps the top k, joins them into a context string and asks
    the completion provider for an answer.

    The embedding and completion providers are functions that may fail
    (a Result); similarity is an abstract score function; `np.argsort` is a
    function constrained only by the argsort contract of the Ranker module.
    Every operation also reports the texts it sent to the embedding provider,
    in call order, so that the number and order of provider calls can be
    stated.
 */
module QAChain {
  import opened Wrappers
  import opened Strings
  import opened Ranker
  import DS = DocumentService

  type Embedding = seq<real>

  /** One entry of the in-memory index `self.documents`. */
  datatype IndexEntry = IndexEntry(text: string, embedding: Embedding)

  /** What `get_completion` returns: the answer text and the token count. */
  datatype Completion = Completion(answer: string, tokensUsed: int)

  /** The collaborators the chain calls but does not implement. */
  datatype Providers = Providers(
    embed: string -> Result<Embedding, string>,
    complete: (string, string) -> Result<Completion, string>,
    similarity: (Embedding, Embedding) -> real,
    argsort: seq<real> -> seq<nat>)

  /** The state of a QAChain object: its document service's cache and its
      index. */
  datatype Chain = Chain(service: DS.Cache, index: seq<IndexEntry>)

  /** The result of an operation together with the texts it sent to the
      embedding provider, in call order. */
  datatype Traced<T> = Traced(result: Result<T, string>, embedCalls: seq<string>)

  /** The triple `get_answer` returns. */
  datatype Answer = Answer(answer: string, contextUsed: seq<string>, tokensUsed: int)

  /** `get_answer` calls `get_relevant_context` with the default top_k. */
  const DefaultTopK: int := 3

  const LineBreak: char := '\n'

  /** The texts of the index, in index order. */
  function Texts(index: seq<IndexEntry>): (ts: seq<string>)
    ensures |ts| == |index|
    ensures forall i :: 0 <= i < |index| ==> ts[i] == index[i].text
  {
    seq(|index|, i requires 0 <= i < |index| => index[i].text)
  }

  /** `add_document` of the chain: embed the text and append one entry.
      When the provider fails, the error propagates and nothing is appended. */
  function AddToIndex(index: seq<IndexEntry>, text: string, embed: string -> Result<Embedding, string>)
    : (r: Result<seq<IndexEntry>, string>)
    ensures r.Success? <==> embed(text).Success?
    ensures r.Success? ==> |r.value| == |index| + 1 && r.value[..|index|] == index
    ensures r.Success? ==> r.value[|index|] == IndexEntry(text, embed(text).value)
  {
    match embed(text)
    case Success(e) => Success(index + [IndexEntry(text, e)])
    case Failure(err) => Failure(err)
  }

  /** The outcome of the rebuild loop of `_initialize_documents`: the entries
      appended before the loop stopped, the error that stopped it (if any),
      and the texts sent to the embedding provider. */
  datatype Build = Build(index: seq<IndexEntry>, error: Option<string>, embedCalls: seq<string>)

  /** `_initialize_documents` after it has fetched the documents: reset the
      index, then add the documents one by one until a provider call fails. */
  function BuildIndex(docs: seq<string>, embed: string -> Result<Embedding, string>): (b: Build)
    ensures |b.index| <= |docs| && |b.embedCalls| <= |docs|
    ensures b.embedCalls == docs[..|b.embedCalls|]
    ensures forall i :: 0 <= i < |b.index| ==>
              embed(docs[i]).Success? && b.index[i] == IndexEntry(docs[i], embed(docs[i]).value)
    ensures b.error.None? <==> forall i :: 0 <= i < |docs| ==> embed(docs[i]).Success?
    ensures b.error.None? ==> |b.index| == |docs| && b.embedCalls == docs
  {
    if |docs| == 0 then Build([], None, [])
    else
      var init := docs[..|docs| - 1];
      var last := docs[|docs| - 1];
      var b := BuildIndex(init, embed);
      assert forall i :: 0 <= i < |init| ==> init[i] == docs[i];
      if b.error.Some? then
        assert docs[..|b.embedCalls|] == init[..|b.embedCalls|];
        b
      else
        assert docs == init + [last];
        match AddToIndex(b.index, last, embed)
        case Success(index) => Build(index, None, docs)
        case Failure(err) => Build(b.index, Some(err), docs)
  }

  /** The index holds the documents' texts in document order. */
  lemma BuildIndexTexts(docs: seq<string>, embed: string -> Result<Embedding, string>)
    ensures var b := BuildIndex(docs, embed);
      Texts(b.index) == docs[..|b.index|]
  {
    var b := BuildIndex(docs, embed);
    var texts := Texts(b.index);
    forall i | 0 <= i < |b.index| ensures texts[i] == docs[..|b.index|][i] {
    }
  }

  /** A failed rebuild stops at the first failing document: every earlier
      document was embedded and indexed, the failing one was the last text
      sent to the provider, and its error is the one reported. */
  lemma {:induction false} BuildIndexStopsAtFailure(docs: seq<string>, embed: string -> Result<Embedding, string>)
    ensures var b := BuildIndex(docs, embed);
      b.error.Some? ==>
        && |b.embedCalls| == |b.index| + 1
        && embed(docs[|b.index|]) == Failure(b.error.value)
  {
    if |docs| > 0 {
      var init := docs[..|docs| - 1];
      BuildIndexStopsAtFailure(init, embed);
      var b := BuildIndex(init, embed);
      if b.error.Some? {
        assert docs[|b.index|] == init[|b.index|];
      }
    }
  }

  /** The similarity of the query to every entry, in index order. */
  function Similarities(query: Embedding, index: seq<IndexEntry>, similarity: (Embedding, Embedding) -> real)
    : (scores: seq<real>)
    ensures |scores| == |index|
    ensures forall i :: 0 <= i < |index| ==> scores[i] == similarity(query, index[i].embedding)
  {
    seq(|index|, i requires 0 <= i < |index| => similarity(query, index[i].embedding))
  }

  /** `np.argsort(similarities)[-top_k:][::-1]`: the positions of the index
      entries that `get_relevant_context` returns, best first. */
  function SelectTop(index: seq<IndexEntry>, query: Embedding, topK: int, p: Providers): (top: seq<nat>)
    requires ValidArgsort(p.argsort)
    ensures topK >= 1 ==> |top| == if topK <= |index| then topK else |index|
    ensures topK == 0 ==> |top| == |index|
    ensures forall i :: 0 <= i < |top| ==> top[i] < |index|
    ensures forall i, j :: 0 <= i < j < |top| ==> top[i] != top[j]
    ensures forall i, j :: 0 <= i < j < |top| ==>
              p.similarity(query, index[top[i]].embedding) >= p.similarity(query, index[top[j]].embedding)
    ensures forall i, x: nat :: 0 <= i < |top| && x < |index| && x !in top ==>
              p.similarity(query, index[top[i]].embedding) >= p.similarity(query, index[x].embedding)
  {
    var scores := Similarities(query, index, p.similarity);
    var order := p.argsort(scores);
    TopIndicesDistinct(scores, order, topK);
    TopIndicesDescending(scores, order, topK);
    TopIndicesDominate(scores, order, topK);
    TopIndices(order, topK)
  }

  /** The texts of the selected entries, in selection order. */
  function Pick(index: seq<IndexEntry>, top: seq<nat>): (texts: seq<string>)
    requires forall i :: 0 <= i < |top| ==> top[i] < |index|
    ensures |texts| == |top|
    ensures forall i :: 0 <= i < |top| ==> texts[i] == index[top[i]].text
  {
    seq(|top|, i requires 0 <= i < |top| => index[top[i]].text)
  }

  /** The documents `get_all_documents` returns for this chain and listing. */
  function Documents(chain: Chain, listing: DS.Listing): seq<string>
  {
    DS.GetAllDocuments(chain.service, listing).1
  }

  /** The part of `get_relevant_context` after the rebuild: an empty index
      returns no documents without embedding the query; otherwise the query
      is embedded once and the top-k texts are returned, best first. */
  function RankIndex(index: seq<IndexEntry>, query: string, topK: int, p: Providers)
    : (r: Traced<seq<string>>)
    requires ValidArgsort(p.argsort)
    ensures |index| == 0 ==> r == Traced(Success([]), [])
    ensures |index| > 0 ==> r.embedCalls == [query]
    ensures r.result.Success? <==> |index| == 0 || p.embed(query).Success?
    ensures |index| > 0 && p.embed(query).Failure? ==> r.result == Failure(p.embed(query).error)
    ensures r.result.Success? && |index| > 0 ==>
      r.result.value == Pick(index, SelectTop(index, p.embed(query).value, topK, p))
  {
    if |index| == 0 then Traced(Success([]), [])
    else
      match p.embed(query)
      case Failure(err) => Traced(Failure(err), [query])
      case Success(q) => Traced(Success(Pick(index, SelectTop(index, q, topK, p))), [query])
  }

  /** `_initialize_documents`: fetch the documents (which reloads the
      service's cache), reset the index and add every document. The result
      pairs the chain's new state with the build outcome. */
  function Rebuild(chain: Chain, listing: DS.Listing, embed: string -> Result<Embedding, string>)
    : (r: (Chain, Build))
    ensures r.0.service == DS.LoadDocuments(chain.service, listing)
    ensures r.0.index == r.1.index
    ensures var docs := Documents(chain, listing);
      |r.0.index| <= |docs| && Texts(r.0.index) == docs[..|r.0.index|]
    ensures r.1 == BuildIndex(Documents(chain, listing), embed)
  {
    var (service, docs) := DS.GetAllDocuments(chain.service, listing);
    var b := BuildIndex(docs, embed);
    BuildIndexTexts(docs, embed);
    (Chain(service, b.index), b)
  }

  /** `get_relevant_context`: rebuild, then rank. The result pairs the
      chain's new state with the traced context. A failed rebuild leaves the
      entries added before the failure in the chain's index. */
  function GetRelevantContext(chain: Chain, listing: DS.Listing, query: string, topK: int, p: Providers)
    : (r: (Chain, Traced<seq<string>>))
    requires ValidArgsort(p.argsort)
    ensures r.0.service == DS.LoadDocuments(chain.service, listing)
    ensures r.0.index == BuildIndex(Documents(chain, listing), p.embed).index
    ensures var docs := Documents(chain, listing);
      |r.0.index| <= |docs| && Texts(r.0.index) == docs[..|r.0.index|]
    ensures var b := BuildIndex(Documents(chain, listing), p.embed);
      b.error.Some? ==> r.1 == Traced(Failure(b.error.value), b.embedCalls)
    ensures var docs := Documents(chain, listing);
      (forall i :: 0 <= i < |docs| ==> p.embed(docs[i]).Success?) && |docs| > 0 && p.embed(query).Failure?
      ==> r.1.result == Failure(p.embed(query).error)
    ensures var docs := Documents(chain, listing);
      r.1.result.Success? <==>
        (forall i :: 0 <= i < |docs| ==> p.embed(docs[i]).Success?)
        && (|docs| > 0 ==> p.embed(query).Success?)
    ensures var docs := Documents(chain, listing);
      r.1.result.Success? ==>
        |r.0.index| == |docs| && r.1.embedCalls == (if |docs| == 0 then [] else docs + [query])
    ensures |Documents(chain, listing)| == 0 ==> r.1 == Traced(Success([]), [])
    ensures r.1.result.Success? && |r.0.index| > 0 ==>
      p.embed(query).Success?
      && r.1.result.value == Pick(r.0.index, SelectTop(r.0.index, p.embed(query).value, topK, p))
  {
    var (next, b) := Rebuild(chain, listing, p.embed);
    if b.error.Some? then
      (next, Traced(Failure(b.error.value), b.embedCalls))
    else
      var ranked := RankIndex(b.index, query, topK, p);
      (next, Traced(ranked.result, b.embedCalls + ranked.embedCalls))
  }

  /** The context string of `get_answer`: "" for no documents, otherwise the
      documents joined with line breaks. */
  function ContextString(docs: seq<string>): (s: string)
    ensures s == Join([LineBreak], docs)
  {
    if |docs| == 0 then "" else Join([LineBreak], docs)
  }

  /** The context string splits back into the documents at its line breaks
      when no document contains a line break. */
  lemma ContextStringSplits(docs: seq<string>)
    requires |docs| >= 1 && forall i :: 0 <= i < |docs| ==> LineBreak !in docs[i]
    ensures Split(ContextString(docs), LineBreak) == docs
  {
    SplitJoin(docs, LineBreak);
  }

  /** `get_answer`: retrieve with the default top_k, build the context, ask
      the completion provider, and return (answer, context documents, token
      count). Any provider failure fails the whole call. */
  function GetAnswer(chain: Chain, listing: DS.Listing, question: string, p: Providers)
    : (r: (Chain, Traced<Answer>))
    requires ValidArgsort(p.argsort)
    ensures var (next, retrieved) := GetRelevantContext(chain, listing, question, DefaultTopK, p);
      && r.0 == next
      && r.1.embedCalls == retrieved.embedCalls
      && (r.1.result.Success? <==>
            retrieved.result.Success?
            && p.complete(question, Join([LineBreak], retrieved.result.value)).Success?)
      && (r.1.result.Success? ==>
            && r.1.result.value.contextUsed == retrieved.result.value
            && p.complete(question, Join([LineBreak], retrieved.result.value))
               == Success(Completion(r.1.result.value.answer, r.1.result.value.tokensUsed)))
      && (retrieved.result.Failure? ==> r.1.result == Failure(retrieved.result.error))
      && (retrieved.result.Success? && p.complete(question, Join([LineBreak], retrieved.result.value)).Failure? ==>
            r.1.result == Failure(p.complete(question, Join([LineBreak], retrieved.result.value)).error))
  {
    var (next, retrieved) := GetRelevantContext(chain, listing, question, DefaultTopK, p);
    match retrieved.result
    case Failure(err) => (next, Traced(Failure(err), retrieved.embedCalls))
    case Success(docs) =>
      match p.complete(question, ContextString(docs))
      case Failure(err) => (next, Traced(Failure(err), retrieved.embedCalls))
      case Success(c) => (next, Traced(Success(Answer(c.answer, docs, c.tokensUsed)), retrieved.embedCalls))
  }

  /** The cache a new chain starts from: the document service's own load
      (listing `first`) followed by the reload of the first rebuild (listing
      `second`). */
  function StartupCache(first: DS.Listing, second: DS.Listing): DS.Cache
  {
    DS.LoadDocuments(DS.NewDocumentService(first), second)
  }

  /** `QAChain()`: a fresh document service (one load of the directory, as
      listed by `first`), then a rebuild, whose `get_all_documents` loads the
      directory again (as listed by `second`). Construction fails with the
      first failing document's error. */
  function NewChain(first: DS.Listing, second: DS.Listing, embed: string -> Result<Embedding, string>)
    : (r: Traced<Chain>)
    ensures var docs := DS.Values(StartupCache(first, second));
      r.result.Success? <==> forall i :: 0 <= i < |docs| ==> embed(docs[i]).Success?
    ensures var b := BuildIndex(DS.Values(StartupCache(first, second)), embed);
      r.embedCalls == b.embedCalls
    ensures var b := BuildIndex(DS.Values(StartupCache(first, second)), embed);
      b.error.Some? ==> r.result == Failure(b.error.value)
    ensures var b := BuildIndex(DS.Values(StartupCache(first, second)), embed);
      r.result.Success? ==> r.result.value == Chain(StartupCache(first, second), b.index)
    ensures r.result.Success? ==> r.embedCalls == DS.Values(StartupCache(first, second))
  {
    var service := StartupCache(first, second);
    var b := BuildIndex(DS.Values(service), embed);
    if b.error.Some? then Traced(Failure(b.error.value), b.embedCalls)
    else Traced(Success(Chain(service, b.index)), b.embedCalls)
  }

  /** When the directory does not change between the two loads, the new
      chain holds exactly the new document service's cache, and its index
      holds that cache's values with their embeddings, in key order. */
  lemma NewChainUnchangedDirectory(listing: DS.Listing, embed: string -> Result<Embedding, string>)
    ensures var r := NewChain(listing, listing, embed);
      var docs := DS.Values(DS.NewDocumentService(listing));
      r.result.Success? ==>
        && r.result.value.service == DS.NewDocumentService(listing)
        && Texts(r.result.value.index) == docs
        && r.result.value.index == BuildIndex(docs, embed).index
  {
    DS.LoadIdempotent([], listing);
    var docs := DS.Values(DS.NewDocumentService(listing));
    BuildIndexTexts(docs, embed);
  }

  /** The rebuild replaces the index: the chain's previous index has no
      influence on the new state or on the context. */
  lemma RebuildReplacesIndex(service: DS.Cache, old1: seq<IndexEntry>, old2: seq<IndexEntry>,
                             listing: DS.Listing, query: string, topK: int, p: Providers)
    requires ValidArgsort(p.argsort)
    ensures GetRelevantContext(Chain(service, old1), listing, query, topK, p)
         == GetRelevantContext(Chain(service, old2), listing, query, topK, p)
  {
  }

  /** Asking again against an unchanged directory repeats the same
      retrieval: same state, same provider calls, same context. */
  lemma RetrievalIdempotent(chain: Chain, listing: DS.Listing, query: string, topK: int, p: Providers)
    requires ValidArgsort(p.argsort)
    ensures var first := GetRelevantContext(chain, listing, query, topK, p);
      GetRelevantContext(first.0, listing, query, topK, p) == first
  {
    var first := GetRelevantContext(chain, listing, query, topK, p);
    DS.LoadIdempotent(chain.service, listing);
    assert Documents(first.0, listing) == Documents(chain, listing);
  }

  /** A successful retrieval returns min(top_k, n) documents for top_k >= 1,
      all n for top_k == 0, and none when there are no documents. */
  lemma ContextLength(chain: Chain, listing: DS.Listing, query: string, topK: int, p: Providers)
    requires ValidArgsort(p.argsort)
    ensures var n := |Documents(chain, listing)|;
      var result := GetRelevantContext(chain, listing, query, topK, p).1.result;
      result.Success? ==>
        && (topK >= 1 ==> |result.value| == if topK <= n then topK else n)
        && (topK == 0 ==> |result.value| == n)
        && (n == 0 ==> |result.value| == 0)
  {
  }

  /** Entry `best` of the index is strictly more similar to the query
      embedding than every other entry. */
  ghost predicate StrictlyMostSimilar(index: seq<IndexEntry>, q: Embedding,
                                      similarity: (Embedding, Embedding) -> real, best: nat)
  {
    && best < |index|
    && forall x :: 0 <= x < |index| && x != best ==>
         similarity(q, index[x].embedding) < similarity(q, index[best].embedding)
  }

  /** An entry strictly more similar to the query than every other entry is
      the first one selected whenever anything is selected. */
  lemma BestEntryFirst(index: seq<IndexEntry>, q: Embedding, topK: int, p: Providers, best: nat)
    requires ValidArgsort(p.argsort)
    requires topK >= 1 && StrictlyMostSimilar(index, q, p.similarity, best)
    ensures var top := SelectTop(index, q, topK, p);
      |top| >= 1 && top[0] == best && Pick(index, top)[0] == index[best].text
  {
    var top := SelectTop(index, q, topK, p);
    assert p.similarity(q, index[top[0]].embedding) <= p.similarity(q, index[best].embedding);
    assert best in top;
  }

  /** Every document embeds, and document `best` is strictly more similar
      to the query embedding than every other document. */
  ghost predicate MostSimilarDocument(docs: seq<string>, q: Embedding, p: Providers, best: nat)
  {
    && best < |docs|
    && (forall i :: 0 <= i < |docs| ==> p.embed(docs[i]).Success?)
    && forall x :: 0 <= x < |docs| && x != best ==>
         p.similarity(q, p.embed(docs[x]).value) < p.similarity(q, p.embed(docs[best]).value)
  }

  /** The document whose embedding is strictly more similar to the query's
      than every other document's comes first in the context. */
  lemma BestDocumentFirst(chain: Chain, listing: DS.Listing, query: string, topK: int, p: Providers, best: nat)
    requires ValidArgsort(p.argsort)
    ensures var docs := Documents(chain, listing);
      var r := GetRelevantContext(chain, listing, query, topK, p);
      (&& topK >= 1 && p.embed(query).Success?
       && MostSimilarDocument(docs, p.embed(query).value, p, best))
      ==> r.1.result.Success? && |r.1.result.value| >= 1 && r.1.result.value[0] == docs[best]
  {
    var docs := Documents(chain, listing);
    if topK >= 1 && p.embed(query).Success? && MostSimilarDocument(docs, p.embed(query).value, p, best) {
      var q := p.embed(query).value;
      var index := BuildIndex(docs, p.embed).index;
      BuildIndexMostSimilar(docs, q, p, best);
      BestEntryFirst(index, q, topK, p, best);
    }
  }

  /** When every document embeds, the rebuilt index is complete and its
      entry `best` is the strictly most similar one exactly when document
      `best` is. */
  lemma BuildIndexMostSimilar(docs: seq<string>, q: Embedding, p: Providers, best: nat)
    requires MostSimilarDocument(docs, q, p, best)
    ensures var b := BuildIndex(docs, p.embed);
      && b.error.None? && |b.index| == |docs|
      && StrictlyMostSimilar(b.index, q, p.similarity, best)
      && b.index[best].text == docs[best]
  {
    var b := BuildIndex(docs, p.embed);
    assert b.index[best] == IndexEntry(docs[best], p.embed(docs[best]).value);
    forall x | 0 <= x < |b.index| && x != best
      ensures p.similarity(q, b.index[x].embedding) < p.similarity(q, b.index[best].embedding)
    {
      assert b.index[x] == IndexEntry(docs[x], p.embed(docs[x]).value);
    }
  }

  /** `get_answer` fails whenever a document's embedding fails, and whenever
      there are documents and the question's embedding fails. */
  lemma AnswerFailsOnEmbeddingFailure(chain: Chain, listing: DS.Listing, question: string, p: Providers)
    requires ValidArgsort(p.argsort)
    requires var docs := Documents(chain, listing);
      (exists i :: 0 <= i < |docs| && p.embed(docs[i]).Failure?)
      || (|docs| > 0 && p.embed(question).Failure?)
    ensures GetAnswer(chain, listing, question, p).1.result.Failure?
  {
  }

  /** A successful `get_answer` embeds every document once, in document
      order, then the question, and returns at most three context documents. */
  lemma AnswerCalls(chain: Chain, listing: DS.Listing, question: string, p: Providers)
    requires ValidArgsort(p.argsort)
    ensures var docs := Documents(chain, listing);
      var r := GetAnswer(chain, listing, question, p);
      r.1.result.Success? ==>
      && r.1.embedCalls == (if |docs| == 0 then [] else docs + [question])
      && |r.1.result.value.contextUsed| == if |docs| < DefaultTopK then |docs| else DefaultTopK
  {
    ContextLength(chain, listing, question, DefaultTopK, p);
  }
}
