# Retrieval pipeline of the SENAI question-answering backend, in Dafny

This project models the retrieval-augmented QA backend: the QA chain that answers a question from a
small corpus of text documents, the document service whose cache feeds it, and the chat page's
labelling of the context documents it shows. Everything is a pure function over immutable values.

- `wrappers.dfy` (`Wrappers`): `Option`, `Result`, `Outcome`, the failure-carrying values used for
  unreadable files, provider errors and failed writes.
- `strings.dfy` (`Strings`): Python's `startswith`, `endswith`, `sep.join` and, as the partner of
  `join`, `split` on one character, with the two round-trip lemmas between them.
- `document_service.dfy` (`DocumentService`): the `documents` dict as an insertion-ordered sequence
  of entries with unique names (Python dict order decides the order of `get_all_documents`, hence
  the order of the QA index). The directory is an input: a sequence of listing entries, each a
  file name and the result of reading it (`None` when the read raised).
- `ranker.dfy` (`Ranker`): `np.argsort(similarities)[-top_k:][::-1]`. `np.argsort` is a function
  parameter constrained only by its contract (an ascending permutation of the positions); the
  slice follows Python's rules for every integer `top_k`. A stable insertion argsort shows that
  the contract can be met.
- `qa_chain.dfy` (`QAChain`): the rebuild of the `(text, embedding)` index, the empty-index short
  circuit, ranking, the context string and `get_answer`. The embedding and completion providers
  are functions returning a `Result`, similarity is an abstract score function returning a
  `real`, and each operation also returns the texts it sent to the embedding provider, in call
  order, so that call counts can be stated.
- `chat_labels.dfy` (`ChatLabels`): `get_filename_from_content` and the per-document label list.

Behaviour of the code worth noting, which the model follows:

- Ties. `np.argsort` uses a sort that is not stable, and the selection is reversed. The model
  promises nothing about the order of equal scores. A stable tie-break that keeps index order is
  not what the code does: even with a stable argsort, the reversal would list equal scores in
  reverse index order.
- `top_k`. `[-top_k:]` keeps everything for `top_k == 0` and drops the first `-top_k` entries for
  a negative `top_k`. So the context has `min(top_k, n)` entries only when `top_k >= 1`.
  `get_answer` always passes 3.
- A failed rebuild. The index is reset and then appended to one document at a time, so a
  provider failure leaves the entries added before it in the chain's index. The next call resets
  the index again, so those entries are never used.
- The cache. The document service's dict lives across questions. A reload only inserts or
  overwrites, so a file deleted from disk keeps being returned as a document.
- Empty context. The completion provider is still called, with the context `""`.

## Model

| member | source | states |
|---|---|---|
| `DocumentService.Put` | backend/services/document_service.py:27 | assigning to a present key keeps the key order; a new key is appended at the end; names stay unique |
| `DocumentService.PutLookup` | backend/services/document_service.py:27 | after `documents[k] = v`, `k` holds `v` and every other key keeps its value |
| `DocumentService.LoadEntry` | backend/services/document_service.py:22-29 | one listing entry: a readable `.txt` file sets its name to its content (appending the name when new); any other entry leaves keys and values unchanged |
| `DocumentService.LoadDocuments` | backend/services/document_service.py:21-27 | a load keeps every previously cached key, in its old order, as a prefix of the new key order |
| `DocumentService.LoadNames` | backend/services/document_service.py:21-27 | after a load the key order is the old key order followed by the new `.txt` names in the order of their first readable listing entry |
| `DocumentService.LoadLookup` | backend/services/document_service.py:21-29 | after a load, a `.txt` name holds the content of the last readable listing entry with that name; any other key keeps its previous value or stays absent |
| `DocumentService.LoadKeys` | backend/services/document_service.py:21-22 | a key is present after a load iff it was before or the listing supplies it; every added key ends with `.txt` |
| `DocumentService.LoadNeverRemoves` | backend/services/document_service.py:21-27 | a cached key stays cached whatever the listing holds, so deleted files stay cached |
| `DocumentService.LoadSkipsUnreadable` | backend/services/document_service.py:25-29 | a name whose every read failed keeps its previous cached value |
| `DocumentService.LoadIdempotent` | backend/services/document_service.py:13-29 | loading twice from the same listing gives the same cache as loading once |
| `DocumentService.GetAllDocuments` | backend/services/document_service.py:33-37 | it returns the reloaded cache; the list has one value per key, and value i is the one stored under key i |
| `DocumentService.NormaliseFilename` | backend/services/document_service.py:41-42 | the stored name ends with `.txt` and starts with the given name; it equals the given name iff that already ends with `.txt`, and otherwise it is the given name followed by `.txt` |
| `DocumentService.NormaliseIdempotent` | backend/services/document_service.py:41-42 | normalising twice is normalising once |
| `DocumentService.AddDocument` | backend/services/document_service.py:39-54 | after a successful write the normalised name holds the content and every other key is unchanged; on a failed write the cache is unchanged and the same error is raised |
| `DocumentService.NewDocumentService` | backend/services/document_service.py:7-11 | a new service's keys are the readable `.txt` names in the order of their first readable listing entry, and each holds the latest readable content for that name |
| `Ranker.SliceStart` | backend/chains/qa_chain.py:46 | `xs[-t:]` keeps the last min(t, n) items for t >= 1, all items for t == 0, and drops the first -t items for t < 0 |
| `Ranker.TopIndices` | backend/chains/qa_chain.py:46 | the selection has the length the slice keeps, and its item i is the (n-1-i)-th item of the argsort order |
| `Ranker.SuffixSelected` | backend/chains/qa_chain.py:46 | every argsort position from the slice start on is selected |
| `Ranker.TopIndicesDistinct` | backend/chains/qa_chain.py:46-47 | the selected positions are in range and no position is selected twice |
| `Ranker.TopIndicesDescending` | backend/chains/qa_chain.py:46-47 | the selection is ordered by non-increasing score |
| `Ranker.TopIndicesDominate` | backend/chains/qa_chain.py:37-47 | every selected position scores at least as high as every unselected one |
| `Ranker.BestIsFirst` | backend/chains/qa_chain.py:46 | a position scoring strictly above all others comes first whenever anything is selected |
| `Ranker.StableArgsort` | backend/chains/qa_chain.py:46 | an insertion argsort meets the argsort contract, so the contract can be met |
| `QAChain.AddToIndex` | backend/chains/qa_chain.py:21-24 | it succeeds iff the embedding succeeds, and then appends exactly one entry, holding the text and its embedding |
| `QAChain.BuildIndex` | backend/chains/qa_chain.py:14-24 | the rebuilt index holds, for a prefix of the documents, each document's text and embedding in order; it is complete iff every embedding succeeds; the texts sent to the provider are a prefix of the documents, all of them on success |
| `QAChain.BuildIndexTexts` | backend/chains/qa_chain.py:17-19 | the index's texts are the documents in document order |
| `QAChain.BuildIndexStopsAtFailure` | backend/chains/qa_chain.py:18-24 | a failed rebuild stops at the first failing document, which is the last text sent to the provider, and reports its error |
| `QAChain.Rebuild` | backend/chains/qa_chain.py:14-19 | a rebuild reloads the service's cache and replaces the index with one built from `get_all_documents` |
| `QAChain.Similarities` | backend/chains/qa_chain.py:37-43 | one score per index entry, in index order: the similarity of the query embedding to that entry's embedding |
| `QAChain.SelectTop` | backend/chains/qa_chain.py:36-47 | for top_k >= 1 it selects min(top_k, n) distinct entries, all n for top_k == 0, in non-increasing similarity, none scoring below an unselected entry |
| `QAChain.Pick` | backend/chains/qa_chain.py:47 | one text per selected position, in selection order: the text of the index entry at that position |
| `QAChain.RankIndex` | backend/chains/qa_chain.py:31-47 | an empty index returns `[]` without embedding the query; otherwise the query is embedded once; a failed query embedding returns the provider's error, and a successful one the texts of the selected entries |
| `QAChain.GetRelevantContext` | backend/chains/qa_chain.py:26-47 | the chain's index becomes the documents' (text, embedding) entries built in order; a failed document embedding returns that build's error and calls, a failed query embedding returns the provider's error; it succeeds iff every document embedding succeeds and, when there are documents, the query embedding does; on success the provider saw the n documents then the query (n + 1 calls), or nothing when n == 0; the context is the texts of the selected entries |
| `QAChain.RebuildReplacesIndex` | backend/chains/qa_chain.py:17 | the previous index has no influence on the new state or on the context |
| `QAChain.RetrievalIdempotent` | backend/chains/qa_chain.py:26-47 | asking again against an unchanged directory gives the same state, calls and context |
| `QAChain.ContextLength` | backend/chains/qa_chain.py:46-47 | a successful context has min(top_k, n) documents for top_k >= 1, n for top_k == 0, none when n == 0 |
| `QAChain.BestEntryFirst` | backend/chains/qa_chain.py:37-47 | an entry strictly more similar to the query than every other entry is selected first, and its text opens the context |
| `QAChain.BuildIndexMostSimilar` | backend/chains/qa_chain.py:18-24 | when every document embeds, the index is complete and its entry i carries document i's text and embedding, so the strictly most similar document is the strictly most similar entry |
| `QAChain.BestDocumentFirst` | backend/chains/qa_chain.py:26-47 | when every document embeds and one document's embedding is strictly more similar to the query's than every other's, retrieval succeeds and that document comes first in the context |
| `QAChain.ContextString` | backend/chains/qa_chain.py:52 | the guarded join equals the plain `"\n".join(docs)` |
| `QAChain.ContextStringSplits` | backend/chains/qa_chain.py:52 | splitting the context string at line breaks gives the documents back when none contains a line break |
| `QAChain.GetAnswer` | backend/chains/qa_chain.py:49-55 | the answer succeeds iff retrieval and completion succeed; it returns the provider's answer and token count for the joined context, and the retrieved documents unchanged; a retrieval error or a completion error is returned as is |
| `QAChain.AnswerFailsOnEmbeddingFailure` | backend/chains/qa_chain.py:18-34 | a failing document embedding, or a failing question embedding when there are documents, fails `get_answer` |
| `QAChain.AnswerCalls` | backend/chains/qa_chain.py:49-51 | a successful answer made n + 1 embedding calls (documents, then question) or none for n == 0, and used min(3, n) documents |
| `QAChain.NewChain` | backend/chains/qa_chain.py:8-24 | the directory is loaded twice, once by the new document service and once by the first rebuild, each load from its own listing; construction succeeds iff every document embedding succeeds; the calls are those of the build; a failure returns the failing document's error; on success the chain holds the twice-loaded cache and the built index, and every document was embedded once in order |
| `QAChain.NewChainUnchangedDirectory` | backend/chains/qa_chain.py:10-12 | when both loads see the same directory, a new chain holds exactly the new service's cache, and its index holds that cache's values with their embeddings, in key order |
| `Strings.Join` | backend/chains/qa_chain.py:52 | joining no parts gives `""`, joining one part gives that part, and the result has the length of the parts plus one separator between neighbours |
| `Strings.JoinSnoc` | backend/chains/qa_chain.py:52 | joining one more part appends the separator and the part, whatever the parts contain; with the one-part case this fixes every join |
| `Strings.JoinSplit` | backend/chains/qa_chain.py:52 | joining the pieces of a split gives the string back |
| `Strings.SplitJoin` | backend/chains/qa_chain.py:52 | splitting a join gives the parts back when no part contains the separator |
| `ChatLabels.FirstMatch` | frontend/0_CHAT.py:154-157 | the result is the default name or the name of an entry whose opening the content starts with |
| `ChatLabels.FilenameFromContent` | frontend/0_CHAT.py:146-157 | the label is one of the four fixed names; each opening maps to its name; the label is `documento.txt` iff no opening matches, the empty string included |
| `ChatLabels.UnfoldContentMap` | frontend/0_CHAT.py:148-157 | the loop tries the openings in the dict's order |
| `ChatLabels.KeysDisagree` | frontend/0_CHAT.py:148-152 | no content starts with two of the openings |
| `ChatLabels.KeysPrefixFree` | frontend/0_CHAT.py:148-152 | no opening is a prefix of another |
| `ChatLabels.FirstMatchUnique` | frontend/0_CHAT.py:154-156 | when one entry is the only match, the loop returns its name wherever it sits |
| `ChatLabels.FirstMatchNone` | frontend/0_CHAT.py:154-157 | when nothing matches, the loop returns the default name |
| `ChatLabels.OrderIndependent` | frontend/0_CHAT.py:148-157 | any reordering of the map's entries labels every content the same way |
| `ChatLabels.ContextLabels` | frontend/0_CHAT.py:174 | one label per context document, in context order |

## Left out

- Cosine similarity, numpy and floating point: similarity is an abstract function to `real`, so zero vectors and NaN are not modelled.
- The OpenAI client (backend/services/openai_service.py): models, prompt template, temperature, token cap, timeout, proxy and the wrapping of exception messages. `get_embedding` and `get_completion` are functions that may fail.
- Construction of the OpenAI service, which raises when the API key is missing. `NewChain` starts after it.
- Filesystem effects: directory creation (backend/services/document_service.py:15-17), the order and failures of `os.listdir`, encodings, paths built with `os.path.join`, and the write itself. The listing and the write's outcome are inputs.
- Debug printing throughout the document service.
- HTTP routing, app wiring, usage logging and the database (backend/routers/document_router.py, backend/main.py, backend/db/database.py): thin adapters around the modelled calls.
- Concurrency: the backend shares one chain between requests; the model runs one call at a time.
- The chat page's HTML: the emoji prefix and the `<br>` join around each label. Only the label list is modelled.
- `Ranker.TopIndicesDescending`: says nothing about the order of equal scores, because `np.argsort` does not fix it.
