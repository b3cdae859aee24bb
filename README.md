# TelcoNexus RAG retriever and answer assembly, in Dafny

This project models the decision logic of the TelcoNexus RAG assistant's
chat service (`services/geminiService.ts`). That logic has two parts.

* **The simulated vector search `retrieveDocuments`.** It lower-cases the query
  and splits it on single spaces. It scores each chunk of the fixed knowledge
  base: 0.2 for every term, repeats included, that occurs in the chunk's
  lower-cased content or source label. It caps each score at 0.99, keeps the
  chunks scoring above 0.1, stable-sorts them by descending score and keeps the
  first three. When no chunk is kept it returns the "Architecture: 5G Core
  Layout" chunk with its stored score.
* **The rest of `sendMessageToRAG`.** It renders the retrieved chunks into a
  context block and embeds that block and the question in the prompt. It then
  shapes the answer object from the outcome of the generation call.

Modules, one concept each:

* `Text` (text.dfy): ASCII `toLowerCase`, `split` on one character, `join`
  and `includes`.
* `Knowledge` (knowledge.dfy): the `DocumentChunk` record and the five-chunk
  `KNOWLEDGE_BASE`.
* `Ranking` (ranking.dfy): the stable sort on descending score.
* `Retrieval` (retrieval.dfy): tokenising, scoring, filtering, truncation,
  the fallback, and the properties of `retrieveDocuments`.
* `Rag` (rag.dfy): the context string, the prompt, the request, and the
  success/failure answer.

Scores are integer hundredths. `k` matching terms score `min(20 * k, 99)`, and
a chunk is kept when its score is above `10`. The source sums floats: 0.2, 0.4,
0.6000000000000001, 0.8, 1.0, then caps at 0.99. That sequence strictly
increases with `k` up to the cap, so the integer score filters and orders
chunks exactly as the float score does. The stored scores of the corpus
(0.95, 0.88, 0.82, 0.91, 0.85) are kept as 95, 88, 82, 91, 85.

The sort is modelled as an insertion sort that puts an earlier chunk in front
of later chunks of equal score. The chunks of each score keep their order
(`Ranking.SortByScoreCorrect`), as `Array.prototype.sort`'s stability
guarantees (stable since ECMAScript 2019; ECMAScript 2023, section 23.1.3.30). `Ranking.StableSortUnique`
shows that only one sequence is ordered by descending score and keeps every
score's chunks in input order. So any stable sort the engine uses gives the
same result as this one.

Tie order is stated per score value, which also covers corpora with repeated
chunks. For each score `v` above the floor, the returned chunks of score `v`
are a prefix of the corpus's chunks of score `v`, in corpus order. If some
chunk of score `v` is left out, three chunks were returned and all of them
score at least `v`.

Retrieval, rendering and answer shaping are Dafny functions, so the same query
and corpus always give the same list. No separate lemma is needed for this.

### Behaviour worth noting

* The query is split with `split(' ')` (services/geminiService.ts:12), which
  keeps empty terms. An empty term occurs in every string, so it adds 0.2 to
  every chunk (services/geminiService.ts:17). The empty query therefore
  returns doc-1, doc-2 and doc-3 at 0.2 each, never the fallback
  (`Retrieval.RetrieveDocumentsEmptyQuery`). The same holds for any query with
  a leading, trailing or doubled space (`Retrieval.TokenizeEmptyToken`,
  `Retrieval.RetrieveWithEmptyToken`).
* The fallback returns `KNOWLEDGE_BASE[2]` unchanged
  (services/geminiService.ts:32), so it carries that chunk's stored score 0.82
  (constants.ts:62), not a computed one (`Retrieval.RetrieveDocumentsFallback`).

## Model

| member | source | states |
|---|---|---|
| `Text.Lower` | services/geminiService.ts:12 | `toLowerCase` keeps the length, moves each ASCII upper-case letter up by 32 code points (`A`, 65, becomes `a`, 97), keeps every other character, and leaves no upper-case letter |
| `Text.Contains` | services/geminiService.ts:17 | `includes` holds for every prefix, the empty string included, and never for a term longer than the string |
| `Text.ContainsIffOccurs` | services/geminiService.ts:17 | `includes` holds exactly when the term occurs at some offset of the string |
| `Text.Split` | services/geminiService.ts:12 | `split(' ')` gives at least one piece, and no piece contains the separator |
| `Text.SplitJoin` | services/geminiService.ts:12 | joining the pieces of `split` back with the separator gives the original string |
| `Text.SplitCount` | services/geminiService.ts:12 | `split` gives one more piece than the string has separators |
| `Text.EmptyPieceIff` | services/geminiService.ts:12 | `split` gives an empty piece exactly when the string is empty, starts or ends with the separator, or has two separators in a row |
| `Text.Join` | services/geminiService.ts:49 | `join` of n >= 1 parts has the parts' total length plus n - 1 separators |
| `Text.JoinContainsParts` | services/geminiService.ts:47-49 | every part occurs in the joined string |
| `Knowledge.KnowledgeBaseIdsDistinct` | constants.ts:45-76 | the five knowledge-base chunks have distinct ids |
| `Ranking.Insert` | services/geminiService.ts:27 | one sorting step: inserting a chunk gives a list one longer (order and stability of the step in `Ranking.InsertNonIncreasing` and `Ranking.InsertWithScore`) |
| `Ranking.InsertNonIncreasing` | services/geminiService.ts:27 | inserting into a list ordered by descending score keeps it ordered |
| `Ranking.SortByScore` | services/geminiService.ts:27 | `sort((a, b) => b.score - a.score)` keeps the number of chunks (order, permutation and stability in `Ranking.SortByScoreCorrect`) |
| `Ranking.SortByScoreCorrect` | services/geminiService.ts:27 | the sort yields non-increasing scores, is a permutation (same multiset), and keeps the chunks of every score in input order (stable) |
| `Ranking.InsertWithScore` | services/geminiService.ts:27 | inserting a chunk keeps every score's chunks in order, with the new chunk first among its own score |
| `Ranking.StableSortUnique` | services/geminiService.ts:27 | two sequences ordered by descending score with the same chunks of every score, in the same order, are equal |
| `Ranking.StableSortIsSortByScore` | services/geminiService.ts:27 | any result of a stable sort on descending score equals the modelled insertion sort |
| `Ranking.SortByScoreIds` | services/geminiService.ts:27 | sorting chunks with distinct ids gives chunks with distinct ids |
| `Retrieval.Tokenize` | services/geminiService.ts:12 | `toLowerCase().split(' ')` gives at least one term, no term holds a space, and the terms joined by single spaces give back the lower-cased query |
| `Retrieval.Matches` | services/geminiService.ts:17 | a term matches exactly when it occurs at some offset of the lower-cased content or the lower-cased source label; the empty term matches every chunk |
| `Retrieval.MatchCount` | services/geminiService.ts:16-20 | the number of terms, counted with repetition, found in the chunk's lower-cased content or source is at most the number of terms |
| `Retrieval.MatchCountAppend` | services/geminiService.ts:16-20 | a repeated term counts again: the count over concatenated term lists is the sum of the counts |
| `Retrieval.Score` | services/geminiService.ts:15-21 | the score is exactly 0.2 per matching term for up to four matches and the 0.99 cap from five on; it lies in [0, 0.99], is at most 0.2 per term, and exceeds 0.1 exactly when some term matched |
| `Retrieval.ScoreChunk` | services/geminiService.ts:15-21 | the imperative loop that starts at 0, adds 0.2 per matching term and then caps computes exactly `Score` |
| `Retrieval.Rescore` | services/geminiService.ts:14-21 | `{ ...doc, score: Math.min(score, 0.99) }` keeps id, source and content and sets the score to `Score` of the terms, so in [0, 0.99] and above 0.1 exactly when some term matched |
| `Retrieval.ScoreAll` | services/geminiService.ts:14-21 | the `map` keeps corpus length and order, and its i-th chunk is the i-th corpus chunk rescored: same id, source and content, score above 0.1 exactly when a term matched it |
| `Retrieval.Relevant` | services/geminiService.ts:26 | the filter keeps only chunks of the input that score above 0.1 |
| `Retrieval.RelevantWithScore` | services/geminiService.ts:26 | above the floor, the filter drops nothing of any score and keeps order |
| `Retrieval.Take` | services/geminiService.ts:28 | `slice(0, n)` gives a prefix of the list of length min(n, list length) |
| `Retrieval.TopRelevant` | services/geminiService.ts:25-28 | filter, sort and slice give at most three chunks, each a chunk of the input scoring above 0.1, in non-increasing score order |
| `Retrieval.Ranked` | services/geminiService.ts:14-28 | the list before the fallback rule has at most three chunks, each a rescored corpus chunk scoring above 0.1 |
| `Retrieval.Retrieve` | services/geminiService.ts:10-36 | for any corpus and fallback the result has between 1 and 3 chunks |
| `Retrieval.RetrieveDocuments` | services/geminiService.ts:10-36 | over the knowledge base the result has between 1 and 3 chunks |
| `Retrieval.TopRelevantMembers` | services/geminiService.ts:25-28 | after filter, sort and slice, each chunk is a relevant input chunk, there are min(3, relevant count) of them, and their scores do not increase |
| `Retrieval.TopRelevantComplete` | services/geminiService.ts:25-28 | if a relevant chunk of score v is cut, three chunks are kept and all score at least v |
| `Retrieval.RelevantIffMatch` | services/geminiService.ts:17-26 | no chunk survives the filter exactly when no term matches any chunk |
| `Retrieval.RetrieveFallback` | services/geminiService.ts:31-33 | the filtered list is empty exactly when nothing matches, and then the result is the fallback chunk alone, unchanged |
| `Retrieval.RetrieveRelevant` | services/geminiService.ts:14-28 | unless the fallback fired, each returned chunk scores above 0.1 and equals a matching corpus chunk with only its score recomputed; the result has min(3, matching count) chunks |
| `Retrieval.RetrieveOrdered` | services/geminiService.ts:27-35 | the result is ordered by non-increasing score |
| `Retrieval.RetrieveTiesInCorpusOrder` | services/geminiService.ts:25-28 | for every score above 0.1, the returned chunks of that score are the first ones of that score in corpus order |
| `Retrieval.RetrieveComplete` | services/geminiService.ts:25-28 | a matching chunk is left out only when three chunks that score at least as high are returned |
| `Retrieval.RetrieveFirstBest` | services/geminiService.ts:25-28 | a first-in-corpus relevant chunk that no other chunk outscores is returned first |
| `Retrieval.RetrieveDistinctIds` | services/geminiService.ts:14-21 | distinct ids in the corpus give distinct ids in the result |
| `Retrieval.RetrieveIdsFromCorpus` | services/geminiService.ts:14-35 | every returned id is a corpus id or the fallback's id |
| `Retrieval.RetrieveDocumentsDistinctIds` | services/geminiService.ts:10-36 | over the knowledge base, no two returned chunks share an id and every returned id is a knowledge-base id |
| `Retrieval.RetrieveIgnoresCase` | services/geminiService.ts:12 | lower-casing the query first changes nothing |
| `Retrieval.TokenizeEmptyToken` | services/geminiService.ts:12 | the terms include the empty string exactly when the query is empty, starts or ends with a space, or has two spaces in a row |
| `Retrieval.RetrieveWithEmptyToken` | services/geminiService.ts:12-28 | with an empty term every chunk matches, the fallback cannot fire, and min(3, corpus size) chunks are returned |
| `Retrieval.RetrieveEmptyQuery` | services/geminiService.ts:12-28 | the empty query returns the first min(3, corpus size) corpus chunks, in order, each scored 0.2 |
| `Retrieval.RetrieveDocumentsEmptyQuery` | services/geminiService.ts:10-36 | over the knowledge base the empty query returns doc-1, doc-2 and doc-3, each scored 0.2 |
| `Retrieval.RetrieveDocumentsFallback` | services/geminiService.ts:31-33 | when nothing matches, the knowledge base returns exactly `[KNOWLEDGE_BASE[2]]`: doc-3, "Architecture: 5G Core Layout", score 0.82 |
| `Retrieval.HssRunbookMatches` | constants.ts:46-51 | "hss", "5003" and "error" all occur in the HSS runbook chunk |
| `Retrieval.RetrieveDocumentsHssExample` | services/geminiService.ts:10-36 | the query "hss 5003 error" scores the HSS runbook 0.6 and returns it first |
| `Rag.RenderAll` | services/geminiService.ts:47-48 | the `map` gives one rendering per chunk, in chunk order |
| `Rag.RenderChunk` | services/geminiService.ts:48 | a chunk's rendering starts with `Source: ` and contains the chunk's source label and content |
| `Rag.ContextString` | services/geminiService.ts:47-49 | the context block contains the rendering of every retrieved chunk, and is empty exactly when no chunk is given |
| `Rag.ContextStringShape` | services/geminiService.ts:47-49 | one chunk renders as `Source: …\nContent: …`; a longer list is its first chunk's rendering, a blank line, and the rest's rendering |
| `Rag.ContextStringLength` | services/geminiService.ts:47-49 | a context of n >= 1 chunks holds exactly n - 1 `\n\n` separators, length-wise |
| `Rag.ContextMentionsChunk` | services/geminiService.ts:47-49 | every chunk's source label and content occur in the context string |
| `Rag.FinalPrompt` | services/geminiService.ts:63-69 | the prompt contains the context string and the question |
| `Rag.BuildRequest` | services/geminiService.ts:63-86 | the request names the model `gemini-2.5-flash`, and its prompt contains the context block of the chunks retrieved for the question and the question itself |
| `Rag.RequestGrounded` | services/geminiService.ts:44-80 | the request's prompt contains the question and the source and content of every retrieved chunk |
| `Rag.Respond` | services/geminiService.ts:88-98 | on success: the retrieved chunks, and the generated text or "No response generated." when it is empty or absent; on failure: the fixed error text and no chunks; the text is never empty |
| `Rag.SendMessageToRag` | services/geminiService.ts:38-100 | the answer is `Respond` applied to the chunks retrieved for the question and the outcome of generating from `BuildRequest`: on success the generated text, or "No response generated." when it is empty or absent, with the 1 to 3 retrieved chunks; on failure the fixed error answer with no chunks; the text is never empty |

## Left out

- The generation client (services/geminiService.ts:1, 6, 72-86) is a foreign network library keyed by an environment variable. It is modelled as the function parameter `generate` of `Rag.SendMessageToRag`, from request to outcome. An absent response `text` is `Success(None)`, and any thrown error is `Failure`.
- The system instruction (services/geminiService.ts:51-61) is fixed prose that no input affects. `temperature: 0.2` is a floating-point setting passed to the client. Neither is part of `Rag.GenerationRequest`.
- `console.error` (services/geminiService.ts:94) is logging output only.
- The `history` parameter (services/geminiService.ts:40) is never used by the source, so `Rag.SendMessageToRag` does not take it.
- `async`/`await` is left out: retrieval never suspends, and the model treats generation as a function.
- Text.Lower: models `toLowerCase` on ASCII only; other Unicode case mappings are not modelled.
- Retrieval.Score: uses integer hundredths, not IEEE doubles. The integer score filters and orders chunks as the double sum does, but the double values themselves (such as 0.6000000000000001) are not modelled.
- The UI components, view routing, dashboard charts, use-case catalogue, `MOCK_USE_CASES` and the other type declarations are presentation and data with no retrieval logic. They are not part of this model.
