# RAG system retrieval engine, modelled in Dafny

This project models `RAGSystem` from `parsebot-backend/rag-system.js`. It is the
in-memory retrieval engine behind the chat backend, and it has four parts:

- **The chunker** (`chunkText`). A cursor walks the document and cuts windows of at
  most `chunkSize` characters. A window may end just after its last `.` or newline.
  The cursor then steps back by `overlap`. A window becomes a chunk only when its
  trimmed text is longer than 50 characters.
- **Per-chunk weight tables** (`calculateTFIDF`). There is one `term -> weight` table
  per chunk, filled from what the `natural` library's `TfIdf.listTerms` reports.
- **The ranker** (`findRelevantChunks`). It counts the stemmed query tokens into a
  `Map` and scores each chunk as the sum of count × weight. It then sorts by score
  (stable, highest first), keeps the first `topK`, and drops scores that are not
  positive.
- **The session store** (`storeDocument`, `retrieveContext`, `clearDocument`,
  `getDocumentInfo`). It maps a session id to a document record.

Modules:

- `Text` (`text.dfy`): the string built-ins the chunker uses, namely `trim` with the
  ECMAScript whitespace set, single-character `lastIndexOf`, `Math.min` and
  `Math.max`.
- `Chunker` (`chunker.dfy`): `chunkText`.
  - The loop is the method `ChunkText`, proved equal to the function `Chunks`.
  - `Chunks` is defined pass by pass from `Step`, the one-iteration function.
  - The lemmas about `Chunks` and `WindowsFrom` state what the source promises.
- `Natural` (`natural.dfy`): the library calls, passed in as functions.
- `Tfidf` (`tfidf.dfy`): `calculateTFIDF`.
- `Query` (`query.dfy`): the query `Map` and the similarity loop.
- `Ranker` (`ranker.dfy`): scoring, sorting, slicing, filtering, and
  `findRelevantChunks`.
- `Rag` (`rag.dfy`): the class `RagSystem`. It has a `documents` map field and the
  store's methods.

Two quirks of the source are kept as written:

- **The break test.** It compares `breakPoint`, a position inside the window, with
  the absolute offset `start + chunkSize * 0.5`. Without floating point this is
  `2 * breakPoint > 2 * start + chunkSize`. As a result, once the cursor passes
  about `chunkSize / 2`, windows never end at a break (`LateWindowsAreFull`).
- **The recorded offsets.** They are counted back from the already advanced cursor:
  `start = cursor - |window|` and `end = cursor`. Only a window that runs to the end
  of the text records its true position. Every other window records its position
  shifted back by `overlap`.

The source has no progress guard. With `overlap >= chunkSize` the cursor can stall or
move back, so the loop may never end. The model requires
`0 < chunkSize && 2 * overlap <= chunkSize` (`Progressing`), which holds for the
defaults 1000/200. Under that condition the cursor strictly increases on every pass.

## Model

| member | source | states |
|---|---|---|
| Text.LeadIsWhitespace | parsebot-backend/rag-system.js:38-40 | `trim` removes the whole whitespace prefix and nothing past it |
| Text.StopIsWhitespace | parsebot-backend/rag-system.js:38-40 | `trim` removes the whole whitespace suffix and nothing before it |
| Text.TrimEnd | parsebot-backend/rag-system.js:38-40 | the trimmed text's end never precedes its start and stays within the string |
| Text.TrimKeeps | parsebot-backend/rag-system.js:38-40 | every non-whitespace character lies inside the trimmed text |
| Text.TrimDropsOnlyWhitespace | parsebot-backend/rag-system.js:38-40 | the trimmed text starts and ends on non-whitespace, and is empty exactly when the string is all whitespace |
| Text.TrimSliceNoLonger | parsebot-backend/rag-system.js:20-40 | trimming a slice of the text never gives more characters than trimming the whole text |
| Text.LastIndexOf | parsebot-backend/rag-system.js:24-25 | `lastIndexOf` is -1 or a position holding the character |
| Text.LastIndexOfIsLast | parsebot-backend/rag-system.js:24-25 | no occurrence of the character follows the reported position |
| Chunker.LastBreak | parsebot-backend/rag-system.js:24-26 | the break point is -1 or a position in the window holding '.' or a newline |
| Chunker.LastBreakIsLast | parsebot-backend/rag-system.js:24-26 | no '.' or newline of the window follows the break point |
| Chunker.Step | parsebot-backend/rag-system.js:19-36 | a pass takes a non-empty window of at most `chunkSize` characters, the whole remaining text once it fits, and moves the cursor strictly forward: to `overlap` before the window's end, or to the end of the text after the last window |
| Chunker.StepCutsAtLastBreak | parsebot-backend/rag-system.js:23-33 | a window short of the text's end is either the full `chunkSize` with no break passing the midpoint test, or ends just after a '.' or newline that passes the test with no break after it in the window |
| Chunker.LateWindowsAreFull | parsebot-backend/rag-system.js:26-28 | once `2 * start + 2 >= chunkSize` the break test can never pass, so the window is the full `chunkSize` or the rest of the text |
| Chunker.WindowsFrom | parsebot-backend/rag-system.js:16-36 | the passes from a cursor are empty exactly when the cursor is at or past the end; each window is non-empty, at most `chunkSize` long and inside the text, and each moves the cursor forward as `Step` does |
| Chunker.TakeWindow | parsebot-backend/rag-system.js:19-36 | the loop body cuts exactly the window `Step` describes and leaves the cursor `Step` describes |
| Chunker.PushIfLong | parsebot-backend/rag-system.js:38-44 | the push adds the trimmed window with offsets `cursor - |window|` .. `cursor` when the trimmed text is longer than 50 characters, and nothing otherwise |
| Chunker.ChunkText | parsebot-backend/rag-system.js:14-48 | the loop returns exactly `Chunks(text, chunkSize, overlap)`, the chunks pushed pass by pass |
| Chunker.PushedByStep | parsebot-backend/rag-system.js:38-44 | a pass pushes at most one chunk; it is the trim of its window, longer than 50 characters, and ends at the new cursor |
| Chunker.ChunksFromWindows | parsebot-backend/rag-system.js:18-44 | every chunk pushed from a cursor on is longer than 50 characters and is the trim of one of the windows cut from that cursor on, with `end - start` equal to the untrimmed window length |
| Chunker.ChunksFromEndAfter | parsebot-backend/rag-system.js:30-43 | every chunk pushed from a cursor on records an end past that cursor |
| Chunker.ChunksFromAdvance | parsebot-backend/rag-system.js:30-43 | the recorded ends of the pushed chunks strictly increase |
| Chunker.WindowsFromPushed | parsebot-backend/rag-system.js:18-44 | every window cut from a cursor on whose trimmed text is longer than 50 characters has its chunk among those pushed from that cursor on |
| Chunker.ChunksAreLongTrimmedWindows | parsebot-backend/rag-system.js:18-44 | every chunk of the text is the trim of one of the loop's windows and longer than 50 characters, and conversely every window whose trim is longer than 50 characters has its chunk among them; a chunk's offsets are its window's own when the window reaches the end of the text and are shifted back by `overlap` otherwise; chunks come in text order |
| Chunker.ShortTextHasNoChunks | parsebot-backend/rag-system.js:38 | a text whose trim has at most 50 characters (so any text of at most 50 characters) yields no chunk |
| Chunker.WindowsChain | parsebot-backend/rag-system.js:16-36 | the first window starts at the cursor, and each next window starts where the previous one left the cursor |
| Chunker.LastWindowEndsText | parsebot-backend/rag-system.js:34-36 | for `overlap >= 0` the last window ends at `text.length` |
| Chunker.CoveredFrom | parsebot-backend/rag-system.js:16-36 | for `overlap >= 0` every character from the cursor on lies in one of the windows cut from there |
| Chunker.WindowsCoverText | parsebot-backend/rag-system.js:16-36 | for `overlap >= 0` the windows tile the text: the first starts at 0, the last ends at the end, each is at most `chunkSize` long, each next one starts strictly later but no later than the previous one ends, and every character is covered |
| Tfidf.TableOfKeys | parsebot-backend/rag-system.js:60-63 | a chunk's table holds exactly the terms `listTerms` reports for it |
| Tfidf.TableOfKeepsLast | parsebot-backend/rag-system.js:61-63 | each term maps to the weight of its last listing, because later assignments overwrite earlier ones |
| Tfidf.TermTable | parsebot-backend/rag-system.js:60-64 | the `forEach` loop builds exactly `TableOf` of the listed items |
| Tfidf.Texts | parsebot-backend/rag-system.js:53 | the documents given to the library are the chunk texts, index for index |
| Tfidf.CalculateTfidf | parsebot-backend/rag-system.js:51-68 | one table per chunk, index-aligned, each built from the library's listing for that chunk among all chunk texts |
| Tfidf.WeightTablesHoldListedTerms | parsebot-backend/rag-system.js:59-65 | table `i` has exactly the terms listed for chunk `i`, each with its last listed weight |
| Query.Stems | parsebot-backend/rag-system.js:76-77 | each query token is replaced by its stem, in order |
| Query.VectorizeWellFormed | parsebot-backend/rag-system.js:73-79 | the query `Map` lists each key once, and its listed keys are exactly its counted keys |
| Query.VectorizeCounts | parsebot-backend/rag-system.js:76-79 | the count of each term is the number of query tokens that stem to it, and the keys are exactly the stems that occur |
| Query.DotSameCounts | parsebot-backend/rag-system.js:86-89 | the similarity sum depends only on the counts of the terms it runs over |
| Query.DotBump | parsebot-backend/rag-system.js:86-89 | adding one to the count of a term listed once adds that term's weight once |
| Query.BumpAddsWeight | parsebot-backend/rag-system.js:76-89 | counting one more token adds that token's weight to the similarity; a term missing from the table weighs 0 |
| Query.ScoreIsTokenSum | parsebot-backend/rag-system.js:76-89 | a chunk's similarity, the sum of count × weight over the query terms, equals the sum of the weights of the query tokens' stems |
| Query.BuildQueryVector | parsebot-backend/rag-system.js:72-79 | the counting loop builds exactly the `Map` of the stemmed tokens, with keys in insertion order |
| Query.Similarity | parsebot-backend/rag-system.js:84-89 | the accumulation loop computes exactly the sum of count × weight, taking 0 for a term missing from the table |
| Ranker.Similarities | parsebot-backend/rag-system.js:82-96 | one entry per chunk, pairing the chunk with its own index and its similarity to the query |
| Ranker.ScoreChunks | parsebot-backend/rag-system.js:82-96 | the scoring loop builds exactly `Similarities` |
| Ranker.InsertAddsOne | parsebot-backend/rag-system.js:100 | inserting into the sorted list adds exactly the inserted entry |
| Ranker.InsertDescending | parsebot-backend/rag-system.js:100 | inserting keeps the list in non-increasing similarity order |
| Ranker.InsertRanked | parsebot-backend/rag-system.js:100 | inserting an entry of an earlier chunk keeps ties in chunk order |
| Ranker.SortPermutes | parsebot-backend/rag-system.js:100 | the sort is a permutation of its input |
| Ranker.SortKeepsLength | parsebot-backend/rag-system.js:100 | the sort keeps the length |
| Ranker.SortDescending | parsebot-backend/rag-system.js:100 | the sorted list has non-increasing similarity |
| Ranker.SortStable | parsebot-backend/rag-system.js:100 | the sort is stable: among equal similarities, chunks stay in index order |
| Ranker.SliceEnd | parsebot-backend/rag-system.js:101 | `slice(0, topK)` keeps `min(topK, length)` entries, and a negative `topK` counts back from the end |
| Ranker.KeepPositiveKeeps | parsebot-backend/rag-system.js:102 | the filter keeps exactly the entries with a positive similarity |
| Ranker.KeepPositiveInOrder | parsebot-backend/rag-system.js:102 | the filter keeps the order of what it keeps |
| Ranker.KeepPositiveAll | parsebot-backend/rag-system.js:102 | a list of positive entries passes the filter unchanged |
| Ranker.RankBounded | parsebot-backend/rag-system.js:99-102 | the ranking has at most `topK` entries and no more than there are chunks, highest similarity first and ties by chunk index |
| Ranker.RankFromSims | parsebot-backend/rag-system.js:99-102 | every ranked entry is one of the scored chunks and has a positive similarity |
| Ranker.RankComplete | parsebot-backend/rag-system.js:99-102 | a positive entry is left out only when `topK` entries made the ranking, each scoring at least as high |
| Ranker.RankIsTopK | parsebot-backend/rag-system.js:99-102 | the ranking is the top `topK` positive entries in stable descending order, as the conjunction of the four lemmas above |
| Ranker.FindRelevantChunks | parsebot-backend/rag-system.js:71-103 | the result is at most `topK` entries, each with positive similarity, each pairing a chunk with its own index and its similarity to the query, highest first and ties by index |
| Rag.RagSystem.constructor | parsebot-backend/rag-system.js:5-11 | an empty store with chunk size 1000 and overlap 200 |
| Rag.RagSystem.StoreDocument | parsebot-backend/rag-system.js:106-126 | stores the chunks and one weight table per chunk under the session and returns the chunk count, which is also the stored `chunkCount`; a short text stores 0 chunks; every other session is unchanged |
| Rag.RagSystem.RetrieveContext | parsebot-backend/rag-system.js:129-161 | fails with "No document found for this session" exactly when the session has no record; otherwise returns the ranked passages, at most `topK`, each positive, highest first, with `relevantChunks` equal to their number and `totalChunks` equal to the stored chunk count; the store is not modified |
| Rag.RagSystem.ClearDocument | parsebot-backend/rag-system.js:164-169 | removes the session's record and nothing else; clearing an absent session changes nothing; afterwards `getDocumentInfo` reports nothing and `retrieveContext` fails |
| Rag.RagSystem.GetDocumentInfo | parsebot-backend/rag-system.js:172-181 | `null` exactly for a session with no record, and otherwise the stored file name, chunk count and processing time; it reads the store without changing it |

## Left out

- Floating point. Weights and similarities are `real`, so rounding, `NaN` and
  infinities are not modelled. The comparator `b.similarity - a.similarity` is read
  as an exact comparison.
- The internals of the `natural` library. `WordTokenizer.tokenize`,
  `PorterStemmer.stem` and what `TfIdf.listTerms` reports are functions passed in
  (`Natural.Toolkit`). So is `String.prototype.toLowerCase`. No fact about TF-IDF
  numbers is proved.
- `console.log`. It is output only.
- The wall clock. `processedAt` is a parameter of `StoreDocument`, not
  `new Date().toISOString()`.
- The `embeddings` and `vectorIndex` maps. They are never filled, and deleting from
  them in `clearDocument` has no observable effect.
- `parsebot-backend/server.js`, the UI and the start script. server.js is not part of
  this model. It always calls `storeDocument` with the default chunk parameters and
  `retrieveContext` with `topK` 3.
- Inherited object properties. A weight table is a plain map. In the source,
  `scores[term]` for a term such as `constructor` reads a property of
  `Object.prototype` instead of giving 0.
- Chunker.ChunkText: requires `0 < chunkSize && 2 * overlap <= chunkSize`. The source
  has no progress guard and may loop forever outside this range. Those runs are not
  modelled.
- Chunker.CoveredFrom, Chunker.WindowsCoverText and Chunker.LastWindowEndsText assume
  `overlap >= 0`. With a negative overlap the source leaves gaps between windows.
- Ranker.FindRelevantChunks: requires at least one weight table per chunk. The source
  throws a `TypeError` on a missing table when the query has a term. The store always
  keeps one table per chunk.
- Ranker.FindRelevantChunks: `topK` is an integer. A fractional or non-numeric
  `topK` is not modelled.
- Only texts with no surrogate code units (text within the Basic Multilingual Plane)
  are modelled. A Dafny `char` is a Unicode scalar value, while the source's strings
  count UTF-16 code units. A character outside that plane counts 2 units in the
  source's `length`, window bounds and offsets, and a window may cut it into a lone
  surrogate, which a `char` cannot hold.
