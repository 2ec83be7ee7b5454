# AinPal-API core, modelled in Dafny

AinPal-API answers questions about Bangladeshi law. It searches a graph of law text chunks, builds
a context out of the best chunks and hands question and context to a language model. This project
models the parts of the service that decide what the model sees and what the client gets back.

- **Hybrid retrieval** (`/hybrid-chat` in `index.js` and `hybrid.js`):
  - a vector search on the embedded query;
  - a keyword search on the query's words longer than three characters, after lower-casing
    and stripping non-word characters;
  - a merge by node id that keeps the first record with the highest score;
  - a stable sort by descending score, cut to the ten best;
  - a forward expansion that adds up to three following chunks per ranked record, scored 0.4,
    never emitting a node id twice;
  - the rendering of the records as `[title | Section n]` citation blocks.
- **Session memory** (`index.js`): a map from session id to message history. A history is created
  on first reference and removed by the clear endpoint. It is rendered as `Human:` / `AI:` lines
  into the prompt. The user's message is stored before the model call and the answer after it.
- **The conversation-chain variant** of `/hybrid-chat` (`hybrid.js`): the same retrieval, then one
  chain call, then the answer with its debug counts.
- **The decider–retriever–answerer chain** (`chat.js`). The decider either rewrites the question
  or answers with the fixed sentence "This question is not related to Bangladeshi law.". That
  sentence skips retrieval and becomes the answer.
- **The `/laws` listing** (`index.js`): `SKIP (page-1)*limit LIMIT limit`, then the repealed laws
  of the page are dropped.
- **The section groupings** of `/laws/sections/:lawId` and `/constitution/sections`: sections are
  grouped by chapter, or by part and then by chapter, with the `No Chapter` / `No Part` defaults.
  Each id is the low 32 bits of the node id.

Every external call is a function-typed parameter returning `Result<_, Fault>`. These are the
embedding model, the Cypher queries, the language model and the conversation chain. A rejected
call is a `Failure` and fails the request. Pure steps are functions. The two loops of the
retriever (merge, expansion), the two section reducers and the session store are methods. Each
method is proved equal to the function that specifies it. The properties are proved about those
functions.

Three behaviours of the code are easy to miss:

- A ranked record whose id an earlier record's expansion already emitted is skipped. It appears
  once, with the neighbour score 0.4 and at the earlier position. It does not keep its own score
  (`Expansion.ReachedSeedHasNeighbourScore`).
- In the session variant the user's message is appended before the model call. A failing model
  call therefore leaves the history one user message longer, so a turn is not atomic. The session
  is also created before retrieval, so a request whose retrieval fails still creates its session
  (`Sessions.ChatOutcomeFacts`).
- The keyword filter keeps every word longer than three characters, stop words included: "What is
  the punishment for theft?" yields `what`, `punishment` and `theft`.

## Model

| member | source | states |
|---|---|---|
| Keywords.ExtractKeywords | AinPal-API/index.js:161-165 | every keyword is longer than three characters and consists of lower-case word characters only |
| Keywords.LowerChar | AinPal-API/index.js:162 | lower-casing leaves no ASCII capital, keeps each white-space character as it is and turns no other character into white space, so the later split sees the query's own word boundaries |
| Keywords.KeywordsConcat | AinPal-API/hybrid.js:60-63 | keywords come in query order: text on each side of a white-space character contributes its own keywords, concatenated |
| Keywords.KeywordsOfWord | AinPal-API/index.js:161-165 | a query without white space yields its normalised form as the only keyword if that is longer than three characters, else nothing |
| Keywords.KeywordsOfPlainWord | AinPal-API/index.js:165 | a word already in keyword form is its own keyword exactly when it is longer than three characters |
| Keywords.KeywordsOfPunctuatedWord | AinPal-API/index.js:163 | trailing punctuation is stripped before the length filter |
| Keywords.KeywordsOfCapitalisedWord | AinPal-API/index.js:162 | a leading ASCII capital is lowered and counts towards the length |
| Keywords.GreetingHasNoKeywords | AinPal-API/index.js:161-165 | the greeting `"hi?"` yields no keyword |
| Retriever.GreetingIssuesNoKeywordQuery | AinPal-API/index.js:184 | for `"hi?"` the retrieval does not depend on the keyword query and has no keyword results |
| Merge.MergeUnique | AinPal-API/index.js:186-196 | the Map loop (insert on a new id or a strictly higher score) yields exactly the merge fold, values in key insertion order |
| Merge.MergedIds | AinPal-API/index.js:188-198 | the merge lists each id once, in order of first occurrence in vector-then-keyword order |
| Merge.MergedNoDup | AinPal-API/hybrid.js:81-91 | the merge has no duplicate id, drops no id and adds none, and has one record per distinct id |
| Merge.MergedKeepsFirstBest | AinPal-API/index.js:193-195 | every kept record is an input record that is the first of its id holding that id's highest score |
| Rank.SortByScoreFacts | AinPal-API/index.js:198-199 | the sort is by descending score, is a permutation, keeps the id set, and keeps equal-score records in merge order |
| Rank.SortByScoreNoDup | AinPal-API/index.js:198-199 | sorting introduces no duplicate id |
| Rank.SortedStableUnique | AinPal-API/hybrid.js:91-92 | two descending sequences with the same records per score in the same order are equal, so the stable sort is fully determined |
| Rank.CombineLength | AinPal-API/index.js:198-200 | the ranking has min(10, n) records and is a prefix of the sorted merge |
| Rank.CombineFacts | AinPal-API/index.js:198-200 | the ranking has min(10, n) records, sorted, drawn from the merge, with no duplicate id, and no record left out scores higher than a kept one |
| Rank.CombineLeftOut | AinPal-API/hybrid.js:91-93 | cutting a descending sequence leaves out nothing that scores higher than what is kept |
| Expansion.Expand | AinPal-API/index.js:202-234 | the nested loop yields exactly the expansion function, or the first rejected expansion query |
| Expansion.ExpansionWellFormed | AinPal-API/index.js:206-233 | expanded records have distinct ids and cover every ranked id; blocks follow seed order, each opened by its seed's own record and followed by neighbours of that seed scored 0.4 |
| Expansion.ExpansionSkipsSeenSeeds | AinPal-API/index.js:207-211 | a ranked record is skipped, neither emitted nor expanded, exactly when an earlier block already emitted its id |
| Expansion.ExpandedResultsFacts | AinPal-API/hybrid.js:95-123 | the expanded list has no duplicate id and contains every ranked id; its expansion is well formed, skips exactly the seeds already emitted, and its blocks are complete |
| Expansion.AddNeighboursFresh | AinPal-API/index.js:222-232 | the inner loop appends exactly the fetched chunks whose ids were not emitted and not repeated earlier in the query result, in query order, scored 0.4 |
| Expansion.FreshIds | AinPal-API/index.js:224-226 | the neighbours kept from one query carry exactly the query's ids that were not emitted before |
| Expansion.ExpansionBlocksComplete | AinPal-API/index.js:206-234 | each visited seed's block is its own record followed by exactly the unseen neighbours its query returned, in query order, scored 0.4; a skipped seed has an empty block |
| Expansion.FetchedNeighboursEmitted | AinPal-API/hybrid.js:110-121 | every neighbour a visited seed's query returned is emitted, earlier or in that seed's block |
| Expansion.ReachedSeedHasNeighbourScore | AinPal-API/index.js:222-231 | a ranked record reached by an earlier expansion appears exactly once, as a neighbour scored 0.4 |
| Expansion.ExpandedAtLeastRanked | AinPal-API/index.js:206-211 | the expansion holds at least as many records as the ranking |
| Expansion.ExpandedAtMostFourPerRanked | AinPal-API/index.js:212-232 | with expansion queries of at most three records, the expansion holds at most four records per ranked record |
| Expansion.ExpansionFailureSticks | AinPal-API/index.js:218-220 | once an expansion query is rejected, the whole expansion fails with that fault |
| Context.HybridContextShape | AinPal-API/index.js:236-244 | the context is empty exactly without records, opens with the first record's `\n\n[title \| Section n]\n text` block, and each further record adds `\n` and its block |
| Context.HybridContextConcat | AinPal-API/hybrid.js:124-132 | the context of two record lists is their two contexts joined by one `\n`, so blocks keep record order |
| Context.ChainContextShape | AinPal-API/chat.js:58-67 | the same shape for the chain retriever's `[title \| Section n] text` blocks |
| Context.EmptyRecordBlocks | AinPal-API/index.js:239-242 | a record with no title, section or text renders with empty fields |
| Retriever.HybridRetrieve | AinPal-API/index.js:151-234 | the handler's steps yield exactly the retrieval function, or the first rejected call's fault |
| Retriever.RetrieveFacts | AinPal-API/hybrid.js:52-123 | no keywords means no keyword results; the ranking is sorted, has no duplicate id and holds min(10, distinct ids) first-best records; nothing left out scores higher; the expansion has no duplicate id and holds every ranked id |
| Retriever.NoKeywordsNoKeywordQuery | AinPal-API/index.js:184 | without keywords the retrieval does not depend on the keyword query at all |
| Retriever.KeywordQueryFailureFails | AinPal-API/index.js:170-184 | with keywords, a rejected keyword query fails the retrieval with its fault |
| Retriever.Scored | AinPal-API/index.js:176 | every keyword match is attached the score 0.5, in query order |
| Retriever.DebugBounds | AinPal-API/hybrid.js:165-172 | the combined count is at most 10, at most the two searches' counts together, and at most the retrieved count |
| HybridEndpoint.HybridChatFacts | AinPal-API/hybrid.js:35-173 | the handler rejects exactly a missing or empty query; a success carries the chain's answer on question and context, and debug counts equal to the lists' lengths within their bounds |
| Sessions.Created | AinPal-API/index.js:138-141 | referencing a session creates it empty if unseen and leaves every other session unchanged |
| Sessions.ChatHistories.constructor | AinPal-API/index.js:31 | the store starts without sessions |
| Sessions.ChatHistories.GetOrCreate | AinPal-API/index.js:138-141 | the store becomes `Created(old, id)` and the session's history is returned |
| Sessions.ChatHistories.AddUserMessage | AinPal-API/index.js:265 | the session's history gains one `Human` message at its end; nothing else changes |
| Sessions.ChatHistories.AddAIMessage | AinPal-API/index.js:279 | the session's history gains one `AI` message at its end; nothing else changes |
| Sessions.ChatHistories.Clear | AinPal-API/index.js:585-593 | reports whether the session existed (200 or 404) and removes exactly that session |
| Sessions.ChatHistories.HybridChat | AinPal-API/index.js:128-279 | the handler's result and new store are exactly those of `ChatStep` on the old store |
| Sessions.ChatOutcomeFacts | AinPal-API/index.js:137-279 | the session exists afterwards and no other session changes; its history only grows at the end: by user and answer on success, by the user message when the model fails, not at all when retrieval fails; the model sees the history from before the request |
| Sessions.MissingQueryChangesNothing | AinPal-API/index.js:132-135 | a request without query text is rejected and changes no session |
| Sessions.ClearedSessionStartsEmpty | AinPal-API/index.js:587-588 | after a clear, the next reference finds the session empty |
| Sessions.RenderHistorySnoc | AinPal-API/index.js:260-263 | the rendered history is empty exactly for no messages; a new message adds `\n` and its `Human:`/`AI:` line |
| Sessions.RenderTurn | AinPal-API/index.js:260-279 | after a turn, the history renders the previous lines plus `Human: q` and `AI: a` |
| Chain.QueryThreaded | AinPal-API/chat.js:93-110 | the question passes unchanged through every stage, and the decision through the retrieval stage |
| Chain.NotRelatedShortCircuits | AinPal-API/chat.js:101-117 | on the out-of-domain sentence nothing is retrieved (`null`), the answer is that sentence, and no other service matters |
| Chain.RewrittenQueryRetrieves | AinPal-API/chat.js:101-117 | otherwise retrieval runs on the rewritten question; the answerer gets the original question and the rendered records; a rejected retrieval fails the chain with its fault |
| Chain.RetrievalSeesOnlyDecision | AinPal-API/chat.js:102-107 | the result depends on the embedding and chunk query only at the decision, not at the question |
| Chain.DeciderFailureFails | AinPal-API/chat.js:97-100 | a rejected decider call fails the chain with its fault |
| Laws.NotRepealed | AinPal-API/index.js:310-317 | a law is kept exactly when it is one of the rows and not marked repealed; the result is no longer than the rows |
| Laws.NotRepealedConcat | AinPal-API/index.js:317 | the filter distributes over concatenation, so row order is kept |
| Laws.NotRepealedIdempotent | AinPal-API/index.js:317 | filtering twice is filtering once |
| Laws.Window | AinPal-API/index.js:299-300 | `SKIP`/`LIMIT` succeed exactly for non-negative values and return at most `limit` rows |
| Laws.OffsetSign | AinPal-API/index.js:291 | the offset is non-negative exactly from page 1 on, or for a zero limit |
| Laws.LawsPageFacts | AinPal-API/index.js:289-318 | a page fails exactly for a negative limit or a page before 1 with a positive limit; it lists at most `limit` laws, all rows in force; the defaults list the laws in force among the first 50 rows |
| Laws.PagesTile | AinPal-API/index.js:290-301 | pages 1..n together list exactly the laws in force among the first n*limit rows, in order, none twice or skipped |
| Sections.Low | AinPal-API/index.js:401 | the id is a signed 32-bit value congruent to the node id modulo 2^32, and equal to it for small ids |
| Sections.ToSections | AinPal-API/index.js:394-402 | one section per row, in row order |
| Sections.GroupByChapterContents | AinPal-API/index.js:405-415 | there is a group for exactly each occurring chapter key; it holds exactly that chapter's sections in order and is titled after the first |
| Sections.SectionInItsChapter | AinPal-API/index.js:406-413 | every section lands in the group of its own chapter key |
| Sections.GroupSectionsByChapter | AinPal-API/index.js:394-415 | the reducer yields exactly the chapter grouping of the mapped rows |
| Sections.GroupByPartContents | AinPal-API/index.js:463-480 | there is a group for exactly each occurring part key, titled after its first section; its chapters are the chapter grouping of exactly that part's sections |
| Sections.GroupSectionsByPart | AinPal-API/index.js:451-480 | the reducer yields exactly the part-then-chapter grouping of the mapped rows |

## Left out

- The Neo4j driver and the Cypher queries are parameters of the model. This covers the vector
  index query, the keyword `CONTAINS` query, the `NEXT_CHUNK*1..2` expansion, the `/laws` match
  with its `search` filter, `law_id <> 367` and date order, and the sections queries with their
  `ORDER BY`. Their `LIMIT 8` / `LIMIT 3` bounds are assumed only where a lemma names them.
- The embedding model and the language models (decider, answerer, `model.invoke`) are parameters
  too. The prompts are modelled as records of what they interpolate, not as their fixed wording.
- The `hybrid.js` conversation chain and its global `BufferMemory`: the chain is one opaque call.
  The memory it keeps across requests is inside that call and is not modelled.
- The `chat.js` retriever's `REDUCE` path traversal and `ORDER BY chunk_index` happen inside its
  chunk query. Only the rendering of the records it returns is modelled.
- HTTP plumbing: status codes, JSON bodies and error messages are modelled only as success or
  failure. Timing, memory and `console` logging are left out. `index.js`'s `/hybrid-chat` never
  sends a success response. The model treats a completed turn as success.
- Concurrency: requests are modelled one at a time. Interleaving at the `await` points on the
  shared history map is not captured.
- Floating point: scores are exact reals. `b.score - a.score` is compared as a real difference.
- `Sessions.ChatHistories`: histories are values in a map, not shared `ChatMessageHistory`
  objects. Aliasing through the object returned by `get` is not captured.
- `Laws.LawsPage`: `page` and `limit` are integers. Query-string coercion (a string `limit`, `NaN`
  from non-numeric input, fractional values) is not modelled. A negative `SKIP`/`LIMIT` is
  modelled as the database's rejection.
- `Sections.GroupByChapter` / `Sections.GroupByPart`: groups are a map, so the key order of the JS
  object is not captured (integer-like keys first, then insertion order). Keys that collide with
  `Object.prototype` properties are not captured either.
- Keyword lower-casing follows JavaScript's `toLowerCase` only for characters that matter to the
  result. These are ASCII capitals, U+0130 and U+212A. Every other character either is not a word
  character after lower-casing or is kept, so it is stripped or kept just the same.
- `chat.js` cannot load as written: it is an ES module that calls `require`, it imports a
  `runQuery` that `index.js` does not export, and it assigns the undeclared `chain`. The chain is
  modelled as it evidently intends, a sequence of the four stages over the three services.
- Endpoints outside this core are not part of this model: law details, section details,
  footnotes, search, and the commented-out `/chat`.
