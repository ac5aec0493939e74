# Retrieval service core, modelled in Dafny

This project models the decision logic of a small retrieval-augmented answer
service (`app.py`): the similarity ranker `search_documents`, the per-user
request quota `increment_user_request`, the result cache `cache_results` /
`check_cache`, and the two request paths that compose them — the Streamlit
"Search" button and the `/search` endpoint. The embedding model, the
cosine computation, the language-model calls and the databases are outside
the model; they appear as parameters.

Modules (one per component):

- `wrappers.dfy` — `Wrappers`: `Option`, `Min`, `Max`.
- `ranker.dfy` — `Ranker`: filter by threshold, stable descending sort,
  Python's `[:top_k]`, and `SearchDocuments`. Scores are abstract `real`s
  given with each document in store-scan order.
- `rate_limiter.dfy` — `RateLimiter`: the quota transition over
  `map<user, nat>` with a ceiling of 5, and its replay over a request sequence.
- `result_cache.dfy` — `ResultCache`: a map from the key `user + ":" + query`
  to a payload and its deadline; the clock is an explicit `now`.
- `pipeline.dfy` — `Pipeline`: the button and the endpoint as functions from
  the shared state to an outcome, a new state and the list of steps taken;
  sessions of button presses.

Behaviours of the code that a reader might not expect, all modelled as written:

- A negative `top_k` (the endpoint accepts any integer) is not "empty": Python's
  `[:top_k]` drops `|top_k|` elements from the end. `SliceTo` models that; the
  Streamlit widget only ever passes `top_k >= 1`.
- The button writes the cache (line 172) before asking for the answer
  (line 176), so a failed answer still leaves the ranking cached. The cached
  payload is the document list only, never the answer.
- The endpoint never reads or writes the cache.
- Scoring an empty store raises: the similarity call at line 92 rejects an
  empty list of document embeddings. A request on an empty store therefore
  stops after the query rewrite. It ranks nothing, writes no cache entry and
  asks for no answer, and it ends as `UpstreamFailure`.
- The cache key ignores `top_k` and the threshold: a repeat with different
  values is served the first ranking (`Pipeline.RepeatSearchHitsCache`).
- The key `user + ":" + query` is not injective when a user id contains `:`
  (`ResultCache.KeysCollide`); it is injective for colon-free user ids.

## Model

| member | source | states |
|---|---|---|
| `Ranker.Filter` | app.py:93 | the result contains only pairs of the scan, all scoring at least the threshold, and every scan pair reaching the threshold is in it; it is a sub-multiset of the scan |
| `Ranker.FilterCount` | app.py:93 | each pair occurs in the filtered list as often as in the scan if it passes the threshold, and not at all otherwise |
| `Ranker.FilterTies` | app.py:93 | filtering keeps, for every passing score, all pairs of that score in scan order, and drops every group below the threshold |
| `Ranker.Insert` | app.py:96 | inserting into a descending list keeps it descending and adds exactly one copy of the new pair |
| `Ranker.SortDesc` | app.py:96 | the sort is a permutation of its input with non-increasing scores |
| `Ranker.InsertKeepsTies` | app.py:96 | an insertion places the new pair ahead of every later pair with the same score |
| `Ranker.SortDescKeepsTies` | app.py:96 | the sort is stable: for every score, the pairs with that score appear in their original order |
| `Ranker.StableSortUnique` | app.py:96 | two descending lists with the same tie groups are equal |
| `Ranker.StableSortIsSortDesc` | app.py:96 | any descending list with the tie groups of the input is the sort of the input |
| `Ranker.SortDescCharacterized` | app.py:96 | a list is the sort of the input if and only if it is descending and keeps every tie group in input order |
| `Ranker.SliceTo` | app.py:96 | Python `xs[:k]`: a prefix of `xs` of length `min(k, len)` for `k >= 0` and `max(0, len + k)` for negative `k` |
| `Ranker.MatchesPrefixOfSorted` | app.py:93-96 | the returned pairs are a prefix of the sorted list of passing pairs |
| `Ranker.Docs` | app.py:97 | the document list has the length of the pair list and its i-th entry is the document of the i-th pair |
| `Ranker.SearchDocuments` | app.py:84-97 | both outputs agree position by position; every match passes the threshold; matches are descending; they form a sub-multiset of the scan; the count is `min(top_k, passing)` for `top_k >= 0` and `max(0, passing + top_k)` otherwise; `top_k = 0` gives nothing |
| `Ranker.TopKOfAnyStableOrder` | app.py:93-96 | for `top_k >= 0` the result is exactly the first `min(top_k, n)` entries of any descending order of the `n` passing pairs that keeps ties in scan order |
| `Ranker.RankingKeepsScanOrder` | app.py:93-96 | for every score, the returned pairs with that score are a prefix of the scan's pairs with that score (ties keep scan order) |
| `Ranker.CutOffScoresNoHigher` | app.py:93-96 | a passing pair that was cut off scores no higher than any returned pair |
| `Ranker.EverythingPassesAndFits` | app.py:93-96 | when every pair passes and `top_k` covers the scan, the result is a reordering of the whole scan |
| `Ranker.NothingPasses` | app.py:93 | a threshold above every score yields no documents and no pairs |
| `Ranker.HighThresholdScenario` | app.py:84-97 | documents scoring 1.0 and 0.0 with threshold 0.9 and `top_k` 5 yield only the first |
| `Ranker.TopOneScenario` | app.py:84-97 | the same documents with threshold 0.0 and `top_k` 1 yield the higher-scoring one |
| `Ranker.TieScenario` | app.py:84-97 | two equal scores with `top_k` 1 yield the one scanned first |
| `RateLimiter.IncrementUserRequest` | app.py:70-81 | an unknown user is recorded with 1 and admitted; a known user below 5 is incremented by one and admitted; a user at 5 or more is rejected with the store unchanged; other users' records are untouched |
| `RateLimiter.IncrementPreservesBounds` | app.py:70-81 | one admission check keeps every count within 1..5 |
| `RateLimiter.ReplayWellFormed` | app.py:70-81 | from an empty store, any request sequence leaves every count within 1..5 |
| `RateLimiter.ReplayCounts` | app.py:70-81 | from an empty store, exactly the users who asked are recorded, each with its number of requests capped at 5 |
| `RateLimiter.ReplayVerdicts` | app.py:70-81 | from an empty store, a request is admitted exactly when it is among the first five of its user |
| `RateLimiter.SameUserOrdinals` | app.py:70-81 | when one user makes every request, the i-th request is that user's (i+1)-th |
| `RateLimiter.FreshUserAdmittedFiveTimes` | app.py:72-81 | a fresh user's first five requests are admitted, every later one is rejected, and the count stops at 5 |
| `ResultCache.Key` | app.py:62 | the key is the user id, a colon, then the query |
| `ResultCache.CacheResults` | app.py:61-62 | the key now holds the payload with deadline `now + 3600`; every other key is unchanged |
| `ResultCache.CheckCache` | app.py:65-67 | a lookup returns the stored payload exactly when the key is present and its deadline has not been reached |
| `ResultCache.CacheRoundTrip` | app.py:61-67 | a lookup before `t + 3600` after a write at `t` returns the written value |
| `ResultCache.CacheExpires` | app.py:61-67 | from `t + 3600` on, the write is no longer visible |
| `ResultCache.NeverWrittenMisses` | app.py:65-67 | a key never written is a miss |
| `ResultCache.RewriteOverwrites` | app.py:61-62 | a second write to the same key replaces the value and restarts the lifetime |
| `ResultCache.WriteIsolated` | app.py:61-67 | a write changes no lookup under a different key |
| `ResultCache.KeysCollide` | app.py:61-67 | user "a:" asking "b" and user "a" asking ":b" share a key, so one reads the other's results |
| `ResultCache.KeyInjectiveWithoutColon` | app.py:62 | for user ids without a colon, equal keys mean equal users and equal queries |
| `Pipeline.ScoreStore` | app.py:88-92 | the scored scan has one pair per stored document, in store order, each carrying the similarity of that document to the query |
| `Pipeline.ButtonSteps` | app.py:161-177 | a press starts with admission. The later steps are lookup under the original query, rewrite, ranking, cache write and answer, in that order, each at most once and each present exactly when every earlier step succeeded: the lookup when admitted; the rewrite on a miss; the ranking, the write and the answer when the rewrite returned and the store is not empty. The ranking ranks the rewrite, and every step concerns this request's user, key and query |
| `Pipeline.ButtonStepsOrder` | app.py:161-177 | admission precedes the lookup, the lookup precedes the rewrite, the rewrite precedes the ranking of its result, the ranking precedes the cache write and the write precedes the answer; a hit does no search work |
| `Pipeline.SearchButton` | app.py:161-177 | a rejection changes nothing. A hit returns the cached payload and leaves the cache alone. Without the write step the cache is unchanged; with it the new cache is exactly the old one with the ranking of the rewritten query stored under the original query until `now + 3600`. The press answers exactly when it is admitted, misses the cache, the rewrite succeeds, the store is not empty and the answer call succeeds, and then it returns that ranking with the answer to the original query |
| `Pipeline.EndpointSteps` | app.py:207-214 | a call starts with admission. It never touches the cache. The later steps are rewrite, ranking and answer, in that order, each at most once and each present exactly when every earlier step succeeded: the rewrite when admitted; the ranking and the answer when the rewrite returned and the store is not empty. The ranking ranks the rewrite |
| `Pipeline.EndpointStepsOrder` | app.py:207-214 | admission precedes the rewrite, the rewrite precedes the ranking of its result and the ranking precedes the answer |
| `Pipeline.SearchEndpoint` | app.py:207-214 | the cache is never changed and never answers, and a rejection changes nothing. The call answers exactly when it is admitted, the rewrite succeeds, the store is not empty and the answer call succeeds. It then returns the ranking of the rewritten query and the answer to the original query |
| `Pipeline.EmptyStoreFails` | app.py:92 | on an empty store an admitted button miss and an admitted endpoint call both fail without ranking or asking for an answer, and the button leaves the cache unchanged |
| `Pipeline.RepeatSearchHitsCache` | app.py:161-172 | after a press that wrote the cache, an admitted repeat by the same user with the same query before the deadline returns the stored ranking and does no search work |
| `Pipeline.ButtonAgreesWithEndpointOnMiss` | app.py:161-214 | on an admitted cache miss the button and the endpoint produce the same outcome and the same quota records |
| `Pipeline.SessionQuotas` | app.py:161-162 | over a session of presses the quota records evolve as the rate limiter replaying the users |
| `Pipeline.SessionVerdicts` | app.py:161-162 | in a session a press is refused exactly when the rate limiter, replaying the users, rejects it |
| `Pipeline.SessionFollowsQuota` | app.py:161-162 | over a session of presses the quota records evolve as the rate limiter replaying the users, and a press is refused exactly when the limiter rejects it |
| `Pipeline.SessionRefusalsDoNothing` | app.py:161-162 | in a session, each refused press performs only the admission check |
| `Pipeline.SixthPressRefused` | app.py:161-162 | from no quota records, one user's presses are served five times and from the sixth on refused with no cache lookup or search work |

## Left out

- Query expansion and answer generation (app.py:38-58): network calls to a language model; modelled as the parameters `expandQuery` and `generateAnswer`, where `None` stands for a call that raised.
- Embedding and cosine similarity (app.py:35, 85, 92, 130): floating-point numerics in external libraries; modelled as the parameter `similarity`, taken as exact reals. Of the library's error behaviour only the empty store is modelled, as a failed request.
- The document, quota and cache stores (app.py:25-32): databases replaced by in-memory maps and a document sequence; the cache server's clock is the `now` argument.
- One clock reading serves both the lookup and the write of a button press; the time that passes during expansion and ranking is not modelled.
- An entry is treated as live while `now` is strictly before `t + 3600`; the exact boundary instant of the server's expiry is a modelling choice.
- The string form of the cached payload (`str(results)`, app.py:62): Python formatting; the payload is the document list itself. That string is never empty, so the truthiness checks at app.py:67 and 165 reduce to presence.
- News scraping and ingestion (app.py:100-140): HTTP, HTML parsing and article extraction.
- Threads and server startup (app.py:143-146, 216-221), and the race between the quota lookup and update: concurrency; the limiter is modelled sequentially.
- The Streamlit widgets and the messages they print (app.py:149-159 and the `st.write` calls in 166-177), the health endpoint and the health button (app.py:180-196): presentation and transport.
- The `/search` endpoint's reply format and the HTTP status of a failed call: transport.
