/**
 Request orchestration: the Streamlit "Search" button and the `/search` endpoint.

 Both admit the user through the rate limiter, rewrite the query through the
 language model, rank the store against the rewritten query and ask the
 language model for an answer built from the original query and the ranked
 documents. Only the button goes through the result cache: it looks the
 original query up before doing any work, and on a miss it stores the ranked
 documents under the original query before asking for the answer.

 The language-model calls and the embedding are parameters (`Externals`); a
 call that raises is `None` and ends the request where it stands, keeping the
 side effects already made. Scoring an empty store also raises: the
 similarity library rejects an empty list of document embeddings
 (app.py:92), so on an empty store a request ends after the rewrite, with no
 ranking, no cache write and no answer. Every run records the steps it
 performed, in order, so that the order of effects can be stated.
 */
module Pipeline {
  import opened Wrappers
  import Ranker
  import RateLimiter
  import ResultCache

  /** The collaborators the service calls but does not implement. */
  datatype Externals<!D> = Externals(
    expandQuery: string -> Option<string>,          // gpt_expand_query
    similarity: (string, D) -> real,                // model.encode + cosine_similarity
    generateAnswer: (string, seq<D>) -> Option<string>) // gpt_generate_answer

  /** The shared state: quota records and cached rankings. */
  datatype Services<D> = Services(quotas: map<string, nat>, cache: map<string, ResultCache.Entry<seq<D>>>)

  /** What a caller submits (`SearchRequest`, or the Streamlit widgets). */
  datatype Request = Request(user: string, query: string, topK: int, threshold: real)

  /** One observable step of a request. */
  datatype Step =
    | Admission(user: string)
    | CacheLookup(key: string)
    | Expansion(original: string)
    | Rank(expanded: string)
    | CacheWrite(key: string)
    | Synthesis(original: string)

  datatype Outcome<D> =
    | TooManyRequests
    | CachedResults(payload: seq<D>)
    | UpstreamFailure
    | Answered(results: seq<D>, answer: string)

  /** The outcome of one request, the state after it and the steps it took. */
  datatype Run<D> = Run(outcome: Outcome<D>, services: Services<D>, steps: seq<Step>)

  /** The store scan with each document's similarity to `query`, in store order. */
  function ScoreStore<D>(store: seq<D>, similarity: (string, D) -> real, query: string)
    : (pairs: seq<Ranker.Match<D>>)
    ensures |pairs| == |store|
    ensures forall i :: 0 <= i < |store| ==> pairs[i].doc == store[i] && pairs[i].score == similarity(query, store[i])
  {
    seq(|store|, i requires 0 <= i < |store| => Ranker.Match(store[i], similarity(query, store[i])))
  }

  /** The ranking both entry points compute for a rewritten query. */
  function RankFor<D>(ext: Externals<D>, store: seq<D>, req: Request, expanded: string): Ranker.Ranking<D>
  {
    Ranker.SearchDocuments(ScoreStore(store, ext.similarity, expanded), req.topK, req.threshold)
  }

  ghost predicate Admits<D>(s: Services<D>, user: string)
  {
    RateLimiter.IncrementUserRequest(s.quotas, user).admitted
  }

  /**
   The position of each kind of step in a request: admission, lookup,
   rewrite, ranking, cache write, answer.
   */
  function Stage(step: Step): nat
  {
    match step
    case Admission(_) => 0
    case CacheLookup(_) => 1
    case Expansion(_) => 2
    case Rank(_) => 3
    case CacheWrite(_) => 4
    case Synthesis(_) => 5
  }

  /** Each kind of step happens at most once, and in the order of `Stage`. */
  ghost predicate InStageOrder(steps: seq<Step>)
  {
    forall i, j :: 0 <= i < j < |steps| ==> Stage(steps[i]) < Stage(steps[j])
  }

  /**
   Every step is about `req`: its user, its cache key, its original query,
   and a ranking only of what the rewrite of that query returned.
   */
  ghost predicate Concerns(steps: seq<Step>, req: Request, expansion: Option<string>)
  {
    forall i :: 0 <= i < |steps| ==>
      match steps[i]
      case Admission(u) => u == req.user
      case CacheLookup(k) => k == ResultCache.Key(req.user, req.query)
      case Expansion(q) => q == req.query
      case Rank(e) => expansion == Some(e)
      case CacheWrite(k) => k == ResultCache.Key(req.user, req.query)
      case Synthesis(q) => q == req.query
  }

  /** Some step of `steps` ranks the store. */
  ghost predicate Ranks(steps: seq<Step>)
  {
    exists i :: 0 <= i < |steps| && steps[i].Rank?
  }

  /** No expansion, ranking, answer or cache write among `steps`. */
  ghost predicate NoSearchWork(steps: seq<Step>)
  {
    forall i :: 0 <= i < |steps| ==>
      !steps[i].Expansion? && !steps[i].Rank? && !steps[i].Synthesis? && !steps[i].CacheWrite?
  }

  /** No cache lookup or cache write among `steps`. */
  ghost predicate NoCacheAccess(steps: seq<Step>)
  {
    forall i :: 0 <= i < |steps| ==> !steps[i].CacheLookup? && !steps[i].CacheWrite?
  }

  /** Step `a` happens strictly before step `b`. */
  ghost predicate Precedes(steps: seq<Step>, a: Step, b: Step)
  {
    exists i, j :: 0 <= i < j < |steps| && steps[i] == a && steps[j] == b
  }

  // ---------------------------------------------------------------------------
  // The Streamlit "Search" button
  // ---------------------------------------------------------------------------

  /**
   The steps a button press takes, given the admission verdict, whether the
   lookup hit, what the rewrite returned and whether the store can be scored
   (it is not empty). Together the clauses fix the sequence: admission,
   lookup, rewrite, ranking, cache write and answer, each kind at most once
   and in that order, each present exactly when every earlier step succeeded.
   */
  function ButtonSteps(req: Request, admitted: bool, hit: bool, expansion: Option<string>, scorable: bool)
    : (steps: seq<Step>)
    ensures steps != [] && steps[0] == Admission(req.user)
    ensures InStageOrder(steps)
    ensures Concerns(steps, req, expansion)
    ensures CacheLookup(ResultCache.Key(req.user, req.query)) in steps <==> admitted
    ensures Expansion(req.query) in steps <==> admitted && !hit
    ensures Ranks(steps) <==> admitted && !hit && expansion.Some? && scorable
    ensures CacheWrite(ResultCache.Key(req.user, req.query)) in steps <==> admitted && !hit && expansion.Some? && scorable
    ensures Synthesis(req.query) in steps <==> admitted && !hit && expansion.Some? && scorable
  {
    var key := ResultCache.Key(req.user, req.query);
    if !admitted then [Admission(req.user)]
    else if hit then [Admission(req.user), CacheLookup(key)]
    else if expansion.None? || !scorable then [Admission(req.user), CacheLookup(key), Expansion(req.query)]
    else
      var steps := [Admission(req.user), CacheLookup(key), Expansion(req.query),
                    Rank(expansion.value), CacheWrite(key), Synthesis(req.query)];
      assert forall i :: 0 <= i < |steps| ==> Stage(steps[i]) == i;
      assert steps[3].Rank?;
      steps
  }

  /** The order the button's steps take, spelled out pairwise. */
  lemma ButtonStepsOrder(req: Request, admitted: bool, hit: bool, expansion: Option<string>, scorable: bool)
    ensures var steps := ButtonSteps(req, admitted, hit, expansion, scorable);
            var key := ResultCache.Key(req.user, req.query);
      && (admitted ==> Precedes(steps, Admission(req.user), CacheLookup(key)))
      && (admitted && !hit ==> Precedes(steps, CacheLookup(key), Expansion(req.query)))
      && (admitted && hit ==> NoSearchWork(steps))
      && (admitted && !hit && expansion.Some? && scorable ==>
            && Precedes(steps, Expansion(req.query), Rank(expansion.value))
            && Precedes(steps, Rank(expansion.value), CacheWrite(key))
            && Precedes(steps, CacheWrite(key), Synthesis(req.query)))
  {
    var steps := ButtonSteps(req, admitted, hit, expansion, scorable);
    var key := ResultCache.Key(req.user, req.query);
    if admitted {
      assert steps[0] == Admission(req.user) && steps[1] == CacheLookup(key);
      if !hit {
        assert steps[2] == Expansion(req.query);
        if expansion.Some? && scorable {
          assert steps[3] == Rank(expansion.value) && steps[4] == CacheWrite(key) && steps[5] == Synthesis(req.query);
        }
      }
    }
  }

  /** One press of the "Search" button at time `now`. */
  function SearchButton<D>(s: Services<D>, ext: Externals<D>, store: seq<D>, req: Request, now: int)
    : (r: Run<D>)
    ensures r.steps == ButtonSteps(req, Admits(s, req.user),
                                   ResultCache.CheckCache(s.cache, req.user, req.query, now).Some?,
                                   ext.expandQuery(req.query), store != [])
    ensures r.services.quotas == RateLimiter.IncrementUserRequest(s.quotas, req.user).quotas
    // Rejection: nothing else runs and nothing changes.
    ensures r.outcome.TooManyRequests? <==> !Admits(s, req.user)
    ensures r.outcome.TooManyRequests? ==> r.services == s
    // Hit: the cached payload, and the cache as it was.
    ensures r.outcome.CachedResults?
            <==> Admits(s, req.user) && ResultCache.CheckCache(s.cache, req.user, req.query, now).Some?
    ensures r.outcome.CachedResults? ==>
              && r.outcome.payload == ResultCache.CheckCache(s.cache, req.user, req.query, now).value
              && r.services.cache == s.cache
    // The cache changes only through the recorded write, which stores the
    // ranking of the rewritten query under the original query until now + 3600.
    ensures CacheWrite(ResultCache.Key(req.user, req.query)) !in r.steps ==> r.services.cache == s.cache
    ensures CacheWrite(ResultCache.Key(req.user, req.query)) in r.steps ==>
              && ext.expandQuery(req.query).Some?
              && r.services.cache == ResultCache.CacheResults(s.cache, req.user, req.query,
                                       RankFor(ext, store, req, ext.expandQuery(req.query).value).docs, now)
    // Completion: exactly when every collaborator succeeds on a miss, with that same ranking.
    ensures r.outcome.Answered? <==>
              && Admits(s, req.user)
              && ResultCache.CheckCache(s.cache, req.user, req.query, now).None?
              && ext.expandQuery(req.query).Some?
              && store != []
              && ext.generateAnswer(req.query, RankFor(ext, store, req, ext.expandQuery(req.query).value).docs).Some?
    ensures r.outcome.Answered? ==>
              && ext.expandQuery(req.query).Some?
              && r.outcome.results == RankFor(ext, store, req, ext.expandQuery(req.query).value).docs
              && ext.generateAnswer(req.query, r.outcome.results) == Some(r.outcome.answer)
  {
    var admit := RateLimiter.IncrementUserRequest(s.quotas, req.user);
    var s1 := s.(quotas := admit.quotas);
    var lookup := ResultCache.CheckCache(s.cache, req.user, req.query, now);
    var steps := ButtonSteps(req, admit.admitted, lookup.Some?, ext.expandQuery(req.query), store != []);
    if !admit.admitted then
      Run(TooManyRequests, s1, steps)
    else if lookup.Some? then
      Run(CachedResults(lookup.value), s1, steps)
    else if ext.expandQuery(req.query).None? || store == [] then
      Run(UpstreamFailure, s1, steps)
    else
      var ranking := RankFor(ext, store, req, ext.expandQuery(req.query).value);
      var s2 := s1.(cache := ResultCache.CacheResults(s.cache, req.user, req.query, ranking.docs, now));
      match ext.generateAnswer(req.query, ranking.docs)
      case None => Run(UpstreamFailure, s2, steps)
      case Some(answer) => Run(Answered(ranking.docs, answer), s2, steps)
  }

  // ---------------------------------------------------------------------------
  // The `/search` endpoint
  // ---------------------------------------------------------------------------

  /**
   The steps an endpoint call takes, given the admission verdict, what the
   rewrite returned and whether the store can be scored: admission, rewrite,
   ranking and answer, each at most once and in that order, each present
   exactly when every earlier step succeeded, and never a cache access.
   */
  function EndpointSteps(req: Request, admitted: bool, expansion: Option<string>, scorable: bool)
    : (steps: seq<Step>)
    ensures steps != [] && steps[0] == Admission(req.user)
    ensures InStageOrder(steps)
    ensures Concerns(steps, req, expansion)
    ensures NoCacheAccess(steps)
    ensures Expansion(req.query) in steps <==> admitted
    ensures Ranks(steps) <==> admitted && expansion.Some? && scorable
    ensures Synthesis(req.query) in steps <==> admitted && expansion.Some? && scorable
  {
    if !admitted then [Admission(req.user)]
    else if expansion.None? || !scorable then [Admission(req.user), Expansion(req.query)]
    else
      var steps := [Admission(req.user), Expansion(req.query), Rank(expansion.value), Synthesis(req.query)];
      assert forall i :: 0 <= i < |steps| ==> Stage(steps[i]) == [0, 2, 3, 5][i];
      assert steps[2].Rank?;
      steps
  }

  /** The order the endpoint's steps take, spelled out pairwise. */
  lemma EndpointStepsOrder(req: Request, admitted: bool, expansion: Option<string>, scorable: bool)
    ensures var steps := EndpointSteps(req, admitted, expansion, scorable);
      && (admitted ==> Precedes(steps, Admission(req.user), Expansion(req.query)))
      && (admitted && expansion.Some? && scorable ==>
            && Precedes(steps, Expansion(req.query), Rank(expansion.value))
            && Precedes(steps, Rank(expansion.value), Synthesis(req.query)))
  {
    var steps := EndpointSteps(req, admitted, expansion, scorable);
    if admitted {
      assert steps[0] == Admission(req.user) && steps[1] == Expansion(req.query);
      if expansion.Some? && scorable {
        assert steps[2] == Rank(expansion.value) && steps[3] == Synthesis(req.query);
      }
    }
  }

  /** `search_documents_api(request)`. */
  function SearchEndpoint<D>(s: Services<D>, ext: Externals<D>, store: seq<D>, req: Request): (r: Run<D>)
    ensures r.steps == EndpointSteps(req, Admits(s, req.user), ext.expandQuery(req.query), store != [])
    ensures r.services.quotas == RateLimiter.IncrementUserRequest(s.quotas, req.user).quotas
    ensures r.services.cache == s.cache
    ensures r.outcome.TooManyRequests? <==> !Admits(s, req.user)
    ensures r.outcome.TooManyRequests? ==> r.services == s
    ensures !r.outcome.CachedResults?
    ensures r.outcome.Answered? <==>
              && Admits(s, req.user)
              && ext.expandQuery(req.query).Some?
              && store != []
              && ext.generateAnswer(req.query, RankFor(ext, store, req, ext.expandQuery(req.query).value).docs).Some?
    ensures r.outcome.Answered? ==>
              && ext.expandQuery(req.query).Some?
              && r.outcome.results == RankFor(ext, store, req, ext.expandQuery(req.query).value).docs
              && ext.generateAnswer(req.query, r.outcome.results) == Some(r.outcome.answer)
  {
    var admit := RateLimiter.IncrementUserRequest(s.quotas, req.user);
    var s1 := s.(quotas := admit.quotas);
    var steps := EndpointSteps(req, admit.admitted, ext.expandQuery(req.query), store != []);
    if !admit.admitted then
      Run(TooManyRequests, s1, steps)
    else if ext.expandQuery(req.query).None? || store == [] then
      Run(UpstreamFailure, s1, steps)
    else
      var ranking := RankFor(ext, store, req, ext.expandQuery(req.query).value);
      match ext.generateAnswer(req.query, ranking.docs)
      case None => Run(UpstreamFailure, s1, steps)
      case Some(answer) => Run(Answered(ranking.docs, answer), s1, steps)
  }

  // ---------------------------------------------------------------------------
  // Properties across requests
  // ---------------------------------------------------------------------------

  /**
   A button press that wrote the cache makes every admitted repeat of the
   same user and query before the deadline a hit: it returns the stored
   ranking and does no search work, whatever the store, the collaborators,
   `top_k` or the threshold are by then.
   */
  lemma RepeatSearchHitsCache<D>(s: Services<D>, ext: Externals<D>, store: seq<D>, req: Request, t: int,
                                 ext': Externals<D>, store': seq<D>, req': Request, t': int)
    requires req'.user == req.user && req'.query == req.query
    requires CacheWrite(ResultCache.Key(req.user, req.query)) in SearchButton(s, ext, store, req, t).steps
    requires Admits(SearchButton(s, ext, store, req, t).services, req.user)
    requires t' < t + ResultCache.Ttl
    ensures ext.expandQuery(req.query).Some?
    ensures var r := SearchButton(SearchButton(s, ext, store, req, t).services, ext', store', req', t');
      && r.outcome == CachedResults(RankFor(ext, store, req, ext.expandQuery(req.query).value).docs)
      && NoSearchWork(r.steps)
  {
    var r1 := SearchButton(s, ext, store, req, t);
    var docs := RankFor(ext, store, req, ext.expandQuery(req.query).value).docs;
    assert r1.services.cache == ResultCache.CacheResults(s.cache, req.user, req.query, docs, t);
    ResultCache.CacheRoundTrip(s.cache, req.user, req.query, docs, t, t');
  }

  /**
   On an admitted cache miss the button and the endpoint compute the same
   outcome and leave the same quota records; only the button writes the cache.
   */
  lemma ButtonAgreesWithEndpointOnMiss<D>(s: Services<D>, ext: Externals<D>, store: seq<D>, req: Request, now: int)
    requires Admits(s, req.user)
    requires ResultCache.CheckCache(s.cache, req.user, req.query, now).None?
    ensures SearchButton(s, ext, store, req, now).outcome == SearchEndpoint(s, ext, store, req).outcome
    ensures SearchButton(s, ext, store, req, now).services.quotas == SearchEndpoint(s, ext, store, req).services.quotas
  {
  }

  /**
   On an empty store both entry points fail after the rewrite: nothing is
   ranked, the cache is left as it was and no answer is requested.
   */
  lemma EmptyStoreFails<D>(s: Services<D>, ext: Externals<D>, req: Request, now: int)
    requires Admits(s, req.user)
    ensures var r := SearchButton(s, ext, [], req, now);
      ResultCache.CheckCache(s.cache, req.user, req.query, now).None? ==>
        && r.outcome == UpstreamFailure
        && r.services.cache == s.cache
        && !Ranks(r.steps) && Synthesis(req.query) !in r.steps
    ensures var r := SearchEndpoint(s, ext, [], req);
      && r.outcome == UpstreamFailure
      && !Ranks(r.steps) && Synthesis(req.query) !in r.steps
  {
  }

  /** A button press and the moment it happens. */
  datatype Press = Press(request: Request, now: int)

  /** The state after a sequence of button presses, and the run of each press. */
  datatype Transcript<D> = Transcript(services: Services<D>, runs: seq<Run<D>>)

  /** Presses the button once per element of `presses`, in order, threading the state. */
  function ButtonSession<D>(s: Services<D>, ext: Externals<D>, store: seq<D>, presses: seq<Press>)
    : (t: Transcript<D>)
    ensures |t.runs| == |presses|
  {
    if presses == [] then Transcript(s, [])
    else
      var before := ButtonSession(s, ext, store, presses[..|presses| - 1]);
      var last := presses[|presses| - 1];
      var r := SearchButton(before.services, ext, store, last.request, last.now);
      Transcript(r.services, before.runs + [r])
  }

  /** The user of each press, in order. */
  function Users(presses: seq<Press>): (us: seq<string>)
    ensures |us| == |presses|
    ensures forall i :: 0 <= i < |presses| ==> us[i] == presses[i].request.user
  {
    if presses == [] then [] else Users(presses[..|presses| - 1]) + [presses[|presses| - 1].request.user]
  }

  /** Over a session, the quota records evolve exactly as the rate limiter replaying the users of the presses. */
  lemma {:induction false} SessionQuotas<D>(s: Services<D>, ext: Externals<D>, store: seq<D>, presses: seq<Press>)
    ensures ButtonSession(s, ext, store, presses).services.quotas == RateLimiter.Replay(s.quotas, Users(presses)).quotas
  {
    if presses != [] {
      var n := |presses| - 1;
      SessionQuotas(s, ext, store, presses[..n]);
      assert Users(presses)[..n] == Users(presses[..n]);
    }
  }

  /**
   Over a session, the quota records evolve exactly as the rate limiter
   replaying the users of the presses, and a press is refused exactly when the
   limiter rejects it.
   */
  lemma {:induction false} SessionFollowsQuota<D>(s: Services<D>, ext: Externals<D>, store: seq<D>, presses: seq<Press>)
    ensures ButtonSession(s, ext, store, presses).services.quotas == RateLimiter.Replay(s.quotas, Users(presses)).quotas
    ensures forall i :: 0 <= i < |presses| ==>
              (ButtonSession(s, ext, store, presses).runs[i].outcome.TooManyRequests?
               <==> !RateLimiter.Replay(s.quotas, Users(presses)).verdicts[i])
  {
    SessionQuotas(s, ext, store, presses);
    SessionVerdicts(s, ext, store, presses);
  }

  /** A press is refused exactly when the rate limiter, replaying the users of the session, rejects it. */
  lemma {:induction false} SessionVerdicts<D>(s: Services<D>, ext: Externals<D>, store: seq<D>, presses: seq<Press>)
    ensures forall i :: 0 <= i < |presses| ==>
              (ButtonSession(s, ext, store, presses).runs[i].outcome.TooManyRequests?
               <==> !RateLimiter.Replay(s.quotas, Users(presses)).verdicts[i])
  {
    if presses != [] {
      var n := |presses| - 1;
      var init := presses[..n];
      SessionVerdicts(s, ext, store, init);
      SessionQuotas(s, ext, store, init);
      assert Users(presses)[..n] == Users(init);
    }
  }

  /** In a session, every refused press does nothing but the admission check. */
  lemma {:induction false} SessionRefusalsDoNothing<D>(s: Services<D>, ext: Externals<D>, store: seq<D>, presses: seq<Press>)
    ensures forall i :: 0 <= i < |presses| && ButtonSession(s, ext, store, presses).runs[i].outcome.TooManyRequests?
              ==> ButtonSession(s, ext, store, presses).runs[i].steps == [Admission(presses[i].request.user)]
  {
    if presses != [] {
      var n := |presses| - 1;
      SessionRefusalsDoNothing(s, ext, store, presses[..n]);
    }
  }

  /**
   Starting with no quota records, a user's presses are served five times;
   from the sixth on each is refused before any cache lookup or search work.
   */
  lemma SixthPressRefused<D>(cache: map<string, ResultCache.Entry<seq<D>>>, ext: Externals<D>, store: seq<D>,
                             user: string, presses: seq<Press>)
    requires forall i :: 0 <= i < |presses| ==> presses[i].request.user == user
    ensures forall i :: 0 <= i < |presses| ==>
              (ButtonSession(Services(map[], cache), ext, store, presses).runs[i].outcome.TooManyRequests?
               <==> i >= RateLimiter.Limit)
    ensures forall i :: RateLimiter.Limit <= i < |presses| ==>
              ButtonSession(Services(map[], cache), ext, store, presses).runs[i].steps == [Admission(user)]
  {
    SessionFollowsQuota(Services(map[], cache), ext, store, presses);
    SessionRefusalsDoNothing(Services(map[], cache), ext, store, presses);
    RateLimiter.FreshUserAdmittedFiveTimes(user, Users(presses));
  }
}
