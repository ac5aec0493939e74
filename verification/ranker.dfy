/**
 The similarity ranker of the retrieval service (`search_documents`).

 The store scan yields every document with its similarity to the query, in
 store order. The ranker keeps the pairs whose score reaches the threshold,
 sorts them by descending score with a stable sort (equal scores keep their
 scan order, as Python's `sorted(..., reverse=True)` does), cuts the list with
 Python's `[:top_k]` and returns both the documents and the pairs.

 Scores are taken as given: the embedding and the cosine computation are not
 part of this model.
 */
module Ranker {
  import opened Wrappers

  /** A document paired with its similarity score. */
  datatype Match<D> = Match(doc: D, score: real)

  /** The two lists `search_documents` returns: documents, and (document, score) pairs. */
  datatype Ranking<D> = Ranking(docs: seq<D>, matches: seq<Match<D>>)

  /** Scores never increase along `s`. */
  ghost predicate SortedDesc<D>(s: seq<Match<D>>)
  {
    forall i, j :: 0 <= i < j < |s| ==> s[i].score >= s[j].score
  }

  /** The subsequence of `s` whose score is exactly `v`, in the order of `s`. */
  function WithScore<D>(s: seq<Match<D>>, v: real): (r: seq<Match<D>>)
    ensures |r| <= |s|
  {
    if s == [] then []
    else (if s[0].score == v then [s[0]] else []) + WithScore(s[1..], v)
  }

  /** Every member of a tie group comes from `s` and has the group's score. */
  lemma {:induction false} WithScoreMembers<D>(s: seq<Match<D>>, v: real)
    ensures forall i :: 0 <= i < |WithScore(s, v)| ==> WithScore(s, v)[i] in s && WithScore(s, v)[i].score == v
  {
    if s != [] {
      WithScoreMembers(s[1..], v);
      assert forall x :: x in s[1..] ==> x in s;
    }
  }

  // ---------------------------------------------------------------------------
  // Filter
  // ---------------------------------------------------------------------------

  /** The pairs whose score reaches `threshold`, in scan order. */
  function Filter<D>(pairs: seq<Match<D>>, threshold: real): (r: seq<Match<D>>)
    ensures forall i :: 0 <= i < |r| ==> r[i].score >= threshold
    ensures forall i :: 0 <= i < |r| ==> r[i] in pairs
    ensures forall i :: 0 <= i < |pairs| && pairs[i].score >= threshold ==> pairs[i] in r
    ensures multiset(r) <= multiset(pairs)
    ensures |r| <= |pairs|
  {
    if pairs == [] then []
    else
      assert pairs == [pairs[0]] + pairs[1..];
      (if pairs[0].score >= threshold then [pairs[0]] else []) + Filter(pairs[1..], threshold)
  }

  /** Filtering removes exactly the copies that score below the threshold. */
  lemma {:induction false} FilterCount<D>(pairs: seq<Match<D>>, threshold: real, m: Match<D>)
    ensures multiset(Filter(pairs, threshold))[m]
            == if m.score >= threshold then multiset(pairs)[m] else 0
  {
    if pairs != [] {
      assert pairs == [pairs[0]] + pairs[1..];
      FilterCount(pairs[1..], threshold, m);
    }
  }

  /** Filtering keeps, for each passing score, all pairs with that score in scan order. */
  lemma {:induction false} FilterTies<D>(pairs: seq<Match<D>>, threshold: real, v: real)
    ensures WithScore(Filter(pairs, threshold), v)
            == if v >= threshold then WithScore(pairs, v) else []
  {
    if pairs != [] {
      FilterTies(pairs[1..], threshold, v);
      var head := if pairs[0].score >= threshold then [pairs[0]] else [];
      WithScoreAppend(head, Filter(pairs[1..], threshold), v);
    }
  }

  // ---------------------------------------------------------------------------
  // Stable descending sort
  // ---------------------------------------------------------------------------

  /** A pair scoring at least the head of a descending list can go in front of it. */
  lemma ConsDescending<D>(x: Match<D>, r: seq<Match<D>>)
    requires SortedDesc(r)
    requires r == [] || x.score >= r[0].score
    ensures SortedDesc([x] + r)
  {
    assert forall j :: 0 <= j < |r| ==> r[0].score >= r[j].score;
  }

  /** Places `m` in front of the first element that does not score above it. */
  function Insert<D>(m: Match<D>, s: seq<Match<D>>): (r: seq<Match<D>>)
    requires SortedDesc(s)
    ensures |r| == |s| + 1
    ensures r[0] == m || (s != [] && r[0] == s[0])
    ensures SortedDesc(r)
    ensures multiset(r) == multiset(s) + multiset{m}
  {
    if s == [] || s[0].score <= m.score then
      ConsDescending(m, s);
      [m] + s
    else
      var rest := Insert(m, s[1..]);
      ConsDescending(s[0], rest);
      assert multiset(s) == multiset{s[0]} + multiset(s[1..]) by { assert s == [s[0]] + s[1..]; }
      [s[0]] + rest
  }

  /** `sorted(pairs, key=score, reverse=True)`: insertion sort from the back. */
  function SortDesc<D>(s: seq<Match<D>>): (r: seq<Match<D>>)
    ensures |r| == |s|
    ensures SortedDesc(r)
    ensures multiset(r) == multiset(s)
  {
    if s == [] then []
    else
      assert s == [s[0]] + s[1..];
      Insert(s[0], SortDesc(s[1..]))
  }

  lemma WithScoreCons<D>(x: Match<D>, s: seq<Match<D>>, v: real)
    ensures WithScore([x] + s, v) == (if x.score == v then [x] else []) + WithScore(s, v)
  {
    assert ([x] + s)[1..] == s;
  }

  lemma {:induction false} WithScoreAppend<D>(a: seq<Match<D>>, b: seq<Match<D>>, v: real)
    ensures WithScore(a + b, v) == WithScore(a, v) + WithScore(b, v)
  {
    if a != [] {
      assert a + b == [a[0]] + (a[1..] + b);
      WithScoreCons(a[0], a[1..] + b, v);
      WithScoreAppend(a[1..], b, v);
      assert a == [a[0]] + a[1..];
      WithScoreCons(a[0], a[1..], v);
    } else {
      assert a + b == b;
    }
  }

  /** Inserting keeps every tie group in the order "m first, then s". */
  lemma {:induction false} InsertKeepsTies<D>(m: Match<D>, s: seq<Match<D>>, v: real)
    requires SortedDesc(s)
    ensures WithScore(Insert(m, s), v) == WithScore([m] + s, v)
  {
    if s != [] && s[0].score > m.score {
      var s0, s' := s[0], s[1..];
      var hs := if s0.score == v then [s0] else [];
      var hm := if m.score == v then [m] else [];
      calc {
        WithScore(Insert(m, s), v);
        { assert Insert(m, s) == [s0] + Insert(m, s'); }
        WithScore([s0] + Insert(m, s'), v);
        { WithScoreCons(s0, Insert(m, s'), v); }
        hs + WithScore(Insert(m, s'), v);
        { InsertKeepsTies(m, s', v); }
        hs + WithScore([m] + s', v);
        { WithScoreCons(m, s', v); }
        hs + (hm + WithScore(s', v));
        { assert hs == [] || hm == []; }
        hm + (hs + WithScore(s', v));
        { assert s == [s0] + s'; WithScoreCons(s0, s', v); }
        hm + WithScore(s, v);
        { WithScoreCons(m, s, v); }
        WithScore([m] + s, v);
      }
    }
  }

  /** The sort is stable: each tie group keeps its original order. */
  lemma {:induction false} SortDescKeepsTies<D>(s: seq<Match<D>>, v: real)
    ensures WithScore(SortDesc(s), v) == WithScore(s, v)
  {
    if s != [] {
      SortDescKeepsTies(s[1..], v);
      InsertKeepsTies(s[0], SortDesc(s[1..]), v);
      WithScoreCons(s[0], SortDesc(s[1..]), v);
      WithScoreCons(s[0], s[1..], v);
      assert s == [s[0]] + s[1..];
    }
  }

  /** A non-empty sequence's first element heads its own tie group. */
  lemma HeadStartsTieGroup<D>(s: seq<Match<D>>)
    requires s != []
    ensures WithScore(s, s[0].score) == [s[0]] + WithScore(s[1..], s[0].score)
  {
  }

  /** Two descending sequences with the same tie groups are equal. */
  lemma {:induction false} StableSortUnique<D>(a: seq<Match<D>>, b: seq<Match<D>>)
    requires SortedDesc(a) && SortedDesc(b)
    requires forall v :: WithScore(a, v) == WithScore(b, v)
    ensures a == b
    decreases |a| + |b|
  {
    if a != [] || b != [] {
      var c := if a != [] then a else b;
      HeadStartsTieGroup(c);
      assert WithScore(c, c[0].score) != [];
      assert WithScore(a, c[0].score) != [] && WithScore(b, c[0].score) != [];
      assert a != [] && b != [];
      var x, y := a[0], b[0];
      HeadStartsTieGroup(a);
      HeadStartsTieGroup(b);
      WithScoreMembers(a, y.score);
      WithScoreMembers(b, x.score);
      assert WithScore(a, x.score)[0] == x;
      assert WithScore(b, x.score)[0] in b;
      assert y.score >= x.score;
      assert WithScore(b, y.score)[0] == y;
      assert WithScore(a, y.score)[0] in a;
      assert x.score >= y.score;
      assert x == y;
      forall v
        ensures WithScore(a[1..], v) == WithScore(b[1..], v)
      {
        if v == x.score {
          assert WithScore(a[1..], v) == WithScore(a, v)[1..];
          assert WithScore(b[1..], v) == WithScore(b, v)[1..];
        } else {
          assert WithScore(a, v) == WithScore(a[1..], v);
          assert WithScore(b, v) == WithScore(b[1..], v);
        }
      }
      StableSortUnique(a[1..], b[1..]);
      assert a == [x] + a[1..];
      assert b == [y] + b[1..];
    }
  }

  /** Any descending sequence that keeps every tie group of `s` is the sort of `s`. */
  lemma StableSortIsSortDesc<D>(s: seq<Match<D>>, r: seq<Match<D>>)
    requires SortedDesc(r)
    requires forall v :: WithScore(r, v) == WithScore(s, v)
    ensures r == SortDesc(s)
  {
    var t := SortDesc(s);
    forall v ensures WithScore(r, v) == WithScore(t, v) {
      SortDescKeepsTies(s, v);
    }
    StableSortUnique(r, t);
  }

  /**
   Reference characterisation of the stable descending sort: a sequence is the
   sort of `s` exactly when it is descending and keeps every tie group of `s`.
   */
  lemma SortDescCharacterized<D>(s: seq<Match<D>>, r: seq<Match<D>>)
    ensures r == SortDesc(s) ==> SortedDesc(r) && forall v :: WithScore(r, v) == WithScore(s, v)
    ensures SortedDesc(r) && (forall v :: WithScore(r, v) == WithScore(s, v)) ==> r == SortDesc(s)
  {
    forall v ensures WithScore(SortDesc(s), v) == WithScore(s, v) {
      SortDescKeepsTies(s, v);
    }
    if SortedDesc(r) && forall v :: WithScore(r, v) == WithScore(s, v) {
      StableSortIsSortDesc(s, r);
    }
  }

  // ---------------------------------------------------------------------------
  // Truncation and the ranker
  // ---------------------------------------------------------------------------

  /** Python's `xs[:k]`: a negative bound counts from the end of the list. */
  function SliceTo<T>(s: seq<T>, k: int): (r: seq<T>)
    ensures r <= s && r == s[..|r|]
    ensures k >= 0 ==> |r| == Min(k, |s|)
    ensures k < 0 ==> |r| == Max(0, |s| + k)
  {
    if k >= |s| then s
    else if k >= 0 then s[..k]
    else if |s| + k >= 0 then s[..|s| + k]
    else []
  }

  /** The documents of the pairs, in order (`[match[0] for match in top_matches]`). */
  function Docs<D>(ms: seq<Match<D>>): (r: seq<D>)
    ensures |r| == |ms|
    ensures forall i :: 0 <= i < |ms| ==> r[i] == ms[i].doc
  {
    if ms == [] then [] else [ms[0].doc] + Docs(ms[1..])
  }

  lemma PrefixOfDescending<D>(top: seq<Match<D>>, sorted: seq<Match<D>>)
    requires top <= sorted
    requires SortedDesc(sorted)
    ensures SortedDesc(top)
    ensures multiset(top) <= multiset(sorted)
  {
    assert sorted == top + sorted[|top|..];
  }

  lemma SubMultisetPassesThreshold<D>(xs: seq<Match<D>>, ys: seq<Match<D>>, threshold: real)
    requires multiset(xs) <= multiset(ys)
    requires forall j :: 0 <= j < |ys| ==> ys[j].score >= threshold
    ensures forall i :: 0 <= i < |xs| ==> xs[i].score >= threshold
  {
    forall i | 0 <= i < |xs|
      ensures xs[i].score >= threshold
    {
      assert xs[i] in multiset(ys);
      var j :| 0 <= j < |ys| && ys[j] == xs[i];
    }
  }

  /** A prefix of the sorted, filtered scan is descending, passes the threshold and comes from the scan. */
  lemma TopMatchesFacts<D>(pairs: seq<Match<D>>, threshold: real, top: seq<Match<D>>)
    requires top <= SortDesc(Filter(pairs, threshold))
    ensures forall i :: 0 <= i < |top| ==> top[i].score >= threshold
    ensures SortedDesc(top)
    ensures multiset(top) <= multiset(pairs)
  {
    var passed := Filter(pairs, threshold);
    PrefixOfDescending(top, SortDesc(passed));
    SubMultisetPassesThreshold(top, passed, threshold);
  }

  /** `search_documents(query, top_k, threshold)` on the scored store scan `pairs`. */
  function SearchDocuments<D>(pairs: seq<Match<D>>, topK: int, threshold: real): (r: Ranking<D>)
    ensures |r.docs| == |r.matches|
    ensures forall i :: 0 <= i < |r.matches| ==> r.docs[i] == r.matches[i].doc
    ensures forall i :: 0 <= i < |r.matches| ==> r.matches[i].score >= threshold
    ensures SortedDesc(r.matches)
    ensures multiset(r.matches) <= multiset(pairs)
    ensures |r.matches| <= |pairs|
    ensures topK >= 0 ==> |r.matches| == Min(topK, |Filter(pairs, threshold)|)
    ensures topK < 0 ==> |r.matches| == Max(0, |Filter(pairs, threshold)| + topK)
    ensures topK == 0 ==> r.matches == []
  {
    var top := SliceTo(SortDesc(Filter(pairs, threshold)), topK);
    TopMatchesFacts(pairs, threshold, top);
    Ranking(Docs(top), top)
  }

  // ---------------------------------------------------------------------------
  // Properties of the ranker
  // ---------------------------------------------------------------------------

  lemma {:induction false} WithScorePrefix<D>(s: seq<Match<D>>, t: seq<Match<D>>, v: real)
    requires s <= t
    ensures WithScore(s, v) <= WithScore(t, v)
  {
    if s != [] {
      assert s[1..] <= t[1..];
      WithScorePrefix(s[1..], t[1..], v);
    }
  }

  /**
   Ties keep their scan order: for every score, the returned pairs with that
   score are the first ones with that score in the store scan.
   */
  lemma RankingKeepsScanOrder<D>(pairs: seq<Match<D>>, topK: int, threshold: real, v: real)
    ensures WithScore(SearchDocuments(pairs, topK, threshold).matches, v) <= WithScore(pairs, v)
  {
    var passed := Filter(pairs, threshold);
    var sorted := SortDesc(passed);
    var top := SearchDocuments(pairs, topK, threshold).matches;
    assert top == SliceTo(sorted, topK);
    WithScorePrefix(top, sorted, v);
    SortDescKeepsTies(passed, v);
    FilterTies(pairs, threshold, v);
  }

  /**
   For `top_k >= 0` the result is the first `min(top_k, n)` entries of any
   descending order of the `n` passing pairs that keeps their tie groups in
   scan order.
   */
  lemma TopKOfAnyStableOrder<D>(pairs: seq<Match<D>>, topK: int, threshold: real, order: seq<Match<D>>)
    ensures topK >= 0 && SortedDesc(order)
            && (forall v :: WithScore(order, v) == WithScore(Filter(pairs, threshold), v))
            ==> SearchDocuments(pairs, topK, threshold).matches == order[..Min(topK, |order|)]
  {
    if topK >= 0 && SortedDesc(order) && forall v :: WithScore(order, v) == WithScore(Filter(pairs, threshold), v) {
      StableSortIsSortDesc(Filter(pairs, threshold), order);
    }
  }

  /** The matches are a prefix of the sorted, filtered scan. */
  lemma MatchesPrefixOfSorted<D>(pairs: seq<Match<D>>, topK: int, threshold: real)
    ensures var top := SearchDocuments(pairs, topK, threshold).matches;
      |top| <= |SortDesc(Filter(pairs, threshold))| && top == SortDesc(Filter(pairs, threshold))[..|top|]
  {
    var sorted := SortDesc(Filter(pairs, threshold));
    assert SearchDocuments(pairs, topK, threshold).matches == SliceTo(sorted, topK);
  }

  /** In a descending sequence, a copy missing from a prefix scores no higher than the prefix. */
  lemma MissingFromPrefixRanksLower<D>(sorted: seq<Match<D>>, n: nat, m: Match<D>)
    requires SortedDesc(sorted)
    requires n <= |sorted|
    requires multiset(sorted[..n])[m] < multiset(sorted)[m]
    ensures forall j :: 0 <= j < n ==> m.score <= sorted[j].score
  {
    var rest := sorted[n..];
    assert sorted == sorted[..n] + rest;
    assert m in multiset(rest);
    var k :| 0 <= k < |rest| && rest[k] == m;
    assert sorted[n + k] == m;
  }

  /**
   Anything cut off by the truncation scores no higher than anything returned:
   a copy of a passing pair that is missing from the result ranks below every
   returned pair.
   */
  lemma CutOffScoresNoHigher<D>(pairs: seq<Match<D>>, topK: int, threshold: real, m: Match<D>)
    ensures var top := SearchDocuments(pairs, topK, threshold).matches;
      m.score >= threshold && multiset(top)[m] < multiset(pairs)[m]
      ==> forall j :: 0 <= j < |top| ==> m.score <= top[j].score
  {
    var top := SearchDocuments(pairs, topK, threshold).matches;
    if m.score >= threshold && multiset(top)[m] < multiset(pairs)[m] {
      var sorted := SortDesc(Filter(pairs, threshold));
      MatchesPrefixOfSorted(pairs, topK, threshold);
      FilterCount(pairs, threshold, m);
      MissingFromPrefixRanksLower(sorted, |top|, m);
    }
  }

  /** When every pair passes and `top_k` covers them all, the result is a reordering of the scan. */
  lemma EverythingPassesAndFits<D>(pairs: seq<Match<D>>, topK: int, threshold: real)
    requires forall i :: 0 <= i < |pairs| ==> pairs[i].score >= threshold
    requires topK >= |pairs|
    ensures multiset(SearchDocuments(pairs, topK, threshold).matches) == multiset(pairs)
  {
    forall m ensures multiset(Filter(pairs, threshold))[m] == multiset(pairs)[m] {
      FilterCount(pairs, threshold, m);
      if multiset(pairs)[m] > 0 {
        assert m in pairs;
      }
    }
    assert multiset(Filter(pairs, threshold)) == multiset(pairs);
    assert |Filter(pairs, threshold)| == |pairs| by {
      assert |multiset(Filter(pairs, threshold))| == |Filter(pairs, threshold)|;
    }
  }

  /** A threshold above every score yields nothing. */
  lemma NothingPasses<D>(pairs: seq<Match<D>>, topK: int, threshold: real)
    requires forall i :: 0 <= i < |pairs| ==> pairs[i].score < threshold
    ensures SearchDocuments(pairs, topK, threshold).matches == []
    ensures SearchDocuments(pairs, topK, threshold).docs == []
  {
    var r := SearchDocuments(pairs, topK, threshold);
    if r.matches != [] {
      assert false;
    }
  }

  /** Two documents scoring 1.0 and 0.0 against the query: a 0.9 threshold keeps only the first. */
  lemma HighThresholdScenario()
    ensures SearchDocuments([Match(1, 1.0), Match(2, 0.0)], 5, 0.9).matches == [Match(1, 1.0)]
  {
    var pairs := [Match(1, 1.0), Match(2, 0.0)];
    assert pairs[1..] == [Match(2, 0.0)];
    assert pairs[1..][1..] == [];
    assert Filter(pairs, 0.9) == [Match(1, 1.0)];
    assert [Match(1, 1.0)][1..] == [];
    assert SortDesc([Match(1, 1.0)]) == [Match(1, 1.0)];
  }

  /** The same two documents with threshold 0.0 and `top_k` 1: the higher-scoring one is kept. */
  lemma TopOneScenario()
    ensures SearchDocuments([Match(1, 1.0), Match(2, 0.0)], 1, 0.0).matches == [Match(1, 1.0)]
  {
    var pairs := [Match(1, 1.0), Match(2, 0.0)];
    assert pairs[1..] == [Match(2, 0.0)];
    assert pairs[1..][1..] == [];
    assert Filter(pairs, 0.0) == pairs;
    assert SortDesc([Match(2, 0.0)]) == [Match(2, 0.0)] by {
      assert [Match(2, 0.0)][1..] == [];
    }
    assert SortDesc(pairs) == Insert(Match(1, 1.0), [Match(2, 0.0)]);
    assert Insert(Match(1, 1.0), [Match(2, 0.0)]) == pairs;
  }

  /** Equal scores: with `top_k` 1 the pair scanned first wins. */
  lemma TieScenario()
    ensures SearchDocuments([Match(1, 0.5), Match(2, 0.5)], 1, 0.0).matches == [Match(1, 0.5)]
  {
    var pairs := [Match(1, 0.5), Match(2, 0.5)];
    assert pairs[1..] == [Match(2, 0.5)];
    assert pairs[1..][1..] == [];
    assert Filter(pairs, 0.0) == pairs;
    assert SortDesc([Match(2, 0.5)]) == [Match(2, 0.5)] by {
      assert [Match(2, 0.5)][1..] == [];
    }
    assert SortDesc(pairs) == Insert(Match(1, 0.5), [Match(2, 0.5)]);
    assert Insert(Match(1, 0.5), [Match(2, 0.5)]) == pairs;
  }
}
