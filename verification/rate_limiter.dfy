/**
 The per-user request quota (`increment_user_request`).

 The quota store maps a user id to its request count. A user seen for the
 first time is recorded with count 1 and admitted; a known user below the
 ceiling of five is incremented and admitted; a user at or above the ceiling
 is rejected and the store is left as it was. Counts never reset.

 The store is a plain map threaded through the calls: the database round
 trips, and the race between the lookup and the update, are not modelled.
 */
module RateLimiter {
  import opened Wrappers

  /** Requests a user may make before every further one is rejected. */
  const Limit: nat := 5

  /** The result of one admission check: the verdict and the quota store after it. */
  datatype Decision<U> = Decision(admitted: bool, quotas: map<U, nat>)

  /** `increment_user_request(user_id)`. */
  function IncrementUserRequest<U>(quotas: map<U, nat>, user: U): (r: Decision<U>)
    ensures user !in quotas ==> r.admitted && r.quotas == quotas[user := 1]
    ensures user in quotas && quotas[user] < Limit
            ==> r.admitted && r.quotas == quotas[user := quotas[user] + 1]
    ensures user in quotas && quotas[user] >= Limit ==> !r.admitted && r.quotas == quotas
    ensures r.admitted <==> user !in quotas || quotas[user] < Limit
    ensures forall w :: w in quotas && w != user ==> w in r.quotas && r.quotas[w] == quotas[w]
    ensures r.quotas.Keys == quotas.Keys + {user}
  {
    if user in quotas then
      if quotas[user] >= Limit then Decision(false, quotas)
      else Decision(true, quotas[user := quotas[user] + 1])
    else Decision(true, quotas[user := 1])
  }

  /** Every recorded count lies in 1..Limit. */
  ghost predicate WellFormed<U>(quotas: map<U, nat>)
  {
    forall u :: u in quotas ==> 1 <= quotas[u] <= Limit
  }

  /** An admission check keeps every count in 1..Limit. */
  lemma IncrementPreservesBounds<U>(quotas: map<U, nat>, user: U)
    requires WellFormed(quotas)
    ensures WellFormed(IncrementUserRequest(quotas, user).quotas)
  {
  }

  /** The quota store and the verdicts after a sequence of requests, in order. */
  datatype History<U> = History(quotas: map<U, nat>, verdicts: seq<bool>)

  /** Runs the admission check on each request of `requests` in turn. */
  function Replay<U>(quotas: map<U, nat>, requests: seq<U>): (h: History<U>)
    ensures |h.verdicts| == |requests|
  {
    if requests == [] then History(quotas, [])
    else
      var before := Replay(quotas, requests[..|requests| - 1]);
      var d := IncrementUserRequest(before.quotas, requests[|requests| - 1]);
      History(d.quotas, before.verdicts + [d.admitted])
  }

  /** Starting from an empty store, the counts stay in 1..Limit whatever the requests. */
  lemma {:induction false} ReplayWellFormed<U>(requests: seq<U>)
    ensures WellFormed(Replay(map[], requests).quotas)
  {
    if requests != [] {
      ReplayWellFormed(requests[..|requests| - 1]);
      IncrementPreservesBounds(Replay(map[], requests[..|requests| - 1]).quotas, requests[|requests| - 1]);
    }
  }

  /** Starting from an empty store, a user's count is the number of its requests, capped at Limit. */
  lemma {:induction false} ReplayCounts<U>(requests: seq<U>)
    ensures forall u :: u in Replay(map[], requests).quotas <==> u in multiset(requests)
    ensures forall u :: u in Replay(map[], requests).quotas
                        ==> Replay(map[], requests).quotas[u] == Min(multiset(requests)[u], Limit)
  {
    if requests != [] {
      var n := |requests| - 1;
      var init, last := requests[..n], requests[n];
      ReplayCounts(init);
      assert requests == init + [last];
      assert multiset(requests) == multiset(init) + multiset{last};
      var before := Replay(map[], init).quotas;
      var after := Replay(map[], requests).quotas;
      assert after == IncrementUserRequest(before, last).quotas;
      forall u | u in after
        ensures after[u] == Min(multiset(requests)[u], Limit)
      {
        if u != last {
          assert after[u] == before[u];
        }
      }
    }
  }

  /** How many of the requests up to and including position `i` come from the user of request `i`. */
  ghost function Ordinal<U>(requests: seq<U>, i: nat): nat
    requires i < |requests|
  {
    multiset(requests[..i + 1])[requests[i]]
  }

  lemma OrdinalInPrefix<U>(requests: seq<U>, n: nat, i: nat)
    requires i < n <= |requests|
    ensures Ordinal(requests[..n], i) == Ordinal(requests, i)
  {
    assert requests[..n][..i + 1] == requests[..i + 1];
  }

  /**
   Starting from an empty store, a request is admitted exactly when it is
   among the first Limit requests of its user.
   */
  lemma {:induction false} ReplayVerdicts<U>(requests: seq<U>)
    ensures forall i :: 0 <= i < |requests| ==> (Replay(map[], requests).verdicts[i] <==> Ordinal(requests, i) <= Limit)
  {
    if requests != [] {
      var n := |requests| - 1;
      var init, last := requests[..n], requests[n];
      var before := Replay(map[], init);
      var h := Replay(map[], requests);
      var d := IncrementUserRequest(before.quotas, last);
      assert h.verdicts == before.verdicts + [d.admitted];
      assert d.admitted <==> multiset(init)[last] < Limit by {
        ReplayCounts(init);
        if last in before.quotas {
          assert before.quotas[last] == Min(multiset(init)[last], Limit);
        } else {
          assert last !in multiset(init);
        }
      }
      assert Ordinal(requests, n) == multiset(init)[last] + 1 by {
        assert requests[..n + 1] == init + [last];
      }
      forall i | 0 <= i < n
        ensures h.verdicts[i] <==> Ordinal(requests, i) <= Limit
      {
        ReplayVerdicts(init);
        OrdinalInPrefix(requests, n, i);
        assert h.verdicts[i] == before.verdicts[i];
      }
    }
  }

  /** A fresh user is admitted on its first five requests and rejected on every later one. */
  lemma FreshUserAdmittedFiveTimes<U>(user: U, requests: seq<U>)
    requires forall i :: 0 <= i < |requests| ==> requests[i] == user
    ensures forall i :: 0 <= i < |requests| ==> (Replay(map[], requests).verdicts[i] <==> i < Limit)
    ensures requests != [] ==> Replay(map[], requests).quotas[user] == Min(|requests|, Limit)
  {
    ReplayVerdicts(requests);
    SameUserOrdinals(user, requests);
    if requests != [] {
      ReplayCounts(requests);
      SameUserCount(user, requests);
      assert requests[0] in multiset(requests);
    }
  }

  /** When one user makes every request, the i-th request is that user's (i+1)-th. */
  lemma SameUserOrdinals<U>(user: U, requests: seq<U>)
    requires forall i :: 0 <= i < |requests| ==> requests[i] == user
    ensures forall i :: 0 <= i < |requests| ==> Ordinal(requests, i) == i + 1
  {
    forall i | 0 <= i < |requests|
      ensures Ordinal(requests, i) == i + 1
    {
      SameUserCount(user, requests[..i + 1]);
    }
  }

  lemma {:induction false} SameUserCount<U>(user: U, requests: seq<U>)
    requires forall i :: 0 <= i < |requests| ==> requests[i] == user
    ensures multiset(requests)[user] == |requests|
  {
    if requests != [] {
      var n := |requests| - 1;
      assert requests == requests[..n] + [user];
      SameUserCount(user, requests[..n]);
    }
  }
}
