/**
 * Per-identifier sliding-window admission control (app/rate_limiter.py).
 * The clock is the integer `now` handed to each call, in seconds.
 */
module RateLimiting {

  /** The window length in seconds. */
  const WindowSeconds := 60
  const DefaultRequestsPerMinute := 100

  /** The timestamps of `ts` strictly newer than `windowStart`, in their original order. */
  function Retained(ts: seq<int>, windowStart: int): (kept: seq<int>)
    ensures |kept| <= |ts|
    ensures forall t :: t in kept ==> t in ts && t > windowStart
  {
    if ts == [] then []
    else
      var front := Retained(ts[..|ts| - 1], windowStart);
      if ts[|ts| - 1] > windowStart then front + [ts[|ts| - 1]] else front
  }

  /** Retaining keeps every newer timestamp as often as it occurs and drops every older one. */
  lemma {:induction false} RetainedMultiplicity(ts: seq<int>, windowStart: int, t: int)
    ensures multiset(Retained(ts, windowStart))[t] == if t > windowStart then multiset(ts)[t] else 0
  {
    if ts != [] {
      var n := |ts| - 1;
      RetainedMultiplicity(ts[..n], windowStart, t);
      assert ts == ts[..n] + [ts[n]];
    }
  }

  /** Retaining commutes with concatenation, so surviving timestamps keep their relative order. */
  lemma {:induction false} RetainedConcat(a: seq<int>, b: seq<int>, windowStart: int)
    ensures Retained(a + b, windowStart) == Retained(a, windowStart) + Retained(b, windowStart)
    decreases |b|
  {
    if b != [] {
      var n := |b| - 1;
      assert (a + b)[..|a + b| - 1] == a + b[..n];
      RetainedConcat(a, b[..n], windowStart);
    } else {
      assert a + b == a;
    }
  }

  /** A list whose timestamps are all newer than the window start is kept whole. */
  lemma {:induction false} RetainedAllNewer(ts: seq<int>, windowStart: int)
    requires forall t :: t in ts ==> t > windowStart
    ensures Retained(ts, windowStart) == ts
  {
    if ts != [] {
      var n := |ts| - 1;
      assert forall t :: t in ts[..n] ==> t in ts;
      RetainedAllNewer(ts[..n], windowStart);
      assert ts[n] in ts;
      assert ts == ts[..n] + [ts[n]];
    }
  }

  /** Nothing is retained exactly when no timestamp is newer than the window start. */
  lemma {:induction false} RetainedEmpty(ts: seq<int>, windowStart: int)
    ensures Retained(ts, windowStart) == [] <==> forall t :: t in ts ==> t <= windowStart
  {
    if ts != [] {
      var n := |ts| - 1;
      RetainedEmpty(ts[..n], windowStart);
      assert ts == ts[..n] + [ts[n]];
      assert forall t :: t in ts <==> t in ts[..n] || t == ts[n];
      if ts[n] > windowStart {
        assert Retained(ts, windowStart) != [];
        assert ts[n] in ts && !(ts[n] <= windowStart);
      } else {
        assert Retained(ts, windowStart) == Retained(ts[..n], windowStart);
      }
    }
  }

  /** Pruning at one window start and then at a later one is pruning at the later one. */
  lemma {:induction false} RetainedTwice(ts: seq<int>, earlier: int, later: int)
    requires earlier <= later
    ensures Retained(Retained(ts, earlier), later) == Retained(ts, later)
  {
    if ts != [] {
      var n := |ts| - 1;
      RetainedTwice(ts[..n], earlier, later);
      if ts[n] > earlier {
        RetainedConcat(Retained(ts[..n], earlier), [ts[n]], later);
        assert Retained([ts[n]], later) == (if ts[n] > later then [ts[n]] else []) by {
          assert [ts[n]][..0] == [];
        }
      }
    }
  }

  /** The stored list of an identifier; an identifier never seen has the empty list. */
  function Stored(requests: map<string, seq<int>>, identifier: string): seq<int>
  {
    if identifier in requests then requests[identifier] else []
  }

  /**
   * One admission decision and the state it leaves: the decision, and the new map.
   * Reading an unknown identifier stores an empty list for it even when the call is
   * rejected, as a `defaultdict` does; a rejection does not write back the pruned list.
   */
  function Admit(requests: map<string, seq<int>>, limit: int, identifier: string, now: int)
    : (r: (bool, map<string, seq<int>>))
    ensures r.0 <==> |Retained(Stored(requests, identifier), now - WindowSeconds)| < limit
    ensures r.1.Keys == requests.Keys + {identifier}
    ensures forall other :: other in requests && other != identifier ==> r.1[other] == requests[other]
  {
    var stored := Stored(requests, identifier);
    var kept := Retained(stored, now - WindowSeconds);
    if |kept| < limit then (true, requests[identifier := kept + [now]])
    else (false, requests[identifier := stored])
  }

  /** No identifier stores more timestamps than the limit allows (none at all when the limit is not positive). */
  ghost predicate Bounded(requests: map<string, seq<int>>, limit: int)
  {
    forall id :: id in requests ==> |requests[id]| <= if limit > 0 then limit else 0
  }

  /** An admission decision keeps every stored list within the limit. */
  lemma AdmitKeepsBound(requests: map<string, seq<int>>, limit: int, identifier: string, now: int)
    requires Bounded(requests, limit)
    ensures Bounded(Admit(requests, limit, identifier, now).1, limit)
  {
  }

  /** An admitted call stores the retained timestamps followed by `now`, and so at most `limit` of them. */
  lemma AdmittedCallStoresNow(requests: map<string, seq<int>>, limit: int, identifier: string, now: int)
    requires Admit(requests, limit, identifier, now).0
    ensures var after := Admit(requests, limit, identifier, now).1[identifier];
      && after == Retained(Stored(requests, identifier), now - WindowSeconds) + [now]
      && |after| <= limit
      && forall t :: t in after ==> t > now - WindowSeconds
  {
  }

  /**
   * When every stored timestamp is at least a full window old (one exactly `WindowSeconds`
   * old included) and the limit is positive, the call is admitted and only `now` remains.
   */
  lemma StaleHistoryIsAdmitted(requests: map<string, seq<int>>, limit: int, identifier: string, now: int)
    requires limit >= 1
    requires forall t :: t in Stored(requests, identifier) ==> t <= now - WindowSeconds
    ensures Admit(requests, limit, identifier, now).0
    ensures Admit(requests, limit, identifier, now).1[identifier] == [now]
  {
    RetainedEmpty(Stored(requests, identifier), now - WindowSeconds);
  }

  /** `n` copies of `x`. */
  function Repeat<T>(x: T, n: nat): (s: seq<T>)
    ensures |s| == n && forall y :: y in s ==> y == x
  {
    if n == 0 then [] else Repeat(x, n - 1) + [x]
  }

  /** `k` successive calls for one identifier at the same instant: the decisions, and the final map. */
  function Burst(requests: map<string, seq<int>>, limit: int, identifier: string, now: int, k: nat)
    : (seq<bool>, map<string, seq<int>>)
  {
    if k == 0 then ([], requests)
    else
      var before := Burst(requests, limit, identifier, now, k - 1);
      var step := Admit(before.1, limit, identifier, now);
      (before.0 + [step.0], step.1)
  }

  /** A call whose retained history is `j` copies of `now`, below the limit, is admitted and stores `j + 1`. */
  lemma AdmitRepeated(state: map<string, seq<int>>, limit: int, identifier: string, now: int, j: nat)
    requires Retained(Stored(state, identifier), now - WindowSeconds) == Repeat(now, j)
    requires j < limit
    ensures Admit(state, limit, identifier, now) == (true, state[identifier := Repeat(now, j + 1)])
  {
  }

  /** One more call of a burst: the decisions grow by the new one and the state is the new state. */
  lemma BurstUnfold(requests: map<string, seq<int>>, limit: int, identifier: string, now: int, k: nat)
    requires k > 0
    ensures var prev := Burst(requests, limit, identifier, now, k - 1);
      var step := Admit(prev.1, limit, identifier, now);
      Burst(requests, limit, identifier, now, k) == (prev.0 + [step.0], step.1)
  {
  }

  lemma UpdateTwice(m: map<string, seq<int>>, key: string, first: seq<int>, second: seq<int>)
    ensures m[key := first][key := second] == m[key := second]
  {
  }

  /** The next call of a burst that has stored `j < limit` copies of `now` is admitted and stores one more. */
  lemma BurstStep(requests: map<string, seq<int>>, limit: nat, identifier: string, now: int,
                  state: map<string, seq<int>>, j: nat)
    requires forall t :: t in Stored(requests, identifier) ==> t <= now - WindowSeconds
    requires j < limit
    requires j == 0 ==> state == requests
    requires j > 0 ==> state == requests[identifier := Repeat(now, j)]
    ensures Admit(state, limit, identifier, now) == (true, requests[identifier := Repeat(now, j + 1)])
  {
    assert Retained(Stored(state, identifier), now - WindowSeconds) == Repeat(now, j) by {
      if j == 0 {
        RetainedEmpty(Stored(requests, identifier), now - WindowSeconds);
      } else {
        RetainedAllNewer(Repeat(now, j), now - WindowSeconds);
      }
    }
    AdmitRepeated(state, limit, identifier, now, j);
    if j > 0 {
      UpdateTwice(requests, identifier, Repeat(now, j), Repeat(now, j + 1));
    }
  }

  /** The first `k <= limit` calls of a burst from a client with no recent history are all admitted. */
  lemma {:induction false} BurstPrefix(requests: map<string, seq<int>>, limit: nat, identifier: string, now: int, k: nat)
    requires forall t :: t in Stored(requests, identifier) ==> t <= now - WindowSeconds
    requires k <= limit
    ensures Burst(requests, limit, identifier, now, k).0 == Repeat(true, k)
    ensures k > 0 ==> Burst(requests, limit, identifier, now, k).1 == requests[identifier := Repeat(now, k)]
  {
    if k > 0 {
      BurstPrefix(requests, limit, identifier, now, k - 1);
      var prev := Burst(requests, limit, identifier, now, k - 1);
      BurstStep(requests, limit, identifier, now, prev.1, k - 1);
      BurstUnfold(requests, limit, identifier, now, k);
      assert Repeat(true, k) == Repeat(true, k - 1) + [true];
    }
  }

  /**
   * With limit `N` and a fixed instant, the first `N` calls for an identifier with no
   * recent history are admitted and the next one is rejected.
   */
  lemma LimitThenReject(requests: map<string, seq<int>>, limit: nat, identifier: string, now: int)
    requires forall t :: t in Stored(requests, identifier) ==> t <= now - WindowSeconds
    ensures Burst(requests, limit, identifier, now, limit + 1).0 == Repeat(true, limit) + [false]
  {
    BurstPrefix(requests, limit, identifier, now, limit);
    if limit > 0 {
      RetainedAllNewer(Repeat(now, limit), now - WindowSeconds);
    } else {
      RetainedEmpty(Stored(requests, identifier), now - WindowSeconds);
    }
  }

  /** The map left by a cleanup at window start `windowStart`: pruned lists, empty ones removed. */
  function Cleaned(requests: map<string, seq<int>>, windowStart: int): map<string, seq<int>>
  {
    map id | id in requests && Retained(requests[id], windowStart) != [] :: Retained(requests[id], windowStart)
  }

  /**
   * After a cleanup an identifier survives exactly when it had a timestamp newer than the
   * window start; its list is then non-empty and holds only such timestamps.
   */
  lemma CleanedShape(requests: map<string, seq<int>>, windowStart: int, id: string)
    ensures id in Cleaned(requests, windowStart) <==>
      id in requests && exists t :: t in requests[id] && t > windowStart
    ensures id in Cleaned(requests, windowStart) ==>
      && Cleaned(requests, windowStart)[id] != []
      && forall t :: t in Cleaned(requests, windowStart)[id] ==> t > windowStart
  {
    if id in requests {
      RetainedEmpty(requests[id], windowStart);
    }
  }

  /**
   * A cleanup at or before the instant of a later call does not change that call's
   * decision, nor the list it stores for the identifier when it admits.
   */
  lemma CleanupInvisibleToAdmission(requests: map<string, seq<int>>, limit: int, identifier: string,
                                     cleanedAt: int, now: int)
    requires cleanedAt <= now
    ensures Admit(Cleaned(requests, cleanedAt - WindowSeconds), limit, identifier, now).0
        == Admit(requests, limit, identifier, now).0
    ensures Admit(requests, limit, identifier, now).0 ==>
      Admit(Cleaned(requests, cleanedAt - WindowSeconds), limit, identifier, now).1[identifier]
        == Admit(requests, limit, identifier, now).1[identifier]
  {
    var stored := Stored(requests, identifier);
    var ws := now - WindowSeconds;
    RetainedTwice(stored, cleanedAt - WindowSeconds, ws);
    if identifier in requests && Retained(stored, cleanedAt - WindowSeconds) == [] {
      assert Retained(stored, ws) == [];
    } else if identifier !in requests {
      assert Retained([], ws) == [];
    }
  }

  /** Pruning drops at least one timestamp when some stored timestamp is at or before the window start. */
  lemma {:induction false} RetainedDropsStale(ts: seq<int>, windowStart: int, t: int)
    requires t in ts && t <= windowStart
    ensures |Retained(ts, windowStart)| < |ts|
  {
    var n := |ts| - 1;
    assert ts == ts[..n] + [ts[n]];
    if ts[n] != t {
      assert t in ts[..n];
      RetainedDropsStale(ts[..n], windowStart, t);
    }
  }

  /**
   * Recovery: while the stored list is within the limit, a call is admitted again as soon as
   * one of the stored timestamps is at least a full window old.
   */
  lemma RecoveryAfterWindow(requests: map<string, seq<int>>, limit: int, identifier: string, now: int, t: int)
    requires Bounded(requests, limit) && limit > 0
    requires t in Stored(requests, identifier) && t <= now - WindowSeconds
    ensures Admit(requests, limit, identifier, now).0
  {
    RetainedDropsStale(Stored(requests, identifier), now - WindowSeconds, t);
  }

  /** Call instants that never go back in time. */
  predicate NonDecreasing(times: seq<int>)
  {
    forall i, j :: 0 <= i <= j < |times| ==> times[i] <= times[j]
  }

  /** Successive calls for one identifier at the instants `times`: the decisions, and the final map. */
  function Trace(requests: map<string, seq<int>>, limit: int, identifier: string, times: seq<int>)
    : (r: (seq<bool>, map<string, seq<int>>))
    ensures |r.0| == |times|
  {
    if times == [] then ([], requests)
    else
      var n := |times| - 1;
      var before := Trace(requests, limit, identifier, times[..n]);
      var step := Admit(before.1, limit, identifier, times[n]);
      (before.0 + [step.0], step.1)
  }

  /** The instants of the admitted calls, in call order. */
  function AdmittedAt(times: seq<int>, decisions: seq<bool>): (admitted: seq<int>)
    requires |decisions| == |times|
    ensures forall t :: t in admitted ==> t in times
  {
    if times == [] then []
    else
      var n := |times| - 1;
      var front := AdmittedAt(times[..n], decisions[..n]);
      assert forall t :: t in front ==> t in times by {
        assert times == times[..n] + [times[n]];
      }
      front + (if decisions[n] then [times[n]] else [])
  }

  /** How many of the timestamps fall in the interval `(low, high]`. */
  function CountIn(ts: seq<int>, low: int, high: int): nat
  {
    if ts == [] then 0
    else CountIn(ts[..|ts| - 1], low, high) + (if low < ts[|ts| - 1] <= high then 1 else 0)
  }

  /** When no timestamp is later than `high`, counting `(low, high]` counts what pruning at `low` keeps. */
  lemma {:induction false} CountInRetained(ts: seq<int>, low: int, high: int)
    requires forall t :: t in ts ==> t <= high
    ensures CountIn(ts, low, high) == |Retained(ts, low)|
  {
    if ts != [] {
      var n := |ts| - 1;
      assert forall t :: t in ts[..n] ==> t in ts;
      assert ts[n] in ts;
      CountInRetained(ts[..n], low, high);
    }
  }

  /**
   * Along a trace of a client that starts with no stored history, the stored list is the
   * admitted instants pruned at some cutoff no later than a full window before the last call,
   * and it never holds more than `limit` timestamps.
   */
  lemma {:induction false} TraceStored(requests: map<string, seq<int>>, limit: nat, identifier: string, times: seq<int>)
    returns (cutoff: int)
    requires Stored(requests, identifier) == []
    requires NonDecreasing(times)
    ensures var r := Trace(requests, limit, identifier, times);
      && Stored(r.1, identifier) == Retained(AdmittedAt(times, r.0), cutoff)
      && |Stored(r.1, identifier)| <= limit
      && (times != [] ==> cutoff <= times[|times| - 1] - WindowSeconds)
  {
    if times == [] {
      cutoff := 0;
    } else {
      var n := |times| - 1;
      var now := times[n];
      var front := times[..n];
      assert NonDecreasing(front);
      var earlier := TraceStored(requests, limit, identifier, front);
      var before := Trace(requests, limit, identifier, front);
      var admitted := AdmittedAt(front, before.0);
      var stored := Stored(before.1, identifier);
      if n == 0 {
        earlier := now - WindowSeconds;
      } else {
        assert times[n - 1] <= now;
      }
      assert stored == Retained(admitted, earlier) && earlier <= now - WindowSeconds;
      var r := Trace(requests, limit, identifier, times);
      assert r.0[..n] == before.0;
      assert times[..n] == front;
      var step := Admit(before.1, limit, identifier, now);
      assert r == (before.0 + [step.0], step.1);
      if step.0 {
        assert AdmittedAt(times, r.0) == admitted + [now];
        RetainedTwice(admitted, earlier, now - WindowSeconds);
        assert (admitted + [now])[..|admitted|] == admitted;
        AdmittedCallStoresNow(before.1, limit, identifier, now);
        cutoff := now - WindowSeconds;
      } else {
        assert AdmittedAt(times, r.0) == admitted;
        cutoff := earlier;
      }
    }
  }

  /**
   * Window correctness: for a client that starts with no stored history and calls at
   * non-decreasing instants, at most `limit` admitted calls fall in any 60-second interval
   * `(T - 60, T]`.
   */
  lemma {:induction false} AtMostLimitPerWindow(requests: map<string, seq<int>>, limit: nat, identifier: string,
                                                times: seq<int>, T: int)
    requires Stored(requests, identifier) == []
    requires NonDecreasing(times)
    ensures CountIn(AdmittedAt(times, Trace(requests, limit, identifier, times).0), T - WindowSeconds, T) <= limit
  {
    if times != [] {
      var n := |times| - 1;
      var r := Trace(requests, limit, identifier, times);
      var admitted := AdmittedAt(times, r.0);
      if times[n] > T {
        var front := times[..n];
        assert NonDecreasing(front);
        AtMostLimitPerWindow(requests, limit, identifier, front, T);
        assert r.0[..n] == Trace(requests, limit, identifier, front).0;
        var frontAdmitted := AdmittedAt(front, r.0[..n]);
        assert admitted == frontAdmitted + (if r.0[n] then [times[n]] else []);
        if r.0[n] {
          assert admitted[..|admitted| - 1] == frontAdmitted;
          assert admitted[|admitted| - 1] == times[n];
          assert CountIn(admitted, T - WindowSeconds, T) == CountIn(frontAdmitted, T - WindowSeconds, T);
        } else {
          assert admitted == frontAdmitted;
        }
      } else {
        var cutoff := TraceStored(requests, limit, identifier, times);
        forall t | t in admitted ensures t <= T {
          var i :| 0 <= i < |times| && times[i] == t;
        }
        CountInRetained(admitted, T - WindowSeconds, T);
        RetainedTwice(admitted, cutoff, T - WindowSeconds);
      }
    }
  }

  /** Drops the timestamps at or before `windowStart`: the list comprehension of the source. */
  method PruneWindow(ts: seq<int>, windowStart: int) returns (kept: seq<int>)
    ensures kept == Retained(ts, windowStart)
  {
    kept := [];
    var i := 0;
    while i < |ts|
      invariant 0 <= i <= |ts|
      invariant kept == Retained(ts[..i], windowStart)
    {
      assert ts[..i + 1][..i] == ts[..i];
      if ts[i] > windowStart {
        kept := kept + [ts[i]];
      }
      i := i + 1;
    }
    assert ts[..|ts|] == ts;
  }

  class RateLimiter {
    const requestsPerMinute: int
    /** Per identifier, the timestamps of its admitted calls. */
    var requests: map<string, seq<int>>

    ghost predicate Valid()
      reads this
    {
      Bounded(requests, requestsPerMinute)
    }

    constructor (requestsPerMinute: int := DefaultRequestsPerMinute)
      ensures Valid()
      ensures this.requestsPerMinute == requestsPerMinute && requests == map[]
    {
      this.requestsPerMinute := requestsPerMinute;
      requests := map[];
    }

    /**
     * Admits the call when fewer than `requestsPerMinute` timestamps of `identifier` are newer
     * than `now - 60`, recording `now`; no other identifier's list changes.
     */
    method IsAllowed(identifier: string, now: int) returns (allowed: bool)
      requires Valid()
      modifies this
      ensures Valid()
      ensures (allowed, requests) == Admit(old(requests), requestsPerMinute, identifier, now)
      ensures allowed <==> |Retained(Stored(old(requests), identifier), now - WindowSeconds)| < requestsPerMinute
      ensures allowed ==> requests == old(requests)[identifier :=
        Retained(Stored(old(requests), identifier), now - WindowSeconds) + [now]]
      ensures !allowed ==> requests == old(requests)[identifier := Stored(old(requests), identifier)]
    {
      var windowStart := now - WindowSeconds;
      ghost var stored := Stored(requests, identifier);
      if identifier !in requests {
        requests := requests[identifier := []];
      }
      var userRequests := requests[identifier];
      userRequests := PruneWindow(userRequests, windowStart);
      if |userRequests| < requestsPerMinute {
        userRequests := userRequests + [now];
        requests := requests[identifier := userRequests];
        assert userRequests == Retained(stored, windowStart) + [now];
        assert requests == old(requests)[identifier := Retained(stored, windowStart) + [now]];
        return true;
      }
      assert requests == old(requests)[identifier := Stored(old(requests), identifier)];
      return false;
    }

    /** Prunes every list to the window ending at `now` and forgets identifiers left with none. */
    method CleanupOldRequests(now: int)
      requires Valid()
      modifies this
      ensures Valid()
      ensures requests == Cleaned(old(requests), now - WindowSeconds)
    {
      var windowStart := now - WindowSeconds;
      var pending := requests.Keys;
      while pending != {}
        invariant pending <= old(requests).Keys
        invariant requests.Keys <= old(requests).Keys
        invariant forall id :: id in pending ==> id in requests && requests[id] == old(requests)[id]
        invariant forall id :: id in old(requests) && id !in pending ==>
          (id in requests <==> Retained(old(requests)[id], windowStart) != []) &&
          (id in requests ==> requests[id] == Retained(old(requests)[id], windowStart))
        decreases pending
      {
        var identifier :| identifier in pending;
        var kept := PruneWindow(requests[identifier], windowStart);
        requests := requests[identifier := kept];
        if requests[identifier] == [] {
          requests := requests - {identifier};
        }
        pending := pending - {identifier};
      }
    }
  }

  /**
   * The first test scenario: a limit of 10, ten calls admitted, the eleventh rejected,
   * all within one window.
   */
  method TenThenRejectScenario(now: int) returns (decisions: seq<bool>)
    ensures decisions == Repeat(true, 10) + [false]
  {
    var limiter := new RateLimiter(10);
    decisions := [];
    var i := 0;
    while i < 10
      invariant 0 <= i <= 10
      invariant limiter.Valid() && limiter.requestsPerMinute == 10
      invariant decisions == Repeat(true, i)
      invariant limiter.requests == if i == 0 then map[] else map["test_client" := Repeat(now, i)]
    {
      RetainedAllNewer(Repeat(now, i), now - WindowSeconds);
      var allowed := limiter.IsAllowed("test_client", now);
      decisions := decisions + [allowed];
      i := i + 1;
    }
    RetainedAllNewer(Repeat(now, 10), now - WindowSeconds);
    var allowed := limiter.IsAllowed("test_client", now);
    decisions := decisions + [allowed];
  }

  /** Two clients with a limit of 2 each, interleaved: each gets two admissions, then a rejection. */
  method TwoClientsScenario(now: int) returns (decisions: seq<bool>)
    ensures decisions == [true, true, true, true, false, false]
  {
    var limiter := new RateLimiter(2);
    var a1 := limiter.IsAllowed("client_1", now);
    var b1 := limiter.IsAllowed("client_2", now);
    assert Retained([now], now - WindowSeconds) == [now] by { RetainedAllNewer([now], now - WindowSeconds); }
    var a2 := limiter.IsAllowed("client_1", now);
    var b2 := limiter.IsAllowed("client_2", now);
    assert Retained([now, now], now - WindowSeconds) == [now, now] by {
      RetainedAllNewer([now, now], now - WindowSeconds);
    }
    var a3 := limiter.IsAllowed("client_1", now);
    var b3 := limiter.IsAllowed("client_2", now);
    decisions := [a1, b1, a2, b2, a3, b3];
  }
}
