/** The Redis sliding window of `RateLimiter`, and how its decisions relate to
    those of the in-memory window on the same requests of one key. */
module RateLimitRedis {
  import opened Windows
  import opened RateLimit

  const KEY_TTL: real := 2.0

  /** The sorted set of one key: its scores, and when the key expires. A score
      is recorded for every attempt, admitted or not. */
  datatype ZSet = ZSet(scores: seq<real>, expiresAt: real)

  /** `_SCRIPT`: expire, drop scores up to the window start, add this request,
      renew the expiry, answer the cardinality. */
  function RunScript(z: ZSet, now: real): (ZSet, nat) {
    var live := if now >= z.expiresAt then [] else z.scores;
    var kept := DropUpTo(live, now - WINDOW);
    (ZSet(kept + [now], now + KEY_TTL), |kept| + 1)
  }

  /** ZREMRANGEBYSCORE key -inf bound. */
  function DropUpTo(scores: seq<real>, bound: real): seq<real> {
    if scores == [] then []
    else DropUpTo(scores[..|scores| - 1], bound)
         + if scores[|scores| - 1] <= bound then [] else [scores[|scores| - 1]]
  }

  /** Number of entries above `bound`. */
  function CountAbove(times: seq<real>, bound: real): nat {
    |DropUpTo(times, bound)|
  }

  // ----- the script refines a count over the attempts -----

  /** The set after the first requests of a trace. */
  function AfterAttempts(times: seq<real>): ZSet {
    if times == [] then ZSet([], 0.0)
    else RunScript(AfterAttempts(times[..|times| - 1]), times[|times| - 1]).0
  }

  lemma {:induction false} DropTwice(scores: seq<real>, a: real, b: real)
    requires a <= b
    ensures DropUpTo(DropUpTo(scores, a), b) == DropUpTo(scores, b)
  {
    if scores != [] {
      var init, last := scores[..|scores| - 1], scores[|scores| - 1];
      DropTwice(init, a, b);
      DropConcat(DropUpTo(init, a), if last <= a then [] else [last], b);
    }
  }

  lemma {:induction false} DropConcat(a: seq<real>, b: seq<real>, bound: real)
    ensures DropUpTo(a + b, bound) == DropUpTo(a, bound) + DropUpTo(b, bound)
  {
    if b == [] {
      assert a + b == a;
    } else {
      assert (a + b)[..|a + b| - 1] == a + b[..|b| - 1];
      DropConcat(a, b[..|b| - 1], bound);
    }
  }

  lemma {:induction false} DropAll(times: seq<real>, bound: real)
    requires UpTo(times, bound)
    ensures DropUpTo(times, bound) == []
  {
    if times != [] {
      var init := times[..|times| - 1];
      assert times[|times| - 1] in times;
      forall t | t in init ensures t <= bound {
        assert t in times;
      }
      DropAll(init, bound);
    }
  }

  lemma InitUpToLast(times: seq<real>)
    requires Sorted(times) && times != []
    ensures Sorted(times[..|times| - 1]) && UpTo(times, times[|times| - 1])
  {
    forall t | t in times ensures t <= times[|times| - 1] {
      var i :| 0 <= i < |times| && times[i] == t;
    }
  }

  /** The expiry never shows: once the key is gone, the window has passed too. */
  lemma ExpiryUnseen(times: seq<real>, now: real)
    requires Sorted(times) && times != [] && times[|times| - 1] <= now
    ensures
      var last := times[|times| - 1];
      var live := if now >= last + KEY_TTL then [] else DropUpTo(times, last - WINDOW);
      DropUpTo(live, now - WINDOW) == DropUpTo(times, now - WINDOW)
  {
    var last := times[|times| - 1];
    InitUpToLast(times);
    DropTwice(times, last - WINDOW, now - WINDOW);
    if now >= last + KEY_TTL {
      DropAll(times, now - WINDOW);
    }
  }

  lemma LastKept(times: seq<real>)
    requires times != []
    ensures var last := times[|times| - 1];
      DropUpTo(times, last - WINDOW) == DropUpTo(times[..|times| - 1], last - WINDOW) + [last]
  {
  }

  /** What a key holds once its attempts so far are `times`. */
  function Stored(times: seq<real>): ZSet
    requires times != []
  {
    ZSet(DropUpTo(times, times[|times| - 1] - WINDOW), times[|times| - 1] + KEY_TTL)
  }

  lemma StoreStep(init: seq<real>, now: real)
    requires Sorted(init) && init != [] && init[|init| - 1] <= now
    ensures RunScript(Stored(init), now).0 == ZSet(DropUpTo(init, now - WINDOW) + [now], now + KEY_TTL)
  {
    ExpiryUnseen(init, now);
  }

  /** The key stores the attempts of the second before the last one. */
  lemma {:induction false} StoredScores(times: seq<real>)
    requires Sorted(times) && times != []
    ensures AfterAttempts(times) == Stored(times)
  {
    var init, last := times[..|times| - 1], times[|times| - 1];
    LastKept(times);
    if init != [] {
      hide Sorted, UpTo, DropUpTo, RunScript;
      InitUpToLast(times);
      assert init[|init| - 1] in times;
      StoredScores(init);
      UpToElim(times, last, init[|init| - 1]);
      StoreStep(init, last);
      assert AfterAttempts(times) == RunScript(AfterAttempts(init), last).0;
    }
  }

  lemma UpToElim(times: seq<real>, now: real, t: real)
    requires UpTo(times, now) && t in times
    ensures t <= now
  {
  }

  /** The script counts exactly the attempts of the last second, its own
      included, as if nothing had ever been trimmed or expired. */
  lemma ScriptCountsAttempts(times: seq<real>, now: real)
    requires Sorted(times) && UpTo(times, now)
    ensures RunScript(AfterAttempts(times), now).1 == CountAbove(times, now - WINDOW) + 1
  {
    if times != [] {
      assert times[|times| - 1] in times;
      StoredScores(times);
      ExpiryUnseen(times, now);
    }
  }

  // ----- two limiters on one trace -----

  /** `_redis_decide` on a count that came back. */
  predicate RedisAdmits(times: seq<real>, limit: nat, now: real) {
    RunScript(AfterAttempts(times), now).1 <= limit
  }

  /** The admissions the in-memory window has recorded after the first requests. */
  function Admitted(times: seq<real>, limit: nat): seq<real> {
    if times == [] then []
    else
      var log, now := Admitted(times[..|times| - 1], limit), times[|times| - 1];
      if Admits(log, limit, now) then log + [now] else log
  }

  predicate MemoryAdmits(times: seq<real>, limit: nat, now: real) {
    Admits(Admitted(times, limit), limit, now)
  }

  lemma InitUpTo(times: seq<real>, now: real)
    requires UpTo(times, now) && times != []
    ensures UpTo(times[..|times| - 1], now)
    ensures forall t | t in times[..|times| - 1] :: t in times
  {
    var init := times[..|times| - 1];
    forall t | t in init ensures t in times {
      var i :| 0 <= i < |init| && init[i] == t;
      assert times[i] == t;
    }
  }

  /** Admissions in the closed window are attempts in the half-open one, except
      those made exactly one second ago. */
  lemma {:induction false} AdmissionsWithinAttempts(times: seq<real>, limit: nat, now: real)
    requires Sorted(times) && UpTo(times, now) && now - WINDOW !in times
    ensures CountIn(Admitted(times, limit), now - WINDOW, now) <= CountAbove(times, now - WINDOW)
  {
    if times != [] {
      var init, last := times[..|times| - 1], times[|times| - 1];
      InitUpToLast(times);
      assert last in times;
      InitUpTo(times, now);
      AdmissionsWithinAttempts(init, limit, now);
      CountAppend(Admitted(init, limit), last, now - WINDOW, now);
    }
  }

  /** Whatever Redis admits the in-memory window admits, unless some earlier
      request of the key came exactly one second before. */
  lemma RedisIsStricter(times: seq<real>, limit: nat, now: real)
    requires Sorted(times) && UpTo(times, now) && now - WINDOW !in times
    requires RedisAdmits(times, limit, now)
    ensures MemoryAdmits(times, limit, now)
  {
    ScriptCountsAttempts(times, now);
    AdmissionsWithinAttempts(times, limit, now);
  }

  /** The first `n` requests were all admitted by both. */
  ghost predicate NoDenialYet(times: seq<real>, limit: nat) {
    forall i | 0 <= i < |times| :: RedisAdmits(times[..i], limit, times[i]) && MemoryAdmits(times[..i], limit, times[i])
  }

  lemma NoDenialInit(times: seq<real>, limit: nat)
    requires NoDenialYet(times, limit) && times != []
    ensures NoDenialYet(times[..|times| - 1], limit)
    ensures MemoryAdmits(times[..|times| - 1], limit, times[|times| - 1])
  {
    hide RedisAdmits, MemoryAdmits;
    var init := times[..|times| - 1];
    forall i | 0 <= i < |init|
      ensures RedisAdmits(init[..i], limit, init[i]) && MemoryAdmits(init[..i], limit, init[i])
    {
      assert init[..i] == times[..i];
    }
  }

  lemma {:induction false} AllAdmitted(times: seq<real>, limit: nat)
    requires NoDenialYet(times, limit)
    ensures Admitted(times, limit) == times
  {
    hide RedisAdmits, NoDenialYet, Admits;
    if times != [] {
      NoDenialInit(times, limit);
      AllAdmitted(times[..|times| - 1], limit);
    }
  }

  /** Number of entries at exactly `x`. */
  function CountAt(times: seq<real>, x: real): nat {
    if times == [] then 0 else CountAt(times[..|times| - 1], x) + if times[|times| - 1] == x then 1 else 0
  }

  /** The closed window holds what the half-open one holds, and its lower end. */
  lemma {:induction false} CountInSplits(times: seq<real>, now: real)
    requires UpTo(times, now)
    ensures CountIn(times, now - WINDOW, now) == CountAbove(times, now - WINDOW) + CountAt(times, now - WINDOW)
  {
    if times != [] {
      assert times[|times| - 1] in times;
      InitUpTo(times, now);
      CountInSplits(times[..|times| - 1], now);
    }
  }

  lemma {:induction false} CountAtNone(times: seq<real>, x: real)
    ensures CountAt(times, x) == 0 <==> x !in times
  {
    if times != [] {
      var init := times[..|times| - 1];
      CountAtNone(init, x);
      assert times == init + [times[|times| - 1]];
    }
  }

  /** As long as nothing has been denied, the two disagree on a request if and
      only if the limit falls among the earlier requests that came exactly one
      second before: the attempts of the last second are below it, and together
      with those they reach it. */
  lemma AgreeExactly(times: seq<real>, limit: nat, now: real)
    requires Sorted(times) && UpTo(times, now) && NoDenialYet(times, limit)
    ensures
      var recent, oneSecondAgo := CountAbove(times, now - WINDOW), CountAt(times, now - WINDOW);
      (RedisAdmits(times, limit, now) <==> MemoryAdmits(times, limit, now))
      <==> !(recent < limit <= recent + oneSecondAgo)
  {
    AllAdmitted(times, limit);
    ScriptCountsAttempts(times, now);
    CountInSplits(times, now);
  }

  /** So the two agree on every request up to and including the first denial
      when no earlier request came exactly one second before. */
  lemma AgreeUpToFirstDenial(times: seq<real>, limit: nat, now: real)
    requires Sorted(times) && UpTo(times, now) && now - WINDOW !in times
    requires NoDenialYet(times, limit)
    ensures RedisAdmits(times, limit, now) <==> MemoryAdmits(times, limit, now)
  {
    AgreeExactly(times, limit, now);
    CountAtNone(times, now - WINDOW);
  }

  /** With a request exactly one second earlier the in-memory window can be
      the stricter one: `limit` requests at 0 and one at 1. */
  lemma ExactlyOneSecondApart(limit: nat)
    requires limit > 0
    ensures var times := seq(limit, i => 0.0);
      Sorted(times) && RedisAdmits(times, limit, 1.0) && !MemoryAdmits(times, limit, 1.0)
  {
    hide RunScript, AfterAttempts;
    var times := seq(limit, i => 0.0);
    ScriptCountsAttempts(times, 1.0);
    DropAll(times, 0.0);
    ZerosAdmitted(limit, limit);
    CountSuffix(times, 0, 0.0, 1.0);
  }

  lemma {:induction false} ZerosAdmitted(n: nat, limit: nat)
    requires n <= limit
    ensures Admitted(seq(n, i => 0.0), limit) == seq(n, i => 0.0)
  {
    if n > 0 {
      var times := seq(n, i => 0.0);
      assert times[..n - 1] == seq(n - 1, i => 0.0);
      ZerosAdmitted(n - 1, limit);
      CountSuffix(times[..n - 1], 0, -1.0, 0.0);
      assert times[..n - 1] + [0.0] == times;
    }
  }
}
