/** The in-memory sliding window of `RateLimiter`. Moments are reals, in
    seconds; a call is atomic and the clock does not run backwards. */
module RateLimit {
  import opened Wrappers
  import opened Windows

  datatype Key = Key(platform: string, user: string)

  const WINDOW: real := 1.0
  const MAX_BUCKETS: nat := 10000
  const MAX_EVICTIONS: nat := 1000

  /** The limit table; an unknown platform has no limit. */
  function LimitOf(platform: string): Option<nat> {
    if platform in {"telegram", "line", "messenger", "whatsapp", "a2a"} then Some(30)
    else if platform == "web" then Some(10)
    else if platform == "agent" then Some(100)
    else None
  }

  /** What a log of admissions allows: the reference the limiter refines. */
  predicate Admits(log: seq<real>, limit: nat, now: real) {
    CountIn(log, now - WINDOW, now) < limit
  }

  function CountFrom(log: seq<real>, t: real): nat {
    CountIn(log, t, t + WINDOW)
  }

  /** The limiter may have lost admissions of a key: when a live bucket was
      evicted, the last of these moments. */
  type Loss = Option<real>

  predicate Since(lost: Loss, t: real) {
    lost.None? || lost.value < t
  }

  /** The last loss, if any, no longer lies in the window. */
  predicate Recovered(lost: Loss, now: real) {
    Since(lost, now - WINDOW)
  }

  /** No closed one-second interval that begins after the last loss holds more
      than `limit` admissions. */
  ghost predicate WindowBounded(log: seq<real>, limit: nat, lost: Loss) {
    forall t: real | Since(lost, t) :: CountFrom(log, t) <= limit
  }

  /** The bucket is what is left of the log: a suffix of it. */
  ghost predicate SuffixOf(bucket: seq<real>, log: seq<real>) {
    |bucket| <= |log| && bucket == log[|log| - |bucket|..]
  }

  /** What is missing from the bucket has expired or was lost. */
  predicate Missing(t: real, clock: real, lost: Loss) {
    t < clock - WINDOW || !Since(lost, t)
  }

  /** How a bucket relates to the admissions of its key at time `clock`. */
  ghost predicate Tracks(bucket: seq<real>, log: seq<real>, clock: real, limit: Option<nat>, lost: Loss) {
    && Sorted(log) && UpTo(log, clock)
    && SuffixOf(bucket, log)
    && (forall i | 0 <= i < |log| - |bucket| :: Missing(log[i], clock, lost))
    && (limit.Some? ==> |bucket| <= limit.value && WindowBounded(log, limit.value, lost))
  }

  predicate Stale(bucket: seq<real>, windowStart: real) {
    bucket == [] || bucket[|bucket| - 1] < windowStart
  }

  /** The loss after a bucket is deleted: a stale one leaves no trace. */
  function LossOf(bucket: seq<real>, lost: Loss, windowStart: real): Loss {
    if Stale(bucket, windowStart) then lost else Some(bucket[|bucket| - 1])
  }

  /** Beyond its first `n` entries the log has nothing else to count. */
  lemma {:induction false} CountLater(times: seq<real>, n: nat, lo: real, hi: real)
    requires n <= |times| && forall i | 0 <= i < n :: times[i] < lo
    ensures CountIn(times, lo, hi) <= |times| - n
  {
    if times != [] {
      CountLater(times[..|times| - 1], if n == |times| then n - 1 else n, lo, hi);
    }
  }

  /** Admitting to a bucket that is not full keeps every interval within the limit. */
  lemma AdmittingKeepsBound(bucket: seq<real>, log: seq<real>, now: real, limit: nat, lost: Loss)
    requires Tracks(bucket, log, now, Some(limit), lost) && |bucket| < limit
    ensures WindowBounded(log + [now], limit, lost)
  {
    var n := |log| - |bucket|;
    forall t: real | Since(lost, t) ensures CountFrom(log + [now], t) <= limit {
      CountAppend(log, now, t, t + WINDOW);
      assert CountFrom(log, t) <= limit;
      if t <= now <= t + WINDOW {
        assert forall i | 0 <= i < n :: Missing(log[i], now, lost) && log[i] < t;
        CountLater(log, n, t, t + WINDOW);
      }
    }
  }

  /** Time passes, and deleting a bucket is unobservable when it is stale;
      otherwise what was in it is lost. */
  lemma DeleteTracks(bucket: seq<real>, log: seq<real>, clock: real, now: real, limit: Option<nat>, lost: Loss)
    requires Tracks(bucket, log, clock, limit, lost) && now >= clock
    ensures Tracks(bucket, log, now, limit, lost)
    ensures Tracks([], log, now, limit, LossOf(bucket, lost, now - WINDOW))
  {
    assert log[|log|..] == [];
    if bucket != [] {
      var last := bucket[|bucket| - 1];
      assert last == log[|log| - 1];
      assert forall i | 0 <= i < |log| :: log[i] <= last;
      if !Stale(bucket, now - WINDOW) {
        forall t: real | last < t ensures CountFrom(log, t) == 0 {
          CountLater(log, |log|, t, t + WINDOW);
        }
      }
    }
  }

  lemma PopTracks(bucket: seq<real>, log: seq<real>, now: real, limit: Option<nat>, lost: Loss)
    requires Tracks(bucket, log, now, limit, lost) && bucket != [] && bucket[0] < now - WINDOW
    ensures Tracks(bucket[1..], log, now, limit, lost)
  {
    var n := |log| - |bucket|;
    assert bucket[0] == log[n];
    assert bucket[1..] == log[n + 1..];
  }

  /** With its expired entries gone, a bucket is at most as long as the reference
      count, and exactly as long once a loss is out of the window. */
  lemma LengthIsCount(bucket: seq<real>, log: seq<real>, now: real, limit: Option<nat>, lost: Loss)
    requires Tracks(bucket, log, now, limit, lost)
    requires bucket != [] ==> bucket[0] >= now - WINDOW
    ensures |bucket| <= CountIn(log, now - WINDOW, now)
    ensures Recovered(lost, now) ==> |bucket| == CountIn(log, now - WINDOW, now)
  {
    var n := |log| - |bucket|;
    forall i | n <= i < |log| ensures now - WINDOW <= log[i] <= now {
      assert log[i] in log;
      assert bucket[0] == log[n] <= log[i];
    }
    if Recovered(lost, now) {
      CountSuffix(log, n, now - WINDOW, now);
    }
    forall i | 0 <= i < |bucket| ensures now - WINDOW <= bucket[i] <= now {
      assert bucket[i] == log[n + i];
    }
    CountSuffix(bucket, 0, now - WINDOW, now);
    CountDrop(log, n, now - WINDOW, now);
  }

  /** How many admissions of the window are not in a bucket of `kept` entries. */
  function Forgotten(log: seq<real>, kept: nat, now: real): nat {
    if kept <= |log| then CountIn(log[..|log| - kept], now - WINDOW, now) else 0
  }

  /** The decision on a bucket without expired entries is wrong if and only if
      the limit falls among the admissions that were forgotten. */
  lemma DecidesExactly(bucket: seq<real>, log: seq<real>, now: real, limit: nat, lost: Loss)
    requires Tracks(bucket, log, now, Some(limit), lost)
    requires bucket != [] ==> bucket[0] >= now - WINDOW
    ensures
      var kept, forgotten := |bucket|, Forgotten(log, |bucket|, now);
      (kept < limit <==> Admits(log, limit, now)) <==> !(kept < limit <= kept + forgotten)
  {
    var n := |log| - |bucket|;
    assert log == log[..n] + bucket;
    CountConcat(log[..n], bucket, now - WINDOW, now);
    forall i | 0 <= i < |bucket| ensures now - WINDOW <= bucket[i] <= now {
      assert bucket[i] == log[n + i] && log[n + i] in log && bucket[0] == log[n] <= log[n + i];
    }
    CountSuffix(bucket, 0, now - WINDOW, now);
  }

  /** And it can be wrong: `limit` admissions at once fill a bucket; when it is
      evicted at that moment, the next request is admitted all the same. */
  lemma EvictionOverAdmits(limit: nat, now: real)
    requires limit > 0
    ensures
      var log := seq(limit, i => now);
      var lost := LossOf(log, None, now - WINDOW);
      && Tracks(log, log, now, Some(limit), None) && !Stale(log, now - WINDOW)
      && Tracks([], log, now, Some(limit), lost) && LimitForgotten([], log, limit, now) && !Admits(log, limit, now)
  {
    var log := seq(limit, i => now);
    forall t: real ensures CountFrom(log, t) <= limit {
      CountAtMost(log, t, t + WINDOW);
    }
    assert log[|log| - |log|..] == log && log[..|log| - 0] == log;
    assert forall i | 0 <= i < |log| :: log[i] == now;
    assert Tracks(log, log, now, Some(limit), None);
    DeleteTracks(log, log, now, now, Some(limit), None);
    CountSuffix(log, 0, now - WINDOW, now);
  }

  lemma AdmitTracks(bucket: seq<real>, log: seq<real>, now: real, limit: nat, lost: Loss)
    requires Tracks(bucket, log, now, Some(limit), lost) && |bucket| < limit
    ensures Tracks(bucket + [now], log + [now], now, Some(limit), lost)
  {
    var n := |log| - |bucket|;
    assert (log + [now])[n..] == bucket + [now];
    forall i | 0 <= i < |log| ensures log[i] <= now {
      assert log[i] in log;
    }
    AdmittingKeepsBound(bucket, log, now, limit, lost);
  }

  /** How many requests at one moment leave room for another: any number on an
      unknown platform, 29 on the messengers, 9 on the web, 99 for agents. */
  lemma BurstsExactly(platform: string, n: nat, now: real)
    ensures
      var another := LimitOf(platform).Some? ==> Admits(seq(n, i => now), LimitOf(platform).value, now);
      if platform in {"telegram", "line", "messenger", "whatsapp", "a2a"} then another <==> n <= 29
      else if platform == "web" then another <==> n <= 9
      else if platform == "agent" then another <==> n <= 99
      else another
  {
    CountSuffix(seq(n, i => now), 0, now - WINDOW, now);
  }

  lemma AdmitsByCount(log: seq<real>, limit: nat, now: real)
    ensures Admits(log, limit, now) <==> CountIn(log, now - WINDOW, now) < limit
  {
  }

  /** What is left of a bucket when the expired entries at its front are gone. */
  function Recent(bucket: seq<real>, windowStart: real): seq<real> {
    if bucket != [] && bucket[0] < windowStart then Recent(bucket[1..], windowStart) else bucket
  }

  /** The limit falls among the admissions of the last second that are no longer
      in the bucket. */
  predicate LimitForgotten(bucket: seq<real>, log: seq<real>, limit: nat, now: real) {
    var kept := |Recent(bucket, now - WINDOW)|;
    kept < limit <= kept + Forgotten(log, kept, now)
  }

  /** The bucket once the request at `now` has been decided. */
  function Decided(bucket: seq<real>, now: real, allowed: bool): seq<real> {
    var recent := Recent(bucket, now - WINDOW);
    if allowed then recent + [now] else recent
  }

  // ----- all buckets -----

  type Buckets = map<Key, seq<real>>
  type Losses = map<Key, real>

  /** The entry of `k`; absent means empty. */
  function At(m: Buckets, k: Key): seq<real> {
    if k in m then m[k] else []
  }

  function LossAt(lost: Losses, k: Key): Loss {
    if k in lost then Some(lost[k]) else None
  }

  ghost predicate AllTracked(buckets: Buckets, admitted: Buckets, lost: Losses, clock: real) {
    forall k: Key :: TrackedAt(buckets, admitted, lost, clock, k)
  }

  ghost predicate TrackedAt(buckets: Buckets, admitted: Buckets, lost: Losses, clock: real, k: Key) {
    Tracks(At(buckets, k), At(admitted, k), clock, LimitOf(k.platform), LossAt(lost, k))
  }

  /** Only what is recorded for `k` changes. */
  lemma UpdateTracked(buckets: Buckets, admitted: Buckets, lost: Losses, clock: real, k: Key,
                      buckets': Buckets, admitted': Buckets, lost': Losses)
    requires AllTracked(buckets, admitted, lost, clock)
    requires forall x: Key | x != k ::
               && At(buckets', x) == At(buckets, x) && At(admitted', x) == At(admitted, x)
               && LossAt(lost', x) == LossAt(lost, x)
    requires Tracks(At(buckets', k), At(admitted', k), clock, LimitOf(k.platform), LossAt(lost', k))
    ensures AllTracked(buckets', admitted', lost', clock)
  {
    forall x: Key ensures TrackedAt(buckets', admitted', lost', clock, x) {
      assert TrackedAt(buckets, admitted, lost, clock, x);
    }
  }

  lemma TrackedOf(buckets: Buckets, admitted: Buckets, lost: Losses, clock: real, k: Key)
    requires AllTracked(buckets, admitted, lost, clock)
    ensures Tracks(At(buckets, k), At(admitted, k), clock, LimitOf(k.platform), LossAt(lost, k))
  {
    assert TrackedAt(buckets, admitted, lost, clock, k);
  }

  lemma TrackedSorted(buckets: Buckets, admitted: Buckets, lost: Losses, clock: real)
    requires AllTracked(buckets, admitted, lost, clock)
    ensures forall k | k in buckets :: Sorted(buckets[k])
  {
    forall k | k in buckets ensures Sorted(buckets[k]) {
      assert TrackedAt(buckets, admitted, lost, clock, k);
      SuffixSorted(buckets[k], At(admitted, k));
    }
  }

  lemma SuffixSorted(bucket: seq<real>, log: seq<real>)
    requires SuffixOf(bucket, log) && Sorted(log)
    ensures Sorted(bucket)
  {
    var n := |log| - |bucket|;
    assert forall i | 0 <= i < |bucket| :: bucket[i] == log[n + i];
  }

  lemma SetDefaultTracked(buckets: Buckets, admitted: Buckets, lost: Losses, clock: real, k: Key)
    requires AllTracked(buckets, admitted, lost, clock) && k !in buckets
    ensures AllTracked(buckets[k := []], admitted, lost, clock)
  {
    var buckets' := buckets[k := []];
    forall x: Key ensures TrackedAt(buckets', admitted, lost, clock, x) {
      assert TrackedAt(buckets, admitted, lost, clock, x);
      assert At(buckets', x) == At(buckets, x);
    }
  }

  /** The losses after the bucket of `k` was deleted. */
  function Forget(lost: Losses, k: Key, bucket: seq<real>, windowStart: real): Losses {
    if Stale(bucket, windowStart) then lost else lost[k := bucket[|bucket| - 1]]
  }

  lemma DeleteTracked(buckets: Buckets, admitted: Buckets, lost: Losses, clock: real, k: Key)
    requires AllTracked(buckets, admitted, lost, clock) && k in buckets
    ensures AllTracked(buckets - {k}, admitted, Forget(lost, k, buckets[k], clock - WINDOW), clock)
  {
    hide Tracks;
    var lost' := Forget(lost, k, buckets[k], clock - WINDOW);
    TrackedOf(buckets, admitted, lost, clock, k);
    DeleteTracks(buckets[k], At(admitted, k), clock, clock, LimitOf(k.platform), LossAt(lost, k));
    assert forall x: Key | x != k :: At(buckets - {k}, x) == At(buckets, x);
    UpdateTracked(buckets, admitted, lost, clock, k, buckets - {k}, admitted, lost');
  }

  lemma PassTime(buckets: Buckets, admitted: Buckets, lost: Losses, clock: real, now: real)
    requires AllTracked(buckets, admitted, lost, clock) && now >= clock
    ensures AllTracked(buckets, admitted, lost, now)
  {
    hide Tracks;
    forall k: Key ensures TrackedAt(buckets, admitted, lost, now, k) {
      assert TrackedAt(buckets, admitted, lost, clock, k);
      DeleteTracks(At(buckets, k), At(admitted, k), clock, now, LimitOf(k.platform), LossAt(lost, k));
    }
  }

  // ----- making room -----

  function LiveOnes(buckets: Buckets, windowStart: real): Buckets {
    map k | k in buckets && !Stale(buckets[k], windowStart) :: buckets[k]
  }

  /** The last moments of the live buckets among `keys`. */
  ghost function LostWith(buckets: Buckets, keys: set<Key>, windowStart: real): Losses {
    map k | k in keys && k in buckets && !Stale(buckets[k], windowStart) :: buckets[k][|buckets[k]| - 1]
  }

  ghost predicate Evicts(live: Buckets, lost: Losses, windowStart: real, victims: set<Key>,
                         buckets: Buckets, lost': Losses) {
    && victims <= live.Keys && |victims| == |live| - MAX_BUCKETS
    && buckets == live - victims && lost' == lost + LostWith(live, victims, windowStart)
  }

  /** What the sweep and the eviction do: nothing while there are few buckets;
      otherwise the stale ones go, and of the live ones only as many as are
      still too many. */
  ghost predicate RoomMade(before: Buckets, lost: Losses, windowStart: real, room: Buckets, lost': Losses) {
    var live := LiveOnes(before, windowStart);
    if |before| <= MAX_BUCKETS then room == before && lost' == lost
    else if |live| <= MAX_BUCKETS then room == live && lost' == lost
    else exists victims :: Evicts(live, lost, windowStart, victims, room, lost')
  }

  /** The keys with an admission at or after `windowStart` in their bucket. */
  ghost function InWindow(buckets: Buckets, windowStart: real): set<Key> {
    set k | k in buckets && exists t :: t in buckets[k] && t >= windowStart
  }

  /** A key loses admissions only with its bucket, which is then gone and ended
      in the window; only when too many buckets have an entry in the window; and
      at most one key at a time. When there are too many buckets, those that
      stay are from before and end in the window, and all of them stay if they
      are not too many themselves. */
  ghost predicate LossesExplained(before: Buckets, lost: Losses, windowStart: real, room: Buckets, lost': Losses) {
    && (forall x | LossAt(lost', x) != LossAt(lost, x) ::
          && x in before && x !in room && before[x] != []
          && before[x][|before[x]| - 1] >= windowStart && LossAt(lost', x) == Some(before[x][|before[x]| - 1]))
    && (forall x, y | LossAt(lost', x) != LossAt(lost, x) && LossAt(lost', y) != LossAt(lost, y) :: x == y)
    && (|before| > MAX_BUCKETS ==> OnlyInWindow(before, windowStart, room))
    && (|before| <= MAX_BUCKETS ==> room == before && lost' == lost)
    && (|before| > MAX_BUCKETS && |InWindow(before, windowStart)| <= MAX_BUCKETS ==>
          lost' == lost && room.Keys == InWindow(before, windowStart))
  }

  ghost predicate OnlyInWindow(before: Buckets, windowStart: real, room: Buckets) {
    forall x | x in room ::
      x in before && room[x] == before[x] && room[x] != [] && room[x][|room[x]| - 1] >= windowStart
  }

  /** In buckets whose entries are in order the keys with an entry in the window
      are those whose last entry is. */
  lemma LiveInWindow(buckets: Buckets, windowStart: real)
    requires forall k | k in buckets :: Sorted(buckets[k])
    ensures InWindow(buckets, windowStart) == LiveOnes(buckets, windowStart).Keys
  {
    forall k | k in buckets ensures !Stale(buckets[k], windowStart) <==> exists t :: t in buckets[k] && t >= windowStart {
      var b := buckets[k];
      if t :| t in b && t >= windowStart {
        var i :| 0 <= i < |b| && b[i] == t;
        assert b[i] <= b[|b| - 1];
      }
      assert b != [] ==> b[|b| - 1] in b;
    }
  }

  lemma RoomInWindow(before: Buckets, lost: Losses, windowStart: real, room: Buckets, lost': Losses)
    requires RoomMade(before, lost, windowStart, room, lost') && |before| > MAX_BUCKETS
    ensures OnlyInWindow(before, windowStart, room)
  {
  }

  lemma RoomExplained(before: Buckets, lost: Losses, windowStart: real, room: Buckets, lost': Losses)
    requires RoomMade(before, lost, windowStart, room, lost') && |before| <= MAX_BUCKETS + 1
    requires forall k | k in before :: Sorted(before[k])
    ensures LossesExplained(before, lost, windowStart, room, lost')
  {
    hide InWindow, OnlyInWindow, LiveOnes, Sorted, Evicts, LossAt;
    if |before| > MAX_BUCKETS {
      var live := LiveOnes(before, windowStart);
      RoomInWindow(before, lost, windowStart, room, lost');
      LiveInWindow(before, windowStart);
      SetSize(live);
      if |live| > MAX_BUCKETS {
        var victims :| Evicts(live, lost, windowStart, victims, room, lost');
        LiveSize(before, windowStart);
        EvictionExplained(before, lost, windowStart, victims, room, lost');
      }
    }
  }

  lemma SetSize<K, V>(m: map<K, V>)
    ensures |m.Keys| == |m|
  {
  }

  lemma LiveSize(before: Buckets, windowStart: real)
    ensures |LiveOnes(before, windowStart)| <= |before|
  {
    var live := LiveOnes(before, windowStart);
    SubsetSize(live.Keys, before.Keys);
    assert |live.Keys| == |live| && |before.Keys| == |before|;
  }

  lemma EvictionExplained(before: Buckets, lost: Losses, windowStart: real, victims: set<Key>, room: Buckets, lost': Losses)
    requires Evicts(LiveOnes(before, windowStart), lost, windowStart, victims, room, lost')
    requires |LiveOnes(before, windowStart)| <= MAX_BUCKETS + 1
    ensures forall x | LossAt(lost', x) != LossAt(lost, x) ::
              && x in before && x !in room && before[x] != []
              && before[x][|before[x]| - 1] >= windowStart && LossAt(lost', x) == Some(before[x][|before[x]| - 1])
    ensures forall x, y | LossAt(lost', x) != LossAt(lost, x) && LossAt(lost', y) != LossAt(lost, y) :: x == y
  {
    hide LostWith, LossAt;
    var live := LiveOnes(before, windowStart);
    forall x | LossAt(lost', x) != LossAt(lost, x)
      ensures x in victims && x in before && x !in room && before[x] != []
      ensures before[x][|before[x]| - 1] >= windowStart && LossAt(lost', x) == Some(before[x][|before[x]| - 1])
    {
      VictimLoss(live, lost, windowStart, victims, x);
    }
    forall x, y | x in victims && y in victims ensures x == y {
      OneElement(victims, x, y);
    }
  }

  lemma VictimLoss(live: Buckets, lost: Losses, windowStart: real, victims: set<Key>, x: Key)
    requires victims <= live.Keys && LossAt(lost + LostWith(live, victims, windowStart), x) != LossAt(lost, x)
    ensures x in victims && live[x] != []
    ensures LossAt(lost + LostWith(live, victims, windowStart), x) == Some(live[x][|live[x]| - 1])
  {
  }

  lemma OneElement<T>(s: set<T>, x: T, y: T)
    requires |s| <= 1 && x in s && y in s
    ensures x == y
  {
    if x != y {
      SubsetSize({x, y}, s);
    }
  }

  lemma SweptIsLive(buckets: Buckets, stale: set<Key>, windowStart: real)
    requires stale == set k | k in buckets && Stale(buckets[k], windowStart)
    ensures buckets - stale == LiveOnes(buckets, windowStart)
    ensures LostWith(buckets, stale, windowStart) == map[]
    ensures LiveOnes(buckets - stale, windowStart) == buckets - stale
  {
    hide Stale;
  }

  lemma LostNone(buckets: Buckets, keys: set<Key>, windowStart: real, lost: Losses)
    ensures lost + LostWith(buckets, keys - keys, windowStart) == lost && buckets - (keys - keys) == buckets
  {
  }

  lemma LostStep(buckets: Buckets, keys: set<Key>, todo: set<Key>, k: Key, windowStart: real, lost: Losses)
    requires k in todo && k in buckets && todo <= keys
    ensures lost + LostWith(buckets, keys - (todo - {k}), windowStart)
         == Forget(lost + LostWith(buckets, keys - todo, windowStart), k, buckets[k], windowStart)
    ensures buckets - (keys - (todo - {k})) == buckets - (keys - todo) - {k}
  {
    var done, more := LostWith(buckets, keys - todo, windowStart), LostWith(buckets, keys - (todo - {k}), windowStart);
    assert more == if Stale(buckets[k], windowStart) then done else done[k := buckets[k][|buckets[k]| - 1]];
  }

  lemma MapSize<K, V>(m: map<K, V>, keys: set<K>)
    requires keys <= m.Keys
    ensures |m - keys| == |m| - |keys|
  {
    assert (m - keys).Keys == m.Keys - keys;
    assert |m.Keys| == |m| && |(m - keys).Keys| == |m - keys|;
  }

  lemma AddSize<K, V>(m: map<K, V>, k: K, v: V)
    requires k !in m
    ensures |m[k := v]| == |m| + 1
  {
    assert m[k := v].Keys == m.Keys + {k};
    assert |m[k := v]| == |m[k := v].Keys| && |m| == |m.Keys|;
  }

  lemma SameSize<K, V>(m: map<K, V>, n: map<K, V>)
    requires m.Keys == n.Keys
    ensures |n| == |m|
  {
    assert |n| == |n.Keys| && |m| == |m.Keys|;
  }

  lemma SubsetSize<T>(a: set<T>, b: set<T>)
    requires a <= b
    ensures |a| <= |b|
  {
    if a != {} {
      var x :| x in a;
      SubsetSize(a - {x}, b - {x});
    }
  }

  lemma SampleExists<T>(s: set<T>, n: nat)
    requires n <= |s|
    ensures exists r :: r <= s && |r| == n
  {
    if n == |s| {
      assert s <= s;
    } else {
      var x :| x in s;
      SampleExists(s - {x}, n);
      var r :| r <= s - {x} && |r| == n;
      assert r <= s;
    }
  }

  class RateLimiter {
    var buckets: Buckets
    ghost var admitted: Buckets   // every admission so far
    ghost var lost: Losses        // for the keys that ever lost a live bucket, what was last in it
    ghost var clock: real

    ghost predicate Valid()
      reads this
    {
      AllTracked(buckets, admitted, lost, clock) && |buckets| <= MAX_BUCKETS + 1
    }

    constructor ()
      ensures Valid() && buckets == map[] && admitted == map[] && lost == map[]
    {
      buckets, admitted, lost, clock := map[], map[], map[], 0.0;
    }

    /** `allow` without a Redis client. `room` is what was there once room had
        been made. */
    method Allow(k: Key, now: real) returns (allowed: bool, ghost room: Buckets)
      requires Valid() && now >= clock
      modifies this
      ensures Valid()
      ensures LimitOf(k.platform) == None ==>
                allowed && admitted == old(admitted) && lost == old(lost) && buckets == old(buckets)
      ensures LimitOf(k.platform).Some? ==>
                var limit, log := LimitOf(k.platform).value, At(old(admitted), k);
                && clock == now
                && admitted == (if allowed then old(admitted)[k := log + [now]] else old(admitted))
                && (Recovered(LossAt(lost, k), now) ==> (allowed <==> Admits(log, limit, now)))
                && (!allowed ==> !Admits(log, limit, now))
                && (allowed <==> |Recent(At(room, k), now - WINDOW)| < limit)
                && ((allowed <==> Admits(log, limit, now)) <==> !LimitForgotten(At(room, k), log, limit, now))
                && RoomMade(old(buckets), old(lost), now - WINDOW, room, lost)
                && LossesExplained(old(buckets), old(lost), now - WINDOW, room, lost)
                && buckets == room[k := Decided(At(room, k), now, allowed)]
    {
      room := buckets;
      match LimitOf(k.platform)
      case None => allowed := true;
      case Some(limit) => allowed, room := InMemoryCheck(k, limit, now);
    }

    /** `_in_memory_check`: a denial is always right, and unless the key lost
        admissions within the last second an admission is right too. */
    method InMemoryCheck(k: Key, limit: nat, now: real) returns (allowed: bool, ghost room: Buckets)
      requires Valid() && now >= clock && LimitOf(k.platform) == Some(limit)
      modifies this
      ensures Valid() && clock == now
      ensures admitted == (if allowed then old(admitted)[k := At(old(admitted), k) + [now]] else old(admitted))
      ensures Recovered(LossAt(lost, k), now) ==> (allowed <==> Admits(At(old(admitted), k), limit, now))
      ensures !allowed ==> !Admits(At(old(admitted), k), limit, now)
      ensures allowed <==> |Recent(At(room, k), now - WINDOW)| < limit
      ensures (allowed <==> Admits(At(old(admitted), k), limit, now))
         <==> !LimitForgotten(At(room, k), At(old(admitted), k), limit, now)
      ensures RoomMade(old(buckets), old(lost), now - WINDOW, room, lost)
      ensures LossesExplained(old(buckets), old(lost), now - WINDOW, room, lost)
      ensures buckets == room[k := Decided(At(room, k), now, allowed)]
    {
      hide AllTracked, Tracks, RoomMade, LossesExplained, Admits, LimitOf, Recent;
      ghost var log := At(admitted, k);
      room := Prepare(k, now);
      TrackedOf(buckets, admitted, lost, clock, k);
      RecentStart(At(room, k), now - WINDOW);
      LengthIsCount(buckets[k], log, now, Some(limit), LossAt(lost, k));
      AdmitsByCount(log, limit, now);
      DecidesExactly(buckets[k], log, now, limit, LossAt(lost, k));
      if |buckets[k]| >= limit {
        allowed := false;
        return;
      }
      AdmitTracks(buckets[k], log, now, limit, LossAt(lost, k));
      Admit(k, now);
      allowed := true;
    }

    /** What comes before the decision: make room, and drop what has expired
        from the bucket of `k`. */
    method Prepare(k: Key, now: real) returns (ghost room: Buckets)
      requires Valid() && now >= clock
      modifies this`buckets, this`lost, this`clock
      ensures Valid() && clock == now
      ensures RoomMade(old(buckets), old(lost), now - WINDOW, room, lost)
      ensures LossesExplained(old(buckets), old(lost), now - WINDOW, room, lost)
      ensures buckets == room[k := Recent(At(room, k), now - WINDOW)]
    {
      hide AllTracked, Tracks, RoomMade, LossesExplained;
      var windowStart := now - WINDOW;
      PassTime(buckets, admitted, lost, clock, now);
      clock := now;
      MakeRoom(windowStart);
      room := buckets;
      if k !in buckets {
        SetDefault(k);
      }
      Expire(k, windowStart);
    }

    /** The loop that drops what has aged out of the window. */
    method Expire(k: Key, windowStart: real)
      requires Valid() && k in buckets && windowStart == clock - WINDOW
      modifies this`buckets
      ensures Valid() && buckets == old(buckets)[k := Recent(old(buckets)[k], windowStart)]
    {
      hide AllTracked, Tracks;
      while buckets[k] != [] && buckets[k][0] < windowStart
        invariant Valid() && k in buckets && buckets == old(buckets)[k := buckets[k]]
        invariant Recent(buckets[k], windowStart) == Recent(old(buckets)[k], windowStart)
        decreases |buckets[k]|
      {
        TrackedOf(buckets, admitted, lost, clock, k);
        PopTracks(buckets[k], At(admitted, k), clock, LimitOf(k.platform), LossAt(lost, k));
        Store(k, buckets[k][1..]);
      }
    }

    /** `setdefault` on a key without a bucket. */
    method SetDefault(k: Key)
      requires Valid() && k !in buckets && |buckets| <= MAX_BUCKETS
      modifies this`buckets
      ensures Valid() && buckets == old(buckets)[k := []]
    {
      hide AllTracked;
      SetDefaultTracked(buckets, admitted, lost, clock, k);
      AddSize(buckets, k, []);
      buckets := buckets[k := []];
    }

    /** The bucket of `k` is changed in place. */
    method Store(k: Key, bucket: seq<real>)
      requires Valid() && k in buckets
      requires Tracks(bucket, At(admitted, k), clock, LimitOf(k.platform), LossAt(lost, k))
      modifies this`buckets
      ensures Valid() && buckets == old(buckets)[k := bucket]
    {
      hide AllTracked, Tracks;
      ghost var before := buckets;
      buckets := buckets[k := bucket];
      UpdateTracked(before, admitted, lost, clock, k, buckets, admitted, lost);
      SameSize(before, buckets);
    }

    /** `bucket.append(now)`. */
    method Admit(k: Key, now: real)
      requires Valid() && k in buckets
      requires Tracks(buckets[k] + [now], At(admitted, k) + [now], clock, LimitOf(k.platform), LossAt(lost, k))
      modifies this`buckets, this`admitted
      ensures Valid() && buckets == old(buckets)[k := old(buckets)[k] + [now]]
      ensures admitted == old(admitted)[k := At(old(admitted), k) + [now]]
    {
      hide AllTracked, Tracks;
      ghost var before, log := buckets, admitted;
      buckets := buckets[k := buckets[k] + [now]];
      admitted := admitted[k := At(admitted, k) + [now]];
      UpdateTracked(before, log, lost, clock, k, buckets, admitted, lost);
      SameSize(before, buckets);
    }

    /** The sweep and the eviction that run when there are too many buckets. */
    method MakeRoom(windowStart: real)
      requires Valid() && windowStart == clock - WINDOW
      modifies this`buckets, this`lost
      ensures Valid() && |buckets| <= MAX_BUCKETS
      ensures RoomMade(old(buckets), old(lost), windowStart, buckets, lost)
      ensures LossesExplained(old(buckets), old(lost), windowStart, buckets, lost)
    {
      hide AllTracked, Stale, LossesExplained;
      if |buckets| > MAX_BUCKETS {
        var emptyKeys := set k | k in buckets && Stale(buckets[k], windowStart);
        ghost var before := buckets;
        DeleteBuckets(emptyKeys, windowStart);
        SweptIsLive(before, emptyKeys, windowStart);
        assert lost == old(lost);
        if |buckets| > MAX_BUCKETS {
          Evict(windowStart);
        }
      }
      TrackedSorted(old(buckets), admitted, old(lost), clock);
      RoomExplained(old(buckets), old(lost), windowStart, buckets, lost);
    }

    /** The eviction: a random sample of live buckets. */
    method Evict(windowStart: real)
      requires Valid() && windowStart == clock - WINDOW && |buckets| > MAX_BUCKETS
      modifies this`buckets, this`lost
      ensures Valid() && |buckets| <= MAX_BUCKETS
      ensures exists victims :: Evicts(old(buckets), old(lost), windowStart, victims, buckets, lost)
    {
      hide AllTracked, Stale, LostWith;
      ghost var live, gone := buckets, lost;
      var excess := |buckets| - MAX_BUCKETS;
      var evictCount := if excess < MAX_EVICTIONS then excess else MAX_EVICTIONS;
      assert |buckets| == |buckets.Keys|;
      SampleExists(buckets.Keys, evictCount);
      var keysToDelete :| keysToDelete <= buckets.Keys && |keysToDelete| == evictCount;
      DeleteBuckets(keysToDelete, windowStart);
      assert Evicts(live, gone, windowStart, keysToDelete, buckets, lost);
    }

    /** `for k in keys: del self._buckets[k]`. */
    method DeleteBuckets(keys: set<Key>, ghost windowStart: real)
      requires Valid() && windowStart == clock - WINDOW && keys <= buckets.Keys
      modifies this`buckets, this`lost
      ensures Valid() && buckets == old(buckets) - keys && |buckets| == |old(buckets)| - |keys|
      ensures lost == old(lost) + LostWith(old(buckets), keys, windowStart)
    {
      hide AllTracked, Stale, LostWith, Forget;
      var todo := keys;
      ghost var start, gone := buckets, lost;
      LostNone(start, keys, windowStart, gone);
      while todo != {}
        invariant todo <= keys && AllTracked(buckets, admitted, lost, clock)
        invariant buckets == start - (keys - todo)
        invariant lost == gone + LostWith(start, keys - todo, windowStart)
      {
        var k :| k in todo;
        assert k in buckets && buckets[k] == start[k];
        DeleteBucket(k, windowStart);
        LostStep(start, keys, todo, k, windowStart, gone);
        todo := todo - {k};
      }
      assert keys - todo == keys;
      MapSize(start, keys);
    }

    method DeleteBucket(k: Key, ghost windowStart: real)
      requires AllTracked(buckets, admitted, lost, clock) && windowStart == clock - WINDOW && k in buckets
      modifies this`buckets, this`lost
      ensures AllTracked(buckets, admitted, lost, clock)
      ensures buckets == old(buckets) - {k}
      ensures lost == Forget(old(lost), k, old(buckets)[k], windowStart)
    {
      hide AllTracked, Forget;
      DeleteTracked(buckets, admitted, lost, clock, k);
      lost := Forget(lost, k, buckets[k], windowStart);
      buckets := buckets - {k};
    }
  }

  lemma {:induction false} RecentStart(bucket: seq<real>, windowStart: real)
    ensures var r := Recent(bucket, windowStart); r != [] ==> r[0] >= windowStart
  {
    if bucket != [] && bucket[0] < windowStart {
      RecentStart(bucket[1..], windowStart);
    }
  }
}
