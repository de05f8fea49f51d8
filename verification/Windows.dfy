/** Counting moments in a window of time. */
module Windows {

  /** Number of entries of `times` in the closed interval [lo, hi]. */
  function CountIn(times: seq<real>, lo: real, hi: real): nat {
    if times == [] then 0
    else CountIn(times[..|times| - 1], lo, hi) + if lo <= times[|times| - 1] <= hi then 1 else 0
  }

  /** The positions counted. */
  ghost function Inside(times: seq<real>, lo: real, hi: real): set<nat> {
    set i: nat | i < |times| && lo <= times[i] <= hi
  }

  lemma {:induction false} CountIsInside(times: seq<real>, lo: real, hi: real)
    ensures CountIn(times, lo, hi) == |Inside(times, lo, hi)|
  {
    if times != [] {
      var n, init := |times| - 1, times[..|times| - 1];
      CountIsInside(init, lo, hi);
      assert Inside(times, lo, hi) == Inside(init, lo, hi) + if lo <= times[n] <= hi then {n} else {};
    }
  }

  ghost predicate Sorted(times: seq<real>) {
    forall i, j | 0 <= i <= j < |times| :: times[i] <= times[j]
  }

  ghost predicate UpTo(times: seq<real>, now: real) {
    forall t | t in times :: t <= now
  }

  lemma CountAppend(times: seq<real>, t: real, lo: real, hi: real)
    ensures CountIn(times + [t], lo, hi) == CountIn(times, lo, hi) + if lo <= t <= hi then 1 else 0
  {
    assert (times + [t])[..|times|] == times;
  }

  /** Among moments up to `now`, only the lower end matters, and raising it counts fewer. */
  lemma {:induction false} CountWider(times: seq<real>, lo: real, hi: real, lo': real, hi': real)
    requires lo' <= lo && forall t | t in times && lo <= t <= hi :: t <= hi'
    ensures CountIn(times, lo, hi) <= CountIn(times, lo', hi')
  {
    if times != [] {
      assert times[|times| - 1] in times;
      var init := times[..|times| - 1];
      forall t | t in init && lo <= t <= hi ensures t <= hi' {
        assert t in times;
      }
      CountWider(init, lo, hi, lo', hi');
    }
  }

  /** Entries before the window do not count, entries inside all do. */
  lemma {:induction false} CountSuffix(times: seq<real>, n: nat, lo: real, hi: real)
    requires n <= |times|
    requires forall i | 0 <= i < n :: times[i] < lo
    requires forall i | n <= i < |times| :: lo <= times[i] <= hi
    ensures CountIn(times, lo, hi) == |times| - n
  {
    if times != [] {
      var init := times[..|times| - 1];
      if n == |times| {
        CountSuffix(init, n - 1, lo, hi);
      } else {
        CountSuffix(init, n, lo, hi);
      }
    }
  }

  lemma {:induction false} CountAtMost(times: seq<real>, lo: real, hi: real)
    ensures CountIn(times, lo, hi) <= |times|
  {
    if times != [] {
      CountAtMost(times[..|times| - 1], lo, hi);
    }
  }

  lemma {:induction false} CountConcat(a: seq<real>, b: seq<real>, lo: real, hi: real)
    ensures CountIn(a + b, lo, hi) == CountIn(a, lo, hi) + CountIn(b, lo, hi)
  {
    if b == [] {
      assert a + b == a;
    } else {
      assert (a + b)[..|a + b| - 1] == a + b[..|b| - 1];
      CountConcat(a, b[..|b| - 1], lo, hi);
    }
  }

  /** Dropping a prefix never counts more. */
  lemma {:induction false} CountDrop(times: seq<real>, n: nat, lo: real, hi: real)
    requires n <= |times|
    ensures CountIn(times[n..], lo, hi) <= CountIn(times, lo, hi)
  {
    if n < |times| {
      assert times[n..][..|times| - n - 1] == times[..|times| - 1][n..];
      CountDrop(times[..|times| - 1], n, lo, hi);
    }
  }
}
