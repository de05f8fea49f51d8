/** Deterministic routing of users to experiment variants. Weights are reals. */
module AbRouting {
  import opened Wrappers

  const BUCKETS: nat := 100

  /** A weight as it was declared: a number, a text with the number that
      Python's `float` reads from it, if any, or something else. */
  datatype Weight = Number(value: real) | Text(read: Option<real>) | NotNumber

  /** A split is a dictionary in declaration order. */
  type Split = seq<(string, Weight)>

  /** What a weight contributes; malformed ones are skipped. */
  function Share(w: Weight): (r: real)
    ensures r >= 0.0
  {
    if w.Number? && w.value >= 0.0 then w.value else 0.0
  }

  /** The cumulative bound below variant i. */
  function Bound(split: Split, i: nat): (r: real)
    requires i <= |split|
    ensures r >= 0.0
  {
    if i == 0 then 0.0 else Bound(split, i - 1) + Share(split[i - 1].1)
  }

  /** The variants whose range of buckets holds `b`. */
  predicate InRange(split: Split, i: nat, b: nat)
    requires i < |split|
  {
    Bound(split, i) <= b as real < Bound(split, i + 1)
  }

  /** `_route_bucket`; `None` is the control fallback. */
  method RouteBucket(bucket: nat, split: Split) returns (variant: Option<nat>)
    ensures variant.Some? ==> variant.value < |split| && InRange(split, variant.value, bucket)
    ensures variant.None? <==> bucket as real >= Bound(split, |split|)
    ensures variant == Route(bucket, split)
  {
    var cumulative := 0.0;
    var i := 0;
    while i < |split|
      invariant i <= |split| && cumulative == Bound(split, i) && bucket as real >= cumulative
      invariant Route(bucket, split) == RouteFrom(bucket, split, i)
    {
      var weight := split[i].1;
      if weight.Number? && weight.value >= 0.0 {
        cumulative := cumulative + weight.value;
        if bucket as real < cumulative {
          BoundsGrow(split, i + 1, |split|);
          return Some(i);
        }
      }
      i := i + 1;
    }
    variant := None;
  }

  /** The first variant from i on whose range holds the bucket. */
  function RouteFrom(bucket: nat, split: Split, i: nat): (v: Option<nat>)
    requires i <= |split|
    ensures v.Some? ==> i <= v.value < |split|
    decreases |split| - i
  {
    if i == |split| then None else if InRange(split, i, bucket) then Some(i) else RouteFrom(bucket, split, i + 1)
  }

  function Route(bucket: nat, split: Split): Option<nat> {
    RouteFrom(bucket, split, 0)
  }

  lemma {:induction false} BoundsGrow(split: Split, i: nat, j: nat)
    requires i <= j <= |split|
    ensures Bound(split, i) <= Bound(split, j)
  {
    if i < j {
      BoundsGrow(split, i, j - 1);
    }
  }

  /** A bucket goes to variant i exactly when it is in its range. */
  lemma {:induction false} RouteExactly(bucket: nat, split: Split, i: nat, from: nat)
    requires from <= i < |split|
    ensures RouteFrom(bucket, split, from) == Some(i) <==> InRange(split, i, bucket)
    decreases i - from
  {
    BoundsGrow(split, from, i);
    if from < i {
      BoundsGrow(split, from + 1, i);
      RouteExactly(bucket, split, i, from + 1);
    } else if !InRange(split, i, bucket) {
      assert RouteFrom(bucket, split, from) == RouteFrom(bucket, split, i + 1);
    }
  }

  // ----- how many buckets a variant gets -----

  function Ceil(x: real): int {
    -((-x).Floor)
  }

  lemma CeilBound(x: real, b: int)
    ensures (b as real) < x <==> b < Ceil(x)
  {
  }

  function Cap(x: real): real {
    if x <= BUCKETS as real then x else BUCKETS as real
  }

  /** How many of the buckets below `n` go to `variant`. */
  function Count(split: Split, variant: Option<nat>, n: nat): nat {
    if n == 0 then 0 else Count(split, variant, n - 1) + if Route(n - 1, split) == variant then 1 else 0
  }

  function Clip(x: int, n: nat): int {
    if x < 0 then 0 else if x > n then n else x
  }

  lemma {:induction false} CountVariant(split: Split, i: nat, n: nat)
    requires i < |split|
    ensures Count(split, Some(i), n) == Clip(Ceil(Bound(split, i + 1)), n) - Clip(Ceil(Bound(split, i)), n)
  {
    BoundsGrow(split, i, i + 1);
    CeilGrows(Bound(split, i), Bound(split, i + 1));
    if n > 0 {
      CountVariant(split, i, n - 1);
      RouteExactly(n - 1, split, i, 0);
      CeilBound(Bound(split, i), n - 1);
      CeilBound(Bound(split, i + 1), n - 1);
    }
  }

  lemma CeilGrows(x: real, y: real)
    requires 0.0 <= x <= y
    ensures 0 <= Ceil(x) <= Ceil(y)
  {
  }

  lemma ClipIsCap(x: real)
    requires x >= 0.0
    ensures Clip(Ceil(x), BUCKETS) == Ceil(Cap(x))
  {
    CeilGrows(0.0, x);
  }

  /** The buckets of a variant: rounded-up bounds, cut off at 100. */
  lemma VariantBuckets(split: Split, i: nat)
    requires i < |split|
    ensures Count(split, Some(i), BUCKETS) == Ceil(Cap(Bound(split, i + 1))) - Ceil(Cap(Bound(split, i)))
  {
    CountVariant(split, i, BUCKETS);
    ClipIsCap(Bound(split, i));
    ClipIsCap(Bound(split, i + 1));
  }

  /** No variant's range holds a bucket exactly when it is past the last bound. */
  lemma {:induction false} FallbackExactly(bucket: nat, split: Split, i: nat)
    requires i <= |split| && Bound(split, i) <= bucket as real
    ensures RouteFrom(bucket, split, i) == None <==> bucket as real >= Bound(split, |split|)
    decreases |split| - i
  {
    if i < |split| {
      BoundsGrow(split, i + 1, |split|);
      if Bound(split, i + 1) <= bucket as real {
        FallbackExactly(bucket, split, i + 1);
      }
    }
  }

  lemma {:induction false} CountFallback(split: Split, n: nat)
    ensures Count(split, None, n) == n - Clip(Ceil(Bound(split, |split|)), n)
  {
    CeilGrows(0.0, Bound(split, |split|));
    if n > 0 {
      CountFallback(split, n - 1);
      FallbackExactly(n - 1, split, 0);
      CeilBound(Bound(split, |split|), n - 1);
    }
  }

  /** Everything else falls back to control. */
  lemma FallbackBuckets(split: Split)
    ensures Count(split, None, BUCKETS) == BUCKETS - Ceil(Cap(Bound(split, |split|)))
  {
    CountFallback(split, BUCKETS);
    ClipIsCap(Bound(split, |split|));
  }

  /** Whole, non-negative percentages. */
  ghost predicate Percentages(split: Split) {
    forall i | 0 <= i < |split| :: IsPercentage(split[i].1)
  }

  predicate IsPercentage(w: Weight) {
    w.Number? && w.value >= 0.0 && IsWhole(w.value)
  }

  predicate IsWhole(x: real) {
    x.Floor as real == x
  }

  lemma WholeSum(x: real, y: real)
    requires IsWhole(x) && IsWhole(y)
    ensures IsWhole(x + y)
  {
    var m, n := x.Floor, y.Floor;
    assert x + y == (m + n) as real;
  }

  lemma WholeCeil(x: real)
    requires IsWhole(x)
    ensures Ceil(x) as real == x
  {
    hide Ceil;
    CeilBound(x, x.Floor);
    CeilBound(x, x.Floor - 1);
  }

  lemma {:induction false} WholeBounds(split: Split, i: nat)
    requires Percentages(split) && i <= |split|
    ensures IsWhole(Bound(split, i))
  {
    hide IsWhole;
    if i == 0 {
      WholeZero();
    } else {
      WholeBounds(split, i - 1);
      assert IsPercentage(split[i - 1].1);
      WholeSum(Bound(split, i - 1), split[i - 1].1.value);
    }
  }

  lemma WholeZero()
    ensures IsWhole(0.0)
  {
  }

  /** Percentages that add up to 100 are honoured exactly. */
  lemma PercentagesHonoured(split: Split, i: nat)
    requires Percentages(split) && Bound(split, |split|) == 100.0 && i < |split|
    ensures Count(split, Some(i), BUCKETS) as real == split[i].1.value
    ensures Count(split, None, BUCKETS) == 0
  {
    hide Ceil, IsWhole, Count;
    VariantBuckets(split, i);
    FallbackBuckets(split);
    BoundsGrow(split, i, i + 1);
    BoundsGrow(split, i + 1, |split|);
    WholeBounds(split, i);
    WholeBounds(split, i + 1);
    WholeBounds(split, |split|);
    WholeCeil(Bound(split, i));
    WholeCeil(Bound(split, i + 1));
    WholeCeil(Bound(split, |split|));
    assert IsPercentage(split[i].1);
  }

  /** `float(v)`; `None` is the error it raises. */
  function Float(w: Weight): Option<real> {
    match w
    case Number(v) => Some(v)
    case Text(read) => read
    case NotNumber => None
  }

  /** `create_experiment_via_manager`, the check on the split: all weights read
      as numbers, and these add up to 1, give or take a millionth. */
  predicate FactoryAccepts(split: Split) {
    && (forall i | 0 <= i < |split| :: Float(split[i].1).Some?)
    && -0.000001 <= Total(split, |split|) - 1.0 <= 0.000001
  }

  function Total(split: Split, i: nat): real
    requires i <= |split|
  {
    if i == 0 then 0.0
    else Total(split, i - 1) + match Float(split[i - 1].1) { case Some(v) => v case None => 0.0 }
  }

  ghost predicate NonNegative(split: Split) {
    forall i | 0 <= i < |split| :: Float(split[i].1).Some? ==> Float(split[i].1).value >= 0.0
  }

  /** The router sees at most what the factory added up: it skips texts. */
  lemma {:induction false} BoundWithinTotal(split: Split, i: nat)
    requires i <= |split| && NonNegative(split)
    ensures Bound(split, i) <= Total(split, i)
    ensures (forall k | 0 <= k < i :: split[k].1.Number?) ==> Bound(split, i) == Total(split, i)
  {
    if i > 0 {
      BoundWithinTotal(split, i - 1);
      assert Float(split[i - 1].1).Some? ==> Float(split[i - 1].1).value >= 0.0;
    }
  }

  /** What the factory accepts are fractions, what the router reads are
      percentages. Of an accepted split, all buckets beyond the numbers among
      its weights that are not negative fall back to control. Without negative
      weights these are 99; 98 when the numbers add up to more than 1; and all
      100 when they add up to nothing, because the shares are in texts, which
      the router skips. */
  lemma AcceptedSplitsFallBack(split: Split)
    requires FactoryAccepts(split)
    ensures
      var routed, fallback := Bound(split, |split|), Count(split, None, BUCKETS);
      && fallback == BUCKETS - Ceil(Cap(routed))
      && (NonNegative(split) ==> fallback == if routed == 0.0 then 100 else if routed <= 1.0 then 99 else 98)
  {
    FallbackBuckets(split);
    if NonNegative(split) {
      BoundWithinTotal(split, |split|);
    }
  }

  /** A negative weight, which the factory adds and the router skips, can turn
      this around: all buckets go to one variant. */
  lemma NegativeWeight()
    ensures
      var split := [("a", Number(-99.0)), ("b", Number(100.0))];
      FactoryAccepts(split) && Count(split, Some(1), BUCKETS) == BUCKETS && Count(split, None, BUCKETS) == 0
  {
    var split := [("a", Number(-99.0)), ("b", Number(100.0))];
    assert Bound(split, 0) == 0.0 && Bound(split, 1) == 0.0 && Bound(split, 2) == 100.0;
    assert Total(split, 0) == 0.0 && Total(split, 1) == -99.0 && Total(split, 2) == 1.0;
    hide Ceil, Count, Bound, Total;
    VariantBuckets(split, 1);
    FallbackBuckets(split);
    WholeCeil(100.0);
    WholeCeil(0.0);
  }
}
