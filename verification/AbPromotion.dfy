/** Promoting the leading variant of an experiment. Metrics are reals. */
module AbPromotion {
  import opened Wrappers

  const MIN_SAMPLE: nat := 100
  const THRESHOLD: real := 0.05

  datatype Mean = Mean(variant: string, value: real)

  function Sum(scores: seq<real>): real {
    if scores == [] then 0.0 else Sum(scores[..|scores| - 1]) + scores[|scores| - 1]
  }

  /** The observed means, in insertion order, of the variants somebody ran. */
  function Means(results: seq<(string, seq<real>)>): seq<Mean> {
    if results == [] then []
    else
      var (variant, scores) := results[|results| - 1];
      Means(results[..|results| - 1])
      + if scores == [] then [] else [Mean(variant, Sum(scores) / |scores| as real)]
  }

  function Observations(results: seq<(string, seq<real>)>): nat {
    if results == [] then 0 else Observations(results[..|results| - 1]) + |results[|results| - 1].1|
  }

  lemma {:induction false} SumConcat(a: seq<real>, b: seq<real>)
    ensures Sum(a + b) == Sum(a) + Sum(b)
  {
    if b == [] {
      assert a + b == a;
    } else {
      assert (a + b)[..|a + b| - 1] == a + b[..|b| - 1];
      SumConcat(a, b[..|b| - 1]);
    }
  }

  /** The mean of scores between two bounds is between them; so equal scores have
      that score as their mean. */
  lemma {:induction false} SumBetween(scores: seq<real>, lo: real, hi: real)
    requires forall i | 0 <= i < |scores| :: lo <= scores[i] <= hi
    ensures lo * |scores| as real <= Sum(scores) <= hi * |scores| as real
  {
    if scores != [] {
      var n := |scores| - 1;
      SumBetween(scores[..n], lo, hi);
      OneMore(lo, n as real);
      OneMore(hi, n as real);
    }
  }

  lemma OneMore(c: real, n: real)
    ensures c * (n + 1.0) == c * n + c
  {
  }

  /** One variant: no mean without scores; otherwise the mean, which times the
      number of scores is their sum. */
  lemma OneVariant(variant: string, scores: seq<real>)
    ensures Observations([(variant, scores)]) == |scores|
    ensures scores == [] ==> Means([(variant, scores)]) == []
    ensures scores != [] ==>
              exists m :: Means([(variant, scores)]) == [m] && m.variant == variant
                          && m.value * |scores| as real == Sum(scores)
  {
    assert [(variant, scores)][..0] == [];
    if scores != [] {
      var m := Mean(variant, Sum(scores) / |scores| as real);
      assert Means([(variant, scores)]) == [m];
    }
  }

  lemma MeanBetween(scores: seq<real>, mean: real, lo: real, hi: real)
    requires scores != [] && mean * |scores| as real == Sum(scores)
    requires forall i | 0 <= i < |scores| :: lo <= scores[i] <= hi
    ensures lo <= mean <= hi
  {
    SumBetween(scores, lo, hi);
    hide Sum;
    if mean < lo { Below(mean, lo, |scores| as real); }
    if hi < mean { Below(hi, mean, |scores| as real); }
  }

  lemma Below(a: real, b: real, n: real)
    requires a < b && n > 0.0
    ensures a * n < b * n
  {
  }

  /** The variants are averaged one by one: what two stretches of results yield
      is put together. */
  lemma {:induction false} MeansConcat(a: seq<(string, seq<real>)>, b: seq<(string, seq<real>)>)
    ensures Means(a + b) == Means(a) + Means(b) && Observations(a + b) == Observations(a) + Observations(b)
  {
    if b == [] {
      assert a + b == a;
    } else {
      assert (a + b)[..|a + b| - 1] == a + b[..|b| - 1];
      MeansConcat(a, b[..|b| - 1]);
    }
  }

  /** `_collect_variant_means`. */
  method CollectVariantMeans(results: seq<(string, seq<real>)>) returns (means: seq<Mean>, total: nat)
    ensures means == Means(results) && total == Observations(results)
  {
    means, total := [], 0;
    for i := 0 to |results|
      invariant means == Means(results[..i]) && total == Observations(results[..i])
    {
      assert results[..i + 1][..i] == results[..i];
      var (variant, scores) := results[i];
      total := total + |scores|;
      if |scores| == 0 {
        continue;
      }
      means := means + [Mean(variant, Sum(scores) / |scores| as real)];
    }
    assert results[..|results|] == results;
  }

  /** Descending by value; entries of equal value keep their order. */
  function Insert(m: Mean, sorted: seq<Mean>): seq<Mean> {
    if sorted == [] || m.value >= sorted[0].value then [m] + sorted else [sorted[0]] + Insert(m, sorted[1..])
  }

  /** `means.sort(key=..., reverse=True)`. */
  function SortDescending(means: seq<Mean>): seq<Mean> {
    if means == [] then [] else Insert(means[0], SortDescending(means[1..]))
  }

  ghost predicate Descending(s: seq<Mean>) {
    forall i, j | 0 <= i < j < |s| :: s[i].value >= s[j].value
  }

  lemma DescendingTail(s: seq<Mean>)
    requires Descending(s) && s != []
    ensures Descending(s[1..]) && forall m | m in s[1..] :: s[0].value >= m.value
  {
    var rest := s[1..];
    forall i, j | 0 <= i < j < |rest| ensures rest[i].value >= rest[j].value {
      assert rest[i] == s[i + 1] && rest[j] == s[j + 1];
    }
    forall m | m in rest ensures s[0].value >= m.value {
      var j :| 0 <= j < |rest| && rest[j] == m;
      assert s[0].value >= s[j + 1].value;
    }
  }

  lemma DescendingCons(m: Mean, s: seq<Mean>)
    requires Descending(s) && forall x | x in s :: m.value >= x.value
    ensures Descending([m] + s)
  {
    var t := [m] + s;
    forall i, j | 0 <= i < j < |t| ensures t[i].value >= t[j].value {
      assert t[j] == s[j - 1];
      assert i > 0 ==> t[i] == s[i - 1];
    }
  }

  lemma {:induction false} InsertSorts(m: Mean, s: seq<Mean>)
    requires Descending(s)
    ensures Descending(Insert(m, s)) && multiset(Insert(m, s)) == multiset{m} + multiset(s)
  {
    hide Descending;
    if s == [] {
      DescendingCons(m, s);
    } else {
      DescendingTail(s);
      assert s == [s[0]] + s[1..];
      if m.value >= s[0].value {
        DescendingCons(m, s);
      } else {
        InsertSorts(m, s[1..]);
        forall x | x in Insert(m, s[1..]) ensures s[0].value >= x.value {
          assert x in multiset(Insert(m, s[1..]));
        }
        DescendingCons(s[0], Insert(m, s[1..]));
      }
    }
  }

  lemma {:induction false} SortSorts(means: seq<Mean>)
    ensures Descending(SortDescending(means)) && multiset(SortDescending(means)) == multiset(means)
  {
    if means != [] {
      SortSorts(means[1..]);
      InsertSorts(means[0], SortDescending(means[1..]));
      assert means == [means[0]] + means[1..];
    }
  }

  /** The label that is promoted, if any. */
  function Winner(means: seq<Mean>, total: nat): Option<string> {
    if total < MIN_SAMPLE then None
    else
      var sorted := SortDescending(means);
      if sorted == [] || (|sorted| > 1 && sorted[0].value - sorted[1].value < THRESHOLD) then None
      else Some(sorted[0].variant)
  }

  /** Mean i is ahead of every other mean by the threshold. */
  ghost predicate Leads(means: seq<Mean>, i: nat)
    requires i < |means|
  {
    forall j | 0 <= j < |means| && j != i :: means[i].value - means[j].value >= 0.05
  }

  lemma {:induction false} ObservedHaveMeans(results: seq<(string, seq<real>)>)
    ensures Observations(results) > 0 <==> Means(results) != []
  {
    if results != [] {
      ObservedHaveMeans(results[..|results| - 1]);
    }
  }

  /** What is left of the means and of the sorted list without the first. */
  lemma Others(means: seq<Mean>, sorted: seq<Mean>, i: nat)
    requires i < |means| && sorted != [] && multiset(sorted) == multiset(means) && sorted[0] == means[i]
    ensures multiset(sorted[1..]) == multiset(means[..i] + means[i + 1..])
  {
    assert sorted == [sorted[0]] + sorted[1..];
    assert means == means[..i] + [means[i]] + means[i + 1..];
    assert multiset(means) == multiset(means[..i]) + multiset{means[i]} + multiset(means[i + 1..]);
    assert multiset(sorted[1..]) == multiset(sorted) - multiset{sorted[0]};
  }

  /** In a sorted list the lead over the second is the lead over everybody. */
  lemma LeadsExactly(means: seq<Mean>, sorted: seq<Mean>, i: nat)
    requires i < |means| && multiset(sorted) == multiset(means) && Descending(sorted) && sorted != []
    requires sorted[0] == means[i]
    ensures Leads(means, i) <==> |sorted| == 1 || sorted[0].value - sorted[1].value >= THRESHOLD
  {
    var others, rest := means[..i] + means[i + 1..], sorted[1..];
    Others(means, sorted, i);
    if |sorted| > 1 {
      assert rest[0] in multiset(rest);
      assert sorted[1] in multiset(others);
      var k :| 0 <= k < |others| && others[k] == sorted[1];
      assert others[k] == if k < i then means[k] else means[k + 1];
    }
    forall j | 0 <= j < |means| && j != i
      ensures |sorted| > 1 && sorted[1].value >= means[j].value
    {
      assert means[j] == others[if j < i then j else j - 1];
      assert means[j] in multiset(rest);
      var k :| 0 <= k < |rest| && rest[k] == means[j];
      assert sorted[k + 1] == means[j];
    }
  }

  lemma WinnerLeads(means: seq<Mean>, total: nat, winner: string)
    requires total > 0 ==> means != []
    ensures Winner(means, total) == Some(winner)
       <==> total >= MIN_SAMPLE && exists i: nat :: i < |means| && Leads(means, i) && means[i].variant == winner
  {
    hide Leads, SortDescending, Descending;
    var sorted := SortDescending(means);
    SortSorts(means);
    assert |multiset(means)| == |multiset(sorted)|;
    if means != [] {
      assert sorted[0] in multiset(means);
      var i: nat :| i < |means| && means[i] == sorted[0];
      LeadsExactly(means, sorted, i);
      forall k: nat | k < |means| && Leads(means, k) ensures k == i {
        LeaderIsFirst(means, sorted, k, i);
      }
    }
  }

  /** `auto_promote`: a variant is promoted, and its experiment completed,
      exactly when there are a hundred observations in all and its mean leads
      every other observed mean by 0.05. */
  method AutoPromote(results: seq<(string, seq<real>)>) returns (winner: Option<string>, completed: bool)
    ensures completed == winner.Some?
    ensures forall w: string ::
              winner == Some(w)
              <==> Observations(results) >= 100
                   && exists i: nat :: i < |Means(results)| && Leads(Means(results), i) && Means(results)[i].variant == w
  {
    var means, total := CollectVariantMeans(results);
    ObservedHaveMeans(results);
    forall w: string {
      WinnerLeads(means, total, w);
    }
    winner := Winner(means, total);
    completed := winner.Some?;
  }

  lemma LeaderIsFirst(means: seq<Mean>, sorted: seq<Mean>, k: nat, i: nat)
    requires k < |means| && i < |means| && Leads(means, k)
    requires multiset(sorted) == multiset(means) && Descending(sorted) && sorted != [] && sorted[0] == means[i]
    ensures k == i
  {
    assert means[k] in multiset(sorted);
    var j :| 0 <= j < |sorted| && sorted[j] == means[k];
    assert sorted[0].value >= sorted[j].value;
  }
}
