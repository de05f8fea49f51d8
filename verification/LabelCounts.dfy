/** Counting the labels that two raters gave to the same items, and summing
    over labels. */
module LabelCounts {

  /** How often the first rater gave label `k`. */
  function HumanCount<L(==)>(pairs: seq<(L, L)>, k: L): nat {
    if pairs == [] then 0 else (if pairs[0].0 == k then 1 else 0) + HumanCount(pairs[1..], k)
  }

  /** How often the second rater gave label `k`. */
  function JudgeCount<L(==)>(pairs: seq<(L, L)>, k: L): nat {
    if pairs == [] then 0 else (if pairs[0].1 == k then 1 else 0) + JudgeCount(pairs[1..], k)
  }

  /** How often both gave label `k`. */
  function BothCount<L(==)>(pairs: seq<(L, L)>, k: L): nat {
    if pairs == [] then 0 else (if pairs[0] == (k, k) then 1 else 0) + BothCount(pairs[1..], k)
  }

  /** How often the raters agree. */
  function Matches<L(==)>(pairs: seq<(L, L)>): nat {
    if pairs == [] then 0 else (if pairs[0].0 == pairs[0].1 then 1 else 0) + Matches(pairs[1..])
  }

  ghost predicate AllAgree<L>(pairs: seq<(L, L)>) {
    forall p | p in pairs :: p.0 == p.1
  }

  lemma {:induction false} MatchesBound<L>(pairs: seq<(L, L)>)
    ensures Matches(pairs) <= |pairs|
    ensures Matches(pairs) == |pairs| <==> AllAgree(pairs)
  {
    if pairs != [] {
      MatchesBound(pairs[1..]);
      assert pairs == [pairs[0]] + pairs[1..];
    }
  }

  /** A label cannot be given more often than there are items, unless both gave it. */
  lemma {:induction false} CountsOverlap<L>(pairs: seq<(L, L)>, k: L)
    ensures HumanCount(pairs, k) + JudgeCount(pairs, k) <= |pairs| + BothCount(pairs, k)
    ensures HumanCount(pairs, k) <= |pairs| && JudgeCount(pairs, k) <= |pairs|
  {
    if pairs != [] {
      CountsOverlap(pairs[1..], k);
    }
  }

  // ----- what the counts count -----

  ghost function HumanItems<L(!new)>(pairs: seq<(L, L)>, k: L): set<nat> {
    set i: nat | i < |pairs| && pairs[i].0 == k
  }

  ghost function JudgeItems<L(!new)>(pairs: seq<(L, L)>, k: L): set<nat> {
    set i: nat | i < |pairs| && pairs[i].1 == k
  }

  ghost function AgreedItems<L(!new)>(pairs: seq<(L, L)>): set<nat> {
    set i: nat | i < |pairs| && pairs[i].0 == pairs[i].1
  }

  lemma {:induction false} CountsConcat<L>(a: seq<(L, L)>, b: seq<(L, L)>, k: L)
    ensures HumanCount(a + b, k) == HumanCount(a, k) + HumanCount(b, k)
    ensures JudgeCount(a + b, k) == JudgeCount(a, k) + JudgeCount(b, k)
    ensures Matches(a + b) == Matches(a) + Matches(b)
  {
    if a == [] {
      assert a + b == b;
    } else {
      assert (a + b)[0] == a[0] && (a + b)[1..] == a[1..] + b;
      CountsConcat(a[1..], b, k);
    }
  }

  lemma HumanItemsStep<L(!new)>(init: seq<(L, L)>, last: (L, L), k: L)
    ensures |HumanItems(init + [last], k)| == |HumanItems(init, k)| + if last.0 == k then 1 else 0
  {
    assert HumanItems(init + [last], k) == HumanItems(init, k) + if last.0 == k then {|init|} else {};
  }

  lemma JudgeItemsStep<L(!new)>(init: seq<(L, L)>, last: (L, L), k: L)
    ensures |JudgeItems(init + [last], k)| == |JudgeItems(init, k)| + if last.1 == k then 1 else 0
  {
    assert JudgeItems(init + [last], k) == JudgeItems(init, k) + if last.1 == k then {|init|} else {};
  }

  lemma AgreedItemsStep<L(!new)>(init: seq<(L, L)>, last: (L, L))
    ensures |AgreedItems(init + [last])| == |AgreedItems(init)| + if last.0 == last.1 then 1 else 0
  {
    assert AgreedItems(init + [last]) == AgreedItems(init) + if last.0 == last.1 then {|init|} else {};
  }

  /** Each count is the number of items it speaks of. */
  lemma {:induction false} CountsAreSizes<L(!new)>(pairs: seq<(L, L)>, k: L)
    ensures HumanCount(pairs, k) == |HumanItems(pairs, k)|
    ensures JudgeCount(pairs, k) == |JudgeItems(pairs, k)|
    ensures Matches(pairs) == |AgreedItems(pairs)|
  {
    if pairs != [] {
      var n := |pairs| - 1;
      var init, last := pairs[..n], pairs[n];
      assert pairs == init + [last];
      CountsAreSizes(init, k);
      CountsConcat(init, [last], k);
      hide HumanItems, JudgeItems, AgreedItems;
      HumanItemsStep(init, last, k);
      JudgeItemsStep(init, last, k);
      AgreedItemsStep(init, last);
    }
  }

  // ----- sums over labels -----

  function Sum<L>(order: seq<L>, f: L -> int): int {
    if order == [] then 0 else f(order[0]) + Sum(order[1..], f)
  }

  ghost predicate NoDuplicates<L>(order: seq<L>) {
    forall i, j | 0 <= i < j < |order| :: order[i] != order[j]
  }

  lemma {:induction false} SumAtMost<L>(order: seq<L>, f: L -> int, g: L -> int)
    requires forall k | k in order :: f(k) <= g(k)
    ensures Sum(order, f) <= Sum(order, g)
  {
    if order != [] {
      SumAtMost(order[1..], f, g);
    }
  }

  lemma SumSame<L>(order: seq<L>, f: L -> int, g: L -> int)
    requires forall k | k in order :: f(k) == g(k)
    ensures Sum(order, f) == Sum(order, g)
  {
    SumAtMost(order, f, g);
    SumAtMost(order, g, f);
  }

  function Plus<L>(f: L -> int, g: L -> int): L -> int {
    k => f(k) + g(k)
  }

  lemma {:induction false} SumPlus<L>(order: seq<L>, f: L -> int, g: L -> int)
    ensures Sum(order, Plus(f, g)) == Sum(order, f) + Sum(order, g)
  {
    if order != [] {
      SumPlus(order[1..], f, g);
    }
  }

  function Times<L>(c: int, f: L -> int): L -> int {
    k => c * f(k)
  }

  lemma {:induction false} SumTimes<L>(order: seq<L>, c: int, f: L -> int)
    ensures Sum(order, Times(c, f)) == c * Sum(order, f)
  {
    if order != [] {
      SumTimes(order[1..], c, f);
    }
  }

  function Only<L(==)>(x: L, c: int): L -> int {
    k => if k == x then c else 0
  }

  lemma {:induction false} SumOnly<L>(order: seq<L>, x: L, c: int)
    requires NoDuplicates(order)
    ensures Sum(order, Only(x, c)) == if x in order then c else 0
  {
    if order != [] {
      var rest := order[1..];
      assert NoDuplicates(rest) by {
        assert forall i | 0 <= i < |rest| :: rest[i] == order[i + 1];
      }
      SumOnly(rest, x, c);
      assert order[0] !in rest;
    }
  }

  // ----- the counts, summed over an enumeration of the labels -----

  function Humans<L(==)>(pairs: seq<(L, L)>): L -> int {
    k => HumanCount(pairs, k)
  }

  function Judges<L(==)>(pairs: seq<(L, L)>): L -> int {
    k => JudgeCount(pairs, k)
  }

  function Boths<L(==)>(pairs: seq<(L, L)>): L -> int {
    k => BothCount(pairs, k)
  }

  function Products<L(==)>(a: seq<(L, L)>, b: seq<(L, L)>): L -> int {
    k => HumanCount(a, k) * JudgeCount(b, k)
  }

  /** The labels that occur, each once: one order in which the set of labels
      may be iterated. */
  ghost predicate Enumerates<L(!new)>(order: seq<L>, pairs: seq<(L, L)>) {
    && NoDuplicates(order)
    && (forall k: L :: k in order <==> Occurs(k, pairs))
  }

  ghost predicate Occurs<L>(k: L, pairs: seq<(L, L)>) {
    exists p :: p in pairs && (p.0 == k || p.1 == k)
  }

  ghost predicate Covers<L>(order: seq<L>, pairs: seq<(L, L)>) {
    NoDuplicates(order) && forall p | p in pairs :: p.0 in order && p.1 in order
  }

  lemma EnumerationCovers<L(!new)>(order: seq<L>, pairs: seq<(L, L)>)
    requires Enumerates(order, pairs)
    ensures Covers(order, pairs)
  {
    forall p | p in pairs ensures p.0 in order && p.1 in order {
      assert Occurs(p.0, pairs) && Occurs(p.1, pairs);
    }
  }

  lemma {:induction false} SumOfHumans<L>(order: seq<L>, pairs: seq<(L, L)>)
    requires Covers(order, pairs)
    ensures Sum(order, Humans(pairs)) == |pairs|
  {
    if pairs == [] {
      SumSame(order, Humans(pairs), Times(0, Humans(pairs)));
      SumTimes(order, 0, Humans(pairs));
    } else {
      var x, rest := pairs[0], pairs[1..];
      SumOfHumans(order, rest);
      SumSame(order, Humans(pairs), Plus(Humans(rest), Only(x.0, 1)));
      SumPlus(order, Humans(rest), Only(x.0, 1));
      SumOnly(order, x.0, 1);
      assert x in pairs;
    }
  }

  lemma {:induction false} SumOfJudges<L>(order: seq<L>, pairs: seq<(L, L)>)
    requires Covers(order, pairs)
    ensures Sum(order, Judges(pairs)) == |pairs|
  {
    if pairs == [] {
      SumSame(order, Judges(pairs), Times(0, Judges(pairs)));
      SumTimes(order, 0, Judges(pairs));
    } else {
      var x, rest := pairs[0], pairs[1..];
      SumOfJudges(order, rest);
      SumSame(order, Judges(pairs), Plus(Judges(rest), Only(x.1, 1)));
      SumPlus(order, Judges(rest), Only(x.1, 1));
      SumOnly(order, x.1, 1);
      assert x in pairs;
    }
  }

  lemma {:induction false} SumOfBoths<L>(order: seq<L>, pairs: seq<(L, L)>)
    requires Covers(order, pairs)
    ensures Sum(order, Boths(pairs)) == Matches(pairs)
  {
    if pairs == [] {
      SumSame(order, Boths(pairs), Times(0, Boths(pairs)));
      SumTimes(order, 0, Boths(pairs));
    } else {
      var x, rest := pairs[0], pairs[1..];
      var c := if x.0 == x.1 then 1 else 0;
      SumOfBoths(order, rest);
      SumSame(order, Boths(pairs), Plus(Boths(rest), Only(x.0, c)));
      SumPlus(order, Boths(rest), Only(x.0, c));
      SumOnly(order, x.0, c);
      assert x in pairs;
    }
  }

  /** For every item of `a`, how often the second rater gave, over `b`, the
      label that the first rater gave to it: a sum that mentions no label order. */
  function CrossMatches<L(==)>(a: seq<(L, L)>, b: seq<(L, L)>): nat {
    if a == [] then 0 else JudgeCount(b, a[0].0) + CrossMatches(a[1..], b)
  }

  lemma {:induction false} SumOfProducts<L>(order: seq<L>, a: seq<(L, L)>, b: seq<(L, L)>)
    requires Covers(order, a)
    ensures Sum(order, Products(a, b)) == CrossMatches(a, b)
  {
    if a == [] {
      SumSame(order, Products(a, b), Times(0, Humans(a)));
      SumTimes(order, 0, Humans(a));
    } else {
      var x, rest := a[0], a[1..];
      SumOfProducts(order, rest, b);
      var c: int := JudgeCount(b, x.0);
      forall k | k in order ensures Products(a, b)(k) == Plus(Products(rest, b), Only(x.0, c))(k) {
        ProductStep(a, b, k);
      }
      SumSame(order, Products(a, b), Plus(Products(rest, b), Only(x.0, c)));
      SumPlus(order, Products(rest, b), Only(x.0, c));
      SumOnly(order, x.0, c);
      assert x in a;
    }
  }

  lemma ProductStep<L>(a: seq<(L, L)>, b: seq<(L, L)>, k: L)
    requires a != []
    ensures HumanCount(a, k) * JudgeCount(b, k)
         == HumanCount(a[1..], k) * JudgeCount(b, k) + if k == a[0].0 then JudgeCount(b, k) else 0
  {
    OneMore(HumanCount(a[1..], k), JudgeCount(b, k));
    hide JudgeCount;
    if k == a[0].0 {
      assert HumanCount(a, k) == 1 + HumanCount(a[1..], k);
    } else {
      assert HumanCount(a, k) == HumanCount(a[1..], k);
    }
  }

  lemma OneMore(h: int, j: int)
    ensures (1 + h) * j == h * j + j
  {
  }
}
