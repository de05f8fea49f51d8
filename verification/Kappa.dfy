/** Cohen's kappa over a golden set and the calibration gate built on it.
    Arithmetic is over the reals; labels are of any type with equality. */
module Kappa {
  import opened Wrappers
  import opened LabelCounts

  function Observed<L(==)>(pairs: seq<(L, L)>): real
    requires pairs != []
  {
    Matches(pairs) as real / |pairs| as real
  }

  /** The chance agreement: label by label, in the order `order`. */
  function Expected<L(==)>(pairs: seq<(L, L)>, order: seq<L>): real
    requires pairs != []
  {
    if order == [] then 0.0
    else
      var n, k := |pairs| as real, order[0];
      (HumanCount(pairs, k) as real / n) * (JudgeCount(pairs, k) as real / n) + Expected(pairs, order[1..])
  }

  /** `_agreement_rate` on label pairs; `order` is the order in which the set of
      labels happens to be iterated. */
  function AgreementRate<L(==)>(pairs: seq<(L, L)>, order: seq<L>): Option<real> {
    if pairs == [] then None
    else Some(Corrected(Observed(pairs), Expected(pairs, order)))
  }

  /** Agreement corrected for chance. */
  function Corrected(po: real, pe: real): real {
    if pe == 1.0 then (if po == 1.0 then 1.0 else 0.0) else (po - pe) / (1.0 - pe)
  }

  /** The numerators over the common denominator n * n. */
  lemma {:induction false} ExpectedIsSum<L>(pairs: seq<(L, L)>, order: seq<L>)
    requires pairs != []
    ensures Expected(pairs, order) == Sum(order, Products(pairs, pairs)) as real / (|pairs| * |pairs|) as real
  {
    if order != [] {
      ExpectedIsSum(pairs, order[1..]);
      var n, h, j := |pairs|, HumanCount(pairs, order[0]), JudgeCount(pairs, order[0]);
      var rest := Sum(order[1..], Products(pairs, pairs));
      ChanceTerm(h, j, n);
      AddOver((h * j) as real, rest as real, (n * n) as real);
    }
  }

  lemma ChanceTerm(h: nat, j: nat, n: nat)
    requires n > 0
    ensures n * n > 0
    ensures (h as real / n as real) * (j as real / n as real) == (h * j) as real / (n * n) as real
  {
    CastProduct(h, j);
    CastProduct(n, n);
    ProductOverSquare(h as real, j as real, n as real, (n * n) as real);
  }

  lemma ProductOverSquare(h: real, j: real, n: real, d: real)
    requires n > 0.0 && d > 0.0 && d == n * n
    ensures (h / n) * (j / n) == (h * j) / d
  {
    var x, y := h / n, j / n;
    assert h == x * n && j == y * n;
    Regroup(x, y, n);
    Undo(x * y, d);
  }

  lemma Regroup(x: real, y: real, n: real)
    ensures (x * n) * (y * n) == (x * y) * (n * n)
  {
    calc {
      (x * n) * (y * n);
      x * (n * (y * n));
      x * (y * (n * n));
      (x * y) * (n * n);
    }
  }

  lemma {:induction false} CastProduct(a: nat, b: nat)
    ensures (a * b) as real == a as real * b as real
  {
    if a > 0 {
      CastProduct(a - 1, b);
      assert a * b == (a - 1) * b + b;
      assert a as real == (a - 1) as real + 1.0;
      OneMoreReal((a - 1) as real, b as real);
    }
  }

  lemma OneMoreReal(x: real, y: real)
    ensures (x + 1.0) * y == x * y + y
  {
  }

  lemma Undo(x: real, d: real)
    requires d != 0.0
    ensures (x * d) / d == x
  {
  }

  lemma AddOver(a: real, b: real, d: real)
    requires d > 0.0
    ensures a / d + b / d == (a + b) / d
  {
  }

  /** The same chance agreement whatever the iteration order. */
  lemma ExpectedIsOrderFree<L>(pairs: seq<(L, L)>, order: seq<L>)
    requires pairs != [] && Covers(order, pairs)
    ensures Expected(pairs, order) == CrossMatches(pairs, pairs) as real / (|pairs| * |pairs|) as real
  {
    ExpectedIsSum(pairs, order);
    SumOfProducts(order, pairs, pairs);
  }

  // ----- the inequality behind the bounds -----

  /** One label: products of counts against the counts and the agreements. */
  lemma LabelInequality(h: nat, j: nat, both: nat, n: nat)
    requires h <= n && j <= n && h + j <= n + both
    ensures 4 * (h * j) <= n * (h + j) + 2 * (n * both)
  {
    FourProducts(h, j);
    if h + j <= n {
      MulAtMost(h + j, n, h + j);
    } else {
      MulAtMost(h + j - n, both, n);
      SquareBetween(h + j, n);
    }
  }

  /** A sum between n and 2n, squared. */
  lemma SquareBetween(s: nat, n: nat)
    requires n <= s <= 2 * n
    ensures s * s <= n * s + 2 * ((s - n) * n)
  {
    var d := s - n;
    assert s * s == n * s + d * s;
    assert d * s <= d * (2 * n);
    assert d * (2 * n) == 2 * (d * n);
  }

  lemma FourProducts(h: int, j: int)
    ensures 4 * (h * j) <= (h + j) * (h + j)
  {
    assert (h - j) * (h - j) >= 0;
    assert (h + j) * (h + j) - (h - j) * (h - j) == 4 * (h * j);
  }

  lemma MulAtMost(a: nat, b: nat, c: nat)
    requires a <= b
    ensures a * c <= b * c
  {
  }

  /** Label by label, what four times the product is bounded by. */
  function ProductBound<L(==)>(pairs: seq<(L, L)>): L -> int {
    Plus(Times(|pairs|, Plus(Humans(pairs), Judges(pairs))), Times(2 * |pairs|, Boths(pairs)))
  }

  lemma ProductBounded<L>(pairs: seq<(L, L)>, k: L)
    ensures Times(4, Products(pairs, pairs))(k) <= ProductBound(pairs)(k)
  {
    var n, b := |pairs|, BothCount(pairs, k);
    CountsOverlap(pairs, k);
    LabelInequality(HumanCount(pairs, k), JudgeCount(pairs, k), b, n);
    TwiceProduct(n, b);
  }

  lemma TwiceProduct(a: int, b: int)
    ensures 2 * a * b == 2 * (a * b) && a * (a + a) == 2 * (a * a)
  {
  }

  lemma SumOfBound<L>(pairs: seq<(L, L)>, order: seq<L>)
    requires Covers(order, pairs)
    ensures Sum(order, ProductBound(pairs)) == |pairs| * (|pairs| + |pairs|) + 2 * |pairs| * Matches(pairs)
  {
    var n, h, j, b := |pairs|, Humans(pairs), Judges(pairs), Boths(pairs);
    SumPlus(order, Times(n, Plus(h, j)), Times(2 * n, b));
    SumTimes(order, n, Plus(h, j));
    SumTimes(order, 2 * n, b);
    SumPlus(order, h, j);
    SumOfHumans(order, pairs);
    SumOfJudges(order, pairs);
    SumOfBoths(order, pairs);
  }

  /** Summed over the labels: twice the chance matches are at most n * n + n * matches. */
  lemma CrossMatchesBound<L>(pairs: seq<(L, L)>, order: seq<L>)
    requires Covers(order, pairs)
    ensures 2 * CrossMatches(pairs, pairs) <= |pairs| * |pairs| + |pairs| * Matches(pairs)
  {
    var p := Products(pairs, pairs);
    forall k | k in order ensures Times(4, p)(k) <= ProductBound(pairs)(k) {
      ProductBounded(pairs, k);
    }
    SumAtMost(order, Times(4, p), ProductBound(pairs));
    SumTimes(order, 4, p);
    SumOfProducts(order, pairs, pairs);
    SumOfBound(pairs, order);
    TwiceProduct(|pairs|, Matches(pairs));
  }

  lemma {:induction false} CrossMatchesAtMost<L>(a: seq<(L, L)>, b: seq<(L, L)>)
    ensures CrossMatches(a, b) <= |a| * |b|
  {
    if a != [] {
      CrossMatchesAtMost(a[1..], b);
      CountsOverlap(b, a[0].0);
      assert |a| * |b| == |a[1..]| * |b| + |b|;
    }
  }

  // ----- kappa -----

  /** The integers behind kappa: it is (m*n - s) / (n*n - s), or 1 when the
      denominator vanishes; that leaves only full agreement. */
  lemma KappaAsRatio<L>(pairs: seq<(L, L)>, order: seq<L>)
    requires pairs != [] && Covers(order, pairs)
    ensures
      var n, m, s := |pairs|, Matches(pairs), CrossMatches(pairs, pairs);
      && m <= n && s <= n * n && 2 * s <= n * n + n * m
      && (s == n * n ==> m == n && AgreementRate(pairs, order) == Some(1.0))
      && (s < n * n ==> AgreementRate(pairs, order) == Some((m * n - s) as real / (n * n - s) as real))
  {
    hide Matches, CrossMatches, Expected, Corrected;
    MatchesBound(pairs);
    CrossMatchesAtMost(pairs, pairs);
    CrossMatchesBound(pairs, order);
    ExpectedIsOrderFree(pairs, order);
    CorrectedRatio(Matches(pairs), CrossMatches(pairs, pairs), |pairs|);
  }

  lemma CorrectedRatio(m: nat, s: nat, n: nat)
    requires n > 0 && m <= n && s <= n * n && 2 * s <= n * n + n * m
    ensures n * n > 0
    ensures
      var rate := Corrected(m as real / n as real, s as real / (n * n) as real);
      && (s == n * n ==> m == n && rate == 1.0)
      && (s < n * n ==> rate == (m * n - s) as real / (n * n - s) as real)
  {
    CastProduct(m, n);
    CastProduct(n, n);
    MulAtMost(1, n, n);
    if s == n * n {
      Cancel(n, m);
    }
    CorrectedCases(m, s, n, n * n, m * n);
  }

  /** `d` is n * n and `k` is m * n. */
  lemma CorrectedCases(m: nat, s: nat, n: nat, d: nat, k: nat)
    requires n > 0 && d > 0 && s <= d && (s == d ==> m == n)
    requires d as real == n as real * n as real && k as real == m as real * n as real
    ensures
      var rate := Corrected(m as real / n as real, s as real / d as real);
      && (s == d ==> rate == 1.0)
      && (s < d ==> rate == (k - s) as real / (d - s) as real)
  {
    hide Corrected;
    if s < d {
      CorrectedBelow(m as real, s as real, n as real, d as real, k as real);
      assert (k - s) as real == k as real - s as real && (d - s) as real == d as real - s as real;
    } else {
      Undo(1.0, n as real);
      Undo(1.0, d as real);
      CorrectedFull();
    }
  }

  lemma CorrectedFull()
    ensures Corrected(1.0, 1.0) == 1.0
  {
  }

  lemma CorrectedBelow(m: real, s: real, n: real, d: real, k: real)
    requires n > 0.0 && d == n * n && 0.0 <= s < d && k == m * n
    ensures Corrected(m / n, s / d) == (k - s) / (d - s)
  {
    RatioOfRatios(m, s, n, d);
  }

  lemma Cancel(n: nat, m: nat)
    requires n > 0 && n * n <= n * m
    ensures n <= m
  {
  }

  lemma RatioOfRatios(m: real, s: real, n: real, d: real)
    requires n > 0.0 && d == n * n && 0.0 <= s < d
    ensures s / d != 1.0 && (m / n - s / d) / (1.0 - s / d) == (m * n - s) / (d - s)
  {
    var x, y := m / n, s / d;
    assert m == x * n && s == y * d;
    assert m * n == x * d;
    BelowOne(s, d);
    Undistribute(x, y, d);
    Undistribute(1.0, y, d);
    ScaleRatio(x - y, 1.0 - y, d);
  }

  lemma BelowOne(s: real, d: real)
    requires 0.0 <= s < d
    ensures s / d < 1.0
  {
  }

  lemma Undistribute(x: real, y: real, d: real)
    ensures (x - y) * d == x * d - y * d
  {
  }

  lemma ScaleRatio(a: real, b: real, d: real)
    requires b > 0.0 && d > 0.0
    ensures b * d > 0.0 && (a * d) / (b * d) == a / b
  {
    var q := a / b;
    assert a == q * b;
    assert a * d == q * (b * d);
    Undo(q, b * d);
  }

  lemma RatioBounds(a: int, b: int)
    requires b > 0 && -b <= a <= b
    ensures -1.0 <= a as real / b as real <= 1.0
    ensures a as real / b as real == 1.0 <==> a == b
  {
  }

  lemma BoundsFromCounts(m: nat, s: nat, n: nat)
    requires n > 0 && m <= n && s < n * n && 2 * s <= n * n + n * m
    ensures -1.0 <= (m * n - s) as real / (n * n - s) as real <= 1.0
    ensures (m * n - s) as real / (n * n - s) as real == 1.0 <==> m == n
  {
    MulAtMost(m, n, n);
    if m * n == n * n {
      Cancel(n, m);
    }
    RatioBounds(m * n - s, n * n - s);
  }

  /** Kappa is between -1 and 1, and 1 exactly when the raters agree on
      every item; a chance agreement of 1 leaves no other case. */
  lemma KappaBounds<L>(pairs: seq<(L, L)>, order: seq<L>)
    requires pairs != [] && Covers(order, pairs)
    ensures AgreementRate(pairs, order).Some?
    ensures -1.0 <= AgreementRate(pairs, order).value <= 1.0
    ensures AgreementRate(pairs, order).value == 1.0 <==> AllAgree(pairs)
    ensures Expected(pairs, order) == 1.0 ==> Observed(pairs) == 1.0
  {
    hide Matches, CrossMatches, Expected, Corrected;
    var n, m, s := |pairs|, Matches(pairs), CrossMatches(pairs, pairs);
    KappaAsRatio(pairs, order);
    MatchesBound(pairs);
    ExpectedIsOrderFree(pairs, order);
    if s < n * n {
      BoundsFromCounts(m, s, n);
    }
  }

  // ----- invariance -----

  function Swap<L>(pairs: seq<(L, L)>): seq<(L, L)> {
    if pairs == [] then [] else [(pairs[0].1, pairs[0].0)] + Swap(pairs[1..])
  }

  lemma {:induction false} SwapCounts<L>(pairs: seq<(L, L)>, k: L)
    ensures |Swap(pairs)| == |pairs| && Matches(Swap(pairs)) == Matches(pairs)
    ensures HumanCount(Swap(pairs), k) == JudgeCount(pairs, k)
    ensures JudgeCount(Swap(pairs), k) == HumanCount(pairs, k)
  {
    if pairs != [] {
      SwapCounts(pairs[1..], k);
      assert Swap(pairs)[1..] == Swap(pairs[1..]);
    }
  }

  /** Swapping the raters changes nothing. */
  lemma {:induction false} ExpectedSwap<L>(pairs: seq<(L, L)>, order: seq<L>)
    requires pairs != [] && Swap(pairs) != []
    ensures Expected(Swap(pairs), order) == Expected(pairs, order)
  {
    if order != [] {
      SwapCounts(pairs, order[0]);
      ExpectedSwap(pairs, order[1..]);
    }
  }

  lemma KappaSwap<L>(pairs: seq<(L, L)>, order: seq<L>)
    ensures AgreementRate(Swap(pairs), order) == AgreementRate(pairs, order)
  {
    if pairs != [] {
      SwapCounts(pairs, pairs[0].0);
      ExpectedSwap(pairs, order);
    }
  }

  lemma TakeOut<T>(rest: seq<T>, left: seq<T>, right: seq<T>, x: T)
    requires multiset([x] + rest) == multiset(left + ([x] + right))
    ensures multiset(rest) == multiset(left + right)
  {
    assert multiset([x] + rest) == multiset{x} + multiset(rest);
    assert multiset(left + ([x] + right)) == multiset(left) + (multiset{x} + multiset(right));
    assert multiset(left + right) == multiset(left) + multiset(right);
    assert multiset(rest) == multiset([x] + rest) - multiset{x};
  }

  lemma CountsMiddle<L>(left: seq<(L, L)>, x: (L, L), right: seq<(L, L)>, k: L)
    ensures HumanCount(left + ([x] + right), k) == HumanCount([x], k) + HumanCount(left + right, k)
    ensures JudgeCount(left + ([x] + right), k) == JudgeCount([x], k) + JudgeCount(left + right, k)
    ensures Matches(left + ([x] + right)) == Matches([x]) + Matches(left + right)
  {
    hide HumanCount, JudgeCount, Matches;
    CountsConcat(left, [x] + right, k);
    CountsConcat([x], right, k);
    CountsConcat(left, right, k);
  }

  /** The counts depend on which pairs there are, not on their order. */
  lemma {:induction false} CountsPermute<L>(a: seq<(L, L)>, b: seq<(L, L)>, k: L)
    requires multiset(a) == multiset(b)
    ensures |a| == |b| && Matches(a) == Matches(b)
    ensures HumanCount(a, k) == HumanCount(b, k) && JudgeCount(a, k) == JudgeCount(b, k)
    decreases |a|
  {
    if a == [] {
      assert |multiset(b)| == 0;
    } else {
      hide HumanCount, JudgeCount, Matches;
      var x, rest := a[0], a[1..];
      assert a == [x] + rest;
      assert x in multiset(b);
      var i :| 0 <= i < |b| && b[i] == x;
      var left, right := b[..i], b[i + 1..];
      assert b == left + ([x] + right);
      TakeOut(rest, left, right, x);
      CountsPermute(rest, left + right, k);
      CountsConcat([x], rest, k);
      CountsMiddle(left, x, right, k);
    }
  }

  lemma {:induction false} ExpectedPermute<L>(a: seq<(L, L)>, b: seq<(L, L)>, order: seq<L>)
    requires multiset(a) == multiset(b) && a != [] && b != []
    ensures Expected(a, order) == Expected(b, order)
  {
    if order != [] {
      CountsPermute(a, b, order[0]);
      ExpectedPermute(a, b, order[1..]);
    }
  }

  /** Neither the order of the pairs nor the order in which the labels happen
      to be iterated matters. */
  lemma KappaPermute<L(!new)>(a: seq<(L, L)>, b: seq<(L, L)>, orderA: seq<L>, orderB: seq<L>)
    requires multiset(a) == multiset(b)
    requires Enumerates(orderA, a) && Enumerates(orderB, b)
    ensures AgreementRate(a, orderA) == AgreementRate(b, orderB)
  {
    assert a == [] <==> |multiset(a)| == 0;
    if a != [] {
      CountsPermute(a, b, a[0].0);
      EnumerationCovers(orderA, a);
      EnumerationCovers(orderB, b);
      forall p | p in a ensures p.0 in orderB && p.1 in orderB {
        assert p in multiset(b);
      }
      ExpectedIsOrderFree(a, orderA);
      ExpectedIsOrderFree(a, orderB);
      ExpectedPermute(a, b, orderB);
    }
  }

  // ----- a rater who never varies -----

  lemma {:induction false} ConstantCounts<L>(a: seq<(L, L)>, b: seq<(L, L)>, c: L)
    requires forall p | p in a :: p.0 == c
    ensures CrossMatches(a, b) == |a| * JudgeCount(b, c)
    ensures Matches(a) == JudgeCount(a, c)
  {
    if a != [] {
      var j, rest := JudgeCount(b, c), a[1..];
      forall p | p in rest ensures p.0 == c {
        assert p in a;
      }
      ConstantCounts(rest, b, c);
      OneMore(|rest|, j);
      assert a[0] in a;
    }
  }

  /** When the first rater gives a single label throughout, kappa is 0 unless every
      pair agrees, however high the share of agreeing pairs is. */
  lemma ConstantRater<L>(pairs: seq<(L, L)>, order: seq<L>, c: L)
    requires pairs != [] && Covers(order, pairs)
    requires forall p | p in pairs :: p.0 == c
    ensures AgreementRate(pairs, order) == Some(if AllAgree(pairs) then 1.0 else 0.0)
  {
    hide Matches, CrossMatches, AgreementRate;
    var n, m := |pairs|, Matches(pairs);
    KappaAsRatio(pairs, order);
    MatchesBound(pairs);
    ConstantCounts(pairs, pairs, c);
    ConstantProducts(m, n);
  }

  /** The same when it is the second rater who never varies. */
  lemma ConstantJudge<L>(pairs: seq<(L, L)>, order: seq<L>, c: L)
    requires pairs != [] && Covers(order, pairs)
    requires forall p | p in pairs :: p.1 == c
    ensures AgreementRate(pairs, order) == Some(if AllAgree(pairs) then 1.0 else 0.0)
  {
    hide AgreementRate;
    var swapped := Swap(pairs);
    SwapCounts(pairs, c);
    forall p | p in swapped ensures p.0 == c && p.0 in order && p.1 in order {
      SwapMember(pairs, p);
    }
    ConstantRater(swapped, order, c);
    KappaSwap(pairs, order);
    MatchesBound(pairs);
    MatchesBound(swapped);
  }

  lemma {:induction false} SwapMember<L>(pairs: seq<(L, L)>, p: (L, L))
    requires p in Swap(pairs)
    ensures (p.1, p.0) in pairs
  {
    if p != (pairs[0].1, pairs[0].0) {
      SwapMember(pairs[1..], p);
    }
  }

  /** No label occurs in both columns. */
  ghost predicate NoCommonLabel<L>(pairs: seq<(L, L)>) {
    forall p, q | p in pairs && q in pairs :: p.0 != q.1
  }

  lemma {:induction false} JudgeCountZero<L>(pairs: seq<(L, L)>, k: L)
    ensures JudgeCount(pairs, k) == 0 <==> forall q | q in pairs :: q.1 != k
  {
    if pairs != [] {
      JudgeCountZero(pairs[1..], k);
      assert pairs == [pairs[0]] + pairs[1..];
    }
  }

  lemma {:induction false} CrossMatchesZero<L>(a: seq<(L, L)>, b: seq<(L, L)>)
    ensures CrossMatches(a, b) == 0 <==> forall p, q | p in a && q in b :: p.0 != q.1
  {
    if a != [] {
      CrossMatchesZero(a[1..], b);
      JudgeCountZero(b, a[0].0);
      assert a == [a[0]] + a[1..];
    }
  }

  /** The result is the share of agreeing pairs if and only if all pairs agree
      or no label was given by both raters. */
  lemma ShareExactly<L>(pairs: seq<(L, L)>, order: seq<L>)
    requires pairs != [] && Covers(order, pairs)
    ensures AgreementRate(pairs, order) == Some(Observed(pairs)) <==> AllAgree(pairs) || NoCommonLabel(pairs)
  {
    var po, pe := Observed(pairs), Expected(pairs, order);
    KappaBounds(pairs, order);
    ObservedOne(pairs);
    CrossMatchesZero(pairs, pairs);
    ExpectedIsOrderFree(pairs, order);
    hide Observed, Expected, CrossMatches, Matches;
    ZeroOver(CrossMatches(pairs, pairs), |pairs|);
    if pe != 1.0 {
      SameAfterCorrection(po, pe);
    }
  }

  lemma ObservedOne<L>(pairs: seq<(L, L)>)
    requires pairs != []
    ensures Observed(pairs) == 1.0 <==> AllAgree(pairs)
  {
    MatchesBound(pairs);
    RatioBounds(Matches(pairs), |pairs|);
  }

  lemma ZeroOver(s: nat, n: nat)
    requires n > 0
    ensures n * n > 0 && (s as real / (n * n) as real == 0.0 <==> s == 0)
  {
    MulAtMost(1, n, n);
  }

  lemma SameAfterCorrection(po: real, pe: real)
    requires pe != 1.0
    ensures (po - pe) / (1.0 - pe) == po <==> pe == 0.0 || po == 1.0
  {
    var q := (po - pe) / (1.0 - pe);
    assert q * (1.0 - pe) == po - pe;
    assert po * (1.0 - pe) == po - po * pe;
    assert po * pe == pe <==> pe == 0.0 || po == 1.0 by {
      assert (po - 1.0) * pe == po * pe - pe;
    }
    if po * (1.0 - pe) == po - pe {
      Undo(po, 1.0 - pe);
    }
  }

  /** Nor is the result always a share: it is negative if and only if there
      are fewer agreements than chance would give. */
  lemma NegativeExactly<L>(pairs: seq<(L, L)>, order: seq<L>)
    requires pairs != [] && Covers(order, pairs)
    ensures AgreementRate(pairs, order).Some?
    ensures AgreementRate(pairs, order).value < 0.0 <==> Matches(pairs) * |pairs| < CrossMatches(pairs, pairs)
  {
    hide Matches, CrossMatches, AgreementRate;
    var n, m, s := |pairs|, Matches(pairs), CrossMatches(pairs, pairs);
    KappaAsRatio(pairs, order);
    if s < n * n {
      NegativeRatio(m * n - s, n * n - s);
    }
  }

  lemma NegativeRatio(a: int, b: int)
    requires b > 0
    ensures a as real / b as real < 0.0 <==> a < 0
  {
  }

  /** Two pairs that disagree crosswise reach the other end. */
  lemma CrossedPairs<L>(a: L, b: L)
    requires a != b
    ensures AgreementRate([(a, b), (b, a)], [a, b]) == Some(-1.0)
  {
    var pairs := [(a, b), (b, a)];
    assert pairs == [(a, b)] + [(b, a)] && pairs[1..] == [(b, a)];
    CountsConcat([(a, b)], [(b, a)], a);
    CountsConcat([(a, b)], [(b, a)], b);
    assert CrossMatches([(b, a)], pairs) == JudgeCount(pairs, b) + CrossMatches([], pairs);
    assert CrossMatches(pairs, pairs) == 2;
    KappaAsRatio(pairs, [a, b]);
  }

  lemma ConstantProducts(m: nat, n: nat)
    requires m <= n
    ensures m * n - n * m == 0
    ensures n > 0 ==> (n * m == n * n <==> m == n)
  {
    if n > 0 && n * m == n * n {
      Cancel(n, m);
    }
  }

  // ----- the calibration cycle -----

  datatype Row<L> = Row(humanLabel: Option<L>, judgeLabel: Option<L>)

  /** A golden set is a list of pairs or a list of dictionaries. */
  datatype GoldenSet<L> = Tuples(pairs: seq<(L, L)>) | Rows(rows: seq<Row<L>>)

  predicate IsEmpty<L>(g: GoldenSet<L>) {
    match g
    case Tuples(pairs) => |pairs| == 0
    case Rows(rows) => |rows| == 0
  }

  function Complete<L>(rows: seq<Row<L>>): seq<(L, L)> {
    if rows == [] then []
    else
      (match rows[0]
       case Row(Some(h), Some(j)) => [(h, j)]
       case Row(_, _) => []) + Complete(rows[1..])
  }

  /** The pairs that are scored; incomplete rows are skipped. */
  function PairsOf<L>(g: GoldenSet<L>): seq<(L, L)> {
    match g
    case Tuples(pairs) => pairs
    case Rows(rows) => Complete(rows)
  }

  /** The rows that have both labels. */
  ghost function CompleteRows<L>(rows: seq<Row<L>>): set<nat> {
    set i: nat | i < |rows| && rows[i].humanLabel.Some? && rows[i].judgeLabel.Some?
  }

  /** The scored pairs of two stretches of rows are those of the first, then
      those of the second; a row is scored if and only if it has both labels. */
  lemma {:induction false} CompleteConcat<L>(a: seq<Row<L>>, b: seq<Row<L>>)
    ensures Complete(a + b) == Complete(a) + Complete(b)
    ensures forall h: L, j: L :: Complete([Row(Some(h), Some(j))]) == [(h, j)]
    ensures forall r: Row<L> | r.humanLabel.None? || r.judgeLabel.None? :: Complete([r]) == []
  {
    if a == [] {
      assert a + b == b;
    } else {
      assert (a + b)[0] == a[0] && (a + b)[1..] == a[1..] + b;
      CompleteConcat(a[1..], b);
    }
  }

  lemma CompleteRowsStep<L>(init: seq<Row<L>>, last: Row<L>)
    ensures |CompleteRows(init + [last])|
         == |CompleteRows(init)| + if last.humanLabel.Some? && last.judgeLabel.Some? then 1 else 0
  {
    assert CompleteRows(init + [last])
        == CompleteRows(init) + if last.humanLabel.Some? && last.judgeLabel.Some? then {|init|} else {};
  }

  lemma {:induction false} CompleteSize<L>(rows: seq<Row<L>>)
    ensures |Complete(rows)| == |CompleteRows(rows)|
  {
    if rows != [] {
      var n := |rows| - 1;
      var init, last := rows[..n], rows[n];
      assert rows == init + [last];
      CompleteSize(init);
      CompleteConcat(init, [last]);
      hide CompleteRows;
      CompleteRowsStep(init, last);
    }
  }

  /** How many pairs a golden set offers. */
  ghost function Offered<L>(g: GoldenSet<L>): nat {
    match g
    case Tuples(pairs) => |pairs|
    case Rows(rows) => |CompleteRows(rows)|
  }

  lemma OfferedPairs<L>(g: GoldenSet<L>)
    ensures |PairsOf(g)| == Offered(g)
  {
    if g.Rows? { CompleteSize(g.rows); }
  }

  datatype JudgeCall = NoJudge | Returned | TimedOut | Raised

  datatype CalibrationResult = CalibrationResult(kappa: Option<real>, action: string, fallback: Option<string>)

  function Gate(kappa: Option<real>): string {
    if kappa.Some? && kappa.value >= 0.7 then "pass" else "recalibration"
  }

  predicate Deviates(deviation: Option<real>, threshold: Option<real>) {
    deviation.Some? && threshold.Some? && deviation.value > threshold.value
  }

  /** `run_cycle`; the outcome of the judge call and the cached kappa are inputs. */
  function RunCycle<L(==)>(golden: GoldenSet<L>, order: seq<L>, deviation: Option<real>, threshold: Option<real>,
                           call: JudgeCall, cached: Option<real>): CalibrationResult
  {
    if Deviates(deviation, threshold) then CalibrationResult(None, "recalibration", None)
    else if !IsEmpty(golden) then
      var kappa := AgreementRate(PairsOf(golden), order);
      CalibrationResult(kappa, Gate(kappa), None)
    else
      match call
      case NoJudge => CalibrationResult(None, "pass", None)
      case Returned => CalibrationResult(None, "pass", None)
      case TimedOut => CalibrationResult(None, "skip_cycle", None)
      case Raised => CalibrationResult(cached, Gate(cached), Some("cached_kappa"))
  }

  /** The gate, in whole numbers: with n complete pairs, m of them agreeing, and
      s chance matches, a cycle on a golden set passes exactly when the
      deviation does not exceed its threshold, n is positive, and
      10 (m n - s) >= 7 (n n - s). */
  lemma PassExactly<L>(golden: GoldenSet<L>, order: seq<L>, deviation: Option<real>, threshold: Option<real>,
                       call: JudgeCall, cached: Option<real>)
    requires !IsEmpty(golden) && Covers(order, PairsOf(golden))
    ensures
      var pairs := PairsOf(golden);
      var n, m, s := Offered(golden), Matches(pairs), CrossMatches(pairs, pairs);
      RunCycle(golden, order, deviation, threshold, call, cached).action == "pass"
      <==> !(deviation.Some? && threshold.Some? && deviation.value > threshold.value)
           && n > 0 && 10 * (m * n - s) >= 7 * (n * n - s)
  {
    hide Matches, CrossMatches, PairsOf, Covers, Offered;
    var pairs := PairsOf(golden);
    OfferedPairs(golden);
    if pairs != [] {
      var n, m, s := |pairs|, Matches(pairs), CrossMatches(pairs, pairs);
      KappaAsRatio(pairs, order);
      hide AgreementRate;
      if s < n * n {
        AtLeastSevenTenths(m * n - s, n * n - s);
      }
    }
  }

  /** Without a golden set the judge call decides: a timeout skips the cycle, a
      failure falls back on the cached kappa and its gate, anything else passes. */
  lemma EmptyCycleExactly<L>(golden: GoldenSet<L>, order: seq<L>, deviation: Option<real>, threshold: Option<real>,
                             call: JudgeCall, cached: Option<real>)
    requires golden == Tuples([]) || golden == Rows([])
    requires !(deviation.Some? && threshold.Some? && deviation.value > threshold.value)
    ensures
      var r := RunCycle(golden, order, deviation, threshold, call, cached);
      && (r.action == "skip_cycle" <==> call == TimedOut)
      && (r.action == "recalibration" <==> call == Raised && (cached == None || cached.value < 0.7))
      && (r.action == "pass" <==> call == NoJudge || call == Returned || (call == Raised && cached.Some? && cached.value >= 0.7))
      && (r.fallback == Some("cached_kappa") <==> call == Raised) && (r.fallback == None <==> call != Raised)
      && r.kappa == if call == Raised then cached else None
  {
  }

  lemma AtLeastSevenTenths(a: int, b: int)
    requires b > 0
    ensures a as real / b as real >= 0.7 <==> 10 * a >= 7 * b
  {
    var q := a as real / b as real;
    assert a as real == q * b as real;
  }

  /** A golden set on which the raters fully agree passes. */
  lemma FullAgreementPasses<L>(golden: GoldenSet<L>, order: seq<L>, deviation: Option<real>, threshold: Option<real>,
                               call: JudgeCall, cached: Option<real>)
    requires !Deviates(deviation, threshold)
    requires PairsOf(golden) != [] && Covers(order, PairsOf(golden)) && AllAgree(PairsOf(golden))
    ensures RunCycle(golden, order, deviation, threshold, call, cached) == CalibrationResult(Some(1.0), "pass", None)
  {
    KappaBounds(PairsOf(golden), order);
  }
}
