/** Ranking metrics. */
module Metrics {
  // Offline ranking metrics, with the rank discount as any positive, strictly decreasing
  // function.

  import opened Arithmetic

  ghost predicate Discount(d: nat -> real) {
    (forall i :: d(i) > 0.0) && (forall i, j :: i < j ==> d(i) > d(j))
  }

  /** `recommended[:k]`: a negative `k` drops entries from the end. */
  function Top(recommended: seq<int>, k: int): (r: seq<int>)
    ensures r <= recommended && (0 <= k ==> |r| <= k)
  {
    if k >= |recommended| then recommended
    else if k >= 0 then recommended[..k]
    else if |recommended| + k >= 0 then recommended[..|recommended| + k]
    else []
  }

  /** A prefix: of `k` entries, or all but the last `-k` ones. */
  lemma TopIsAPrefix(recommended: seq<int>, k: int)
    ensures Top(recommended, k) <= recommended
    ensures 0 <= k <= |recommended| ==> |Top(recommended, k)| == k
    ensures k > |recommended| ==> Top(recommended, k) == recommended
    ensures -|recommended| <= k < 0 ==> |recommended| - |Top(recommended, k)| == -k
    ensures k < -|recommended| ==> Top(recommended, k) == []
  {
  }

  function Hits(top: seq<int>, relevant: set<int>): (h: nat)
    ensures h <= |top|
  {
    if top == [] then 0
    else Hits(top[..|top| - 1], relevant) + if top[|top| - 1] in relevant then 1 else 0
  }

  function Gain(d: nat -> real, i: nat, x: int, relevant: set<int>): real {
    if x in relevant then d(i) else 0.0
  }

  function Dcg(d: nat -> real, top: seq<int>, relevant: set<int>): real {
    if top == [] then 0.0
    else Dcg(d, top[..|top| - 1], relevant) + Gain(d, |top| - 1, top[|top| - 1], relevant)
  }

  function Ideal(d: nat -> real, n: nat): real {
    if n == 0 then 0.0 else Ideal(d, n - 1) + d(n - 1)
  }

  function Ndcg(d: nat -> real, recommended: seq<int>, relevant: set<int>, k: int): real {
    if |relevant| == 0 || k <= 0 then 0.0
    else
      var ideal := Ideal(d, Min(|relevant|, k));
      if ideal > 0.0 then Dcg(d, Top(recommended, k), relevant) / ideal else 0.0
  }

  // ---------------------------------------------------------------- the rearrangement

  lemma {:induction false} IdealIncreases(d: nat -> real, m: nat, n: nat)
    requires Discount(d) && m <= n
    ensures Ideal(d, m) <= Ideal(d, n) && (m < n ==> Ideal(d, m) < Ideal(d, n))
  {
    if m < n {
      IdealIncreases(d, m, n - 1);
    }
  }

  ghost predicate FillFront(top: seq<int>, relevant: set<int>, n: nat) {
    n <= |top| && forall i :: 0 <= i < n ==> top[i] in relevant
  }

  lemma {:induction false} FrontFilledCounts(top: seq<int>, relevant: set<int>, n: nat)
    requires FillFront(top, relevant, n)
    ensures n <= Hits(top, relevant)
  {
    if top != [] {
      var init := top[..|top| - 1];
      FrontFilledCounts(init, relevant, if n < |top| then n else n - 1);
    }
  }

  lemma {:induction false} DcgBound(d: nat -> real, top: seq<int>, relevant: set<int>)
    requires Discount(d)
    ensures 0.0 <= Dcg(d, top, relevant) <= Ideal(d, Hits(top, relevant))
  {
    if top != [] {
      var n := |top| - 1;
      var h := Hits(top[..n], relevant);
      DcgBound(d, top[..n], relevant);
      assert d(n) > 0.0 && (h < n ==> d(h) > d(n));
    }
  }

  lemma FillFrontOfInit(top: seq<int>, relevant: set<int>, n: nat)
    requires n < |top|
    ensures FillFront(top, relevant, n) == FillFront(top[..|top| - 1], relevant, n)
  {
  }

  /** The gain of a list is at most the ideal of its hits, and equal only when the hits come first. */
  lemma {:induction false} DcgAtMostIdeal(d: nat -> real, top: seq<int>, relevant: set<int>)
    requires Discount(d)
    ensures 0.0 <= Dcg(d, top, relevant) <= Ideal(d, Hits(top, relevant))
    ensures Dcg(d, top, relevant) == Ideal(d, Hits(top, relevant))
       <==> FillFront(top, relevant, Hits(top, relevant))
  {
    DcgBound(d, top, relevant);
    if top != [] {
      var n := |top| - 1;
      var init, h := top[..n], Hits(top[..n], relevant);
      DcgAtMostIdeal(d, init, relevant);
      FillFrontOfInit(top, relevant, h);
      if top[n] in relevant && h < n {
        assert d(h) > d(n);
        FillFrontOfInit(top, relevant, h + 1);
        if FillFront(init, relevant, h + 1) {
          FrontFilledCounts(init, relevant, h + 1);
        }
      }
    }
  }

  lemma IdealIsPositive(d: nat -> real, n: nat)
    requires Discount(d) && n > 0
    ensures Ideal(d, n) > 0.0
  {
    IdealIncreases(d, 0, n);
  }

  lemma DivideAtMost(x: real, y: real)
    requires y > 0.0
    ensures x >= 0.0 <==> x / y >= 0.0
    ensures x <= y <==> x / y <= 1.0
    ensures x == y <==> x / y == 1.0
    ensures x == 0.0 <==> x / y == 0.0
  {
    assert x == x / y * y;
  }

  /**
   * With no more hits than relevant items, NDCG lies between 0 and 1, is 1 exactly when
   * the hits fill the first `min(|relevant|, k)` positions, and 0 exactly without hits.
   */
  lemma NdcgIsNormalised(d: nat -> real, recommended: seq<int>, relevant: set<int>, k: int)
    requires Discount(d) && |relevant| > 0 && k > 0
    requires Hits(Top(recommended, k), relevant) <= |relevant|
    ensures 0.0 <= Ndcg(d, recommended, relevant, k) <= 1.0
    ensures Ndcg(d, recommended, relevant, k) == 1.0
       <==> FillFront(Top(recommended, k), relevant, Min(|relevant|, k))
    ensures Ndcg(d, recommended, relevant, k) == 0.0 <==> Hits(Top(recommended, k), relevant) == 0
  {
    var top, m := Top(recommended, k), Min(|relevant|, k);
    var h := Hits(top, relevant);
    DcgAtMostIdeal(d, top, relevant);
    IdealIncreases(d, h, m);
    IdealIsPositive(d, m);
    DivideAtMost(Dcg(d, top, relevant), Ideal(d, m));
    if FillFront(top, relevant, m) {
      FrontFilledCounts(top, relevant, m);
    }
    if h > 0 {
      HitsHaveGain(d, top, relevant);
    }
  }

  lemma {:induction false} HitsHaveGain(d: nat -> real, top: seq<int>, relevant: set<int>)
    requires Discount(d) && Hits(top, relevant) > 0
    ensures Dcg(d, top, relevant) > 0.0
  {
    DcgAtMostIdeal(d, top[..|top| - 1], relevant);
    if top[|top| - 1] !in relevant {
      HitsHaveGain(d, top[..|top| - 1], relevant);
    }
  }

  ghost predicate Distinct(s: seq<int>) {
    forall i, j :: 0 <= i < j < |s| ==> s[i] != s[j]
  }

  /** A list without repeats cannot hit more items than there are. */
  lemma {:induction false} DistinctHitsAreBounded(top: seq<int>, relevant: set<int>)
    requires Distinct(top)
    ensures Hits(top, relevant) <= |relevant|
  {
    if top != [] {
      var init, last := top[..|top| - 1], top[|top| - 1];
      if last in relevant {
        DistinctHitsAreBounded(init, relevant - {last});
        SameHits(init, relevant, last);
      } else {
        DistinctHitsAreBounded(init, relevant);
      }
    }
  }

  lemma {:induction false} SameHits(top: seq<int>, relevant: set<int>, x: int)
    requires x !in top
    ensures Hits(top, relevant) == Hits(top, relevant - {x})
  {
    if top != [] {
      SameHits(top[..|top| - 1], relevant, x);
    }
  }

  lemma DuplicateFreeNdcg(d: nat -> real, recommended: seq<int>, relevant: set<int>, k: int)
    requires Discount(d) && Distinct(recommended)
    ensures 0.0 <= Ndcg(d, recommended, relevant, k) <= 1.0
    ensures Ndcg(d, recommended, relevant, k) == 1.0
       <==> |relevant| > 0 && k > 0 && FillFront(Top(recommended, k), relevant, Min(|relevant|, k))
  {
    if |relevant| > 0 && k > 0 {
      DistinctHitsAreBounded(Top(recommended, k), relevant);
      NdcgIsNormalised(d, recommended, relevant, k);
    }
  }

  // ---------------------------------------------------------------- repeated items

  /** A discount so flat that `n` hits at any rank outweigh an ideal of fewer than `n`. */
  function Flat(m: nat): nat -> real
    requires m > 0
  {
    (i: nat) => 1.0 + 1.0 / (m as real * (i + 1) as real)
  }

  lemma FlatValue(m: nat, i: nat)
    requires m > 0
    ensures m as real * (i + 1) as real > 0.0
    ensures 1.0 < Flat(m)(i) <= 1.0 + 1.0 / m as real
  {
    var a, b := m as real, (i + 1) as real;
    assert a * b >= a by { assert a * (b - 1.0) >= 0.0; }
    Reciprocal(a, a * b);
  }

  lemma Reciprocal(x: real, y: real)
    requires 0.0 < x <= y
    ensures 0.0 < 1.0 / y <= 1.0 / x
    ensures x < y ==> 1.0 / y < 1.0 / x
  {
    assert 1.0 / x - 1.0 / y == (y - x) / (x * y);
    assert x * y > 0.0;
    DivideAtMost(y - x, x * y);
  }

  lemma FlatIsADiscount(m: nat)
    requires m > 0
    ensures Discount(Flat(m))
  {
    forall i: nat ensures Flat(m)(i) > 0.0 { FlatValue(m, i); }
    forall i: nat, j: nat | i < j ensures Flat(m)(i) > Flat(m)(j) {
      FlatValue(m, i);
      var a, b, c := m as real, (i + 1) as real, (j + 1) as real;
      assert a * b < a * c by { assert a * (c - b) > 0.0; }
      Reciprocal(a * b, a * c);
    }
  }

  lemma {:induction false} FlatGain(m: nat, top: seq<int>, relevant: set<int>)
    requires m > 0
    ensures Dcg(Flat(m), top, relevant) >= Hits(top, relevant) as real
    ensures Hits(top, relevant) > 0 ==> Dcg(Flat(m), top, relevant) > Hits(top, relevant) as real
  {
    if top != [] {
      FlatGain(m, top[..|top| - 1], relevant);
      FlatValue(m, |top| - 1);
    }
  }

  lemma {:induction false} FlatIdeal(m: nat, n: nat)
    requires m > 0
    ensures Ideal(Flat(m), n) <= n as real * (1.0 + 1.0 / m as real)
  {
    if n > 0 {
      FlatIdeal(m, n - 1);
      FlatValue(m, n - 1);
      var c := 1.0 + 1.0 / m as real;
      assert (n - 1) as real * c + c == n as real * c;
    }
  }

  /**
   * NDCG stays at most 1 whatever the discount exactly when the list has no more hits than
   * there are relevant items; repeating a relevant item can break it.
   */
  lemma NdcgAtMostOneExactly(recommended: seq<int>, relevant: set<int>, k: int)
    requires |relevant| > 0 && k > 0
    ensures (forall d: nat -> real | Discount(d) :: Ndcg(d, recommended, relevant, k) <= 1.0)
       <==> Hits(Top(recommended, k), relevant) <= |relevant|
  {
    var top, m := Top(recommended, k), |relevant|;
    var h := Hits(top, relevant);
    if h <= m {
      forall d: nat -> real | Discount(d) ensures Ndcg(d, recommended, relevant, k) <= 1.0 {
        NdcgIsNormalised(d, recommended, relevant, k);
      }
    } else {
      FlatIsADiscount(m);
      FlatGain(m, top, relevant);
      FlatIdeal(m, m);
      IdealIsPositive(Flat(m), m);
      assert m as real * (1.0 + 1.0 / m as real) == m as real + 1.0;
      assert Min(m, k) == m;
      DivideAtMost(Dcg(Flat(m), top, relevant), Ideal(Flat(m), m));
      assert Discount(Flat(m)) && !(Ndcg(Flat(m), recommended, relevant, k) <= 1.0);
    }
  }

  /** Weights that halve from rank to rank: all the later ones together are less than one. */
  function Halving(i: nat): real {
    if i == 0 then 1.0 else Halving(i - 1) / 2.0
  }

  lemma {:induction false} HalvingIsPositive(i: nat)
    ensures Halving(i) > 0.0
  {
    if i > 0 {
      HalvingIsPositive(i - 1);
    }
  }

  lemma {:induction false} HalvingFalls(i: nat, j: nat)
    requires i < j
    ensures Halving(i) > Halving(j)
  {
    HalvingIsPositive(j - 1);
    if i < j - 1 {
      HalvingFalls(i, j - 1);
    }
  }

  lemma HalvingIsADiscount()
    ensures Discount(Halving)
  {
    forall i: nat ensures Halving(i) > 0.0 { HalvingIsPositive(i); }
    forall i: nat, j: nat | i < j ensures Halving(i) > Halving(j) { HalvingFalls(i, j); }
  }

  /** A miss at rank `p` costs more, under halving weights, than all later hits can return. */
  lemma {:induction false} MissOutweighsLaterHits(top: seq<int>, relevant: set<int>, p: nat)
    requires p < |top| && top[p] !in relevant
    ensures Dcg(Halving, top, relevant) <= Ideal(Halving, p + 1) - Halving(|top| - 1)
  {
    var n := |top| - 1;
    if p == n {
      AllHitsAtMost(top[..n], relevant);
    } else {
      MissOutweighsLaterHits(top[..n], relevant, p);
      HalvingIsPositive(n);
    }
  }

  lemma {:induction false} AllHitsAtMost(top: seq<int>, relevant: set<int>)
    ensures Dcg(Halving, top, relevant) <= Ideal(Halving, |top|)
  {
    if top != [] {
      AllHitsAtMost(top[..|top| - 1], relevant);
      HalvingIsPositive(|top| - 1);
    }
  }

  /** A full front and one hit more gain more than the ideal of the front. */
  lemma {:induction false} FullFrontAndMore(d: nat -> real, top: seq<int>, relevant: set<int>, m: nat)
    requires Discount(d) && FillFront(top, relevant, m)
    ensures Dcg(d, top, relevant) >= Ideal(d, m)
    ensures Hits(top, relevant) > m ==> Dcg(d, top, relevant) > Ideal(d, m)
    decreases |top|
  {
    if |top| == m {
      AllHits(d, top, relevant);
    } else {
      FillFrontOfInit(top, relevant, m);
      FullFrontAndMore(d, top[..|top| - 1], relevant, m);
      assert d(|top| - 1) > 0.0;
    }
  }

  lemma {:induction false} AllHits(d: nat -> real, top: seq<int>, relevant: set<int>)
    requires forall i :: 0 <= i < |top| ==> top[i] in relevant
    ensures Dcg(d, top, relevant) == Ideal(d, |top|) && Hits(top, relevant) == |top|
  {
    if top != [] {
      AllHits(d, top[..|top| - 1], relevant);
    }
  }

  lemma AtMostIdealIsAtMostOne(d: nat -> real, recommended: seq<int>, relevant: set<int>, k: int)
    requires Discount(d) && |relevant| > 0 && k > 0
    requires Dcg(d, Top(recommended, k), relevant) <= Ideal(d, Min(|relevant|, k))
    ensures Ndcg(d, recommended, relevant, k) <= 1.0
  {
    IdealIsPositive(d, Min(|relevant|, k));
    DivideAtMost(Dcg(d, Top(recommended, k), relevant), Ideal(d, Min(|relevant|, k)));
  }

  lemma EarlyMissGainsLess(top: seq<int>, relevant: set<int>, p: nat, m: nat)
    requires p < m && p < |top| && top[p] !in relevant
    ensures Dcg(Halving, top, relevant) <= Ideal(Halving, m)
  {
    HalvingIsADiscount();
    MissOutweighsLaterHits(top, relevant, p);
    HalvingIsPositive(|top| - 1);
    IdealIncreases(Halving, p + 1, m);
  }

  lemma FirstMiss(top: seq<int>, relevant: set<int>, m: nat) returns (p: nat)
    requires m <= |top| && !FillFront(top, relevant, m)
    ensures p < m && top[p] !in relevant
  {
    p :| p < m && top[p] !in relevant;
  }

  lemma HalvingStaysAtMostOne(recommended: seq<int>, relevant: set<int>, k: int)
    requires |relevant| > 0 && k > 0
    requires !FillFront(Top(recommended, k), relevant, Min(|relevant|, k))
          || Hits(Top(recommended, k), relevant) <= |relevant|
    ensures Ndcg(Halving, recommended, relevant, k) <= 1.0
  {
    if Hits(Top(recommended, k), relevant) <= |relevant| {
      HalvingIsADiscount();
      NdcgIsNormalised(Halving, recommended, relevant, k);
    } else {
      var p := FirstMiss(Top(recommended, k), relevant, Min(|relevant|, k));
      EarlyMissGainsLess(Top(recommended, k), relevant, p, Min(|relevant|, k));
      HalvingIsADiscount();
      AtMostIdealIsAtMostOne(Halving, recommended, relevant, k);
    }
  }

  /**
   NDCG exceeds 1 whatever the discount exactly when the first `min(|relevant|, k)` entries are
   all hits and there are more hits than relevant items. Between this and `NdcgAtMostOneExactly`
   the discount decides.
   */
  lemma NdcgAboveOneExactly(recommended: seq<int>, relevant: set<int>, k: int)
    requires |relevant| > 0 && k > 0
    ensures (forall d: nat -> real | Discount(d) :: Ndcg(d, recommended, relevant, k) > 1.0)
       <==> (FillFront(Top(recommended, k), relevant, Min(|relevant|, k)) &&
             Hits(Top(recommended, k), relevant) > |relevant|)
  {
    var top, m := Top(recommended, k), Min(|relevant|, k);
    if FillFront(top, relevant, m) && Hits(top, relevant) > |relevant| {
      forall d: nat -> real | Discount(d) ensures Ndcg(d, recommended, relevant, k) > 1.0 {
        FullFrontAndMore(d, top, relevant, m);
        IdealIsPositive(d, m);
        DivideAtMost(Dcg(d, top, relevant), Ideal(d, m));
      }
    } else {
      HalvingIsADiscount();
      HalvingStaysAtMostOne(recommended, relevant, k);
      assert !(Ndcg(Halving, recommended, relevant, k) > 1.0);
    }
  }

  /** One relevant item listed twice scores above 1, whatever the discount. */
  lemma RepeatedHitExceedsOne(d: nat -> real, x: int)
    requires Discount(d)
    ensures Ndcg(d, [x, x], {x}, 2) > 1.0
  {
    assert Ideal(d, 1) == Ideal(d, 0) + d(0);
    assert [x, x][..1] == [x] && [x][..0] == [];
    assert Dcg(d, [x], {x}) == d(0);
    assert Dcg(d, [x, x], {x}) == d(0) + d(1);
    DivideAtMost(d(0) + d(1), d(0));
  }

  // ---------------------------------------------------------------- promotion

  lemma {:induction false} DcgUpdate(d: nat -> real, top: seq<int>, relevant: set<int>, i: nat, x: int)
    requires i < |top|
    ensures Dcg(d, top[i := x], relevant)
         == Dcg(d, top, relevant) - Gain(d, i, top[i], relevant) + Gain(d, i, x, relevant)
  {
    var n := |top| - 1;
    if i < n {
      DcgUpdate(d, top[..n], relevant, i, x);
      assert top[i := x][..n] == top[..n][i := x];
    } else {
      assert top[i := x][..n] == top[..n];
    }
  }

  /** Swapping a hit into the place of an earlier miss inside the top `k` raises NDCG. */
  lemma PromotionRaisesNdcg(d: nat -> real, recommended: seq<int>, relevant: set<int>, k: int, i: nat, j: nat)
    requires Discount(d) && i < j < |recommended| && i < k
    requires recommended[i] !in relevant && recommended[j] in relevant
    ensures Ndcg(d, recommended[i := recommended[j]][j := recommended[i]], relevant, k)
          > Ndcg(d, recommended, relevant, k)
  {
    var swapped := recommended[i := recommended[j]][j := recommended[i]];
    var top := Top(recommended, k);
    var m := Min(|relevant|, k);
    assert |relevant| > 0 by { assert relevant != {}; }
    DcgUpdate(d, top, relevant, i, recommended[j]);
    if j < k {
      DcgUpdate(d, top[i := recommended[j]], relevant, j, recommended[i]);
      assert Top(swapped, k) == top[i := recommended[j]][j := recommended[i]];
    } else {
      assert Top(swapped, k) == top[i := recommended[j]];
    }
    IdealIsPositive(d, m);
    DivideOrder(Dcg(d, top, relevant), Dcg(d, Top(swapped, k), relevant), Ideal(d, m));
  }

  lemma DivideOrder(x: real, y: real, z: real)
    requires x < y && z > 0.0
    ensures x / z < y / z
  {
    assert y / z - x / z == (y - x) / z;
    DivideAtMost(y - x, z);
  }

  // ---------------------------------------------------------------- precision, recall, F1

  function Precision(recommended: seq<int>, relevant: set<int>, k: int): real {
    if k <= 0 then 0.0 else Hits(Top(recommended, k), relevant) as real / k as real
  }

  function Recall(recommended: seq<int>, relevant: set<int>, k: int): real {
    if |relevant| == 0 then 0.0 else Hits(Top(recommended, k), relevant) as real / |relevant| as real
  }

  /** Without a cut or without relevant items there is nothing to score. */
  lemma NothingToScore(d: nat -> real, recommended: seq<int>, relevant: set<int>, k: int)
    requires k <= 0 || relevant == {}
    ensures Ndcg(d, recommended, relevant, k) == 0.0
    ensures k <= 0 ==> Precision(recommended, relevant, k) == 0.0
    ensures relevant == {} ==> Recall(recommended, relevant, k) == 0.0
  {
  }

  function F1(precision: real, recall: real): real {
    if precision + recall == 0.0 then 0.0 else 2.0 * precision * recall / (precision + recall)
  }

  lemma HarmonicMean(h: real, k: real, t: real)
    requires h > 0.0 && k > 0.0 && t > 0.0
    ensures F1(h / k, h / t) == 2.0 * h / (k + t)
  {
    var p, r := h / k, h / t;
    assert p > 0.0 && r > 0.0;
    assert p * k == h && r * t == h;
    CrossMultiply(2.0 * p * r, p + r, 2.0 * h, k + t) by {
      assert p * r * k == r * h && p * r * t == p * h;
      assert 2.0 * p * r * (k + t) == 2.0 * (p * r * k) + 2.0 * (p * r * t);
      assert 2.0 * h * (p + r) == 2.0 * (r * h) + 2.0 * (p * h);
    }
  }

  lemma CrossMultiply(a: real, b: real, c: real, e: real)
    requires b > 0.0 && e > 0.0 && a * e == c * b
    ensures a / b == c / e
  {
    assert a == a / b * b && c == c / e * e;
    assert (a / b - c / e) * (b * e) == a * e - c * b by {
      assert a / b * (b * e) == a * e;
      assert c / e * (b * e) == c * b;
    }
  }

  /** F1 counts hits against both list lengths at once; precision and F1 never exceed 1. */
  lemma F1CountsHits(recommended: seq<int>, relevant: set<int>, k: int)
    requires k > 0 && |relevant| > 0
    ensures F1(Precision(recommended, relevant, k), Recall(recommended, relevant, k))
         == 2.0 * Hits(Top(recommended, k), relevant) as real / (k + |relevant|) as real
    ensures 0.0 <= Precision(recommended, relevant, k) <= 1.0
    ensures 0.0 <= Recall(recommended, relevant, k)
    ensures Recall(recommended, relevant, k) <= 1.0 <==> Hits(Top(recommended, k), relevant) <= |relevant|
  {
    var h := Hits(Top(recommended, k), relevant);
    DivideAtMost(h as real, k as real);
    DivideAtMost(h as real, |relevant| as real);
    if h > 0 {
      HarmonicMean(h as real, k as real, |relevant| as real);
      assert k as real + |relevant| as real == (k + |relevant|) as real;
    }
  }

  // ---------------------------------------------------------------- accuracy

  function Members(s: seq<int>): set<int> {
    set x | x in s
  }

  /** The count of correct predictions that the accuracy divides by the catalog size. */
  function Correct(recommended: seq<int>, relevant: set<int>, k: int, catalogSize: int): int {
    var top := Members(Top(recommended, k));
    var truePositive := |top * relevant|;
    var falsePositive := |top| - truePositive;
    var falseNegative := |relevant| - truePositive;
    truePositive + (catalogSize - truePositive - falsePositive - falseNegative)
  }

  function Accuracy(recommended: seq<int>, relevant: set<int>, k: int, catalogSize: int): real {
    if catalogSize <= 0 then 0.0
    else Correct(recommended, relevant, k, catalogSize) as real / catalogSize as real
  }

  /** Items that one of the two sets has and the other has not. */
  function Disagreement(top: set<int>, relevant: set<int>): set<int> {
    (top - relevant) + (relevant - top)
  }

  lemma DisagreementSize(top: set<int>, relevant: set<int>)
    ensures |Disagreement(top, relevant)| == |top| + |relevant| - 2 * |top * relevant|
    ensures |Disagreement(top, relevant)| == 0 <==> top == relevant
  {
    var both := top * relevant;
    assert top == (top - relevant) + both && relevant == (relevant - top) + both;
    assert |top| == |top - relevant| + |both|;
    assert |relevant| == |relevant - top| + |both|;
    assert |Disagreement(top, relevant)| == |top - relevant| + |relevant - top|;
    if |Disagreement(top, relevant)| == 0 {
      assert top - relevant == {} && relevant - top == {};
      assert top == both && relevant == both;
    }
  }

  /**
   The cell arithmetic counts all but the items on which recommended and relevant disagree. So
   accuracy never exceeds 1, is 1 exactly when the two agree, and is negative exactly when they
   disagree on more items than the catalog is said to have.
   */
  lemma AccuracyCountsDisagreement(recommended: seq<int>, relevant: set<int>, k: int, catalogSize: int)
    ensures var top := Members(Top(recommended, k));
            var wrong, accuracy := |Disagreement(top, relevant)|, Accuracy(recommended, relevant, k, catalogSize);
            && Correct(recommended, relevant, k, catalogSize) == catalogSize - wrong
            && accuracy <= 1.0 && (catalogSize <= 0 ==> accuracy == 0.0)
            && (accuracy == 1.0 <==> catalogSize > 0 && top == relevant)
            && (accuracy < 0.0 <==> 0 < catalogSize < wrong)
  {
    DisagreementSize(Members(Top(recommended, k)), relevant);
    if catalogSize > 0 {
      DivideAtMost(Correct(recommended, relevant, k, catalogSize) as real, catalogSize as real);
    }
  }

  /** Over a catalog that has them all, the same number counts the items on which the two agree. */
  lemma AccuracyCountsAgreement(recommended: seq<int>, relevant: set<int>, k: int, catalog: set<int>)
    requires Members(Top(recommended, k)) <= catalog && relevant <= catalog
    ensures Correct(recommended, relevant, k, |catalog|)
         == |set x | x in catalog && (x in Members(Top(recommended, k)) <==> x in relevant)|
  {
    var top := Members(Top(recommended, k));
    var agree := set x | x in catalog && (x in top <==> x in relevant);
    DisagreementSize(top, relevant);
    assert catalog == agree + Disagreement(top, relevant);
    assert |catalog| == |agree| + |Disagreement(top, relevant)|;
  }
}
