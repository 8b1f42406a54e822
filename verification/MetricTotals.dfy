/** Averages of the ranking metrics over users. */
module MetricTotals {
  import opened Metrics

  datatype UserMetrics =
    UserMetrics(precision: real, recall: real, f1: real, ndcg: real, hit: real, hits: nat)

  datatype Totals = Totals(precision: real, recall: real, f1: real, ndcg: real, hit: real)

  /** One evaluated user: the recommended list and the relevant items. */
  datatype Case = Case(recommended: seq<int>, relevant: set<int>)

  datatype Tally = Tally(users: nat, totals: Totals, items: set<int>)

  function MetricsOf(d: nat -> real, c: Case, k: int): UserMetrics {
    var precision, recall := Precision(c.recommended, c.relevant, k), Recall(c.recommended, c.relevant, k);
    var hits := Hits(Top(c.recommended, k), c.relevant);
    UserMetrics(precision, recall, F1(precision, recall), Ndcg(d, c.recommended, c.relevant, k),
                if hits > 0 then 1.0 else 0.0, hits)
  }

  function Step(d: nat -> real, k: int, t: Tally, c: Case): Tally {
    var m := MetricsOf(d, c, k);
    Tally(t.users + 1,
          Totals(t.totals.precision + m.precision, t.totals.recall + m.recall, t.totals.f1 + m.f1,
                 t.totals.ndcg + m.ndcg, t.totals.hit + m.hit),
          t.items + Members(Top(c.recommended, k)))
  }

  function TallyOf(d: nat -> real, k: int, cases: seq<Case>): Tally {
    if cases == [] then Tally(0, Totals(0.0, 0.0, 0.0, 0.0, 0.0), {})
    else Step(d, k, TallyOf(d, k, cases[..|cases| - 1]), cases[|cases| - 1])
  }

  lemma TallyGrows(d: nat -> real, k: int, earlier: seq<Case>, c: Case)
    ensures TallyOf(d, k, earlier + [c]) == Step(d, k, TallyOf(d, k, earlier), c)
  {
    assert (earlier + [c])[..|earlier|] == earlier;
  }

  class MetricAccumulator {
    const k: int
    const discount: nat -> real
    var users: nat
    var totals: Totals
    var recommendedItems: set<int>

    ghost function State(): Tally
      reads this
    {
      Tally(users, totals, recommendedItems)
    }

    constructor (discount: nat -> real, k: int)
      ensures this.k == k && this.discount == discount && State() == TallyOf(discount, k, [])
    {
      this.k, this.discount, users := k, discount, 0;
      totals, recommendedItems := Totals(0.0, 0.0, 0.0, 0.0, 0.0), {};
    }

    /** Adding the next case of an evaluation leaves the tally of all the cases so far. */
    method Add(recommended: seq<int>, relevant: set<int>, ghost earlier: seq<Case>) returns (m: UserMetrics)
      requires State() == TallyOf(discount, k, earlier)
      modifies this
      ensures m == MetricsOf(discount, Case(recommended, relevant), k)
      ensures State() == TallyOf(discount, k, earlier + [Case(recommended, relevant)])
    {
      m := MetricsOf(discount, Case(recommended, relevant), k);
      users := users + 1;
      totals := Totals(totals.precision + m.precision, totals.recall + m.recall, totals.f1 + m.f1,
                       totals.ndcg + m.ndcg, totals.hit + m.hit);
      recommendedItems := recommendedItems + Members(Top(recommended, k));
      TallyGrows(discount, k, earlier, Case(recommended, relevant));
    }
  }

  // ---------------------------------------------------------------- what the sums are of

  /** Positions among the first `k` whose item is relevant. */
  ghost function HitPositions(c: Case, k: int): (at: set<nat>)
    ensures c.recommended == [] ==> at == {}
  {
    set i: nat | i < |c.recommended| && i < k && c.recommended[i] in c.relevant
  }

  lemma {:induction false} HitsArePositions(c: Case, k: int)
    requires k >= 0
    ensures Hits(Top(c.recommended, k), c.relevant) == |HitPositions(c, k)|
    decreases |c.recommended|
  {
    if c.recommended == [] {
    } else {
      var n := |c.recommended| - 1;
      var init := c.(recommended := c.recommended[..n]);
      HitsArePositions(init, k);
      assert HitPositions(c, k) ==
             HitPositions(init, k) + if n < k && c.recommended[n] in c.relevant then {n} else {};
      if n < k {
        assert Top(c.recommended, k) == c.recommended && Top(init.recommended, k) == init.recommended;
      } else {
        assert Top(c.recommended, k) == Top(init.recommended, k);
      }
    }
  }

  ghost predicate Shares(whole: int, part: int, share: real) {
    share * whole as real == part as real
  }

  lemma QuotientShares(whole: int, part: int)
    requires whole > 0
    ensures Shares(whole, part, part as real / whole as real)
  {
  }

  /** The numbers of one user, each by the hits: their share of `k`, of the relevant items, and so on. */
  lemma MetricsAreOfTheHits(d: nat -> real, c: Case, k: int)
    requires k > 0
    ensures var m, hits := MetricsOf(d, c, k), |HitPositions(c, k)|;
      && m.hits == hits && m.hit == (if hits > 0 then 1.0 else 0.0)
      && Shares(k, hits, m.precision)
      && Shares(|c.relevant|, if c.relevant == {} then 0 else hits, m.recall)
      && (c.relevant == {} ==> m.recall == 0.0)
      && m.ndcg == Ndcg(d, c.recommended, c.relevant, k)
  {
    HitsArePositions(c, k);
    QuotientShares(k, |HitPositions(c, k)|);
    if c.relevant != {} {
      QuotientShares(|c.relevant|, |HitPositions(c, k)|);
    }
  }

  function SumOf(f: Case -> real, cases: seq<Case>): real {
    if cases == [] then 0.0 else SumOf(f, cases[..|cases| - 1]) + f(cases[|cases| - 1])
  }

  /** Each total is the sum of its own number over the users. */
  lemma {:induction false} TotalsAreSums(d: nat -> real, k: int, cases: seq<Case>)
    ensures var t := TallyOf(d, k, cases);
      && t.users == |cases|
      && t.totals.precision == SumOf((c: Case) => Precision(c.recommended, c.relevant, k), cases)
      && t.totals.recall == SumOf((c: Case) => Recall(c.recommended, c.relevant, k), cases)
      && t.totals.f1 == SumOf((c: Case) => MetricsOf(d, c, k).f1, cases)
      && t.totals.ndcg == SumOf((c: Case) => Ndcg(d, c.recommended, c.relevant, k), cases)
      && t.totals.hit == SumOf((c: Case) => MetricsOf(d, c, k).hit, cases)
  {
    if cases != [] {
      TotalsAreSums(d, k, cases[..|cases| - 1]);
    }
  }

  ghost predicate Perfect(c: Case, k: int) {
    |c.relevant| > 0 && k > 0 && FillFront(Top(c.recommended, k), c.relevant, Arithmetic.Min(|c.relevant|, k))
  }

  lemma {:induction false} NdcgTotal(d: nat -> real, k: int, cases: seq<Case>)
    requires Discount(d) && forall c :: c in cases ==> Distinct(c.recommended)
    ensures TallyOf(d, k, cases).users == |cases|
    ensures 0.0 <= TallyOf(d, k, cases).totals.ndcg <= |cases| as real
    ensures TallyOf(d, k, cases).totals.ndcg == |cases| as real <==> forall c :: c in cases ==> Perfect(c, k)
  {
    if cases != [] {
      var init, last := cases[..|cases| - 1], cases[|cases| - 1];
      assert cases == init + [last];
      NdcgTotal(d, k, init);
      DuplicateFreeNdcg(d, last.recommended, last.relevant, k);
    }
  }

  /** Mean NDCG over duplicate-free lists lies in the unit interval, and is 1 only if every list is perfect. */
  lemma MeanNdcg(d: nat -> real, k: int, cases: seq<Case>)
    requires Discount(d) && cases != [] && forall c :: c in cases ==> Distinct(c.recommended)
    ensures var t := TallyOf(d, k, cases);
      && t.users == |cases|
      && 0.0 <= t.totals.ndcg / t.users as real <= 1.0
      && (t.totals.ndcg / t.users as real == 1.0 <==> forall c :: c in cases ==> Perfect(c, k))
  {
    NdcgTotal(d, k, cases);
    DivideAtMost(TallyOf(d, k, cases).totals.ndcg, |cases| as real);
  }

  /** The covered items are those in the top `k` of some list. */
  lemma {:induction false} CoveredItems(d: nat -> real, k: int, cases: seq<Case>, x: int)
    ensures x in TallyOf(d, k, cases).items <==> exists c :: c in cases && x in Top(c.recommended, k)
  {
    if cases != [] {
      var init, last := cases[..|cases| - 1], cases[|cases| - 1];
      assert cases == init + [last];
      CoveredItems(d, k, init, x);
    }
  }
}
