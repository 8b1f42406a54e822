/** The popularity ranking. */
module PopularityRanking {
  // The popularity ranking: scores shrunk to the global mean, and the per-category rankings cut
  // from it.

  import opened Arithmetic
  import opened Wrappers
  import opened Ratings
  import opened Rows
  import opened Sorting
  import opened Timestamps

  // ---------------------------------------------------------------- grouping

  function CountOf(ratings: seq<Rating>, item: int): (n: nat) {
    if ratings == [] then 0
    else CountOf(ratings[..|ratings| - 1], item) + if ratings[|ratings| - 1].item == item then 1 else 0
  }

  function SumOf(ratings: seq<Rating>, item: int): real {
    if ratings == [] then 0.0
    else SumOf(ratings[..|ratings| - 1], item)
         + if ratings[|ratings| - 1].item == item then ratings[|ratings| - 1].rating else 0.0
  }

  function Total(ratings: seq<Rating>): real {
    if ratings == [] then 0.0 else Total(ratings[..|ratings| - 1]) + ratings[|ratings| - 1].rating
  }

  /** Counts and sums take each row once: they add up over a table cut in two, and are known for one row. */
  lemma {:induction false} SumsAddUp(a: seq<Rating>, b: seq<Rating>, item: int)
    ensures CountOf(a + b, item) == CountOf(a, item) + CountOf(b, item)
    ensures SumOf(a + b, item) == SumOf(a, item) + SumOf(b, item)
    ensures Total(a + b) == Total(a) + Total(b)
  {
    if b == [] {
      assert a + b == a;
    } else {
      assert (a + b)[..|a + b| - 1] == a + b[..|b| - 1];
      SumsAddUp(a, b[..|b| - 1], item);
    }
  }

  lemma SumsOfOne(r: Rating, item: int)
    ensures CountOf([r], item) == if r.item == item then 1 else 0
    ensures SumOf([r], item) == if r.item == item then r.rating else 0.0
    ensures Total([r]) == r.rating
  {
    var none: seq<Rating> := [];
    assert [r][..0] == none;
  }

  /** The group keys, each once and ascending. */
  function InsertId(ids: seq<int>, x: int): (r: seq<int>) {
    if ids == [] || ids[|ids| - 1] < x then ids + [x]
    else if ids[|ids| - 1] == x then ids
    else InsertId(ids[..|ids| - 1], x) + [ids[|ids| - 1]]
  }

  function ItemIds(ratings: seq<Rating>): seq<int> {
    if ratings == [] then [] else InsertId(ItemIds(ratings[..|ratings| - 1]), ratings[|ratings| - 1].item)
  }

  ghost predicate Ascending(ids: seq<int>) {
    forall i, j :: 0 <= i < j < |ids| ==> ids[i] < ids[j]
  }

  lemma {:induction false} InsertIdKeys(ids: seq<int>, x: int)
    requires Ascending(ids)
    ensures Ascending(InsertId(ids, x))
    ensures forall y :: y in InsertId(ids, x) <==> y in ids || y == x
  {
    if ids != [] && ids[|ids| - 1] >= x {
      assert ids == ids[..|ids| - 1] + [ids[|ids| - 1]];
      if ids[|ids| - 1] > x {
        InsertIdKeys(ids[..|ids| - 1], x);
        var init, last := InsertId(ids[..|ids| - 1], x), ids[|ids| - 1];
        forall i | 0 <= i < |init| ensures init[i] < last { assert init[i] in init; }
      }
    }
  }

  /** The keys are the rated items, each once. */
  lemma {:induction false} ItemIdsAreTheRated(ratings: seq<Rating>)
    ensures Ascending(ItemIds(ratings))
    ensures forall x :: x in ItemIds(ratings) <==> CountOf(ratings, x) > 0
  {
    if ratings != [] {
      ItemIdsAreTheRated(ratings[..|ratings| - 1]);
      InsertIdKeys(ItemIds(ratings[..|ratings| - 1]), ratings[|ratings| - 1].item);
    }
  }

  // ---------------------------------------------------------------- scores

  predicate AtMost(x: real, y: real) {
    x <= y
  }

  /** The middle of the sorted values, or the mean of the two middle ones. */
  function Median(values: seq<real>): real
    requires values != []
  {
    var sorted, n := Sort(AtMost, values), |values|;
    if n % 2 == 1 then sorted[n / 2] else (sorted[n / 2 - 1] + sorted[n / 2]) / 2.0
  }

  function Below(x: real): real -> bool {
    (y: real) => y < x
  }

  function NotAbove(x: real): real -> bool {
    (y: real) => y <= x
  }

  /** With `k` values before it in order, `x` is where position `k` falls: ties may stand on both sides. */
  ghost predicate AtRank(values: seq<real>, k: nat, x: real) {
    |Filter(Below(x), values)| <= k < |Filter(NotAbove(x), values)|
  }

  ghost predicate HalfWay(values: seq<real>, low: nat, high: nat, x: real) {
    exists a, b :: AtRank(values, low, a) && AtRank(values, high, b) && x == (a + b) / 2.0
  }

  /** Half way between the two middle values, which are one value when their number is odd. */
  ghost predicate InTheMiddle(values: seq<real>, x: real)
    requires values != []
  {
    HalfWay(values, (|values| - 1) / 2, |values| / 2, x)
  }

  lemma NoneBelowFrom(sorted: seq<real>, k: nat, x: real)
    requires SortedBy(AtMost, sorted) && k < |sorted| && x == sorted[k]
    ensures |Filter(Below(x), sorted)| <= k
  {
    var front, back := sorted[..k], sorted[k..];
    assert sorted == front + back;
    FilterOfConcat(Below(x), front, back);
    forall y | y in back ensures !Below(x)(y) {
      var i :| 0 <= i < |back| && back[i] == y;
      assert i > 0 ==> AtMost(sorted[k], sorted[k + i]);
    }
    FilterNone(Below(x), back);
  }

  lemma AllUpTo(sorted: seq<real>, k: nat, x: real)
    requires SortedBy(AtMost, sorted) && k < |sorted| && x == sorted[k]
    ensures k < |Filter(NotAbove(x), sorted)|
  {
    var upTo, rest := sorted[..k + 1], sorted[k + 1..];
    assert sorted == upTo + rest;
    FilterOfConcat(NotAbove(x), upTo, rest);
    forall y | y in upTo ensures NotAbove(x)(y) {
      var i :| 0 <= i < |upTo| && upTo[i] == y;
      assert i < k ==> AtMost(sorted[i], sorted[k]);
    }
    FilterAll(NotAbove(x), upTo);
  }

  lemma RankOfSorted(values: seq<real>, k: nat)
    requires k < |values|
    ensures AtRank(values, k, Sort(AtMost, values)[k])
  {
    var sorted := Sort(AtMost, values);
    assert TotalPreorder(AtMost);
    SortSorts(AtMost, values);
    SortPermutes(AtMost, values);
    NoneBelowFrom(sorted, k, sorted[k]);
    AllUpTo(sorted, k, sorted[k]);
    FilterOfPermutation(Below(sorted[k]), sorted, values);
    FilterOfPermutation(NotAbove(sorted[k]), sorted, values);
  }

  lemma MedianIsInTheMiddle(values: seq<real>)
    requires values != []
    ensures InTheMiddle(values, Median(values))
  {
    var n, sorted := |values|, Sort(AtMost, values);
    RankOfSorted(values, (n - 1) / 2);
    RankOfSorted(values, n / 2);
    assert Median(values) == (sorted[(n - 1) / 2] + sorted[n / 2]) / 2.0;
    assert HalfWay(values, (n - 1) / 2, n / 2, Median(values));
  }

  /** No value between: whatever stands at one position is the value there. */
  lemma OneValueAtRank(values: seq<real>, k: nat, x: real, y: real)
    requires AtRank(values, k, x) && AtRank(values, k, y)
    ensures x == y
  {
    if x < y {
      FewerBelow(NotAbove(x), Below(y), values);
    } else if y < x {
      FewerBelow(NotAbove(y), Below(x), values);
    }
  }

  lemma {:induction false} FewerBelow(p: real -> bool, q: real -> bool, values: seq<real>)
    requires forall v :: p(v) ==> q(v)
    ensures |Filter(p, values)| <= |Filter(q, values)|
  {
    if values != [] {
      FewerBelow(p, q, values[..|values| - 1]);
    }
  }

  /** So the middle is one number. */
  lemma OneMiddle(values: seq<real>, x: real, y: real)
    requires values != [] && InTheMiddle(values, x) && InTheMiddle(values, y)
    ensures x == y
  {
    var low, high := (|values| - 1) / 2, |values| / 2;
    var a, b :| AtRank(values, low, a) && AtRank(values, high, b) && x == (a + b) / 2.0;
    var c, d :| AtRank(values, low, c) && AtRank(values, high, d) && y == (c + d) / 2.0;
    OneValueAtRank(values, low, a, c);
    OneValueAtRank(values, high, b, d);
  }

  function Counts(ratings: seq<Rating>, ids: seq<int>): (r: seq<real>)
    ensures |r| == |ids|
  {
    seq(|ids|, i requires 0 <= i < |ids| => CountOf(ratings, ids[i]) as real)
  }

  /** The weight of the prior: the median count, at least 1. */
  function Prior(ratings: seq<Rating>): (m: real)
    requires ItemIds(ratings) != []
    ensures m >= 1.0
  {
    var median := Median(Counts(ratings, ItemIds(ratings)));
    if 1.0 > median then 1.0 else median
  }

  function GlobalMean(ratings: seq<Rating>): real
    requires ratings != []
  {
    Total(ratings) / |ratings| as real
  }

  function Mean(ratings: seq<Rating>, item: int): real
    requires CountOf(ratings, item) > 0
  {
    SumOf(ratings, item) / CountOf(ratings, item) as real
  }

  function Shrunk(count: real, mean: real, m: real, globalMean: real): real
    requires count > 0.0 && m > 0.0
  {
    count / (count + m) * mean + m / (count + m) * globalMean
  }

  lemma ShrunkTimesWeight(count: real, mean: real, m: real, globalMean: real)
    requires count > 0.0 && m > 0.0
    ensures (count + m) * Shrunk(count, mean, m, globalMean) == count * mean + m * globalMean
  {
    var w := count + m;
    assert count / w * w == count && m / w * w == m;
    assert w * (count / w * mean) == count * mean by { assert w * (count / w * mean) == (count / w * w) * mean; }
    assert w * (m / w * globalMean) == m * globalMean by {
      assert w * (m / w * globalMean) == (m / w * w) * globalMean;
    }
  }

  /** The pull towards the mean is in proportion to the evidence. */
  lemma ShrunkDistance(count: real, mean: real, m: real, globalMean: real)
    requires count > 0.0 && m > 0.0
    ensures Shrunk(count, mean, m, globalMean) - globalMean == count / (count + m) * (mean - globalMean)
    ensures 0.0 < count / (count + m) < 1.0
  {
    var w, a, d := count + m, count / (count + m), mean - globalMean;
    var score := Shrunk(count, mean, m, globalMean);
    ShrunkTimesWeight(count, mean, m, globalMean);
    assert w * (score - globalMean) == count * d;
    assert w * (a * d) == count * d by { assert a * w == count; }
    CancelFactor(w, score - globalMean, a * d);
    FractionBounds(count, w);
  }

  lemma CancelFactor(w: real, x: real, y: real)
    requires w > 0.0 && w * x == w * y
    ensures x == y
  {
    assert w * (x - y) == 0.0;
  }

  lemma PositiveFactor(p: real, w: real, q: real)
    requires w > 0.0 && p * w == q && q > 0.0
    ensures p > 0.0
  {
  }

  lemma FractionBounds(x: real, w: real)
    requires 0.0 < x < w
    ensures 0.0 < x / w < 1.0
  {
    var a := x / w;
    assert a * w == x;
    PositiveFactor(a, w, x);
    assert (1.0 - a) * w == w - x;
    PositiveFactor(1.0 - a, w, w - x);
  }

  /** The score lies between the two means, strictly when they differ. */
  lemma ShrunkBetweenMeans(count: real, mean: real, m: real, globalMean: real)
    requires count > 0.0 && m > 0.0
    ensures mean == globalMean ==> Shrunk(count, mean, m, globalMean) == mean
    ensures globalMean < mean ==> globalMean < Shrunk(count, mean, m, globalMean) < mean
    ensures mean < globalMean ==> mean < Shrunk(count, mean, m, globalMean) < globalMean
  {
    ShrunkDistance(count, mean, m, globalMean);
    Between(count / (count + m), mean - globalMean, Shrunk(count, mean, m, globalMean) - globalMean);
  }

  lemma Between(a: real, d: real, part: real)
    requires 0.0 < a < 1.0 && part == a * d
    ensures d > 0.0 ==> 0.0 < part < d
    ensures d < 0.0 ==> d < part < 0.0
    ensures d == 0.0 ==> part == 0.0
  {
    var rest := (1.0 - a) * d;
    assert part + rest == d;
    if d > 0.0 {
      ProductIsPositive(a, d, part);
      ProductIsPositive(1.0 - a, d, rest);
    } else if d < 0.0 {
      ProductIsPositive(a, -d, -part);
      ProductIsPositive(1.0 - a, -d, -rest);
    }
  }

  /** Of two items with one mean above the global mean, the one with more ratings scores higher. */
  lemma MoreEvidenceScoresHigher(few: real, many: real, mean: real, m: real, globalMean: real)
    requires 0.0 < few < many && m > 0.0 && globalMean < mean
    ensures Shrunk(few, mean, m, globalMean) < Shrunk(many, mean, m, globalMean)
  {
    ShrunkDistance(few, mean, m, globalMean);
    ShrunkDistance(many, mean, m, globalMean);
    var a, b := few / (few + m), many / (many + m);
    assert a < b by {
      assert a * (few + m) == few && b * (many + m) == many;
      assert few * (many + m) < many * (few + m);
      FractionOrder(few, few + m, many, many + m);
    }
    var d := mean - globalMean;
    assert b * d - a * d == (b - a) * d;
    assert (b - a) * d > 0.0;
  }

  lemma FractionOrder(x: real, u: real, y: real, v: real)
    requires u > 0.0 && v > 0.0 && x * v < y * u
    ensures x / u < y / v
  {
    var a, b := x / u, y / v;
    assert a * u == x && b * v == y;
    assert a * (u * v) == x * v && b * (u * v) == y * u;
    assert (b - a) * (u * v) == y * u - x * v;
    ProductIsPositive(u, v, u * v);
    PositiveFactor(b - a, u * v, y * u - x * v);
  }

  // ---------------------------------------------------------------- conservation

  function SumBy(f: int -> real, ids: seq<int>): real {
    if ids == [] then 0.0 else SumBy(f, ids[..|ids| - 1]) + f(ids[|ids| - 1])
  }

  /** `n` copies of `c`. */
  function Times(n: nat, c: real): real {
    if n == 0 then 0.0 else Times(n - 1, c) + c
  }

  lemma {:induction false} TimesIsProduct(n: nat, c: real)
    ensures Times(n, c) == n as real * c
  {
    if n > 0 {
      TimesIsProduct(n - 1, c);
    }
  }

  lemma TimesAdded(sum: real, total: real, n: nat, c: real)
    requires sum == total + Times(n, c)
    ensures sum == total + n as real * c
  {
    TimesIsProduct(n, c);
  }

  lemma {:induction false} SumByDiffersByConstant(f: int -> real, g: int -> real, c: real, ids: seq<int>)
    requires forall x :: x in ids ==> f(x) == g(x) + c
    ensures SumBy(f, ids) == SumBy(g, ids) + Times(|ids|, c)
  {
    if ids != [] {
      var n := |ids| - 1;
      SumByDiffersByConstant(f, g, c, ids[..n]);
      assert ids[n] in ids;
      var last := ids[n];
      assert last in ids;
      assert f(last) == g(last) + c;
      assert SumBy(f, ids) == SumBy(f, ids[..n]) + f(ids[n]);
      assert SumBy(g, ids) == SumBy(g, ids[..n]) + g(ids[n]);
      assert Times(|ids|, c) == Times(n, c) + c;
    }
  }

  lemma {:induction false} SumByGrows(f: int -> real, g: int -> real, item: int, rating: real, ids: seq<int>)
    requires Ascending(ids)
    requires forall x :: f(x) == g(x) + if x == item then rating else 0.0
    ensures SumBy(f, ids) == SumBy(g, ids) + if item in ids then rating else 0.0
  {
    if ids != [] {
      SumByGrows(f, g, item, rating, ids[..|ids| - 1]);
      assert ids == ids[..|ids| - 1] + [ids[|ids| - 1]];
    }
  }

  function Sums(ratings: seq<Rating>): int -> real {
    (x: int) => SumOf(ratings, x)
  }

  /** Grouping loses nothing: over ids that cover the ratings, the sums add up to the total. */
  lemma {:induction false} GroupsPartition(ratings: seq<Rating>, ids: seq<int>)
    requires Ascending(ids) && forall r :: r in ratings ==> r.item in ids
    ensures SumBy(Sums(ratings), ids) == Total(ratings)
  {
    if ratings == [] {
      NothingToSum(ids);
    } else {
      var init, last := ratings[..|ratings| - 1], ratings[|ratings| - 1];
      GroupsPartition(init, ids);
      SumByGrows(Sums(ratings), Sums(init), last.item, last.rating, ids);
    }
  }

  lemma {:induction false} NothingToSum(ids: seq<int>)
    ensures SumBy(Sums([]), ids) == 0.0
  {
    if ids != [] {
      NothingToSum(ids[..|ids| - 1]);
    }
  }

  /** An item's shrunk score weighted by its count plus the prior `m`. */
  function Weighted(ratings: seq<Rating>, m: real, centre: real): int -> real
    requires m > 0.0
  {
    (x: int) =>
      if CountOf(ratings, x) == 0 then 0.0
      else (CountOf(ratings, x) as real + m) * Shrunk(CountOf(ratings, x) as real, Mean(ratings, x), m, centre)
  }

  lemma WeightedShrunk(count: real, sum: real, m: real, centre: real)
    requires count > 0.0 && m > 0.0
    ensures (count + m) * Shrunk(count, sum / count, m, centre) == sum + m * centre
  {
    ShrunkTimesWeight(count, sum / count, m, centre);
  }

  lemma WeightedIsSumPlus(ratings: seq<Rating>, m: real, centre: real, c: real, ids: seq<int>)
    requires m > 0.0 && c == m * centre && forall x :: x in ids ==> CountOf(ratings, x) > 0
    ensures forall x :: x in ids ==> Weighted(ratings, m, centre)(x) == Sums(ratings)(x) + c
  {
    forall x | x in ids ensures Weighted(ratings, m, centre)(x) == Sums(ratings)(x) + c {
      WeightedShrunk(CountOf(ratings, x) as real, SumOf(ratings, x), m, centre);
    }
  }

  lemma WeightedScoresAddUp(ratings: seq<Rating>, m: real, centre: real, mass: real)
    requires m > 0.0 && mass == m * centre
    ensures SumBy(Weighted(ratings, m, centre), ItemIds(ratings)) == Total(ratings) + Times(|ItemIds(ratings)|, mass)
  {
    IdsCoverRatings(ratings);
    GroupsPartition(ratings, ItemIds(ratings));
    WeightedIsSumPlus(ratings, m, centre, mass, ItemIds(ratings));
    SumByDiffersByConstant(Weighted(ratings, m, centre), Sums(ratings), mass, ItemIds(ratings));
  }

  /**
   * Shrinking conserves the ratings: for any prior and centre, the scores weighted by count
   * plus prior add up to all the ratings plus, for each item, the prior's own mass.
   */
  lemma ShrinkingConservesRatings(ratings: seq<Rating>, m: real, centre: real, mass: real, n: nat)
    requires m > 0.0 && mass == m * centre && n == |ItemIds(ratings)|
    ensures SumBy(Weighted(ratings, m, centre), ItemIds(ratings)) == Total(ratings) + n as real * mass
  {
    WeightedScoresAddUp(ratings, m, centre, mass);
    TimesAdded(SumBy(Weighted(ratings, m, centre), ItemIds(ratings)), Total(ratings), n, mass);
  }

  lemma IdsCoverRatings(ratings: seq<Rating>)
    ensures Ascending(ItemIds(ratings)) && forall x :: x in ItemIds(ratings) ==> CountOf(ratings, x) > 0
    ensures forall r :: r in ratings ==> r.item in ItemIds(ratings)
  {
    ItemIdsAreTheRated(ratings);
    forall r | r in ratings ensures r.item in ItemIds(ratings) { MemberIsCounted(ratings, r); }
  }

  lemma {:induction false} MemberIsCounted(ratings: seq<Rating>, r: Rating)
    requires r in ratings
    ensures CountOf(ratings, r.item) > 0
  {
    if r != ratings[|ratings| - 1] {
      assert ratings == ratings[..|ratings| - 1] + [ratings[|ratings| - 1]];
      MemberIsCounted(ratings[..|ratings| - 1], r);
    }
  }

  // ---------------------------------------------------------------- the ranking

  datatype Scored = Scored(itemId: int, count: nat, mean: real, score: real)

  function ScoredItems(ratings: seq<Rating>): (r: seq<Scored>)
    ensures |r| == |ItemIds(ratings)|
  {
    ItemIdsAreTheRated(ratings);
    var ids := ItemIds(ratings);
    seq(|ids|, i requires 0 <= i < |ids| =>
      assert ids[i] in ids && ratings != [];
      var count, mean := CountOf(ratings, ids[i]), Mean(ratings, ids[i]);
      Scored(ids[i], count, mean, Shrunk(count as real, mean, Prior(ratings), GlobalMean(ratings))))
  }

  predicate Higher(a: Scored, b: Scored) {
    a.score >= b.score
  }

  /** `rank` is the position plus one; the categories are those of the catalog, when it has the item. */
  datatype Popular = Popular(scored: Scored, rank: nat, categories: Option<seq<string>>)

  function Ranked(sorted: seq<Scored>, catalog: map<int, seq<string>>): (r: seq<Popular>)
    ensures |r| == |sorted|
  {
    seq(|sorted|, i requires 0 <= i < |sorted| =>
      Popular(sorted[i], i + 1,
              if sorted[i].itemId in catalog then Some(catalog[sorted[i].itemId]) else None))
  }

  ghost predicate Descending(rows: seq<Popular>) {
    forall i, j :: 0 <= i < j < |rows| ==> rows[i].scored.score >= rows[j].scored.score
  }

  /** Count and sum of the item's own ratings, and a score that adds `m` ratings of the value `g` to them. */
  ghost predicate Evidence(ratings: seq<Rating>, m: real, g: real, s: Scored) {
    && s.count == CountOf(ratings, s.itemId) > 0
    && s.count as real * s.mean == SumOf(ratings, s.itemId)
    && (s.count as real + m) * s.score == SumOf(ratings, s.itemId) + m * g
  }

  ghost predicate IsMean(n: nat, total: real, g: real) {
    n as real * g == total
  }

  lemma QuotientIsMean(n: nat, total: real)
    requires n > 0
    ensures IsMean(n, total, total / n as real)
  {
  }

  /** The mean of all ratings, and the median number of ratings of an item, at least 1. */
  ghost predicate IsPrior(ratings: seq<Rating>, counts: seq<real>, m: real, g: real) {
    && IsMean(|ratings|, Total(ratings), g)
    && counts != [] && exists median :: InTheMiddle(counts, median) && m == if median < 1.0 then 1.0 else median
  }

  lemma QuotientTimes(x: real, n: real)
    requires n > 0.0
    ensures n * (x / n) == x
  {
  }

  lemma RowIsEvidence(ratings: seq<Rating>, m: real, g: real, s: Scored)
    requires m > 0.0 && s.count == CountOf(ratings, s.itemId) > 0
    requires s.mean == SumOf(ratings, s.itemId) / s.count as real && s.score == Shrunk(s.count as real, s.mean, m, g)
    ensures Evidence(ratings, m, g, s)
  {
    QuotientTimes(SumOf(ratings, s.itemId), s.count as real);
    WeightedShrunk(s.count as real, SumOf(ratings, s.itemId), m, g);
  }

  lemma ScoredItemsAreEvidence(ratings: seq<Rating>, s: Scored)
    requires ratings != [] && ItemIds(ratings) != [] && s in ScoredItems(ratings)
    ensures Evidence(ratings, Prior(ratings), GlobalMean(ratings), s)
  {
    var i :| 0 <= i < |ScoredItems(ratings)| && ScoredItems(ratings)[i] == s;
    ItemIdsAreTheRated(ratings);
    assert ItemIds(ratings)[i] in ItemIds(ratings);
    RowIsEvidence(ratings, Prior(ratings), GlobalMean(ratings), s);
  }

  lemma PriorIsPrior(ratings: seq<Rating>)
    requires ratings != [] && ItemIds(ratings) != []
    ensures IsPrior(ratings, Counts(ratings, ItemIds(ratings)), Prior(ratings), GlobalMean(ratings))
  {
    QuotientIsMean(|ratings|, Total(ratings));
    MedianIsInTheMiddle(Counts(ratings, ItemIds(ratings)));
  }

  lemma RatedIsScored(ratings: seq<Rating>, sorted: seq<Scored>, item: int) returns (i: nat)
    requires multiset(sorted) == multiset(ScoredItems(ratings)) && CountOf(ratings, item) > 0
    ensures i < |sorted| && sorted[i].itemId == item
  {
    ItemIdsAreTheRated(ratings);
    MultisetMembers(sorted, ScoredItems(ratings));
    var p :| 0 <= p < |ItemIds(ratings)| && ItemIds(ratings)[p] == item;
    assert ScoredItems(ratings)[p] in ScoredItems(ratings);
    i :| 0 <= i < |sorted| && sorted[i] == ScoredItems(ratings)[p];
  }

  /** What the rows are, one for each rated item, by the ratings and the catalog alone. */
  ghost predicate IsRanking(ratings: seq<Rating>, catalog: map<int, seq<string>>, m: real, g: real,
      rows: seq<Popular>) {
    && (forall i :: 0 <= i < |rows| ==>
          && Evidence(ratings, m, g, rows[i].scored)
          && rows[i].rank == i + 1
          && (rows[i].categories.Some? <==> rows[i].scored.itemId in catalog)
          && (rows[i].categories.Some? ==> rows[i].categories.value == catalog[rows[i].scored.itemId]))
    && (forall x :: CountOf(ratings, x) > 0 ==> exists i :: 0 <= i < |rows| && rows[i].scored.itemId == x)
  }

  lemma RankedIsRanking(ratings: seq<Rating>, catalog: map<int, seq<string>>, sorted: seq<Scored>)
    requires ratings != [] && ItemIds(ratings) != [] && multiset(sorted) == multiset(ScoredItems(ratings))
    ensures IsRanking(ratings, catalog, Prior(ratings), GlobalMean(ratings), Ranked(sorted, catalog))
  {
    var rows := Ranked(sorted, catalog);
    MultisetMembers(sorted, ScoredItems(ratings));
    forall i | 0 <= i < |rows| ensures Evidence(ratings, Prior(ratings), GlobalMean(ratings), rows[i].scored) {
      assert sorted[i] in sorted;
      ScoredItemsAreEvidence(ratings, sorted[i]);
    }
    forall x | CountOf(ratings, x) > 0 ensures exists i :: 0 <= i < |rows| && rows[i].scored.itemId == x {
      var i := RatedIsScored(ratings, sorted, x);
      assert rows[i].scored.itemId == x;
    }
  }

  lemma RowsAreTheRanking(ratings: seq<Rating>, catalog: map<int, seq<string>>, sorted: seq<Scored>)
    requires ratings != [] && multiset(sorted) == multiset(ScoredItems(ratings))
    ensures exists m, g ::
              IsPrior(ratings, Counts(ratings, ItemIds(ratings)), m, g) &&
              IsRanking(ratings, catalog, m, g, Ranked(sorted, catalog))
  {
    IdsCoverRatings(ratings);
    assert ratings[0] in ratings;
    PriorIsPrior(ratings);
    RankedIsRanking(ratings, catalog, sorted);
  }

  /** One row per rated item, highest score first; how equal scores come out is not specified. */
  method BuildPopularityRanking(ratings: seq<Rating>, catalog: map<int, seq<string>>)
    returns (rows: seq<Popular>, ghost sorted: seq<Scored>)
    ensures multiset(sorted) == multiset(ScoredItems(ratings)) && rows == Ranked(sorted, catalog)
    ensures Descending(rows) && |rows| == |ItemIds(ratings)|
    ensures ratings == [] ==> rows == []
    ensures ratings != [] ==>
              exists m, g ::
                IsPrior(ratings, Counts(ratings, ItemIds(ratings)), m, g) && IsRanking(ratings, catalog, m, g, rows)
  {
    assert TotalPreorder(Higher);
    SortSorts(Higher, ScoredItems(ratings));
    SortPermutes(Higher, ScoredItems(ratings));
    var byScore := Sort(Higher, ScoredItems(ratings));
    forall i, j | 0 <= i < j < |byScore| ensures byScore[i].score >= byScore[j].score {
      assert Higher(byScore[i], byScore[j]);
    }
    rows, sorted := Ranked(byScore, catalog), byScore;
    MultisetMembers(sorted, ScoredItems(ratings));
    if ratings != [] {
      RowsAreTheRanking(ratings, catalog, sorted);
    }
  }

  // ---------------------------------------------------------------- categories

  datatype CategoryRow = CategoryRow(category: string, itemId: int, score: real, count: nat)

  function ExplodeRow(row: Popular, categories: seq<string>): (r: seq<CategoryRow>)
    ensures |r| == |categories|
  {
    seq(|categories|, i requires 0 <= i < |categories| =>
      CategoryRow(categories[i], row.scored.itemId, row.scored.score, row.scored.count))
  }

  /** `explode` and `dropna`: a row per category; rows without categories go. */
  function Exploded(rows: seq<Popular>): seq<CategoryRow> {
    if rows == [] then []
    else
      var init, last := Exploded(rows[..|rows| - 1]), rows[|rows| - 1];
      if last.categories.Some? then init + ExplodeRow(last, last.categories.value) else init
  }

  /** Category ascending, then score descending. */
  predicate CategoryOrder(a: CategoryRow, b: CategoryRow) {
    Less(a.category, b.category) || (a.category == b.category && a.score >= b.score)
  }

  function Sorted(rows: seq<Popular>): seq<CategoryRow> {
    Sort(CategoryOrder, Exploded(rows))
  }

  function Of(category: string): CategoryRow -> bool {
    (r: CategoryRow) => r.category == category
  }

  /** `cumcount() + 1` within the category. */
  function CategoryRank(table: seq<CategoryRow>, i: nat): nat
    requires i < |table|
  {
    |Filter(Of(table[i].category), table[..i])| + 1
  }

  function BuildCategoryPopularity(rows: seq<Popular>): (r: seq<(CategoryRow, nat)>)
    ensures |r| == |Sorted(rows)|
  {
    var table := Sorted(rows);
    seq(|table|, i requires 0 <= i < |table| => (table[i], CategoryRank(table, i)))
  }

  lemma {:induction false} LessIsTotal(a: string, b: string)
    ensures Less(a, b) || Less(b, a) || a == b
  {
    if a != [] && b != [] {
      LessIsTotal(a[1..], b[1..]);
      assert a == [a[0]] + a[1..] && b == [b[0]] + b[1..];
    }
  }

  lemma {:induction false} LessIsTransitive(a: string, b: string, c: string)
    requires Less(a, b) && Less(b, c)
    ensures Less(a, c)
  {
    if a != [] && a[0] == b[0] == c[0] {
      LessIsTransitive(a[1..], b[1..], c[1..]);
    }
  }

  lemma CategoryOrderIsAPreorder()
    ensures TotalPreorder(CategoryOrder)
  {
    forall a: CategoryRow, b: CategoryRow ensures CategoryOrder(a, b) || CategoryOrder(b, a) {
      LessIsTotal(a.category, b.category);
    }
    forall a: CategoryRow, b: CategoryRow, c: CategoryRow | CategoryOrder(a, b) && CategoryOrder(b, c)
      ensures CategoryOrder(a, c)
    {
      if Less(a.category, b.category) && Less(b.category, c.category) {
        LessIsTransitive(a.category, b.category, c.category);
      }
    }
  }

  ghost predicate ScoresDescend(s: seq<CategoryRow>) {
    forall i, j :: 0 <= i < j < |s| ==> s[i].score >= s[j].score
  }

  lemma {:induction false} ExplodedMember(rows: seq<Popular>, x: CategoryRow) returns (i: nat)
    requires x in Exploded(rows)
    ensures i < |rows| && rows[i].categories.Some? && x.category in rows[i].categories.value
    ensures x == CategoryRow(x.category, rows[i].scored.itemId, rows[i].scored.score, rows[i].scored.count)
  {
    var n := |rows| - 1;
    if x in Exploded(rows[..n]) {
      i := ExplodedMember(rows[..n], x);
    } else {
      i := n;
      var block := ExplodeRow(rows[n], rows[n].categories.value);
      var j :| 0 <= j < |block| && block[j] == x;
      assert rows[n].categories.value[j] == x.category;
    }
  }

  /** And each category of each row is there. */
  lemma {:induction false} EveryCategoryIsExploded(rows: seq<Popular>, i: nat, category: string)
    requires i < |rows| && rows[i].categories.Some? && category in rows[i].categories.value
    ensures CategoryRow(category, rows[i].scored.itemId, rows[i].scored.score, rows[i].scored.count) in Exploded(rows)
  {
    var n := |rows| - 1;
    if i < n {
      EveryCategoryIsExploded(rows[..n], i, category);
    } else {
      var categories := rows[n].categories.value;
      var j :| 0 <= j < |categories| && categories[j] == category;
      assert ExplodeRow(rows[n], categories)[j].category == category;
    }
  }

  ghost predicate Lists(row: Popular, category: string) {
    row.categories.Some? && category in row.categories.value
  }

  /** The rows of a category as they stand in the ranking. */
  ghost function InCategory(rows: seq<Popular>, category: string): seq<CategoryRow> {
    if rows == [] then []
    else
      var before, last := InCategory(rows[..|rows| - 1], category), rows[|rows| - 1];
      if Lists(last, category)
      then before + [CategoryRow(category, last.scored.itemId, last.scored.score, last.scored.count)] else before
  }

  ghost predicate NoRepeats(categories: seq<string>) {
    forall i, j :: 0 <= i < j < |categories| ==> categories[i] != categories[j]
  }

  lemma {:induction false} OneOfEach(row: Popular, categories: seq<string>, category: string)
    requires NoRepeats(categories)
    ensures Filter(Of(category), ExplodeRow(row, categories)) ==
              if category in categories
              then [CategoryRow(category, row.scored.itemId, row.scored.score, row.scored.count)] else []
  {
    if categories != [] {
      var init, last := categories[..|categories| - 1], categories[|categories| - 1];
      OneOfEach(row, init, category);
      assert categories == init + [last];
      assert ExplodeRow(row, categories)[..|init|] == ExplodeRow(row, init);
    }
  }

  /** The category's rows are those of the ranking that list it, each once, in the order of the ranking. */
  lemma {:induction false} CategoryIsTheRankingRestricted(rows: seq<Popular>, category: string)
    requires forall i :: 0 <= i < |rows| && rows[i].categories.Some? ==> NoRepeats(rows[i].categories.value)
    ensures Filter(Of(category), Exploded(rows)) == InCategory(rows, category)
  {
    if rows != [] {
      var init, last := rows[..|rows| - 1], rows[|rows| - 1];
      CategoryIsTheRankingRestricted(init, category);
      if last.categories.Some? {
        OneOfEach(last, last.categories.value, category);
        FilterOfConcat(Of(category), Exploded(init), ExplodeRow(last, last.categories.value));
      }
    }
  }

  lemma {:induction false} ExplodedDescends(rows: seq<Popular>)
    requires Descending(rows)
    ensures ScoresDescend(Exploded(rows))
  {
    if rows != [] {
      var n := |rows| - 1;
      ExplodedDescends(rows[..n]);
      forall x | x in Exploded(rows[..n]) ensures x.score >= rows[n].scored.score {
        var i := ExplodedMember(rows[..n], x);
        assert rows[i].scored.score >= rows[n].scored.score;
      }
    }
  }

  predicate ByScore(a: CategoryRow, b: CategoryRow) {
    a.score >= b.score
  }

  /**
   * Each category's ranking is the global ranking restricted to that category, in the same
   * order, equal scores included.
   */
  lemma CategoryFollowsTheRanking(rows: seq<Popular>, category: string)
    requires Descending(rows)
    ensures Filter(Of(category), Sorted(rows)) == Filter(Of(category), Exploded(rows))
  {
    var table, part := Exploded(rows), Filter(Of(category), Exploded(rows));
    CategoryOrderIsAPreorder();
    FilterOfSort(CategoryOrder, Of(category), table);
    ExplodedDescends(rows);
    assert SortedBy(ByScore, table);
    FilterSorted(ByScore, Of(category), table);
    forall i, j | 0 <= i < j < |part| ensures CategoryOrder(part[i], part[j]) {
      assert ByScore(part[i], part[j]);
      assert part[i] in part && part[j] in part;
    }
    SortOfSorted(CategoryOrder, part);
  }

  lemma {:induction false} RankIsPosition(table: seq<CategoryRow>, i: nat)
    requires i < |table|
    ensures CategoryRank(table, i) <= |Filter(Of(table[i].category), table)|
    ensures Filter(Of(table[i].category), table)[CategoryRank(table, i) - 1] == table[i]
  {
    var n := |table| - 1;
    if i < n {
      RankIsPosition(table[..n], i);
      assert table[..n][..i] == table[..i];
    }
  }

  /** The row with rank n is the n-th row of its category in the global ranking. */
  lemma CategoryRanksCount(rows: seq<Popular>, i: nat)
    requires Descending(rows) && i < |BuildCategoryPopularity(rows)|
    ensures var (row, rank) := BuildCategoryPopularity(rows)[i];
      && row in Exploded(rows)
      && 1 <= rank <= |Filter(Of(row.category), Exploded(rows))|
      && Filter(Of(row.category), Exploded(rows))[rank - 1] == row
  {
    var table := Sorted(rows);
    RankIsPosition(table, i);
    CategoryFollowsTheRanking(rows, table[i].category);
    SortPermutes(CategoryOrder, Exploded(rows));
    MultisetMembers(table, Exploded(rows));
    assert table[i] in table;
  }
}
