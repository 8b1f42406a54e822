/** The temporal holdout. */
module Holdout {
  // The per-user temporal holdout: a leak-free partition, and when row order cannot matter.

  import opened Arithmetic
  import opened Wrappers
  import opened Ratings
  import opened Sorting

  datatype Failure = BadFraction | BadMinimum

  datatype Split = Split(train: seq<Rating>, test: seq<Rating>)

  /** The three-key order: user, then timestamp, then item. */
  predicate Le(a: Rating, b: Rating) {
    a.user < b.user
    || (a.user == b.user && (a.timestamp < b.timestamp || (a.timestamp == b.timestamp && a.item <= b.item)))
  }

  predicate SameKey(a: Rating, b: Rating) {
    a.user == b.user && a.timestamp == b.timestamp && a.item == b.item
  }

  /** Rows held out of a user with `size` ratings. */
  function Quota(size: nat, fraction: real): int {
    Max(1, (size as real * fraction).Floor)
  }

  predicate IsTest(ordered: seq<Rating>, i: nat, fraction: real, minRatings: int)
    requires i < |ordered|
  {
    var size := Count(ordered, ordered[i].user);
    size >= minRatings && Count(ordered[..i], ordered[i].user) >= size - Quota(size, fraction)
  }

  function Mask(ordered: seq<Rating>, fraction: real, minRatings: int): (r: seq<bool>)
    ensures |r| == |ordered|
  {
    seq(|ordered|, i requires 0 <= i < |ordered| => IsTest(ordered, i, fraction, minRatings))
  }

  /** Boolean selection: the rows whose flag is `flag`, in order. */
  function Pick(s: seq<Rating>, mask: seq<bool>, flag: bool): seq<Rating>
    requires |s| == |mask|
  {
    if s == [] then []
    else
      var init := Pick(s[..|s| - 1], mask[..|s| - 1], flag);
      if mask[|s| - 1] == flag then init + [s[|s| - 1]] else init
  }

  function TemporalHoldout(ratings: seq<Rating>, fraction: real, minRatings: int): (r: Result<Split, Failure>)
    ensures r.Ok? <==> 0.0 < fraction < 1.0 && minRatings >= 2
    ensures r == Err(BadMinimum) ==> 0.0 < fraction < 1.0
  {
    if !(0.0 < fraction < 1.0) then Err(BadFraction)
    else if minRatings < 2 then Err(BadMinimum)
    else
      var ordered := Sort(Le, ratings);
      var mask := Mask(ordered, fraction, minRatings);
      Ok(Split(Pick(ordered, mask, false), Pick(ordered, mask, true)))
  }

  // ---------------------------------------------------------------- partition

  lemma LeIsAPreorder()
    ensures TotalPreorder(Le)
  {
  }

  lemma {:induction false} PickPartitions(s: seq<Rating>, mask: seq<bool>)
    requires |s| == |mask|
    ensures multiset(Pick(s, mask, false)) + multiset(Pick(s, mask, true)) == multiset(s)
  {
    if s != [] {
      PickPartitions(s[..|s| - 1], mask[..|s| - 1]);
      assert s == s[..|s| - 1] + [s[|s| - 1]];
    }
  }

  /** Train and test together are the input; no row is lost, repeated or invented. */
  lemma HoldoutPartitions(ratings: seq<Rating>, fraction: real, minRatings: int)
    requires TemporalHoldout(ratings, fraction, minRatings).Ok?
    ensures var split := TemporalHoldout(ratings, fraction, minRatings).value;
      multiset(split.train) + multiset(split.test) == multiset(ratings)
  {
    var ordered := Sort(Le, ratings);
    SortPermutes(Le, ratings);
    PickPartitions(ordered, Mask(ordered, fraction, minRatings));
  }

  // ---------------------------------------------------------------- per-user counts

  lemma QuotaIsPartial(size: nat, fraction: real)
    requires 0.0 < fraction < 1.0 && size >= 2
    ensures 1 <= Quota(size, fraction) < size
  {
    assert size as real * fraction < size as real by {
      assert size as real * (1.0 - fraction) > 0.0;
    }
  }

  lemma QuotaIsWholePart(size: nat, fraction: real, share: real)
    requires share == size as real * fraction >= 0.0
    ensures if share < 1.0 then Quota(size, fraction) == 1
            else Quota(size, fraction) as real <= share < Quota(size, fraction) as real + 1.0
  {
  }

  /** Of the first `n` rows of a user, all those past the kept ones are test rows. */
  lemma {:induction false} TestRowsOfPrefix(ordered: seq<Rating>, fraction: real, minRatings: int, n: nat, user: int)
    requires n <= |ordered| && 0.0 < fraction < 1.0 && minRatings >= 2
    ensures var mask, size := Mask(ordered, fraction, minRatings), Count(ordered, user);
      Count(Pick(ordered[..n], mask[..n], true), user)
        == if size < minRatings then 0 else Max(0, Count(ordered[..n], user) - (size - Quota(size, fraction)))
  {
    var mask, size := Mask(ordered, fraction, minRatings), Count(ordered, user);
    if size >= minRatings {
      QuotaIsPartial(size, fraction);
    }
    if n > 0 {
      TestRowsOfPrefix(ordered, fraction, minRatings, n - 1, user);
      assert ordered[..n][..n - 1] == ordered[..n - 1] && mask[..n][..n - 1] == mask[..n - 1];
      assert mask[n - 1] == IsTest(ordered, n - 1, fraction, minRatings);
      var init := Pick(ordered[..n - 1], mask[..n - 1], true);
      assert (init + [ordered[n - 1]])[..|init|] == init;
    }
  }

  lemma TestRowsOfUser(ratings: seq<Rating>, fraction: real, minRatings: int, user: int)
    requires TemporalHoldout(ratings, fraction, minRatings).Ok?
    ensures var size := Count(ratings, user);
      Count(TemporalHoldout(ratings, fraction, minRatings).value.test, user)
        == if size < minRatings then 0 else Max(0, Quota(size, fraction))
  {
    var ordered := Sort(Le, ratings);
    var mask := Mask(ordered, fraction, minRatings);
    SortPermutes(Le, ratings);
    CountOfMultiset(ordered, ratings, user);
    TestRowsOfPrefix(ordered, fraction, minRatings, |ordered|, user);
    assert ordered[..|ordered|] == ordered && mask[..|ordered|] == mask;
  }

  lemma RowsOfUser(ratings: seq<Rating>, fraction: real, minRatings: int, user: int)
    requires TemporalHoldout(ratings, fraction, minRatings).Ok?
    ensures var split := TemporalHoldout(ratings, fraction, minRatings).value;
      Count(split.train, user) + Count(split.test, user) == Count(ratings, user)
  {
    var split := TemporalHoldout(ratings, fraction, minRatings).value;
    HoldoutPartitions(ratings, fraction, minRatings);
    CountOfMultiset(split.train + split.test, ratings, user);
    CountJoin(split.train, split.test, user);
  }

  /**
   * An eligible user loses the whole part of the share `size * fraction`, or one row when
   * the share is below one, and keeps at least one; any other user loses none.
   */
  lemma HoldoutCounts(ratings: seq<Rating>, fraction: real, minRatings: int, user: int, size: nat, share: real)
    requires TemporalHoldout(ratings, fraction, minRatings).Ok?
    requires size == Count(ratings, user) && share == size as real * fraction
    ensures var split := TemporalHoldout(ratings, fraction, minRatings).value;
      var n := Count(split.test, user);
      && (if size < minRatings then n == 0 else if share < 1.0 then n == 1 else n as real <= share < n as real + 1.0)
      && Count(split.train, user) == size - n
      && (size > 0 ==> Count(split.train, user) > 0)
  {
    TestRowsOfUser(ratings, fraction, minRatings, user);
    RowsOfUser(ratings, fraction, minRatings, user);
    if size >= minRatings {
      QuotaIsPartial(size, fraction);
      ShareIsPositive(size, fraction);
      QuotaIsWholePart(size, fraction, share);
    }
  }

  lemma ShareIsPositive(size: nat, fraction: real)
    requires size > 0 && fraction > 0.0
    ensures size as real * fraction > 0.0
  {
  }

  // ---------------------------------------------------------------- no leak

  lemma {:induction false} PickMember(s: seq<Rating>, mask: seq<bool>, flag: bool, x: Rating) returns (i: nat)
    requires |s| == |mask| && x in Pick(s, mask, flag)
    ensures i < |s| && s[i] == x && mask[i] == flag
  {
    if mask[|s| - 1] == flag && s[|s| - 1] == x {
      i := |s| - 1;
    } else {
      i := PickMember(s[..|s| - 1], mask[..|s| - 1], flag, x);
    }
  }

  lemma {:induction false} CountOfPrefix(s: seq<Rating>, i: nat, j: nat, user: int)
    requires i <= j <= |s|
    ensures Count(s[..i], user) <= Count(s[..j], user)
  {
    assert s[..j] == s[..i] + s[i..j];
    CountJoin(s[..i], s[i..j], user);
  }

  /** Every kept row of a user is no later, by timestamp then item, than each of their test rows. */
  lemma HoldoutDoesNotLeak(ratings: seq<Rating>, fraction: real, minRatings: int, x: Rating, y: Rating)
    requires TemporalHoldout(ratings, fraction, minRatings).Ok?
    requires x in TemporalHoldout(ratings, fraction, minRatings).value.train
    requires y in TemporalHoldout(ratings, fraction, minRatings).value.test
    requires x.user == y.user
    ensures x.timestamp < y.timestamp || (x.timestamp == y.timestamp && x.item <= y.item)
  {
    var ordered := Sort(Le, ratings);
    var mask := Mask(ordered, fraction, minRatings);
    LeIsAPreorder();
    SortSorts(Le, ratings);
    var i := PickMember(ordered, mask, false, x);
    var j := PickMember(ordered, mask, true, y);
    if j < i {
      CountOfPrefix(ordered, j, i, x.user);
    }
    assert i < j;
    assert Le(ordered[i], ordered[j]);
  }

  lemma {:induction false} PickKeepsOrder(s: seq<Rating>, mask: seq<bool>, flag: bool)
    requires |s| == |mask| && SortedBy(Le, s)
    ensures SortedBy(Le, Pick(s, mask, flag))
  {
    if s != [] {
      var n := |s| - 1;
      PickKeepsOrder(s[..n], mask[..n], flag);
      var init := Pick(s[..n], mask[..n], flag);
      forall x | x in init ensures Le(x, s[n]) {
        var i := PickMember(s[..n], mask[..n], flag, x);
        assert Le(s[i], s[n]);
      }
    }
  }

  /** Both tables come out in the three-key order. */
  lemma HoldoutIsSorted(ratings: seq<Rating>, fraction: real, minRatings: int)
    requires TemporalHoldout(ratings, fraction, minRatings).Ok?
    ensures var split := TemporalHoldout(ratings, fraction, minRatings).value;
      SortedBy(Le, split.train) && SortedBy(Le, split.test)
  {
    var ordered := Sort(Le, ratings);
    LeIsAPreorder();
    SortSorts(Le, ratings);
    PickKeepsOrder(ordered, Mask(ordered, fraction, minRatings), false);
    PickKeepsOrder(ordered, Mask(ordered, fraction, minRatings), true);
  }

  // ---------------------------------------------------------------- order of the input rows

  ghost predicate Reorders(s: seq<Rating>, t: seq<Rating>) {
    multiset(s) == multiset(t)
  }

  ghost predicate KeysIdentifyRows(s: seq<Rating>) {
    forall i, j :: 0 <= i < j < |s| && SameKey(s[i], s[j]) ==> s[i] == s[j]
  }

  lemma EqualKeysEqualRows(s: seq<Rating>, x: Rating, y: Rating)
    requires KeysIdentifyRows(s) && x in s && y in s && Le(x, y) && Le(y, x)
    ensures x == y
  {
    var i :| 0 <= i < |s| && s[i] == x;
    var j :| 0 <= j < |s| && s[j] == y;
    assert SameKey(s[i], s[j]) && SameKey(s[j], s[i]);
  }

  lemma SameSort(s: seq<Rating>, t: seq<Rating>)
    requires Reorders(s, t) && KeysIdentifyRows(s)
    ensures Sort(Le, s) == Sort(Le, t)
  {
    LeIsAPreorder();
    SortSorts(Le, s);
    SortSorts(Le, t);
    SortPermutes(Le, s);
    SortPermutes(Le, t);
    var a := Sort(Le, s);
    MultisetMembers(a, s);
    forall x, y | x in a && y in a && Le(x, y) && Le(y, x) ensures x == y {
      EqualKeysEqualRows(s, x, y);
    }
    SortedIsUnique(Le, a, Sort(Le, t));
  }

  lemma {:induction false} SameUsersSameCount(s: seq<Rating>, t: seq<Rating>, user: int)
    requires |s| == |t| && forall i :: 0 <= i < |s| ==> s[i].user == t[i].user
    ensures Count(s, user) == Count(t, user)
  {
    if s != [] {
      SameUsersSameCount(s[..|s| - 1], t[..|s| - 1], user);
    }
  }

  lemma SameUsersSameMask(s: seq<Rating>, t: seq<Rating>, fraction: real, minRatings: int)
    requires |s| == |t| && forall i :: 0 <= i < |s| ==> s[i].user == t[i].user
    ensures Mask(s, fraction, minRatings) == Mask(t, fraction, minRatings)
  {
    forall i: nat | i < |s| ensures IsTest(s, i, fraction, minRatings) == IsTest(t, i, fraction, minRatings) {
      SameUsersSameCount(s, t, s[i].user);
      SameUsersSameCount(s[..i], t[..i], s[i].user);
    }
  }

  /** Under one mask the two selections determine the rows. */
  lemma {:induction false} PickIsInjective(s: seq<Rating>, t: seq<Rating>, mask: seq<bool>)
    requires |s| == |t| == |mask|
    requires Pick(s, mask, false) == Pick(t, mask, false) && Pick(s, mask, true) == Pick(t, mask, true)
    ensures s == t
  {
    if s != [] {
      var n := |s| - 1;
      var flag := mask[n];
      var p, q := Pick(s[..n], mask[..n], flag), Pick(t[..n], mask[..n], flag);
      assert p + [s[n]] == q + [t[n]];
      assert p == (p + [s[n]])[..|p|] && q == (q + [t[n]])[..|q|];
      assert s[n] == (p + [s[n]])[|p|] && t[n] == (q + [t[n]])[|q|];
      PickIsInjective(s[..n], t[..n], mask[..n]);
      assert s == s[..n] + [s[n]] && t == t[..n] + [t[n]];
    }
  }

  function Users(s: seq<Rating>): (r: seq<int>)
    ensures |r| == |s|
  {
    seq(|s|, i requires 0 <= i < |s| => s[i].user)
  }

  predicate Ascending(x: int, y: int) {
    x <= y
  }

  lemma UsersWithout(s: seq<Rating>, i: nat)
    requires i < |s|
    ensures multiset(Users(s)) == multiset(Users(Without(s, i))) + multiset{s[i].user}
  {
    assert Users(Without(s, i)) == Without(Users(s), i);
    WithoutAt(Users(s), i);
  }

  lemma {:induction false} UsersPermute(s: seq<Rating>, t: seq<Rating>)
    requires multiset(s) == multiset(t)
    ensures multiset(Users(s)) == multiset(Users(t))
  {
    if s == [] {
      MultisetMembers(s, t);
    } else {
      var i := Peel(s, 0, t);
      UsersPermute(Without(s, 0), Without(t, i));
      UsersWithout(s, 0);
      UsersWithout(t, i);
    }
  }

  /** The sorted users of two reorderings agree row by row, so their masks agree too. */
  lemma SortedMasksAgree(s: seq<Rating>, t: seq<Rating>, fraction: real, minRatings: int)
    requires Reorders(s, t)
    ensures |s| == |t|
    ensures Mask(Sort(Le, s), fraction, minRatings) == Mask(Sort(Le, t), fraction, minRatings)
  {
    var a, b := Sort(Le, s), Sort(Le, t);
    LeIsAPreorder();
    SortSorts(Le, s);
    SortSorts(Le, t);
    SortPermutes(Le, s);
    SortPermutes(Le, t);
    MultisetMembers(s, t);
    UsersPermute(a, b);
    forall i, j | 0 <= i < j < |a| ensures Ascending(Users(a)[i], Users(a)[j]) { assert Le(a[i], a[j]); }
    forall i, j | 0 <= i < j < |b| ensures Ascending(Users(b)[i], Users(b)[j]) { assert Le(b[i], b[j]); }
    SortedIsUnique(Ascending, Users(a), Users(b));
    forall i | 0 <= i < |a| ensures a[i].user == b[i].user {
      assert Users(a)[i] == Users(b)[i];
    }
    SameUsersSameMask(a, b, fraction, minRatings);
  }

  lemma {:induction false} TiesAt(s: seq<Rating>, i: nat, x: Rating)
    requires i < |s| && SameKey(s[i], x)
    ensures |Ties(Le, s[..i], x)| < |Ties(Le, s, x)|
    ensures Ties(Le, s, x)[|Ties(Le, s[..i], x)|] == s[i]
  {
    var n := |s| - 1;
    if i < n {
      TiesAt(s[..n], i, x);
      assert s[..n][..i] == s[..i];
    }
  }

  /** Exchanging two different rows with one key changes the sorted order. */
  lemma ExchangeChangesSort(s: seq<Rating>, i: nat, j: nat)
    requires i < j < |s| && SameKey(s[i], s[j]) && s[i] != s[j]
    ensures Reorders(s, s[i := s[j]][j := s[i]])
    ensures Sort(Le, s) != Sort(Le, s[i := s[j]][j := s[i]])
  {
    var t := s[i := s[j]][j := s[i]];
    LeIsAPreorder();
    SortIsStable(Le, s, s[i]);
    SortIsStable(Le, t, s[i]);
    TiesAt(s, i, s[i]);
    TiesAt(t, i, s[i]);
    assert s[..i] == t[..i];
  }

  /** The split determines the sorted rows. */
  lemma SameSplitSameSort(s: seq<Rating>, t: seq<Rating>, fraction: real, minRatings: int)
    requires Reorders(s, t) && TemporalHoldout(s, fraction, minRatings).Ok?
    ensures TemporalHoldout(t, fraction, minRatings) == TemporalHoldout(s, fraction, minRatings) ==>
              Sort(Le, t) == Sort(Le, s)
  {
    SortedMasksAgree(s, t, fraction, minRatings);
    if TemporalHoldout(t, fraction, minRatings) == TemporalHoldout(s, fraction, minRatings) {
      PickIsInjective(Sort(Le, s), Sort(Le, t), Mask(Sort(Le, s), fraction, minRatings));
    }
  }

  /**
   * No reordering of the input rows changes the split exactly when no two different rows
   * share user, timestamp and item; one row per user and item, as cleaning leaves, is enough.
   */
  lemma OrderIsIrrelevantExactly(ratings: seq<Rating>, fraction: real, minRatings: int)
    requires TemporalHoldout(ratings, fraction, minRatings).Ok?
    ensures (forall t | Reorders(ratings, t) ::
               TemporalHoldout(t, fraction, minRatings) == TemporalHoldout(ratings, fraction, minRatings))
       <==> KeysIdentifyRows(ratings)
    ensures DistinctPairs(ratings) ==> KeysIdentifyRows(ratings)
  {
    if KeysIdentifyRows(ratings) {
      forall t | Reorders(ratings, t)
        ensures TemporalHoldout(t, fraction, minRatings) == TemporalHoldout(ratings, fraction, minRatings)
      {
        SameSort(ratings, t);
      }
    } else {
      var i, j :| 0 <= i < j < |ratings| && SameKey(ratings[i], ratings[j]) && ratings[i] != ratings[j];
      ExchangeChangesSort(ratings, i, j);
      SameSplitSameSort(ratings, ratings[i := ratings[j]][j := ratings[i]], fraction, minRatings);
    }
  }
}
