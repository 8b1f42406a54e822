/** One pass is enough. */
module CleaningFixpoint {
  // What the cleaned tables satisfy, where every removed row went, and that one pass is enough.

  import opened Wrappers
  import opened Ratings
  import opened Rows
  import opened Sorting
  import opened Cleaning
  import opened Whitespace
  import Holdout

  // ---------------------------------------------------------------- ratings

  lemma {:induction false} CountOfActive(table: seq<Rating>, whole: seq<Rating>, atLeast: int, user: int)
    requires Count(whole, user) >= atLeast
    ensures Count(Filter(Active(whole, atLeast), table), user) == Count(table, user)
  {
    if table != [] {
      var init := table[..|table| - 1];
      CountOfActive(init, whole, atLeast, user);
      var r := Filter(Active(whole, atLeast), init);
      assert (r + [table[|table| - 1]])[..|r|] == r;
    }
  }

  lemma DistinctPairsOfFilter(p: Rating -> bool, s: seq<Rating>)
    requires DistinctPairs(s)
    ensures DistinctPairs(Filter(p, s))
  {
    var different := (a: Rating, b: Rating) => !SamePair(a, b);
    assert SortedBy(different, s);
    FilterSorted(different, p, s);
    var r := Filter(p, s);
    forall i, j | 0 <= i < j < |r| ensures !SamePair(r[i], r[j]) { assert different(r[i], r[j]); }
  }

  lemma SubsetMembers<T>(s: seq<T>, t: seq<T>, x: T)
    requires multiset(s) <= multiset(t) && x in s
    ensures x in t
  {
    assert x in multiset(s);
    assert x in multiset(t);
  }

  lemma SamePairSameRow(s: seq<Rating>, x: Rating, y: Rating)
    requires DistinctPairs(s) && x in s && y in s && SamePair(x, y)
    ensures x == y
  {
    var i :| 0 <= i < |s| && s[i] == x;
    var j :| 0 <= j < |s| && s[j] == y;
  }

  /** Pairs are unique; every row is in range, of a known item, the latest of its pair, and of an active user. */
  lemma CleanedRatings(raw: seq<RawRating>, items: set<int>, s: Settings, kept: seq<Rating>, out: seq<Rating>)
    requires CleansTo(raw, items, s, kept, out)
    ensures DistinctPairs(out) && SortedBy(ByTime, out)
    ensures forall r :: r in out ==>
      && r in DropNulls(raw)
      && s.minRating <= r.rating <= s.maxRating
      && r.item in items
      && Count(out, r.user) >= s.minUserInteractions
    ensures forall r, q :: r in out && q in DropNulls(raw) && SamePair(q, r) ==> q.timestamp <= r.timestamp
  {
    var qualified := Filter(Qualifying(items, s), kept);
    DistinctPairsOfFilter(Qualifying(items, s), kept);
    DistinctPairsOfFilter(Active(qualified, s.minUserInteractions), qualified);
    FilterSorted(ByTime, Qualifying(items, s), kept);
    FilterSorted(ByTime, Active(qualified, s.minUserInteractions), qualified);
    forall r | r in out
      ensures r in DropNulls(raw) && r in kept && Count(out, r.user) >= s.minUserInteractions
    {
      SubsetMembers(kept, DropNulls(raw), r);
      CountOfActive(qualified, qualified, s.minUserInteractions, r.user);
    }
    forall r, q | r in out && q in DropNulls(raw) && SamePair(q, r) ensures q.timestamp <= r.timestamp {
      var k :| k in kept && SamePair(q, k) && q.timestamp <= k.timestamp;
      SamePairSameRow(kept, k, r);
    }
  }

  /** A latest row is dropped only for its range, its item or its user's count; nothing else removes it. */
  lemma KeptRowSurvivesExactly(raw: seq<RawRating>, items: set<int>, s: Settings,
                               kept: seq<Rating>, out: seq<Rating>, k: Rating)
    requires CleansTo(raw, items, s, kept, out) && k in kept
    ensures k in out <==>
      && s.minRating <= k.rating <= s.maxRating && k.item in items
      && Count(Filter(Qualifying(items, s), kept), k.user) >= s.minUserInteractions
  {
    var qualified := Filter(Qualifying(items, s), kept);
    if Qualifying(items, s)(k) && Count(qualified, k.user) >= s.minUserInteractions {
      FilterKeeps(Qualifying(items, s), kept, k);
      FilterKeeps(Active(qualified, s.minUserInteractions), qualified, k);
    }
  }

  /** Every input row is in the output or counted by exactly one rule. */
  lemma RatingsAreAccounted(raw: seq<RawRating>, items: set<int>, s: Settings,
                            kept: seq<Rating>, out: seq<Rating>, report: RatingsReport)
    requires CleansTo(raw, items, s, kept, out) && RatingsAccount(raw, items, s, kept, out, report)
    ensures report.rowsIn == report.nullRows + report.duplicates + report.outOfRange
                             + report.orphanItems + report.sparseUsers + report.rowsOut
    ensures report.duplicates >= 0
  {
    var inRange, qualified := Filter(InRange(s), kept), Filter(Qualifying(items, s), kept);
    DropNullsCounts(raw);
    FilterCounts(InRange(s), kept);
    FilterCounts(Known(items), inRange);
    FilterTwice(InRange(s), Known(items), Qualifying(items, s), kept);
    FilterCounts(Active(qualified, s.minUserInteractions), qualified);
    SubsetLength(kept, DropNulls(raw));
  }

  function LiftRatings(s: seq<Rating>): (r: seq<RawRating>)
    ensures |r| == |s|
  {
    seq(|s|, i requires 0 <= i < |s| =>
      RawRating(Some(s[i].user), Some(s[i].item), Some(s[i].rating), Some(s[i].timestamp)))
  }

  lemma {:induction false} LiftedRatingsAreComplete(s: seq<Rating>)
    ensures DropNulls(LiftRatings(s)) == s && Filter(Not(Complete), LiftRatings(s)) == []
  {
    if s != [] {
      LiftedRatingsAreComplete(s[..|s| - 1]);
      assert LiftRatings(s)[..|s| - 1] == LiftRatings(s[..|s| - 1]);
      assert s == s[..|s| - 1] + [s[|s| - 1]];
    }
  }

  lemma {:induction false} PairCounts(s: seq<Rating>, x: Rating)
    requires DistinctPairs(s)
    ensures multiset(s)[x] == if x in s then 1 else 0
  {
    if s != [] {
      PairCounts(s[1..], x);
      assert s == [s[0]] + s[1..];
      if s[0] in s[1..] {
        SamePairLater(s, s[0]);
      }
    }
  }

  lemma SamePairLater(s: seq<Rating>, x: Rating)
    requires |s| > 0 && DistinctPairs(s) && SamePair(x, s[0])
    ensures x !in s[1..]
  {
    forall i | 0 <= i < |s[1..]| ensures s[1..][i] != x { assert s[1..][i] == s[i + 1]; }
  }

  lemma SameMembersSameRows(s: seq<Rating>, t: seq<Rating>)
    requires DistinctPairs(s) && DistinctPairs(t) && forall r :: r in s <==> r in t
    ensures multiset(s) == multiset(t)
  {
    forall r ensures multiset(s)[r] == multiset(t)[r] {
      PairCounts(s, r);
      PairCounts(t, r);
    }
  }

  lemma RowIsKept(out: seq<Rating>, kept: seq<Rating>, r: Rating)
    requires DistinctPairs(out) && KeepsLatest(out, kept) && r in out
    ensures r in kept
  {
    var k :| k in kept && SamePair(r, k);
    SubsetMembers(kept, out, k);
    SamePairSameRow(out, r, k);
  }

  /** Deduplicating rows with distinct pairs only reorders them. */
  lemma DeduplicatingAgain(out: seq<Rating>, kept: seq<Rating>)
    requires DistinctPairs(out) && KeepsLatest(out, kept)
    ensures multiset(kept) == multiset(out)
  {
    forall r | r in out ensures r in kept { RowIsKept(out, kept, r); }
    forall r | r in kept ensures r in out { SubsetMembers(kept, out, r); }
    SameMembersSameRows(kept, out);
  }

  ghost predicate Passing(table: seq<Rating>, items: set<int>, s: Settings) {
    forall r :: r in table ==>
      InRange(s)(r) && Known(items)(r) && Count(table, r.user) >= s.minUserInteractions
  }

  lemma PassingRowsStay(kept: seq<Rating>, items: set<int>, s: Settings)
    requires Passing(kept, items, s)
    ensures Filter(Qualifying(items, s), kept) == Filter(InRange(s), kept) == kept
    ensures Filter(Active(kept, s.minUserInteractions), kept) == kept
    ensures Filter(Not(InRange(s)), kept) == Filter(Not(Known(items)), kept) == []
    ensures Filter(Not(Active(kept, s.minUserInteractions)), kept) == []
  {
    FilterAll(Qualifying(items, s), kept);
    FilterAll(InRange(s), kept);
    FilterAll(Active(kept, s.minUserInteractions), kept);
    FilterNone(Not(InRange(s)), kept);
    FilterNone(Not(Known(items)), kept);
    FilterNone(Not(Active(kept, s.minUserInteractions)), kept);
  }

  lemma ReorderingPasses(out: seq<Rating>, table: seq<Rating>, again: set<int>, s: Settings)
    requires multiset(table) == multiset(out) && RatedIds(out) <= again
    requires forall r :: r in out ==>
      s.minRating <= r.rating <= s.maxRating && Count(out, r.user) >= s.minUserInteractions
    ensures |table| == |out| && Passing(table, again, s)
  {
    MultisetMembers(out, table);
    forall r | r in table
      ensures InRange(s)(r) && Known(again)(r) && Count(table, r.user) >= s.minUserInteractions
    {
      assert r.item in RatedIds(out);
      CountOfMultiset(out, table, r.user);
    }
  }

  /** Cleaning cleaned ratings, with their items still known, removes nothing. */
  lemma CleaningRatingsAgain(raw: seq<RawRating>, items: set<int>, again: set<int>, s: Settings,
                             kept: seq<Rating>, out: seq<Rating>,
                             kept2: seq<Rating>, out2: seq<Rating>, report: RatingsReport)
    requires CleansTo(raw, items, s, kept, out) && RatedIds(out) <= again
    requires CleansTo(LiftRatings(out), again, s, kept2, out2)
    requires RatingsAccount(LiftRatings(out), again, s, kept2, out2, report)
    ensures multiset(out2) == multiset(out)
    ensures report == RatingsReport(|out|, 0, 0, 0, 0, 0, |out|)
  {
    LiftedRatingsAreComplete(out);
    CleanedRatings(raw, items, s, kept, out);
    DeduplicatingAgain(out, kept2);
    ReorderingPasses(out, kept2, again, s);
    PassingRowsStay(kept2, again, s);
  }

  /** The split of a cleaned table does not depend on how its rows are ordered. */
  lemma CleanedSplitIgnoresOrder(raw: seq<RawRating>, items: set<int>, s: Settings, kept: seq<Rating>,
                                 out: seq<Rating>, reordered: seq<Rating>, fraction: real, minRatings: int)
    requires CleansTo(raw, items, s, kept, out) && multiset(out) == multiset(reordered)
    ensures Holdout.TemporalHoldout(reordered, fraction, minRatings)
         == Holdout.TemporalHoldout(out, fraction, minRatings)
  {
    CleanedRatings(raw, items, s, kept, out);
    if Holdout.TemporalHoldout(out, fraction, minRatings).Ok? {
      Holdout.OrderIsIrrelevantExactly(out, fraction, minRatings);
      assert Holdout.Reorders(out, reordered);
    }
  }

  // ---------------------------------------------------------------- items

  ghost predicate FirstOfId(raw: seq<RawItem>, i: int) {
    0 <= i < |raw| && forall j :: 0 <= j < i ==> raw[j].movieId != raw[i].movieId
  }

  ghost predicate DistinctIds(s: seq<RawItem>) {
    forall i, j :: 0 <= i < j < |s| ==> s[i].movieId != s[j].movieId
  }

  lemma {:induction false} KeptIsFirst(raw: seq<RawItem>, x: RawItem) returns (i: nat)
    requires x in KeepFirst(raw)
    ensures FirstOfId(raw, i) && raw[i] == x
  {
    var n := |raw| - 1;
    if x in KeepFirst(raw[..n]) {
      i := KeptIsFirst(raw[..n], x);
    } else {
      i := n;
      forall j | 0 <= j < n ensures raw[j].movieId != raw[n].movieId { assert raw[j] in raw[..n]; }
    }
  }

  lemma {:induction false} FirstIsKept(raw: seq<RawItem>, i: nat)
    requires FirstOfId(raw, i)
    ensures raw[i] in KeepFirst(raw)
  {
    var n := |raw| - 1;
    if i < n {
      FirstIsKept(raw[..n], i);
    } else {
      forall r | r in raw[..n] ensures r.movieId != raw[n].movieId {
        var j :| 0 <= j < n && raw[j] == r;
      }
    }
  }

  lemma {:induction false} KeepFirstDistinct(raw: seq<RawItem>)
    ensures DistinctIds(KeepFirst(raw))
    ensures forall x :: x in KeepFirst(raw) ==> x in raw
  {
    if raw != [] {
      KeepFirstDistinct(raw[..|raw| - 1]);
    }
  }

  lemma DistinctIdsOfFilter(p: RawItem -> bool, s: seq<RawItem>)
    requires DistinctIds(s)
    ensures DistinctIds(Filter(p, s))
  {
    var different := (a: RawItem, b: RawItem) => a.movieId != b.movieId;
    assert SortedBy(different, s);
    FilterSorted(different, p, s);
    var r := Filter(p, s);
    forall i, j | 0 <= i < j < |r| ensures r[i].movieId != r[j].movieId { assert different(r[i], r[j]); }
  }

  /**
   * Exactly the described rows that come first for their identifier survive; a described
   * row after an undescribed one of the same identifier does not.
   */
  lemma CleanedItemsExactly(raw: seq<RawItem>, x: Item)
    ensures x in CleanedItems(raw) <==>
      exists i :: FirstOfId(raw, i) && Described(raw[i]) && ParseItem(raw[i]) == x
  {
    var described := Filter(Described, KeepFirst(raw));
    if x in CleanedItems(raw) {
      var j :| 0 <= j < |described| && CleanedItems(raw)[j] == x;
      assert described[j] in described;
      var i := KeptIsFirst(raw, described[j]);
    }
    if exists i :: FirstOfId(raw, i) && Described(raw[i]) && ParseItem(raw[i]) == x {
      var i :| FirstOfId(raw, i) && Described(raw[i]) && ParseItem(raw[i]) == x;
      FirstIsKept(raw, i);
      FilterKeeps(Described, KeepFirst(raw), raw[i]);
      var j :| 0 <= j < |described| && described[j] == raw[i];
      assert CleanedItems(raw)[j] == x;
    }
  }

  /** What a row needs: an identifier seen first, a title and genres that are not blank, and not the placeholder. */
  lemma FirstRowsWithTitleAndGenre(raw: seq<RawItem>, x: Item)
    ensures x in CleanedItems(raw) <==>
      exists i :: FirstOfId(raw, i)
        && raw[i].title.Some? && Strip(raw[i].title.value) != ""
        && raw[i].genres.Some? && Strip(raw[i].genres.value) != "" && raw[i].genres.value != "(no genres listed)"
        && x.itemId == raw[i].movieId && x.title == raw[i].title.value && x.genres == raw[i].genres.value
        && x.categories == SplitBars(raw[i].genres.value)
  {
    CleanedItemsExactly(raw, x);
    if exists i :: FirstOfId(raw, i) && Described(raw[i]) && ParseItem(raw[i]) == x {
      var i :| FirstOfId(raw, i) && Described(raw[i]) && ParseItem(raw[i]) == x;
      assert raw[i].genres.value != "(no genres listed)";
    }
  }

  /** Every input item is in the output or counted by exactly one rule. */
  lemma ItemsAreAccounted(rawItems: seq<RawItem>, rawRatings: seq<RawRating>, s: Settings,
                          kept: seq<Rating>, o: Outcome)
    requires RunsTo(rawItems, rawRatings, s, kept, o)
    ensures o.itemsReport.rowsIn == o.itemsReport.duplicates + o.itemsReport.nullMetadata
              + o.itemsReport.noGenre + o.itemsReport.unrated + o.itemsReport.rowsOut
  {
    var first := KeepFirst(rawItems);
    FilterCounts(HasMetadata, first);
    FilterCounts(HasGenre, Filter(HasMetadata, first));
    FilterTwice(HasMetadata, HasGenre, Described, first);
    FilterCounts(Rated(RatedIds(o.ratings)), CleanedItems(rawItems));
  }

  function LiftItem(i: Item): RawItem {
    RawItem(i.itemId, Some(i.title), Some(i.genres))
  }

  function LiftItems(s: seq<Item>): (r: seq<RawItem>)
    ensures |r| == |s|
  {
    seq(|s|, i requires 0 <= i < |s| => LiftItem(s[i]))
  }

  lemma {:induction false} KeepFirstOfDistinct(s: seq<RawItem>)
    requires DistinctIds(s)
    ensures KeepFirst(s) == s
  {
    if s != [] {
      KeepFirstOfDistinct(s[..|s| - 1]);
      assert s == s[..|s| - 1] + [s[|s| - 1]];
    }
  }

  /** Items a cleaning could have left: described, with their categories, one per identifier. */
  ghost predicate Tidy(s: seq<Item>) {
    && (forall i, j :: 0 <= i < j < |s| ==> s[i].itemId != s[j].itemId)
    && forall x :: x in s ==> Described(LiftItem(x)) && ParseItem(LiftItem(x)) == x
  }

  lemma CleanedItemsAreTidy(raw: seq<RawItem>)
    ensures Tidy(CleanedItems(raw))
  {
    var described := Filter(Described, KeepFirst(raw));
    KeepFirstDistinct(raw);
    DistinctIdsOfFilter(Described, KeepFirst(raw));
    forall j | 0 <= j < |described| ensures Described(described[j]) && LiftItem(CleanedItems(raw)[j]) == described[j] {
      assert described[j] in described;
    }
  }

  lemma TidyFilter(p: Item -> bool, s: seq<Item>)
    requires Tidy(s)
    ensures Tidy(Filter(p, s))
  {
    var different := (a: Item, b: Item) => a.itemId != b.itemId;
    assert SortedBy(different, s);
    FilterSorted(different, p, s);
    var r := Filter(p, s);
    forall i, j | 0 <= i < j < |r| ensures r[i].itemId != r[j].itemId { assert different(r[i], r[j]); }
  }

  lemma TidyItemsAreFixed(s: seq<Item>)
    requires Tidy(s)
    ensures CleanedItems(LiftItems(s)) == s && KeepFirst(LiftItems(s)) == LiftItems(s)
    ensures forall x :: x in LiftItems(s) ==> Described(x)
  {
    var raw := LiftItems(s);
    KeepFirstOfDistinct(raw);
    forall x | x in raw ensures Described(x) {
      var i :| 0 <= i < |raw| && raw[i] == x;
      assert s[i] in s;
    }
    FilterAll(Described, raw);
    forall i | 0 <= i < |s| ensures CleanedItems(raw)[i] == s[i] { assert s[i] in s; }
  }

  // ---------------------------------------------------------------- both tables

  /** After the stage the items are exactly the rated items. */
  lemma ItemsAndRatingsCoincide(rawItems: seq<RawItem>, rawRatings: seq<RawRating>, s: Settings,
                                kept: seq<Rating>, o: Outcome)
    requires RunsTo(rawItems, rawRatings, s, kept, o)
    ensures Ids(o.items) == RatedIds(o.ratings)
  {
    var items, rated := CleanedItems(rawItems), RatedIds(o.ratings);
    CleanedRatings(rawRatings, Ids(items), s, kept, o.ratings);
    forall id | id in rated ensures id in Ids(o.items) {
      var r :| r in o.ratings && r.item == id;
      var i :| i in items && i.itemId == id;
      FilterKeeps(Rated(rated), items, i);
    }
  }

  /**
   * One pass reaches the fixpoint: cleaning the cleaned tables again, whatever way ties in
   * time come out, removes nothing, keeps the items as they are and only reorders ratings.
   */
  lemma CleaningIsOnePass(rawItems: seq<RawItem>, rawRatings: seq<RawRating>, s: Settings,
                          kept: seq<Rating>, o: Outcome, kept2: seq<Rating>, o2: Outcome)
    requires RunsTo(rawItems, rawRatings, s, kept, o)
    requires RunsTo(LiftItems(o.items), LiftRatings(o.ratings), s, kept2, o2)
    ensures o2.items == o.items && multiset(o2.ratings) == multiset(o.ratings)
    ensures o2.itemsReport == ItemsReport(|o.items|, 0, 0, 0, 0, |o.items|)
    ensures o2.ratingsReport == RatingsReport(|o.ratings|, 0, 0, 0, 0, 0, |o.ratings|)
  {
    CleanedItemsAreTidy(rawItems);
    TidyFilter(Rated(RatedIds(o.ratings)), CleanedItems(rawItems));
    TidyItemsAreFixed(o.items);
    ItemsAndRatingsCoincide(rawItems, rawRatings, s, kept, o);
    CleaningRatingsAgain(rawRatings, Ids(CleanedItems(rawItems)), Ids(o.items), s,
                         kept, o.ratings, kept2, o2.ratings, o2.ratingsReport);
    SameRatedIds(o.ratings, o2.ratings);
    RatedItemsStay(o.items, RatedIds(o2.ratings));
  }

  lemma SameRatedIds(s: seq<Rating>, t: seq<Rating>)
    requires multiset(s) == multiset(t)
    ensures RatedIds(s) == RatedIds(t)
  {
    MultisetMembers(s, t);
  }

  lemma RatedItemsStay(items: seq<Item>, ids: set<int>)
    requires Tidy(items) && Ids(items) == ids
    ensures Filter(Rated(ids), items) == items && Filter(Not(Rated(ids)), items) == []
    ensures Filter(Not(HasMetadata), LiftItems(items)) == []
    ensures Filter(Not(HasGenre), Filter(HasMetadata, LiftItems(items))) == []
  {
    forall i | i in items ensures Rated(ids)(i) { assert i.itemId in Ids(items); }
    FilterAll(Rated(ids), items);
    FilterNone(Not(Rated(ids)), items);
    TidyItemsAreFixed(items);
    FilterAll(HasMetadata, LiftItems(items));
    FilterNone(Not(HasMetadata), LiftItems(items));
    FilterNone(Not(HasGenre), LiftItems(items));
  }

  // ---------------------------------------------------------------- genres

  function JoinBars(parts: seq<string>): string
    requires |parts| > 0
  {
    if |parts| == 1 then parts[0] else parts[0] + "|" + JoinBars(parts[1..])
  }

  /** The categories are the bar-free pieces of the genre text, and rebuild it. */
  lemma {:induction false} CategoriesRebuildGenres(s: string)
    ensures JoinBars(SplitBars(s)) == s
    ensures forall part :: part in SplitBars(s) ==> '|' !in part
  {
    if s != "" {
      CategoriesRebuildGenres(s[1..]);
      var rest, parts := SplitBars(s[1..]), SplitBars(s);
      assert s == [s[0]] + s[1..];
      if s[0] == '|' {
        assert parts[1..] == rest;
        assert JoinBars(parts) == "" + "|" + JoinBars(rest);
      } else {
        assert parts[1..] == rest[1..];
        assert rest[0] in rest;
        assert forall part :: part in rest[1..] ==> part in rest;
      }
    }
  }
}
