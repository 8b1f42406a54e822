/** The cleaning stage: item rules, rating rules, and the closure between the two tables. */
module Cleaning {
  import opened Wrappers
  import opened Whitespace
  import opened Ratings
  import opened Rows
  import opened Sorting

  // ---------------------------------------------------------------- items

  datatype RawItem = RawItem(movieId: int, title: Option<string>, genres: Option<string>)

  datatype Item = Item(itemId: int, title: string, genres: string, categories: seq<string>)

  datatype ItemsReport =
    ItemsReport(rowsIn: int, duplicates: int, nullMetadata: int, noGenre: int, unrated: int, rowsOut: int)

  const NO_GENRE := "(no genres listed)"

  /** `str.split("|")`. */
  function SplitBars(s: string): (r: seq<string>)
    ensures |r| > 0
  {
    if s == "" then [""]
    else
      var rest := SplitBars(s[1..]);
      if s[0] == '|' then [""] + rest else [[s[0]] + rest[0]] + rest[1..]
  }

  /** `drop_duplicates(keep="first")` on the identifier. */
  function KeepFirst(s: seq<RawItem>): seq<RawItem> {
    if s == [] then []
    else if exists r :: r in s[..|s| - 1] && r.movieId == s[|s| - 1].movieId then KeepFirst(s[..|s| - 1])
    else KeepFirst(s[..|s| - 1]) + [s[|s| - 1]]
  }

  predicate HasMetadata(r: RawItem) {
    r.title.Some? && r.genres.Some? && Strip(r.title.value) != ""
  }

  predicate HasGenre(r: RawItem) {
    r.genres.Some? && Strip(r.genres.value) != "" && r.genres.value != NO_GENRE
  }

  predicate Described(r: RawItem) {
    HasMetadata(r) && HasGenre(r)
  }

  function ParseItem(r: RawItem): Item
    requires Described(r)
  {
    Item(r.movieId, r.title.value, r.genres.value, SplitBars(r.genres.value))
  }

  function ParseItems(s: seq<RawItem>): (r: seq<Item>)
    requires forall x :: x in s ==> Described(x)
    ensures |r| == |s| && forall i :: 0 <= i < |s| ==> r[i] == ParseItem(s[i])
  {
    seq(|s|, i requires 0 <= i < |s| => assert s[i] in s; ParseItem(s[i]))
  }

  function CleanedItems(raw: seq<RawItem>): seq<Item> {
    ParseItems(Filter(Described, KeepFirst(raw)))
  }

  /** Counters of what each item rule removed. */
  ghost predicate ItemsAccount(raw: seq<RawItem>, report: ItemsReport) {
    && report.rowsIn == |raw|
    && report.duplicates == |raw| - |KeepFirst(raw)|
    && report.nullMetadata == |Filter(Not(HasMetadata), KeepFirst(raw))|
    && report.noGenre == |Filter(Not(HasGenre), Filter(HasMetadata, KeepFirst(raw)))|
    && report.rowsOut == |CleanedItems(raw)|
    && report.unrated == 0
  }

  lemma {:induction false} FilterTwice<T>(p: T -> bool, q: T -> bool, r: T -> bool, s: seq<T>)
    requires forall x :: x in s ==> (r(x) <==> p(x) && q(x))
    ensures Filter(q, Filter(p, s)) == Filter(r, s)
  {
    if s != [] {
      var init := s[..|s| - 1];
      FilterTwice(p, q, r, init);
      if p(s[|s| - 1]) {
        assert (Filter(p, init) + [s[|s| - 1]])[..|Filter(p, init)|] == Filter(p, init);
      }
    }
  }

  method CleanItems(raw: seq<RawItem>) returns (items: seq<Item>, report: ItemsReport)
    ensures items == CleanedItems(raw) && ItemsAccount(raw, report)
  {
    report := ItemsReport(|raw|, 0, 0, 0, 0, 0);

    var table := KeepFirst(raw);
    report := report.(duplicates := report.rowsIn - |table|);

    var before := |table|;
    FilterCounts(HasMetadata, table);
    table := Filter(HasMetadata, table);
    report := report.(nullMetadata := before - |table|);

    before := |table|;
    FilterCounts(HasGenre, table);
    table := Filter(HasGenre, table);
    report := report.(noGenre := before - |table|);

    FilterTwice(HasMetadata, HasGenre, Described, KeepFirst(raw));
    items := ParseItems(table);
    report := report.(rowsOut := |items|);
  }

  // ---------------------------------------------------------------- ratings

  datatype Settings = Settings(minRating: real, maxRating: real, minUserInteractions: int)

  datatype RawRating =
    RawRating(user: Option<int>, item: Option<int>, rating: Option<real>, timestamp: Option<int>)

  datatype RatingsReport =
    RatingsReport(rowsIn: int, nullRows: int, duplicates: int, outOfRange: int,
                  orphanItems: int, sparseUsers: int, rowsOut: int)

  predicate Complete(r: RawRating) {
    r.user.Some? && r.item.Some? && r.rating.Some? && r.timestamp.Some?
  }

  function DropNulls(raw: seq<RawRating>): (r: seq<Rating>) {
    if raw == [] then []
    else
      var init, last := DropNulls(raw[..|raw| - 1]), raw[|raw| - 1];
      if Complete(last)
      then init + [Rating(last.user.value, last.item.value, last.rating.value, last.timestamp.value)]
      else init
  }

  lemma {:induction false} DropNullsCounts(raw: seq<RawRating>)
    ensures |DropNulls(raw)| == |raw| - |Filter(Not(Complete), raw)|
  {
    if raw != [] {
      DropNullsCounts(raw[..|raw| - 1]);
    }
  }

  predicate ByTime(a: Rating, b: Rating) {
    a.timestamp <= b.timestamp
  }

  /** `sort_values("timestamp")`: how ties come out is not specified. */
  method SortByTimestamp(rows: seq<Rating>) returns (sorted: seq<Rating>)
    ensures multiset(sorted) == multiset(rows) && SortedBy(ByTime, sorted)
  {
    assert TotalPreorder(ByTime);
    SortSorts(ByTime, rows);
    SortPermutes(ByTime, rows);
    sorted := Sort(ByTime, rows);
  }

  /** `drop_duplicates(keep="last")` on the pair. */
  function KeepLast(s: seq<Rating>): seq<Rating> {
    if s == [] then []
    else if exists r :: r in s[1..] && SamePair(r, s[0]) then KeepLast(s[1..])
    else [s[0]] + KeepLast(s[1..])
  }

  function InRange(s: Settings): Rating -> bool {
    (r: Rating) => s.minRating <= r.rating <= s.maxRating
  }

  function Known(items: set<int>): Rating -> bool {
    (r: Rating) => r.item in items
  }

  function Qualifying(items: set<int>, s: Settings): Rating -> bool {
    (r: Rating) => s.minRating <= r.rating <= s.maxRating && r.item in items
  }

  function Active(table: seq<Rating>, atLeast: int): Rating -> bool {
    (r: Rating) => Count(table, r.user) >= atLeast
  }

  /** One row per pair of `rows`, none older than another row of its pair, oldest first. */
  ghost predicate KeepsLatest(rows: seq<Rating>, kept: seq<Rating>) {
    && DistinctPairs(kept)
    && SortedBy(ByTime, kept)
    && multiset(kept) <= multiset(rows)
    && forall r :: r in rows ==> exists k :: k in kept && SamePair(r, k) && r.timestamp <= k.timestamp
  }

  /** `kept` are the rows left by deduplication, `out` those the remaining rules leave of them. */
  ghost predicate CleansTo(raw: seq<RawRating>, items: set<int>, s: Settings,
                           kept: seq<Rating>, out: seq<Rating>)
  {
    var qualified := Filter(Qualifying(items, s), kept);
    KeepsLatest(DropNulls(raw), kept) && out == Filter(Active(qualified, s.minUserInteractions), qualified)
  }

  /** Counters of what each rating rule removed. */
  ghost predicate RatingsAccount(raw: seq<RawRating>, items: set<int>, s: Settings,
                                 kept: seq<Rating>, out: seq<Rating>, report: RatingsReport)
  {
    var inRange, qualified := Filter(InRange(s), kept), Filter(Qualifying(items, s), kept);
    && report.rowsIn == |raw|
    && report.nullRows == |Filter(Not(Complete), raw)|
    && report.duplicates == |DropNulls(raw)| - |kept|
    && report.outOfRange == |Filter(Not(InRange(s)), kept)|
    && report.orphanItems == |Filter(Not(Known(items)), inRange)|
    && report.sparseUsers == |Filter(Not(Active(qualified, s.minUserInteractions)), qualified)|
    && report.rowsOut == |out|
  }

  lemma {:induction false} KeepLastMembers(s: seq<Rating>)
    ensures multiset(KeepLast(s)) <= multiset(s)
    ensures forall x :: x in KeepLast(s) ==> x in s
  {
    if s != [] {
      KeepLastMembers(s[1..]);
      assert s == [s[0]] + s[1..];
      assert multiset(s) == multiset{s[0]} + multiset(s[1..]);
    }
  }

  lemma {:induction false} KeepLastDistinct(s: seq<Rating>)
    ensures DistinctPairs(KeepLast(s))
  {
    if s != [] {
      var rest := KeepLast(s[1..]);
      KeepLastDistinct(s[1..]);
      KeepLastMembers(s[1..]);
      if KeepLast(s) != rest {
        forall x | x in rest ensures !SamePair(s[0], x) { assert x in s[1..] && !SamePair(x, s[0]); }
        DistinctCons(s[0], rest);
      }
    }
  }

  lemma DistinctCons(x: Rating, s: seq<Rating>)
    requires DistinctPairs(s) && forall y :: y in s ==> !SamePair(x, y)
    ensures DistinctPairs([x] + s)
  {
  }

  lemma {:induction false} KeepLastIsLatest(s: seq<Rating>, r: Rating) returns (k: Rating)
    requires SortedBy(ByTime, s) && r in s
    ensures k in KeepLast(s) && SamePair(r, k) && r.timestamp <= k.timestamp
  {
    var rest := s[1..];
    if r in rest {
      k := KeepLastIsLatest(rest, r);
    } else if exists x :: x in rest && SamePair(x, s[0]) {
      var x :| x in rest && SamePair(x, s[0]);
      k := KeepLastIsLatest(rest, x);
      assert r == s[0] && ByTime(r, x);
    } else {
      k := r;
    }
  }

  lemma {:induction false} KeepLastSorted(s: seq<Rating>)
    requires SortedBy(ByTime, s)
    ensures SortedBy(ByTime, KeepLast(s))
  {
    if s != [] {
      KeepLastSorted(s[1..]);
      KeepLastMembers(s[1..]);
      forall x | x in KeepLast(s[1..]) ensures ByTime(s[0], x) {
        var i :| 0 <= i < |s[1..]| && s[1..][i] == x;
        assert s[i + 1] == x;
      }
    }
  }

  lemma KeepLastCoversPairs(s: seq<Rating>)
    requires SortedBy(ByTime, s)
    ensures forall r :: r in s ==> exists k :: k in KeepLast(s) && SamePair(r, k) && r.timestamp <= k.timestamp
  {
    forall r | r in s ensures exists k :: k in KeepLast(s) && SamePair(r, k) && r.timestamp <= k.timestamp {
      var k := KeepLastIsLatest(s, r);
    }
  }

  lemma SubsetLength(s: seq<Rating>, t: seq<Rating>)
    requires multiset(s) <= multiset(t)
    ensures |s| <= |t|
  {
    assert multiset(t) == multiset(s) + (multiset(t) - multiset(s));
    assert |multiset(s)| == |s| && |multiset(t)| == |t|;
  }

  lemma KeepLastKeepsLatest(rows: seq<Rating>, sorted: seq<Rating>)
    requires multiset(sorted) == multiset(rows) && SortedBy(ByTime, sorted)
    ensures KeepsLatest(rows, KeepLast(sorted)) && |KeepLast(sorted)| <= |rows|
  {
    KeepLastMembers(sorted);
    KeepLastDistinct(sorted);
    KeepLastSorted(sorted);
    KeepLastCoversPairs(sorted);
    SubsetLength(KeepLast(sorted), rows);
    forall r | r in rows ensures r in sorted { assert r in multiset(sorted); }
  }

  /** The rating rules, in order: the table is rebound by each, and its counter recorded. */
  method CleanRatings(raw: seq<RawRating>, items: set<int>, s: Settings)
    returns (table: seq<Rating>, report: RatingsReport, ghost kept: seq<Rating>)
    ensures CleansTo(raw, items, s, kept, table) && RatingsAccount(raw, items, s, kept, table, report)
    ensures forall r :: r in table ==> s.minRating <= r.rating <= s.maxRating && r.item in items
    ensures report.rowsOut == |table|
  {
    report := RatingsReport(|raw|, 0, 0, 0, 0, 0, 0);

    DropNullsCounts(raw);
    table := DropNulls(raw);
    report := report.(nullRows := |raw| - |table|);

    var before := |table|;
    var sorted := SortByTimestamp(table);
    KeepLastKeepsLatest(table, sorted);
    table := KeepLast(sorted);
    kept := table;
    report := report.(duplicates := before - |table|);

    before := |table|;
    FilterCounts(InRange(s), table);
    table := Filter(InRange(s), table);
    report := report.(outOfRange := before - |table|);

    before := |table|;
    FilterCounts(Known(items), table);
    table := Filter(Known(items), table);
    report := report.(orphanItems := before - |table|);
    FilterTwice(InRange(s), Known(items), Qualifying(items, s), kept);

    before := |table|;
    FilterCounts(Active(table, s.minUserInteractions), table);
    table := Filter(Active(table, s.minUserInteractions), table);
    report := report.(sparseUsers := before - |table|);

    report := report.(rowsOut := |table|);
  }

  // ---------------------------------------------------------------- both tables

  function Ids(items: seq<Item>): set<int> {
    set i | i in items :: i.itemId
  }

  function RatedIds(ratings: seq<Rating>): set<int> {
    set r | r in ratings :: r.item
  }

  function Rated(ids: set<int>): Item -> bool {
    (i: Item) => i.itemId in ids
  }

  datatype Outcome =
    Outcome(items: seq<Item>, ratings: seq<Rating>, itemsReport: ItemsReport, ratingsReport: RatingsReport)

  ghost predicate RunsTo(rawItems: seq<RawItem>, rawRatings: seq<RawRating>, s: Settings,
                         kept: seq<Rating>, o: Outcome)
  {
    var items := CleanedItems(rawItems);
    && CleansTo(rawRatings, Ids(items), s, kept, o.ratings)
    && RatingsAccount(rawRatings, Ids(items), s, kept, o.ratings, o.ratingsReport)
    && o.items == Filter(Rated(RatedIds(o.ratings)), items)
    && o.itemsReport.unrated == |Filter(Not(Rated(RatedIds(o.ratings))), items)|
    && o.itemsReport.rowsOut == |o.items|
    && ItemsAccount(rawItems, o.itemsReport.(unrated := 0, rowsOut := |items|))
  }

  /** The stage: items first, then the ratings of those items, then items nobody rated go too. */
  method CleanAll(rawItems: seq<RawItem>, rawRatings: seq<RawRating>, s: Settings)
    returns (o: Outcome, ghost kept: seq<Rating>)
    ensures RunsTo(rawItems, rawRatings, s, kept, o)
    ensures forall i :: i in o.items ==> i in CleanedItems(rawItems) && i.itemId in RatedIds(o.ratings)
    ensures forall r :: r in o.ratings ==> r.item in Ids(CleanedItems(rawItems))
  {
    var items, itemsReport := CleanItems(rawItems);
    var ratings, ratingsReport;
    ratings, ratingsReport, kept := CleanRatings(rawRatings, Ids(items), s);

    var rated := RatedIds(ratings);
    var before := |items|;
    FilterCounts(Rated(rated), items);
    items := Filter(Rated(rated), items);
    itemsReport := itemsReport.(unrated := before - |items|, rowsOut := |items|);
    o := Outcome(items, ratings, itemsReport, ratingsReport);
  }
}
