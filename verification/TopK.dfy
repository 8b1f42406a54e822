/** `top_k` and the popularity ranking: best positions, and sort-and-take. */
module TopK {
  import opened Arithmetic
  import opened Sorting
  import opened Selection
  import opened Rankings

  /** A float score; only finite ones are ever candidates. */
  datatype Score = Finite(value: real) | PlusInfinity | MinusInfinity | NotANumber

  ghost predicate Distinct(s: seq<nat>) {
    forall i, j :: 0 <= i < j < |s| ==> s[i] != s[j]
  }

  /** How many entries a request for `k` of `n` candidates returns. */
  function Size(k: int, n: nat): nat {
    if k <= 0 then 0 else Min(k, n)
  }

  /** `at` names `k` best positions of `eligible`, or all of them when there are fewer. */
  ghost predicate Best(valid: seq<real>, eligible: set<nat>, k: int, at: seq<nat>) {
    && |at| == Size(k, |eligible|)
    && Distinct(at)
    && (forall x :: x in at ==> x in eligible)
    && Descending(valid, at)
    && (forall x, y :: x in at && y in eligible && y !in at ==> At(valid, x) >= At(valid, y))
  }

  // ---------------------------------------------------------------- sort-and-take

  predicate Greater(x: real, y: real) {
    x >= y
  }

  function Values(valid: seq<real>, s: seq<nat>): (r: seq<real>)
    ensures |r| == |s|
  {
    seq(|s|, i requires 0 <= i < |s| => At(valid, s[i]))
  }

  ghost predicate Enumerates(c: seq<nat>, eligible: set<nat>) {
    Distinct(c) && forall x :: x in c <==> x in eligible
  }

  /** The members of `c` that `at` leaves out. */
  ghost function Rest(c: seq<nat>, at: seq<nat>): seq<nat> {
    if c == [] then []
    else if c[0] in at then Rest(c[1..], at)
    else [c[0]] + Rest(c[1..], at)
  }

  lemma {:induction false} RestMembers(c: seq<nat>, at: seq<nat>)
    requires Distinct(c)
    ensures Distinct(Rest(c, at)) && forall x :: x in Rest(c, at) <==> x in c && x !in at
  {
    if c != [] {
      RestMembers(c[1..], at);
      assert c == [c[0]] + c[1..];
      assert c[0] !in c[1..];
    }
  }

  lemma {:induction false} DistinctCounts(s: seq<nat>, x: nat)
    requires Distinct(s)
    ensures multiset(s)[x] == if x in s then 1 else 0
  {
    if s != [] {
      DistinctCounts(s[1..], x);
      assert s == [s[0]] + s[1..];
      assert s[0] !in s[1..];
    }
  }

  lemma {:induction false} DistinctSize(s: seq<nat>, eligible: set<nat>)
    requires Enumerates(s, eligible)
    ensures |s| == |eligible|
  {
    if s == [] {
      assert eligible == {};
    } else {
      assert s == [s[0]] + s[1..];
      assert s[0] !in s[1..];
      DistinctSize(s[1..], eligible - {s[0]});
    }
  }

  lemma SameMembers(s: seq<nat>, t: seq<nat>)
    requires Distinct(s) && Distinct(t) && forall x :: x in s <==> x in t
    ensures multiset(s) == multiset(t)
  {
    forall x: nat ensures multiset(s)[x] == multiset(t)[x] {
      DistinctCounts(s, x);
      DistinctCounts(t, x);
    }
  }

  lemma ChosenAndRest(c: seq<nat>, at: seq<nat>)
    requires Distinct(c) && Distinct(at) && forall x :: x in at ==> x in c
    ensures multiset(at + Rest(c, at)) == multiset(c) && |at| + |Rest(c, at)| == |c|
  {
    RestMembers(c, at);
    var all := at + Rest(c, at);
    forall i, j | 0 <= i < j < |all| ensures all[i] != all[j] {
      if i < |at| <= j { assert all[i] in at && all[j] in Rest(c, at); }
    }
    SameMembers(all, c);
    MultisetMembers(all, c);
  }

  lemma ValuesOfJoin(valid: seq<real>, s: seq<nat>, t: seq<nat>)
    ensures Values(valid, s + t) == Values(valid, s) + Values(valid, t)
  {
  }

  lemma ValuesWithoutAt(valid: seq<real>, t: seq<nat>, i: nat)
    requires i < |t|
    ensures multiset(Values(valid, t)) == multiset(Values(valid, Without(t, i))) + multiset{At(valid, t[i])}
  {
    assert Values(valid, Without(t, i)) == Without(Values(valid, t), i);
    WithoutAt(Values(valid, t), i);
  }

  /** Reading the scores of a permutation permutes the scores. */
  lemma {:induction false} ValuesPermute(valid: seq<real>, s: seq<nat>, t: seq<nat>)
    requires multiset(s) == multiset(t)
    ensures multiset(Values(valid, s)) == multiset(Values(valid, t))
  {
    if s == [] {
      MultisetMembers(s, t);
    } else {
      var i := Peel(s, 0, t);
      ValuesPermute(valid, Without(s, 0), Without(t, i));
      ValuesWithoutAt(valid, s, 0);
      ValuesWithoutAt(valid, t, i);
    }
  }

  lemma GreaterIsAPreorder()
    ensures TotalPreorder(Greater)
  {
  }

  lemma MembersOfValues(valid: seq<real>, s: seq<nat>, v: real)
    ensures v in Values(valid, s) <==> exists x :: x in s && At(valid, x) == v
  {
    if v in Values(valid, s) {
      var i :| 0 <= i < |s| && Values(valid, s)[i] == v;
      assert s[i] in s;
    }
    if exists x :: x in s && At(valid, x) == v {
      var x :| x in s && At(valid, x) == v;
      var i :| 0 <= i < |s| && s[i] == x;
      assert Values(valid, s)[i] == v;
    }
  }

  lemma ChosenAboveRest(valid: seq<real>, at: seq<nat>, rest: seq<nat>, back: seq<real>, i: nat, j: nat)
    requires forall x, y :: x in at && y in rest ==> At(valid, x) >= At(valid, y)
    requires multiset(back) == multiset(Values(valid, rest)) && i < |at| && j < |back|
    ensures At(valid, at[i]) >= back[j]
  {
    assert back[j] in back;
    MultisetMembers(back, Values(valid, rest));
    MembersOfValues(valid, rest, back[j]);
    assert at[i] in at;
  }

  lemma JoinIsSorted(front: seq<real>, back: seq<real>)
    requires SortedBy(Greater, front) && SortedBy(Greater, back)
    requires forall i, j :: 0 <= i < |front| && 0 <= j < |back| ==> front[i] >= back[j]
    ensures SortedBy(Greater, front + back)
  {
    forall i, j | 0 <= i < j < |front + back| ensures Greater((front + back)[i], (front + back)[j]) {
      if i < |front| <= j {
        assert front[i] >= back[j - |front|];
      }
    }
  }

  /** The chosen scores, then the other scores sorted, are all the scores sorted. */
  lemma BestThenSortedRest(valid: seq<real>, eligible: set<nat>, c: seq<nat>, k: int, at: seq<nat>)
    requires Enumerates(c, eligible) && Best(valid, eligible, k, at)
    ensures |at| <= |c|
    ensures Values(valid, at) + Sort(Greater, Values(valid, Rest(c, at))) == Sort(Greater, Values(valid, c))
  {
    var rest := Rest(c, at);
    var front, back := Values(valid, at), Sort(Greater, Values(valid, rest));
    ChosenAndRest(c, at);
    RestMembers(c, at);
    GreaterIsAPreorder();
    SortPermutes(Greater, Values(valid, rest));
    SortSorts(Greater, Values(valid, rest));
    SortPermutes(Greater, Values(valid, c));
    SortSorts(Greater, Values(valid, c));
    ValuesPermute(valid, at + rest, c);
    ValuesOfJoin(valid, at, rest);
    forall i, j | 0 <= i < |front| && 0 <= j < |back| ensures front[i] >= back[j] {
      ChosenAboveRest(valid, at, rest, back, i, j);
    }
    JoinIsSorted(front, back);
    SortedIsUnique(Greater, front + back, Sort(Greater, Values(valid, c)));
  }

  /**
   * Selecting the best positions is sorting the scores and taking a prefix: of the
   * distinct eligible position lists, exactly those whose scores are that prefix are best.
   */
  lemma BestIsSortAndTake(valid: seq<real>, eligible: set<nat>, c: seq<nat>, k: int, at: seq<nat>)
    requires Enumerates(c, eligible) && Distinct(at) && forall x :: x in at ==> x in eligible
    ensures Size(k, |eligible|) <= |c|
    ensures Best(valid, eligible, k, at)
       <==> Values(valid, at) == Sort(Greater, Values(valid, c))[..Size(k, |eligible|)]
  {
    DistinctSize(c, eligible);
    if Best(valid, eligible, k, at) {
      BestThenSortedRest(valid, eligible, c, k, at);
    }
    if Values(valid, at) == Sort(Greater, Values(valid, c))[..Size(k, |eligible|)] {
      PrefixIsBest(valid, eligible, c, k, at);
    }
  }

  lemma RestOfPrefix(sorted: seq<real>, m: nat, front: seq<real>, back: seq<real>)
    requires m <= |sorted| && front == sorted[..m] && multiset(front + back) == multiset(sorted)
    ensures multiset(back) == multiset(sorted[m..])
  {
    assert sorted == sorted[..m] + sorted[m..];
    assert multiset(sorted) == multiset(front) + multiset(sorted[m..]);
    assert multiset(back) == multiset(sorted) - multiset(front);
    assert multiset(sorted[m..]) == multiset(sorted) - multiset(front);
  }

  lemma PrefixSplits(valid: seq<real>, c: seq<nat>, m: nat, at: seq<nat>)
    requires Distinct(c) && Distinct(at) && m <= |c| && forall x :: x in at ==> x in c
    requires Values(valid, at) == Sort(Greater, Values(valid, c))[..m]
    ensures multiset(Values(valid, Rest(c, at))) == multiset(Sort(Greater, Values(valid, c))[m..])
  {
    var rest := Rest(c, at);
    ChosenAndRest(c, at);
    SortPermutes(Greater, Values(valid, c));
    ValuesPermute(valid, at + rest, c);
    ValuesOfJoin(valid, at, rest);
    RestOfPrefix(Sort(Greater, Values(valid, c)), m, Values(valid, at), Values(valid, rest));
  }

  lemma PrefixDominates(valid: seq<real>, s: seq<nat>, t: seq<nat>, sorted: seq<real>, m: nat, x: nat, y: nat)
    requires SortedBy(Greater, sorted) && m <= |sorted| && Values(valid, s) == sorted[..m]
    requires multiset(Values(valid, t)) == multiset(sorted[m..])
    requires x in s && y in t
    ensures At(valid, x) >= At(valid, y)
  {
    MultisetMembers(Values(valid, t), sorted[m..]);
    MembersOfValues(valid, s, At(valid, x));
    MembersOfValues(valid, t, At(valid, y));
    var i :| 0 <= i < m && sorted[..m][i] == At(valid, x);
    var j :| 0 <= j < |sorted[m..]| && sorted[m..][j] == At(valid, y);
    assert Greater(sorted[i], sorted[m + j]);
  }

  lemma PrefixIsBest(valid: seq<real>, eligible: set<nat>, c: seq<nat>, k: int, at: seq<nat>)
    requires Enumerates(c, eligible) && Distinct(at) && forall x :: x in at ==> x in eligible
    requires Size(k, |eligible|) <= |c|
    requires Values(valid, at) == Sort(Greater, Values(valid, c))[..Size(k, |eligible|)]
    ensures Best(valid, eligible, k, at)
  {
    var m, rest, sorted := Size(k, |eligible|), Rest(c, at), Sort(Greater, Values(valid, c));
    assert |at| == |Values(valid, at)| == m;
    GreaterIsAPreorder();
    SortSorts(Greater, Values(valid, c));
    RestMembers(c, at);
    PrefixSplits(valid, c, m, at);
    forall x, y | x in at && y in eligible && y !in at ensures At(valid, x) >= At(valid, y) {
      PrefixDominates(valid, at, rest, sorted, m, x, y);
    }
    forall i, j | 0 <= i < j < |at| ensures At(valid, at[i]) >= At(valid, at[j]) {
      assert Values(valid, at)[i] == sorted[i] && Values(valid, at)[j] == sorted[j];
      assert Greater(sorted[i], sorted[j]);
    }
  }

  // ---------------------------------------------------------------- top_k

  function Positions(n: nat): (r: set<nat>)
    ensures |r| == n && forall x: nat :: x in r <==> x < n
  {
    if n == 0 then {} else Positions(n - 1) + {n - 1}
  }

  lemma SplitMembers(all: seq<nat>, m: nat, x: nat)
    requires m <= |all|
    ensures x in all <==> x in all[..m] || x in all[m..]
  {
    assert all == all[..m] + all[m..];
  }

  lemma FrontIsBest(valid: seq<real>, all: seq<nat>, m: nat)
    requires m <= |valid| == |all| && Enumerates(all, Positions(|valid|))
    requires Above(valid, all[..m], all[m..]) && Descending(valid, all[..m])
    ensures Best(valid, Positions(|valid|), m, all[..m])
  {
    var eligible := Positions(|valid|);
    forall x | x in all[..m] ensures x in eligible { SplitMembers(all, m, x); }
    forall x, y | x in all[..m] && y in eligible && y !in all[..m] ensures At(valid, x) >= At(valid, y) {
      SplitMembers(all, m, y);
    }
  }

  lemma TwiceCounts(t: seq<nat>, i: nat, j: nat)
    requires i < j < |t|
    ensures multiset(t)[t[i]] >= 1
    ensures t[i] == t[j] ==> multiset(t)[t[i]] >= 2
  {
    assert t == t[..i] + [t[i]] + t[i + 1..j] + [t[j]] + t[j + 1..];
  }

  lemma PermutationEnumerates(s: seq<nat>, t: seq<nat>, eligible: set<nat>)
    requires Enumerates(s, eligible) && multiset(t) == multiset(s)
    ensures Enumerates(t, eligible)
  {
    MultisetMembers(s, t);
    forall i, j | 0 <= i < j < |t| ensures t[i] != t[j] {
      DistinctCounts(s, t[i]);
      TwiceCounts(t, i, j);
    }
  }

  /** The `m` best positions of `valid`, by partial selection and a sort of the selected ones. */
  method BestPositions(valid: seq<real>, m: nat) returns (at: seq<nat>)
    requires m <= |valid|
    ensures Best(valid, Positions(|valid|), m, at)
  {
    var a := new nat[|valid|](i => i);
    assert Enumerates(a[..], Positions(|valid|)) by {
      forall x ensures x in a[..] <==> x in Positions(|valid|) {
        if x in Positions(|valid|) { assert a[..][x] == x; }
      }
    }
    ghost var start := a[..];
    Select(a, valid, m);
    ghost var selected := a[..];
    SortFront(a, valid, m);
    PermutationEnumerates(start, a[..], Positions(|valid|));
    assert Above(valid, a[..m], a[m..]) by {
      MiddlePermutes(selected, a[..], 0, m);
      MultisetMembers(selected[..m], a[..m]);
    }
    FrontIsBest(valid, a[..], m);
    at := a[..m];
  }

  /** Positions of the finite scores, ascending: the candidates. */
  function Candidates(scores: seq<Score>): (r: seq<nat>)
    ensures forall x: nat :: x in r <==> x < |scores| && scores[x].Finite?
    ensures Distinct(r)
  {
    if scores == [] then []
    else
      var init := Candidates(scores[..|scores| - 1]);
      assert forall i :: 0 <= i < |init| ==> init[i] in init;
      if scores[|scores| - 1].Finite? then init + [|scores| - 1] else init
  }

  function Reals(scores: seq<Score>): (r: seq<real>)
    ensures |r| == |scores|
  {
    seq(|scores|, i requires 0 <= i < |scores| => if scores[i].Finite? then scores[i].value else 0.0)
  }

  ghost function FinitePositions(scores: seq<Score>): set<nat> {
    set x: nat | x < |scores| && scores[x].Finite?
  }

  /** The entries of the ranking at `at`. */
  function Entries(itemIds: seq<int>, scores: seq<Score>, at: seq<nat>): Ranking
    requires |scores| <= |itemIds| && forall x :: x in at ==> x in FinitePositions(scores)
  {
    seq(|at|, i requires 0 <= i < |at| =>
      assert at[i] in at;
      assert at[i] in FinitePositions(scores);
      ScoredItem(itemIds[at[i]], scores[at[i]].value))
  }

  function Through(c: seq<nat>, at: seq<nat>): (r: seq<nat>)
    requires forall i :: 0 <= i < |at| ==> at[i] < |c|
    ensures |r| == |at|
  {
    seq(|at|, i requires 0 <= i < |at| => c[at[i]])
  }

  lemma ChosenComesThrough(c: seq<nat>, at: seq<nat>, j: nat)
    requires (forall i :: 0 <= i < |at| ==> at[i] < |c|) && j in at
    ensures j < |c| && c[j] in Through(c, at)
  {
    var q :| 0 <= q < |at| && at[q] == j;
    assert Through(c, at)[q] == c[j];
  }

  lemma ThroughDominates(valid: seq<real>, c: seq<nat>, at: seq<nat>, i: nat, y: nat)
    requires forall i :: 0 <= i < |at| ==> at[i] < |c|
    requires forall p, q :: p in at && q in Positions(|c|) && q !in at ==>
                              At(Values(valid, c), p) >= At(Values(valid, c), q)
    requires i < |at| && y in c && y !in Through(c, at)
    ensures At(valid, c[at[i]]) >= At(valid, y)
  {
    var j: nat :| j < |c| && c[j] == y;
    if j in at { ChosenComesThrough(c, at, j); }
    assert at[i] in at;
    assert At(Values(valid, c), at[i]) >= At(Values(valid, c), j);
  }

  lemma ThroughDescends(valid: seq<real>, c: seq<nat>, at: seq<nat>)
    requires Distinct(c) && Distinct(at) && forall i :: 0 <= i < |at| ==> at[i] < |c|
    requires Descending(Values(valid, c), at)
    ensures Distinct(Through(c, at)) && Descending(valid, Through(c, at))
  {
    var r := Through(c, at);
    forall i, j | 0 <= i < j < |r| ensures r[i] != r[j] && At(valid, r[i]) >= At(valid, r[j]) {
      assert At(Values(valid, c), at[i]) >= At(Values(valid, c), at[j]);
    }
  }

  /** Best among the candidates is best among the eligible positions they enumerate. */
  lemma BestThroughCandidates(valid: seq<real>, eligible: set<nat>, c: seq<nat>, k: int, at: seq<nat>)
    requires Enumerates(c, eligible) && k > 0
    requires Best(Values(valid, c), Positions(|c|), Size(k, |c|), at)
    ensures forall i :: 0 <= i < |at| ==> at[i] < |c|
    ensures Best(valid, eligible, k, Through(c, at))
  {
    DistinctSize(c, eligible);
    forall i | 0 <= i < |at| ensures at[i] < |c| { assert at[i] in at; }
    ThroughDescends(valid, c, at);
    var r := Through(c, at);
    forall x | x in r ensures x in eligible {
      var i :| 0 <= i < |at| && r[i] == x;
      assert c[at[i]] in c;
    }
    forall x, y | x in r && y in eligible && y !in r ensures At(valid, x) >= At(valid, y) {
      var i :| 0 <= i < |at| && r[i] == x;
      ThroughDominates(valid, c, at, i, y);
    }
  }

  /**
   * The `k` highest finite scores with their items. `at` are the positions chosen: the
   * best finite ones, whose scores are the sorted finite scores cut to that many.
   */
  method TopK(scores: seq<Score>, itemIds: seq<int>, k: int) returns (r: Ranking, ghost at: seq<nat>)
    requires |scores| <= |itemIds|
    ensures Best(Reals(scores), FinitePositions(scores), k, at)
    ensures r == Entries(itemIds, scores, at)
    ensures seq(|r|, i requires 0 <= i < |r| => r[i].score)
         == Sort(Greater, Values(Reals(scores), Candidates(scores)))[..Size(k, |Candidates(scores)|)]
  {
    var c := Candidates(scores);
    ghost var eligible := FinitePositions(scores);
    assert Enumerates(c, eligible);
    DistinctSize(c, eligible);
    if k <= 0 || |scores| == 0 || |c| == 0 {
      r, at := [], [];
    } else {
      var valid := Values(Reals(scores), c);
      var chosen := BestPositions(valid, Size(k, |c|));
      BestThroughCandidates(Reals(scores), eligible, c, k, chosen);
      at := Through(c, chosen);
      r := Entries(itemIds, scores, Through(c, chosen));
    }
    BestIsSortAndTake(Reals(scores), eligible, c, k, at);
    assert seq(|r|, i requires 0 <= i < |r| => r[i].score) == Values(Reals(scores), at);
  }
}
