/** Filtering rows. */
module Rows {
  import opened Sorting

  function Filter<T>(p: T -> bool, s: seq<T>): (r: seq<T>)
    ensures |r| <= |s|
    ensures forall x :: x in r ==> x in s && p(x)
  {
    if s == [] then []
    else if p(s[|s| - 1]) then Filter(p, s[..|s| - 1]) + [s[|s| - 1]]
    else Filter(p, s[..|s| - 1])
  }

  function Not<T>(p: T -> bool): T -> bool {
    (x: T) => !p(x)
  }

  lemma {:induction false} FilterKeeps<T>(p: T -> bool, s: seq<T>, x: T)
    requires x in s && p(x)
    ensures x in Filter(p, s)
  {
    if x != s[|s| - 1] {
      assert s == s[..|s| - 1] + [s[|s| - 1]];
      FilterKeeps(p, s[..|s| - 1], x);
    }
  }

  lemma {:induction false} FilterAll<T>(p: T -> bool, s: seq<T>)
    requires forall x :: x in s ==> p(x)
    ensures Filter(p, s) == s
  {
    if s != [] {
      assert s == s[..|s| - 1] + [s[|s| - 1]];
      FilterAll(p, s[..|s| - 1]);
    }
  }

  lemma {:induction false} FilterNone<T>(p: T -> bool, s: seq<T>)
    requires forall x :: x in s ==> !p(x)
    ensures Filter(p, s) == []
  {
    if s != [] {
      FilterNone(p, s[..|s| - 1]);
    }
  }

  lemma {:induction false} FilterCounts<T>(p: T -> bool, s: seq<T>)
    ensures |Filter(p, s)| + |Filter(Not(p), s)| == |s|
  {
    if s != [] {
      FilterCounts(p, s[..|s| - 1]);
    }
  }

  lemma {:induction false} FilterOfConcat<T>(p: T -> bool, s: seq<T>, t: seq<T>)
    ensures Filter(p, s + t) == Filter(p, s) + Filter(p, t)
  {
    if t == [] {
      assert s + t == s;
    } else {
      assert s + t == (s + t[..|t| - 1]) + [t[|t| - 1]];
      FilterOfConcat(p, s, t[..|t| - 1]);
      FilterSnoc(p, s + t[..|t| - 1], t[|t| - 1]);
    }
  }

  lemma FilterWithoutAt<T>(p: T -> bool, s: seq<T>, i: nat)
    requires i < |s|
    ensures |Filter(p, s)| == |Filter(p, Without(s, i))| + if p(s[i]) then 1 else 0
  {
    assert s == s[..i] + [s[i]] + s[i + 1..];
    FilterOfConcat(p, s[..i] + [s[i]], s[i + 1..]);
    FilterSnoc(p, s[..i], s[i]);
    FilterOfConcat(p, s[..i], s[i + 1..]);
  }

  /** Reordering keeps how many rows satisfy `p`. */
  lemma {:induction false} FilterOfPermutation<T>(p: T -> bool, s: seq<T>, t: seq<T>)
    requires multiset(s) == multiset(t)
    ensures |Filter(p, s)| == |Filter(p, t)|
  {
    if s == [] {
      MultisetMembers(s, t);
    } else {
      var j := Peel(s, 0, t);
      FilterOfPermutation(p, Without(s, 0), Without(t, j));
      FilterWithoutAt(p, s, 0);
      FilterWithoutAt(p, t, j);
    }
  }

  /** What holds between any two rows, in order, still does after filtering. */
  lemma {:induction false} FilterSorted<T>(le: (T, T) -> bool, p: T -> bool, s: seq<T>)
    requires SortedBy(le, s)
    ensures SortedBy(le, Filter(p, s))
  {
    if s != [] {
      var n := |s| - 1;
      FilterSorted(le, p, s[..n]);
      forall x | x in Filter(p, s[..n]) ensures le(x, s[n]) {
        var i :| 0 <= i < n && s[..n][i] == x;
        assert le(s[i], s[n]);
      }
    }
  }

  lemma FilterSnoc<T>(p: T -> bool, s: seq<T>, x: T)
    ensures Filter(p, s + [x]) == if p(x) then Filter(p, s) + [x] else Filter(p, s)
  {
    assert (s + [x])[..|s|] == s;
  }

  lemma InsertLast<T(!new)>(le: (T, T) -> bool, s: seq<T>, x: T)
    requires forall y :: y in s ==> le(y, x)
    ensures Insert(le, s, x) == s + [x]
  {
    if s != [] { assert s[|s| - 1] in s; }
  }

  lemma BelowLast<T(!new)>(le: (T, T) -> bool, s: seq<T>, x: T)
    requires TotalPreorder(le) && SortedBy(le, s) && (s == [] || le(s[|s| - 1], x))
    ensures forall y :: y in s ==> le(y, x)
  {
    forall y | y in s ensures le(y, x) {
      var i :| 0 <= i < |s| && s[i] == y;
      assert i < |s| - 1 ==> le(s[i], s[|s| - 1]);
    }
  }

  lemma InsertBeforeLast<T(!new)>(le: (T, T) -> bool, s: seq<T>, last: T, x: T)
    requires !le(last, x)
    ensures Insert(le, s + [last], x) == Insert(le, s, x) + [last]
  {
    assert (s + [last])[..|s|] == s;
  }

  lemma {:induction false} FilterInsert<T(!new)>(le: (T, T) -> bool, p: T -> bool, s: seq<T>, x: T)
    requires TotalPreorder(le) && SortedBy(le, s)
    ensures Filter(p, Insert(le, s, x)) == if p(x) then Insert(le, Filter(p, s), x) else Filter(p, s)
  {
    if s == [] || le(s[|s| - 1], x) {
      BelowLast(le, s, x);
      FilterSnoc(p, s, x);
      InsertLast(le, Filter(p, s), x);
    } else {
      var init, last := s[..|s| - 1], s[|s| - 1];
      FilterInsert(le, p, init, x);
      FilterSnoc(p, Insert(le, init, x), last);
      InsertBeforeLast(le, Filter(p, init), last, x);
    }
  }

  /** Stable sorting commutes with filtering. */
  lemma {:induction false} FilterOfSort<T(!new)>(le: (T, T) -> bool, p: T -> bool, s: seq<T>)
    requires TotalPreorder(le)
    ensures Filter(p, Sort(le, s)) == Sort(le, Filter(p, s))
  {
    if s != [] {
      var init, last := s[..|s| - 1], s[|s| - 1];
      FilterOfSort(le, p, init);
      SortSorts(le, init);
      FilterInsert(le, p, Sort(le, init), last);
      assert (Filter(p, init) + [last])[..|Filter(p, init)|] == Filter(p, init);
    }
  }
}
