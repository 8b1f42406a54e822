/** Partial selection: an in-place quickselect, then an in-place sort of the selected front. */
module Selection {
  import opened Sorting

  /** The score at a position. */
  function At(valid: seq<real>, x: nat): real {
    if x < |valid| then valid[x] else 0.0
  }

  /** Every position in `s` scores at least as much as every position in `t`. */
  ghost predicate Above(valid: seq<real>, s: seq<nat>, t: seq<nat>) {
    forall x, y :: x in s && y in t ==> At(valid, x) >= At(valid, y)
  }

  ghost predicate Descending(valid: seq<real>, s: seq<nat>) {
    forall i, j :: 0 <= i < j < |s| ==> At(valid, s[i]) >= At(valid, s[j])
  }

  lemma SwapPermutes(s: seq<nat>, i: nat, j: nat)
    requires i < |s| && j < |s|
    ensures multiset(s[i := s[j]][j := s[i]]) == multiset(s)
  {
  }

  lemma SplitMultiset(s: seq<nat>, lo: nat, hi: nat)
    requires lo <= hi <= |s|
    ensures multiset(s) == multiset(s[..lo]) + multiset(s[lo..hi]) + multiset(s[hi..])
  {
    assert s == s[..lo] + s[lo..hi] + s[hi..];
  }

  method Swap(a: array<nat>, i: nat, j: nat)
    requires i < a.Length && j < a.Length
    modifies a
    ensures a[i] == old(a[j]) && a[j] == old(a[i])
    ensures forall k :: 0 <= k < a.Length && k != i && k != j ==> a[k] == old(a[k])
    ensures multiset(a[..]) == multiset(old(a[..]))
  {
    SwapPermutes(a[..], i, j);
    a[i], a[j] := a[j], a[i];
    assert a[..] == old(a[..])[i := old(a[j])][j := old(a[i])];
  }

  /** Lomuto partition of `a[lo..hi]` around its last element, greater scores first. */
  method Partition(a: array<nat>, valid: seq<real>, lo: nat, hi: nat) returns (p: nat)
    requires lo < hi <= a.Length
    modifies a
    ensures lo <= p < hi
    ensures forall k :: 0 <= k < lo || hi <= k < a.Length ==> a[k] == old(a[k])
    ensures multiset(a[..]) == multiset(old(a[..]))
    ensures forall i :: lo <= i < p ==> At(valid, a[i]) >= At(valid, a[p])
    ensures forall i :: p < i < hi ==> At(valid, a[p]) >= At(valid, a[i])
  {
    var last := hi - 1;
    var pivot := At(valid, a[last]);
    p := lo;
    for i := lo to last
      invariant lo <= p <= i
      invariant multiset(a[..]) == multiset(old(a[..]))
      invariant forall k :: 0 <= k < lo || last <= k < a.Length ==> a[k] == old(a[k])
      invariant forall j :: lo <= j < p ==> At(valid, a[j]) >= pivot
      invariant forall j :: p <= j < i ==> At(valid, a[j]) < pivot
    {
      if At(valid, a[i]) >= pivot {
        Swap(a, p, i);
        p := p + 1;
      }
    }
    Swap(a, p, last);
  }

  lemma MiddlePermutes(s: seq<nat>, t: seq<nat>, lo: nat, hi: nat)
    requires |s| == |t| && lo <= hi <= |s| && multiset(s) == multiset(t)
    requires s[..lo] == t[..lo] && s[hi..] == t[hi..]
    ensures multiset(s[lo..hi]) == multiset(t[lo..hi])
  {
    SplitMultiset(s, lo, hi);
    SplitMultiset(t, lo, hi);
    assert multiset(s[lo..hi]) == multiset(s) - multiset(s[..lo]) - multiset(s[hi..]);
    assert multiset(t[lo..hi]) == multiset(t) - multiset(t[..lo]) - multiset(t[hi..]);
  }

  lemma AboveAfterPartition(valid: seq<real>, s: seq<nat>, t: seq<nat>, lo: nat, hi: nat)
    requires |s| == |t| && lo <= hi <= |s| && multiset(s) == multiset(t)
    requires s[..lo] == t[..lo] && s[hi..] == t[hi..]
    requires Above(valid, s[..lo], s[lo..]) && Above(valid, s[..hi], s[hi..])
    ensures Above(valid, t[..lo], t[lo..]) && Above(valid, t[..hi], t[hi..])
  {
    MiddlePermutes(s, t, lo, hi);
    assert s == s[..lo] + s[lo..hi] + s[hi..] && t == t[..lo] + t[lo..hi] + t[hi..];
    assert s[lo..] == s[lo..hi] + s[hi..] && t[lo..] == t[lo..hi] + t[hi..];
    assert s[..hi] == s[..lo] + s[lo..hi] && t[..hi] == t[..lo] + t[lo..hi];
    MultisetMembers(s[lo..hi], t[lo..hi]);
  }

  lemma AboveAtPivot(valid: seq<real>, s: seq<nat>, lo: nat, p: nat, hi: nat)
    requires lo <= p < hi <= |s|
    requires forall i :: lo <= i < p ==> At(valid, s[i]) >= At(valid, s[p])
    requires forall i :: p < i < hi ==> At(valid, s[p]) >= At(valid, s[i])
    requires Above(valid, s[..lo], s[lo..]) && Above(valid, s[..hi], s[hi..])
    ensures Above(valid, s[..p], s[p..]) && Above(valid, s[..p + 1], s[p + 1..])
  {
    forall x, y | x in s[..p + 1] && y in s[p..]
      ensures At(valid, x) >= At(valid, y)
    {
      var i :| 0 <= i <= p && s[i] == x;
      var j :| p <= j < |s| && s[j] == y;
      if i < lo {
        assert s[..lo][i] == x && s[lo..][j - lo] == y;
      } else if j >= hi {
        assert s[..hi][i] == x && s[hi..][j - hi] == y;
      }
    }
    forall x | x in s[..p] ensures x in s[..p + 1] { assert s[..p + 1] == s[..p] + [s[p]]; }
    forall y | y in s[p + 1..] ensures y in s[p..] { assert s[p..] == [s[p]] + s[p + 1..]; }
  }

  /** After the call the first `m` positions score at least as much as all the others. */
  method Select(a: array<nat>, valid: seq<real>, m: nat)
    requires m <= a.Length
    modifies a
    ensures multiset(a[..]) == multiset(old(a[..]))
    ensures Above(valid, a[..m], a[m..])
  {
    var lo, hi := 0, a.Length;
    while lo < m < hi
      invariant lo <= m <= hi <= a.Length
      invariant multiset(a[..]) == multiset(old(a[..]))
      invariant Above(valid, a[..lo], a[lo..]) && Above(valid, a[..hi], a[hi..])
      decreases hi - lo
    {
      ghost var before := a[..];
      var p := Partition(a, valid, lo, hi);
      AboveAfterPartition(valid, before, a[..], lo, hi);
      AboveAtPivot(valid, a[..], lo, p, hi);
      if p < m {
        lo := p + 1;
      } else {
        hi := p;
      }
    }
  }

  /** Insertion sort of `a[..m]`, greatest score first. */
  method SortFront(a: array<nat>, valid: seq<real>, m: nat)
    requires m <= a.Length
    modifies a
    ensures multiset(a[..]) == multiset(old(a[..])) && a[m..] == old(a[m..])
    ensures Descending(valid, a[..m])
  {
    for i := 0 to m
      invariant multiset(a[..]) == multiset(old(a[..])) && (forall k :: m <= k < a.Length ==> a[k] == old(a[k]))
      invariant Descending(valid, a[..i])
    {
      var j := i;
      while j > 0 && At(valid, a[j - 1]) < At(valid, a[j])
        invariant 0 <= j <= i
        invariant multiset(a[..]) == multiset(old(a[..])) && (forall k :: m <= k < a.Length ==> a[k] == old(a[k]))
        invariant forall p, q :: 0 <= p < q <= i && q != j ==> At(valid, a[p]) >= At(valid, a[q])
      {
        Swap(a, j - 1, j);
        j := j - 1;
      }
    }
  }
}
