/** Rating tables, shared by cleaning, the holdout and the popularity ranking. */
module Ratings {
  import opened Sorting

  datatype Rating = Rating(user: int, item: int, rating: real, timestamp: int)

  predicate SamePair(a: Rating, b: Rating) {
    a.user == b.user && a.item == b.item
  }

  /** At most one row per user and item. */
  ghost predicate DistinctPairs(s: seq<Rating>) {
    forall i, j :: 0 <= i < j < |s| ==> !SamePair(s[i], s[j])
  }

  function Count(s: seq<Rating>, user: int): (n: nat)
    ensures n <= |s|
  {
    if s == [] then 0 else Count(s[..|s| - 1], user) + if s[|s| - 1].user == user then 1 else 0
  }

  ghost function RowsOf(s: seq<Rating>, user: int): (rows: set<nat>)
    ensures s == [] ==> rows == {}
  {
    set i: nat | i < |s| && s[i].user == user
  }

  /** The count is the number of rows of the user. */
  lemma {:induction false} CountExactly(s: seq<Rating>, user: int)
    ensures Count(s, user) == |RowsOf(s, user)|
  {
    if s != [] {
      var n := |s| - 1;
      CountExactly(s[..n], user);
      assert RowsOf(s, user) == RowsOf(s[..n], user) + if s[n].user == user then {n} else {};
    }
  }

  lemma {:induction false} CountJoin(s: seq<Rating>, t: seq<Rating>, user: int)
    ensures Count(s + t, user) == Count(s, user) + Count(t, user)
  {
    if t == [] {
      assert s + t == s;
    } else {
      assert (s + t)[..|s + t| - 1] == s + t[..|t| - 1];
      CountJoin(s, t[..|t| - 1], user);
    }
  }

  lemma CountWithoutAt(t: seq<Rating>, i: nat, user: int)
    requires i < |t|
    ensures Count(t, user) == Count(Without(t, i), user) + if t[i].user == user then 1 else 0
  {
    assert t == t[..i + 1] + t[i + 1..] && t[..i + 1][..i] == t[..i];
    CountJoin(t[..i + 1], t[i + 1..], user);
    CountJoin(t[..i], t[i + 1..], user);
  }

  lemma {:induction false} CountOfMultiset(s: seq<Rating>, t: seq<Rating>, user: int)
    requires multiset(s) == multiset(t)
    ensures Count(s, user) == Count(t, user)
  {
    if s == [] {
      MultisetMembers(s, t);
    } else {
      var i := Peel(s, 0, t);
      CountOfMultiset(Without(s, 0), Without(t, i), user);
      CountWithoutAt(s, 0, user);
      CountWithoutAt(t, i, user);
    }
  }
}
