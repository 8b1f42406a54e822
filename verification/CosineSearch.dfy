/** Cosine ranking. */
module CosineSearch {
  // Similarity search against the stored map: cosine ranking under any length function.

  import opened Arithmetic
  import opened Selection
  import opened TopK
  import opened Embeddings

  /** What the Euclidean length satisfies; nothing else about square roots is used. */
  ghost predicate Length(norm: Vector -> real) {
    forall v: Vector :: norm(v) >= 0.0 && norm(v) * norm(v) == Dot(v, v)
  }

  lemma RowOfPosition(s: Store, i: nat)
    requires s.WellFormed() && DistinctIds(s.itemIds) && i < |s.matrix|
    ensures s.itemIds[i] in Rows(s) && Rows(s)[s.itemIds[i]] == s.matrix[i]
  {
    IndexInverts(s.itemIds, i);
  }

  lemma PositionOfRow(s: Store, x: int) returns (i: nat)
    requires s.WellFormed() && x in Rows(s)
    ensures i < |s.matrix| && s.itemIds[i] == x && Rows(s)[x] == s.matrix[i]
  {
    i := Index(s.itemIds)[x];
  }

  /** `r` ranks items of the map by cosine: no item twice, greatest first, nothing left out is greater. */
  ghost predicate Ranks(norm: Vector -> real, rows: map<int, Vector>, query: Vector, r: seq<Neighbour>) {
    && (forall x :: x in rows ==> |rows[x]| == |query|)
    && (forall i :: 0 <= i < |r| ==> r[i].item in rows && r[i].score == Cosine(norm, rows[r[i].item], query))
    && (forall i, j :: 0 <= i < j < |r| ==> r[i].item != r[j].item && r[i].score >= r[j].score)
    && (forall x, i :: x in rows && 0 <= i < |r| && (forall n :: n in r ==> n.item != x) ==>
          Cosine(norm, rows[x], query) <= r[i].score)
  }

  lemma OmittedItemIsNoBetter(norm: Vector -> real, s: Store, query: Vector, k: int, at: seq<nat>, x: int, i: nat)
    requires s.WellFormed() && DistinctIds(s.itemIds) && |query| == s.width
    requires Best(Scores(norm, s, query), Positions(|s.matrix|), k, at)
    requires forall j :: 0 <= j < |at| ==> at[j] < |s.matrix| && s.itemIds[at[j]] != x
    requires x in Rows(s) && i < |at|
    ensures |Rows(s)[x]| == s.width && Cosine(norm, Rows(s)[x], query) <= Scores(norm, s, query)[at[i]]
  {
    var p := PositionOfRow(s, x);
    assert p !in at;
    assert at[i] in at && p in Positions(|s.matrix|);
    assert At(Scores(norm, s, query), at[i]) >= At(Scores(norm, s, query), p);
  }

  lemma NeighboursDescend(norm: Vector -> real, s: Store, query: Vector, k: int, at: seq<nat>)
    requires s.WellFormed() && DistinctIds(s.itemIds) && |query| == s.width
    requires Best(Scores(norm, s, query), Positions(|s.matrix|), k, at)
    requires forall i :: 0 <= i < |at| ==> at[i] < |s.matrix|
    ensures var r := Neighbours(norm, s, query, at);
      forall i, j :: 0 <= i < j < |r| ==> r[i].item != r[j].item && r[i].score >= r[j].score
  {
    var r, scores := Neighbours(norm, s, query, at), Scores(norm, s, query);
    forall i, j | 0 <= i < j < |r| ensures r[i].item != r[j].item && r[i].score >= r[j].score {
      assert At(scores, at[i]) >= At(scores, at[j]);
      assert at[i] != at[j];
    }
  }

  /**
   * The answer ranks the whole map: every entry is an item of the map with the cosine of its
   * vector, no item twice, `min(k, count)` of them, and no item left out has a greater cosine.
   */
  lemma SearchRanksTheMap(norm: Vector -> real, s: Store, query: Vector, k: int, at: seq<nat>)
    requires s.WellFormed() && DistinctIds(s.itemIds) && |query| == s.width
    requires Best(Scores(norm, s, query), Positions(|s.matrix|), k, at)
    ensures forall i :: 0 <= i < |at| ==> at[i] < |s.matrix|
    ensures |at| == TopK.Size(k, |s.itemIds|)
    ensures Ranks(norm, Rows(s), query, Neighbours(norm, s, query, at))
  {
    forall i | 0 <= i < |at| ensures at[i] < |s.matrix| { assert at[i] in at; }
    var r, rows := Neighbours(norm, s, query, at), Rows(s);
    forall x | x in rows ensures |rows[x]| == |query| { var i := PositionOfRow(s, x); }
    forall i | 0 <= i < |r| ensures r[i].item in rows && r[i].score == Cosine(norm, rows[r[i].item], query) {
      RowOfPosition(s, at[i]);
    }
    NeighboursDescend(norm, s, query, k, at);
    forall x, i | x in rows && 0 <= i < |r| && (forall n :: n in r ==> n.item != x)
      ensures Cosine(norm, rows[x], query) <= r[i].score
    {
      forall j | 0 <= j < |at| ensures s.itemIds[at[j]] != x { assert r[j] in r; }
      OmittedItemIsNoBetter(norm, s, query, k, at, x, i);
    }
  }

  // ---------------------------------------------------------------- the geometry

  function Minus(u: Vector, v: Vector): (r: Vector)
    requires |u| == |v|
    ensures |r| == |u|
  {
    seq(|u|, i requires 0 <= i < |u| => u[i] - v[i])
  }

  lemma {:induction false} DotOfZero(u: Vector, v: Vector)
    requires |u| == |v| && forall i :: 0 <= i < |u| ==> u[i] == 0.0
    ensures Dot(u, v) == 0.0
  {
    if u != [] {
      DotOfZero(u[1..], v[1..]);
    }
  }

  /** Every coordinate counts, each with its own product; with `DotOfZero` this fixes the value. */
  lemma {:induction false} EveryCoordinateCounts(u: Vector, v: Vector, i: nat, x: real)
    requires i < |u| == |v|
    ensures Dot(u[i := x], v) == Dot(u, v) + (x - u[i]) * v[i]
  {
    var w := u[i := x];
    if i == 0 {
      assert w[1..] == u[1..];
      assert x * v[0] == u[0] * v[0] + (x - u[0]) * v[0];
    } else {
      EveryCoordinateCounts(u[1..], v[1..], i - 1, x);
      assert w[1..] == u[1..][i - 1 := x];
    }
  }

  lemma {:induction false} DotCommutes(u: Vector, v: Vector)
    requires |u| == |v|
    ensures Dot(u, v) == Dot(v, u)
  {
    if u != [] {
      DotCommutes(u[1..], v[1..]);
    }
  }

  lemma {:induction false} DotOfSelf(v: Vector)
    ensures Dot(v, v) >= 0.0
  {
    if v != [] {
      DotOfSelf(v[1..]);
    }
  }

  lemma {:induction false} DotOfMinus(u: Vector, v: Vector)
    requires |u| == |v|
    ensures Dot(Minus(u, v), Minus(u, v)) == Dot(u, u) - 2.0 * Dot(u, v) + Dot(v, v)
  {
    if u != [] {
      DotOfMinus(u[1..], v[1..]);
      assert Minus(u, v)[1..] == Minus(u[1..], v[1..]);
      assert (u[0] - v[0]) * (u[0] - v[0]) == u[0] * u[0] - 2.0 * (u[0] * v[0]) + v[0] * v[0];
    }
  }

  lemma {:induction false} DotOfScaled(v: Vector, n: real, m: real)
    requires n != 0.0 && m == n * n && m != 0.0
    ensures Dot(Scaled(v, n), Scaled(v, n)) == Dot(v, v) / m
  {
    if v != [] {
      DotOfScaled(v[1..], n, m);
      assert Scaled(v, n)[1..] == Scaled(v[1..], n);
      SquareOfQuotient(v[0], n, m);
    } else {
      assert Scaled(v, n) == [];
    }
  }

  lemma SquareOfQuotient(x: real, n: real, m: real)
    requires n != 0.0 && m == n * n && m != 0.0
    ensures (x / n) * (x / n) == (x * x) / m
  {
    var q := x / n;
    assert q * n == x;
    assert (q * q) * (n * n) == (q * n) * (q * n);
    Divide(q * q, m, x * x);
  }

  lemma Divide(q: real, m: real, p: real)
    requires m != 0.0 && q * m == p
    ensures q == p / m
  {
  }

  lemma SelfQuotient(m: real)
    requires m != 0.0
    ensures m / m == 1.0
  {
  }

  lemma UnitHasLengthAtMostOne(norm: Vector -> real, v: Vector)
    requires Length(norm)
    ensures Dot(Unit(norm, v), Unit(norm, v)) == if norm(v) == 0.0 then 0.0 else 1.0
  {
    assert norm(v) >= 0.0 && norm(v) * norm(v) == Dot(v, v);
    if norm(v) != 0.0 {
      ProductIsPositive(norm(v), norm(v), Dot(v, v));
      SelfQuotient(Dot(v, v));
      DotOfScaled(v, norm(v), Dot(v, v));
    }
  }

  /** No cosine exceeds 1, and a vector that is not zero has cosine 1 with itself. */
  lemma CosineAtMostOne(norm: Vector -> real, u: Vector, v: Vector)
    requires Length(norm) && |u| == |v|
    ensures Cosine(norm, u, v) <= 1.0
    ensures norm(v) != 0.0 ==> Cosine(norm, v, v) == 1.0
  {
    var a, b := Unit(norm, u), Unit(norm, v);
    UnitHasLengthAtMostOne(norm, u);
    UnitHasLengthAtMostOne(norm, v);
    DotOfMinus(a, b);
    DotOfSelf(Minus(a, b));
  }

  /** Searching with the stored vector of an item, when it is not zero, puts score 1 first. */
  lemma OwnVectorScoresFirst(norm: Vector -> real, s: Store, item: int, k: int, at: seq<nat>)
    requires Length(norm) && s.WellFormed() && DistinctIds(s.itemIds) && k > 0
    requires item in Rows(s) && norm(Rows(s)[item]) != 0.0 && |Rows(s)[item]| == s.width
    requires Best(Scores(norm, s, Rows(s)[item]), Positions(|s.matrix|), k, at)
    ensures |at| > 0 && at[0] < |s.matrix|
    ensures Neighbours(norm, s, Rows(s)[item], at[..1])[0].score == 1.0
  {
    var query := Rows(s)[item];
    var scores, p := Scores(norm, s, query), Index(s.itemIds)[item];
    assert p in Positions(|s.matrix|);
    assert at[0] in at;
    CosineAtMostOne(norm, s.matrix[at[0]], query);
    CosineAtMostOne(norm, query, query);
    assert s.matrix[p] == query;
    if p in at {
      var i :| 0 <= i < |at| && at[i] == p;
      assert At(scores, at[0]) >= At(scores, at[i]);
    }
    assert At(scores, at[0]) >= At(scores, p);
  }

  // ---------------------------------------------------------------- magnitude

  lemma EqualSquares(a: real, b: real)
    requires a >= 0.0 && b >= 0.0 && a * a == b * b
    ensures a == b
  {
    assert (a - b) * (a + b) == 0.0;
    if a + b > 0.0 {
      assert a - b == 0.0;
    }
  }

  lemma {:induction false} DotOfMultiple(v: Vector, w: Vector, c: real)
    requires |w| == |v| && forall i :: 0 <= i < |v| ==> w[i] == c * v[i]
    ensures Dot(w, w) == (c * c) * Dot(v, v)
  {
    if v != [] {
      DotOfMultiple(v[1..], w[1..], c);
      assert w[0] * w[0] == (c * c) * (v[0] * v[0]);
    }
  }

  /** The magnitude of the query does not matter: a positive multiple gives the same scores. */
  lemma MagnitudeIsIgnored(norm: Vector -> real, s: Store, query: Vector, multiple: Vector, c: real)
    requires Length(norm) && s.WellFormed() && |query| == s.width == |multiple| && c > 0.0
    requires norm(query) != 0.0 && forall i :: 0 <= i < |query| ==> multiple[i] == c * query[i]
    ensures Scores(norm, s, multiple) == Scores(norm, s, query)
  {
    var n := norm(query);
    assert norm(multiple) == c * n by { LengthOfMultiple(norm, query, multiple, c); }
    ProductIsPositive(c, n, c * n);
    QuotientsOfMultiples(query, multiple, n, c);
    assert Unit(norm, multiple) == Unit(norm, query);
  }

  lemma LengthOfMultiple(norm: Vector -> real, query: Vector, multiple: Vector, c: real)
    requires Length(norm) && |multiple| == |query| && c > 0.0
    requires forall i :: 0 <= i < |query| ==> multiple[i] == c * query[i]
    ensures norm(multiple) == c * norm(query)
  {
    var n := norm(query);
    DotOfMultiple(query, multiple, c);
    SquareOfProduct(c, n);
    EqualSquares(norm(multiple), c * n);
  }

  lemma SquareOfProduct(c: real, n: real)
    requires c > 0.0 && n >= 0.0
    ensures c * n >= 0.0 && (c * n) * (c * n) == (c * c) * (n * n)
  {
  }

  lemma QuotientsOfMultiples(query: Vector, multiple: Vector, n: real, c: real)
    requires |multiple| == |query| && n != 0.0 && c > 0.0 && c * n != 0.0
    requires forall i :: 0 <= i < |query| ==> multiple[i] == c * query[i]
    ensures forall i :: 0 <= i < |query| ==> multiple[i] / (c * n) == query[i] / n
  {
    forall i | 0 <= i < |query| ensures multiple[i] / (c * n) == query[i] / n {
      QuotientOfMultiples(query[i], n, c);
    }
  }

  lemma QuotientOfMultiples(x: real, n: real, c: real)
    requires n != 0.0 && c > 0.0
    ensures c * n != 0.0 && (c * x) / (c * n) == x / n
  {
    var q := x / n;
    assert q * n == x;
    assert q * (c * n) == c * x;
  }

  // ---------------------------------------------------------------- what a score is

  lemma ProductOfQuotients(x: real, y: real, a: real, b: real, m: real)
    requires a != 0.0 && b != 0.0 && m == a * b
    ensures (x / a) * (y / b) * m == x * y
  {
    var p, q := x / a, y / b;
    assert p * a == x && q * b == y;
    assert (p * q) * (a * b) == (p * a) * (q * b);
  }

  lemma Distribute(p: real, rest: real, m: real)
    ensures (p + rest) * m == p * m + rest * m
  {
  }

  lemma {:induction false} DotOfQuotients(u: Vector, v: Vector, a: real, b: real, m: real)
    requires |u| == |v| && a != 0.0 && b != 0.0 && m == a * b
    ensures Dot(Scaled(u, a), Scaled(v, b)) * m == Dot(u, v)
  {
    if u != [] {
      DotOfQuotients(u[1..], v[1..], a, b, m);
      assert Scaled(u, a)[1..] == Scaled(u[1..], a) && Scaled(v, b)[1..] == Scaled(v[1..], b);
      ProductOfQuotients(u[0], v[0], a, b, m);
      Distribute((u[0] / a) * (v[0] / b), Dot(Scaled(u[1..], a), Scaled(v[1..], b)), m);
    }
  }

  /** The score of two vectors that are not zero is their dot product over the product of their lengths. */
  lemma CosineIsTheQuotient(norm: Vector -> real, u: Vector, v: Vector, a: real, b: real, m: real)
    requires |u| == |v| && a == norm(u) && b == norm(v) && a != 0.0 && b != 0.0 && m == a * b
    ensures Cosine(norm, u, v) * m == Dot(u, v)
  {
    DotOfQuotients(u, v, a, b, m);
  }

  function Axis(n: nat, i: nat): (v: Vector)
    ensures |v| == n
  {
    seq(n, j => if j == i then 1.0 else 0.0)
  }

  lemma {:induction false} DotWithAxis(v: Vector, i: nat)
    requires i < |v|
    ensures Dot(v, Axis(|v|, i)) == v[i]
  {
    var rest := Axis(|v|, i)[1..];
    if i == 0 {
      DotOfZero(rest, v[1..]);
      DotCommutes(rest, v[1..]);
    } else {
      assert rest == Axis(|v| - 1, i - 1);
      DotWithAxis(v[1..], i - 1);
    }
  }

  lemma AxisHasLengthOne(norm: Vector -> real, n: nat, i: nat)
    requires Length(norm) && i < n
    ensures norm(Axis(n, i)) == 1.0 && Unit(norm, Axis(n, i)) == Axis(n, i)
  {
    DotWithAxis(Axis(n, i), i);
    EqualSquares(norm(Axis(n, i)), 1.0);
  }

  /** The rows are the axes: item `itemIds[i]` has 1 at `i` and 0 elsewhere. */
  ghost predicate AxisRows(s: Store) {
    |s.matrix| == s.width && forall i :: 0 <= i < |s.matrix| ==> s.matrix[i] == Axis(s.width, i)
  }

  /** Over such rows, searching for axis `i` puts its own item first with score 1, and all others score 0. */
  lemma AxisFindsItself(norm: Vector -> real, s: Store, i: nat, k: int, at: seq<nat>)
    requires Length(norm) && s.WellFormed() && AxisRows(s) && i < s.width && k > 0
    requires Best(Scores(norm, s, Axis(s.width, i)), Positions(|s.matrix|), k, at)
    ensures forall j :: 0 <= j < |at| ==> at[j] < |s.matrix|
    ensures |at| > 0
    ensures var r := Neighbours(norm, s, Axis(s.width, i), at);
            && r[0] == Neighbour(s.itemIds[i], 1.0)
            && forall j :: 0 < j < |r| ==> r[j].score == 0.0
  {
    var scores := Scores(norm, s, Axis(s.width, i));
    forall j | 0 <= j < |s.matrix| ensures scores[j] == if j == i then 1.0 else 0.0 {
      AxisHasLengthOne(norm, s.width, i);
      AxisHasLengthOne(norm, s.width, j);
      DotWithAxis(Axis(s.width, j), i);
    }
    FirstIsTheOne(scores, i, k, at);
  }

  lemma FirstIsTheOne(scores: seq<real>, i: nat, k: int, at: seq<nat>)
    requires i < |scores| && k > 0 && forall j :: 0 <= j < |scores| ==> scores[j] == if j == i then 1.0 else 0.0
    requires Best(scores, Positions(|scores|), k, at)
    ensures |at| > 0 && at[0] == i && forall j :: 0 < j < |at| ==> at[j] < |scores| && scores[at[j]] == 0.0
    ensures forall j :: 0 <= j < |at| ==> at[j] < |scores|
  {
    forall j | 0 <= j < |at| ensures at[j] < |scores| { assert at[j] in at; }
    if i in at {
      var p :| 0 <= p < |at| && at[p] == i;
      assert At(scores, at[0]) >= At(scores, at[p]);
    } else {
      OmittedIsNoGreater(scores, k, at, i);
    }
  }

  lemma OmittedIsNoGreater(scores: seq<real>, k: int, at: seq<nat>, i: nat)
    requires i < |scores| && k > 0 && i !in at && Best(scores, Positions(|scores|), k, at)
    ensures |at| > 0 && at[0] < |scores| && at[0] != i && scores[i] <= scores[at[0]]
  {
    assert at[0] in at && i in Positions(|scores|);
    assert At(scores, at[0]) >= At(scores, i);
  }
}
