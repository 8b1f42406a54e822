/** The embedding store: its arrays and position index, and when they act as a plain map. */
module Embeddings {
  import opened Wrappers
  import opened TopK

  type Vector = seq<real>

  datatype Failure = DimensionMismatch | CannotBroadcast

  /** The identifiers and the matrix; its width is kept even when it has no row. */
  datatype Store = Store(itemIds: seq<int>, matrix: seq<Vector>, width: nat) {
    ghost predicate WellFormed() {
      |itemIds| == |matrix| && forall i :: 0 <= i < |matrix| ==> |matrix[i]| == width
    }

    /** Entries of the matrix: no row, or rows of width 0, have none. */
    function Size(): nat {
      |matrix| * width
    }
  }

  const EMPTY := Store([], [], 0)

  /** Position of the last row of each identifier. */
  function Index(ids: seq<int>): (m: map<int, nat>)
    ensures forall x :: x in m <==> x in ids
    ensures forall x :: x in m ==> m[x] < |ids| && ids[m[x]] == x
  {
    if ids == [] then map[]
    else
      var n := |ids| - 1;
      assert ids == ids[..n] + [ids[n]];
      Index(ids[..n])[ids[n] := n]
  }

  /** No later row has the identifier of the indexed one. */
  lemma {:induction false} IndexFindsLast(ids: seq<int>, x: int, j: nat)
    requires x in Index(ids) && Index(ids)[x] < j < |ids|
    ensures ids[j] != x
  {
    if j < |ids| - 1 {
      IndexFindsLast(ids[..|ids| - 1], x, j);
    }
  }

  ghost function Look(m: map<int, nat>, matrix: seq<Vector>): map<int, Vector>
    requires forall x :: x in m ==> m[x] < |matrix|
  {
    map x | x in m :: matrix[m[x]]
  }

  /** The store read as a map. */
  ghost function Rows(s: Store): map<int, Vector>
    requires s.WellFormed()
  {
    Look(Index(s.itemIds), s.matrix)
  }

  /** Of rows that repeat an identifier, as a caller may pass to `replace_all`, the last one is the item's vector. */
  lemma LastRowWins(s: Store, i: nat)
    requires s.WellFormed() && i < |s.itemIds| && forall j :: i < j < |s.itemIds| ==> s.itemIds[j] != s.itemIds[i]
    ensures s.itemIds[i] in Rows(s) && Rows(s)[s.itemIds[i]] == s.matrix[i]
  {
    var x := s.itemIds[i];
    assert x in s.itemIds;
    if Index(s.itemIds)[x] < i {
      IndexFindsLast(s.itemIds, x, i);
    }
  }

  ghost predicate DistinctIds(ids: seq<int>) {
    forall i, j :: 0 <= i < j < |ids| ==> ids[i] != ids[j]
  }

  /**
   * One upsert. A row of width 0 takes a vector of length 1 by broadcasting and stays
   * empty; a new identifier in a store without entries replaces the store.
   */
  function Upserted(s: Store, item: int, v: Vector): (r: Result<Store, Failure>)
    requires s.WellFormed()
    ensures r.Ok? ==> r.value.WellFormed()
  {
    if s.Size() != 0 && |v| != s.width then Err(DimensionMismatch)
    else if item in Index(s.itemIds) then
      if |v| == s.width then Ok(s.(matrix := s.matrix[Index(s.itemIds)[item] := v]))
      else if |v| == 1 then Ok(s)
      else Err(CannotBroadcast)
    else if s.Size() != 0 then Ok(Store(s.itemIds + [item], s.matrix + [v], s.width))
    else Ok(Store([item], [v], |v|))
  }

  lemma SizeIsZero(s: Store)
    ensures s.Size() == 0 <==> s.matrix == [] || s.width == 0
  {
    if s.matrix != [] && s.width != 0 {
      assert |s.matrix| * s.width >= 1 * s.width;
    }
  }

  lemma RewriteUpdatesRows(s: Store, item: int, v: Vector)
    requires s.WellFormed() && item in s.itemIds && |v| == s.width
    ensures var t := s.(matrix := s.matrix[Index(s.itemIds)[item] := v]);
      t.WellFormed() && Rows(t) == Rows(s)[item := v]
  {
  }

  lemma AppendUpdatesRows(s: Store, item: int, v: Vector)
    requires s.WellFormed() && item !in s.itemIds && |v| == s.width
    ensures var t := Store(s.itemIds + [item], s.matrix + [v], s.width);
      t.WellFormed() && Rows(t) == Rows(s)[item := v]
  {
    IndexOfAppend(s.itemIds, item);
    LookAfterAppend(Index(s.itemIds), s.matrix, item, v);
  }

  lemma LookAfterAppend(m: map<int, nat>, matrix: seq<Vector>, item: int, v: Vector)
    requires forall x :: x in m ==> m[x] < |matrix|
    ensures Look(m[item := |matrix|], matrix + [v]) == Look(m, matrix)[item := v]
  {
    var left, right := Look(m[item := |matrix|], matrix + [v]), Look(m, matrix)[item := v];
    assert left.Keys == right.Keys;
    forall x | x in left ensures left[x] == right[x] {}
  }

  lemma IndexOfAppend(ids: seq<int>, item: int)
    ensures Index(ids + [item]) == Index(ids)[item := |ids|]
  {
    assert (ids + [item])[..|ids|] == ids;
  }

  lemma SingleRow(item: int, v: Vector)
    ensures Rows(Store([item], [v], |v|)) == map[item := v]
  {
    assert [item][..0] == [];
  }

  /**
   * An accepted upsert is a map update exactly when the store is empty or has width, or
   * when the vector is empty and rewrites an item already there.
   */
  lemma UpsertIsAMapUpdateExactly(s: Store, item: int, v: Vector)
    requires s.WellFormed() && Upserted(s, item, v).Ok?
    ensures Rows(Upserted(s, item, v).value) == Rows(s)[item := v]
       <==> s.itemIds == [] || s.width > 0 || (item in s.itemIds && v == [])
  {
    SizeIsZero(s);
    if item in s.itemIds {
      if |v| == s.width {
        RewriteUpdatesRows(s, item, v);
      } else {
        assert Rows(s)[item] == [];
      }
    } else if s.Size() != 0 {
      AppendUpdatesRows(s, item, v);
    } else {
      SingleRow(item, v);
      if s.itemIds != [] {
        assert s.itemIds[0] in Rows(s)[item := v] && s.itemIds[0] != item;
      }
    }
  }

  /** Refused is a vector of another width when there are entries, and a broadcast that numpy has no rule for. */
  lemma UpsertFailsExactly(s: Store, item: int, v: Vector)
    requires s.WellFormed()
    ensures Upserted(s, item, v) == Err(DimensionMismatch) <==> s.matrix != [] && s.width > 0 && |v| != s.width
    ensures Upserted(s, item, v) == Err(CannotBroadcast) <==> s.width == 0 && item in s.itemIds && |v| > 1
    ensures Upserted(s, item, v).Ok? && item in s.itemIds ==> Upserted(s, item, v).value.itemIds == s.itemIds
    ensures Upserted(s, item, v).Ok? && item !in s.itemIds ==>
              Upserted(s, item, v).value.itemIds == if s.width == 0 then [item] else s.itemIds + [item]
  {
    SizeIsZero(s);
  }

  lemma UpsertKeepsIdsDistinct(s: Store, item: int, v: Vector)
    requires s.WellFormed() && Upserted(s, item, v).Ok? && DistinctIds(s.itemIds)
    ensures DistinctIds(Upserted(s, item, v).value.itemIds)
  {
  }

  /** With distinct identifiers the index inverts the identifier array. */
  lemma IndexInverts(ids: seq<int>, i: nat)
    requires DistinctIds(ids) && i < |ids|
    ensures ids[i] in Index(ids) && Index(ids)[ids[i]] == i
  {
    assert ids[i] in ids;
  }

  // ---------------------------------------------------------------- whole runs

  datatype Write = Write(item: int, vector: Vector)

  /** The store after the writes; a rejected one leaves it as it was. */
  function Run(writes: seq<Write>): (s: Store)
    ensures s.WellFormed()
  {
    if writes == [] then EMPTY
    else
      var s, w := Run(writes[..|writes| - 1]), writes[|writes| - 1];
      match Upserted(s, w.item, w.vector)
      case Ok(t) => t
      case Err(_) => s
  }

  /** The last vector of the given width written for each item. */
  function LastWritten(writes: seq<Write>, width: nat): map<int, Vector> {
    if writes == [] then map[]
    else
      var m, w := LastWritten(writes[..|writes| - 1], width), writes[|writes| - 1];
      if |w.vector| == width then m[w.item := w.vector] else m
  }

  /** One more write on a non-empty store of width `first`. */
  lemma NextWrite(s: Store, w: Write, first: nat)
    requires s.WellFormed() && s.itemIds != [] && s.width == first > 0 && DistinctIds(s.itemIds)
    ensures var r := Upserted(s, w.item, w.vector);
      && (r.Ok? <==> |w.vector| == first)
      && (r.Ok? ==> r.value.width == first && r.value.itemIds != [] && DistinctIds(r.value.itemIds)
                    && Rows(r.value) == Rows(s)[w.item := w.vector])
  {
    SizeIsZero(s);
    if Upserted(s, w.item, w.vector).Ok? {
      UpsertKeepsIdsDistinct(s, w.item, w.vector);
      UpsertIsAMapUpdateExactly(s, w.item, w.vector);
    }
  }

  /** From empty, writes of non-empty vectors leave a map of the last vectors of the first width. */
  lemma RunIsAMap(writes: seq<Write>)
    requires forall w :: w in writes ==> w.vector != []
    ensures DistinctIds(Run(writes).itemIds)
    ensures var ids := Run(writes).itemIds;
      forall i :: 0 <= i < |ids| ==> ids[i] in Index(ids) && Index(ids)[ids[i]] == i
    ensures writes != [] ==> Run(writes).width == |writes[0].vector| && Run(writes).itemIds != []
    ensures Rows(Run(writes)) == LastWritten(writes, if writes == [] then 0 else |writes[0].vector|)
  {
    RunKeepsTheMap(writes);
    var ids := Run(writes).itemIds;
    forall i | 0 <= i < |ids| ensures ids[i] in Index(ids) && Index(ids)[ids[i]] == i {
      IndexInverts(ids, i);
    }
  }

  lemma {:induction false} RunKeepsTheMap(writes: seq<Write>)
    requires forall w :: w in writes ==> w.vector != []
    ensures DistinctIds(Run(writes).itemIds)
    ensures writes != [] ==> Run(writes).width == |writes[0].vector| && Run(writes).itemIds != []
    ensures Rows(Run(writes)) == LastWritten(writes, if writes == [] then 0 else |writes[0].vector|)
  {
    if writes != [] {
      var n := |writes| - 1;
      var w := writes[n];
      RunKeepsTheMap(writes[..n]);
      var first := |writes[0].vector|;
      if n == 0 {
        assert writes[..n] == [];
        SingleRow(w.item, w.vector);
      } else {
        assert writes[..n][0] == writes[0];
        NextWrite(Run(writes[..n]), w, first);
      }
    }
  }

  // ---------------------------------------------------------------- similarity search

  function Dot(u: Vector, v: Vector): real
    requires |u| == |v|
  {
    if u == [] then 0.0 else u[0] * v[0] + Dot(u[1..], v[1..])
  }

  function Scaled(v: Vector, c: real): (r: Vector)
    requires c != 0.0
    ensures |r| == |v|
  {
    seq(|v|, i requires 0 <= i < |v| => v[i] / c)
  }

  /** A vector over its length, or as it is when the length is 0. */
  function Unit(norm: Vector -> real, v: Vector): (r: Vector)
    ensures |r| == |v|
  {
    if norm(v) == 0.0 then v else Scaled(v, norm(v))
  }

  function Normalized(norm: Vector -> real, matrix: seq<Vector>): (r: seq<Vector>)
    ensures |r| == |matrix| && forall i :: 0 <= i < |r| ==> r[i] == Unit(norm, matrix[i])
  {
    seq(|matrix|, i requires 0 <= i < |matrix| => Unit(norm, matrix[i]))
  }

  function Cosine(norm: Vector -> real, u: Vector, v: Vector): real
    requires |u| == |v|
  {
    Dot(Unit(norm, u), Unit(norm, v))
  }

  function Scores(norm: Vector -> real, s: Store, query: Vector): (r: seq<real>)
    requires s.WellFormed() && |query| == s.width
    ensures |r| == |s.matrix|
  {
    seq(|s.matrix|, i requires 0 <= i < |s.matrix| => Cosine(norm, s.matrix[i], query))
  }

  datatype Neighbour = Neighbour(item: int, score: real)

  function Neighbours(norm: Vector -> real, s: Store, query: Vector, at: seq<nat>): seq<Neighbour>
    requires s.WellFormed() && |query| == s.width && forall i :: 0 <= i < |at| ==> at[i] < |s.matrix|
  {
    seq(|at|, i requires 0 <= i < |at| => Neighbour(s.itemIds[at[i]], Scores(norm, s, query)[at[i]]))
  }

  class VectorEmbeddingRepository {
    const norm: Vector -> real
    var itemIds: seq<int>
    var matrix: seq<Vector>
    var width: nat
    var normalized: seq<Vector>
    var position: map<int, nat>

    ghost function State(): Store
      reads this
    {
      Store(itemIds, matrix, width)
    }

    /** The derived arrays match the stored ones. */
    ghost predicate Valid()
      reads this
    {
      State().WellFormed() && position == Index(itemIds) && normalized == Normalized(norm, matrix)
    }

    constructor (norm: Vector -> real)
      ensures Valid() && State() == EMPTY && this.norm == norm
    {
      this.norm, itemIds, matrix, width, normalized, position := norm, [], [], 0, [], map[];
    }

    method Reindex()
      requires State().WellFormed()
      modifies this`position, this`normalized
      ensures Valid()
    {
      var built: map<int, nat> := map[];
      for i := 0 to |itemIds|
        invariant built == Index(itemIds[..i])
      {
        built := built[itemIds[i] := i];
        assert itemIds[..i + 1][..i] == itemIds[..i];
      }
      assert itemIds[..|itemIds|] == itemIds;
      position := built;
      normalized := Normalized(norm, matrix);
    }

    /** Replaces everything, whatever the earlier width. */
    method ReplaceAll(ids: seq<int>, rows: seq<Vector>, rowWidth: nat)
      requires Store(ids, rows, rowWidth).WellFormed()
      modifies this
      ensures Valid() && State() == Store(ids, rows, rowWidth)
    {
      itemIds, matrix, width := ids, rows, rowWidth;
      Reindex();
    }

    method GetEmbedding(item: int) returns (v: Option<Vector>)
      requires Valid()
      ensures v == if item in Rows(State()) then Some(Rows(State())[item]) else None
    {
      v := if item in position then Some(matrix[position[item]]) else None;
    }

    method UpsertEmbedding(item: int, candidate: Vector) returns (failure: Option<Failure>)
      requires Valid()
      modifies this
      ensures Valid()
      ensures match Upserted(old(State()), item, candidate)
        case Ok(s) => failure == None && State() == s
        case Err(e) => failure == Some(e) && State() == old(State())
    {
      if |matrix| * width != 0 && |candidate| != width {
        return Some(DimensionMismatch);
      }
      if item in position {
        if |candidate| == width {
          matrix := matrix[position[item] := candidate];
        } else if |candidate| != 1 {
          return Some(CannotBroadcast);
        }
      } else if |matrix| * width != 0 {
        itemIds := itemIds + [item];
        matrix := matrix + [candidate];
      } else {
        itemIds := [item];
        matrix := [candidate];
        width := |candidate|;
      }
      Reindex();
      failure := None;
    }

    /** The best rows of the whole matrix against the query, at most `k`. */
    method SimilaritySearch(vector: Vector, k: int) returns (r: Result<seq<Neighbour>, Failure>, ghost at: seq<nat>)
      requires Valid() && norm(vector) >= 0.0
      ensures if State().Size() == 0 || k <= 0 then r == Ok([])
        else if |vector| != width then r == Err(DimensionMismatch)
        else
          && Best(Scores(norm, State(), vector), Positions(|matrix|), k, at)
          && (forall i :: 0 <= i < |at| ==> at[i] < |matrix|)
          && r == Ok(Neighbours(norm, State(), vector, at))
      ensures r.Err? <==> State().Size() != 0 && k > 0 && |vector| != width
      ensures r.Ok? ==> |r.value| == if State().Size() == 0 then 0 else TopK.Size(k, |matrix|)
      ensures r.Ok? ==> forall n :: n in r.value ==> n.item in itemIds
    {
      at := [];
      if |matrix| * width == 0 || k <= 0 {
        return Ok([]), [];
      }
      if |vector| != width {
        return Err(DimensionMismatch), [];
      }
      var query := vector;
      if norm(vector) > 0.0 {
        query := Scaled(query, norm(vector));
      }
      var rows, ids := normalized, itemIds;
      var scores := seq(|rows|, i requires 0 <= i < |rows| && |rows[i]| == |query| => Dot(rows[i], query));
      assert scores == Scores(norm, State(), vector);
      var chosen := BestPositions(scores, TopK.Size(k, |scores|));
      forall i | 0 <= i < |chosen| ensures chosen[i] < |rows| { assert chosen[i] in chosen; }
      at := chosen;
      r := Ok(seq(|chosen|, i requires 0 <= i < |chosen| && chosen[i] < |ids| == |scores| =>
        Neighbour(ids[chosen[i]], scores[chosen[i]])));
      assert r.value == Neighbours(norm, State(), vector, at);
    }
  }
}
