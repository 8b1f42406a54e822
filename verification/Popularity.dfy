/** The popularity strategy: pick a ranking, mask the seen items, take the best. */
module Popularity {
  import opened Wrappers
  import opened Selection
  import opened TopK
  import opened Rankings

  datatype RankedItems = RankedItems(itemIds: seq<int>, scores: array<Score>)

  function Masked(itemIds: seq<int>, scores: seq<Score>, seen: set<int>): (r: seq<Score>)
    requires |itemIds| == |scores|
    ensures |r| == |scores|
  {
    seq(|scores|, i requires 0 <= i < |scores| => if itemIds[i] in seen then MinusInfinity else scores[i])
  }

  /** Positions of a finite score whose item the user has not seen. */
  ghost function UnseenPositions(itemIds: seq<int>, scores: seq<Score>, seen: set<int>): set<nat>
    requires |itemIds| == |scores|
  {
    set x: nat | x < |scores| && scores[x].Finite? && itemIds[x] !in seen
  }

  /** The best of the masked scores are the best unseen of the scores as they were. */
  lemma MaskingSelectsTheUnseen(itemIds: seq<int>, scores: seq<Score>, seen: set<int>, k: int, at: seq<nat>)
    requires |itemIds| == |scores|
    ensures Best(Reals(Masked(itemIds, scores, seen)), FinitePositions(Masked(itemIds, scores, seen)), k, at)
       <==> Best(Reals(scores), UnseenPositions(itemIds, scores, seen), k, at)
  {
    var masked, unseen := Masked(itemIds, scores, seen), UnseenPositions(itemIds, scores, seen);
    assert FinitePositions(masked) == unseen;
    assert forall x :: x in unseen ==> At(Reals(masked), x) == At(Reals(scores), x);
    if forall x :: x in at ==> x in unseen {
      assert forall i :: 0 <= i < |at| ==> at[i] in unseen;
    }
  }

  lemma MaskedEntries(itemIds: seq<int>, scores: seq<Score>, seen: set<int>, at: seq<nat>)
    requires |itemIds| == |scores| && forall x :: x in at ==> x in UnseenPositions(itemIds, scores, seen)
    ensures forall x :: x in at ==> x in FinitePositions(Masked(itemIds, scores, seen)) && x in FinitePositions(scores)
    ensures Entries(itemIds, Masked(itemIds, scores, seen), at) == Entries(itemIds, scores, at)
    ensures forall e :: e in Entries(itemIds, scores, at) ==> e.itemId !in seen && e.itemId in itemIds
  {
    forall i | 0 <= i < |at| ensures at[i] in UnseenPositions(itemIds, scores, seen) { assert at[i] in at; }
  }

  class PopularityStrategy {
    const itemIds: seq<int>
    const scores: array<Score>
    const categoryRankings: map<string, RankedItems>

    ghost predicate Valid() {
      && |itemIds| == scores.Length
      && forall c :: c in categoryRankings ==> |categoryRankings[c].itemIds| == categoryRankings[c].scores.Length
    }

    constructor (itemIds: seq<int>, scores: array<Score>, categoryRankings: map<string, RankedItems>)
      requires |itemIds| == scores.Length
      requires forall c :: c in categoryRankings ==> |categoryRankings[c].itemIds| == categoryRankings[c].scores.Length
      ensures Valid()
      ensures this.itemIds == itemIds && this.scores == scores && this.categoryRankings == categoryRankings
    {
      this.itemIds, this.scores, this.categoryRankings := itemIds, scores, categoryRankings;
    }

    /** The category ranking when there is one; an empty category name counts as none. */
    function SelectRanking(category: Option<string>): (r: RankedItems)
      requires Valid()
      ensures |r.itemIds| == r.scores.Length
      ensures category == None || category == Some("") ==> r == RankedItems(itemIds, scores)
      ensures category.Some? && category.value !in categoryRankings ==> r == RankedItems(itemIds, scores)
      ensures category.Some? && category.value != "" && category.value in categoryRankings ==>
                r == categoryRankings[category.value]
    {
      if category.Some? && category.value != "" && category.value in categoryRankings
      then categoryRankings[category.value]
      else RankedItems(itemIds, scores)
    }

    /** The input array itself when nothing was seen, otherwise a copy; the input is not written. */
    static method MaskSeen(itemIds: seq<int>, scores: array<Score>, seenItems: seq<int>) returns (masked: array<Score>)
      requires |itemIds| == scores.Length
      ensures masked[..] == Masked(itemIds, scores[..], set x | x in seenItems)
      ensures masked == scores <==> seenItems == []
      ensures scores[..] == old(scores[..])
    {
      if seenItems == [] {
        assert scores[..] == Masked(itemIds, scores[..], {});
        return scores;
      }
      var seen := set x | x in seenItems;
      masked := new Score[scores.Length](i requires 0 <= i < scores.Length reads scores => scores[i]);
      for i := 0 to scores.Length
        invariant fresh(masked) && masked.Length == scores.Length
        invariant forall j :: 0 <= j < i ==> masked[j] == Masked(itemIds, scores[..], seen)[j]
        invariant forall j :: i <= j < scores.Length ==> masked[j] == scores[j]
      {
        if itemIds[i] in seen {
          masked[i] := MinusInfinity;
        }
      }
    }

    /**
     * Fails only when the selected ranking is empty. Otherwise `at` are the `k` best
     * finite positions of unseen items, or all of them when fewer remain, and the answer
     * is their items with the scores of the ranking.
     */
    method Predict(seenItems: seq<int>, category: Option<string>, k: int)
      returns (r: Result<Ranking, Error>, ghost at: seq<nat>)
      requires Valid()
      ensures var ranking := SelectRanking(category);
        var unseen := UnseenPositions(ranking.itemIds, ranking.scores[..], set x | x in seenItems);
        if ranking.itemIds == [] then r == Err(ModelUnavailable)
        else
          && Best(Reals(ranking.scores[..]), unseen, k, at)
          && r == Ok(Entries(ranking.itemIds, ranking.scores[..], at))
      ensures (category.None? || category.value == "" || category.value !in categoryRankings) && r.Ok? ==>
                forall e :: e in r.value ==> e.itemId in itemIds
      ensures category.Some? && category.value != "" && category.value in categoryRankings && r.Ok? ==>
                forall e :: e in r.value ==> e.itemId in categoryRankings[category.value].itemIds
      ensures r.Ok? <==> SelectRanking(category).itemIds != []
      ensures r.Ok? ==>
                forall e :: e in r.value ==> e.itemId !in seenItems && e.itemId in SelectRanking(category).itemIds
    {
      var ranking := SelectRanking(category);
      if |ranking.itemIds| == 0 {
        at := [];
        return Err(ModelUnavailable), [];
      }
      ghost var before := ranking.scores[..];
      ghost var seen := set x | x in seenItems;
      var masked := MaskSeen(ranking.itemIds, ranking.scores, seenItems);
      var top;
      top, at := TopK.TopK(masked[..], ranking.itemIds, k);
      MaskingSelectsTheUnseen(ranking.itemIds, before, seen, k, at);
      MaskedEntries(ranking.itemIds, before, seen, at);
      r := Ok(top);
    }
  }
}
