/** Freshness and residency. */
module LruResidency {
  // Freshness and residency: what a hit returns, and how long a key is guaranteed to stay.

  import opened Arithmetic
  import opened Wrappers
  import opened LruCache

  /** Index of the latest `set` of a key, or -1. */
  ghost function LastSet<P>(ops: seq<Op<P>>, key: string): (i: int)
    ensures -1 <= i < |ops|
    ensures i >= 0 ==> ops[i].SetOp? && ops[i].key == key
  {
    if ops == [] then -1
    else if ops[|ops| - 1].SetOp? && ops[|ops| - 1].key == key then |ops| - 1
    else LastSet(ops[..|ops| - 1], key)
  }

  function Written<P>(op: Op<P>): Entry<P>
    requires op.SetOp?
  {
    Entry(op.now + op.ttl as real, op.payload)
  }

  /** Every entry is what the latest `set` of its key wrote. */
  ghost predicate Fresh<P>(c: Cache<P>, ops: seq<Op<P>>) {
    forall k :: k in Keys(c) ==> LastSet(ops, k) >= 0 && Find(c, k) == Some(Written(ops[LastSet(ops, k)]))
  }

  lemma {:induction false} FindAfterRemove<P>(c: Cache<P>, gone: string, key: string)
    ensures Find(Remove(c, gone), key) == if key == gone then None else Find(c, key)
  {
    if c != [] {
      FindAfterRemove(c[..|c| - 1], gone, key);
      FindSnoc(Remove(c[..|c| - 1], gone), c[|c| - 1], key);
    }
  }

  lemma {:induction false} FindAfterDrop<P>(c: Cache<P>, n: nat, key: string)
    requires n <= |c| && DistinctKeys(c)
    ensures Find(c[n..], key).Some? ==> Find(c[n..], key) == Find(c, key)
  {
    if n < |c| {
      FindAfterDrop(c[..|c| - 1], n, key);
      assert c[n..] == c[..|c| - 1][n..] + [c[|c| - 1]];
      FindSnoc(c[..|c| - 1][n..], c[|c| - 1], key);
    }
  }

  lemma LookupFinds<P>(c: Cache<P>, op: Op<P>, key: string)
    requires op.GetOp? && Find(Lookup(c, op.key, op.now).0, key).Some?
    ensures Find(Lookup(c, op.key, op.now).0, key) == Find(c, key)
  {
    FindAfterRemove(c, op.key, key);
    if op.key in Keys(c) { FindSnoc(Remove(c, op.key), (op.key, Find(c, op.key).value), key); }
  }

  lemma FindAfterEvict<P>(c: Cache<P>, max: int, key: string)
    requires DistinctKeys(c) && Find(Evict(c, max), key).Some?
    ensures Find(Evict(c, max), key) == Find(c, key)
  {
    EvictIsASuffix(c, max);
    FindAfterDrop(c, if |c| <= max then 0 else if max < 0 then |c| else |c| - max, key);
    assert c[0..] == c && c[|c|..] == [];
  }

  lemma StoredIsDistinct<P>(c: Cache<P>, op: Op<P>)
    requires DistinctKeys(c) && op.SetOp?
    ensures DistinctKeys(Remove(c, op.key) + [(op.key, Written(op))])
  {
    RemoveKeys(c, op.key);
    RemoveKeepsDistinct(c, op.key);
    DistinctSnoc(Remove(c, op.key), (op.key, Written(op)));
  }

  lemma StoreFinds<P>(c: Cache<P>, max: int, op: Op<P>, key: string)
    requires DistinctKeys(c) && op.SetOp? && Find(Step(c, max, op).0, key).Some?
    ensures Find(Step(c, max, op).0, key) == if op.key == key then Some(Written(op)) else Find(c, key)
  {
    StoredIsDistinct(c, op);
    FindAfterEvict(Remove(c, op.key) + [(op.key, Written(op))], max, key);
    FindSnoc(Remove(c, op.key), (op.key, Written(op)), key);
    FindAfterRemove(c, op.key, key);
  }

  lemma StepFinds<P>(c: Cache<P>, max: int, op: Op<P>, key: string)
    requires DistinctKeys(c) && Find(Step(c, max, op).0, key).Some?
    ensures Find(Step(c, max, op).0, key) ==
              if op.SetOp? && op.key == key then Some(Written(op)) else Find(c, key)
  {
    if op.SetOp? { StoreFinds(c, max, op, key); } else { LookupFinds(c, op, key); }
  }

  lemma {:induction false} AlwaysFresh<P>(max: int, ops: seq<Op<P>>)
    ensures Fresh(After(max, ops), ops)
  {
    if ops != [] {
      var before, op := ops[..|ops| - 1], ops[|ops| - 1];
      AlwaysFresh(max, before);
      AfterIsBounded(max, before);
      forall k | k in Keys(After(max, ops))
        ensures LastSet(ops, k) >= 0 && Find(After(max, ops), k) == Some(Written(ops[LastSet(ops, k)]))
      {
        StepFinds(After(max, before), max, op, k);
        if !(op.SetOp? && op.key == k) { assert k in Keys(After(max, before)); }
      }
    }
  }

  /** Every hit returns the payload of that key's latest `set`, and only before it expires. */
  lemma HitsAreFresh<P>(max: int, ops: seq<Op<P>>, i: nat)
    requires i < |ops| && Answer(max, ops, i).Some?
    ensures var s := LastSet(ops[..i], ops[i].key);
            && s >= 0 && ops[i].GetOp?
            && Answer(max, ops, i) == Some(ops[s].payload)
            && ops[i].now <= ops[s].now + ops[s].ttl as real
  {
    AlwaysFresh(max, ops[..i]);
    assert ops[i].key in Keys(After(max, ops[..i]));
  }

  /** Call `i` touches its key: it sets it, or hits it. */
  ghost predicate Touches<P>(max: int, ops: seq<Op<P>>, i: nat)
    requires i < |ops|
  {
    ops[i].SetOp? || Answer(max, ops, i).Some?
  }

  /** The keys touched after call `i`. */
  ghost function TouchedSince<P>(max: int, ops: seq<Op<P>>, i: nat): set<string>
    requires i < |ops|
  {
    set j | i < j < |ops| && Touches(max, ops, j) :: ops[j].key
  }

  lemma TouchesOfPrefix<P>(max: int, ops: seq<Op<P>>, j: nat)
    requires j < |ops| - 1
    ensures Touches(max, ops, j) <==> Touches(max, ops[..|ops| - 1], j)
  {
    assert ops[..|ops| - 1][..j] == ops[..j];
  }

  lemma TouchedBefore<P>(max: int, ops: seq<Op<P>>, i: nat, k: string)
    requires i < |ops| - 1 && k in TouchedSince(max, ops[..|ops| - 1], i)
    ensures k in TouchedSince(max, ops, i)
  {
    var before := ops[..|ops| - 1];
    var j :| i < j < |before| && Touches(max, before, j) && before[j].key == k;
    TouchesOfPrefix(max, ops, j);
    assert ops[j].key == k;
  }

  lemma TouchedByNow<P>(max: int, ops: seq<Op<P>>, i: nat, k: string)
    requires i < |ops| - 1 && k in TouchedSince(max, ops, i)
    ensures k in TouchedSince(max, ops[..|ops| - 1], i) || (Touches(max, ops, |ops| - 1) && k == ops[|ops| - 1].key)
  {
    var before := ops[..|ops| - 1];
    var j :| i < j < |ops| && Touches(max, ops, j) && ops[j].key == k;
    if j < |before| {
      TouchesOfPrefix(max, ops, j);
      assert before[j].key == k;
    }
  }

  lemma TouchedSinceGrows<P>(max: int, ops: seq<Op<P>>, i: nat)
    requires i < |ops| - 1
    ensures var before := ops[..|ops| - 1];
            TouchedSince(max, ops, i) ==
              TouchedSince(max, before, i) + if Touches(max, ops, |ops| - 1) then {ops[|ops| - 1].key} else {}
  {
    forall k | k in TouchedSince(max, ops[..|ops| - 1], i) ensures k in TouchedSince(max, ops, i) {
      TouchedBefore(max, ops, i, k);
    }
    forall k | k in TouchedSince(max, ops, i)
      ensures k in TouchedSince(max, ops[..|ops| - 1], i) || (Touches(max, ops, |ops| - 1) && k == ops[|ops| - 1].key)
    {
      TouchedByNow(max, ops, i, k);
    }
  }

  /** The key is resident, and only keys of `since` stand after it. */
  ghost predicate Resident<P>(c: Cache<P>, key: string, since: set<string>) {
    exists p :: 0 <= p < |c| && c[p].0 == key && Keys(c[p + 1..]) <= since
  }

  /** Removing another key keeps the position bound. */
  lemma {:induction false} ResidentAfterRemove<P>(c: Cache<P>, gone: string, key: string, since: set<string>)
    requires gone != key && Resident(c, key, since)
    ensures Resident(Remove(c, gone), key, since)
  {
    var p :| 0 <= p < |c| && c[p].0 == key && Keys(c[p + 1..]) <= since;
    if p == |c| - 1 {
      var r := Remove(c, gone);
      assert r[|r| - 1] == c[p] && r[|r| - 1 + 1..] == [];
    } else {
      var init, last := c[..|c| - 1], c[|c| - 1];
      assert c[p + 1..] == init[p + 1..] + [last];
      KeysOfConcat(init[p + 1..], [last]);
      KeysOfOne(last);
      assert init[p].0 == key;
      ResidentAfterRemove(init, gone, key, since);
      if last.0 != gone { ResidentAfterAppend(Remove(init, gone), last, key, since); }
    }
  }

  lemma ResidentAfterAppend<P>(c: Cache<P>, x: (string, Entry<P>), key: string, since: set<string>)
    requires Resident(c, key, since)
    ensures Resident(c + [x], key, since + {x.0})
  {
    var p :| 0 <= p < |c| && c[p].0 == key && Keys(c[p + 1..]) <= since;
    assert (c + [x])[p + 1..] == c[p + 1..] + [x];
    KeysOfConcat(c[p + 1..], [x]);
    KeysOfOne(x);
    assert (c + [x])[p].0 == key;
  }

  lemma ResidentAtEnd<P>(c: Cache<P>, key: string, e: Entry<P>)
    ensures Resident(c + [(key, e)], key, {})
  {
    var d := c + [(key, e)];
    assert d[|c|].0 == key && d[|c| + 1..] == [];
  }

  lemma {:induction false} DistinctCount<P>(c: Cache<P>)
    requires DistinctKeys(c)
    ensures |Keys(c)| == |c|
  {
    if c != [] {
      Snoc(c);
      DistinctSnoc(c[..|c| - 1], c[|c| - 1]);
      DistinctCount(c[..|c| - 1]);
    }
  }

  lemma DistinctSuffix<P>(c: Cache<P>, n: nat)
    requires DistinctKeys(c) && n <= |c|
    ensures DistinctKeys(c[n..])
  {
    var d := c[n..];
    forall i, j | 0 <= i < j < |d| ensures d[i].0 != d[j].0 { assert c[n + i].0 != c[n + j].0; }
  }

  /** With fewer than `max` keys behind it, the key survives eviction. */
  lemma ResidentAfterEvict<P>(c: Cache<P>, max: int, key: string, since: set<string>)
    requires DistinctKeys(c) && Resident(c, key, since) && |since| < max
    ensures Resident(Evict(c, max), key, since)
  {
    var p :| 0 <= p < |c| && c[p].0 == key && Keys(c[p + 1..]) <= since;
    EvictIsASuffix(c, max);
    if |c| > max {
      var n := |c| - max;
      DistinctSuffix(c, p + 1);
      DistinctCount(c[p + 1..]);
      SubsetSize(Keys(c[p + 1..]), since);
      assert c[n..][p - n].0 == key && c[n..][p - n + 1..] == c[p + 1..];
    }
  }

  lemma StoreKeepsResident<P>(c: Cache<P>, max: int, op: Op<P>, key: string, since: set<string>)
    requires DistinctKeys(c) && op.SetOp? && op.key != key && Resident(c, key, since) && |since + {op.key}| < max
    ensures Resident(Step(c, max, op).0, key, since + {op.key})
  {
    ResidentAfterRemove(c, op.key, key, since);
    ResidentAfterAppend(Remove(c, op.key), (op.key, Written(op)), key, since);
    RemoveKeys(c, op.key);
    RemoveKeepsDistinct(c, op.key);
    DistinctSnoc(Remove(c, op.key), (op.key, Written(op)));
    ResidentAfterEvict(Remove(c, op.key) + [(op.key, Written(op))], max, key, since + {op.key});
  }

  lemma LookupKeepsResident<P>(c: Cache<P>, op: Op<P>, key: string, since: set<string>)
    requires op.GetOp? && op.key != key && Resident(c, key, since)
    ensures var r := Lookup(c, op.key, op.now);
            Resident(r.0, key, since + if r.1.Some? then {op.key} else {})
  {
    if op.key in Keys(c) {
      ResidentAfterRemove(c, op.key, key, since);
      if !(Find(c, op.key).value.expires < op.now) {
        ResidentAfterAppend(Remove(c, op.key), (op.key, Find(c, op.key).value), key, since);
      }
    }
  }

  lemma TouchMakesResident<P>(c: Cache<P>, max: int, op: Op<P>)
    requires DistinctKeys(c) && max > 0 && (op.SetOp? || Lookup(c, op.key, op.now).1.Some?)
    ensures Resident(Step(c, max, op).0, op.key, {})
  {
    match op
    case GetOp(key, now) => ResidentAtEnd(Remove(c, key), key, Find(c, key).value);
    case SetOp(key, now, payload, ttl) =>
      ResidentAtEnd(Remove(c, key), key, Written(op));
      RemoveKeys(c, key);
      RemoveKeepsDistinct(c, key);
      DistinctSnoc(Remove(c, key), (key, Written(op)));
      ResidentAfterEvict(Remove(c, key) + [(key, Written(op))], max, key, {});
  }

  lemma {:induction false} StaysResident<P>(max: int, ops: seq<Op<P>>, i: nat)
    requires i < |ops| && Touches(max, ops, i)
    requires forall j :: i < j < |ops| ==> ops[j].key != ops[i].key
    requires |TouchedSince(max, ops, i)| < max
    ensures Resident(After(max, ops), ops[i].key, TouchedSince(max, ops, i))
  {
    var before, op := ops[..|ops| - 1], ops[|ops| - 1];
    AfterIsBounded(max, before);
    if i == |ops| - 1 {
      assert TouchedSince(max, ops, i) == {};
      TouchMakesResident(After(max, before), max, op);
    } else {
      TouchedSinceGrows(max, ops, i);
      SubsetSize(TouchedSince(max, before, i), TouchedSince(max, ops, i));
      assert before[..i] == ops[..i];
      StaysResident(max, before, i);
      if op.SetOp? {
        StoreKeepsResident(After(max, before), max, op, ops[i].key, TouchedSince(max, before, i));
      } else {
        LookupKeepsResident(After(max, before), op, ops[i].key, TouchedSince(max, before, i));
      }
    }
  }

  /** At `now` the key is answered with the payload of its latest `set`, exactly until that expires. */
  ghost predicate AnsweredUntilExpiry<P>(max: int, ops: seq<Op<P>>, key: string, now: real) {
    var s := LastSet(ops, key);
    && s >= 0
    && Lookup(After(max, ops), key, now).1 ==
       if ops[s].now + ops[s].ttl as real < now then None else Some(ops[s].payload)
  }

  /** With no later call of its key, a touched key is answered until its latest `set` has expired. */
  lemma LastTouchIsAHitUntilExpiry<P>(max: int, ops: seq<Op<P>>, i: nat, now: real)
    requires i < |ops| && Touches(max, ops, i)
    requires forall j :: i < j < |ops| ==> ops[j].key != ops[i].key
    requires |TouchedSince(max, ops, i)| < max
    ensures AnsweredUntilExpiry(max, ops, ops[i].key, now)
  {
    StaysResident(max, ops, i);
    AlwaysFresh(max, ops);
    assert ops[i].key in Keys(After(max, ops));
  }

  // ---------------------------------------------------------------- any touch, later calls included

  ghost predicate NonDecreasing<P>(ops: seq<Op<P>>) {
    forall i, j :: 0 <= i <= j < |ops| ==> ops[i].now <= ops[j].now
  }

  lemma {:induction false} LastCall<P>(ops: seq<Op<P>>, i: nat) returns (j: nat)
    requires i < |ops|
    ensures i <= j < |ops| && ops[j].key == ops[i].key
    ensures forall m :: j < m < |ops| ==> ops[m].key != ops[i].key
  {
    if ops[|ops| - 1].key == ops[i].key {
      j := |ops| - 1;
    } else {
      j := LastCall(ops[..|ops| - 1], i);
    }
  }

  lemma {:induction false} LastSetBefore<P>(ops: seq<Op<P>>, j: nat, key: string)
    requires j <= |ops| && forall m :: j <= m < |ops| && ops[m].SetOp? ==> ops[m].key != key
    ensures LastSet(ops, key) == LastSet(ops[..j], key)
  {
    if j == |ops| {
      assert ops[..j] == ops;
    } else {
      var before := ops[..|ops| - 1];
      LastSetBefore(before, j, key);
      assert before[..j] == ops[..j];
    }
  }

  lemma TouchesEarlier<P>(max: int, ops: seq<Op<P>>, j: nat, m: nat)
    requires m < j <= |ops|
    ensures Touches(max, ops[..j], m) <==> Touches(max, ops, m)
  {
    assert ops[..j][..m] == ops[..m];
  }

  lemma TouchedUpTo<P>(max: int, ops: seq<Op<P>>, i: nat, j: nat)
    requires i < j <= |ops|
    ensures TouchedSince(max, ops[..j], i) <= TouchedSince(max, ops, i)
  {
    forall k | k in TouchedSince(max, ops[..j], i) ensures k in TouchedSince(max, ops, i) {
      var m :| i < m < j && Touches(max, ops[..j], m) && ops[..j][m].key == k;
      TouchesEarlier(max, ops, j, m);
      assert ops[m].key == k;
    }
  }

  lemma TouchedSinceLastCall<P>(max: int, ops: seq<Op<P>>, i: nat, j: nat, key: string)
    requires i <= j < |ops| && forall m :: j < m < |ops| ==> ops[m].key != key
    ensures TouchedSince(max, ops, j) <= TouchedSince(max, ops, i) - {key}
  {
  }

  /** A key whose latest `set` has expired is not answered, wherever it stands. */
  lemma ExpiredIsAMiss<P>(max: int, ops: seq<Op<P>>, key: string, now: real)
    requires var s := LastSet(ops, key); s >= 0 && ops[s].now + ops[s].ttl as real < now
    ensures AnsweredUntilExpiry(max, ops, key, now)
  {
    AlwaysFresh(max, ops);
    AfterIsBounded(max, ops);
  }

  /** A call that misses leaves the key's latest `set` expired by the time of the call. */
  lemma MissedCallIsExpired<P>(max: int, ops: seq<Op<P>>, i: nat, j: nat, key: string)
    requires i < j < |ops| && key == ops[j].key && !Touches(max, ops, j)
    requires AnsweredUntilExpiry(max, ops[..j], key, ops[j].now)
    requires forall m :: j < m < |ops| ==> ops[m].key != key
    ensures var s := LastSet(ops, key); s >= 0 && ops[s].now + ops[s].ttl as real < ops[j].now
  {
    LastSetBefore(ops, j, key);
  }

  /**
   Residency: with a clock that never runs backwards, a key set or hit at call `i`, with fewer
   than `max` distinct other keys set or hit since, is answered at any later time `now` with its
   latest payload, exactly until that has expired; the key itself may have been called since.
   */
  lemma {:induction false} TouchedKeyIsAHitUntilExpiry<P>(max: int, ops: seq<Op<P>>, i: nat, now: real)
    requires i < |ops| && Touches(max, ops, i)
    requires NonDecreasing(ops) && ops[|ops| - 1].now <= now
    requires |TouchedSince(max, ops, i) - {ops[i].key}| < max
    ensures AnsweredUntilExpiry(max, ops, ops[i].key, now)
    decreases |ops|
  {
    var key := ops[i].key;
    var j := LastCall(ops, i);
    if Touches(max, ops, j) {
      TouchedSinceLastCall(max, ops, i, j, key);
      SubsetSize(TouchedSince(max, ops, j), TouchedSince(max, ops, i) - {key});
      LastTouchIsAHitUntilExpiry(max, ops, j, now);
    } else {
      TouchesEarlier(max, ops, j, i);
      TouchedUpTo(max, ops, i, j);
      SubsetSize(TouchedSince(max, ops[..j], i) - {key}, TouchedSince(max, ops, i) - {key});
      TouchedKeyIsAHitUntilExpiry(max, ops[..j], i, ops[j].now);
      MissedCallIsExpired(max, ops, i, j, key);
      ExpiredIsAMiss(max, ops, key, now);
    }
  }
}
