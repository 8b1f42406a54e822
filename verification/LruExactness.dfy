/** Exact residency. */
module LruExactness {
  // What a cache answers, read off the history of its calls: exactly which keys are still there,
  // for any clock, bound and lifetimes.

  import opened LruCache
  import opened LruResidency

  /** The keys whose last call after call `i` was a set or a hit; a key that missed since counts no more. */
  ghost function StandingSince<P>(max: int, ops: seq<Op<P>>, i: nat): set<string>
    requires i < |ops|
    decreases |ops|
  {
    var n := |ops| - 1;
    if i == n then {}
    else if Touches(max, ops, n) then StandingSince(max, ops[..n], i) + {ops[n].key}
    else StandingSince(max, ops[..n], i) - {ops[n].key}
  }

  ghost predicate LastCallAt<P>(ops: seq<Op<P>>, j: nat, key: string) {
    j < |ops| && ops[j].key == key && forall m :: j < m < |ops| ==> ops[m].key != key
  }

  lemma LastCallOfPrefix<P>(ops: seq<Op<P>>, j: nat, key: string)
    requires ops != []
    ensures LastCallAt(ops, j, key) <==>
              if ops[|ops| - 1].key == key then j == |ops| - 1 else LastCallAt(ops[..|ops| - 1], j, key)
  {
  }

  lemma {:induction false} StandingExactly<P>(max: int, ops: seq<Op<P>>, i: nat, key: string)
    requires i < |ops|
    ensures key in StandingSince(max, ops, i) <==>
              exists j: nat :: i < j && LastCallAt(ops, j, key) && Touches(max, ops, j)
  {
    var n := |ops| - 1;
    if i < n {
      StandingExactly(max, ops[..n], i, key);
      forall j: nat | j < n ensures Touches(max, ops, j) <==> Touches(max, ops[..n], j) {
        TouchesOfPrefix(max, ops, j);
      }
      forall j: nat
        ensures LastCallAt(ops, j, key) <==> if ops[n].key == key then j == n else LastCallAt(ops[..n], j, key)
      {
        LastCallOfPrefix(ops, j, key);
      }
      assert LastCallAt(ops, n, key) <==> ops[n].key == key;
    }
  }

  /** At every moment since call `i` fewer such keys than the bound were there. */
  ghost predicate Room<P>(max: int, ops: seq<Op<P>>, i: nat)
    requires i < |ops|
    decreases |ops|
  {
    |StandingSince(max, ops, i)| < max && (i == |ops| - 1 || Room(max, ops[..|ops| - 1], i))
  }

  lemma {:induction false} RoomAtEveryMoment<P>(max: int, ops: seq<Op<P>>, i: nat, m: nat)
    requires i < m <= |ops| && Room(max, ops, i)
    ensures |StandingSince(max, ops[..m], i)| < max
    decreases |ops|
  {
    if m == |ops| {
      assert ops[..m] == ops;
    } else {
      RoomAtEveryMoment(max, ops[..|ops| - 1], i, m);
      assert ops[..|ops| - 1][..m] == ops[..m];
    }
  }

  lemma {:induction false} NoRoomAtSomeMoment<P>(max: int, ops: seq<Op<P>>, i: nat) returns (m: nat)
    requires i < |ops| && !Room(max, ops, i)
    ensures i < m <= |ops| && |StandingSince(max, ops[..m], i)| >= max
    decreases |ops|
  {
    if |StandingSince(max, ops, i)| >= max {
      m := |ops|;
      assert ops[..m] == ops;
    } else {
      m := NoRoomAtSomeMoment(max, ops[..|ops| - 1], i);
      assert ops[..|ops| - 1][..m] == ops[..m];
    }
  }

  // ---------------------------------------------------------------- what stands behind a key

  /** The key is resident, and the keys more recent than it are exactly `since`. */
  ghost predicate Behind<P>(c: Cache<P>, key: string, since: set<string>) {
    exists p :: 0 <= p < |c| && c[p].0 == key && Keys(c[p + 1..]) == since
  }

  lemma {:induction false} RemoveOfConcat<P>(a: Cache<P>, b: Cache<P>, key: string)
    ensures Remove(a + b, key) == Remove(a, key) + Remove(b, key)
  {
    if b == [] {
      assert a + b == a;
    } else {
      var init, last := b[..|b| - 1], b[|b| - 1];
      assert a + b == (a + init) + [last] && b == init + [last];
      RemoveOfConcat(a, init, key);
      RemoveSnoc(a + init, last, key);
      RemoveSnoc(init, last, key);
    }
  }

  lemma BehindAfterRemove<P>(c: Cache<P>, gone: string, key: string, since: set<string>)
    requires gone != key && Behind(c, key, since)
    ensures Behind(Remove(c, gone), key, since - {gone})
  {
    var p :| 0 <= p < |c| && c[p].0 == key && Keys(c[p + 1..]) == since;
    var none: Cache<P> := [];
    assert c == (c[..p] + [c[p]]) + c[p + 1..];
    RemoveOfConcat(c[..p] + [c[p]], c[p + 1..], gone);
    RemoveSnoc(c[..p], c[p], gone);
    RemoveKeys(c[p + 1..], gone);
    BehindAt(Remove(c[..p], gone), c[p], Remove(c[p + 1..], gone));
  }

  lemma BehindAt<P>(front: Cache<P>, x: (string, Entry<P>), back: Cache<P>)
    ensures Behind((front + [x]) + back, x.0, Keys(back))
  {
    var c := (front + [x]) + back;
    assert c[|front|].0 == x.0 && c[|front| + 1..] == back;
  }

  lemma BehindAfterAppend<P>(c: Cache<P>, x: (string, Entry<P>), key: string, since: set<string>)
    requires Behind(c, key, since)
    ensures Behind(c + [x], key, since + {x.0})
  {
    var p :| 0 <= p < |c| && c[p].0 == key && Keys(c[p + 1..]) == since;
    assert (c + [x])[p + 1..] == c[p + 1..] + [x];
    KeysOfConcat(c[p + 1..], [x]);
    KeysOfOne(x);
    assert (c + [x])[p].0 == key;
  }

  lemma BehindCounts<P>(c: Cache<P>, key: string, since: set<string>) returns (p: nat)
    requires DistinctKeys(c) && Behind(c, key, since)
    ensures p < |c| && c[p].0 == key && Keys(c[p + 1..]) == since && |since| == |c| - p - 1
  {
    p :| 0 <= p < |c| && c[p].0 == key && Keys(c[p + 1..]) == since;
    DistinctSuffix(c, p + 1);
    DistinctCount(c[p + 1..]);
  }

  /** Eviction drops the key exactly when as many keys as the bound are more recent. */
  lemma BehindAfterEvict<P>(c: Cache<P>, max: int, key: string, since: set<string>)
    requires DistinctKeys(c) && Behind(c, key, since)
    ensures if |since| < max then Behind(Evict(c, max), key, since) else key !in Keys(Evict(c, max))
  {
    var p := BehindCounts(c, key, since);
    EvictIsASuffix(c, max);
    if |since| < max {
      if |c| > max {
        var n := |c| - max;
        assert c[n..][p - n].0 == key && c[n..][p - n + 1..] == c[p + 1..];
      }
    } else {
      var d := Evict(c, max);
      forall i | 0 <= i < |d| ensures d[i].0 != key {
        assert d[i] == c[|c| - |d| + i] && |c| - |d| + i > p;
      }
    }
  }

  // ---------------------------------------------------------------- one call

  lemma MovedToEnd<P>(c: Cache<P>, moved: string, e: Entry<P>, key: string, since: set<string>)
    requires Behind(c, key, since - {moved})
    ensures Behind(c + [(moved, e)], key, since + {moved})
  {
    BehindAfterAppend(c, (moved, e), key, since - {moved});
    assert since - {moved} + {moved} == since + {moved};
  }

  lemma SetMovesBehind<P>(c: Cache<P>, max: int, op: Op<P>, key: string, since: set<string>)
    requires DistinctKeys(c) && op.SetOp? && op.key != key && Behind(c, key, since)
    ensures var d := Step(c, max, op).0;
            if |since + {op.key}| < max then Behind(d, key, since + {op.key}) else key !in Keys(d)
  {
    BehindAfterRemove(c, op.key, key, since);
    MovedToEnd(Remove(c, op.key), op.key, Written(op), key, since);
    EvictStored(c, max, op, key, since + {op.key});
  }

  lemma EvictStored<P>(c: Cache<P>, max: int, op: Op<P>, key: string, since: set<string>)
    requires DistinctKeys(c) && op.SetOp? && Behind(Remove(c, op.key) + [(op.key, Written(op))], key, since)
    ensures if |since| < max then Behind(Step(c, max, op).0, key, since) else key !in Keys(Step(c, max, op).0)
  {
    StoredIsDistinct(c, op);
    BehindAfterEvict(Remove(c, op.key) + [(op.key, Written(op))], max, key, since);
  }

  lemma GetMovesBehind<P>(c: Cache<P>, op: Op<P>, key: string, since: set<string>)
    requires op.GetOp? && op.key != key && Behind(c, key, since)
    ensures var r := Lookup(c, op.key, op.now);
            Behind(r.0, key, if r.1.Some? then since + {op.key} else since - {op.key})
  {
    BehindAfterRemove(c, op.key, key, since);
    match Find(c, op.key)
    case None =>
      RemoveKeys(c, op.key);
    case Some(e) =>
      if !(e.expires < op.now) {
        MovedToEnd(Remove(c, op.key), op.key, e, key, since);
      }
  }

  lemma AbsentStaysAbsent<P>(c: Cache<P>, max: int, op: Op<P>, key: string)
    requires DistinctKeys(c) && key !in Keys(c) && (op.SetOp? ==> op.key != key)
    ensures key !in Keys(Step(c, max, op).0)
  {
    if key in Keys(Step(c, max, op).0) { StepFinds(c, max, op, key); }
  }

  lemma TouchPutsLast<P>(c: Cache<P>, max: int, op: Op<P>)
    requires DistinctKeys(c) && (op.SetOp? || Lookup(c, op.key, op.now).1.Some?)
    ensures var d := Step(c, max, op).0;
            if op.GetOp? || 0 < max then Behind(d, op.key, {}) else op.key !in Keys(d)
  {
    match op
    case GetOp(key, now) => BehindAtEnd(Remove(c, key), key, Find(c, key).value);
    case SetOp(key, now, payload, ttl) =>
      BehindAtEnd(Remove(c, key), key, Written(op));
      StoredIsDistinct(c, op);
      BehindAfterEvict(Remove(c, key) + [(key, Written(op))], max, key, {});
  }

  lemma BehindAtEnd<P>(c: Cache<P>, key: string, e: Entry<P>)
    ensures Behind(c + [(key, e)], key, {})
  {
    var d := c + [(key, e)];
    assert d[|c|].0 == key && d[|c| + 1..] == [];
  }

  // ---------------------------------------------------------------- whole histories

  /** How much room there is decides whether the key is there, and then what is more recent than it. */
  ghost predicate ResidentByRoom<P>(max: int, ops: seq<Op<P>>, i: nat)
    requires i < |ops|
  {
    if Room(max, ops, i) then Behind(After(max, ops), ops[i].key, StandingSince(max, ops, i))
    else ops[i].key !in Keys(After(max, ops))
  }

  lemma TouchIsResident<P>(max: int, ops: seq<Op<P>>)
    requires ops != [] && Touches(max, ops, |ops| - 1)
    ensures ResidentByRoom(max, ops, |ops| - 1)
  {
    var n := |ops| - 1;
    AfterIsBounded(max, ops[..n]);
    AfterIsBounded(max, ops);
    TouchPutsLast(After(max, ops[..n]), max, ops[n]);
  }

  lemma GetKeepsRoom<P>(max: int, ops: seq<Op<P>>, key: string, since: set<string>)
    requires Behind(After(max, ops), key, since)
    ensures |since| < max
  {
    AfterIsBounded(max, ops);
    var p := BehindCounts(After(max, ops), key, since);
  }

  lemma CallKeepsResident<P>(max: int, ops: seq<Op<P>>, i: nat)
    requires i < |ops| - 1 && ops[|ops| - 1].key != ops[i].key && ResidentByRoom(max, ops[..|ops| - 1], i)
    ensures ResidentByRoom(max, ops, i)
  {
    var before, op, key := ops[..|ops| - 1], ops[|ops| - 1], ops[i].key;
    AfterIsBounded(max, before);
    assert before[i] == ops[i];
    if !Room(max, before, i) {
      AbsentStaysAbsent(After(max, before), max, op, key);
    } else if op.SetOp? {
      SetMovesBehind(After(max, before), max, op, key, StandingSince(max, before, i));
    } else {
      GetMovesBehind(After(max, before), op, key, StandingSince(max, before, i));
      GetKeepsRoom(max, ops, key, StandingSince(max, ops, i));
    }
  }

  /** A key that is not called again is there exactly as long as there is room. */
  lemma {:induction false} ResidentExactly<P>(max: int, ops: seq<Op<P>>, i: nat)
    requires i < |ops| && LastCallAt(ops, i, ops[i].key) && Touches(max, ops, i)
    ensures ResidentByRoom(max, ops, i)
    decreases |ops|
  {
    if i == |ops| - 1 {
      TouchIsResident(max, ops);
    } else {
      TouchesOfPrefix(max, ops, i);
      ResidentExactly(max, ops[..|ops| - 1], i);
      CallKeepsResident(max, ops, i);
    }
  }

  /** A get that misses leaves its key out of the cache, expired entries included, until the key is set again. */
  lemma {:induction false} MissedKeyIsGone<P>(max: int, ops: seq<Op<P>>, i: nat)
    requires i < |ops| && ops[i].GetOp? && Answer(max, ops, i).None?
    requires forall j :: i < j < |ops| && ops[j].SetOp? ==> ops[j].key != ops[i].key
    ensures ops[i].key !in Keys(After(max, ops))
    decreases |ops|
  {
    var before, op, key := ops[..|ops| - 1], ops[|ops| - 1], ops[i].key;
    AfterIsBounded(max, before);
    if i == |ops| - 1 {
      RemoveKeys(After(max, before), key);
    } else {
      assert before[..i] == ops[..i];
      MissedKeyIsGone(max, before, i);
      AbsentStaysAbsent(After(max, before), max, op, key);
    }
  }

  /** The key was set or hit by its last call, there was room ever since, and its last set has not expired. */
  ghost predicate AliveAt<P>(max: int, ops: seq<Op<P>>, j: nat, key: string, now: real) {
    && LastCallAt(ops, j, key) && Touches(max, ops, j) && Room(max, ops, j)
    && LastSet(ops, key) >= 0 && now <= ops[LastSet(ops, key)].now + ops[LastSet(ops, key)].ttl as real
  }

  lemma CalledIfPresent<P>(max: int, ops: seq<Op<P>>, key: string) returns (j: nat)
    requires key in Keys(After(max, ops))
    ensures LastCallAt(ops, j, key) && Touches(max, ops, j) && LastSet(ops, key) >= 0
  {
    AlwaysFresh(max, ops);
    j := LastCall(ops, LastSet(ops, key));
    if !Touches(max, ops, j) { MissedKeyIsGone(max, ops, j); }
  }

  /**
   What the cache answers, for every history, key and time: a hit exactly when the key's last call
   set or hit it, at every moment since fewer keys than the bound stood more recent, and the time of
   its latest set has not run out; and then the answer is what that set wrote.
   */
  lemma AnswerExactly<P>(max: int, ops: seq<Op<P>>, key: string, now: real)
    ensures var answer := Lookup(After(max, ops), key, now).1;
            && (answer.Some? <==> exists j: nat :: AliveAt(max, ops, j, key, now))
            && (answer.Some? ==> LastSet(ops, key) >= 0 && answer.value == ops[LastSet(ops, key)].payload)
  {
    AlwaysFresh(max, ops);
    if key in Keys(After(max, ops)) {
      var j := CalledIfPresent(max, ops, key);
      ResidentExactly(max, ops, j);
      if now <= ops[LastSet(ops, key)].now + ops[LastSet(ops, key)].ttl as real {
        assert AliveAt(max, ops, j, key, now);
      }
    } else if j: nat :| AliveAt(max, ops, j, key, now) {
      ResidentExactly(max, ops, j);
      BehindIsPresent(After(max, ops), key, StandingSince(max, ops, j));
    }
  }

  lemma BehindIsPresent<P>(c: Cache<P>, key: string, since: set<string>)
    requires Behind(c, key, since)
    ensures key in Keys(c)
  {
  }
}
