/** The bounded in-process LRU with per-entry expiry. */
module LruCache {
  import opened Wrappers

  datatype Entry<P> = Entry(expires: real, payload: P)

  /** An ordered dictionary, least recently used first. */
  type Cache<P> = seq<(string, Entry<P>)>

  function Keys<P>(c: Cache<P>): (ks: set<string>)
    ensures forall i :: 0 <= i < |c| ==> c[i].0 in ks
  {
    set i | 0 <= i < |c| :: c[i].0
  }

  ghost predicate DistinctKeys<P>(c: Cache<P>) {
    forall i, j :: 0 <= i < j < |c| ==> c[i].0 != c[j].0
  }

  function Find<P>(c: Cache<P>, key: string): (e: Option<Entry<P>>)
    ensures e.Some? <==> key in Keys(c)
  {
    if c == [] then None
    else if c[|c| - 1].0 == key then Some(c[|c| - 1].1)
    else
      assert forall i :: 0 <= i < |c| - 1 ==> c[..|c| - 1][i] == c[i];
      Find(c[..|c| - 1], key)
  }

  function Remove<P>(c: Cache<P>, key: string): Cache<P> {
    if c == [] then []
    else if c[|c| - 1].0 == key then Remove(c[..|c| - 1], key)
    else Remove(c[..|c| - 1], key) + [c[|c| - 1]]
  }

  /** Pop from the front until at most `max` entries are left. */
  function Evict<P>(c: Cache<P>, max: int): Cache<P> {
    if |c| <= max || c == [] then c else Evict(c[1..], max)
  }

  function Lookup<P>(c: Cache<P>, key: string, now: real): (Cache<P>, Option<P>) {
    match Find(c, key)
    case None => (c, None)
    case Some(e) =>
      if e.expires < now then (Remove(c, key), None) else (Remove(c, key) + [(key, e)], Some(e.payload))
  }

  function Store<P>(c: Cache<P>, max: int, key: string, payload: P, ttl: int, now: real): Cache<P> {
    Evict(Remove(c, key) + [(key, Entry(now + ttl as real, payload))], max)
  }

  /** `faults` says whether each coming call raises, for a backend that is out of process. */
  datatype Backend<P> = Backend(cache: Cache<P>, max: int, faults: seq<bool>)

  predicate Fails<P>(b: Backend<P>) {
    b.faults != [] && b.faults[0]
  }

  function AfterFault<P>(b: Backend<P>): Backend<P> {
    if b.faults == [] then b else b.(faults := b.faults[1..])
  }

  /** `get`: Err when the call raises. */
  function BackendGet<P>(b: Backend<P>, key: string, now: real): (Backend<P>, Result<Option<P>, ()>) {
    if Fails(b) then (AfterFault(b), Err(()))
    else
      var (c, payload) := Lookup(b.cache, key, now);
      (AfterFault(b).(cache := c), Ok(payload))
  }

  /** `set`: with a negative bound the eviction loop pops an empty dictionary and raises. */
  function BackendSet<P>(b: Backend<P>, key: string, payload: P, ttl: int, now: real): (Backend<P>, Result<(), ()>) {
    if Fails(b) then (AfterFault(b), Err(()))
    else
      (AfterFault(b).(cache := Store(b.cache, b.max, key, payload, ttl, now)), if b.max < 0 then Err(()) else Ok(()))
  }

  class InMemoryCacheBackend<P(!new)> {
    var entries: Cache<P>
    const maxEntries: int
    var faults: seq<bool>

    constructor (maxEntries: int, faults: seq<bool>)
      ensures State() == Backend([], maxEntries, faults)
    {
      entries := [];
      this.maxEntries := maxEntries;
      this.faults := faults;
    }

    function State(): Backend<P>
      reads this
    {
      Backend(entries, maxEntries, faults)
    }

    method Get(key: string, now: real) returns (r: Result<Option<P>, ()>)
      modifies this
      ensures (State(), r) == BackendGet(old(State()), key, now)
      ensures old(faults) != [] && old(faults)[0] <==> r.Err?
      ensures r.Err? ==> entries == old(entries)
      ensures faults == if old(faults) == [] then [] else old(faults)[1..]
    {
      var raises := faults != [] && faults[0];
      faults := if faults == [] then [] else faults[1..];
      if raises {
        return Err(());
      }
      var entry := Find(entries, key);
      if entry.None? {
        return Ok(None);
      }
      entries := Remove(entries, key);
      if entry.value.expires < now {
        return Ok(None);
      }
      entries := entries + [(key, entry.value)];
      r := Ok(Some(entry.value.payload));
    }

    method Set(key: string, payload: P, ttl: int, now: real) returns (r: Result<(), ()>)
      modifies this
      ensures (State(), r) == BackendSet(old(State()), key, payload, ttl, now)
      ensures (old(faults) != [] && old(faults)[0]) || maxEntries < 0 <==> r.Err?
      ensures old(faults) != [] && old(faults)[0] ==> entries == old(entries)
      ensures faults == if old(faults) == [] then [] else old(faults)[1..]
    {
      var raises := faults != [] && faults[0];
      faults := if faults == [] then [] else faults[1..];
      if raises {
        return Err(());
      }
      entries := Remove(entries, key) + [(key, Entry(now + ttl as real, payload))];
      while |entries| > maxEntries
        invariant faults == AfterFault(old(State())).faults
        invariant Evict(entries, maxEntries) == Store(old(entries), maxEntries, key, payload, ttl, now)
        decreases |entries|
      {
        if entries == [] {
          return Err(());
        }
        entries := entries[1..];
      }
      r := if maxEntries < 0 then Err(()) else Ok(());
    }
  }

  /* ---- elementary facts ---- */

  lemma KeysOfConcat<P>(a: Cache<P>, b: Cache<P>)
    ensures Keys(a + b) == Keys(a) + Keys(b)
  {
    forall k | k in Keys(a) + Keys(b) ensures k in Keys(a + b) {
      if k in Keys(a) {
        var i :| 0 <= i < |a| && a[i].0 == k;
        assert (a + b)[i].0 == k;
      } else {
        var i :| 0 <= i < |b| && b[i].0 == k;
        assert (a + b)[|a| + i].0 == k;
      }
    }
  }

  lemma KeysOfOne<P>(x: (string, Entry<P>))
    ensures Keys([x]) == {x.0}
  {
    assert [x][0].0 in Keys([x]);
  }

  lemma Snoc<P>(c: Cache<P>)
    requires c != []
    ensures c == c[..|c| - 1] + [c[|c| - 1]]
    ensures Keys(c) == Keys(c[..|c| - 1]) + {c[|c| - 1].0}
  {
    assert c == c[..|c| - 1] + [c[|c| - 1]];
    KeysOfConcat(c[..|c| - 1], [c[|c| - 1]]);
    KeysOfOne(c[|c| - 1]);
  }

  lemma FindSnoc<P>(c: Cache<P>, x: (string, Entry<P>), key: string)
    ensures Find(c + [x], key) == if x.0 == key then Some(x.1) else Find(c, key)
  {
    assert (c + [x])[..|c|] == c;
  }

  lemma RemoveSnoc<P>(c: Cache<P>, x: (string, Entry<P>), key: string)
    ensures Remove(c + [x], key) == if x.0 == key then Remove(c, key) else Remove(c, key) + [x]
  {
    assert (c + [x])[..|c|] == c;
  }

  lemma {:induction false} RemoveKeys<P>(c: Cache<P>, key: string)
    ensures Keys(Remove(c, key)) == Keys(c) - {key}
    ensures key !in Keys(c) ==> Remove(c, key) == c
    ensures |Remove(c, key)| <= |c|
  {
    if c != [] {
      var init, last := c[..|c| - 1], c[|c| - 1];
      Snoc(c);
      RemoveKeys(init, key);
      KeysOfConcat(Remove(init, key), [last]);
      KeysOfOne(last);
    }
  }

  lemma DistinctSnoc<P>(c: Cache<P>, x: (string, Entry<P>))
    ensures DistinctKeys(c + [x]) <==> DistinctKeys(c) && x.0 !in Keys(c)
  {
    var d := c + [x];
    if DistinctKeys(d) {
      forall i, j | 0 <= i < j < |c| ensures c[i].0 != c[j].0 { assert d[i].0 != d[j].0; }
      forall i | 0 <= i < |c| ensures c[i].0 != x.0 { assert d[i].0 != d[|c|].0; }
    }
  }

  lemma {:induction false} RemoveKeepsDistinct<P>(c: Cache<P>, key: string)
    requires DistinctKeys(c)
    ensures DistinctKeys(Remove(c, key))
    ensures key in Keys(c) ==> |Remove(c, key)| == |c| - 1
  {
    if c != [] {
      var init, last := c[..|c| - 1], c[|c| - 1];
      Snoc(c);
      DistinctSnoc(init, last);
      RemoveKeepsDistinct(init, key);
      RemoveKeys(init, key);
      DistinctSnoc(Remove(init, key), last);
    }
  }

  lemma {:induction false} EvictIsASuffix<P>(c: Cache<P>, max: int)
    ensures Evict(c, max) == if |c| <= max then c else if max < 0 then [] else c[|c| - max..]
  {
    if |c| > max && c != [] {
      EvictIsASuffix(c[1..], max);
    }
  }

  function Bound(max: int): nat {
    if max < 0 then 0 else max
  }

  lemma LookupKeepsDistinct<P>(c: Cache<P>, key: string, now: real)
    requires DistinctKeys(c)
    ensures DistinctKeys(Lookup(c, key, now).0) && |Lookup(c, key, now).0| <= |c|
  {
    RemoveKeys(c, key);
    RemoveKeepsDistinct(c, key);
    if key in Keys(c) { DistinctSnoc(Remove(c, key), (key, Find(c, key).value)); }
  }

  lemma StoreKeepsDistinct<P>(c: Cache<P>, max: int, key: string, payload: P, ttl: int, now: real)
    requires DistinctKeys(c)
    ensures DistinctKeys(Store(c, max, key, payload, ttl, now))
    ensures |Store(c, max, key, payload, ttl, now)| <= Bound(max)
  {
    RemoveKeys(c, key);
    RemoveKeepsDistinct(c, key);
    DistinctSnoc(Remove(c, key), (key, Entry(now + ttl as real, payload)));
    EvictIsASuffix(Remove(c, key) + [(key, Entry(now + ttl as real, payload))], max);
  }

  /* ---- runs ---- */

  datatype Op<P> = GetOp(key: string, now: real) | SetOp(key: string, now: real, payload: P, ttl: int)

  function Step<P>(c: Cache<P>, max: int, op: Op<P>): (Cache<P>, Option<P>) {
    match op
    case GetOp(key, now) => Lookup(c, key, now)
    case SetOp(key, now, payload, ttl) => (Store(c, max, key, payload, ttl, now), None)
  }

  /** The cache of capacity `max` after a sequence of calls, from empty. */
  function After<P>(max: int, ops: seq<Op<P>>): Cache<P> {
    if ops == [] then [] else Step(After(max, ops[..|ops| - 1]), max, ops[|ops| - 1]).0
  }

  /** What call `i` of the sequence returns. */
  function Answer<P>(max: int, ops: seq<Op<P>>, i: nat): Option<P>
    requires i < |ops|
  {
    Step(After(max, ops[..i]), max, ops[i]).1
  }

  /** Size bound and key uniqueness after every sequence of calls. */
  lemma {:induction false} AfterIsBounded<P>(max: int, ops: seq<Op<P>>)
    ensures DistinctKeys(After(max, ops)) && |After(max, ops)| <= Bound(max)
  {
    if ops != [] {
      AfterIsBounded(max, ops[..|ops| - 1]);
      var c := After(max, ops[..|ops| - 1]);
      match ops[|ops| - 1]
      case GetOp(key, now) => LookupKeepsDistinct(c, key, now);
      case SetOp(key, now, payload, ttl) => StoreKeepsDistinct(c, max, key, payload, ttl, now);
    }
  }
}
