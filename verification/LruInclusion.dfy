/** Larger caches miss less. */
module LruInclusion {
  // Two caches of different capacity driven by the same calls: the larger contains the smaller.

  import opened LruCache

  /** The entries whose key is in `ks`, in order. */
  function Restrict<P>(c: Cache<P>, ks: set<string>): Cache<P> {
    if c == [] then []
    else if c[|c| - 1].0 in ks then Restrict(c[..|c| - 1], ks) + [c[|c| - 1]]
    else Restrict(c[..|c| - 1], ks)
  }

  lemma RestrictSnoc<P>(c: Cache<P>, x: (string, Entry<P>), ks: set<string>)
    ensures Restrict(c + [x], ks) == if x.0 in ks then Restrict(c, ks) + [x] else Restrict(c, ks)
  {
    assert (c + [x])[..|c|] == c;
  }

  /**
   The smaller cache is the larger one restricted to its own keys: same payloads, same expiries and
   same recency order. The larger holds at most `slack` entries more.
   */
  ghost predicate Included<P>(small: Cache<P>, big: Cache<P>, slack: nat) {
    DistinctKeys(small) && DistinctKeys(big) && small == Restrict(big, Keys(small)) && |big| <= |small| + slack
  }

  lemma {:induction false} RestrictConcat<P>(a: Cache<P>, b: Cache<P>, ks: set<string>)
    ensures Restrict(a + b, ks) == Restrict(a, ks) + Restrict(b, ks)
  {
    if b == [] {
      assert a + b == a;
    } else {
      assert (a + b)[..|a + b| - 1] == a + b[..|b| - 1];
      RestrictConcat(a, b[..|b| - 1], ks);
    }
  }

  lemma {:induction false} RestrictKeys<P>(c: Cache<P>, ks: set<string>)
    ensures Keys(Restrict(c, ks)) == Keys(c) * ks
  {
    if c != [] {
      Snoc(c);
      RestrictKeys(c[..|c| - 1], ks);
      KeysOfConcat(Restrict(c[..|c| - 1], ks), [c[|c| - 1]]);
      KeysOfOne(c[|c| - 1]);
    }
  }

  lemma {:induction false} RestrictOfRemove<P>(c: Cache<P>, ks: set<string>, key: string)
    ensures Restrict(Remove(c, key), ks - {key}) == Remove(Restrict(c, ks), key)
    ensures Restrict(c, ks - {key}) == Remove(Restrict(c, ks), key)
  {
    if c != [] {
      var init, last := c[..|c| - 1], c[|c| - 1];
      RestrictOfRemove(init, ks, key);
      RestrictSnoc(Remove(init, key), last, ks - {key});
      RemoveSnoc(Restrict(init, ks), last, key);
    }
  }

  lemma RestrictOne<P>(x: (string, Entry<P>), ks: set<string>)
    ensures Restrict([x], ks) == if x.0 in ks then [x] else []
  {
    assert [x][..0] == [];
  }

  lemma {:induction false} FindInRestriction<P>(c: Cache<P>, ks: set<string>, key: string)
    requires key in ks
    ensures Find(Restrict(c, ks), key) == Find(c, key)
  {
    if c != [] {
      FindInRestriction(c[..|c| - 1], ks, key);
      FindSnoc(Restrict(c[..|c| - 1], ks), c[|c| - 1], key);
    }
  }

  /** Moving or adding one entry at the recent end of both caches keeps the inclusion. */
  lemma AppendBoth<P>(small: Cache<P>, big: Cache<P>, slack: nat, x: (string, Entry<P>))
    requires Included(small, big, slack)
    ensures Included(Remove(small, x.0) + [x], Remove(big, x.0) + [x], slack)
  {
    var s, b := Remove(small, x.0), Remove(big, x.0);
    AppendSizes(small, x);
    AppendSizes(big, x);
    RestrictKeys(big, Keys(small));
    RestrictSnoc(b, x, Keys(s + [x]));
    RestrictOfRemove(big, Keys(small), x.0);
    RemoveKeys(big, x.0);
    RestrictIrrelevant(b, Keys(s), x.0);
    assert Keys(s + [x]) == Keys(s) + {x.0};
  }

  lemma AppendSizes<P>(c: Cache<P>, x: (string, Entry<P>))
    requires DistinctKeys(c)
    ensures DistinctKeys(Remove(c, x.0) + [x])
    ensures Keys(Remove(c, x.0)) == Keys(c) - {x.0} && Keys(Remove(c, x.0) + [x]) == Keys(c) - {x.0} + {x.0}
    ensures |Remove(c, x.0) + [x]| == if x.0 in Keys(c) then |c| else |c| + 1
  {
    RemoveKeys(c, x.0);
    RemoveKeepsDistinct(c, x.0);
    DistinctSnoc(Remove(c, x.0), x);
    KeysOfConcat(Remove(c, x.0), [x]);
    KeysOfOne(x);
  }

  /** A key that is not there does not matter. */
  lemma {:induction false} RestrictIrrelevant<P>(c: Cache<P>, ks: set<string>, key: string)
    requires key !in Keys(c)
    ensures Restrict(c, ks + {key}) == Restrict(c, ks)
    ensures Restrict(c, ks - {key}) == Restrict(c, ks)
  {
    if c != [] {
      Snoc(c);
      RestrictIrrelevant(c[..|c| - 1], ks, key);
    }
  }

  lemma RestrictFirst<P>(c: Cache<P>, ks: set<string>)
    requires c != []
    ensures Restrict(c, ks) == if c[0].0 in ks then [c[0]] + Restrict(c[1..], ks) else Restrict(c[1..], ks)
  {
    assert c == [c[0]] + c[1..];
    RestrictConcat([c[0]], c[1..], ks);
    RestrictOne(c[0], ks);
  }

  lemma TailKeys<P>(c: Cache<P>)
    requires c != [] && DistinctKeys(c)
    ensures DistinctKeys(c[1..]) && Keys(c[1..]) == Keys(c) - {c[0].0}
  {
    assert c == [c[0]] + c[1..];
    KeysOfConcat([c[0]], c[1..]);
    KeysOfOne(c[0]);
    forall i, j | 0 <= i < j < |c[1..]| ensures c[1..][i].0 != c[1..][j].0 { assert c[i + 1].0 != c[j + 1].0; }
    forall i | 0 <= i < |c[1..]| ensures c[1..][i].0 != c[0].0 { assert c[1..][i] == c[i + 1]; }
  }

  /** When the smaller cache evicts, the larger one's oldest entry is that entry or a foreign one. */
  lemma DropOldest<P>(small: Cache<P>, big: Cache<P>, slack: nat)
    requires Included(small, big, slack) && small != []
    ensures big != []
    ensures small[1..] == Restrict(big, Keys(small[1..]))
    ensures small[1..] == Restrict(big[1..], Keys(small[1..]))
  {
    TailKeys(small);
    RestrictOfRemove(big, Keys(small), small[0].0);
    RemoveFirst(small);
    RestrictFirst(big, Keys(small));
    RestrictFirst(big, Keys(small[1..]));
  }

  lemma {:induction false} RemoveFirst<P>(c: Cache<P>)
    requires c != [] && DistinctKeys(c)
    ensures Remove(c, c[0].0) == c[1..]
  {
    if |c| > 1 {
      RemoveFirst(c[..|c| - 1]);
      assert c[..|c| - 1][1..] + [c[|c| - 1]] == c[1..];
    }
  }

  lemma EvictBoth<P>(small: Cache<P>, big: Cache<P>, n: nat, m: nat)
    requires n <= m && Included(small, big, m - n) && |small| <= n + 1 && |big| <= m + 1
    ensures Included(Evict(small, n), Evict(big, m), m - n)
  {
    EvictIsASuffix(small, n);
    EvictIsASuffix(big, m);
    if |small| == n + 1 {
      DropOldest(small, big, m - n);
      TailKeys(small);
      TailKeys(big);
    }
  }

  lemma LookupKeepsInclusion<P>(small: Cache<P>, big: Cache<P>, slack: nat, key: string, now: real)
    requires Included(small, big, slack)
    ensures Included(Lookup(small, key, now).0, Lookup(big, key, now).0, slack)
    ensures Lookup(small, key, now).1.Some? ==> Lookup(big, key, now).1 == Lookup(small, key, now).1
  {
    RemoveKeys(small, key);
    RemoveKeys(big, key);
    RemoveKeepsDistinct(small, key);
    RemoveKeepsDistinct(big, key);
    RestrictKeys(big, Keys(small));
    RestrictOfRemove(big, Keys(small), key);
    if key in Keys(small) {
      FindInRestriction(big, Keys(small), key);
      AppendBoth(small, big, slack, (key, Find(small, key).value));
    } else if key in Keys(big) {
      var x := (key, Find(big, key).value);
      assert Keys(small) - {key} == Keys(small);
      RestrictSnoc(Remove(big, key), x, Keys(small));
      AppendSizes(big, x);
    }
  }

  lemma StoreKeepsInclusion<P>(small: Cache<P>, big: Cache<P>, n: nat, m: nat, key: string, payload: P, ttl: int,
      now: real)
    requires n <= m && Included(small, big, m - n) && |small| <= n && |big| <= m
    ensures Included(Store(small, n, key, payload, ttl, now), Store(big, m, key, payload, ttl, now), m - n)
  {
    var x := (key, Entry(now + ttl as real, payload));
    AppendSizes(small, x);
    AppendSizes(big, x);
    AppendBoth(small, big, m - n, x);
    EvictBoth(Remove(small, key) + [x], Remove(big, key) + [x], n, m);
  }

  /**
   LRU inclusion: after any sequence of gets and sets, on any clock, the cache of capacity `n` is
   the restriction of the cache of capacity `m >= n` to its keys.
   */
  lemma {:induction false} LargerContainsSmaller<P>(n: nat, m: nat, ops: seq<Op<P>>)
    requires n <= m
    ensures Included(After(n, ops), After(m, ops), m - n)
  {
    if ops != [] {
      var before := ops[..|ops| - 1];
      LargerContainsSmaller(n, m, before);
      AfterIsBounded(n, before);
      AfterIsBounded(m, before);
      match ops[|ops| - 1]
      case GetOp(key, now) => LookupKeepsInclusion(After(n, before), After(m, before), m - n, key, now);
      case SetOp(key, now, payload, ttl) =>
        StoreKeepsInclusion(After(n, before), After(m, before), n, m, key, payload, ttl, now);
    }
  }

  /** The larger cache never misses where the smaller hits, and answers the same payload. */
  lemma LargerNeverMissesMore<P>(n: nat, m: nat, ops: seq<Op<P>>, i: nat)
    requires n <= m && i < |ops| && Answer(n, ops, i).Some?
    ensures Answer(m, ops, i) == Answer(n, ops, i)
  {
    LargerContainsSmaller(n, m, ops[..i]);
    match ops[i]
    case GetOp(key, now) => LookupKeepsInclusion(After(n, ops[..i]), After(m, ops[..i]), m - n, key, now);
    case SetOp(_, _, _, _) =>
  }
}
