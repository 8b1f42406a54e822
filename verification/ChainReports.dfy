/** What a chain reports. */
module ChainReports {
  // The layers that a configuration list makes, and what the operational fields and the log say
  // about a call: that they are true.

  import opened Wrappers
  import opened LruCache
  import opened Rankings
  import opened DecoratorChain

  // ---------------------------------------------------------------- the layers of a chain

  function Under<B>(s: Strategy<B>, n: nat): Strategy<B> {
    if n == 0 || s.Base? then s else Under(s.wrapped, n - 1)
  }

  /** Name `i` of the list is layer `i` from the inside, and a cache has the backend and lifetime given for it. */
  lemma {:induction false} LayersAreTheList<B>(base: Strategy<B>, chain: seq<string>, backends: nat -> B,
      ttls: nat -> int, i: nat)
    requires i < |chain| && Chain(base, chain, backends, ttls).Ok?
    ensures var layer := Under(Chain(base, chain, backends, ttls).value, |chain| - 1 - i);
            && (chain[i] == "caching" <==> layer.Caching?)
            && (chain[i] == "timing" <==> layer.Timing?)
            && (chain[i] == "logging" <==> layer.Logging?)
            && (layer.Caching? ==> layer.backend == backends(i) && layer.ttl == ttls(i))
    decreases |chain|
  {
    var n := |chain| - 1;
    if i < n {
      LayersAreTheList(base, chain[..n], backends, ttls, i);
    }
  }

  lemma {:induction false} BaseIsInside<B>(base: Strategy<B>, chain: seq<string>, backends: nat -> B, ttls: nat -> int)
    requires Chain(base, chain, backends, ttls).Ok?
    ensures Under(Chain(base, chain, backends, ttls).value, |chain|) == base
  {
    if chain != [] {
      BaseIsInside(base, chain[..|chain| - 1], backends, ttls);
    }
  }

  ghost predicate KnownBackend<B>(s: Strategy<B>, w: World<B>) {
    s.Caching? ==> s.backend in w.backends
  }

  /** Every cache of the chain has its backend among those of the world. */
  ghost predicate AllKnown<B>(s: Strategy<B>, w: World<B>) {
    forall n: nat :: KnownBackend(Under(s, n), w)
  }

  lemma {:induction false} ScopedUnder<B>(s: Strategy<B>, w: World<B>, n: nat)
    requires Scoped(s, w)
    ensures KnownBackend(Under(s, n), w)
    decreases n
  {
    if n > 0 && !s.Base? { ScopedUnder(s.wrapped, w, n - 1); }
  }

  lemma {:induction false} AllKnownIsScoped<B>(s: Strategy<B>, w: World<B>)
    requires AllKnown(s, w)
    ensures Scoped(s, w)
    decreases s
  {
    assert KnownBackend(Under(s, 0), w);
    if !s.Base? {
      forall n: nat ensures KnownBackend(Under(s.wrapped, n), w) {
        assert Under(s, n + 1) == Under(s.wrapped, n);
        assert KnownBackend(Under(s, n + 1), w);
      }
      AllKnownIsScoped(s.wrapped, w);
    }
  }

  /** A chain is served by the backends of a world exactly when it has the backend of each of its caches. */
  lemma ScopedExactly<B>(s: Strategy<B>, w: World<B>)
    ensures Scoped(s, w) <==> AllKnown(s, w)
  {
    if Scoped(s, w) {
      forall n: nat ensures KnownBackend(Under(s, n), w) { ScopedUnder(s, w, n); }
    }
    if AllKnown(s, w) { AllKnownIsScoped(s, w); }
  }

  // ---------------------------------------------------------------- latency

  /** A timing decorator stands outside all caches. */
  predicate TimedOutside<B>(s: Strategy<B>) {
    s.Timing? || (s.Logging? && TimedOutside(s.wrapped))
  }

  predicate Untimed<B>(s: Strategy<B>) {
    s.Base? || (!s.Timing? && Untimed(s.wrapped))
  }

  ghost predicate Noted(ctx: Context, field: string) {
    ctx.Open? && field in ctx.fields
  }

  /** In an open context a timed call leaves its latency, failed calls too. */
  lemma {:induction false} LatencyIsRecorded<B>(s: Strategy<B>, f: Features, k: int, ctx: Context, w: World<B>,
      clock: nat -> real)
    requires Scoped(s, w) && TimedOutside(s) && ctx.Open?
    ensures Noted(Predict(s, f, k, ctx, w, clock).ctx, "latency_ms")
    decreases s
  {
    if s.Timing? {
      ContextIsRestored(s.wrapped, f, k, ctx, w, clock);
    } else {
      LatencyIsRecorded(s.wrapped, f, k, ctx, w, clock);
    }
  }

  lemma {:induction false} NoLatencyWithoutTiming<B>(s: Strategy<B>, f: Features, k: int, ctx: Context, w: World<B>,
      clock: nat -> real)
    requires Scoped(s, w) && Untimed(s) && !Noted(ctx, "latency_ms")
    ensures !Noted(Predict(s, f, k, ctx, w, clock).ctx, "latency_ms")
    decreases s
  {
    match s
    case Base(_, _, _) =>
    case Logging(inner) => NoLatencyWithoutTiming(inner, f, k, Enter(ctx), w, clock);
    case Caching(inner, b, _) =>
      var (w1, cached, c1) := Read(w, b, RequestKey(s, f, k), Enter(ctx), clock);
      if cached.None? {
        ScopeStays(inner, w, w1);
        NoLatencyWithoutTiming(inner, f, k, Record(c1, "cache_hit", false), w1, clock);
      }
  }

  // ---------------------------------------------------------------- hits and errors of one cache

  /** Whether call `n` from now to the backend raises. */
  ghost predicate Raises<P>(b: Backend<P>, n: nat) {
    n < |b.faults| && b.faults[n]
  }

  /** The backend answers, and with a ranking that has not expired. */
  ghost predicate Answers(b: Backend<Payload>, key: string, now: real, ranking: Ranking) {
    && !Raises(b, 0)
    && Find(b.cache, key).Some? && now <= Find(b.cache, key).value.expires
    && Find(b.cache, key).value.payload == Stored(ranking)
  }

  /** It raises, or answers with something that does not decode. */
  ghost predicate ReadIsAnError(b: Backend<Payload>, key: string, now: real) {
    Raises(b, 0) ||
    (Find(b.cache, key).Some? && now <= Find(b.cache, key).value.expires && Find(b.cache, key).value.payload.Corrupt?)
  }

  /** The write after the read raises, or its eviction does. */
  ghost predicate WriteIsAnError<P>(b: Backend<P>) {
    Raises(b, 1) || b.max < 0
  }

  /** What is noted about the only cache: hit or not, and whether a read or a write failed. */
  ghost predicate TellsOf(fields: map<string, bool>, erred: bool, b: Backend<Payload>, key: string, now: real,
      answer: Outcome) {
    var hit := exists ranking :: Answers(b, key, now, ranking);
    && "cache_hit" in fields && (fields["cache_hit"] <==> hit)
    && ("cache_error" in fields <==> erred || ReadIsAnError(b, key, now) ||
                                     (!hit && answer.Ok? && WriteIsAnError(b)))
  }

  lemma ReadTells<B>(w: World<B>, b: B, key: string, ctx: Context, clock: nat -> real)
    requires b in w.backends && ctx.Open?
    ensures var (w', cached, ctx') := Read(w, b, key, ctx, clock);
            var before, now := w.backends[b], clock(w.ticks);
            && (forall ranking :: cached == Some(ranking) <==> Answers(before, key, now, ranking))
            && ctx' == (if ReadIsAnError(before, key, now) then Open(ctx.fields["cache_error" := true]) else ctx)
            && b in w'.backends && w'.backends[b].max == before.max
            && w'.backends[b].faults == if before.faults == [] then [] else before.faults[1..]
  {
  }

  lemma WriteTells<B>(w: World<B>, b: B, key: string, ranking: Ranking, ttl: int, ctx: Context, clock: nat -> real)
    requires b in w.backends && ctx.Open?
    ensures Write(w, b, key, ranking, ttl, ctx, clock).1 ==
              if Raises(w.backends[b], 0) || w.backends[b].max < 0 then Open(ctx.fields["cache_error" := true]) else ctx
  {
  }

  /** Without caches a call asks no backend and notes nothing but latencies. */
  lemma {:induction false} CachelessCall<B>(s: Strategy<B>, f: Features, k: int, ctx: Context, w: World<B>,
      clock: nat -> real)
    requires Scoped(s, w) && Cachings(s) == 0 && ctx.Open?
    ensures var r := Predict(s, f, k, ctx, w, clock);
            && r.world == w && r.outcome == Unwrap(s).answer(f, k) && r.ctx.Open?
            && (r.ctx == ctx || r.ctx == Open(ctx.fields["latency_ms" := true]))
    decreases s
  {
    if !s.Base? { CachelessCall(s.wrapped, f, k, ctx, w, clock); }
  }

  lemma MissTells<B>(s: Strategy<B>, f: Features, k: int, outer: Context, ctx: Context, w: World<B>,
      clock: nat -> real)
    requires s.Caching? && Cachings(s) == 1 && Scoped(s, w) && ctx.Open? && outer.Open?
    ensures var r := Missed(s, f, k, outer, ctx, w, clock);
            var b := w.backends[s.backend];
            && r.outcome == Unwrap(s).answer(f, k) && r.ctx.Open?
            && ("cache_hit" in r.ctx.fields <==> "cache_hit" in ctx.fields)
            && ("cache_hit" in ctx.fields ==> r.ctx.fields["cache_hit"] == ctx.fields["cache_hit"])
            && ("cache_error" in r.ctx.fields <==>
                "cache_error" in ctx.fields || (r.outcome.Ok? && (Raises(b, 0) || b.max < 0)))
  {
    CachelessCall(s.wrapped, f, k, ctx, w, clock);
    var r := Predict(s.wrapped, f, k, ctx, w, clock);
    if r.outcome.Ok? {
      WriteTells(r.world, s.backend, RequestKey(s, f, k), r.outcome.value, s.ttl, r.ctx, clock);
    }
  }

  lemma CachedCallTells<B>(s: Strategy<B>, f: Features, k: int, ctx: Context, w: World<B>, clock: nat -> real)
    requires s.Caching? && Cachings(s) == 1 && Scoped(s, w) && ctx.Open?
    ensures var r := Predict(s, f, k, ctx, w, clock);
            && r.ctx.Open?
            && TellsOf(r.ctx.fields, "cache_error" in ctx.fields, w.backends[s.backend], RequestKey(s, f, k),
                       clock(w.ticks), Unwrap(s).answer(f, k))
  {
    var key, b, now := RequestKey(s, f, k), w.backends[s.backend], clock(w.ticks);
    ReadTells(w, s.backend, key, ctx, clock);
    var (w1, cached, c1) := Read(w, s.backend, key, ctx, clock);
    if cached.Some? {
      assert Answers(b, key, now, cached.value);
    } else {
      ScopeStays(s, w, w1);
      MissTells(s, f, k, ctx, Record(c1, "cache_hit", false), w1, clock);
      assert Raises(w1.backends[s.backend], 0) <==> Raises(b, 1);
    }
  }

  /**
   The fields of a call through one cache, whatever stands around it, are true: `cache_hit` says
   whether the backend answered with a ranking in time, `cache_error` whether it failed.
   */
  lemma {:induction false} FieldsAreTrue<B>(s: Strategy<B>, f: Features, k: int, ctx: Context, w: World<B>,
      clock: nat -> real)
    requires Cachings(s) == 1 && Scoped(s, w) && ctx.Open?
    ensures Outermost(s).backend in w.backends
    ensures var r := Predict(s, f, k, ctx, w, clock);
            && r.ctx.Open?
            && TellsOf(r.ctx.fields, "cache_error" in ctx.fields, w.backends[Outermost(s).backend],
                       RequestKey(s, f, k), clock(w.ticks), Unwrap(s).answer(f, k))
    decreases s
  {
    if s.Caching? {
      CachedCallTells(s, f, k, ctx, w, clock);
    } else {
      FieldsAreTrue(s.wrapped, f, k, ctx, w, clock);
    }
  }

  // ---------------------------------------------------------------- the log

  /** Every record names the request and the identity of the base. */
  lemma {:induction false} RecordsNameTheRequest<B>(s: Strategy<B>, f: Features, k: int, ctx: Context, w: World<B>,
      clock: nat -> real)
    requires Scoped(s, w)
    ensures forall r :: r in Predict(s, f, k, ctx, w, clock).log ==>
              r.features == f && r.k == k && r.id == Unwrap(s).id && r.version == Unwrap(s).version
    decreases s
  {
    IdentityOfBase(s);
    match s
    case Base(_, _, _) =>
    case Timing(inner) => RecordsNameTheRequest(inner, f, k, Enter(ctx), w, clock);
    case Logging(inner) => RecordsNameTheRequest(inner, f, k, Enter(ctx), w, clock);
    case Caching(inner, b, _) =>
      var (w1, cached, c1) := Read(w, b, RequestKey(s, f, k), Enter(ctx), clock);
      if cached.None? {
        ScopeStays(inner, w, w1);
        RecordsNameTheRequest(inner, f, k, Record(c1, "cache_hit", false), w1, clock);
      }
  }

  /** Logging decorators of a chain, and those that stand outside all its caches. */
  function Loggings<B>(s: Strategy<B>): nat {
    if s.Base? then 0 else Loggings(s.wrapped) + if s.Logging? then 1 else 0
  }

  function LoggingsOutside<B>(s: Strategy<B>): nat {
    if s.Base? || s.Caching? then 0 else LoggingsOutside(s.wrapped) + if s.Logging? then 1 else 0
  }

  /** Each logging decorator outside the caches emits one record, whatever the outcome, and no other emits two. */
  lemma {:induction false} OneRecordEach<B>(s: Strategy<B>, f: Features, k: int, ctx: Context, w: World<B>,
      clock: nat -> real)
    requires Scoped(s, w)
    ensures LoggingsOutside(s) <= |Predict(s, f, k, ctx, w, clock).log| <= Loggings(s)
    ensures Cachings(s) == 0 ==> LoggingsOutside(s) == Loggings(s)
    decreases s
  {
    match s
    case Base(_, _, _) =>
    case Timing(inner) => OneRecordEach(inner, f, k, Enter(ctx), w, clock);
    case Logging(inner) => OneRecordEach(inner, f, k, Enter(ctx), w, clock);
    case Caching(inner, b, _) =>
      var (w1, cached, c1) := Read(w, b, RequestKey(s, f, k), Enter(ctx), clock);
      if cached.None? {
        ScopeStays(inner, w, w1);
        OneRecordEach(inner, f, k, Record(c1, "cache_hit", false), w1, clock);
      }
  }

  lemma {:induction false} IdentityOfBase<B>(s: Strategy<B>)
    ensures StrategyId(s) == Unwrap(s).id && ModelVersion(s) == Unwrap(s).version
  {
    if !s.Base? { IdentityOfBase(s.wrapped); }
  }

  /**
   The record of an outermost logging decorator, with a context open or not: it has the outcome of
   the call, the latency when the call was timed outside its cache, and true fields about one cache.
   */
  lemma LogIsTrue<B>(s: Strategy<B>, f: Features, k: int, w: World<B>, clock: nat -> real)
    requires s.Logging? && Scoped(s, w)
    ensures var r := Predict(s, f, k, Closed, w, clock);
            && r.log != [] && r.log[|r.log| - 1].outcome == r.outcome
            && (TimedOutside(s) ==> "latency_ms" in r.log[|r.log| - 1].fields)
            && (Untimed(s) ==> "latency_ms" !in r.log[|r.log| - 1].fields)
            && (Cachings(s) == 1 ==>
                  && Outermost(s).backend in w.backends
                  && TellsOf(r.log[|r.log| - 1].fields, false, w.backends[Outermost(s).backend],
                             RequestKey(s, f, k), clock(w.ticks), Unwrap(s).answer(f, k)))
  {
    var empty := Open(map[]);
    ContextIsRestored(s.wrapped, f, k, empty, w, clock);
    if TimedOutside(s) { LatencyIsRecorded(s.wrapped, f, k, empty, w, clock); }
    if Untimed(s) { NoLatencyWithoutTiming(s.wrapped, f, k, empty, w, clock); }
    if Cachings(s) == 1 { FieldsAreTrue(s.wrapped, f, k, empty, w, clock); }
  }
}
