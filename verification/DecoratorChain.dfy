/** Operational decorators. */
module DecoratorChain {
  // The operational decorators around a strategy: caching, timing and logging, in any order.

  import opened Wrappers
  import opened LruCache
  import opened CacheKeys
  import opened Rankings

  /** What a strategy sees of a user; the cache key holds the identifier only. */
  datatype Features = Features(userId: int, seen: seq<int>, category: Option<string>, storeVersion: string)

  type Outcome = Result<Ranking, Error>

  /** What a backend holds under a key: a ranking, or something that does not decode. */
  datatype Payload = Stored(ranking: Ranking) | Corrupt

  /** A strategy at the centre, and the wrappers around it; `B` identifies cache backends. */
  datatype Strategy<B> =
    | Base(id: string, version: string, answer: (Features, int) -> Outcome)
    | Caching(wrapped: Strategy<B>, backend: B, ttl: int)
    | Timing(wrapped: Strategy<B>)
    | Logging(wrapped: Strategy<B>)

  function Unwrap<B>(s: Strategy<B>): (base: Strategy<B>)
    ensures base.Base?
  {
    if s.Base? then s else Unwrap(s.wrapped)
  }

  function StrategyId<B>(s: Strategy<B>): string {
    if s.Base? then s.id else StrategyId(s.wrapped)
  }

  function ModelVersion<B>(s: Strategy<B>): string {
    if s.Base? then s.version else ModelVersion(s.wrapped)
  }

  /** The operational context variable. */
  datatype Context = Closed | Open(fields: map<string, bool>)

  function Enter(ctx: Context): Context {
    if ctx.Closed? then Open(map[]) else ctx
  }

  /** Leaving a `with` block resets the variable only where the block opened it. */
  function Leave(outer: Context, inner: Context): Context {
    if outer.Closed? then Closed else inner
  }

  function Record(ctx: Context, field: string, value: bool): Context {
    if ctx.Closed? then ctx else Open(ctx.fields[field := value])
  }

  /** The shared backends, and how many times the clock was read. */
  datatype World<B> = World(backends: map<B, Backend<Payload>>, ticks: nat)

  predicate Scoped<B>(s: Strategy<B>, w: World<B>) {
    match s
    case Base(_, _, _) => true
    case Caching(inner, b, _) => b in w.backends && Scoped(inner, w)
    case Timing(inner) => Scoped(inner, w)
    case Logging(inner) => Scoped(inner, w)
  }

  /** `_read`: every failure is a miss. */
  function Read<B>(w: World<B>, b: B, key: string, ctx: Context, clock: nat -> real): (World<B>, Option<Ranking>,
      Context)
    requires b in w.backends
  {
    var (backend, r) := BackendGet(w.backends[b], key, clock(w.ticks));
    var w' := World(w.backends[b := backend], w.ticks + 1);
    if r.Err? then (w', None, Record(ctx, "cache_error", true))
    else if r.value.None? then (w', None, ctx)
    else if r.value.value.Corrupt? then (w', None, Record(ctx, "cache_error", true))
    else (w', Some(r.value.value.ranking), ctx)
  }

  /** `_write`: every failure is a no-op. */
  function Write<B>(w: World<B>, b: B, key: string, ranking: Ranking, ttl: int, ctx: Context,
      clock: nat -> real): (World<B>, Context)
    requires b in w.backends
  {
    var (backend, r) := BackendSet(w.backends[b], key, Stored(ranking), ttl, clock(w.ticks));
    (World(w.backends[b := backend], w.ticks + 1), if r.Err? then Record(ctx, "cache_error", true) else ctx)
  }

  /** What a logging decorator emits: outcome, request, identity, and the fields collected so far. */
  datatype LogRecord =
    LogRecord(outcome: Outcome, features: Features, k: int, id: string, version: string, fields: map<string, bool>)

  datatype Served<B> = Served(outcome: Outcome, ctx: Context, world: World<B>, log: seq<LogRecord>)

  function Emitted<B>(s: Strategy<B>, f: Features, k: int, outcome: Outcome, ctx: Context): LogRecord {
    LogRecord(outcome, f, k, StrategyId(s), ModelVersion(s), if ctx.Open? then ctx.fields else map[])
  }

  function Predict<B>(s: Strategy<B>, f: Features, k: int, ctx: Context, w: World<B>,
      clock: nat -> real): (r: Served<B>)
    requires Scoped(s, w)
    ensures r.world.backends.Keys == w.backends.Keys
    decreases s, 1
  {
    match s
    case Base(_, _, answer) => Served(answer(f, k), ctx, w, [])
    case Timing(inner) =>
      var r := Predict(inner, f, k, Enter(ctx), w, clock);
      r.(ctx := Leave(ctx, Record(r.ctx, "latency_ms", true)))
    case Logging(inner) =>
      var r := Predict(inner, f, k, Enter(ctx), w, clock);
      r.(ctx := Leave(ctx, r.ctx), log := r.log + [Emitted(s, f, k, r.outcome, r.ctx)])
    case Caching(inner, b, ttl) =>
      var (w1, cached, c1) := Read(w, b, RequestKey(s, f, k), Enter(ctx), clock);
      match cached
      case Some(ranking) => Served(Ok(ranking), Leave(ctx, Record(c1, "cache_hit", true)), w1, [])
      case None => ScopeStays(inner, w, w1); Missed(s, f, k, ctx, Record(c1, "cache_hit", false), w1, clock)
  }

  function RequestKey<B>(s: Strategy<B>, f: Features, k: int): string {
    CacheKey(StrategyId(s), f.userId, k, ModelVersion(s))
  }

  /** The rest of a caching `predict` after a miss; an exception leaves nothing in the cache. */
  function Missed<B>(s: Strategy<B>, f: Features, k: int, outer: Context, ctx: Context, w: World<B>,
      clock: nat -> real): (r: Served<B>)
    requires s.Caching? && s.backend in w.backends && Scoped(s.wrapped, w)
    ensures r.world.backends.Keys == w.backends.Keys
    decreases s, 0
  {
    var r := Predict(s.wrapped, f, k, ctx, w, clock);
    match r.outcome
    case Err(_) => r.(ctx := Leave(outer, r.ctx))
    case Ok(ranking) =>
      var (w2, c2) := Write(r.world, s.backend, RequestKey(s, f, k), ranking, s.ttl, r.ctx, clock);
      Served(r.outcome, Leave(outer, c2), w2, r.log)
  }

  lemma {:induction false} ScopeStays<B>(s: Strategy<B>, w: World<B>, w': World<B>)
    requires Scoped(s, w) && w.backends.Keys <= w'.backends.Keys
    ensures Scoped(s, w')
    decreases s
  {
    if !s.Base? { ScopeStays(s.wrapped, w, w'); }
  }

  /** The strategy identifiers in use, and the answers of all bases by identifier and model version. */
  datatype Bases = Bases(ids: set<string>, answer: (string, string, Features, int) -> Outcome)

  /** Rankings depend on the user only through the identifier the key holds. */
  ghost predicate AnsweredByUser(bases: Bases) {
    forall id, version, f: Features, g: Features, k ::
      f.userId == g.userId && bases.answer(id, version, f, k).Ok? ==>
        bases.answer(id, version, g, k) == bases.answer(id, version, f, k)
  }

  /** Moreover no two identifiers can share a key. */
  ghost predicate DeterminedByUser(bases: Bases) {
    Separate(bases.ids) && AnsweredByUser(bases)
  }

  ghost predicate Agrees<B>(s: Strategy<B>, bases: Bases) {
    && StrategyId(s) in bases.ids
    && forall f, k :: Unwrap(s).answer(f, k) == bases.answer(StrategyId(s), ModelVersion(s), f, k)
  }

  lemma AgreesInside<B>(s: Strategy<B>, bases: Bases)
    requires !s.Base? && Agrees(s, bases)
    ensures Agrees(s.wrapped, bases)
  {
    forall f, k
      ensures Unwrap(s.wrapped).answer(f, k) == bases.answer(StrategyId(s.wrapped), ModelVersion(s.wrapped), f, k)
    {
      assert Unwrap(s).answer(f, k) == bases.answer(StrategyId(s), ModelVersion(s), f, k);
    }
  }

  /** A stored ranking is the answer of every request that has its key. */
  ghost predicate SoundEntry(bases: Bases, key: string, p: Payload) {
    forall id, version, f: Features, k ::
      id in bases.ids && key == CacheKey(id, f.userId, k, version) && p.Stored? ==>
        bases.answer(id, version, f, k) == Ok(p.ranking)
  }

  ghost predicate SoundCache(bases: Bases, c: Cache<Payload>) {
    forall i :: 0 <= i < |c| ==> SoundEntry(bases, c[i].0, c[i].1.payload)
  }

  ghost predicate Sound<B>(bases: Bases, w: World<B>) {
    forall b :: b in w.backends ==> SoundCache(bases, w.backends[b].cache)
  }

  lemma {:induction false} RemoveKeepsSound(bases: Bases, c: Cache<Payload>, key: string)
    requires SoundCache(bases, c)
    ensures SoundCache(bases, Remove(c, key))
  {
    if c != [] { RemoveKeepsSound(bases, c[..|c| - 1], key); }
  }

  lemma {:induction false} FoundIsSound(bases: Bases, c: Cache<Payload>, key: string)
    requires SoundCache(bases, c) && Find(c, key).Some?
    ensures SoundEntry(bases, key, Find(c, key).value.payload)
  {
    if c[|c| - 1].0 != key { FoundIsSound(bases, c[..|c| - 1], key); }
  }

  lemma GetKeepsSound(bases: Bases, b: Backend<Payload>, key: string, now: real)
    requires SoundCache(bases, b.cache)
    ensures var (b', r) := BackendGet(b, key, now);
            && SoundCache(bases, b'.cache)
            && (r.Ok? && r.value.Some? ==> SoundEntry(bases, key, r.value.value))
  {
    RemoveKeepsSound(bases, b.cache, key);
    if Find(b.cache, key).Some? { FoundIsSound(bases, b.cache, key); }
  }

  lemma SetKeepsSound(bases: Bases, b: Backend<Payload>, key: string, p: Payload, ttl: int, now: real)
    requires SoundCache(bases, b.cache) && SoundEntry(bases, key, p)
    ensures SoundCache(bases, BackendSet(b, key, p, ttl, now).0.cache)
  {
    RemoveKeepsSound(bases, b.cache, key);
    EvictIsASuffix(Remove(b.cache, key) + [(key, Entry(now + ttl as real, p))], b.max);
  }

  /** Only the requests of one strategy, version, user and k share a key. */
  lemma AnswerIsSoundEntry(bases: Bases, id: string, version: string, f: Features, k: int, ranking: Ranking)
    requires DeterminedByUser(bases) && id in bases.ids && bases.answer(id, version, f, k) == Ok(ranking)
    ensures SoundEntry(bases, CacheKey(id, f.userId, k, version), Stored(ranking))
  {
    forall id', version', g: Features, k' |
      id' in bases.ids && CacheKey(id, f.userId, k, version) == CacheKey(id', g.userId, k', version')
      ensures bases.answer(id', version', g, k') == Ok(ranking)
    {
      SeparateKeys(bases.ids, id, f.userId, k, version, id', g.userId, k', version');
    }
  }

  lemma ReadKeepsSound<B>(bases: Bases, w: World<B>, b: B, key: string, ctx: Context, clock: nat -> real)
    requires b in w.backends && Sound(bases, w)
    ensures var (w', cached, _) := Read(w, b, key, ctx, clock);
            && Sound(bases, w') && w'.backends.Keys == w.backends.Keys
            && (cached.Some? ==> SoundEntry(bases, key, Stored(cached.value)))
  {
    GetKeepsSound(bases, w.backends[b], key, clock(w.ticks));
  }

  lemma WriteKeepsSound<B>(bases: Bases, w: World<B>, b: B, key: string, ranking: Ranking, ttl: int, ctx: Context,
      clock: nat -> real)
    requires b in w.backends && Sound(bases, w) && SoundEntry(bases, key, Stored(ranking))
    ensures Sound(bases, Write(w, b, key, ranking, ttl, ctx, clock).0)
  {
    SetKeepsSound(bases, w.backends[b], key, Stored(ranking), ttl, clock(w.ticks));
  }

  /** The context variable is as before: closed if it was closed, and otherwise only extended. */
  ghost predicate Restored(before: Context, after: Context) {
    (before.Closed? <==> after.Closed?) && (before.Open? ==> before.fields.Keys <= after.fields.Keys)
  }

  /** The context is restored by every call, whatever it answers. */
  lemma {:induction false} ContextIsRestored<B>(s: Strategy<B>, f: Features, k: int, ctx: Context, w: World<B>,
      clock: nat -> real)
    requires Scoped(s, w)
    ensures Restored(ctx, Predict(s, f, k, ctx, w, clock).ctx)
    decreases s
  {
    match s
    case Base(_, _, _) =>
    case Timing(inner) => ContextIsRestored(inner, f, k, Enter(ctx), w, clock);
    case Logging(inner) => ContextIsRestored(inner, f, k, Enter(ctx), w, clock);
    case Caching(inner, b, ttl) =>
      var key := CacheKey(StrategyId(s), f.userId, k, ModelVersion(s));
      var (w1, cached, c1) := Read(w, b, key, Enter(ctx), clock);
      if cached.None? {
        ScopeStays(inner, w, w1);
        ContextIsRestored(inner, f, k, Record(c1, "cache_hit", false), w1, clock);
      }
  }

  /**
   One call: whatever the chain, the shared backends, their failures and the clock, `predict`
   answers what the base answers, or raises what it raises, and keeps every backend sound.
   */
  lemma {:induction false} PredictIsTransparent<B>(s: Strategy<B>, f: Features, k: int, ctx: Context, w: World<B>,
                                                   clock: nat -> real, bases: Bases)
    requires Scoped(s, w) && DeterminedByUser(bases) && Agrees(s, bases) && Sound(bases, w)
    ensures var r := Predict(s, f, k, ctx, w, clock);
            r.outcome == bases.answer(StrategyId(s), ModelVersion(s), f, k) && Sound(bases, r.world)
    decreases s
  {
    if !s.Base? { AgreesInside(s, bases); }
    match s
    case Base(_, _, answer) => assert answer(f, k) == Unwrap(s).answer(f, k);
    case Timing(inner) => PredictIsTransparent(inner, f, k, Enter(ctx), w, clock, bases);
    case Logging(inner) => PredictIsTransparent(inner, f, k, Enter(ctx), w, clock, bases);
    case Caching(inner, b, ttl) =>
      var key := CacheKey(StrategyId(s), f.userId, k, ModelVersion(s));
      ReadKeepsSound(bases, w, b, key, Enter(ctx), clock);
      var (w1, cached, c1) := Read(w, b, key, Enter(ctx), clock);
      if cached.None? {
        ScopeStays(inner, w, w1);
        var c2 := Record(c1, "cache_hit", false);
        PredictIsTransparent(inner, f, k, c2, w1, clock, bases);
        var r := Predict(inner, f, k, c2, w1, clock);
        if r.outcome.Ok? {
          AnswerIsSoundEntry(bases, StrategyId(s), ModelVersion(s), f, k, r.outcome.value);
          WriteKeepsSound(bases, r.world, b, key, r.outcome.value, ttl, r.ctx, clock);
        }
      }
  }

  /** One request to one of the chains of the process. */
  datatype Call<B> = Call(chain: Strategy<B>, features: Features, k: int)

  function Serve<B>(calls: seq<Call<B>>, w: World<B>, clock: nat -> real): (r: (seq<Outcome>, World<B>))
    requires forall i :: 0 <= i < |calls| ==> Scoped(calls[i].chain, w)
    ensures |r.0| == |calls| && r.1.backends.Keys == w.backends.Keys
  {
    if calls == [] then ([], w)
    else
      var before := Serve(calls[..|calls| - 1], w, clock);
      var last := calls[|calls| - 1];
      ScopeStays(last.chain, w, before.1);
      var r := Predict(last.chain, last.features, last.k, Closed, before.1, clock);
      (before.0 + [r.outcome], r.world)
  }

  /**
   The decorators preserve meaning: over every history of requests to any number of chains sharing
   any backends, each answer is the answer of the chain's own base.
   */
  lemma {:induction false} ChainsPreserveMeaning<B>(calls: seq<Call<B>>, w: World<B>, clock: nat -> real, bases: Bases)
    requires DeterminedByUser(bases) && Sound(bases, w)
    requires forall i :: 0 <= i < |calls| ==> Scoped(calls[i].chain, w) && Agrees(calls[i].chain, bases)
    ensures var (outcomes, w') := Serve(calls, w, clock);
            && Sound(bases, w')
            && forall i :: 0 <= i < |calls| ==>
                             outcomes[i] == Unwrap(calls[i].chain).answer(calls[i].features, calls[i].k)
  {
    if calls != [] {
      var before, last := calls[..|calls| - 1], calls[|calls| - 1];
      ChainsPreserveMeaning(before, w, clock, bases);
      var w1 := Serve(before, w, clock).1;
      ScopeStays(last.chain, w, w1);
      PredictIsTransparent(last.chain, last.features, last.k, Closed, w1, clock, bases);
    }
  }

  /** For identifiers without a colon nothing else is needed than that the bases answer by user. */
  lemma ColonFreeChainsPreserveMeaning<B>(calls: seq<Call<B>>, w: World<B>, clock: nat -> real, bases: Bases)
    requires AnsweredByUser(bases) && Sound(bases, w) && forall id :: id in bases.ids ==> ColonFree(id)
    requires forall i :: 0 <= i < |calls| ==> Scoped(calls[i].chain, w) && Agrees(calls[i].chain, bases)
    ensures forall i :: 0 <= i < |calls| ==>
                          Serve(calls, w, clock).0[i] == Unwrap(calls[i].chain).answer(calls[i].features, calls[i].k)
  {
    ColonFreeIdsAreSeparate(bases.ids);
    ChainsPreserveMeaning(calls, w, clock, bases);
  }

  /* ---- building and taking apart a chain ---- */

  datatype BuildError = UnknownDecorator(identifier: string)

  /** One decorator; each "caching" of the list may have its own backend and lifetime, or share one. */
  function Wrap<B>(s: Strategy<B>, identifier: string, backend: B, ttl: int): Result<Strategy<B>, BuildError> {
    if identifier == "caching" then Ok(Caching(s, backend, ttl))
    else if identifier == "timing" then Ok(Timing(s))
    else if identifier == "logging" then Ok(Logging(s))
    else Err(UnknownDecorator(identifier))
  }

  /** Innermost first; the first unknown identifier is an error. */
  function Chain<B>(base: Strategy<B>, chain: seq<string>, backends: nat -> B,
      ttls: nat -> int): Result<Strategy<B>, BuildError> {
    if chain == [] then Ok(base)
    else
      var inner :- Chain(base, chain[..|chain| - 1], backends, ttls);
      Wrap(inner, chain[|chain| - 1], backends(|chain| - 1), ttls(|chain| - 1))
  }

  method BuildChain<B>(base: Strategy<B>, chain: seq<string>, backends: nat -> B, ttls: nat -> int)
      returns (r: Result<Strategy<B>, BuildError>)
    ensures r == Chain(base, chain, backends, ttls)
  {
    var decorated := base;
    for i := 0 to |chain|
      invariant Chain(base, chain[..i], backends, ttls) == Ok(decorated)
    {
      assert chain[..i + 1][..i] == chain[..i];
      var wrapped := Wrap(decorated, chain[i], backends(i), ttls(i));
      if wrapped.Err? {
        ChainStopsAtError(base, chain, backends, ttls, i + 1);
        return wrapped;
      }
      decorated := wrapped.value;
    }
    assert chain[..|chain|] == chain;
    r := Ok(decorated);
  }

  lemma {:induction false} ChainStopsAtError<B>(base: Strategy<B>, chain: seq<string>, backends: nat -> B,
      ttls: nat -> int, n: nat)
    requires n <= |chain| && Chain(base, chain[..n], backends, ttls).Err?
    ensures Chain(base, chain, backends, ttls) == Chain(base, chain[..n], backends, ttls)
  {
    if n < |chain| {
      var init := chain[..|chain| - 1];
      assert init[..n] == chain[..n];
      ChainStopsAtError(base, init, backends, ttls, n);
    } else {
      assert chain[..n] == chain;
    }
  }

  method UnwrapLoop<B>(s: Strategy<B>) returns (base: Strategy<B>)
    ensures base == Unwrap(s)
  {
    base := s;
    while !base.Base?
      invariant Unwrap(base) == Unwrap(s)
      decreases base
    {
      base := base.wrapped;
    }
  }

  predicate Known(identifier: string) {
    identifier == "caching" || identifier == "timing" || identifier == "logging"
  }

  /** A list builds exactly when it names known decorators only; the chain keeps the identity of its base. */
  lemma {:induction false} ChainKeepsTheBase<B>(base: Strategy<B>, chain: seq<string>, backends: nat -> B,
      ttls: nat -> int)
    ensures var r := Chain(base, chain, backends, ttls);
            && (r.Ok? <==> forall i :: 0 <= i < |chain| ==> Known(chain[i]))
            && (r.Ok? ==> Unwrap(r.value) == Unwrap(base) && StrategyId(r.value) == StrategyId(base) &&
                          ModelVersion(r.value) == ModelVersion(base) &&
                          (base.Base? ==> (Cachings(r.value) > 0 <==> "caching" in chain)))
  {
    if chain != [] {
      ChainKeepsTheBase(base, chain[..|chain| - 1], backends, ttls);
    }
  }

  /* ---- the exact condition ---- */

  /** How many caching decorators the strategy has, and the outermost one. */
  function Cachings<B>(s: Strategy<B>): nat {
    if s.Base? then 0 else Cachings(s.wrapped) + if s.Caching? then 1 else 0
  }

  function Outermost<B>(s: Strategy<B>): (c: Strategy<B>)
    requires Cachings(s) > 0
    ensures c.Caching?
  {
    if s.Caching? then s else Outermost(s.wrapped)
  }

  function FreshWorld<B>(bs: set<B>, max: B -> int): World<B> {
    World(map b | b in bs :: Backend([], max(b), []), 0)
  }

  /** Every history of requests to the chain is answered as its base would. */
  ghost predicate Transparent<B(!new)>(s: Strategy<B>, w: World<B>, clock: nat -> real)
    requires Scoped(s, w)
  {
    forall calls: seq<Call<B>> ::
      (forall i :: 0 <= i < |calls| ==> calls[i].chain == s) ==>
        forall i :: 0 <= i < |calls| ==>
          Serve(calls, w, clock).0[i] == Unwrap(s).answer(calls[i].features, calls[i].k)
  }

  /** Rankings served for one user and k are the same whatever the rest of the features. */
  ghost predicate AnswersByUser<B>(base: Strategy<B>)
    requires base.Base?
  {
    forall f: Features, g: Features, k ::
      f.userId == g.userId && base.answer(f, k).Ok? ==> base.answer(g, k) == base.answer(f, k)
  }

  lemma ServeTwo<B>(s: Strategy<B>, f: Features, g: Features, k: int, w: World<B>, w1: World<B>, clock: nat -> real)
    requires Scoped(s, w) && w1 == Predict(s, f, k, Closed, w, clock).world && Scoped(s, w1)
    ensures Serve([Call(s, f, k), Call(s, g, k)], w, clock).0[1] == Predict(s, g, k, Closed, w1, clock).outcome
  {
    var c1, c2 := Call(s, f, k), Call(s, g, k);
    var r1 := Predict(s, f, k, Closed, w, clock);
    var none: seq<Call<B>> := [];
    assert [c1, c2][..1] == [c1] && [c1][..0] == none;
    assert Serve([c1], w, clock) == ([] + [r1.outcome], w1);
  }

  /** Backends that neither fail nor are too small to hold an entry. */
  ghost predicate Working<B>(w: World<B>) {
    forall b :: b in w.backends ==> w.backends[b].faults == [] && w.backends[b].max >= 1
  }

  ghost predicate Without<B>(w: World<B>, key: string) {
    forall b :: b in w.backends ==> Find(w.backends[b].cache, key) == None
  }

  lemma ReadAbsent<B>(w: World<B>, b: B, key: string, ctx: Context, clock: nat -> real)
    requires b in w.backends && Working(w) && Without(w, key)
    ensures var (w', cached, _) := Read(w, b, key, ctx, clock);
            cached == None && w' == w.(ticks := w.ticks + 1)
  {
    var backend := w.backends[b];
    assert Lookup(backend.cache, key, clock(w.ticks)) == (backend.cache, None);
    assert w.backends[b := backend] == w.backends;
  }

  /** A working backend of at least one entry holds what was just written. */
  lemma StoredIsFound(c: Cache<Payload>, max: int, key: string, p: Payload, ttl: int, now: real)
    requires max >= 1
    ensures Find(Store(c, max, key, p, ttl, now), key) == Some(Entry(now + ttl as real, p))
  {
    var x := (key, Entry(now + ttl as real, p));
    var all := Remove(c, key) + [x];
    EvictIsASuffix(all, max);
    var kept := Evict(all, max);
    assert kept[|kept| - 1] == x;
  }

  lemma WriteIsFound<B>(w: World<B>, b: B, key: string, ranking: Ranking, ttl: int, ctx: Context, clock: nat -> real)
    requires b in w.backends && Working(w)
    ensures var w' := Write(w, b, key, ranking, ttl, ctx, clock).0;
            && Working(w') && w'.ticks == w.ticks + 1 && b in w'.backends
            && Find(w'.backends[b].cache, key) == Some(Entry(clock(w.ticks) + ttl as real, Stored(ranking)))
  {
    StoredIsFound(w.backends[b].cache, w.backends[b].max, key, Stored(ranking), ttl, clock(w.ticks));
  }

  /** What a first request leaves: its answer, and two ticks for every caching decorator. */
  ghost predicate PassesThrough<B>(s: Strategy<B>, f: Features, k: int, w: World<B>, r: Served<B>) {
    && r.outcome == Unwrap(s).answer(f, k)
    && Working(r.world)
    && (r.outcome.Ok? ==> r.world.ticks == w.ticks + 2 * Cachings(s))
  }

  /** With the key nowhere, a caching decorator goes on to what it wraps, one tick later. */
  lemma CachingMisses<B>(s: Strategy<B>, f: Features, k: int, ctx: Context, w: World<B>, clock: nat -> real,
      key: string)
      returns (w1: World<B>, c1: Context)
    requires s.Caching? && Scoped(s, w) && Working(w) && Without(w, key) && key == RequestKey(s, f, k)
    ensures w1 == w.(ticks := w.ticks + 1) && Scoped(s.wrapped, w1) && Working(w1) && Without(w1, key)
    ensures Predict(s, f, k, ctx, w, clock) == Missed(s, f, k, ctx, c1, w1, clock)
  {
    ReadAbsent(w, s.backend, key, Enter(ctx), clock);
    w1 := w.(ticks := w.ticks + 1);
    c1 := Record(Read(w, s.backend, key, Enter(ctx), clock).2, "cache_hit", false);
    ScopeStays(s.wrapped, w, w1);
  }

  /** With the key nowhere, a request misses at every level and reaches the base. */
  lemma {:induction false} FirstRequestMisses<B>(s: Strategy<B>, f: Features, k: int, ctx: Context, w: World<B>,
                                                 clock: nat -> real, key: string)
    requires Scoped(s, w) && Working(w) && Without(w, key) && key == RequestKey(s, f, k)
    ensures PassesThrough(s, f, k, w, Predict(s, f, k, ctx, w, clock))
    decreases s
  {
    match s
    case Base(_, _, _) =>
    case Timing(inner) => FirstRequestMisses(inner, f, k, Enter(ctx), w, clock, key);
    case Logging(inner) => FirstRequestMisses(inner, f, k, Enter(ctx), w, clock, key);
    case Caching(inner, b, ttl) =>
      var w1, c1 := CachingMisses(s, f, k, ctx, w, clock, key);
      FirstRequestMisses(inner, f, k, c1, w1, clock, key);
      MissPassesThrough(s, f, k, ctx, c1, w1, clock);
  }

  lemma MissPassesThrough<B>(s: Strategy<B>, f: Features, k: int, outer: Context, ctx: Context, w: World<B>,
      clock: nat -> real)
    requires s.Caching? && s.backend in w.backends && Scoped(s.wrapped, w)
    requires PassesThrough(s.wrapped, f, k, w, Predict(s.wrapped, f, k, ctx, w, clock))
    ensures var r := Missed(s, f, k, outer, ctx, w, clock);
            && r.outcome == Unwrap(s).answer(f, k) && Working(r.world)
            && (r.outcome.Ok? ==> r.world.ticks == w.ticks + 2 * Cachings(s) - 1)
  {
    var r := Predict(s.wrapped, f, k, ctx, w, clock);
    if r.outcome.Ok? {
      WriteIsFound(r.world, s.backend, RequestKey(s, f, k), r.outcome.value, s.ttl, r.ctx, clock);
    }
  }

  /** The cache of `c` holds the ranking, until the lifetime from the world's last tick is over. */
  ghost predicate HeldIn<B>(w: World<B>, c: Strategy<B>, key: string, ranking: Ranking, clock: nat -> real)
    requires c.Caching?
  {
    && c.backend in w.backends && w.ticks >= 1 && Working(w)
    && Find(w.backends[c.backend].cache, key) == Some(Entry(clock(w.ticks - 1) + c.ttl as real, Stored(ranking)))
  }

  /** A lifetime that began at the world's last tick lasts until the next one. */
  ghost predicate StillAlive<B>(w: World<B>, c: Strategy<B>, clock: nat -> real)
    requires c.Caching?
  {
    w.ticks >= 1 && clock(w.ticks) <= clock(w.ticks - 1) + c.ttl as real
  }

  lemma WriteIsHeld<B>(w: World<B>, c: Strategy<B>, key: string, ranking: Ranking, ctx: Context, clock: nat -> real)
    requires c.Caching? && c.backend in w.backends && Working(w)
    ensures HeldIn(Write(w, c.backend, key, ranking, c.ttl, ctx, clock).0, c, key, ranking, clock)
  {
    WriteIsFound(w, c.backend, key, ranking, c.ttl, ctx, clock);
  }

  lemma MissWrites<B>(s: Strategy<B>, f: Features, k: int, outer: Context, ctx: Context, w: World<B>,
      clock: nat -> real,
                      r: Served<B>)
    requires s.Caching? && s.backend in w.backends && Scoped(s.wrapped, w)
    requires r == Predict(s.wrapped, f, k, ctx, w, clock) && r.outcome.Ok?
    ensures Missed(s, f, k, outer, ctx, w, clock).world
         == Write(r.world, s.backend, RequestKey(s, f, k), r.outcome.value, s.ttl, r.ctx, clock).0
  {
  }

  lemma MissIsHeld<B>(s: Strategy<B>, f: Features, k: int, outer: Context, ctx: Context, w: World<B>,
                      clock: nat -> real, key: string, ranking: Ranking)
    requires s.Caching? && s.backend in w.backends && Scoped(s.wrapped, w)
    requires Working(w) && Without(w, key)
    requires key == RequestKey(s, f, k) && Unwrap(s.wrapped).answer(f, k) == Ok(ranking)
    ensures HeldIn(Missed(s, f, k, outer, ctx, w, clock).world, s, key, ranking, clock)
  {
    FirstRequestMisses(s.wrapped, f, k, ctx, w, clock, key);
    var r := Predict(s.wrapped, f, k, ctx, w, clock);
    MissWrites(s, f, k, outer, ctx, w, clock, r);
    WriteIsHeld(r.world, s, key, ranking, r.ctx, clock);
  }

  lemma CachedAnswerIsHeld<B>(s: Strategy<B>, f: Features, k: int, ctx: Context, w: World<B>,
                              clock: nat -> real, key: string, ranking: Ranking)
    requires s.Caching? && Scoped(s, w) && Working(w) && Without(w, key)
    requires key == RequestKey(s, f, k) && Unwrap(s.wrapped).answer(f, k) == Ok(ranking)
    ensures HeldIn(Predict(s, f, k, ctx, w, clock).world, s, key, ranking, clock)
  {
    var w1, c1 := CachingMisses(s, f, k, ctx, w, clock, key);
    MissIsHeld(s, f, k, ctx, c1, w1, clock, key, ranking);
  }

  /** After a first request its answer is in the outermost cache. */
  lemma {:induction false} FirstAnswerIsHeld<B>(s: Strategy<B>, f: Features, k: int, ctx: Context, w: World<B>,
                                                clock: nat -> real, key: string, ranking: Ranking)
    requires Scoped(s, w) && Working(w) && Without(w, key) && key == RequestKey(s, f, k)
    requires Cachings(s) > 0 && Unwrap(s).answer(f, k) == Ok(ranking)
    ensures HeldIn(Predict(s, f, k, ctx, w, clock).world, Outermost(s), key, ranking, clock)
    decreases s
  {
    if s.Caching? {
      CachedAnswerIsHeld(s, f, k, ctx, w, clock, key, ranking);
    } else {
      FirstAnswerIsHeld(s.wrapped, f, k, Enter(ctx), w, clock, key, ranking);
    }
  }

  /** A held ranking answers every later request of its key that comes before it expires. */
  lemma {:induction false} HeldIsAnswered<B>(s: Strategy<B>, g: Features, k: int, ctx: Context, w: World<B>,
                                             clock: nat -> real, key: string, ranking: Ranking)
    requires Scoped(s, w) && key == RequestKey(s, g, k) && Cachings(s) > 0
    requires HeldIn(w, Outermost(s), key, ranking, clock) && StillAlive(w, Outermost(s), clock)
    ensures Predict(s, g, k, ctx, w, clock).outcome == Ok(ranking)
    decreases s
  {
    if s.Caching? {
      HeldIsRead(w, s, key, ranking, Enter(ctx), clock);
    } else {
      HeldIsAnswered(s.wrapped, g, k, Enter(ctx), w, clock, key, ranking);
    }
  }

  lemma HeldIsRead<B>(w: World<B>, c: Strategy<B>, key: string, ranking: Ranking, ctx: Context, clock: nat -> real)
    requires c.Caching? && HeldIn(w, c, key, ranking, clock) && StillAlive(w, c, clock)
    ensures Read(w, c.backend, key, ctx, clock).1 == Some(ranking)
  {
  }

  lemma TransparentIfByUser<B(!new)>(s: Strategy<B>, w: World<B>, clock: nat -> real)
    requires Scoped(s, w) && AnswersByUser(Unwrap(s))
    requires forall b :: b in w.backends ==> w.backends[b].cache == []
    ensures Transparent(s, w, clock)
  {
    var base := Unwrap(s);
    var bases := Bases({StrategyId(s)}, (id: string, version: string, f: Features, k: int) => base.answer(f, k));
    assert DeterminedByUser(bases) && Agrees(s, bases) && Sound(bases, w);
    forall calls: seq<Call<B>> | forall i :: 0 <= i < |calls| ==> calls[i].chain == s
      ensures forall i :: 0 <= i < |calls| ==>
                Serve(calls, w, clock).0[i] == base.answer(calls[i].features, calls[i].k)
    {
      ChainsPreserveMeaning(calls, w, clock, bases);
    }
  }

  ghost predicate Fresh<B>(w: World<B>) {
    w.ticks == 0 && Working(w) && forall b :: b in w.backends ==> w.backends[b].cache == []
  }

  /** The outermost lifetime, begun at the last tick of a first request, is not over when the next request reads. */
  ghost predicate OutlastsNextRequest<B>(s: Strategy<B>, clock: nat -> real)
    requires Cachings(s) > 0
  {
    clock(2 * Cachings(s)) <= clock(2 * Cachings(s) - 1) + Outermost(s).ttl as real
  }

  lemma AliveAfterFirst<B>(s: Strategy<B>, w: World<B>, clock: nat -> real)
    requires Cachings(s) > 0 && OutlastsNextRequest(s, clock) && w.ticks == 2 * Cachings(s)
    ensures StillAlive(w, Outermost(s), clock)
  {
  }

  lemma FirstRequestLeaves<B>(s: Strategy<B>, f: Features, k: int, w: World<B>, clock: nat -> real, ranking: Ranking)
      returns (w1: World<B>, key: string)
    requires Scoped(s, w) && Cachings(s) > 0 && Fresh(w) && Unwrap(s).answer(f, k) == Ok(ranking)
    requires OutlastsNextRequest(s, clock)
    ensures w1 == Predict(s, f, k, Closed, w, clock).world && Scoped(s, w1) && StillAlive(w1, Outermost(s), clock)
    ensures key == RequestKey(s, f, k) && HeldIn(w1, Outermost(s), key, ranking, clock)
  {
    key := RequestKey(s, f, k);
    FirstRequestMisses(s, f, k, Closed, w, clock, key);
    FirstAnswerIsHeld(s, f, k, Closed, w, clock, key, ranking);
    w1 := Predict(s, f, k, Closed, w, clock).world;
    AliveAfterFirst(s, w1, clock);
    ScopeStays(s, w, w1);
  }

  /** Of two requests that differ in other features only, the second gets the first one's answer. */
  lemma SecondAnswerIsTheFirst<B>(s: Strategy<B>, f: Features, g: Features, k: int, w: World<B>, clock: nat -> real,
                                  ranking: Ranking)
    requires Scoped(s, w) && Cachings(s) > 0 && Fresh(w)
    requires OutlastsNextRequest(s, clock)
    requires f.userId == g.userId && Unwrap(s).answer(f, k) == Ok(ranking)
    ensures Serve([Call(s, f, k), Call(s, g, k)], w, clock).0[1] == Ok(ranking)
  {
    var w1 := SecondRequestHits(s, f, g, k, w, clock, ranking);
    ServeTwo(s, f, g, k, w, w1, clock);
  }

  lemma SecondRequestHits<B>(s: Strategy<B>, f: Features, g: Features, k: int, w: World<B>, clock: nat -> real,
                             ranking: Ranking) returns (w1: World<B>)
    requires Scoped(s, w) && Cachings(s) > 0 && Fresh(w)
    requires OutlastsNextRequest(s, clock)
    requires f.userId == g.userId && Unwrap(s).answer(f, k) == Ok(ranking)
    ensures w1 == Predict(s, f, k, Closed, w, clock).world && Scoped(s, w1)
    ensures Predict(s, g, k, Closed, w1, clock).outcome == Ok(ranking)
  {
    var key;
    w1, key := FirstRequestLeaves(s, f, k, w, clock, ranking);
    HeldForUser(s, f, g, k, w1, clock, key, ranking);
  }

  lemma HeldForUser<B>(s: Strategy<B>, f: Features, g: Features, k: int, w: World<B>, clock: nat -> real, key: string,
                       ranking: Ranking)
    requires Scoped(s, w) && Cachings(s) > 0 && key == RequestKey(s, f, k) && f.userId == g.userId
    requires HeldIn(w, Outermost(s), key, ranking, clock) && StillAlive(w, Outermost(s), clock)
    ensures Predict(s, g, k, Closed, w, clock).outcome == Ok(ranking)
  {
    SameUserSameKey(s, f, g, k);
    HeldIsAnswered(s, g, k, Closed, w, clock, key, ranking);
  }

  lemma SameUserSameKey<B>(s: Strategy<B>, f: Features, g: Features, k: int)
    requires f.userId == g.userId
    ensures RequestKey(s, f, k) == RequestKey(s, g, k)
  {
  }

  lemma ServedAsBase<B(!new)>(s: Strategy<B>, w: World<B>, clock: nat -> real, calls: seq<Call<B>>, i: nat)
    requires Scoped(s, w) && Transparent(s, w, clock) && i < |calls|
    requires forall j :: 0 <= j < |calls| ==> calls[j].chain == s
    ensures Serve(calls, w, clock).0[i] == Unwrap(s).answer(calls[i].features, calls[i].k)
  {
  }

  lemma ByUserIfTransparent<B(!new)>(s: Strategy<B>, w: World<B>, clock: nat -> real, f: Features, g: Features, k: int)
    requires Scoped(s, w) && Cachings(s) > 0 && Fresh(w)
    requires OutlastsNextRequest(s, clock)
    requires Transparent(s, w, clock) && f.userId == g.userId && Unwrap(s).answer(f, k).Ok?
    ensures Unwrap(s).answer(g, k) == Unwrap(s).answer(f, k)
  {
    SecondAnswerIsTheFirst(s, f, g, k, w, clock, Unwrap(s).answer(f, k).value);
    ServedAsBase(s, w, clock, [Call(s, f, k), Call(s, g, k)], 1);
  }

  /**
   The exact condition, for a strategy with any wrappers of which at least one is a cache, over
   fresh, working backends of at least one entry, shared or not, when the outermost lifetime
   outlasts the next request: the strategy is transparent if and only if the base answers by
   user and k alone. The version of the features is not in the key, so a base that reads it
   is not transparent.
   */
  lemma TransparentExactly<B(!new)>(s: Strategy<B>, bs: set<B>, max: B -> int, clock: nat -> real)
    requires Scoped(s, FreshWorld(bs, max)) && Cachings(s) > 0 && forall b :: b in bs ==> max(b) >= 1
    requires OutlastsNextRequest(s, clock)
    ensures Transparent(s, FreshWorld(bs, max), clock) <==> AnswersByUser(Unwrap(s))
  {
    var w := FreshWorld(bs, max);
    if AnswersByUser(Unwrap(s)) {
      TransparentIfByUser(s, w, clock);
    }
    if Transparent(s, w, clock) {
      forall f: Features, g: Features, k | f.userId == g.userId && Unwrap(s).answer(f, k).Ok?
        ensures Unwrap(s).answer(g, k) == Unwrap(s).answer(f, k)
      {
        ByUserIfTransparent(s, w, clock, f, g, k);
      }
    }
  }

  ghost predicate NeverBackwards(clock: nat -> real) {
    forall i: nat, j: nat :: i <= j ==> clock(i) <= clock(j)
  }

  /** Whatever the time between requests: for a lifetime that is not negative the clock needs no condition. */
  lemma TransparentAtAnyTimeExactly<B(!new)>(s: Strategy<B>, bs: set<B>, max: B -> int)
    requires Scoped(s, FreshWorld(bs, max)) && Cachings(s) > 0 && forall b :: b in bs ==> max(b) >= 1
    requires Outermost(s).ttl >= 0
    ensures (forall clock: nat -> real | NeverBackwards(clock) :: Transparent(s, FreshWorld(bs, max), clock))
       <==> AnswersByUser(Unwrap(s))
  {
    if AnswersByUser(Unwrap(s)) {
      forall clock: nat -> real | NeverBackwards(clock) ensures Transparent(s, FreshWorld(bs, max), clock) {
        TransparentIfByUser(s, FreshWorld(bs, max), clock);
      }
    } else {
      var still := (n: nat) => 0.0;
      assert NeverBackwards(still);
      TransparentExactly(s, bs, max, still);
    }
  }
}
