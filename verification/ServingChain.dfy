/** `predict` as it runs: the wrappers around mutable cache backends and the context variable. */
module ServingChain {
  import opened Wrappers
  import opened LruCache
  import opened Rankings
  import opened DecoratorChain

  type Cached = InMemoryCacheBackend<Payload>

  /** The context variable of the current request, the log, and the process clock. */
  class Runtime {
    var context: Context
    var ticks: nat
    var log: seq<LogRecord>
    const clock: nat -> real

    constructor (clock: nat -> real)
      ensures context == Closed && ticks == 0 && log == [] && this.clock == clock
    {
      context, ticks, log, this.clock := Closed, 0, [], clock;
    }

    method Note(field: string, value: bool)
      modifies this`context
      ensures context == Record(old(context), field, value)
    {
      context := Record(context, field, value);
    }
  }

  ghost function View(bs: set<Cached>): map<Cached, Backend<Payload>>
    reads bs
  {
    map b | b in bs :: b.State()
  }

  ghost function WorldOf(bs: set<Cached>, rt: Runtime): World<Cached>
    reads bs, rt
  {
    World(View(bs), rt.ticks)
  }

  lemma ReadIs<B>(w: World<B>, b: B, key: string, ctx: Context, clock: nat -> real, backend: Backend<Payload>,
      payload: Result<Option<Payload>, ()>)
    requires b in w.backends && BackendGet(w.backends[b], key, clock(w.ticks)) == (backend, payload)
    ensures var usable := payload.Ok? && payload.value.Some? && payload.value.value.Stored?;
            Read(w, b, key, ctx, clock) ==
              (World(w.backends[b := backend], w.ticks + 1),
               if usable then Some(payload.value.value.ranking) else None,
               if usable || payload == Ok(None) then ctx else Record(ctx, "cache_error", true))
  {
  }

  method ReadCache(b: Cached, key: string, rt: Runtime, ghost bs: set<Cached>) returns (r: Option<Ranking>)
    requires b in bs
    modifies b, rt
    ensures (WorldOf(bs, rt), r, rt.context) == Read(old(WorldOf(bs, rt)), b, key, old(rt.context), rt.clock)
    ensures rt.log == old(rt.log)
  {
    ghost var w := WorldOf(bs, rt);
    var payload := b.Get(key, rt.clock(rt.ticks));
    rt.ticks := rt.ticks + 1;
    assert View(bs) == w.backends[b := b.State()];
    ReadIs(w, b, key, rt.context, rt.clock, b.State(), payload);
    if payload.Err? {
      rt.Note("cache_error", true);
      return None;
    }
    if payload.value.None? {
      return None;
    }
    if payload.value.value.Corrupt? {
      rt.Note("cache_error", true);
      return None;
    }
    r := Some(payload.value.value.ranking);
  }

  method WriteCache(b: Cached, key: string, ranking: Ranking, ttl: int, rt: Runtime, ghost bs: set<Cached>)
    requires b in bs
    modifies b, rt
    ensures (WorldOf(bs, rt), rt.context) ==
              Write(old(WorldOf(bs, rt)), b, key, ranking, ttl, old(rt.context), rt.clock)
    ensures rt.log == old(rt.log)
  {
    var done := b.Set(key, Stored(ranking), ttl, rt.clock(rt.ticks));
    rt.ticks := rt.ticks + 1;
    assert View(bs) == old(View(bs))[b := b.State()];
    if done.Err? {
      rt.Note("cache_error", true);
    }
  }

  /** The end of a run is the specified one, and the log has grown by the specified records. */
  ghost predicate Ran<B>(outcome: Outcome, ctx: Context, w: World<B>, before: seq<LogRecord>, log: seq<LogRecord>,
      r: Served<B>) {
    outcome == r.outcome && ctx == r.ctx && w == r.world && log == before + r.log
  }

  /** The running call is the specified one: same answer, same backends, same context, same records. */
  method PredictOn(s: Strategy<Cached>, f: Features, k: int, rt: Runtime, ghost bs: set<Cached>)
      returns (outcome: Outcome)
    requires Scoped(s, WorldOf(bs, rt))
    modifies bs, rt
    ensures Ran(outcome, rt.context, WorldOf(bs, rt), old(rt.log), rt.log,
                Predict(s, f, k, old(rt.context), old(WorldOf(bs, rt)), rt.clock))
    decreases s, 2
  {
    match s
    case Base(_, _, answer) =>
      outcome := answer(f, k);
    case Timing(_) =>
      outcome := PredictTimed(s, f, k, rt, bs);
    case Logging(_) =>
      outcome := PredictLogged(s, f, k, rt, bs);
    case Caching(_, _, _) =>
      outcome := PredictCached(s, f, k, rt, bs);
  }

  method PredictTimed(s: Strategy<Cached>, f: Features, k: int, rt: Runtime, ghost bs: set<Cached>)
      returns (outcome: Outcome)
    requires s.Timing? && Scoped(s, WorldOf(bs, rt))
    modifies bs, rt
    ensures Ran(outcome, rt.context, WorldOf(bs, rt), old(rt.log), rt.log,
                Predict(s, f, k, old(rt.context), old(WorldOf(bs, rt)), rt.clock))
    decreases s, 1
  {
    var outer := rt.context;
    rt.context := Enter(outer);
    outcome := PredictOn(s.wrapped, f, k, rt, bs);
    rt.Note("latency_ms", true);
    rt.context := Leave(outer, rt.context);
  }

  method PredictLogged(s: Strategy<Cached>, f: Features, k: int, rt: Runtime, ghost bs: set<Cached>)
      returns (outcome: Outcome)
    requires s.Logging? && Scoped(s, WorldOf(bs, rt))
    modifies bs, rt
    ensures Ran(outcome, rt.context, WorldOf(bs, rt), old(rt.log), rt.log,
                Predict(s, f, k, old(rt.context), old(WorldOf(bs, rt)), rt.clock))
    decreases s, 1
  {
    var outer := rt.context;
    rt.context := Enter(outer);
    ghost var r := Predict(s.wrapped, f, k, rt.context, WorldOf(bs, rt), rt.clock);
    outcome := PredictOn(s.wrapped, f, k, rt, bs);
    LogGrows(old(rt.log), r.log, Emitted(s, f, k, outcome, rt.context));
    rt.log := rt.log + [Emitted(s, f, k, outcome, rt.context)];
    rt.context := Leave(outer, rt.context);
  }

  lemma LogGrows(before: seq<LogRecord>, emitted: seq<LogRecord>, last: LogRecord)
    ensures before + emitted + [last] == before + (emitted + [last])
  {
  }

  method PredictCached(s: Strategy<Cached>, f: Features, k: int, rt: Runtime, ghost bs: set<Cached>)
      returns (outcome: Outcome)
    requires s.Caching? && Scoped(s, WorldOf(bs, rt))
    modifies bs, rt
    ensures Ran(outcome, rt.context, WorldOf(bs, rt), old(rt.log), rt.log,
                Predict(s, f, k, old(rt.context), old(WorldOf(bs, rt)), rt.clock))
    decreases s, 1
  {
    var outer := rt.context;
    ghost var w := WorldOf(bs, rt);
    rt.context := Enter(outer);
    var cached := ReadCache(s.backend, RequestKey(s, f, k), rt, bs);
    ghost var w1, c1 := WorldOf(bs, rt), rt.context;
    if cached.Some? {
      AnsweredFromCache(s, f, k, outer, w, rt.clock, w1, cached.value, c1);
      rt.Note("cache_hit", true);
      rt.context := Leave(outer, rt.context);
      return Ok(cached.value);
    }
    AnsweredPastCache(s, f, k, outer, w, rt.clock, w1, c1);
    rt.Note("cache_hit", false);
    outcome := PredictMissed(s, f, k, outer, rt, bs);
  }

  lemma AnsweredFromCache<B>(s: Strategy<B>, f: Features, k: int, ctx: Context, w: World<B>, clock: nat -> real,
      w1: World<B>, ranking: Ranking, c1: Context)
    requires s.Caching? && Scoped(s, w)
    requires Read(w, s.backend, RequestKey(s, f, k), Enter(ctx), clock) == (w1, Some(ranking), c1)
    ensures Predict(s, f, k, ctx, w, clock) ==
              Served(Ok(ranking), Leave(ctx, Record(c1, "cache_hit", true)), w1, [])
  {
  }

  lemma AnsweredPastCache<B>(s: Strategy<B>, f: Features, k: int, ctx: Context, w: World<B>, clock: nat -> real,
      w1: World<B>, c1: Context)
    requires s.Caching? && Scoped(s, w)
    requires Read(w, s.backend, RequestKey(s, f, k), Enter(ctx), clock) == (w1, None, c1)
    ensures s.backend in w1.backends && Scoped(s.wrapped, w1)
    ensures Predict(s, f, k, ctx, w, clock) == Missed(s, f, k, ctx, Record(c1, "cache_hit", false), w1, clock)
  {
    ScopeStays(s.wrapped, w, w1);
  }

  method PredictMissed(s: Strategy<Cached>, f: Features, k: int, outer: Context, rt: Runtime, ghost bs: set<Cached>)
      returns (outcome: Outcome)
    requires s.Caching? && s.backend in bs && Scoped(s.wrapped, WorldOf(bs, rt))
    modifies bs, rt
    ensures Ran(outcome, rt.context, WorldOf(bs, rt), old(rt.log), rt.log,
                Missed(s, f, k, outer, old(rt.context), old(WorldOf(bs, rt)), rt.clock))
    decreases s, 0
  {
    outcome := PredictOn(s.wrapped, f, k, rt, bs);
    if outcome.Ok? {
      WriteCache(s.backend, RequestKey(s, f, k), outcome.value, s.ttl, rt, bs);
    }
    rt.context := Leave(outer, rt.context);
  }
}
