/** `FeedbackHistoryService`: bounded retries, the consuming loop and the buffer replay. */
module FeedbackHistory {
  import opened Wrappers
  import opened Events
  import opened EventCodec
  import opened BufferFile
  import opened EventQueue
  import opened HistoryStore

  /** What a worker changes: the store it writes and its three counters. */
  datatype Worker = Worker(store: Store, processed: nat, duplicates: nat, failures: nat)

  /** Up to `left` attempts at one write: True if written, False if known, None if all raised. */
  function Attempts(st: Store, e: Event, left: int): (Store, Option<bool>)
    decreases if left > 0 then left else 0
  {
    if left <= 0 then (st, None)
    else
      var (next, outcome) := InsertIfAbsent(st, e.id, e);
      match outcome
      case Written => (next, Some(true))
      case Known => (next, Some(false))
      case Raised => Attempts(next, e, left - 1)
  }

  function HandleEvent(retries: int, w: Worker, e: Event): (Worker, bool) {
    var (st, written) := Attempts(w.store, e, retries);
    match written
    case Some(true) => (w.(store := st, processed := w.processed + 1), true)
    case Some(false) => (w.(store := st, duplicates := w.duplicates + 1), true)
    case None => (w.(store := st, failures := w.failures + 1), false)
  }

  /** `handle` as the queue sees it. */
  function Handler(retries: int): (Worker, Event) -> (Worker, Answer) {
    (w: Worker, e: Event) =>
      var (next, ok) := HandleEvent(retries, w, e);
      (next, if ok then Accept else Refuse)
  }

  /** `handle` on each event in turn, and how many it reported written or known. */
  function HandleAll(retries: int, w: Worker, events: seq<Event>): (r: (Worker, nat))
    ensures r.1 <= |events|
  {
    if events == [] then (w, 0)
    else
      var (before, n) := HandleAll(retries, w, events[..|events| - 1]);
      var (after, ok) := HandleEvent(retries, before, events[|events| - 1]);
      (after, if ok then n + 1 else n)
  }

  class FeedbackHistoryService {
    const retries: int
    const queue: InMemoryInteractionEventQueue
    const backend: LocalDocumentBackend
    const buffer: RetryBuffer?
    const drainInterval: real
    var processed: nat
    var duplicates: nat
    var failures: nat
    var lastDrain: real

    constructor (queue: InMemoryInteractionEventQueue, backend: LocalDocumentBackend, buffer: RetryBuffer?,
                 retries: int, drainInterval: real)
      ensures this.queue == queue && this.backend == backend && this.buffer == buffer
      ensures this.retries == retries && this.drainInterval == drainInterval
      ensures lastDrain == 0.0 && Stats() == Worker(backend.State(), 0, 0, 0)
    {
      this.queue, this.backend, this.buffer := queue, backend, buffer;
      this.retries, this.drainInterval := retries, drainInterval;
      processed, duplicates, failures, lastDrain := 0, 0, 0, 0.0;
    }

    function Stats(): Worker
      reads this, backend
    {
      Worker(backend.State(), processed, duplicates, failures)
    }

    method Handle(e: Event) returns (ok: bool)
      modifies this`processed, this`duplicates, this`failures, backend
      ensures (Stats(), ok) == HandleEvent(retries, old(Stats()), e)
    {
      var attempt := 1;
      while attempt <= retries
        invariant attempt >= 1
        invariant Attempts(backend.State(), e, retries + 1 - attempt) == Attempts(old(backend.State()), e, retries)
        invariant processed == old(processed) && duplicates == old(duplicates) && failures == old(failures)
        decreases retries - attempt
      {
        var outcome := backend.Insert(e.id, e);
        if outcome.Written? {
          processed := processed + 1;
          return true;
        } else if outcome.Known? {
          duplicates := duplicates + 1;
          return true;
        }
        attempt := attempt + 1;
      }
      failures := failures + 1;
      ok := false;
    }

    /** The loop of `InMemoryInteractionEventQueue.Consume` with `Handle` as its handler. */
    method RunOnce(max: Option<int>) returns (accepted: nat)
      modifies this`processed, this`duplicates, this`failures, backend, queue
      ensures var r := ConsumeFrom(Handler(retries), old(Stats()), old(queue.items), max, 0);
              && Stats() == r.state && queue.items == r.queue && accepted == r.accepted
              && (max.Some? ==> accepted <= if 0 > max.value then 0 else max.value)
              && (r.stopped.None? && queue.items != [] ==> max.Some? && accepted >= max.value)
    {
      ConsumeAccounts(Handler(retries), Stats(), queue.items, max, 0);
      accepted := 0;
      while MayContinue(max, accepted) && queue.items != []
        invariant ConsumeFrom(Handler(retries), Stats(), queue.items, max, accepted) ==
                  ConsumeFrom(Handler(retries), old(Stats()), old(queue.items), max, 0)
        decreases |queue.items|
      {
        var event := queue.items[0];
        queue.items := queue.items[1..];
        var ok := Handle(event);
        if ok {
          accepted := accepted + 1;
        } else {
          queue.items := queue.items + [event];
          return;
        }
      }
    }

    /** Replay of the buffer; the file is removed only when every event of the read was handled. */
    method DrainRetryBuffer(file: RetryBuffer, defaults: nat -> Defaults) returns (r: Result<nat, Failure>)
      modifies this`processed, this`duplicates, this`failures, backend, file
      ensures match ReadFile(old(file.file), defaults)
              case Err(f) => r == Err(f) && Stats() == old(Stats()) && file.file == old(file.file)
              case Ok(events) =>
                var (w, written) := HandleAll(retries, old(Stats()), events);
                && r == Ok(written) && Stats() == w
                && file.file == if written == |events| then None else old(file.file)
    {
      var events :- file.ReadAll(defaults);
      var written := 0;
      for i := 0 to |events|
        invariant file.file == old(file.file)
        invariant HandleAll(retries, old(Stats()), events[..i]) == (Stats(), written)
      {
        assert events[..i + 1][..i] == events[..i];
        var ok := Handle(events[i]);
        if ok { written := written + 1; }
      }
      assert events[..|events|] == events;
      if written == |events| {
        file.Clear();
      }
      r := Ok(written);
    }

    /** At most one replay per interval; a replay that raises counts as nothing written. */
    method MaybeDrainRetryBuffer(now: real, defaults: nat -> Defaults) returns (written: nat)
      modifies this, backend, buffer
      ensures var due := buffer != null && now - old(lastDrain) >= drainInterval;
              && lastDrain == (if due then now else old(lastDrain))
              && if !due || old(buffer.file).None? || ReadFile(old(buffer.file), defaults).Err? then
                   written == 0 && Stats() == old(Stats()) && (buffer != null ==> buffer.file == old(buffer.file))
                 else
                   var events := ReadFile(old(buffer.file), defaults).value;
                   && (Stats(), written) == HandleAll(retries, old(Stats()), events)
                   && buffer.file == if written == |events| then None else old(buffer.file)
    {
      if buffer == null {
        return 0;
      }
      if now - lastDrain < drainInterval {
        return 0;
      }
      lastDrain := now;
      if buffer.file.None? {
        return 0;
      }
      var r := DrainRetryBuffer(buffer, defaults);
      written := if r.Ok? then r.value else 0;
    }
  }

  /** One call: exactly one counter moves, and the file gains exactly the event when it is new. */
  lemma {:induction false} AttemptsAccount(st: Store, e: Event, left: int)
    requires Consistent(st)
    ensures var (next, written) := Attempts(st, e, left);
            && Consistent(next)
            && (written == Some(true) ==> e.id !in st.keys && next.lines == st.lines + [Document(e)])
            && (written != Some(true) ==> next.lines == st.lines)
            && (written == Some(false) ==> e.id in st.keys)
            && (written.Some? ==> e.id in next.keys)
    decreases if left > 0 then left else 0
  {
    if left > 0 {
      InsertKeepsConsistent(st, e);
      var (next, outcome) := InsertIfAbsent(st, e.id, e);
      if outcome.Raised? { AttemptsAccount(next, e, left - 1); }
    }
  }

  /**
   Accounting over any number of `handle` calls: they are counted exactly once each, `processed`
   counts exactly the documents added, the documents before stay in front of them, and the store
   stays free of duplicates.
   */
  lemma {:induction false} CountersAccount(retries: int, w: Worker, events: seq<Event>)
    requires Consistent(w.store)
    ensures var (after, ok) := HandleAll(retries, w, events);
            && after.processed + after.duplicates + after.failures
               == w.processed + w.duplicates + w.failures + |events|
            && |Documents(after.store.lines)| == |Documents(w.store.lines)| + after.processed - w.processed
            && Documents(w.store.lines) <= Documents(after.store.lines)
            && Consistent(after.store)
            && ok == after.processed + after.duplicates - w.processed - w.duplicates
            && (ok == |events| ==> Ids(events) <= after.store.keys)
  {
    if events != [] {
      var init, e := events[..|events| - 1], events[|events| - 1];
      CountersAccount(retries, w, init);
      var before := HandleAll(retries, w, init).0;
      AttemptsAccount(before.store, e, retries);
      DocumentsAppend(before.store.lines, e);
      KeysGrow(before.store, e, retries);
      assert events == init + [e];
      IdsOfConcat(init, [e]);
      IdsOfSingleton(e);
    }
  }

  lemma {:induction false} KeysGrow(st: Store, e: Event, left: int)
    ensures st.keys <= Attempts(st, e, left).0.keys
    decreases if left > 0 then left else 0
  {
    if left > 0 {
      var (next, outcome) := InsertIfAbsent(st, e.id, e);
      if outcome.Raised? { KeysGrow(next, e, left - 1); }
    }
  }

  lemma {:induction false} HandlerIsHandleAll(retries: int, w: Worker, events: seq<Event>, n: nat)
    requires n <= |events|
    ensures StateAfter(Handler(retries), w, events, n) == HandleAll(retries, w, events[..n]).0
  {
    if n > 0 {
      HandlerIsHandleAll(retries, w, events, n - 1);
      assert events[..n][..n - 1] == events[..n - 1];
    }
  }

  /**
   Accounting of the consuming loop, for every queue, limit and pattern of failures: the counters
   move by one per `handle` call, which is one per accepted event and one more if the loop stopped
   on a refusal; the documents added are the processed ones; the refused event is at the tail.
   */
  lemma RunOnceAccounts(retries: int, w: Worker, queue: seq<Event>, max: Option<int>)
    requires Consistent(w.store)
    ensures var r := ConsumeFrom(Handler(retries), w, queue, max, 0);
            && r.accepted >= 0 && Calls(r) <= |queue|
            && r.state.processed + r.state.duplicates + r.state.failures
               == w.processed + w.duplicates + w.failures + Calls(r)
            && |Documents(r.state.store.lines)| == |Documents(w.store.lines)| + r.state.processed - w.processed
            && Consistent(r.state.store)
            && r.queue == if r.stopped.Some? then queue[Calls(r)..] + [queue[Calls(r) - 1]] else queue[Calls(r)..]
  {
    ConsumeCalls(Handler(retries), w, queue, max);
    var calls := Calls(ConsumeFrom(Handler(retries), w, queue, max, 0));
    HandlerIsHandleAll(retries, w, queue, calls);
    CountersAccount(retries, w, queue[..calls]);
  }
}
