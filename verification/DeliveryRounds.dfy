/** Rounds of the worker. */
module DeliveryRounds {
  // Quiescent delivery for the loops themselves: one replay of the buffer and enough calls of
  // `run_once`, while no write fails as often in a row as the retry budget allows attempts.

  import opened Wrappers
  import opened Events
  import opened Delivery
  import opened DeliverySafety
  import opened DeliveryLoss
  import opened DeliveryLiveness
  import opened DeliveryContents
  import opened EventQueue
  import opened HistoryStore
  import opened DeliveryRefinement

  // ---------------------------------------------------------------- failures within the budget

  /** How many appends raise before the next one that does not. */
  function Streak(faults: seq<bool>): nat {
    if faults == [] || !faults[0] then 0 else 1 + Streak(faults[1..])
  }

  /** No append raises `retries` times in a row; a store that never raises tolerates any positive budget. */
  ghost predicate Tolerable(retries: int, faults: seq<bool>) {
    Streak(faults) < retries && (faults == [] || Tolerable(retries, faults[1..]))
  }

  /** Attempts succeed exactly when there are any and the id is known or not all of them raise. */
  lemma {:induction false} AttemptsSucceedExactly(st: Store, e: Event, left: nat)
    ensures FeedbackHistory.Attempts(st, e, left).1.Some? <==> left > 0 && (e.id in st.keys || Streak(st.faults) < left)
    decreases left
  {
    if left > 0 && InsertIfAbsent(st, e.id, e).1.Raised? {
      AttemptsSucceedExactly(InsertIfAbsent(st, e.id, e).0, e, left - 1);
    }
  }

  lemma {:induction false} AttemptsStayTolerable(retries: int, st: Store, e: Event, left: int)
    requires Tolerable(retries, st.faults)
    ensures Tolerable(retries, FeedbackHistory.Attempts(st, e, left).0.faults)
    decreases if left > 0 then left else 0
  {
    if left > 0 && InsertIfAbsent(st, e.id, e).1.Raised? {
      AttemptsStayTolerable(retries, InsertIfAbsent(st, e.id, e).0, e, left - 1);
    }
  }

  lemma HandleSucceeds(retries: int, w: FeedbackHistory.Worker, e: Event)
    requires Tolerable(retries, w.store.faults)
    ensures var (after, ok) := FeedbackHistory.HandleEvent(retries, w, e); ok && Tolerable(retries, after.store.faults)
  {
    AttemptsSucceedExactly(w.store, e, retries);
    AttemptsStayTolerable(retries, w.store, e, retries);
  }

  lemma {:induction false} HandleAllSucceeds(retries: int, w: FeedbackHistory.Worker, events: seq<Event>)
    requires Tolerable(retries, w.store.faults)
    ensures var (after, written) := FeedbackHistory.HandleAll(retries, w, events);
            written == |events| && Tolerable(retries, after.store.faults)
  {
    if events != [] {
      HandleAllSucceeds(retries, w, events[..|events| - 1]);
      HandleSucceeds(retries, FeedbackHistory.HandleAll(retries, w, events[..|events| - 1]).0, events[|events| - 1]);
    }
  }

  lemma {:induction false} ConsumeSucceeds(retries: int, w: FeedbackHistory.Worker, queue: seq<Event>, max: Option<int>,
      accepted: nat)
    requires Tolerable(retries, w.store.faults)
    ensures var r := ConsumeFrom(FeedbackHistory.Handler(retries), w, queue, max, accepted);
            r.stopped.None? && Tolerable(retries, r.state.store.faults)
    decreases |queue|
  {
    if MayContinue(max, accepted) && queue != [] {
      HandleSucceeds(retries, w, queue[0]);
      ConsumeSucceeds(retries, FeedbackHistory.HandleEvent(retries, w, queue[0]).0, queue[1..], max, accepted + 1);
    }
  }

  // ---------------------------------------------------------------- calls of run_once

  /** Worker and queue after `calls` calls of `run_once`. */
  function Rounds(retries: int, w: FeedbackHistory.Worker, queue: seq<Event>, max: Option<int>,
      calls: nat): (FeedbackHistory.Worker, seq<Event>)
    decreases calls
  {
    if calls == 0 then (w, queue)
    else
      var r := ConsumeFrom(FeedbackHistory.Handler(retries), w, queue, max, 0);
      Rounds(retries, r.state, r.queue, max, calls - 1)
  }

  /** So many calls can take `n` events. */
  predicate Enough(n: nat, max: Option<int>, calls: nat) {
    n == 0 || (calls > 0 && (max.None? || n <= calls * max.value))
  }

  /** One call takes as many events as it may, from the front. */
  lemma OneCallTakes(retries: int, w: FeedbackHistory.Worker, queue: seq<Event>, max: Option<int>, calls: nat)
    requires Tolerable(retries, w.store.faults) && Enough(|queue|, max, calls + 1)
    ensures var r := ConsumeFrom(FeedbackHistory.Handler(retries), w, queue, max, 0);
            Tolerable(retries, r.state.store.faults) && Enough(|r.queue|, max, calls)
  {
    var r := ConsumeFrom(FeedbackHistory.Handler(retries), w, queue, max, 0);
    ConsumeSucceeds(retries, w, queue, max, 0);
    ConsumeAccounts(FeedbackHistory.Handler(retries), w, queue, max, 0);
    if r.queue != [] {
      assert (calls + 1) * max.value == calls * max.value + max.value;
    }
  }

  lemma {:induction false} RoundsEmptyTheQueue(retries: int, w: FeedbackHistory.Worker, queue: seq<Event>,
      max: Option<int>, calls: nat)
    requires Tolerable(retries, w.store.faults) && Enough(|queue|, max, calls)
    ensures Rounds(retries, w, queue, max, calls).1 == []
    decreases calls
  {
    if calls > 0 {
      var r := ConsumeFrom(FeedbackHistory.Handler(retries), w, queue, max, 0);
      OneCallTakes(retries, w, queue, max, calls - 1);
      RoundsEmptyTheQueue(retries, r.state, r.queue, max, calls - 1);
    }
  }

  /** The state of the protocol once the worker of an idle state is `w` and its queue is `queue`. */
  ghost function Settled(s: State, w: FeedbackHistory.Worker, queue: seq<Event>): State {
    s.(ready := queue, history := Documents(w.store.lines), index := w.store.keys)
  }

  lemma {:induction false} RoundsAreARun(retries: int, s: State, w: FeedbackHistory.Worker, max: Option<int>,
      calls: nat) returns (labels: seq<Label>)
    requires s.worker.Idle? && Matches(s, w.store)
    ensures var (end, queue) := Rounds(retries, w, s.ready, max, calls);
            Undisturbed(labels) && Leads(retries, s, labels, Settled(s, end, queue))
    decreases calls
  {
    if calls == 0 {
      labels := [];
    } else {
      var r := ConsumeFrom(FeedbackHistory.Handler(retries), w, s.ready, max, 0);
      var first := RunOnceIsARun(retries, s, w, max, 0);
      var middle := Settled(s, r.state, r.queue);
      var rest := RoundsAreARun(retries, middle, r.state, max, calls - 1);
      var (end, queue) := Rounds(retries, r.state, r.queue, max, calls - 1);
      LeadsOn(retries, s, first, middle, rest, Settled(middle, end, queue));
      UndisturbedConcat(first, rest);
      labels := first + rest;
    }
  }

  // ---------------------------------------------------------------- one drain, then run_once

  /**
   Quiescent delivery by the code's own loops, from every reachable state between two jobs: after
   one replay of the buffer and enough calls of `run_once` the buffer is cleared, the queue is
   empty, and the history holds once each event that survived until then, and nothing else.
   */
  lemma DrainThenRunOnce(retries: int, ls: seq<Label>, w: FeedbackHistory.Worker, max: Option<int>, calls: nat)
      returns (more: seq<Label>)
    requires Run(retries, ls) && After(retries, ls).worker.Idle? && Matches(After(retries, ls), w.store)
    requires Tolerable(retries, w.store.faults) && Enough(|After(retries, ls).ready|, max, calls)
    ensures var s := After(retries, ls);
            var (drained, written) := FeedbackHistory.HandleAll(retries, w, s.buffer);
            var (end, queue) := Rounds(retries, drained, s.ready, max, calls);
            && written == |s.buffer| && queue == []
            && Run(retries, ls + more) && Undisturbed(more)
            && After(retries, ls + more) == State([], [], Documents(end.store.lines), end.store.keys, Idle)
            && SurvivorsOnce(ls, Documents(end.store.lines))
            && (IdsIdentify(ls) ==> SurvivingEventsOnce(ls, Documents(end.store.lines)))
  {
    var s := After(retries, ls);
    var (drained, written) := FeedbackHistory.HandleAll(retries, w, s.buffer);
    HandleAllSucceeds(retries, w, s.buffer);
    RoundsEmptyTheQueue(retries, drained, s.ready, max, calls);
    var replay := DrainIsARun(retries, s, w);
    var middle := Settled(s.(buffer := []), drained, s.ready);
    var consuming := RoundsAreARun(retries, middle, drained, max, calls);
    var (end, queue) := Rounds(retries, drained, s.ready, max, calls);
    LeadsOn(retries, s, replay, middle, consuming, Settled(middle, end, queue));
    UndisturbedConcat(replay, consuming);
    more := replay + consuming;
    RunContinues(retries, ls, more);
    SurvivorsAreDelivered(retries, ls, more);
    if IdsIdentify(ls) {
      SurvivingEventsAreDelivered(retries, ls, more, After(retries, ls + more).history);
    }
  }

  lemma SurvivingEventsAreDelivered(retries: int, ls: seq<Label>, more: seq<Label>, history: seq<Event>)
    requires Run(retries, ls + more) && Undisturbed(more) && history == After(retries, ls + more).history
    requires IdsIdentify(ls) && SurvivorsOnce(ls, history)
    ensures SurvivingEventsOnce(ls, history)
  {
    EventsArePublished(retries, ls + more);
    UndisturbedPublishesNothing(ls, more, history);
    SurvivorsAreWhole(ls, history);
  }

  lemma SurvivorsAreDelivered(retries: int, ls: seq<Label>, more: seq<Label>)
    requires Run(retries, ls) && After(retries, ls).worker.Idle?
    requires Run(retries, ls + more) && Undisturbed(more) && Quiescent(After(retries, ls + more))
    ensures SurvivorsOnce(ls, After(retries, ls + more).history)
  {
    var end := After(retries, ls + more);
    AtMostOnce(retries, ls + more);
    WindowIsTheWorkersDrain(retries, ls);
    UndisturbedKeepsTheHeld(retries, ls, more);
    forall id ensures Occurrences(end.history, id) == if exists p: nat :: Survives(ls, p, id) then 1 else 0 {
      NoEventLostExactly(retries, ls, id);
      DistinctIdsOccurOnce(end.history, id);
    }
  }
}
