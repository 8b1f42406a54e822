/** The loops are runs. */
module DeliveryRefinement {
  // The service's own loops are runs of the delivery protocol, so what is proved of every run
  // holds of them: `handle`, the consuming loop and the buffer replay, undisturbed, as label
  // sequences.

  import opened Wrappers
  import opened Events
  import opened Delivery
  import opened EventQueue
  import opened HistoryStore
  import FeedbackHistory

  /** A run from an arbitrary state. */
  ghost predicate RunFrom(retries: int, s: State, ls: seq<Label>)
    decreases |ls|
  {
    ls == [] || (Enabled(s, ls[0]) && RunFrom(retries, Next(retries, s, ls[0]), ls[1..]))
  }

  ghost function AfterFrom(retries: int, s: State, ls: seq<Label>): State
    requires RunFrom(retries, s, ls)
    decreases |ls|
  {
    if ls == [] then s else AfterFrom(retries, Next(retries, s, ls[0]), ls[1..])
  }

  lemma {:induction false} RunsConcat(retries: int, s: State, a: seq<Label>, b: seq<Label>)
    requires RunFrom(retries, s, a) && RunFrom(retries, AfterFrom(retries, s, a), b)
    ensures RunFrom(retries, s, a + b)
    ensures AfterFrom(retries, s, a + b) == AfterFrom(retries, AfterFrom(retries, s, a), b)
    decreases |a|
  {
    if a == [] {
      assert a + b == b;
    } else {
      var first, next := a[0], Next(retries, s, a[0]);
      RunsConcat(retries, next, a[1..], b);
      FirstOfJoin(a, b);
      RunStep(retries, s, a + b);
    }
  }

  lemma FirstOfJoin(a: seq<Label>, b: seq<Label>)
    requires a != []
    ensures (a + b)[0] == a[0] && (a + b)[1..] == a[1..] + b
  {
  }

  lemma RunStep(retries: int, s: State, ls: seq<Label>)
    requires ls != [] && Enabled(s, ls[0]) && RunFrom(retries, Next(retries, s, ls[0]), ls[1..])
    ensures RunFrom(retries, s, ls)
    ensures AfterFrom(retries, s, ls) == AfterFrom(retries, Next(retries, s, ls[0]), ls[1..])
  {
  }

  /** The labels lead from `s` to `end`. */
  ghost predicate Leads(retries: int, s: State, ls: seq<Label>, end: State) {
    RunFrom(retries, s, ls) && AfterFrom(retries, s, ls) == end
  }

  lemma LeadsOn(retries: int, s: State, a: seq<Label>, middle: State, b: seq<Label>, end: State)
    requires Leads(retries, s, a, middle) && Leads(retries, middle, b, end)
    ensures Leads(retries, s, a + b, end)
  {
    RunsConcat(retries, s, a, b);
  }

  lemma ContinueOne(retries: int, ls: seq<Label>, s: State, more: seq<Label>, end: State) returns (next: State)
    requires Run(retries, ls) && After(retries, ls) == s && more != []
    requires RunFrom(retries, s, more) && end == AfterFrom(retries, s, more)
    ensures Run(retries, ls + [more[0]]) && After(retries, ls + [more[0]]) == next
    ensures RunFrom(retries, next, more[1..]) && end == AfterFrom(retries, next, more[1..])
  {
    next := Next(retries, s, more[0]);
    RunExtends(retries, ls, more[0]);
  }

  lemma NothingMore(ls: seq<Label>, more: seq<Label>)
    ensures more == [] ==> ls + more == ls
    ensures more != [] ==> ls + more == ls + [more[0]] + more[1..]
  {
  }

  lemma {:induction false} Continue(retries: int, ls: seq<Label>, s: State, more: seq<Label>, all: seq<Label>,
      end: State)
    requires Run(retries, ls) && After(retries, ls) == s && all == ls + more
    requires RunFrom(retries, s, more) && end == AfterFrom(retries, s, more)
    ensures Run(retries, all) && After(retries, all) == end
    decreases |more|
  {
    NothingMore(ls, more);
    if more != [] {
      var next := ContinueOne(retries, ls, s, more, end);
      Continue(retries, ls + [more[0]], next, more[1..], all, end);
    }
  }

  /** A run from a reachable state continues the run that reached it. */
  lemma RunContinues(retries: int, ls: seq<Label>, more: seq<Label>)
    requires Run(retries, ls) && RunFrom(retries, After(retries, ls), more)
    ensures Run(retries, ls + more) && After(retries, ls + more) == AfterFrom(retries, After(retries, ls), more)
  {
    Continue(retries, ls, After(retries, ls), more, ls + more, AfterFrom(retries, After(retries, ls), more));
  }

  /** The protocol's history and index are the store's file and index. */
  ghost predicate Matches(s: State, st: Store) {
    s.history == Documents(st.lines) && s.index == st.keys
  }

  function AttemptLabels(st: Store, e: Event, left: int): seq<Label>
    decreases if left > 0 then left else 0
  {
    if left <= 0 then []
    else
      var (next, outcome) := InsertIfAbsent(st, e.id, e);
      match outcome
      case Written => [WriteLine, IndexKey]
      case Known => [SkipKnown]
      case Raised => [AttemptFails] + AttemptLabels(next, e, left - 1)
  }

  lemma {:induction false} AttemptsAreUndisturbed(st: Store, e: Event, left: int)
    ensures Undisturbed(AttemptLabels(st, e, left))
    decreases if left > 0 then left else 0
  {
    if left > 0 {
      var (next, outcome) := InsertIfAbsent(st, e.id, e);
      if outcome.Raised? {
        AttemptsAreUndisturbed(next, e, left - 1);
        UndisturbedConcat([AttemptFails], AttemptLabels(next, e, left - 1));
      }
    }
  }

  ghost function AtPhase(s: State, st: Store, phase: Phase): State
    requires s.worker.Busy?
  {
    s.(history := Documents(st.lines), index := st.keys, worker := s.worker.(phase := phase))
  }

  lemma RunOfOne(retries: int, s: State, l: Label)
    requires Enabled(s, l)
    ensures RunFrom(retries, s, [l]) && AfterFrom(retries, s, [l]) == Next(retries, s, l)
  {
    assert [l][1..] == [];
  }

  lemma WriteIsTwoSteps(retries: int, s: State, st: Store, e: Event)
    requires Matches(s, st) && s.worker.Busy? && s.worker.phase.Attempting?
    requires HasCurrent(s.worker.job) && Current(s.worker.job) == e && InsertIfAbsent(st, e.id, e).1.Written?
    ensures RunFrom(retries, s, [WriteLine, IndexKey])
    ensures AfterFrom(retries, s, [WriteLine, IndexKey]) == AtPhase(s, InsertIfAbsent(st, e.id, e).0, Handled(true))
  {
    DocumentsAppend(st.lines, e);
    var s1 := Next(retries, s, WriteLine);
    assert [WriteLine, IndexKey][1..] == [IndexKey];
    RunOfOne(retries, s1, IndexKey);
  }

  /** One call of `handle` is the attempts it makes. */
  lemma {:induction false} HandleIsARun(retries: int, s: State, st: Store, e: Event, left: nat)
    requires Matches(s, st) && s.worker.Busy? && HasCurrent(s.worker.job) && Current(s.worker.job) == e
    requires left <= retries || left == 0
    requires s.worker.phase == if left == 0 then Handled(false) else Attempting(retries - left)
    ensures RunFrom(retries, s, AttemptLabels(st, e, left))
    ensures var (next, written) := FeedbackHistory.Attempts(st, e, left);
            AfterFrom(retries, s, AttemptLabels(st, e, left)) == AtPhase(s, next, Handled(written.Some?))
    decreases left
  {
    if left > 0 {
      var (next, outcome) := InsertIfAbsent(st, e.id, e);
      match outcome
      case Written => WriteIsTwoSteps(retries, s, st, e);
      case Known => RunOfOne(retries, s, SkipKnown);
      case Raised =>
        var labels := [AttemptFails] + AttemptLabels(next, e, left - 1);
        var s1 := Next(retries, s, AttemptFails);
        HandleIsARun(retries, s1, next, e, left - 1);
        assert labels[1..] == AttemptLabels(next, e, left - 1);
    }
  }

  /** The whole call, from the phase the worker starts in. */
  lemma HandleCallIsARun(retries: int, s: State, w: FeedbackHistory.Worker, e: Event)
    requires Matches(s, w.store) && s.worker.Busy? && HasCurrent(s.worker.job) && Current(s.worker.job) == e
    requires s.worker.phase == StartPhase(retries)
    ensures var labels := AttemptLabels(w.store, e, retries);
            var (after, ok) := FeedbackHistory.HandleEvent(retries, w, e);
            && RunFrom(retries, s, labels)
            && AfterFrom(retries, s, labels) == AtPhase(s, after.store, Handled(ok))
  {
    if retries > 0 {
      HandleIsARun(retries, s, w.store, e, retries);
      var (next, written) := FeedbackHistory.Attempts(w.store, e, retries);
      var (after, ok) := FeedbackHistory.HandleEvent(retries, w, e);
      assert after.store == next && ok == written.Some?;
    } else {
      assert AtPhase(s, w.store, Handled(false)) == s;
    }
  }

  /** The consuming loop of `run_once` is a run: each event is got, handled, and acknowledged or requeued. */
  lemma {:induction false} RunOnceIsARun(retries: int, s: State, w: FeedbackHistory.Worker, max: Option<int>,
      accepted: nat)
      returns (labels: seq<Label>)
    requires s.worker.Idle? && Matches(s, w.store)
    ensures var r := ConsumeFrom(FeedbackHistory.Handler(retries), w, s.ready, max, accepted);
            && Undisturbed(labels)
            && RunFrom(retries, s, labels)
            && AfterFrom(retries, s, labels) ==
               s.(ready := r.queue, history := Documents(r.state.store.lines), index := r.state.store.keys)
    decreases |s.ready|
  {
    if !MayContinue(max, accepted) || s.ready == [] {
      labels := [];
    } else {
      var e := s.ready[0];
      var s1 := Next(retries, s, Get);
      RunOfOne(retries, s, Get);
      HandleCallIsARun(retries, s1, w, e);
      var handling := AttemptLabels(w.store, e, retries);
      var (after, ok) := FeedbackHistory.HandleEvent(retries, w, e);
      var s2 := AfterFrom(retries, s1, handling);
      var last := if ok then Ack else Nack(|s2.ready|);
      RunOfOne(retries, s2, last);
      RunsConcat(retries, s, [Get], handling);
      RunsConcat(retries, s, [Get] + handling, [last]);
      var s3 := Next(retries, s2, last);
      AttemptsAreUndisturbed(w.store, e, retries);
      UndisturbedConcat([Get], handling);
      UndisturbedConcat([Get] + handling, [last]);
      if ok {
        var rest := RunOnceIsARun(retries, s3, after, max, accepted + 1);
        RunsConcat(retries, s, [Get] + handling + [last], rest);
        UndisturbedConcat([Get] + handling + [last], rest);
        labels := [Get] + handling + [last] + rest;
      } else {
        labels := [Get] + handling + [last];
        assert s2.ready[..|s2.ready|] + [e] + s2.ready[|s2.ready|..] == s2.ready + [e];
      }
    }
  }

  ghost function Replaying(retries: int, s: State, w: FeedbackHistory.Worker, snapshot: seq<Event>, next: nat,
      written: nat): State {
    s.(history := Documents(w.store.lines), index := w.store.keys,
       worker := DrainWorker(retries, FromBuffer(snapshot, next, written)))
  }

  lemma ReplayStart(retries: int, s: State, w: FeedbackHistory.Worker) returns (labels: seq<Label>)
    requires s.worker.Idle? && Matches(s, w.store)
    ensures Undisturbed(labels) && Leads(retries, s, labels, Replaying(retries, s, w, s.buffer, 0, 0))
  {
    labels := [DrainRead];
    RunOfOne(retries, s, DrainRead);
  }

  lemma HandleAllStep(retries: int, w: FeedbackHistory.Worker, events: seq<Event>, n: nat)
    requires 0 < n <= |events|
    ensures var (middle, count) := FeedbackHistory.HandleAll(retries, w, events[..n - 1]);
            var (after, ok) := FeedbackHistory.HandleEvent(retries, middle, events[n - 1]);
            FeedbackHistory.HandleAll(retries, w, events[..n]) == (after, count + if ok then 1 else 0)
  {
    assert events[..n][..n - 1] == events[..n - 1];
  }

  lemma ReplayNext(retries: int, s: State, w: FeedbackHistory.Worker, n: nat, written: nat, s1: State)
      returns (labels: seq<Label>)
    requires s.worker.Idle? && 0 < n <= |s.buffer| && s1 == Replaying(retries, s, w, s.buffer, n - 1, written)
    ensures var (after, ok) := FeedbackHistory.HandleEvent(retries, w, s.buffer[n - 1]);
            && Undisturbed(labels)
            && Leads(retries, s1, labels, Replaying(retries, s, after, s.buffer, n, written + if ok then 1 else 0))
  {
    var e := s.buffer[n - 1];
    HandleCallIsARun(retries, s1, w, e);
    var handling := AttemptLabels(w.store, e, retries);
    var s2 := AfterFrom(retries, s1, handling);
    RunOfOne(retries, s2, DrainNext);
    RunsConcat(retries, s1, handling, [DrainNext]);
    labels := handling + [DrainNext];
    AttemptsAreUndisturbed(w.store, e, retries);
    UndisturbedConcat(handling, [DrainNext]);
  }

  /** The state after the first `n` buffered events were handled. */
  ghost function Replayed(retries: int, s: State, w: FeedbackHistory.Worker, n: nat): State
    requires n <= |s.buffer|
  {
    var (after, written) := FeedbackHistory.HandleAll(retries, w, s.buffer[..n]);
    Replaying(retries, s, after, s.buffer, n, written)
  }

  lemma ReplayStep(retries: int, s: State, w: FeedbackHistory.Worker, n: nat) returns (labels: seq<Label>)
    requires s.worker.Idle? && 0 < n <= |s.buffer|
    ensures Undisturbed(labels) && Leads(retries, Replayed(retries, s, w, n - 1), labels, Replayed(retries, s, w, n))
  {
    var (middle, count) := FeedbackHistory.HandleAll(retries, w, s.buffer[..n - 1]);
    labels := ReplayNext(retries, s, middle, n, count, Replaying(retries, s, middle, s.buffer, n - 1, count));
    HandleAllStep(retries, w, s.buffer, n);
  }

  lemma {:induction false} ReplayIsARun(retries: int, s: State, w: FeedbackHistory.Worker, n: nat)
      returns (labels: seq<Label>)
    requires s.worker.Idle? && Matches(s, w.store) && n <= |s.buffer|
    ensures Undisturbed(labels) && Leads(retries, s, labels, Replayed(retries, s, w, n))
  {
    if n == 0 {
      labels := ReplayStart(retries, s, w);
    } else {
      var before := ReplayIsARun(retries, s, w, n - 1);
      var step := ReplayStep(retries, s, w, n);
      LeadsOn(retries, s, before, Replayed(retries, s, w, n - 1), step, Replayed(retries, s, w, n));
      UndisturbedConcat(before, step);
      labels := before + step;
    }
  }

  /** `drain_retry_buffer`, undisturbed, is a run that clears the buffer exactly when all of it was handled. */
  lemma DrainIsARun(retries: int, s: State, w: FeedbackHistory.Worker) returns (labels: seq<Label>)
    requires s.worker.Idle? && Matches(s, w.store)
    ensures var (after, written) := FeedbackHistory.HandleAll(retries, w, s.buffer);
            && Undisturbed(labels)
            && RunFrom(retries, s, labels)
            && AfterFrom(retries, s, labels) ==
               s.(buffer := if written == |s.buffer| then [] else s.buffer,
                  history := Documents(after.store.lines), index := after.store.keys)
  {
    var replay := ReplayIsARun(retries, s, w, |s.buffer|);
    assert s.buffer[..|s.buffer|] == s.buffer;
    var s1 := AfterFrom(retries, s, replay);
    var last := if FeedbackHistory.HandleAll(retries, w, s.buffer).1 == |s.buffer| then DrainClear else DrainKeep;
    RunOfOne(retries, s1, last);
    RunsConcat(retries, s, replay, [last]);
    labels := replay + [last];
    UndisturbedConcat(replay, [last]);
  }
}
