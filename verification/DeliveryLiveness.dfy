/** Quiescent delivery. */
module DeliveryLiveness {
  // Quiescent delivery: once publishing stops, the repository stays healthy and the worker is
  // not killed, every schedule of the worker is finite, and where it ends the queue and the
  // buffer are empty and each event that was still held is in the history exactly once.

  import opened Texts
  import opened Events
  import opened Delivery
  import opened DeliverySafety
  import opened DeliveryLoss

  /** The worker's own steps; it replays the buffer only when the file exists. */
  ghost predicate Healthy(s: State, l: Label) {
    !l.Publish? && !l.AttemptFails? && !l.Crash? && (l.DrainRead? ==> s.buffer != [])
  }

  ghost predicate Quiescent(s: State) {
    s.worker.Idle? && s.ready == [] && s.buffer == []
  }

  ghost predicate Stuck(s: State) {
    forall l :: Enabled(s, l) ==> !Healthy(s, l)
  }

  /** `ls + more` is a run whose steps after `ls` are all healthy. */
  ghost predicate HealthyRun(retries: int, ls: seq<Label>, more: seq<Label>)
    decreases |more|
  {
    && Run(retries, ls + more)
    && (more == [] ||
        (HealthyRun(retries, ls, more[..|more| - 1]) &&
         Healthy(After(retries, ls + more[..|more| - 1]), more[|more| - 1])))
  }

  /** Steps a healthy worker still needs inside one `handle` call. */
  function PhaseCost(phase: Phase): nat {
    match phase
    case Attempting(_) => 3
    case LineWritten => 2
    case Handled(_) => 1
  }

  /** Steps of a whole replay of `n` buffered events. */
  function ReplayCost(n: nat): nat {
    if n == 0 then 0 else 4 * n + 2
  }

  /** An upper bound on the healthy steps left. */
  function Measure(s: State): nat {
    4 * |s.ready| +
    match s.worker
    case Down => 1 + ReplayCost(|s.buffer|)
    case Idle => ReplayCost(|s.buffer|)
    case Busy(FromBroker(_), phase) =>
      PhaseCost(phase) + (if phase == Handled(false) then 4 else 0) + ReplayCost(|s.buffer|)
    case Busy(FromBuffer(snapshot, next, written), phase) =>
      (if next < |snapshot| then PhaseCost(phase) + 4 * (|snapshot| - next - 1) else 0) + 1 +
      (if written != next || phase == Handled(false) then ReplayCost(|s.buffer|) else 0)
  }

  lemma HealthyStepsDecrease(retries: int, s: State, l: Label)
    requires retries >= 1 && Inv(s) && Enabled(s, l) && Healthy(s, l)
    ensures Measure(Next(retries, s, l)) < Measure(s)
  {
  }

  /** Short of quiescence the worker always has a healthy step to take. */
  lemma NextHealthyStep(s: State) returns (l: Label)
    requires Inv(s) && !Quiescent(s)
    ensures Enabled(s, l) && Healthy(s, l)
  {
    match s.worker
    case Down => l := Restart;
    case Idle => l := if s.ready != [] then Get else DrainRead;
    case Busy(job, phase) =>
      if !HasCurrent(job) {
        l := if job.written == |job.snapshot| then DrainClear else DrainKeep;
      } else {
        match phase
        case Attempting(_) => l := if Current(job).id in s.index then SkipKnown else WriteLine;
        case LineWritten => l := IndexKey;
        case Handled(ok) => l := if job.FromBuffer? then DrainNext else if ok then Ack else Nack(0);
      }
  }

  lemma LastStepHealthy(retries: int, ls: seq<Label>, more: seq<Label>)
    requires HealthyRun(retries, ls, more) && more != []
    ensures HealthyRun(retries, ls, more[..|more| - 1])
    ensures Healthy(After(retries, ls + more[..|more| - 1]), more[|more| - 1])
    ensures Enabled(After(retries, ls + more[..|more| - 1]), more[|more| - 1])
  {
    assert (ls + more)[..|ls + more| - 1] == ls + more[..|more| - 1];
    LastStep(retries, ls + more);
  }

  lemma LastStep(retries: int, all: seq<Label>)
    requires all != [] && Run(retries, all)
    ensures Run(retries, all[..|all| - 1])
    ensures Enabled(After(retries, all[..|all| - 1]), all[|all| - 1])
    ensures After(retries, all) == Next(retries, After(retries, all[..|all| - 1]), all[|all| - 1])
  {
  }

  lemma LastStepShrinks(retries: int, ls: seq<Label>, more: seq<Label>)
    requires retries >= 1 && Run(retries, ls) && HealthyRun(retries, ls, more) && more != []
    ensures HealthyRun(retries, ls, more[..|more| - 1])
    ensures Measure(After(retries, ls + more)) < Measure(After(retries, ls + more[..|more| - 1]))
  {
    var before, l := ls + more[..|more| - 1], more[|more| - 1];
    LastStepHealthy(retries, ls, more);
    assert (ls + more)[..|ls + more| - 1] == before;
    LastStep(retries, ls + more);
    AtMostOnce(retries, before);
    HealthyStepsDecrease(retries, After(retries, before), l);
  }

  /** Every healthy schedule is bounded by the measure of the state it starts from. */
  lemma {:induction false} HealthySchedulesAreFinite(retries: int, ls: seq<Label>, more: seq<Label>, start: nat,
      end: nat)
    requires retries >= 1 && Run(retries, ls) && HealthyRun(retries, ls, more)
    requires start == Measure(After(retries, ls)) && end == Measure(After(retries, ls + more))
    ensures |more| + end <= start
  {
    if more == [] {
      assert ls + more == ls;
    } else {
      var before := more[..|more| - 1];
      LastStepShrinks(retries, ls, more);
      HealthySchedulesAreFinite(retries, ls, before, start, Measure(After(retries, ls + before)));
    }
  }

  lemma LedgerOfHealthyStep(before: seq<Label>, l: Label, all: seq<Label>)
    requires all == before + [l] && !l.Publish? && !l.Crash?
    ensures LedgerOf(all).delivered == LedgerOf(before).delivered
    ensures LedgerOf(before).settled <= LedgerOf(all).settled <= LedgerOf(before).settled + LedgerOf(before).late
    ensures LedgerOf(all).late <= LedgerOf(before).late
  {
    assert all[..|all| - 1] == before;
  }

  lemma {:induction false} HealthyRunIsUndisturbed(retries: int, ls: seq<Label>, more: seq<Label>)
    requires HealthyRun(retries, ls, more)
    ensures Undisturbed(more)
  {
    if more != [] {
      LastStepHealthy(retries, ls, more);
      HealthyRunIsUndisturbed(retries, ls, more[..|more| - 1]);
      assert more == more[..|more| - 1] + [more[|more| - 1]];
    }
  }

  /** Without publishes and crashes every surviving copy is kept, except late ones when their own drain clears. */
  lemma {:induction false} UndisturbedKeepsTheLedger(ls: seq<Label>, more: seq<Label>)
    requires Undisturbed(more)
    ensures LedgerOf(ls).delivered == LedgerOf(ls + more).delivered
    ensures LedgerOf(ls).settled <= LedgerOf(ls + more).settled <= LedgerOf(ls).settled + LedgerOf(ls).late
    ensures LedgerOf(ls + more).late <= LedgerOf(ls).late
  {
    if more == [] {
      assert ls + more == ls;
    } else {
      var before, l := more[..|more| - 1], more[|more| - 1];
      UndisturbedKeepsTheLedger(ls, before);
      assert ls + more == ls + before + [l];
      LedgerOfHealthyStep(ls + before, l, ls + more);
    }
  }

  function Occurrences(events: seq<Event>, id: Text): nat {
    if events == [] then 0 else Occurrences(events[1..], id) + if events[0].id == id then 1 else 0
  }

  lemma {:induction false} DistinctIdsOccurOnce(events: seq<Event>, id: Text)
    requires DistinctIds(events)
    ensures Occurrences(events, id) == if id in Ids(events) then 1 else 0
  {
    if events != [] {
      DistinctIdsOccurOnce(events[1..], id);
      assert events == [events[0]] + events[1..];
      IdsOfConcat([events[0]], events[1..]);
      IdsOfSingleton(events[0]);
      forall i | 0 <= i < |events[1..]| ensures events[1..][i].id != events[0].id {
        assert events[1..][i] == events[i + 1];
      }
    }
  }

  lemma StuckIsQuiescent(retries: int, ls: seq<Label>)
    requires Run(retries, ls) && Stuck(After(retries, ls))
    ensures Quiescent(After(retries, ls))
  {
    AtMostOnce(retries, ls);
    if !Quiescent(After(retries, ls)) {
      var l := NextHealthyStep(After(retries, ls));
    }
  }

  /** The history holds each surviving event once and nothing else. */
  ghost predicate SurvivorsOnce(ls: seq<Label>, history: seq<Event>) {
    forall id :: Occurrences(history, id) == if exists p: nat :: Survives(ls, p, id) then 1 else 0
  }

  lemma DeliveredOnce(retries: int, ls: seq<Label>)
    requires Run(retries, ls) && Quiescent(After(retries, ls))
    ensures SurvivorsOnce(ls, After(retries, ls).history)
  {
    var s := After(retries, ls);
    AtMostOnce(retries, ls);
    forall id ensures Occurrences(s.history, id) == if exists p: nat :: Survives(ls, p, id) then 1 else 0 {
      DistinctIdsOccurOnce(s.history, id);
      NoEventLostExactly(retries, ls, id);
    }
  }

  /** What was held before a healthy schedule is in the history at its quiescent end. */
  lemma EarlierEventsDelivered(retries: int, ls: seq<Label>, more: seq<Label>)
    requires Run(retries, ls) && HealthyRun(retries, ls, more) && Quiescent(After(retries, ls + more))
    ensures HeldIds(After(retries, ls)) - LedgerOf(ls).late <= Ids(After(retries, ls + more).history)
    ensures OpenWindow(ls) < 0 ==> Ids(After(retries, ls + more).history) == HeldIds(After(retries, ls))
  {
    HealthyRunIsUndisturbed(retries, ls, more);
    UndisturbedKeepsTheHeld(retries, ls, more);
  }

  /** Without publishes and crashes, and outside drains, what is held stays held and nothing is added to it. */
  lemma UndisturbedKeepsTheHeld(retries: int, ls: seq<Label>, more: seq<Label>)
    requires Run(retries, ls) && Run(retries, ls + more) && Undisturbed(more)
    ensures HeldIds(After(retries, ls)) - LedgerOf(ls).late <= HeldIds(After(retries, ls + more))
    ensures OpenWindow(ls) < 0 ==> HeldIds(After(retries, ls + more)) == HeldIds(After(retries, ls))
  {
    LedgerHolds(retries, ls);
    LedgerInvHeld(After(retries, ls), LedgerOf(ls));
    LedgerHolds(retries, ls + more);
    LedgerInvHeld(After(retries, ls + more), LedgerOf(ls + more));
    UndisturbedKeepsTheLedger(ls, more);
    WindowIsTheWorkersDrain(retries, ls);
  }

  /**
   Quiescent delivery, for every reachable state and every healthy schedule: it has at most
   `Measure` steps, and where no healthy step is left the queue and the buffer are empty and the
   history holds each surviving event exactly once and nothing else. When no drain was in progress
   at the start, the surviving events are all the events held then.
   */
  lemma QuiescentDelivery(retries: int, ls: seq<Label>, more: seq<Label>)
    requires retries >= 1 && Run(retries, ls) && HealthyRun(retries, ls, more)
    ensures |more| <= Measure(After(retries, ls))
    ensures Stuck(After(retries, ls + more)) ==>
              var s := After(retries, ls + more);
              && Quiescent(s)
              && SurvivorsOnce(ls + more, s.history)
              && HeldIds(After(retries, ls)) - LedgerOf(ls).late <= Ids(s.history)
              && (OpenWindow(ls) < 0 ==> Ids(s.history) == HeldIds(After(retries, ls)))
  {
    HealthySchedulesAreFinite(retries, ls, more, Measure(After(retries, ls)), Measure(After(retries, ls + more)));
    if Stuck(After(retries, ls + more)) {
      QuiescentEnd(retries, ls, more, ls + more);
    }
  }

  lemma QuiescentEnd(retries: int, ls: seq<Label>, more: seq<Label>, all: seq<Label>)
    requires Run(retries, ls) && HealthyRun(retries, ls, more) && all == ls + more && Stuck(After(retries, all))
    ensures Quiescent(After(retries, all)) && SurvivorsOnce(all, After(retries, all).history)
    ensures HeldIds(After(retries, ls)) - LedgerOf(ls).late <= Ids(After(retries, all).history)
    ensures OpenWindow(ls) < 0 ==> Ids(After(retries, all).history) == HeldIds(After(retries, ls))
  {
    StuckIsQuiescent(retries, all);
    DeliveredOnce(retries, all);
    EarlierEventsDelivered(retries, ls, more);
  }

  /** From every reachable state there is a healthy schedule that ends quiescent. */
  lemma {:induction false} DeliveryCompletes(retries: int, ls: seq<Label>) returns (more: seq<Label>)
    requires retries >= 1 && Run(retries, ls)
    ensures HealthyRun(retries, ls, more) && Quiescent(After(retries, ls + more))
    decreases Measure(After(retries, ls))
  {
    var s := After(retries, ls);
    AtMostOnce(retries, ls);
    if Quiescent(s) {
      more := [];
      assert ls + more == ls;
    } else {
      var l := NextHealthyStep(s);
      RunExtends(retries, ls, l);
      HealthyStepsDecrease(retries, s, l);
      var rest := DeliveryCompletes(retries, ls + [l]);
      more := [l] + rest;
      PrependHealthyStep(retries, ls, l, rest);
      MoveFirst(ls, l, rest);
    }
  }

  lemma AppendHealthyStep(retries: int, ls: seq<Label>, before: seq<Label>, at: seq<Label>, l: Label, more: seq<Label>)
    requires Run(retries, ls) && HealthyRun(retries, ls, before) && at == ls + before && more == before + [l]
    requires Run(retries, at) && Healthy(After(retries, at), l) && Enabled(After(retries, at), l)
    ensures HealthyRun(retries, ls, more)
  {
    assert more[..|more| - 1] == before && ls + more == at + [l];
    RunExtends(retries, at, l);
  }

  lemma MoveFirst(ls: seq<Label>, l: Label, rest: seq<Label>)
    ensures ls + ([l] + rest) == ls + [l] + rest
    ensures rest != [] ==> [l] + rest == [l] + rest[..|rest| - 1] + [rest[|rest| - 1]]
    ensures rest == [] ==> [l] + rest == [l]
  {
  }

  lemma PrependToLast(retries: int, ls: seq<Label>, l: Label, rest: seq<Label>, before: seq<Label>)
    requires Run(retries, ls) && Run(retries, ls + [l]) && HealthyRun(retries, ls + [l], rest)
    requires rest != [] && before == rest[..|rest| - 1] && HealthyRun(retries, ls, [l] + before)
    ensures HealthyRun(retries, ls, [l] + rest)
  {
    LastStepHealthy(retries, ls + [l], rest);
    MoveFirst(ls, l, before);
    MoveFirst(ls, l, rest);
    AppendHealthyStep(retries, ls, [l] + before, ls + [l] + before, rest[|rest| - 1], [l] + rest);
  }

  lemma {:induction false} PrependHealthyStep(retries: int, ls: seq<Label>, l: Label, rest: seq<Label>)
    requires Run(retries, ls) && Enabled(After(retries, ls), l) && Healthy(After(retries, ls), l)
    requires Run(retries, ls + [l]) && HealthyRun(retries, ls + [l], rest)
    ensures HealthyRun(retries, ls, [l] + rest)
  {
    MoveFirst(ls, l, rest);
    if rest == [] {
      assert ls + [] == ls;
      AppendHealthyStep(retries, ls, [], ls, l, [l]);
    } else {
      LastStepHealthy(retries, ls + [l], rest);
      PrependHealthyStep(retries, ls, l, rest[..|rest| - 1]);
      PrependToLast(retries, ls, l, rest, rest[..|rest| - 1]);
    }
  }

  /** The retry budget is needed: with no attempts at all the history stays empty in every run. */
  lemma {:induction false} WithoutAttemptsNothingIsWritten(retries: int, ls: seq<Label>)
    requires retries <= 0 && Run(retries, ls)
    ensures After(retries, ls).history == []
    ensures After(retries, ls).worker.Busy? ==> !After(retries, ls).worker.phase.Attempting?
  {
    if ls != [] {
      WithoutAttemptsNothingIsWritten(retries, ls[..|ls| - 1]);
    }
  }
}
