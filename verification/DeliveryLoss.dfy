/** Which events are lost. */
module DeliveryLoss {
  // No event is lost, and the exact exception.
  //
  // Which events survive is defined on the labels of a run alone; the theorem says that what
  // the protocol still holds is exactly that, for every interleaving.

  import opened Texts
  import opened Events
  import opened Delivery
  import opened DeliverySafety

  predicate Buffers(l: Label) {
    l.Publish? && !l.outcome.Queued?
  }

  predicate Delivers(l: Label) {
    l.Publish? && !l.outcome.Refused?
  }

  predicate DrainBoundary(l: Label) {
    l.DrainRead? || l.DrainClear? || l.DrainKeep? || l.Crash?
  }

  /** Steps `r` and `c` are the `read_all` and the `clear` of one and the same drain. */
  ghost predicate SameDrain(ls: seq<Label>, r: nat, c: nat) {
    r < c < |ls| && ls[r].DrainRead? && ls[c].DrainClear? && forall i :: r < i < c ==> !DrainBoundary(ls[i])
  }

  /** The buffered copy of publication `p` was appended between the read and the clear of a drain. */
  ghost predicate DroppedAt(ls: seq<Label>, p: nat) {
    p < |ls| && Buffers(ls[p]) && exists r: nat, c: nat :: r < p < c && SameDrain(ls, r, c)
  }

  /** Publication `p` of event `id` reached the broker, or its buffered copy was not dropped. */
  ghost predicate Survives(ls: seq<Label>, p: nat, id: Text) {
    p < |ls| && ls[p].Publish? && ls[p].event.id == id && (Delivers(ls[p]) || !DroppedAt(ls, p))
  }

  /** Position of the `DrainRead` of the drain in progress, or -1. */
  ghost function OpenWindow(ls: seq<Label>): (w: int)
    ensures -1 <= w < |ls|
    ensures w >= 0 ==> ls[w].DrainRead?
  {
    if ls == [] then -1
    else if ls[|ls| - 1].DrainRead? then |ls| - 1
    else if DrainBoundary(ls[|ls| - 1]) then -1
    else OpenWindow(ls[..|ls| - 1])
  }

  lemma {:induction false} OpenWindowHasNoBoundary(ls: seq<Label>, i: int)
    requires 0 <= OpenWindow(ls) < i < |ls|
    ensures !DrainBoundary(ls[i])
  {
    if i < |ls| - 1 {
      OpenWindowHasNoBoundary(ls[..|ls| - 1], i);
    }
  }

  lemma {:induction false} OpenWindowIsTheLastRead(ls: seq<Label>, r: nat)
    requires r < |ls| && ls[r].DrainRead? && forall i :: r < i < |ls| ==> !DrainBoundary(ls[i])
    ensures OpenWindow(ls) == r
  {
    if r < |ls| - 1 {
      OpenWindowIsTheLastRead(ls[..|ls| - 1], r);
    }
  }

  /** A drain is in progress in the labels exactly when the worker is draining. */
  lemma {:induction false} WindowIsTheWorkersDrain(retries: int, ls: seq<Label>)
    requires Run(retries, ls)
    ensures OpenWindow(ls) >= 0 <==> After(retries, ls).worker.Busy? && After(retries, ls).worker.job.FromBuffer?
  {
    if ls != [] {
      WindowIsTheWorkersDrain(retries, ls[..|ls| - 1]);
    }
  }

  /** Only a clear drops copies, and it drops those buffered since the read of its own drain. */
  lemma DroppedByLastStep(ls: seq<Label>, l: Label, p: nat)
    requires p <= |ls|
    ensures DroppedAt(ls + [l], p) <==>
              DroppedAt(ls, p) ||
              (l.DrainClear? && p < |ls| && Buffers(ls[p]) && 0 <= OpenWindow(ls) < p)
  {
    var all := ls + [l];
    if DroppedAt(all, p) {
      var r: nat, c: nat :| r < p < c && SameDrain(all, r, c);
      if c < |ls| {
        forall i | r < i < c ensures !DrainBoundary(ls[i]) { assert all[i] == ls[i]; }
        assert SameDrain(ls, r, c);
      } else {
        forall i | r < i < |ls| ensures !DrainBoundary(ls[i]) { assert all[i] == ls[i]; }
        OpenWindowIsTheLastRead(ls, r);
      }
    }
    if DroppedAt(ls, p) {
      var r: nat, c: nat :| r < p < c && SameDrain(ls, r, c);
      assert SameDrain(all, r, c);
    }
    if l.DrainClear? && p < |ls| && Buffers(ls[p]) && 0 <= OpenWindow(ls) < p {
      var w := OpenWindow(ls);
      forall i | w < i < |ls| ensures !DrainBoundary(all[i]) { OpenWindowHasNoBoundary(ls, i); }
      assert SameDrain(all, w, |ls|);
    }
  }

  /** Where the surviving copies of a run stand, by label alone. */
  datatype Ledger = Ledger(delivered: set<Text>, settled: set<Text>, late: set<Text>)

  ghost function LedgerOf(ls: seq<Label>): Ledger {
    if ls == [] then Ledger({}, {}, {})
    else
      var before := ls[..|ls| - 1];
      var g := LedgerOf(before);
      match ls[|ls| - 1]
      case Publish(e, outcome) =>
        var open := OpenWindow(before) >= 0;
        Ledger(g.delivered + (if outcome.Refused? then {} else {e.id}),
               g.settled + (if outcome.Queued? || open then {} else {e.id}),
               g.late + (if outcome.Queued? || !open then {} else {e.id}))
      case DrainClear => g.(late := {})
      case DrainRead => Ledger(g.delivered, g.settled + g.late, {})
      case DrainKeep => Ledger(g.delivered, g.settled + g.late, {})
      case Crash(_) => Ledger(g.delivered, g.settled + g.late, {})
      case _ => g
  }

  ghost predicate DeliveredWitness(ls: seq<Label>, p: nat, id: Text) {
    p < |ls| && Delivers(ls[p]) && ls[p].event.id == id
  }

  ghost predicate BufferedWitness(ls: seq<Label>, p: nat, id: Text, late: bool) {
    && p < |ls| && Buffers(ls[p]) && ls[p].event.id == id && !DroppedAt(ls, p)
    && (late <==> 0 <= OpenWindow(ls) < p)
  }

  lemma {:induction false} DeliveredExactly(ls: seq<Label>, id: Text)
    ensures id in LedgerOf(ls).delivered <==> exists p: nat :: DeliveredWitness(ls, p, id)
  {
    if ls != [] {
      var before := ls[..|ls| - 1];
      DeliveredExactly(before, id);
      if p: nat :| DeliveredWitness(before, p, id) {
        assert DeliveredWitness(ls, p, id);
      }
      if p: nat :| DeliveredWitness(ls, p, id) {
        assert p < |before| ==> DeliveredWitness(before, p, id);
      }
      assert Delivers(ls[|ls| - 1]) && ls[|ls| - 1].event.id == id ==> DeliveredWitness(ls, |ls| - 1, id);
    }
  }

  /** How one more label moves the earlier buffered copies between settled, late and dropped. */
  lemma OldCopiesStep(ls: seq<Label>, l: Label, p: nat, id: Text)
    requires p < |ls|
    ensures BufferedWitness(ls + [l], p, id, false) <==>
              BufferedWitness(ls, p, id, false) ||
              (BufferedWitness(ls, p, id, true) && DrainBoundary(l) && !l.DrainClear?)
    ensures BufferedWitness(ls + [l], p, id, true) <==> BufferedWitness(ls, p, id, true) && !DrainBoundary(l)
  {
    assert (ls + [l])[..|ls|] == ls;
    DroppedByLastStep(ls, l, p);
  }

  lemma NewCopyStep(ls: seq<Label>, l: Label, id: Text, late: bool)
    ensures BufferedWitness(ls + [l], |ls|, id, late) <==>
              Buffers(l) && l.event.id == id && late == (OpenWindow(ls) >= 0)
  {
    assert (ls + [l])[..|ls|] == ls;
    DroppedByLastStep(ls, l, |ls|);
  }

  lemma {:induction false} BufferedExactly(ls: seq<Label>, id: Text)
    ensures id in LedgerOf(ls).settled <==> exists p: nat :: BufferedWitness(ls, p, id, false)
    ensures id in LedgerOf(ls).late <==> exists p: nat :: BufferedWitness(ls, p, id, true)
  {
    if ls != [] {
      var before, l := ls[..|ls| - 1], ls[|ls| - 1];
      assert ls == before + [l];
      BufferedExactly(before, id);
      NewCopyStep(before, l, id, false);
      NewCopyStep(before, l, id, true);
      forall late: bool, p: nat | BufferedWitness(before, p, id, late)
        ensures BufferedWitness(ls, p, id, false) || BufferedWitness(ls, p, id, true) || l.DrainClear?
      {
        OldCopiesStep(before, l, p, id);
      }
      forall late: bool, p: nat | BufferedWitness(ls, p, id, late)
        ensures p == |before| || BufferedWitness(before, p, id, late) ||
                (!late && DrainBoundary(l) && !l.DrainClear? && BufferedWitness(before, p, id, true))
      {
        if p < |before| { OldCopiesStep(before, l, p, id); }
      }
      forall p: nat | BufferedWitness(before, p, id, false) ensures BufferedWitness(ls, p, id, false) {
        OldCopiesStep(before, l, p, id);
      }
      forall p: nat | BufferedWitness(before, p, id, true)
        ensures !DrainBoundary(l) ==> BufferedWitness(ls, p, id, true)
        ensures DrainBoundary(l) && !l.DrainClear? ==> BufferedWitness(ls, p, id, false)
      {
        OldCopiesStep(before, l, p, id);
      }
    }
  }

  /** Where each surviving copy physically is. */
  ghost predicate LedgerInv(s: State, g: Ledger) {
    && Ids(s.ready) + Unacked(s) <= g.delivered <= Ids(s.ready) + Unacked(s) + Ids(s.history)
    && Ids(s.history) <= g.delivered + g.settled
    && (if s.worker.Busy? && s.worker.job.FromBuffer? then
          var snapshot := s.worker.job.snapshot;
          && snapshot <= s.buffer
          && Ids(snapshot) <= g.settled <= Ids(snapshot) + Ids(s.history)
          && g.late == Ids(s.buffer[|snapshot|..])
        else
          g.late == {} && Ids(s.buffer) <= g.settled <= Ids(s.buffer) + Ids(s.history))
  }

  lemma LedgerInvHeld(s: State, g: Ledger)
    requires LedgerInv(s, g)
    ensures HeldIds(s) == g.delivered + g.settled + g.late
  {
    if s.worker.Busy? && s.worker.job.FromBuffer? {
      var n := |s.worker.job.snapshot|;
      assert s.buffer == s.worker.job.snapshot + s.buffer[n..];
      IdsOfConcat(s.worker.job.snapshot, s.buffer[n..]);
    }
  }

  lemma {:induction false} LedgerHolds(retries: int, ls: seq<Label>)
    requires Run(retries, ls)
    ensures LedgerInv(After(retries, ls), LedgerOf(ls))
  {
    if ls != [] {
      var before, l := ls[..|ls| - 1], ls[|ls| - 1];
      LedgerHolds(retries, before);
      AtMostOnce(retries, before);
      WindowIsTheWorkersDrain(retries, before);
      LedgerStep(retries, After(retries, before), before, l);
      assert ls == before + [l];
    }
  }

  lemma LedgerStep(retries: int, s: State, before: seq<Label>, l: Label)
    requires Inv(s) && Enabled(s, l) && LedgerInv(s, LedgerOf(before))
    requires OpenWindow(before) >= 0 <==> s.worker.Busy? && s.worker.job.FromBuffer?
    ensures LedgerInv(Next(retries, s, l), LedgerOf(before + [l]))
  {
    assert (before + [l])[..|before|] == before;
    match l
    case Publish(e, outcome) => LedgerPublish(retries, s, before, e, outcome);
    case Get => LedgerGet(retries, s, LedgerOf(before));
    case WriteLine =>
      IdsOfConcat(s.history, [Current(s.worker.job)]);
      IdsOfSingleton(Current(s.worker.job));
    case Nack(at) => IdsOfInsert(s.ready, at, s.worker.job.event);
    case DrainRead => assert s.buffer[|s.buffer|..] == [];
    case DrainClear => assert s.worker.job.snapshot[..s.worker.job.next] == s.worker.job.snapshot;
    case DrainKeep => BufferSplits(s);
    case Crash(at) => LedgerCrash(retries, s, LedgerOf(before), at);
    case _ =>
  }

  lemma LedgerPublish(retries: int, s: State, before: seq<Label>, e: Event, outcome: Outcome)
    requires LedgerInv(s, LedgerOf(before))
    requires OpenWindow(before) >= 0 <==> s.worker.Busy? && s.worker.job.FromBuffer?
    ensures LedgerInv(Next(retries, s, Publish(e, outcome)), LedgerOf(before + [Publish(e, outcome)]))
  {
    assert (before + [Publish(e, outcome)])[..|before|] == before;
    IdsOfSingleton(e);
    IdsOfConcat(s.ready, [e]);
    IdsOfConcat(s.buffer, [e]);
    if s.worker.Busy? && s.worker.job.FromBuffer? {
      var n := |s.worker.job.snapshot|;
      assert (s.buffer + [e])[n..] == s.buffer[n..] + [e];
      IdsOfConcat(s.buffer[n..], [e]);
    }
  }

  lemma LedgerGet(retries: int, s: State, g: Ledger)
    requires Enabled(s, Get) && LedgerInv(s, g)
    ensures LedgerInv(Next(retries, s, Get), g)
  {
    assert s.ready == [s.ready[0]] + s.ready[1..];
    IdsOfConcat([s.ready[0]], s.ready[1..]);
    IdsOfSingleton(s.ready[0]);
  }

  lemma LedgerCrash(retries: int, s: State, g: Ledger, at: nat)
    requires Enabled(s, Crash(at)) && LedgerInv(s, g)
    ensures LedgerInv(Next(retries, s, Crash(at)), Ledger(g.delivered, g.settled + g.late, {}))
  {
    if s.worker.Busy? && s.worker.job.FromBroker? {
      IdsOfInsert(s.ready, at, s.worker.job.event);
    } else {
      BufferSplits(s);
    }
  }

  lemma BufferSplits(s: State)
    ensures s.worker.Busy? && s.worker.job.FromBuffer? && s.worker.job.snapshot <= s.buffer ==>
              Ids(s.buffer) == Ids(s.worker.job.snapshot) + Ids(s.buffer[|s.worker.job.snapshot|..])
  {
    if s.worker.Busy? && s.worker.job.FromBuffer? && s.worker.job.snapshot <= s.buffer {
      var n := |s.worker.job.snapshot|;
      assert s.buffer == s.worker.job.snapshot + s.buffer[n..];
      IdsOfConcat(s.worker.job.snapshot, s.buffer[n..]);
    }
  }

  /**
   The loss theorem: in every run, an event is still held by the broker, the buffer or the
   history exactly when one of its publications was queued, or was buffered outside every
   read-to-clear window of a drain that cleared.
   */
  lemma NoEventLostExactly(retries: int, ls: seq<Label>, id: Text)
    requires Run(retries, ls)
    ensures id in HeldIds(After(retries, ls)) <==> exists p: nat :: Survives(ls, p, id)
  {
    LedgerHolds(retries, ls);
    LedgerInvHeld(After(retries, ls), LedgerOf(ls));
    DeliveredExactly(ls, id);
    BufferedExactly(ls, id);
    if p: nat :| Survives(ls, p, id) {
      if Delivers(ls[p]) {
        assert DeliveredWitness(ls, p, id);
      } else {
        var late := 0 <= OpenWindow(ls) < p;
        assert BufferedWitness(ls, p, id, late);
      }
    }
    if id in LedgerOf(ls).delivered {
      var p: nat :| DeliveredWitness(ls, p, id);
      assert Survives(ls, p, id);
    }
    if id in LedgerOf(ls).settled {
      var p: nat :| BufferedWitness(ls, p, id, false);
      assert Survives(ls, p, id);
    }
    if id in LedgerOf(ls).late {
      var p: nat :| BufferedWitness(ls, p, id, true);
      assert Survives(ls, p, id);
    }
  }

  /** With drains no publisher appends into, every published event is held for ever. */
  lemma NothingLostWithAtomicDrains(retries: int, ls: seq<Label>, p: nat)
    requires Run(retries, ls) && p < |ls| && ls[p].Publish?
    requires forall q: nat :: q < |ls| && Buffers(ls[q]) ==> OpenWindow(ls[..q]) < 0
    ensures ls[p].event.id in HeldIds(After(retries, ls))
  {
    if DroppedAt(ls, p) {
      var r: nat, c: nat :| r < p < c && SameDrain(ls, r, c);
      forall i | r < i < p ensures !DrainBoundary(ls[..p][i]) { assert ls[..p][i] == ls[i]; }
      OpenWindowIsTheLastRead(ls[..p], r);
      assert false;
    }
    assert Survives(ls, p, ls[p].event.id);
    NoEventLostExactly(retries, ls, ls[p].event.id);
  }

  function DrainOf(first: Event): seq<Label> {
    [Restart, Publish(first, Refused), DrainRead] + [WriteLine, IndexKey, DrainNext]
  }

  lemma DrainStarts(first: Event)
    ensures var ls := [Restart, Publish(first, Refused), DrainRead];
            && Run(3, ls)
            && After(3, ls) == State([], [first], [], {}, Busy(FromBuffer([first], 0, 0), Attempting(0)))
  {
    RunExtends(3, [], Restart);
    RunExtends(3, [Restart], Publish(first, Refused));
    RunExtends(3, [Restart, Publish(first, Refused)], DrainRead);
    assert [] + [Restart] == [Restart];
    assert [Restart] + [Publish(first, Refused)] == [Restart, Publish(first, Refused)];
    assert [Restart, Publish(first, Refused)] + [DrainRead] == [Restart, Publish(first, Refused), DrainRead];
    assert After(3, [Restart]) == State([], [], [], {}, Idle);
    assert After(3, [Restart, Publish(first, Refused)]) == State([], [first], [], {}, Idle);
  }

  lemma DrainHandlesItsSnapshot(first: Event)
    ensures Run(3, DrainOf(first))
    ensures After(3, DrainOf(first)) ==
              State([], [first], [first], {first.id}, Busy(FromBuffer([first], 1, 1), Handled(true)))
  {
    var ls := [Restart, Publish(first, Refused), DrainRead];
    DrainStarts(first);
    RunExtends(3, ls, WriteLine);
    RunExtends(3, ls + [WriteLine], IndexKey);
    RunExtends(3, ls + [WriteLine] + [IndexKey], DrainNext);
    assert ls + [WriteLine] + [IndexKey] + [DrainNext] == DrainOf(first);
  }

  /** The exception is real: an event refused while a drain runs can vanish from every store. */
  lemma ALateAppendIsLost(first: Event, late: Event)
    requires first.id != late.id
    ensures var ls := DrainOf(first) + [Publish(late, Refused)] + [DrainClear];
            Run(3, ls) && late.id !in HeldIds(After(3, ls))
  {
    DrainHandlesItsSnapshot(first);
    RunExtends(3, DrainOf(first), Publish(late, Refused));
    RunExtends(3, DrainOf(first) + [Publish(late, Refused)], DrainClear);
    IdsOfSingleton(first);
  }
}
