/** Order of delivery. */
module DeliveryOrder {
  // The order in which events leave the queue and stand in the buffer.

  import opened Events
  import opened Delivery

  ghost function SentBy(l: Label): seq<Event> {
    if l.Publish? && !l.outcome.Refused? then [l.event] else []
  }

  /** The events that reached the broker, in the order of their publication. */
  ghost function Sent(ls: seq<Label>): seq<Event> {
    if ls == [] then [] else Sent(ls[..|ls| - 1]) + SentBy(ls[|ls| - 1])
  }

  ghost function TakenBy(s: State, l: Label): seq<Event>
    requires Enabled(s, l)
  {
    if l.Get? then [s.ready[0]] else []
  }

  /** The events the worker got from the broker, in order. */
  ghost function Taken(retries: int, ls: seq<Label>): seq<Event>
    requires Run(retries, ls)
    decreases |ls|
  {
    if ls == [] then []
    else
      var before := ls[..|ls| - 1];
      Taken(retries, before) + TakenBy(After(retries, before), ls[|ls| - 1])
  }

  /** No event went back to the queue. */
  predicate NothingRequeued(ls: seq<Label>) {
    forall i :: 0 <= i < |ls| ==> !ls[i].Nack? && !ls[i].Crash?
  }

  lemma StepKeepsOrder(retries: int, s: State, l: Label)
    requires Enabled(s, l) && !l.Nack? && !l.Crash?
    ensures TakenBy(s, l) + Next(retries, s, l).ready == s.ready + SentBy(l)
  {
  }

  lemma Regroup(taken: seq<Event>, t: seq<Event>, ready: seq<Event>, next: seq<Event>, sent: seq<Event>, s: seq<Event>)
    requires taken + ready == sent && t + next == ready + s
    ensures taken + t + next == sent + s
  {
    assert taken + t + next == taken + (t + next);
    assert taken + (ready + s) == taken + ready + s;
  }

  /** While nothing goes back, the queue is first in, first out: what was taken and what waits is what was sent. */
  lemma {:induction false} FirstInFirstOut(retries: int, ls: seq<Label>)
    requires Run(retries, ls) && NothingRequeued(ls)
    ensures Taken(retries, ls) + After(retries, ls).ready == Sent(ls)
  {
    if ls != [] {
      var before, l := ls[..|ls| - 1], ls[|ls| - 1];
      var s := After(retries, before);
      FirstInFirstOut(retries, before);
      StepKeepsOrder(retries, s, l);
      Regroup(Taken(retries, before), TakenBy(s, l), s.ready, Next(retries, s, l).ready, Sent(before), SentBy(l));
    }
  }

  ghost function ReturnedBy(s: State, l: Label): multiset<Event> {
    if (l.Nack? || l.Crash?) && s.worker.Busy? && s.worker.job.FromBroker? then multiset{s.worker.job.event}
    else multiset{}
  }

  /** The events that went back to the queue, by a refusal or a crash, each time they did. */
  ghost function Returned(retries: int, ls: seq<Label>): multiset<Event>
    requires Run(retries, ls)
    decreases |ls|
  {
    if ls == [] then multiset{}
    else
      var before := ls[..|ls| - 1];
      Returned(retries, before) + ReturnedBy(After(retries, before), ls[|ls| - 1])
  }

  lemma RequeueAdds(ready: seq<Event>, at: nat, e: Event)
    requires at <= |ready|
    ensures multiset(Requeue(ready, at, e)) == multiset(ready) + multiset{e}
  {
    assert ready == ready[..at] + ready[at..];
  }

  lemma StepConserves(retries: int, s: State, l: Label)
    requires Enabled(s, l)
    ensures multiset(TakenBy(s, l)) + multiset(Next(retries, s, l).ready) ==
              multiset(s.ready) + multiset(SentBy(l)) + ReturnedBy(s, l)
  {
    match l
    case Get => assert s.ready == [s.ready[0]] + s.ready[1..];
    case Nack(at) => RequeueAdds(s.ready, at, s.worker.job.event);
    case Crash(at) =>
      if s.worker.Busy? && s.worker.job.FromBroker? { RequeueAdds(s.ready, at, s.worker.job.event); }
    case _ =>
  }

  lemma Balance(taken: multiset<Event>, t: multiset<Event>, ready: multiset<Event>, next: multiset<Event>,
      sent: multiset<Event>, s: multiset<Event>, returned: multiset<Event>, r: multiset<Event>)
    requires taken + ready == sent + returned && t + next == ready + s + r
    ensures taken + t + next == sent + s + (returned + r)
  {
    assert taken + t + next == taken + (t + next);
    assert taken + (ready + s + r) == (taken + ready) + (s + r);
  }

  /** Deliveries are conserved: what was taken and what waits is what was sent and what went back. */
  lemma {:induction false} DeliveriesAreConserved(retries: int, ls: seq<Label>)
    requires Run(retries, ls)
    ensures multiset(Taken(retries, ls)) + multiset(After(retries, ls).ready) ==
              multiset(Sent(ls)) + Returned(retries, ls)
  {
    if ls != [] {
      var before, l := ls[..|ls| - 1], ls[|ls| - 1];
      var s := After(retries, before);
      DeliveriesAreConserved(retries, before);
      StepConserves(retries, s, l);
      Balance(multiset(Taken(retries, before)), multiset(TakenBy(s, l)), multiset(s.ready),
              multiset(Next(retries, s, l).ready), multiset(Sent(before)), multiset(SentBy(l)),
              Returned(retries, before), ReturnedBy(s, l));
    }
  }

  /** The events appended to the buffer since it was last cleared, in the order of their publication. */
  ghost function AppendedSinceClear(ls: seq<Label>): seq<Event> {
    if ls == [] then []
    else
      var before, l := AppendedSinceClear(ls[..|ls| - 1]), ls[|ls| - 1];
      if l.DrainClear? then []
      else if l.Publish? && !l.outcome.Queued? then before + [l.event]
      else before
  }

  lemma {:induction false} BufferIsInOrder(retries: int, ls: seq<Label>)
    requires Run(retries, ls)
    ensures After(retries, ls).buffer == AppendedSinceClear(ls)
  {
    if ls != [] {
      BufferIsInOrder(retries, ls[..|ls| - 1]);
    }
  }
}
