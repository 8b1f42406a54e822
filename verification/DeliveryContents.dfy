/** What the places hold. */
module DeliveryContents {
  // From identifiers to events: whatever broker, worker, buffer and history hold was published,
  // so where identifiers tell events apart the theorems about identifiers are about events.

  import opened Texts
  import opened Events
  import opened Delivery
  import opened DeliveryLoss
  import opened DeliveryLiveness

  ghost predicate Published(ls: seq<Label>, e: Event) {
    exists p: nat :: p < |ls| && ls[p].Publish? && ls[p].event == e
  }

  ghost predicate AllPublished(ls: seq<Label>, events: seq<Event>) {
    forall i :: 0 <= i < |events| ==> Published(ls, events[i])
  }

  ghost predicate OnlyPublished(ls: seq<Label>, s: State) {
    && AllPublished(ls, s.ready) && AllPublished(ls, s.buffer) && AllPublished(ls, s.history)
    && (s.worker.Busy? ==>
          if s.worker.job.FromBroker? then Published(ls, s.worker.job.event)
          else AllPublished(ls, s.worker.job.snapshot))
  }

  lemma PublishedStays(ls: seq<Label>, more: seq<Label>, e: Event)
    requires Published(ls, e)
    ensures Published(ls + more, e)
  {
    var p: nat :| p < |ls| && ls[p].Publish? && ls[p].event == e;
    assert (ls + more)[p] == ls[p];
  }

  lemma OnlyPublishedStays(ls: seq<Label>, l: Label, s: State)
    requires OnlyPublished(ls, s)
    ensures OnlyPublished(ls + [l], s)
  {
    forall e | Published(ls, e) ensures Published(ls + [l], e) { PublishedStays(ls, [l], e); }
  }

  lemma NextIsPublished(retries: int, ls: seq<Label>, s: State, l: Label)
    requires OnlyPublished(ls, s) && Enabled(s, l) && (l.Publish? ==> Published(ls, l.event))
    ensures OnlyPublished(ls, Next(retries, s, l))
  {
  }

  /** In every run each event in broker, worker, buffer or history is the event of a publication, unchanged. */
  lemma {:induction false} EventsArePublished(retries: int, ls: seq<Label>)
    requires Run(retries, ls)
    ensures OnlyPublished(ls, After(retries, ls))
  {
    if ls != [] {
      var before, l := ls[..|ls| - 1], ls[|ls| - 1];
      EventsArePublished(retries, before);
      OnlyPublishedStays(before, l, After(retries, before));
      assert ls == before + [l];
      NextIsPublished(retries, ls, After(retries, before), l);
    }
  }

  // ---------------------------------------------------------------- the loss theorem for events

  /** An identifier is published with one event only. */
  ghost predicate IdsIdentify(ls: seq<Label>) {
    forall e, f :: Published(ls, e) && Published(ls, f) && e.id == f.id ==> e == f
  }

  /** The event is in the broker, unacknowledged at the worker, in the buffer or in the history. */
  ghost predicate Held(s: State, e: Event) {
    e in s.ready || e in s.buffer || e in s.history ||
    (s.worker.Busy? && s.worker.job.FromBroker? && s.worker.job.event == e)
  }

  ghost predicate SurvivesAs(ls: seq<Label>, p: nat, e: Event) {
    Survives(ls, p, e.id) && ls[p].event == e
  }

  lemma MemberOfIds(events: seq<Event>, id: Text) returns (e: Event)
    requires id in Ids(events)
    ensures e in events && e.id == id
  {
    var i :| 0 <= i < |events| && events[i].id == id;
    e := events[i];
  }

  lemma HolderOfId(s: State, id: Text) returns (e: Event)
    requires id in HeldIds(s)
    ensures Held(s, e) && e.id == id
  {
    if id in Ids(s.ready) {
      e := MemberOfIds(s.ready, id);
    } else if id in Ids(s.buffer) {
      e := MemberOfIds(s.buffer, id);
    } else if id in Ids(s.history) {
      e := MemberOfIds(s.history, id);
    } else {
      e := s.worker.job.event;
    }
  }

  lemma HeldIsPublished(retries: int, ls: seq<Label>, e: Event)
    requires Run(retries, ls) && Held(After(retries, ls), e)
    ensures Published(ls, e)
  {
    EventsArePublished(retries, ls);
  }

  /** The loss theorem for whole events, when identifiers tell the published events apart. */
  lemma NoEventContentLostExactly(retries: int, ls: seq<Label>, e: Event)
    requires Run(retries, ls) && IdsIdentify(ls)
    ensures Held(After(retries, ls), e) <==> exists p: nat :: SurvivesAs(ls, p, e)
  {
    var s := After(retries, ls);
    NoEventLostExactly(retries, ls, e.id);
    if Held(s, e) {
      HeldIsPublished(retries, ls, e);
      assert e.id in HeldIds(s);
      var p: nat :| Survives(ls, p, e.id);
      assert Published(ls, ls[p].event);
      assert SurvivesAs(ls, p, e);
    }
    if p: nat :| SurvivesAs(ls, p, e) {
      var held := HolderOfId(s, e.id);
      HeldIsPublished(retries, ls, held);
      assert Published(ls, ls[p].event);
    }
  }

  // ---------------------------------------------------------------- the history for events

  /** Each surviving event once, whole, and nothing else. */
  ghost predicate SurvivingEventsOnce(ls: seq<Label>, history: seq<Event>) {
    forall e :: multiset(history)[e] == if exists p: nat :: SurvivesAs(ls, p, e) then 1 else 0
  }

  lemma {:induction false} CountOfEvent(history: seq<Event>, e: Event)
    ensures multiset(history)[e] <= Occurrences(history, e.id)
    ensures (forall f :: f in history && f.id == e.id ==> f == e) ==> multiset(history)[e] == Occurrences(history, e.id)
  {
    if history != [] {
      CountOfEvent(history[1..], e);
      assert history == [history[0]] + history[1..];
    }
  }

  lemma SurvivorsAreWhole(ls: seq<Label>, history: seq<Event>)
    requires IdsIdentify(ls) && AllPublished(ls, history) && SurvivorsOnce(ls, history)
    ensures SurvivingEventsOnce(ls, history)
  {
    forall e ensures multiset(history)[e] == if exists p: nat :: SurvivesAs(ls, p, e) then 1 else 0 {
      CountOfEvent(history, e);
      if p: nat :| SurvivesAs(ls, p, e) {
        assert Published(ls, ls[p].event);
      } else if e in history {
        assert Occurrences(history, e.id) > 0;
        var p: nat :| Survives(ls, p, e.id);
        assert Published(ls, ls[p].event) && Published(ls, e);
        assert SurvivesAs(ls, p, e);
      }
    }
  }

  lemma UndisturbedPublishesNothing(ls: seq<Label>, more: seq<Label>, events: seq<Event>)
    requires Undisturbed(more) && AllPublished(ls + more, events)
    ensures AllPublished(ls, events)
  {
    assert forall q :: |ls| <= q < |ls + more| ==> (ls + more)[q] == more[q - |ls|];
    forall i | 0 <= i < |events| ensures Published(ls, events[i]) {
      assert Published(ls + more, events[i]);
      var p: nat :| p < |ls + more| && (ls + more)[p].Publish? && (ls + more)[p].event == events[i];
      assert ls[p] == (ls + more)[p];
    }
  }
}
