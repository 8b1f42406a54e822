/** The in-memory queue. */
module EventQueue {
  // The in-process broker: publication with the retry buffer behind it, and the consuming loop.

  import opened Wrappers
  import opened Events
  import opened EventCodec
  import opened BufferFile

  /** What a handler did with an event: True, False, or an exception. */
  datatype Answer = Accept | Refuse | Raise

  datatype PublishError = EventPublishError

  datatype Consumed<S> = Consumed(state: S, queue: seq<Event>, accepted: nat, stopped: Option<Answer>)

  predicate MayContinue(max: Option<int>, accepted: nat) {
    max.None? || accepted < max.value
  }

  /** The consuming loop over a handler given as a transition of its own state. */
  function ConsumeFrom<S>(h: (S, Event) -> (S, Answer), s: S, queue: seq<Event>, max: Option<int>,
      accepted: nat): Consumed<S>
    decreases |queue|
  {
    if !MayContinue(max, accepted) || queue == [] then Consumed(s, queue, accepted, None)
    else
      var (next, answer) := h(s, queue[0]);
      if answer.Accept? then ConsumeFrom(h, next, queue[1..], max, accepted + 1)
      else Consumed(next, queue[1..] + [queue[0]], accepted, Some(answer))
  }

  /** The handler's state after the first `n` events. */
  function StateAfter<S>(h: (S, Event) -> (S, Answer), s: S, events: seq<Event>, n: nat): S
    requires n <= |events|
  {
    if n == 0 then s else h(StateAfter(h, s, events, n - 1), events[n - 1]).0
  }

  lemma {:induction false} StateAfterShift<S>(h: (S, Event) -> (S, Answer), s: S, events: seq<Event>, n: nat)
    requires n < |events|
    ensures StateAfter(h, s, events, n + 1) == StateAfter(h, h(s, events[0]).0, events[1..], n)
  {
    if n > 0 { StateAfterShift(h, s, events, n - 1); }
  }

  /** The first `n` events of the queue, and no more, were each answered True. */
  ghost predicate AcceptedFirst<S>(h: (S, Event) -> (S, Answer), s: S, queue: seq<Event>, n: nat)
    requires n <= |queue|
  {
    forall i: nat :: i < n ==> h(StateAfter(h, s, queue, i), queue[i]).1.Accept?
  }

  /** Either the limit or the queue ended the loop, or the next event failed and stands at the tail. */
  ghost predicate EndsProperly<S>(h: (S, Event) -> (S, Answer), s: S, queue: seq<Event>, max: Option<int>, n: nat,
      r: Consumed<S>)
    requires n <= |queue|
  {
    match r.stopped
    case None =>
      && r.queue == queue[n..] && r.state == StateAfter(h, s, queue, n)
      && (n == |queue| || (max.Some? && r.accepted >= max.value))
    case Some(answer) =>
      && n < |queue| && r.queue == queue[n + 1..] + [queue[n]]
      && r.state == StateAfter(h, s, queue, n + 1)
      && h(StateAfter(h, s, queue, n), queue[n]).1 == answer && !answer.Accept?
  }

  lemma AcceptOneMore<S>(h: (S, Event) -> (S, Answer), s: S, queue: seq<Event>, max: Option<int>, n: nat,
      r: Consumed<S>)
    requires queue != [] && n <= |queue[1..]|
    requires h(s, queue[0]).1.Accept?
    requires AcceptedFirst(h, h(s, queue[0]).0, queue[1..], n)
    requires EndsProperly(h, h(s, queue[0]).0, queue[1..], max, n, r)
    ensures AcceptedFirst(h, s, queue, n + 1) && EndsProperly(h, s, queue, max, n + 1, r)
  {
    forall i: nat | i < n + 1 ensures h(StateAfter(h, s, queue, i), queue[i]).1.Accept? {
      if i > 0 {
        StateAfterShift(h, s, queue, i - 1);
        assert h(StateAfter(h, h(s, queue[0]).0, queue[1..], i - 1), queue[1..][i - 1]).1.Accept?;
      }
    }
    StateAfterShift(h, s, queue, n);
    if r.stopped.Some? { StateAfterShift(h, s, queue, n + 1); }
  }

  /**
   Consume accounting, for every handler, limit and queue: the reported count names exactly the
   leading events the handler took, never more than the limit; short of the limit the loop goes on
   to the end of the queue; and on a refusal or an exception the failed event is at the tail.
   */
  lemma {:induction false} ConsumeAccounts<S>(h: (S, Event) -> (S, Answer), s: S, queue: seq<Event>,
      max: Option<int>, start: nat)
    ensures var r := ConsumeFrom(h, s, queue, max, start);
            && start <= r.accepted <= start + |queue|
            && AcceptedFirst(h, s, queue, r.accepted - start)
            && EndsProperly(h, s, queue, max, r.accepted - start, r)
            && (max.Some? ==> r.accepted <= if start > max.value then start else max.value)
            && (max.Some? && r.stopped.Some? ==> r.accepted < max.value)
            && (r.stopped.None? && r.queue != [] ==> max.Some? && r.accepted >= max.value)
    decreases |queue|
  {
    if MayContinue(max, start) && queue != [] {
      var (next, answer) := h(s, queue[0]);
      if answer.Accept? {
        ConsumeAccounts(h, next, queue[1..], max, start + 1);
        var r := ConsumeFrom(h, next, queue[1..], max, start + 1);
        AcceptOneMore(h, s, queue, max, r.accepted - (start + 1), r);
      } else {
        assert StateAfter(h, s, queue, 1) == next;
      }
    }
  }

  /** Events handed to the handler: the accepted ones, and the one it stopped at. */
  function Calls<S>(r: Consumed<S>): nat
    requires r.accepted >= 0
  {
    r.accepted + if r.stopped.Some? then 1 else 0
  }

  lemma ConsumeCalls<S>(h: (S, Event) -> (S, Answer), s: S, queue: seq<Event>, max: Option<int>)
    ensures var r := ConsumeFrom(h, s, queue, max, 0);
            && r.accepted >= 0 && Calls(r) <= |queue|
            && r.state == StateAfter(h, s, queue, Calls(r))
            && r.queue == if r.stopped.Some? then queue[Calls(r)..] + [queue[Calls(r) - 1]] else queue[Calls(r)..]
  {
    ConsumeAccounts(h, s, queue, max, 0);
  }

  class InMemoryInteractionEventQueue {
    var items: seq<Event>
    const retryBuffer: RetryBuffer?

    constructor (retryBuffer: RetryBuffer?)
      ensures items == [] && this.retryBuffer == retryBuffer
    {
      items := [];
      this.retryBuffer := retryBuffer;
    }

    /** `accepts` is whether `put_nowait` succeeds. */
    method Publish(e: Event, accepts: bool) returns (r: Result<(), PublishError>)
      modifies this, retryBuffer
      ensures r.Ok? <==> accepts
      ensures items == old(items) + if accepts then [e] else []
      ensures retryBuffer != null ==>
                retryBuffer.file ==
                  if accepts then old(retryBuffer.file)
                  else
                    Some((if old(retryBuffer.file).Some? then old(retryBuffer.file).value else "") + (ToJson(e) + "\n"))
    {
      if accepts {
        items := items + [e];
        return Ok(());
      }
      if retryBuffer != null {
        retryBuffer.Append(e);
      }
      r := Err(EventPublishError);
    }

    /** Without concurrent publishing; `raised` is whether an exception of the handler propagates. */
    method Consume<S>(h: (S, Event) -> (S, Answer), s: S, max: Option<int>)
        returns (accepted: nat, state: S, raised: bool)
      modifies this
      ensures var r := ConsumeFrom(h, s, old(items), max, 0);
              && items == r.queue && accepted == r.accepted && state == r.state
              && (raised <==> r.stopped == Some(Raise))
              && accepted <= |old(items)| && AcceptedFirst(h, s, old(items), accepted)
              && EndsProperly(h, s, old(items), max, accepted, r)
              && (max.Some? ==> accepted <= if 0 > max.value then 0 else max.value)
              && (r.stopped.None? && items != [] ==> max.Some? && accepted >= max.value)
    {
      ConsumeAccounts(h, s, items, max, 0);
      accepted, state, raised := 0, s, false;
      while MayContinue(max, accepted) && items != []
        invariant ConsumeFrom(h, state, items, max, accepted) == ConsumeFrom(h, s, old(items), max, 0)
        decreases |items|
      {
        var event := items[0];
        var (next, answer) := h(state, event);
        items := items[1..];
        state := next;
        if answer.Accept? {
          accepted := accepted + 1;
        } else {
          items := items + [event];
          raised := answer.Raise?;
          return;
        }
      }
    }
  }
}
