/** The interaction event that travels from the publisher to the history (FR-02, FR-06). */
module Events {
  import opened Wrappers
  import opened Texts
  import opened Timestamps

  /** `metadata` lists a dictionary in insertion order. */
  datatype Event = Event(
    id: Text,
    userId: int,
    eventType: Text,
    occurredAt: Stamp,
    itemId: Option<int>,
    recommended: seq<int>,
    modelVersion: Option<Text>,
    metadata: seq<(Text, Text)>)

  function Ids(events: seq<Event>): (ids: set<Text>)
    ensures forall i :: 0 <= i < |events| ==> events[i].id in ids
  {
    set i | 0 <= i < |events| :: events[i].id
  }

  ghost predicate DistinctIds(events: seq<Event>) {
    forall i, j :: 0 <= i < j < |events| ==> events[i].id != events[j].id
  }

  lemma IdsOfConcat(a: seq<Event>, b: seq<Event>)
    ensures Ids(a + b) == Ids(a) + Ids(b)
  {
    forall id | id in Ids(a) + Ids(b)
      ensures id in Ids(a + b)
    {
      if id in Ids(a) {
        var i :| 0 <= i < |a| && a[i].id == id;
        assert (a + b)[i].id == id;
      } else {
        var i :| 0 <= i < |b| && b[i].id == id;
        assert (a + b)[|a| + i].id == id;
      }
    }
  }

  lemma IdsOfSingleton(e: Event)
    ensures Ids([e]) == {e.id}
  {
    assert [e][0].id in Ids([e]);
  }

  /** Inserting one event anywhere adds exactly its identifier. */
  lemma IdsOfInsert(events: seq<Event>, at: nat, e: Event)
    requires at <= |events|
    ensures Ids(events[..at] + [e] + events[at..]) == Ids(events) + {e.id}
  {
    IdsOfConcat(events[..at] + [e], events[at..]);
    IdsOfConcat(events[..at], [e]);
    IdsOfSingleton(e);
    IdsOfConcat(events[..at], events[at..]);
    assert events[..at] + events[at..] == events;
  }
}
