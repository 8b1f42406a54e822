/** The history file. */
module HistoryStore {
  // The append-only history file with its in-memory key index, and the newest-first query.

  import opened Texts
  import opened Wrappers
  import opened Timestamps
  import opened Events
  import opened Sorting

  /** A line of the file: a stored document, or a line `json.loads` rejects. */
  datatype Line = Document(record: Event) | Foreign

  /** `faults` is the file system: whether each coming append raises, healthy when exhausted. */
  datatype Store = Store(lines: seq<Line>, keys: set<Text>, faults: seq<bool>)

  datatype Attempt = Written | Known | Raised

  function Documents(lines: seq<Line>): seq<Event> {
    if lines == [] then []
    else Documents(lines[..|lines| - 1]) +
         if lines[|lines| - 1].Document? then [lines[|lines| - 1].record] else []
  }

  /** `insert_if_absent`: a known key does no I/O, and a failed append writes and indexes nothing. */
  function InsertIfAbsent(st: Store, key: Text, record: Event): (Store, Attempt) {
    if key in st.keys then (st, Known)
    else if st.faults != [] && st.faults[0] then (st.(faults := st.faults[1..]), Raised)
    else
      var left := if st.faults == [] then [] else st.faults[1..];
      (Store(st.lines + [Document(record)], st.keys + {key}, left), Written)
  }

  /** The index is exactly the identifiers on disk, each stored once. */
  ghost predicate Consistent(st: Store) {
    st.keys == Ids(Documents(st.lines)) && DistinctIds(Documents(st.lines))
  }

  lemma DocumentsAppend(lines: seq<Line>, record: Event)
    ensures Documents(lines + [Document(record)]) == Documents(lines) + [record]
  {
    assert (lines + [Document(record)])[..|lines|] == lines;
  }

  lemma ForeignAppend(lines: seq<Line>)
    ensures Documents(lines + [Foreign]) == Documents(lines)
  {
    assert (lines + [Foreign])[..|lines|] == lines;
  }

  lemma InsertKeepsConsistent(st: Store, record: Event)
    requires Consistent(st)
    ensures var (next, r) := InsertIfAbsent(st, record.id, record);
            && Consistent(next)
            && (r.Known? <==> record.id in Ids(Documents(st.lines)))
            && Documents(next.lines) == Documents(st.lines) + (if r.Written? then [record] else [])
            && (r.Raised? <==> !r.Known? && st.faults != [] && st.faults[0])
            && next.faults == if r.Known? || st.faults == [] then st.faults else st.faults[1..]
  {
    DocumentsAppend(st.lines, record);
    IdsOfConcat(Documents(st.lines), [record]);
    IdsOfSingleton(record);
  }

  class LocalDocumentBackend {
    var lines: seq<Line>
    var keys: set<Text>
    var faults: seq<bool>

    function State(): Store
      reads this
    {
      Store(lines, keys, faults)
    }

    /** `_load_keys`: the index is rebuilt from whatever the file holds. */
    constructor (lines: seq<Line>, faults: seq<bool>)
      ensures State() == Store(lines, Ids(Documents(lines)), faults)
    {
      this.lines := lines;
      this.faults := faults;
      keys := {};
      new;
      for i := 0 to |lines|
        invariant this.lines == lines && this.faults == faults
        invariant keys == Ids(Documents(lines[..i]))
      {
        assert lines[..i + 1] == lines[..i] + [lines[i]];
        if lines[i].Document? {
          DocumentsAppend(lines[..i], lines[i].record);
          IdsOfConcat(Documents(lines[..i]), [lines[i].record]);
          IdsOfSingleton(lines[i].record);
          keys := keys + {lines[i].record.id};
        } else {
          ForeignAppend(lines[..i]);
        }
      }
      assert lines[..|lines|] == lines;
    }

    method Insert(key: Text, record: Event) returns (r: Attempt)
      modifies this
      ensures (State(), r) == InsertIfAbsent(old(State()), key, record)
    {
      if key in keys {
        return Known;
      }
      if faults != [] {
        var raises := faults[0];
        faults := faults[1..];
        if raises {
          return Raised;
        }
      }
      lines := lines + [Document(record)];
      keys := keys + {key};
      r := Written;
    }
  }

  /** A process that died between the write and the index update is repaired by reloading the file. */
  lemma ReloadRepairs(lines: seq<Line>, keys: set<Text>, record: Event, faults: seq<bool>)
    requires Consistent(Store(lines, keys, [])) && record.id !in keys
    ensures !Consistent(Store(lines + [Document(record)], keys, []))
    ensures var reloaded := Store(lines + [Document(record)], Ids(Documents(lines + [Document(record)])), faults);
            Consistent(reloaded) && InsertIfAbsent(reloaded, record.id, record) == (reloaded, Known)
  {
    DocumentsAppend(lines, record);
    IdsOfConcat(Documents(lines), [record]);
    IdsOfSingleton(record);
  }

  function OfUser(records: seq<Event>, user: int): (r: seq<Event>)
    ensures forall e :: e in r <==> e in records && e.userId == user
  {
    if records == [] then []
    else
      assert records == records[..|records| - 1] + [records[|records| - 1]];
      OfUser(records[..|records| - 1], user) +
      if records[|records| - 1].userId == user then [records[|records| - 1]] else []
  }

  /** Each record of the user, as often as it is there. */
  lemma {:induction false} OfUserKeepsCopies(records: seq<Event>, user: int, e: Event)
    ensures multiset(OfUser(records, user))[e] == if e.userId == user then multiset(records)[e] else 0
  {
    if records != [] {
      var n := |records| - 1;
      OfUserKeepsCopies(records[..n], user, e);
      assert records == records[..n] + [records[n]];
    }
  }

  /** The sort key, descending: the text of the timestamp. */
  function NewestFirst(): (Event, Event) -> bool {
    (a: Event, b: Event) => !Less(Iso(a.occurredAt), Iso(b.occurredAt))
  }

  /** `s[:limit]` in Python, where a negative limit counts from the end. */
  function Slice<T>(s: seq<T>, limit: int): seq<T> {
    if limit >= |s| then s
    else if limit >= 0 then s[..limit]
    else if |s| + limit >= 0 then s[..|s| + limit]
    else []
  }

  /** A prefix: of `limit` elements, or all but the last `-limit` ones. */
  lemma SliceIsAPrefix<T>(s: seq<T>, limit: int)
    ensures Slice(s, limit) <= s
    ensures 0 <= limit <= |s| ==> |Slice(s, limit)| == limit
    ensures limit > |s| ==> Slice(s, limit) == s
    ensures -|s| <= limit < 0 ==> |s| - |Slice(s, limit)| == -limit
    ensures limit < -|s| ==> Slice(s, limit) == []
  {
  }

  function FindByUser(lines: seq<Line>, user: int, limit: int): seq<Event> {
    Slice(Sort(NewestFirst(), OfUser(Documents(lines), user)), limit)
  }

  lemma {:induction false} LessTransitive(a: string, b: string, c: string)
    requires !Less(a, b) && !Less(b, c)
    ensures !Less(a, c)
  {
    if a != [] && b != [] && c != [] && a[0] == b[0] == c[0] {
      LessTransitive(a[1..], b[1..], c[1..]);
    }
  }

  lemma NewestFirstIsAPreorder()
    ensures TotalPreorder(NewestFirst())
  {
    var le := NewestFirst();
    forall a, b ensures le(a, b) || le(b, a) { LessAsymmetric(Iso(a.occurredAt), Iso(b.occurredAt)); }
    forall a, b, c | le(a, b) && le(b, c) ensures le(a, c) {
      LessTransitive(Iso(a.occurredAt), Iso(b.occurredAt), Iso(c.occurredAt));
    }
  }

  /** Valid stamps, all the same number of minutes ahead of universal time. */
  ghost predicate OneOffset(records: seq<Event>, minutes: int) {
    forall e :: e in records ==> Valid(e.occurredAt) && UtcOffset(e.occurredAt.zone) == minutes
  }

  ghost predicate NewerOrEqual(a: Event, b: Event) {
    Instant(a.occurredAt) >= Instant(b.occurredAt)
  }

  ghost predicate NewestInOrder(s: seq<Event>) {
    forall i, j :: 0 <= i < j < |s| ==> NewerOrEqual(s[i], s[j])
  }

  lemma SortIsChronological(records: seq<Event>, minutes: int)
    requires OneOffset(records, minutes)
    ensures multiset(Sort(NewestFirst(), records)) == multiset(records)
    ensures NewestInOrder(Sort(NewestFirst(), records))
  {
    var s := Sort(NewestFirst(), records);
    NewestFirstIsAPreorder();
    SortSorts(NewestFirst(), records);
    SortPermutes(NewestFirst(), records);
    MultisetMembers(s, records);
    forall i, j | 0 <= i < j < |s| ensures NewerOrEqual(s[i], s[j]) {
      assert s[i] in records && s[j] in records;
      assert NewestFirst()(s[i], s[j]);
      if Instant(s[i].occurredAt) < Instant(s[j].occurredAt) {
        LaterIsGreater(s[i].occurredAt, s[j].occurredAt);
      }
    }
  }

  /** `r` are the `limit` most recent of `all`, newest first: none left out is newer than one returned. */
  ghost predicate MostRecent(all: seq<Event>, r: seq<Event>, limit: nat) {
    && |r| == (if limit < |all| then limit else |all|)
    && multiset(r) <= multiset(all)
    && NewestInOrder(r)
    && forall x, y :: x in r && y in multiset(all) - multiset(r) ==> NewerOrEqual(x, y)
  }

  /** The query returns the user's most recent records, newest first. */
  ghost predicate IsNewest(lines: seq<Line>, user: int, limit: nat) {
    MostRecent(OfUser(Documents(lines), user), FindByUser(lines, user, limit), limit)
  }

  lemma SortedPrefixIsMostRecent(all: seq<Event>, s: seq<Event>, limit: nat)
    requires multiset(s) == multiset(all) && NewestInOrder(s)
    ensures MostRecent(all, Slice(s, limit), limit)
  {
    var r := Slice(s, limit);
    var omitted := s[|r|..];
    assert s == r + omitted;
    MultisetMembers(s, all);
    assert multiset(all) == multiset(r) + multiset(omitted);
    forall x, y | x in r && y in multiset(all) - multiset(r) ensures NewerOrEqual(x, y) {
      assert y in omitted;
      EarlierIsNewer(s, r, omitted, x, y);
    }
  }

  lemma EarlierIsNewer(s: seq<Event>, r: seq<Event>, omitted: seq<Event>, x: Event, y: Event)
    requires s == r + omitted && NewestInOrder(s) && x in r && y in omitted
    ensures NewerOrEqual(x, y)
  {
    var i :| 0 <= i < |r| && r[i] == x;
    var j :| 0 <= j < |omitted| && omitted[j] == y;
    assert NewerOrEqual(s[i], s[|r| + j]);
  }

  /** At one offset, naive stamps counting as +00:00, the query returns the most recent records of the user. */
  lemma FindReturnsTheMostRecent(lines: seq<Line>, user: int, limit: nat, minutes: int)
    requires OneOffset(OfUser(Documents(lines), user), minutes)
    ensures IsNewest(lines, user, limit)
  {
    var all := OfUser(Documents(lines), user);
    SortIsChronological(all, minutes);
    SortedPrefixIsMostRecent(all, Sort(NewestFirst(), all), limit);
  }

  // ---------------------------------------------------------------- the exact condition

  lemma TwoOfUser(a: Event, b: Event)
    requires a.userId == b.userId
    ensures OfUser([a, b], a.userId) == [a, b]
  {
    assert [a, b][..1] == [a] && [a][..0] == [];
    assert OfUser([a], a.userId) == [a];
  }

  lemma SortOfTwo(a: Event, b: Event)
    requires !NewestFirst()(a, b)
    ensures Sort(NewestFirst(), [a, b]) == [b, a]
  {
    var le, none: seq<Event> := NewestFirst(), [];
    assert [a, b][..1] == [a] && [a][..0] == none;
    assert Sort(le, [a]) == Insert(le, none, a) == [a];
    assert Insert(le, [a], b) == Insert(le, none, b) + [a];
  }

  lemma TwoDocuments(a: Event, b: Event)
    ensures Documents([Document(a), Document(b)]) == [a, b]
  {
    DocumentsAppend([], a);
    DocumentsAppend([Document(a)], b);
    assert [] + [Document(a)] == [Document(a)];
    assert [Document(a)] + [Document(b)] == [Document(a), Document(b)];
  }

  /** Of two records whose strings are in the wrong order, a query for one returns the older. */
  lemma QueryReturnsTheOlder(newer: Event, older: Event)
    requires newer.userId == older.userId
    requires Less(Iso(newer.occurredAt), Iso(older.occurredAt)) && Instant(older.occurredAt) < Instant(newer.occurredAt)
    ensures var lines, user := [Document(newer), Document(older)], newer.userId;
            && OfUser(Documents(lines), user) == [newer, older]
            && FindByUser(lines, user, 1) == [older]
            && !IsNewest(lines, user, 1)
  {
    TwoDocuments(newer, older);
    TwoOfUser(newer, older);
    SortOfTwo(newer, older);
    assert Slice([older, newer], 1) == [older];
    OlderAloneIsNotMostRecent(newer, older);
  }

  lemma OlderAloneIsNotMostRecent(newer: Event, older: Event)
    requires Instant(older.occurredAt) < Instant(newer.occurredAt)
    ensures !MostRecent([newer, older], [older], 1)
  {
    assert newer in multiset([newer, older]) - multiset([older]);
    assert older in [older];
  }

  ghost predicate FromZones(records: seq<Event>, zones: set<Zone>) {
    forall e :: e in records ==> Valid(e.occurredAt) && e.occurredAt.zone in zones
  }

  ghost predicate SameOffset(zones: set<Zone>) {
    forall y, z :: y in zones && z in zones ==> UtcOffset(y) == UtcOffset(z)
  }

  /** Every query over stamps of these zones returns the most recent records. */
  ghost predicate AlwaysNewest(zones: set<Zone>) {
    forall lines, user, limit: nat :: FromZones(OfUser(Documents(lines), user), zones) ==> IsNewest(lines, user, limit)
  }

  lemma MisledQuery(zones: set<Zone>, lines: seq<Line>, user: int, limit: nat, all: seq<Event>)
    requires OfUser(Documents(lines), user) == all && FromZones(all, zones) && !IsNewest(lines, user, limit)
    ensures !AlwaysNewest(zones)
  {
  }

  lemma ReversedPairMisleads(zones: set<Zone>, newer: Event, older: Event)
    requires newer.userId == older.userId && FromZones([newer, older], zones)
    requires Less(Iso(newer.occurredAt), Iso(older.occurredAt)) && Instant(older.occurredAt) < Instant(newer.occurredAt)
    ensures !AlwaysNewest(zones)
  {
    QueryReturnsTheOlder(newer, older);
    MisledQuery(zones, [Document(newer), Document(older)], newer.userId, 1, [newer, older]);
  }

  /** A second apart at noon of two offsets is enough to mislead a query. */
  lemma DifferentOffsetsMislead(year: nat, zones: set<Zone>, y: Zone, z: Zone)
    requires 1 <= year <= 9999 && RealZone(y) && RealZone(z) && UtcOffset(y) < UtcOffset(z)
    requires y in zones && z in zones
    ensures !AlwaysNewest(zones)
  {
    NoonStringsMislead(year, y, z);
    var newer := Event([0], 0, [], Noon(year, 0, y), None, [], None, []);
    var older := Event([1], 0, [], Noon(year, 1, z), None, [], None, []);
    ReversedPairMisleads(zones, newer, older);
  }

  /**
   For stamps of any given zones, every query returns the user's most recent records, newest
   first, exactly when all the zones are at one offset; a naive stamp counts as +00:00.
   */
  lemma FindIsNewestFirstExactly(zones: set<Zone>)
    requires forall z :: z in zones ==> RealZone(z)
    ensures AlwaysNewest(zones) <==> SameOffset(zones)
  {
    if SameOffset(zones) {
      forall lines, user, limit: nat | FromZones(OfUser(Documents(lines), user), zones)
        ensures IsNewest(lines, user, limit)
      {
        var minutes := if zones == {} then 0 else var z :| z in zones; UtcOffset(z);
        FindReturnsTheMostRecent(lines, user, limit, minutes);
      }
    } else {
      var y, z :| y in zones && z in zones && UtcOffset(y) != UtcOffset(z);
      var year: nat :| 1 <= year <= 9999;
      if UtcOffset(y) < UtcOffset(z) {
        DifferentOffsetsMislead(year, zones, y, z);
      } else {
        DifferentOffsetsMislead(year, zones, z, y);
      }
    }
  }
}
