/** `InteractionEvent.to_json` / `from_json`, and the text of the retry buffer's file. */
module EventCodec {
  import opened Wrappers
  import opened Texts
  import opened Timestamps
  import opened Decimal
  import opened Json
  import opened PythonInts
  import opened Events

  /** Names of the fields, in the order `asdict` lists them. */
  const FIELDS: seq<Text> :=
    [Ascii("user_id"), Ascii("event_type"), Ascii("event_id"), Ascii("occurred_at"),
     Ascii("item_id"), Ascii("recommended_items"), Ascii("model_version"), Ascii("metadata")]

  const USER_ID := 0
  const EVENT_TYPE := 1
  const EVENT_ID := 2
  const OCCURRED_AT := 3
  const ITEM_ID := 4
  const RECOMMENDED := 5
  const MODEL_VERSION := 6
  const METADATA := 7

  predicate Plain(t: Text) {
    forall i :: 0 <= i < |t| ==> t[i] < 128
  }

  ghost predicate GoodNames(names: seq<Text>) {
    && |names| == 8
    && (forall i :: 0 <= i < 8 ==> Plain(names[i]))
    && forall i, j :: 0 <= i < j < 8 ==> names[i] != names[j]
  }

  function OptInt(n: Option<int>): Json {
    if n.Some? then JInt(n.value) else JNull
  }

  function OptText(t: Option<Text>): Json {
    if t.Some? then JStr(t.value) else JNull
  }

  function Ints(ns: seq<int>): seq<Json> {
    seq(|ns|, i requires 0 <= i < |ns| => JInt(ns[i]))
  }

  function MetadataMembers(pairs: seq<(Text, Text)>): seq<Member> {
    seq(|pairs|, i requires 0 <= i < |pairs| => Member(pairs[i].0, JStr(pairs[i].1)))
  }

  function Payload(e: Event, names: seq<Text>): (p: seq<Member>)
    requires |names| == 8
    ensures |p| == 8
  {
    [Member(names[USER_ID], JInt(e.userId)),
     Member(names[EVENT_TYPE], JStr(e.eventType)),
     Member(names[EVENT_ID], JStr(e.id)),
     Member(names[OCCURRED_AT], JStr(Ascii(Iso(e.occurredAt)))),
     Member(names[ITEM_ID], OptInt(e.itemId)),
     Member(names[RECOMMENDED], JArr(Ints(e.recommended))),
     Member(names[MODEL_VERSION], OptText(e.modelVersion)),
     Member(names[METADATA], JObj(MetadataMembers(e.metadata)))]
  }

  function ToJson(e: Event): string {
    Dumps(JObj(Payload(e, FIELDS)))
  }

  /** The exceptions of `from_json`: ValueError, KeyError, and the ones nobody catches. */
  datatype Failure = NotJson | MissingKey | WrongShape

  /** The values `from_json` makes up for absent fields. */
  datatype Defaults = Defaults(id: Text, now: Stamp)

  function Get(d: seq<Member>, key: Text): Option<Json> {
    if d == [] then None else if d[0].key == key then Some(d[0].value) else Get(d[1..], key)
  }

  function Str(j: Json): Text {
    match j
    case JStr(t) => t
    case JNull => Ascii("None")
    case JBool(b) => Ascii(if b then "True" else "False")
    case JInt(n) => Ascii(Decimal.Print(n))
    case _ => Ascii(Dumps(j))
  }

  function AsciiOf(t: Text): Option<string> {
    if forall i :: 0 <= i < |t| ==> t[i] < 128
    then Some(seq(|t|, i requires 0 <= i < |t| && t[i] < 128 => t[i] as char)) else None
  }

  function Latin1Of(t: Text): Option<string> {
    if forall i :: 0 <= i < |t| ==> t[i] < 256
    then Some(seq(|t|, i requires 0 <= i < |t| && t[i] < 256 => t[i] as char)) else None
  }

  /** `int` of a JSON value; NotJson is its ValueError. */
  function AsInt(j: Json): Result<int, Failure> {
    match j
    case JInt(n) => Ok(n)
    case JBool(b) => Ok(if b then 1 else 0)
    case JStr(t) =>
      (match Latin1Of(t)
       case Some(s) => (match ParseInt(s) case Some(n) => Ok(n) case None => Err(NotJson))
       case None => Err(NotJson))
    case _ => Err(WrongShape)
  }

  /** `str` and `int` of the other JSON values. */
  lemma ScalarsAreRead()
    ensures Str(JBool(true)) == Ascii("True") && Str(JBool(false)) == Ascii("False") && Str(JNull) == Ascii("None")
    ensures AsInt(JBool(true)) == Ok(1) && AsInt(JBool(false)) == Ok(0)
    ensures AsInt(JNull) == Err(WrongShape)
  {
  }

  function AsInts(items: seq<Json>): (r: Result<seq<int>, Failure>)
    ensures r.Ok? ==> |r.value| == |items|
  {
    if items == [] then Ok([])
    else
      var n :- AsInt(items[0]);
      var ns :- AsInts(items[1..]);
      Ok([n] + ns)
  }

  /** `str(data.get("occurred_at") or "")` through `fromisoformat`, or the current time. */
  function ReadStamp(j: Option<Json>, now: Stamp): Stamp {
    match j
    case Some(JStr(t)) =>
      (match AsciiOf(t)
       case Some(s) => var stamp := FromIso(s); if stamp.Some? then stamp.value else now
       case None => now)
    case _ => now
  }

  function TextPairs(members: seq<Member>): (pairs: seq<(Text, Text)>)
    ensures |pairs| == |members|
  {
    seq(|members|, i requires 0 <= i < |members| => (members[i].key, Str(members[i].value)))
  }

  function FromMembers(d: seq<Member>, names: seq<Text>, defaults: Defaults): Result<Event, Failure>
    requires |names| == 8
  {
    var user := Get(d, names[USER_ID]);
    if user.None? then Err(MissingKey)
    else
      var userId :- AsInt(user.value);
      var eventType := Get(d, names[EVENT_TYPE]);
      var id := Get(d, names[EVENT_ID]);
      var item := Get(d, names[ITEM_ID]);
      var version := Get(d, names[MODEL_VERSION]);
      var items := Get(d, names[RECOMMENDED]);
      var metadata := Get(d, names[METADATA]);
      var recommended :- (match items
                          case None => Ok([])
                          case Some(JArr(js)) => AsInts(js)
                          case Some(_) => Err(WrongShape));
      var pairs :- (match metadata
                    case None => Ok([])
                    case Some(JObj(ms)) => Ok(TextPairs(ms))
                    case Some(_) => Err(WrongShape));
      var itemId :- (match item
                     case None => Ok(None)
                     case Some(JNull) => Ok(None)
                     case Some(JInt(n)) => Ok(Some(n))
                     case Some(_) => Err(WrongShape));
      var modelVersion :- (match version
                           case None => Ok(None)
                           case Some(JNull) => Ok(None)
                           case Some(JStr(t)) => Ok(Some(t))
                           case Some(_) => Err(WrongShape));
      Ok(Event(
           if id.Some? then Str(id.value) else defaults.id,
           userId,
           if eventType.Some? then Str(eventType.value) else Ascii("unknown"),
           ReadStamp(Get(d, names[OCCURRED_AT]), defaults.now),
           itemId,
           recommended,
           modelVersion,
           pairs))
  }

  function FromPayload(payload: string, names: seq<Text>, defaults: Defaults): Result<Event, Failure>
    requires |names| == 8
  {
    match Loads(payload)
    case None => Err(NotJson)
    case Some(JObj(d)) => FromMembers(d, names, defaults)
    case Some(_) => Err(WrongShape)
  }

  function FromJson(payload: string, defaults: Defaults): Result<Event, Failure> {
    FromPayload(payload, FIELDS, defaults)
  }

  /** What the source's types promise of an event: a datetime, and a dictionary of metadata. */
  ghost predicate WellFormed(e: Event) {
    Valid(e.occurredAt) && DistinctKeys(MetadataMembers(e.metadata))
  }

  predicate NoSplitPairs(e: Event) {
    && NoSplitPair(e.id) && NoSplitPair(e.eventType)
    && (e.modelVersion.Some? ==> NoSplitPair(e.modelVersion.value))
    && forall i :: 0 <= i < |e.metadata| ==> NoSplitPair(e.metadata[i].0) && NoSplitPair(e.metadata[i].1)
  }

  /** An event as it is read back from its own text. */
  function Reread(e: Event): Event {
    e.(id := Merge(e.id),
       eventType := Merge(e.eventType),
       modelVersion := if e.modelVersion.Some? then Some(Merge(e.modelVersion.value)) else None,
       metadata := TextPairs(DictOf(ReadBackMembers(MetadataMembers(e.metadata)))))
  }

  lemma {:induction false} ReadBackMemberAt(members: seq<Member>, i: nat)
    requires i < |members|
    ensures ReadBackMembers(members)[i] == Member(Merge(members[i].key), ReadBack(members[i].value))
    decreases members
  {
    if i > 0 { ReadBackMemberAt(members[1..], i - 1); }
  }

  lemma {:induction false} GetAt(d: seq<Member>, i: nat)
    requires i < |d| && DistinctKeys(d)
    ensures Get(d, d[i].key) == Some(d[i].value)
  {
    if i > 0 { GetAt(d[1..], i - 1); }
  }

  lemma PlainStays(t: Text)
    requires Plain(t)
    ensures Merge(t) == t
  {
    MergeKeepsExactly(t);
  }

  lemma AsciiIsPlain(s: string)
    requires AsciiString(s)
    ensures Plain(Ascii(s)) && AsciiOf(Ascii(s)) == Some(s)
  {
    var t := Ascii(s);
    assert seq(|t|, i requires 0 <= i < |t| && t[i] < 128 => t[i] as char) == s;
  }

  lemma {:induction false} ReadBackOfInts(ns: seq<int>)
    ensures ReadBackItems(Ints(ns)) == Ints(ns)
    ensures AsInts(Ints(ns)) == Ok(ns)
  {
    if ns != [] {
      ReadBackOfInts(ns[1..]);
      assert Ints(ns)[1..] == Ints(ns[1..]);
      assert Ints(ns) == [JInt(ns[0])] + Ints(ns[1..]);
      assert ns == [ns[0]] + ns[1..];
    }
  }

  ghost predicate AsciiString(s: string) {
    forall i :: 0 <= i < |s| ==> s[i] as int < 128
  }

  lemma IsoIsAscii(t: Stamp)
    ensures AsciiString(Iso(t))
  {
    assert AsciiString(ZoneText(t.zone));
    assert AsciiString(Tail(t.micro, t.zone));
    var s5 := Pad(t.second, 2) + Tail(t.micro, t.zone);
    assert AsciiString(s5);
    var s4 := Field(t.minute, 2, ':', s5);
    assert AsciiString(s4);
    var s3 := Field(t.hour, 2, ':', s4);
    assert AsciiString(s3);
    var s2 := Field(t.day, 2, 'T', s3);
    assert AsciiString(s2);
    var s1 := Field(t.month, 2, '-', s2);
    assert AsciiString(s1);
  }

  lemma NamesStay(p: seq<Member>, names: seq<Text>)
    requires |p| == 8 && GoodNames(names) && forall k :: 0 <= k < 8 ==> p[k].key == names[k]
    ensures forall k :: 0 <= k < 8 ==> ReadBackMembers(p)[k] == Member(names[k], ReadBack(p[k].value))
  {
    forall k: nat | k < 8 ensures ReadBackMembers(p)[k] == Member(names[k], ReadBack(p[k].value)) {
      assert p[k].key == names[k];
      ReadBackMemberAt(p, k);
      PlainStays(names[k]);
    }
  }

  lemma GoodNamesAreDistinct(d: seq<Member>, names: seq<Text>)
    requires |d| == 8 && GoodNames(names) && forall k :: 0 <= k < 8 ==> d[k].key == names[k]
    ensures DistinctKeys(d)
  {
  }

  /** Looking up a named field in what was read back gives that field's read-back value. */
  lemma NamedFieldReadsBack(p: seq<Member>, names: seq<Text>, i: nat)
    requires i < 8 == |p| && GoodNames(names) && forall k :: 0 <= k < 8 ==> p[k].key == names[k]
    ensures DictOf(ReadBackMembers(p)) == ReadBackMembers(p)
    ensures Get(ReadBackMembers(p), names[i]) == Some(ReadBack(p[i].value))
  {
    NamesStay(p, names);
    GoodNamesAreDistinct(ReadBackMembers(p), names);
    DictOfDistinct(ReadBackMembers(p));
    GetAt(ReadBackMembers(p), i);
  }

  lemma FieldReadsBack(e: Event, names: seq<Text>, i: nat)
    requires i < 8 && GoodNames(names)
    ensures DictOf(ReadBackMembers(Payload(e, names))) == ReadBackMembers(Payload(e, names))
    ensures Get(ReadBackMembers(Payload(e, names)), names[i]) == Some(ReadBack(Payload(e, names)[i].value))
  {
    NamedFieldReadsBack(Payload(e, names), names, i);
  }

  /** Which event the eight fields of an object make. */
  lemma FromMembersReads(d: seq<Member>, names: seq<Text>, e: Event, pairs: seq<Member>, defaults: Defaults)
    requires |names| == 8
    requires Get(d, names[USER_ID]) == Some(JInt(e.userId))
    requires Get(d, names[EVENT_TYPE]) == Some(JStr(e.eventType))
    requires Get(d, names[EVENT_ID]) == Some(JStr(e.id))
    requires ReadStamp(Get(d, names[OCCURRED_AT]), defaults.now) == e.occurredAt
    requires Get(d, names[ITEM_ID]) == Some(OptInt(e.itemId))
    requires Get(d, names[RECOMMENDED]) == Some(JArr(Ints(e.recommended)))
    requires AsInts(Ints(e.recommended)) == Ok(e.recommended)
    requires Get(d, names[MODEL_VERSION]) == Some(OptText(e.modelVersion))
    requires Get(d, names[METADATA]) == Some(JObj(pairs)) && TextPairs(pairs) == e.metadata
    ensures FromMembers(d, names, defaults) == Ok(e)
  {
  }

  /** Only the user is needed; the rest is made up, and without a user the object is refused. */
  lemma OnlyTheUserIsNeeded(names: seq<Text>, user: int, defaults: Defaults)
    requires GoodNames(names)
    ensures FromMembers([Member(names[USER_ID], JInt(user))], names, defaults) ==
              Ok(Event(defaults.id, user, Ascii("unknown"), defaults.now, None, [], None, []))
    ensures FromMembers([], names, defaults) == Err(MissingKey)
  {
    var d := [Member(names[USER_ID], JInt(user))];
    var none: seq<Member> := [];
    assert d[1..] == none;
    assert forall i :: 1 <= i < 8 ==> names[USER_ID] != names[i];
    assert Get(d, names[USER_ID]) == Some(JInt(user));
    forall i | 1 <= i < 8 ensures Get(d, names[i]).None? {
      assert Get(none, names[i]).None?;
    }
  }

  lemma StampReadsBack(t: Stamp, now: Stamp)
    requires Valid(t)
    ensures ReadStamp(Some(ReadBack(JStr(Ascii(Iso(t))))), now) == t
  {
    IsoIsAscii(t);
    AsciiIsPlain(Iso(t));
    PlainStays(Ascii(Iso(t)));
    IsoRoundTrip(t);
  }

  lemma FirstFieldsReadBack(e: Event, names: seq<Text>, d: seq<Member>)
    requires GoodNames(names) && d == ReadBackMembers(Payload(e, names))
    ensures Get(d, names[USER_ID]) == Some(JInt(e.userId))
    ensures Get(d, names[EVENT_TYPE]) == Some(JStr(Merge(e.eventType)))
    ensures Get(d, names[EVENT_ID]) == Some(JStr(Merge(e.id)))
    ensures Get(d, names[OCCURRED_AT]) == Some(ReadBack(JStr(Ascii(Iso(e.occurredAt)))))
  {
    FieldReadsBack(e, names, USER_ID);
    FieldReadsBack(e, names, EVENT_TYPE);
    FieldReadsBack(e, names, EVENT_ID);
    FieldReadsBack(e, names, OCCURRED_AT);
  }

  lemma LastFieldsReadBack(e: Event, names: seq<Text>, d: seq<Member>)
    requires GoodNames(names) && d == ReadBackMembers(Payload(e, names))
    ensures DictOf(d) == d
    ensures Get(d, names[ITEM_ID]) == Some(OptInt(e.itemId))
    ensures Get(d, names[RECOMMENDED]) == Some(JArr(ReadBackItems(Ints(e.recommended))))
    ensures Get(d, names[MODEL_VERSION]) == Some(ReadBack(OptText(e.modelVersion)))
    ensures Get(d, names[METADATA]) == Some(JObj(DictOf(ReadBackMembers(MetadataMembers(e.metadata)))))
  {
    FieldReadsBack(e, names, ITEM_ID);
    FieldReadsBack(e, names, RECOMMENDED);
    FieldReadsBack(e, names, MODEL_VERSION);
    FieldReadsBack(e, names, METADATA);
  }

  lemma FromMembersOfPayload(e: Event, names: seq<Text>, defaults: Defaults)
    requires Valid(e.occurredAt) && GoodNames(names)
    ensures DictOf(ReadBackMembers(Payload(e, names))) == ReadBackMembers(Payload(e, names))
    ensures FromMembers(ReadBackMembers(Payload(e, names)), names, defaults) == Ok(Reread(e))
  {
    var d := ReadBackMembers(Payload(e, names));
    FirstFieldsReadBack(e, names, d);
    LastFieldsReadBack(e, names, d);
    StampReadsBack(e.occurredAt, defaults.now);
    ReadBackOfInts(e.recommended);
    FromMembersReads(d, names, Reread(e), DictOf(ReadBackMembers(MetadataMembers(e.metadata))), defaults);
  }

  lemma FieldNamesAreGood()
    ensures GoodNames(FIELDS)
  {
    AsciiIsPlain("user_id");
    AsciiIsPlain("event_type");
    AsciiIsPlain("event_id");
    AsciiIsPlain("occurred_at");
    AsciiIsPlain("item_id");
    AsciiIsPlain("recommended_items");
    AsciiIsPlain("model_version");
    AsciiIsPlain("metadata");
    assert FIELDS[USER_ID][0] != FIELDS[ITEM_ID][0] && FIELDS[EVENT_ID][0] != FIELDS[METADATA][0];
  }

  lemma FromPayloadOfPayload(e: Event, names: seq<Text>, defaults: Defaults)
    requires Valid(e.occurredAt) && GoodNames(names)
    ensures FromPayload(Dumps(JObj(Payload(e, names))), names, defaults) == Ok(Reread(e))
  {
    LoadsOfDumps(JObj(Payload(e, names)));
    FromMembersOfPayload(e, names, defaults);
  }

  /** `from_json` of `to_json`, for every event. */
  lemma FromJsonOfToJson(e: Event, defaults: Defaults)
    requires Valid(e.occurredAt)
    ensures FromJson(ToJson(e), defaults) == Ok(Reread(e))
  {
    FieldNamesAreGood();
    FromPayloadOfPayload(e, FIELDS, defaults);
  }

  lemma MetadataMemberReadsBack(pairs: seq<(Text, Text)>, i: nat)
    requires i < |pairs|
    ensures ReadBackMembers(MetadataMembers(pairs))[i] == Member(Merge(pairs[i].0), JStr(Merge(pairs[i].1)))
    ensures ReadBackMembers(MetadataMembers(pairs))[i] == MetadataMembers(pairs)[i] <==>
              NoSplitPair(pairs[i].0) && NoSplitPair(pairs[i].1)
  {
    ReadBackMemberAt(MetadataMembers(pairs), i);
    MergeKeepsExactly(pairs[i].0);
    MergeKeepsExactly(pairs[i].1);
  }

  lemma MetadataReadsBackExactly(e: Event)
    requires WellFormed(e)
    ensures Reread(e).metadata == e.metadata <==>
              forall i :: 0 <= i < |e.metadata| ==> NoSplitPair(e.metadata[i].0) && NoSplitPair(e.metadata[i].1)
  {
    var ms := MetadataMembers(e.metadata);
    var rs := ReadBackMembers(ms);
    if forall i :: 0 <= i < |e.metadata| ==> NoSplitPair(e.metadata[i].0) && NoSplitPair(e.metadata[i].1) {
      forall i: nat | i < |ms| ensures rs[i] == ms[i] { MetadataMemberReadsBack(e.metadata, i); }
      assert rs == ms;
      DictOfDistinct(ms);
      assert TextPairs(ms) == e.metadata;
    } else {
      var i: nat :| i < |e.metadata| && !(NoSplitPair(e.metadata[i].0) && NoSplitPair(e.metadata[i].1));
      MetadataMemberReadsBack(e.metadata, i);
      DictOfSameLength(rs);
      if |DictOf(rs)| == |rs| {
        assert TextPairs(rs)[i] == (rs[i].key, Str(rs[i].value));
      }
    }
  }

  lemma RereadExactly(e: Event)
    requires WellFormed(e)
    ensures Reread(e) == e <==> NoSplitPairs(e)
  {
    MergeKeepsExactly(e.id);
    MergeKeepsExactly(e.eventType);
    if e.modelVersion.Some? { MergeKeepsExactly(e.modelVersion.value); }
    MetadataReadsBackExactly(e);
  }

  /** An event comes back from its own JSON exactly when none of its strings holds a split pair. */
  lemma EventRoundTripsExactly(e: Event, defaults: Defaults)
    requires WellFormed(e)
    ensures FromJson(ToJson(e), defaults) == Ok(e) <==> NoSplitPairs(e)
  {
    FromJsonOfToJson(e, defaults);
    RereadExactly(e);
  }
}
