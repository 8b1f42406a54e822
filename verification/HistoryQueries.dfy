/** Queries on the text of the history. */
module HistoryQueries {
  // The newest-first query and the records it returns, computed from the text of the file, and
  // that this is the query on records.

  import opened Wrappers
  import opened Whitespace
  import opened TextLines
  import opened Texts
  import opened Timestamps
  import opened Json
  import opened Events
  import opened EventCodec
  import opened Sorting
  import opened HistoryStore
  import opened HistoryFile

  // ---------------------------------------------------------------- the query on the text

  /** One line of `_iter_documents`; None when it is blank or no JSON. */
  function ReadDocument(line: string): Option<Json> {
    var text := Strip(line);
    if text == [] then None else Loads(text)
  }

  function ReadDocuments(lines: seq<string>): seq<Json> {
    if lines == [] then []
    else
      var last := ReadDocument(lines[|lines| - 1]);
      ReadDocuments(lines[..|lines| - 1]) + if last.Some? then [last.value] else []
  }

  /** `int(d.get("user_id", -1))`, which raises on what is no object or no number. */
  function UserOf(j: Json, names: seq<Text>): Result<int, Failure>
    requires |names| == 8
  {
    match j
    case JObj(d) => (match Get(d, names[USER_FIELD]) case None => Ok(-1) case Some(v) => AsInt(v))
    case _ => Err(WrongShape)
  }

  /** `str(d.get("occurred_at", ""))`. */
  function TimeOf(j: Json, names: seq<Text>): Text
    requires |names| == 8
  {
    match j
    case JObj(d) => (match Get(d, names[TIME_FIELD]) case None => [] case Some(v) => Str(v))
    case _ => []
  }

  function Matching(docs: seq<Json>, user: int, names: seq<Text>): Result<seq<Json>, Failure>
    requires |names| == 8
  {
    if docs == [] then Ok([])
    else
      var before :- Matching(docs[..|docs| - 1], user, names);
      var owner :- UserOf(docs[|docs| - 1], names);
      Ok(before + if owner == user then [docs[|docs| - 1]] else [])
  }

  /** Python's order of strings. */
  predicate Below(a: Text, b: Text) {
    b != [] && (a == [] || a[0] < b[0] || (a[0] == b[0] && Below(a[1..], b[1..])))
  }

  function LatestFirst(names: seq<Text>): (Json, Json) -> bool
    requires |names| == 8
  {
    (a: Json, b: Json) => !Below(TimeOf(a, names), TimeOf(b, names))
  }

  /** `find_by_user` over the text of the file. */
  function FindDocuments(file: Option<string>, user: int, limit: int, names: seq<Text>): Result<seq<Json>, Failure>
    requires |names| == 8
  {
    if file.None? then Ok([])
    else
      var matching :- Matching(ReadDocuments(Lines(file.value)), user, names);
      Ok(Slice(Sort(LatestFirst(names), matching), limit))
  }

  /** The field names in the order `FromMembers` expects them. */
  function EventOrder(names: seq<Text>): (r: seq<Text>)
    requires |names| == 8
    ensures |r| == 8
  {
    [names[1], names[2], names[0], names[3], names[4], names[5], names[6], names[7]]
  }

  /** `_to_record`: as `from_json` reads an object, with an empty identifier and user 0 for absent ones. */
  function ToRecord(j: Json, names: seq<Text>, now: Stamp): Result<Event, Failure>
    requires |names| == 8
  {
    match j
    case JObj(d) =>
      var whole := if Get(d, names[USER_FIELD]).Some? then d else d + [Member(names[USER_FIELD], JInt(0))];
      FromMembers(whole, EventOrder(names), Defaults([], now))
    case _ => Err(WrongShape)
  }

  function ToRecords(docs: seq<Json>, names: seq<Text>, now: Stamp): Result<seq<Event>, Failure>
    requires |names| == 8
  {
    if docs == [] then Ok([])
    else
      var before :- ToRecords(docs[..|docs| - 1], names, now);
      var last :- ToRecord(docs[|docs| - 1], names, now);
      Ok(before + [last])
  }

  /** `list_by_user` over the text of the file. */
  function ListByUser(file: Option<string>, user: int, limit: int, names: seq<Text>, now: Stamp):
      Result<seq<Event>, Failure>
    requires |names| == 8
  {
    var docs :- FindDocuments(file, user, limit, names);
    ToRecords(docs, names, now)
  }

  /** What the queries read off an object without any of the fields. */
  lemma AbsentFields(names: seq<Text>, now: Stamp)
    requires GoodNames(names)
    ensures UserOf(JObj([]), names) == Ok(-1) && TimeOf(JObj([]), names) == []
    ensures ToRecord(JObj([]), names, now) == Ok(Event([], 0, Ascii("unknown"), now, None, [], None, []))
  {
    var order := EventOrder(names);
    assert GoodNames(order);
    var none: seq<Member> := [];
    assert none + [Member(names[USER_FIELD], JInt(0))] == [Member(order[USER_ID], JInt(0))];
    OnlyTheUserIsNeeded(order, 0, Defaults([], now));
  }

  lemma {:induction false} GetOfSnoc(d: seq<Member>, last: Member, key: Text)
    ensures Get(d + [last], key) == if Get(d, key).Some? || last.key != key then Get(d, key) else Some(last.value)
  {
    if d == [] {
    } else if d[0].key != key {
      assert (d + [last])[1..] == d[1..] + [last];
      GetOfSnoc(d[1..], last, key);
    }
  }

  lemma SameFieldsSameEvent(d: seq<Member>, e: seq<Member>, names: seq<Text>, defaults: Defaults)
    requires |names| == 8 && forall i :: 0 <= i < 8 ==> Get(d, names[i]) == Get(e, names[i])
    ensures FromMembers(d, names, defaults) == FromMembers(e, names, defaults)
  {
    assert Get(d, names[0]) == Get(e, names[0]) && Get(d, names[1]) == Get(e, names[1]);
    assert Get(d, names[2]) == Get(e, names[2]) && Get(d, names[3]) == Get(e, names[3]);
    assert Get(d, names[4]) == Get(e, names[4]) && Get(d, names[5]) == Get(e, names[5]);
    assert Get(d, names[6]) == Get(e, names[6]) && Get(d, names[7]) == Get(e, names[7]);
  }

  /** A document without a user makes the record that it would make with user 0, its other fields included. */
  lemma WithoutUserIsUserZero(d: seq<Member>, names: seq<Text>, now: Stamp)
    requires GoodNames(names) && Get(d, names[USER_FIELD]).None?
    ensures ToRecord(JObj(d), names, now) == ToRecord(JObj([Member(names[USER_FIELD], JInt(0))] + d), names, now)
  {
    var user, order := Member(names[USER_FIELD], JInt(0)), EventOrder(names);
    var front := [user] + d;
    assert front[1..] == d;
    forall i | 0 <= i < 8 ensures Get(d + [user], order[i]) == Get(front, order[i]) {
      GetOfSnoc(d, user, order[i]);
    }
    SameFieldsSameEvent(d + [user], front, order, Defaults([], now));
  }

  // ---------------------------------------------------------------- order-preserving maps

  function Each<S, T>(f: S -> T, s: seq<S>): (r: seq<T>)
    ensures |r| == |s| && forall i :: 0 <= i < |s| ==> r[i] == f(s[i])
  {
    seq(|s|, i requires 0 <= i < |s| => f(s[i]))
  }

  lemma EachOfConcat<S, T>(f: S -> T, a: seq<S>, b: seq<S>)
    ensures Each(f, a + b) == Each(f, a) + Each(f, b)
  {
  }

  lemma EachOfOne<S, T>(f: S -> T, x: S)
    ensures Each(f, [x]) == [f(x)]
  {
  }

  lemma EachOfPrefix<S, T>(f: S -> T, s: seq<S>, n: nat)
    requires n <= |s|
    ensures Each(f, s[..n]) == Each(f, s)[..n]
  {
  }

  /** The order on the images is the order on the elements. */
  ghost predicate SameOrder<S(!new), T>(f: S -> T, le: (S, S) -> bool, ge: (T, T) -> bool) {
    forall a, b :: ge(f(a), f(b)) <==> le(a, b)
  }

  lemma {:induction false} InsertOfEach<S(!new), T>(f: S -> T, le: (S, S) -> bool, ge: (T, T) -> bool, s: seq<S>, x: S)
    requires SameOrder(f, le, ge)
    ensures Insert(ge, Each(f, s), f(x)) == Each(f, Insert(le, s, x))
  {
    if s == [] || le(s[|s| - 1], x) {
      EachOfConcat(f, s, [x]);
      EachOfOne(f, x);
    } else {
      var init, last := s[..|s| - 1], s[|s| - 1];
      InsertOfEach(f, le, ge, init, x);
      EachOfPrefix(f, s, |s| - 1);
      EachOfConcat(f, Insert(le, init, x), [last]);
      EachOfOne(f, last);
    }
  }

  lemma {:induction false} SortOfEach<S(!new), T>(f: S -> T, le: (S, S) -> bool, ge: (T, T) -> bool, s: seq<S>)
    requires SameOrder(f, le, ge)
    ensures Sort(ge, Each(f, s)) == Each(f, Sort(le, s))
  {
    if s == [] {
    } else {
      SortOfEach(f, le, ge, s[..|s| - 1]);
      EachOfPrefix(f, s, |s| - 1);
      InsertOfEach(f, le, ge, Sort(le, s[..|s| - 1]), s[|s| - 1]);
    }
  }

  lemma SliceOfEach<S, T>(f: S -> T, s: seq<S>, limit: int)
    ensures Slice(Each(f, s), limit) == Each(f, Slice(s, limit))
  {
  }

  // ---------------------------------------------------------------- text and records

  /** A stored document as `json.loads` gives it back. */
  function Loaded(names: seq<Text>): Event -> Json
    requires |names| == 8
  {
    (e: Event) => JObj(ReadBackMembers(DocumentMembers(e, names)))
  }

  /** The lines as records. */
  function Records(file: seq<FileLine>): (lines: seq<Line>)
    ensures |lines| == |file|
  {
    seq(|file|, i requires 0 <= i < |file| => if file[i].Stored? then Document(file[i].event) else Foreign)
  }

  /** The lines that are no stored documents are blank or no JSON. */
  ghost predicate Readable(file: seq<FileLine>) {
    forall i :: 0 <= i < |file| && file[i].Other? ==> Unbroken(file[i].line) && ReadDocument(file[i].line) == None
  }

  lemma StoredReadsBack(e: Event, names: seq<Text>)
    requires GoodNames(names)
    ensures ReadDocument(DocumentText(e, names)) == Some(Loaded(names)(e))
  {
    DocumentIsOneLine(e, names);
    NamedQueryFieldsReadBack(e, names);
  }

  lemma PrefixOfFile(file: seq<FileLine>, names: seq<Text>, n: nat)
    requires |names| == 8 && n <= |file|
    ensures FileLines(file, names)[..n] == FileLines(file[..n], names)
    ensures Records(file)[..n] == Records(file[..n])
  {
  }

  lemma {:induction false} DocumentsReadBack(file: seq<FileLine>, names: seq<Text>)
    requires GoodNames(names) && Readable(file)
    ensures ReadDocuments(FileLines(file, names)) == Each(Loaded(names), Documents(Records(file)))
  {
    if file == [] {
    } else {
      var n := |file| - 1;
      DocumentsReadBack(file[..n], names);
      PrefixOfFile(file, names, n);
      match file[n] {
        case Stored(e) =>
          StoredReadsBack(e, names);
          EachOfConcat(Loaded(names), Documents(Records(file[..n])), [e]);
          EachOfOne(Loaded(names), e);
        case Other(line) =>
          assert Documents(Records(file)) == Documents(Records(file[..n]));
      }
    }
  }

  lemma UserReadsBack(e: Event, names: seq<Text>)
    requires GoodNames(names)
    ensures UserOf(Loaded(names)(e), names) == Ok(e.userId)
    ensures TimeOf(Loaded(names)(e), names) == Ascii(Iso(e.occurredAt))
  {
    NamedQueryFieldsReadBack(e, names);
  }

  lemma MatchingOneMore(docs: seq<Json>, user: int, names: seq<Text>, before: seq<Json>, owner: int)
    requires |names| == 8 && docs != [] && UserOf(docs[|docs| - 1], names) == Ok(owner)
    requires Matching(docs[..|docs| - 1], user, names) == Ok(before)
    ensures Matching(docs, user, names) == Ok(if owner == user then before + [docs[|docs| - 1]] else before)
  {
    var none: seq<Json> := [];
    assert before + none == before;
  }

  lemma OfUserOneMore(records: seq<Event>, user: int)
    requires records != []
    ensures var before, last := OfUser(records[..|records| - 1], user), records[|records| - 1];
            OfUser(records, user) == if last.userId == user then before + [last] else before
  {
  }

  lemma {:induction false} MatchingReadsBack(records: seq<Event>, user: int, names: seq<Text>)
    requires GoodNames(names)
    ensures Matching(Each(Loaded(names), records), user, names) == Ok(Each(Loaded(names), OfUser(records, user)))
  {
    if records == [] {
    } else {
      var n := |records| - 1;
      var e := records[n];
      MatchingReadsBack(records[..n], user, names);
      EachOfPrefix(Loaded(names), records, n);
      UserReadsBack(e, names);
      var before := OfUser(records[..n], user);
      MatchingOneMore(Each(Loaded(names), records), user, names, Each(Loaded(names), before), e.userId);
      OfUserOneMore(records, user);
      EachOfConcat(Loaded(names), before, [e]);
      EachOfOne(Loaded(names), e);
    }
  }

  lemma {:induction false} BelowIsLess(a: string, b: string)
    ensures Below(Ascii(a), Ascii(b)) <==> Less(a, b)
  {
    if a == [] || b == [] {
    } else {
      BelowIsLess(a[1..], b[1..]);
      assert Ascii(a)[1..] == Ascii(a[1..]) && Ascii(b)[1..] == Ascii(b[1..]);
    }
  }

  lemma OrderReadsBack(names: seq<Text>)
    requires GoodNames(names)
    ensures SameOrder(Loaded(names), NewestFirst(), LatestFirst(names))
  {
    forall a, b ensures LatestFirst(names)(Loaded(names)(a), Loaded(names)(b)) <==> NewestFirst()(a, b) {
      UserReadsBack(a, names);
      UserReadsBack(b, names);
      BelowIsLess(Iso(a.occurredAt), Iso(b.occurredAt));
    }
  }

  lemma FileReadsBack(file: seq<FileLine>, names: seq<Text>)
    requires GoodNames(names) && Readable(file)
    ensures Lines(JoinLines(FileLines(file, names))) == FileLines(file, names)
  {
    forall i | 0 <= i < |file| ensures Unbroken(FileLines(file, names)[i]) {
      match file[i]
      case Stored(e) => DocumentIsOneLine(e, names);
      case Other(line) =>
    }
    LinesOfJoin(FileLines(file, names));
  }

  lemma NamedFindReadsTheText(file: seq<FileLine>, user: int, limit: int, names: seq<Text>, text: string)
    requires GoodNames(names) && Readable(file) && text == JoinLines(FileLines(file, names))
    ensures FindDocuments(Some(text), user, limit, names) ==
              Ok(Each(Loaded(names), FindByUser(Records(file), user, limit)))
  {
    var records := Documents(Records(file));
    FileReadsBack(file, names);
    DocumentsReadBack(file, names);
    MatchingReadsBack(records, user, names);
    OrderReadsBack(names);
    SortOfEach(Loaded(names), NewestFirst(), LatestFirst(names), OfUser(records, user));
    SliceOfEach(Loaded(names), Sort(NewestFirst(), OfUser(records, user)), limit);
  }

  /** What `json.loads` and the query make of the file is the query on records, document by document. */
  lemma FindReadsTheText(file: seq<FileLine>, user: int, limit: int)
    requires Readable(file)
    ensures FindDocuments(Some(JoinLines(FileLines(file, DOCUMENT_FIELDS))), user, limit, DOCUMENT_FIELDS) ==
              Ok(Each(Loaded(DOCUMENT_FIELDS), FindByUser(Records(file), user, limit)))
  {
    DocumentNamesAreGood();
    NamedFindReadsTheText(file, user, limit, DOCUMENT_FIELDS, JoinLines(FileLines(file, DOCUMENT_FIELDS)));
  }

  // ---------------------------------------------------------------- records again

  lemma DocumentFieldReadsBack(e: Event, names: seq<Text>, i: nat, d: seq<Member>)
    requires i < 8 && GoodNames(names) && d == ReadBackMembers(DocumentMembers(e, names))
    ensures Get(d, names[i]) == Some(ReadBack(DocumentMembers(e, names)[i].value))
  {
    NamedFieldReadsBack(DocumentMembers(e, names), names, i);
  }

  lemma FirstDocumentFields(e: Event, names: seq<Text>, d: seq<Member>)
    requires GoodNames(names) && d == ReadBackMembers(DocumentMembers(e, names))
    ensures Get(d, names[0]) == Some(JStr(Merge(e.id)))
    ensures Get(d, names[1]) == Some(JInt(e.userId))
    ensures Get(d, names[2]) == Some(JStr(Merge(e.eventType)))
    ensures Get(d, names[3]) == Some(ReadBack(JStr(Ascii(Iso(e.occurredAt)))))
  {
    DocumentFieldReadsBack(e, names, 0, d);
    DocumentFieldReadsBack(e, names, 1, d);
    DocumentFieldReadsBack(e, names, 2, d);
    DocumentFieldReadsBack(e, names, 3, d);
  }

  lemma LastDocumentFields(e: Event, names: seq<Text>, d: seq<Member>)
    requires GoodNames(names) && d == ReadBackMembers(DocumentMembers(e, names))
    ensures Get(d, names[4]) == Some(OptInt(e.itemId))
    ensures Get(d, names[5]) == Some(JArr(ReadBackItems(Ints(e.recommended))))
    ensures Get(d, names[6]) == Some(ReadBack(OptText(e.modelVersion)))
    ensures Get(d, names[7]) == Some(JObj(DictOf(ReadBackMembers(MetadataMembers(e.metadata)))))
  {
    DocumentFieldReadsBack(e, names, 4, d);
    DocumentFieldReadsBack(e, names, 5, d);
    DocumentFieldReadsBack(e, names, 6, d);
    DocumentFieldReadsBack(e, names, 7, d);
  }

  /** A stored document becomes the record it was made of, its strings as they are read back. */
  lemma RecordReadsBack(e: Event, names: seq<Text>, now: Stamp)
    requires GoodNames(names) && Valid(e.occurredAt)
    ensures ToRecord(Loaded(names)(e), names, now) == Ok(Reread(e))
  {
    var d := ReadBackMembers(DocumentMembers(e, names));
    FirstDocumentFields(e, names, d);
    LastDocumentFields(e, names, d);
    StampReadsBack(e.occurredAt, now);
    ReadBackOfInts(e.recommended);
    FromMembersReads(d, EventOrder(names), Reread(e), DictOf(ReadBackMembers(MetadataMembers(e.metadata))),
                     Defaults([], now));
  }

  ghost predicate AllValid(records: seq<Event>) {
    forall e :: e in records ==> WellFormed(e)
  }

  lemma ToRecordsOneMore(docs: seq<Json>, doc: Json, names: seq<Text>, now: Stamp, before: seq<Event>, last: Event)
    requires |names| == 8 && ToRecord(doc, names, now) == Ok(last) && ToRecords(docs, names, now) == Ok(before)
    ensures ToRecords(docs + [doc], names, now) == Ok(before + [last])
  {
    assert (docs + [doc])[..|docs|] == docs;
  }

  lemma EachOneMore(f: Event -> Json, g: Event -> Event, records: seq<Event>, e: Event, names: seq<Text>, now: Stamp)
    requires |names| == 8 && ToRecord(f(e), names, now) == Ok(g(e))
    requires ToRecords(Each(f, records), names, now) == Ok(Each(g, records))
    ensures ToRecords(Each(f, records + [e]), names, now) == Ok(Each(g, records + [e]))
  {
    ToRecordsOneMore(Each(f, records), f(e), names, now, Each(g, records), g(e));
    EachOfConcat(f, records, [e]);
    EachOfOne(f, e);
    EachOfConcat(g, records, [e]);
    EachOfOne(g, e);
  }

  lemma {:induction false} RecordsReadBack(records: seq<Event>, names: seq<Text>, now: Stamp)
    requires GoodNames(names) && AllValid(records)
    ensures ToRecords(Each(Loaded(names), records), names, now) == Ok(Each(Reread, records))
  {
    if records == [] {
    } else {
      var before, e := records[..|records| - 1], records[|records| - 1];
      assert e in records && records == before + [e];
      RecordsReadBack(before, names, now);
      RecordReadsBack(e, names, now);
      EachOneMore(Loaded(names), Reread, before, e, names, now);
    }
  }

  lemma SliceIsPart<T>(s: seq<T>, limit: int, x: T)
    requires x in Slice(s, limit)
    ensures x in s
  {
  }

  lemma QueryIsFromTheFile(lines: seq<Line>, user: int, limit: int, e: Event)
    requires e in FindByUser(lines, user, limit)
    ensures e in Documents(lines)
  {
    var all := OfUser(Documents(lines), user);
    SliceIsPart(Sort(NewestFirst(), all), limit, e);
    SortPermutes(NewestFirst(), all);
    MultisetMembers(Sort(NewestFirst(), all), all);
  }

  lemma QueryIsValid(lines: seq<Line>, user: int, limit: int)
    requires AllValid(Documents(lines))
    ensures AllValid(FindByUser(lines, user, limit))
  {
    var found := FindByUser(lines, user, limit);
    forall e | e in found ensures WellFormed(e) {
      QueryIsFromTheFile(lines, user, limit, e);
    }
  }

  lemma RereadChangesNothingExactly(records: seq<Event>)
    requires AllValid(records)
    ensures Each(Reread, records) == records <==> forall i :: 0 <= i < |records| ==> NoSplitPairs(records[i])
  {
    forall i | 0 <= i < |records| ensures Reread(records[i]) == records[i] <==> NoSplitPairs(records[i]) {
      assert records[i] in records;
      RereadExactly(records[i]);
    }
    assert forall i :: 0 <= i < |records| ==> Each(Reread, records)[i] == Reread(records[i]);
  }

  /**
   `list_by_user` over the text of the file returns the records of the query, newest first, each
   as it is read back: unchanged if and only if none of their strings holds a split pair.
   */
  lemma ListReadsTheText(file: seq<FileLine>, user: int, limit: int, now: Stamp)
    requires Readable(file) && AllValid(Documents(Records(file)))
    ensures var found := FindByUser(Records(file), user, limit);
            var listed :=
              ListByUser(Some(JoinLines(FileLines(file, DOCUMENT_FIELDS))), user, limit, DOCUMENT_FIELDS, now);
            && listed == Ok(Each(Reread, found))
            && (listed == Ok(found) <==> forall i :: 0 <= i < |found| ==> NoSplitPairs(found[i]))
  {
    var found := FindByUser(Records(file), user, limit);
    FindReadsTheText(file, user, limit);
    QueryIsValid(Records(file), user, limit);
    DocumentNamesAreGood();
    RecordsReadBack(found, DOCUMENT_FIELDS, now);
    RereadChangesNothingExactly(found);
  }
}
