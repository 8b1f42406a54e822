/** The history as text. */
module HistoryFile {
  // The lines of the history file as JSON text, and the key index that loading rebuilds from them.

  import opened Wrappers
  import opened Whitespace
  import opened TextLines
  import opened Texts
  import opened Timestamps
  import opened Json
  import opened Events
  import opened EventCodec

  /** Names of the fields, in the order `_to_document` lists them. */
  const DOCUMENT_FIELDS: seq<Text> :=
    [Ascii("event_id"), Ascii("user_id"), Ascii("event_type"), Ascii("occurred_at"),
     Ascii("item_id"), Ascii("recommended_items"), Ascii("model_version"), Ascii("metadata")]

  const KEY_FIELD := 0
  const USER_FIELD := 1
  const TIME_FIELD := 3

  function DocumentMembers(e: Event, names: seq<Text>): (p: seq<Member>)
    requires |names| == 8
    ensures |p| == 8 && forall k :: 0 <= k < 8 ==> p[k].key == names[k]
  {
    [Member(names[0], JStr(e.id)),
     Member(names[1], JInt(e.userId)),
     Member(names[2], JStr(e.eventType)),
     Member(names[3], JStr(Ascii(Iso(e.occurredAt)))),
     Member(names[4], OptInt(e.itemId)),
     Member(names[5], JArr(Ints(e.recommended))),
     Member(names[6], OptText(e.modelVersion)),
     Member(names[7], JObj(MetadataMembers(e.metadata)))]
  }

  function DocumentText(e: Event, names: seq<Text>): string
    requires |names| == 8
  {
    Dumps(JObj(DocumentMembers(e, names)))
  }

  /** One line of `_load_keys`; `Raised` is the TypeError of a line that is JSON but no object. */
  datatype KeyLine = Key(id: Text) | Skipped | Raised

  function LoadKey(line: string, names: seq<Text>): KeyLine
    requires |names| == 8
  {
    var text := Strip(line);
    if text == [] then Skipped
    else
      match Loads(text)
      case None => Skipped
      case Some(JObj(d)) => (match Get(d, names[KEY_FIELD]) case None => Skipped case Some(j) => Key(Str(j)))
      case Some(_) => Raised
  }

  /** Blank lines, lines that are no JSON and objects without a key have none; other JSON raises. */
  lemma WhatHasAKey(line: string, names: seq<Text>)
    requires |names| == 8
    ensures Strip(line) == "" ==> LoadKey(line, names) == Skipped
    ensures Strip(line) != "" && Loads(Strip(line)).None? ==> LoadKey(line, names) == Skipped
    ensures Strip(line) != "" && Loads(Strip(line)).Some? ==>
              match Loads(Strip(line)).value
              case JObj(d) =>
                && (Get(d, names[0]).None? ==> LoadKey(line, names) == Skipped)
                && (forall t :: Get(d, names[0]) == Some(JStr(t)) ==> LoadKey(line, names) == Key(t))
              case _ => LoadKey(line, names) == Raised
  {
  }

  function KeyLines(lines: seq<string>, names: seq<Text>): (r: seq<KeyLine>)
    requires |names| == 8
    ensures |r| == |lines| && forall i :: 0 <= i < |r| ==> r[i] == LoadKey(lines[i], names)
  {
    seq(|lines|, i requires 0 <= i < |lines| => LoadKey(lines[i], names))
  }

  /** The index the lines make, in order; None when one raises. */
  function Collected(keys: seq<KeyLine>): Option<set<Text>> {
    if keys == [] then Some({})
    else
      var before :- Collected(keys[..|keys| - 1]);
      match keys[|keys| - 1]
      case Key(id) => Some(before + {id})
      case Skipped => Some(before)
      case Raised => None
  }

  function LoadKeysOf(lines: seq<string>, names: seq<Text>): Option<set<Text>>
    requires |names| == 8
  {
    Collected(KeyLines(lines, names))
  }

  lemma {:induction false} CollectedStopsAtError(keys: seq<KeyLine>, n: nat)
    requires n <= |keys| && Collected(keys[..n]).None?
    ensures Collected(keys).None?
  {
    if n < |keys| {
      assert keys[..|keys| - 1][..n] == keys[..n];
      CollectedStopsAtError(keys[..|keys| - 1], n);
    } else {
      assert keys[..n] == keys;
    }
  }

  lemma CollectedStep(keys: seq<KeyLine>, i: nat)
    requires i < |keys|
    ensures keys[..i + 1] == keys[..i] + [keys[i]] && keys[..i + 1][..i] == keys[..i]
  {
  }

  /** `_load_keys` over the text of the file. */
  method LoadKeys(file: Option<string>) returns (r: Option<set<Text>>)
    ensures r == if file.None? then Some({}) else LoadKeysOf(Lines(file.value), DOCUMENT_FIELDS)
  {
    r := LoadKeysNamed(file, DOCUMENT_FIELDS);
  }

  method LoadKeysNamed(file: Option<string>, names: seq<Text>) returns (r: Option<set<Text>>)
    requires |names| == 8
    ensures r == if file.None? then Some({}) else LoadKeysOf(Lines(file.value), names)
  {
    if file.None? {
      return Some({});
    }
    var lines, keys := Lines(file.value), {};
    ghost var all := KeyLines(lines, names);
    for i := 0 to |lines|
      invariant Collected(all[..i]) == Some(keys)
    {
      var line := LoadKey(lines[i], names);
      CollectedStep(all, i);
      match line
      case Key(id) => keys := keys + {id};
      case Skipped =>
      case Raised =>
        CollectedStopsAtError(all, i + 1);
        return None;
    }
    assert all[..|lines|] == all;
    r := Some(keys);
  }

  // ---------------------------------------------------------------- what is read back

  lemma DocumentNamesAreGood()
    ensures GoodNames(DOCUMENT_FIELDS)
  {
    FieldNamesAreGood();
    assert DOCUMENT_FIELDS == [FIELDS[EVENT_ID], FIELDS[USER_ID], FIELDS[EVENT_TYPE]] + FIELDS[OCCURRED_AT..];
  }

  lemma DocumentIsOneLine(e: Event, names: seq<Text>)
    requires |names| == 8
    ensures Unbroken(DocumentText(e, names)) && Strip(DocumentText(e, names)) == DocumentText(e, names) != []
  {
    DumpsIsPrintable(JObj(DocumentMembers(e, names)));
    var text := DocumentText(e, names);
    assert text[0] == '{' && text[|text| - 1] == '}';
  }

  lemma StampTextStays(t: Stamp)
    ensures Merge(Ascii(Iso(t))) == Ascii(Iso(t))
  {
    IsoIsAscii(t);
    AsciiIsPlain(Iso(t));
    PlainStays(Ascii(Iso(t)));
  }

  /** The fields a query filters and sorts by come back from the line as they were written. */
  lemma QueryFieldsReadBack(e: Event)
    ensures Loads(DocumentText(e, DOCUMENT_FIELDS)) ==
              Some(JObj(ReadBackMembers(DocumentMembers(e, DOCUMENT_FIELDS))))
    ensures var d := ReadBackMembers(DocumentMembers(e, DOCUMENT_FIELDS));
            && Get(d, DOCUMENT_FIELDS[USER_FIELD]) == Some(JInt(e.userId))
            && Get(d, DOCUMENT_FIELDS[TIME_FIELD]) == Some(JStr(Ascii(Iso(e.occurredAt))))
  {
    DocumentNamesAreGood();
    NamedQueryFieldsReadBack(e, DOCUMENT_FIELDS);
  }

  lemma NamedQueryFieldsReadBack(e: Event, names: seq<Text>)
    requires GoodNames(names)
    ensures Loads(DocumentText(e, names)) == Some(JObj(ReadBackMembers(DocumentMembers(e, names))))
    ensures var d := ReadBackMembers(DocumentMembers(e, names));
            && Get(d, names[USER_FIELD]) == Some(JInt(e.userId))
            && Get(d, names[TIME_FIELD]) == Some(JStr(Ascii(Iso(e.occurredAt))))
  {
    var p := DocumentMembers(e, names);
    DocumentReadsBack(p, names);
    NamedFieldReadsBack(p, names, USER_FIELD);
    NamedFieldReadsBack(p, names, TIME_FIELD);
    StampTextStays(e.occurredAt);
  }

  lemma DocumentReadsBack(p: seq<Member>, names: seq<Text>)
    requires |p| == 8 && GoodNames(names) && forall k :: 0 <= k < 8 ==> p[k].key == names[k]
    ensures Loads(Dumps(JObj(p))) == Some(JObj(ReadBackMembers(p)))
  {
    LoadsOfDumps(JObj(p));
    NamedFieldReadsBack(p, names, 0);
  }

  /** The key read off a stored line is the identifier with its split pairs joined. */
  lemma KeyReadsBack(e: Event, names: seq<Text>)
    requires GoodNames(names)
    ensures LoadKey(DocumentText(e, names), names) == Key(Merge(e.id))
  {
    var p := DocumentMembers(e, names);
    DocumentIsOneLine(e, names);
    DocumentReadsBack(p, names);
    NamedFieldReadsBack(p, names, KEY_FIELD);
  }

  // ---------------------------------------------------------------- the whole file

  /** A line of the file: a stored document, or a line without a key that loading skips. */
  datatype FileLine = Stored(event: Event) | Other(line: string)

  function TextOf(x: FileLine, names: seq<Text>): string
    requires |names| == 8
  {
    match x
    case Stored(e) => DocumentText(e, names)
    case Other(line) => line
  }

  function KeyOf(x: FileLine): KeyLine {
    match x
    case Stored(e) => Key(Merge(e.id))
    case Other(_) => Skipped
  }

  function FileLines(file: seq<FileLine>, names: seq<Text>): (r: seq<string>)
    requires |names| == 8
    ensures |r| == |file| && forall i :: 0 <= i < |r| ==> r[i] == TextOf(file[i], names)
  {
    seq(|file|, i requires 0 <= i < |file| => TextOf(file[i], names))
  }

  /** The identifiers of the stored documents. */
  function StoredIds(file: seq<FileLine>): set<Text> {
    set i | 0 <= i < |file| && file[i].Stored? :: file[i].event.id
  }

  function KeySet(keys: seq<KeyLine>): set<Text> {
    set i | 0 <= i < |keys| && keys[i].Key? :: keys[i].id
  }

  function KeysOf(file: seq<FileLine>): (r: seq<KeyLine>)
    ensures |r| == |file| && forall i :: 0 <= i < |r| ==> r[i] == KeyOf(file[i])
  {
    seq(|file|, i requires 0 <= i < |file| => KeyOf(file[i]))
  }

  ghost predicate Loadable(file: seq<FileLine>, names: seq<Text>)
    requires |names| == 8
  {
    forall i :: 0 <= i < |file| && file[i].Other? ==> Unbroken(file[i].line) && LoadKey(file[i].line, names) == Skipped
  }

  lemma KeySetOfSnoc(keys: seq<KeyLine>, k: KeyLine)
    ensures KeySet(keys + [k]) == if k.Key? then KeySet(keys) + {k.id} else KeySet(keys)
  {
    var all := keys + [k];
    forall x | x in KeySet(keys) ensures x in KeySet(all) {
      var i :| 0 <= i < |keys| && keys[i].Key? && keys[i].id == x;
      assert all[i] == keys[i];
    }
    assert all[|keys|] == k;
  }

  /** Loading collects the keys of the lines. */
  lemma {:induction false} LoadCollects(keys: seq<KeyLine>)
    requires forall i :: 0 <= i < |keys| ==> !keys[i].Raised?
    ensures Collected(keys) == Some(KeySet(keys))
  {
    if keys == [] {
      assert KeySet(keys) == {};
    } else {
      var before, last := keys[..|keys| - 1], keys[|keys| - 1];
      LoadCollects(before);
      KeySetOfSnoc(before, last);
      assert keys == before + [last];
    }
  }

  lemma LineIsUnbroken(file: seq<FileLine>, names: seq<Text>, i: nat)
    requires GoodNames(names) && Loadable(file, names) && i < |file|
    ensures Unbroken(TextOf(file[i], names)) && LoadKey(TextOf(file[i], names), names) == KeyOf(file[i])
  {
    match file[i]
    case Stored(e) =>
      DocumentIsOneLine(e, names);
      KeyReadsBack(e, names);
    case Other(line) =>
  }

  /** The keys are the stored identifiers exactly when none of these holds a split pair. */
  lemma KeySetExactly(file: seq<FileLine>)
    ensures KeySet(KeysOf(file)) == StoredIds(file)
       <==> forall i :: 0 <= i < |file| && file[i].Stored? ==> NoSplitPair(file[i].event.id)
  {
    var keys := KeysOf(file);
    if forall i :: 0 <= i < |file| && file[i].Stored? ==> NoSplitPair(file[i].event.id) {
      PlainKeySet(file);
    } else {
      var i :| 0 <= i < |file| && file[i].Stored? && !NoSplitPair(file[i].event.id);
      assert file[i].event.id in StoredIds(file);
      forall j | 0 <= j < |file| && keys[j].Key? ensures keys[j].id != file[i].event.id {
        assert keys[j] == KeyOf(file[j]);
        MergeLeavesNoPair(file[j].event.id);
      }
    }
  }

  lemma PlainKeySet(file: seq<FileLine>)
    requires forall i :: 0 <= i < |file| && file[i].Stored? ==> NoSplitPair(file[i].event.id)
    ensures KeySet(KeysOf(file)) == StoredIds(file)
  {
    var keys := KeysOf(file);
    forall i | 0 <= i < |file|
      ensures keys[i].Key? <==> file[i].Stored?
      ensures file[i].Stored? ==> keys[i].id == file[i].event.id
    {
      assert keys[i] == KeyOf(file[i]);
      if file[i].Stored? {
        MergeKeepsExactly(file[i].event.id);
      }
    }
  }

  lemma LoadOfFile(file: seq<FileLine>, names: seq<Text>, lines: seq<string>)
    requires GoodNames(names) && Loadable(file, names) && lines == Lines(JoinLines(FileLines(file, names)))
    ensures LoadKeysOf(lines, names) == Some(KeySet(KeysOf(file)))
  {
    FileIsRead(file, names);
    LoadCollects(KeysOf(file));
  }

  lemma FileIsRead(file: seq<FileLine>, names: seq<Text>)
    requires GoodNames(names) && Loadable(file, names)
    ensures KeyLines(Lines(JoinLines(FileLines(file, names))), names) == KeysOf(file)
  {
    var lines := FileLines(file, names);
    forall i | 0 <= i < |file| ensures Unbroken(lines[i]) && LoadKey(lines[i], names) == KeysOf(file)[i] {
      LineIsUnbroken(file, names, i);
    }
    LinesOfJoin(lines);
  }

  lemma NamedIndexReloadsExactly(file: seq<FileLine>, names: seq<Text>, lines: seq<string>)
    requires GoodNames(names) && Loadable(file, names) && lines == Lines(JoinLines(FileLines(file, names)))
    ensures LoadKeysOf(lines, names) == Some(StoredIds(file))
       <==> forall i :: 0 <= i < |file| && file[i].Stored? ==> NoSplitPair(file[i].event.id)
  {
    LoadOfFile(file, names, lines);
    SameKeysExactly(file, LoadKeysOf(lines, names));
  }

  lemma SameKeysExactly(file: seq<FileLine>, loaded: Option<set<Text>>)
    requires loaded == Some(KeySet(KeysOf(file)))
    ensures loaded == Some(StoredIds(file))
       <==> forall i :: 0 <= i < |file| && file[i].Stored? ==> NoSplitPair(file[i].event.id)
  {
    KeySetExactly(file);
  }

  /**
   Loading the file after a restart rebuilds exactly the index of the stored identifiers if and
   only if none of these holds a split pair. The uuids that events are given hold none.
   */
  lemma ReloadedIndexExactly(file: seq<FileLine>)
    requires Loadable(file, DOCUMENT_FIELDS)
    ensures var lines := Lines(JoinLines(FileLines(file, DOCUMENT_FIELDS)));
            LoadKeysOf(lines, DOCUMENT_FIELDS) == Some(StoredIds(file))
            <==> forall i :: 0 <= i < |file| && file[i].Stored? ==> NoSplitPair(file[i].event.id)
  {
    DocumentNamesAreGood();
    NamedIndexReloadsExactly(file, DOCUMENT_FIELDS, Lines(JoinLines(FileLines(file, DOCUMENT_FIELDS))));
  }
}
