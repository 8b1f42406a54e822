/** The local retry buffer: a JSON Lines file of the events the broker refused. */
module BufferFile {
  import opened TextLines
  import opened Whitespace
  import opened Wrappers
  import opened Texts
  import opened Json
  import opened Events
  import opened EventCodec

  datatype LineResult = Parsed(event: Event) | Skipped | Raised(error: Failure)

  function ReadLine(line: string, defaults: Defaults): LineResult {
    var text := Strip(line);
    if text == [] then Skipped
    else
      match FromJson(text, defaults)
      case Ok(e) => Parsed(e)
      case Err(WrongShape) => Raised(WrongShape)
      case Err(_) => Skipped
  }

  /** The events of the first `n` lines; a line of the wrong shape raises out of the loop. */
  function ReadLines(lines: seq<string>, defaults: nat -> Defaults, n: nat): Result<seq<Event>, Failure>
    requires n <= |lines|
  {
    if n == 0 then Ok([])
    else
      var events :- ReadLines(lines, defaults, n - 1);
      match ReadLine(lines[n - 1], defaults(n - 1))
      case Parsed(e) => Ok(events + [e])
      case Skipped => Ok(events)
      case Raised(f) => Err(f)
  }

  function ReadText(text: string, defaults: nat -> Defaults): Result<seq<Event>, Failure> {
    ReadLines(Lines(text), defaults, |Lines(text)|)
  }

  function ReadFile(file: Option<string>, defaults: nat -> Defaults): Result<seq<Event>, Failure> {
    if file.None? then Ok([]) else ReadText(file.value, defaults)
  }

  lemma ReadLinesStep(lines: seq<string>, defaults: nat -> Defaults, i: nat, events: seq<Event>, result: LineResult)
    requires i < |lines| && ReadLines(lines, defaults, i) == Ok(events) && result == ReadLine(lines[i], defaults(i))
    ensures ReadLines(lines, defaults, i + 1) ==
              match result
              case Parsed(e) => Ok(events + [e])
              case Skipped => Ok(events)
              case Raised(f) => Err(f)
  {
  }

  /** Blank lines, lines that are no JSON and objects without a user are skipped; other JSON raises. */
  lemma WhatIsSkipped(line: string, defaults: Defaults)
    ensures Strip(line) == "" ==> ReadLine(line, defaults) == Skipped
    ensures Strip(line) != "" && Loads(Strip(line)).None? ==> ReadLine(line, defaults) == Skipped
    ensures Strip(line) != "" && Loads(Strip(line)).Some? && !Loads(Strip(line)).value.JObj? ==>
              ReadLine(line, defaults) == Raised(WrongShape)
    ensures Strip(line) != "" && Loads(Strip(line)).Some? && Loads(Strip(line)).value.JObj? &&
            Get(Loads(Strip(line)).value.members, FIELDS[USER_ID]).None? ==>
              ReadLine(line, defaults) == Skipped
  {
  }

  class RetryBuffer {
    /** Text of the file, None while it does not exist. */
    var file: Option<string>

    constructor (file: Option<string>)
      ensures this.file == file
    {
      this.file := file;
    }

    method Append(e: Event)
      modifies this
      ensures file == Some((if old(file).Some? then old(file).value else "") + (ToJson(e) + "\n"))
    {
      file := Some((if file.Some? then file.value else "") + (ToJson(e) + "\n"));
    }

    method ReadAll(defaults: nat -> Defaults) returns (r: Result<seq<Event>, Failure>)
      ensures r == ReadFile(file, defaults)
    {
      if file.None? {
        return Ok([]);
      }
      var events := [];
      var lines := Lines(file.value);
      for i := 0 to |lines|
        invariant ReadLines(lines, defaults, i) == Ok(events)
      {
        var result := ReadLine(lines[i], defaults(i));
        ReadLinesStep(lines, defaults, i, events, result);
        match result
        case Parsed(e) => events := events + [e];
        case Skipped =>
        case Raised(f) =>
          ReadLinesStopsAtError(lines, defaults, i + 1, |lines|);
          return Err(f);
      }
      r := Ok(events);
    }

    method Clear()
      modifies this
      ensures file == None
    {
      file := None;
    }
  }

  lemma {:induction false} ReadLinesStopsAtError(lines: seq<string>, defaults: nat -> Defaults, m: nat, n: nat)
    requires m <= n <= |lines| && ReadLines(lines, defaults, m).Err?
    ensures ReadLines(lines, defaults, n) == ReadLines(lines, defaults, m)
  {
    if m < n { ReadLinesStopsAtError(lines, defaults, m, n - 1); }
  }

  /** A line of the file: written by `append`, or put there by something else. */
  datatype Entry = Appended(event: Event) | Foreign(line: string)

  function LineOf(entry: Entry): string {
    match entry
    case Appended(e) => ToJson(e)
    case Foreign(line) => line
  }

  function FileText(entries: seq<Entry>): string {
    JoinLines(EntryLines(entries))
  }

  function EventsOf(entries: seq<Entry>): seq<Event> {
    if entries == [] then []
    else EventsOf(entries[..|entries| - 1]) +
         if entries[|entries| - 1].Appended? then [Reread(entries[|entries| - 1].event)] else []
  }

  /** A foreign line is one line, blank or not valid JSON, or an object without a user. */
  ghost predicate Skippable(line: string, defaults: nat -> Defaults) {
    && Unbroken(line)
    && forall n :: ReadLine(line, defaults(n)) == Skipped
  }

  ghost predicate Readable(entries: seq<Entry>, defaults: nat -> Defaults) {
    forall i :: 0 <= i < |entries| ==>
                  match entries[i]
                  case Appended(e) => WellFormed(e)
                  case Foreign(line) => Skippable(line, defaults)
  }

  function EntryLines(entries: seq<Entry>): seq<string> {
    seq(|entries|, i requires 0 <= i < |entries| => LineOf(entries[i]))
  }

  lemma ToJsonIsOneLine(e: Event)
    ensures Printable(ToJson(e)) && Strip(ToJson(e)) == ToJson(e) && ToJson(e) != []
  {
    DumpsIsPrintable(JObj(Payload(e, FIELDS)));
    assert ToJson(e)[0] == '{' && ToJson(e)[|ToJson(e)| - 1] == '}';
  }

  lemma AppendedIsUnbroken(e: Event)
    ensures Unbroken(ToJson(e))
  {
    ToJsonIsOneLine(e);
  }

  lemma LinesOfFile(entries: seq<Entry>, defaults: nat -> Defaults)
    requires Readable(entries, defaults)
    ensures Lines(FileText(entries)) == EntryLines(entries)
  {
    forall i | 0 <= i < |entries| ensures Unbroken(LineOf(entries[i])) {
      match entries[i]
      case Appended(e) => AppendedIsUnbroken(e);
      case Foreign(line) => assert Skippable(line, defaults);
    }
    LinesOfJoin(EntryLines(entries));
  }

  lemma {:induction false} ReadPrefix(entries: seq<Entry>, defaults: nat -> Defaults, n: nat)
    requires Readable(entries, defaults) && n <= |entries|
    ensures ReadLines(EntryLines(entries), defaults, n) == Ok(EventsOf(entries[..n]))
  {
    if n > 0 {
      ReadPrefix(entries, defaults, n - 1);
      assert entries[..n][..n - 1] == entries[..n - 1];
      match entries[n - 1]
      case Appended(e) =>
        ToJsonIsOneLine(e);
        FromJsonOfToJson(e, defaults(n - 1));
      case Foreign(line) =>
        assert Skippable(line, defaults) && ReadLine(line, defaults(n - 1)) == Skipped;
        assert EventsOf(entries[..n]) == EventsOf(entries[..n - 1]);
    }
  }

  /**
   JSON Lines round trip: whatever was appended, and whatever other lines are interleaved as long
   as they are not events, `read_all` returns the appended events in order, each as it is re-read.
   */
  lemma ReadAllReturnsTheAppends(entries: seq<Entry>, defaults: nat -> Defaults)
    requires Readable(entries, defaults)
    ensures ReadText(FileText(entries), defaults) == Ok(EventsOf(entries))
  {
    LinesOfFile(entries, defaults);
    ReadPrefix(entries, defaults, |entries|);
    assert entries[..|entries|] == entries;
  }

  function Appends(events: seq<Event>): seq<Entry> {
    seq(|events|, i requires 0 <= i < |events| => Appended(events[i]))
  }

  /** The events as the file hands them back. */
  function RereadAll(events: seq<Event>): (r: seq<Event>)
    ensures |r| == |events|
  {
    seq(|events|, i requires 0 <= i < |events| => Reread(events[i]))
  }

  lemma {:induction false} EventsOfAppends(events: seq<Event>)
    ensures EventsOf(Appends(events)) == RereadAll(events)
  {
    if events == [] {
    } else {
      var init, last := events[..|events| - 1], events[|events| - 1];
      EventsOfAppends(init);
      assert Appends(events)[..|events| - 1] == Appends(init);
      assert RereadAll(events) == RereadAll(init) + [Reread(last)];
    }
  }

  /** A file of appends is read back as the events with their split pairs joined, in order. */
  lemma AppendsReadBack(events: seq<Event>, defaults: nat -> Defaults)
    requires forall i :: 0 <= i < |events| ==> WellFormed(events[i])
    ensures ReadText(FileText(Appends(events)), defaults) == Ok(RereadAll(events))
  {
    ReadAllReturnsTheAppends(Appends(events), defaults);
    EventsOfAppends(events);
  }

  lemma RereadAllExactly(events: seq<Event>)
    requires forall i :: 0 <= i < |events| ==> WellFormed(events[i])
    ensures RereadAll(events) == events <==> forall i :: 0 <= i < |events| ==> NoSplitPairs(events[i])
  {
    forall i | 0 <= i < |events| ensures RereadAll(events)[i] == events[i] <==> NoSplitPairs(events[i]) {
      RereadExactly(events[i]);
    }
  }

  /** `read_all` returns exactly what was appended if and only if no string of it holds a split pair. */
  lemma AppendsRoundTripExactly(events: seq<Event>, defaults: nat -> Defaults)
    requires forall i :: 0 <= i < |events| ==> WellFormed(events[i])
    ensures ReadText(FileText(Appends(events)), defaults) == Ok(events)
       <==> forall i :: 0 <= i < |events| ==> NoSplitPairs(events[i])
  {
    AppendsReadBack(events, defaults);
    RereadAllExactly(events);
  }

  /** `append` is one more entry of the file. */
  lemma AppendIsAnEntry(entries: seq<Entry>, e: Event)
    ensures FileText(entries + [Appended(e)]) == FileText(entries) + (ToJson(e) + "\n")
  {
    LinesOfSnoc(entries, Appended(e));
    JoinOneMore(EntryLines(entries), ToJson(e));
  }

  lemma LinesOfSnoc(entries: seq<Entry>, x: Entry)
    ensures EntryLines(entries + [x]) == EntryLines(entries) + [LineOf(x)]
  {
  }
}
