/** The buffer's file in a drain. */
module DeliveryFiles {
  // The link between the retry buffer of the protocol and the text of its file: a drain that
  // parses the file is a run of the protocol, and when the identifiers survive the file.

  import opened Wrappers
  import opened Texts
  import opened Events
  import opened EventCodec
  import opened BufferFile
  import opened Delivery
  import opened HistoryStore
  import opened DeliveryRefinement
  import opened DeliveryLiveness
  import opened DeliveryContents
  import opened DeliveryRounds

  /** The file holds these appends since it was last cleared; without any there is no file. */
  ghost predicate Holds(file: Option<string>, appended: seq<Event>) {
    file == if appended == [] then None else Some(FileText(Appends(appended)))
  }

  /** What `append` writes keeps the link, and adds to the buffer the event as it will be read. */
  lemma AppendIsHeld(file: Option<string>, appended: seq<Event>, e: Event)
    requires Holds(file, appended)
    ensures Holds(Some((if file.Some? then file.value else "") + (ToJson(e) + "\n")), appended + [e])
    ensures RereadAll(appended + [e]) == RereadAll(appended) + [Reread(e)]
  {
    AppendIsAnEntry(Appends(appended), e);
    AppendsOfSnoc(appended, e);
    if appended == [] {
      NoAppends();
    }
  }

  lemma AppendsOfSnoc(appended: seq<Event>, e: Event)
    ensures Appends(appended + [e]) == Appends(appended) + [Appended(e)]
    ensures RereadAll(appended + [e]) == RereadAll(appended) + [Reread(e)]
  {
  }

  lemma NoAppends()
    ensures FileText(Appends([])) == ""
  {
    assert EntryLines(Appends([])) == [];
  }

  lemma FileIsReadBack(file: Option<string>, appended: seq<Event>, defaults: nat -> Defaults)
    requires Holds(file, appended) && forall i :: 0 <= i < |appended| ==> WellFormed(appended[i])
    ensures ReadFile(file, defaults) == Ok(RereadAll(appended))
  {
    if appended != [] {
      AppendsReadBack(appended, defaults);
    }
  }

  /** An identifier comes back from the file unchanged if and only if it holds no split pair. */
  lemma IdsComeBackExactly(appended: seq<Event>)
    ensures (forall i :: 0 <= i < |appended| ==> RereadAll(appended)[i].id == appended[i].id)
       <==> forall i :: 0 <= i < |appended| ==> NoSplitPair(appended[i].id)
  {
    forall i | 0 <= i < |appended|
      ensures RereadAll(appended)[i].id == appended[i].id <==> NoSplitPair(appended[i].id)
    {
      MergeKeepsExactly(appended[i].id);
    }
  }

  /**
   `drain_retry_buffer` on its file is a run of the protocol whose buffer holds the events as the
   file hands them back; afterwards file and buffer still belong together, cleared exactly when
   every event was handled.
   */
  lemma DrainOfFileIsARun(retries: int, s: State, w: FeedbackHistory.Worker, file: Option<string>, appended: seq<Event>,
                          defaults: nat -> Defaults) returns (labels: seq<Label>)
    requires s.worker.Idle? && Matches(s, w.store)
    requires Holds(file, appended) && s.buffer == RereadAll(appended)
    requires forall i :: 0 <= i < |appended| ==> WellFormed(appended[i])
    ensures ReadFile(file, defaults) == Ok(s.buffer)
    ensures var (after, written) := FeedbackHistory.HandleAll(retries, w, ReadFile(file, defaults).value);
            var left := if written == |s.buffer| then [] else appended;
            && RunFrom(retries, s, labels)
            && AfterFrom(retries, s, labels) ==
               s.(buffer := RereadAll(left), history := Documents(after.store.lines), index := after.store.keys)
            && Holds(if written == |s.buffer| then None else file, left)
  {
    FileIsReadBack(file, appended, defaults);
    labels := DrainIsARun(retries, s, w);
    assert RereadAll([]) == [];
  }

  /** Without split pairs the buffer of the protocol is the list of appended events itself. */
  lemma PlainDrainIsARun(retries: int, s: State, w: FeedbackHistory.Worker, file: Option<string>,
                         defaults: nat -> Defaults) returns (labels: seq<Label>)
    requires s.worker.Idle? && Matches(s, w.store) && Holds(file, s.buffer)
    requires forall i :: 0 <= i < |s.buffer| ==> WellFormed(s.buffer[i]) && NoSplitPairs(s.buffer[i])
    ensures ReadFile(file, defaults) == Ok(s.buffer)
    ensures var (after, written) := FeedbackHistory.HandleAll(retries, w, s.buffer);
            var left := if written == |s.buffer| then [] else s.buffer;
            && RunFrom(retries, s, labels)
            && AfterFrom(retries, s, labels) ==
               s.(buffer := left, history := Documents(after.store.lines), index := after.store.keys)
            && Holds(if written == |s.buffer| then None else file, left)
  {
    RereadAllExactly(s.buffer);
    labels := DrainOfFileIsARun(retries, s, w, file, s.buffer, defaults);
    assert RereadAll([]) == [];
  }

  /**
   Quiescent delivery from the text of the file: the replay of what `read_all` returns and enough
   calls of `run_once` clear the file, empty the queue, and leave in the history each event once
   that survived until then, and nothing else.
   */
  lemma FileThenRunOnce(retries: int, ls: seq<Label>, w: FeedbackHistory.Worker, file: Option<string>,
                        appended: seq<Event>, defaults: nat -> Defaults, max: Option<int>, calls: nat)
      returns (more: seq<Label>)
    requires Run(retries, ls) && After(retries, ls).worker.Idle? && Matches(After(retries, ls), w.store)
    requires Holds(file, appended) && After(retries, ls).buffer == RereadAll(appended)
    requires forall i :: 0 <= i < |appended| ==> WellFormed(appended[i])
    requires Tolerable(retries, w.store.faults) && Enough(|After(retries, ls).ready|, max, calls)
    ensures var s, events := After(retries, ls), ReadFile(file, defaults);
            events.Ok? &&
            var (drained, written) := FeedbackHistory.HandleAll(retries, w, events.value);
            var (end, queue) := Rounds(retries, drained, s.ready, max, calls);
            && written == |events.value| && queue == []
            && Run(retries, ls + more)
            && After(retries, ls + more) == State([], [], Documents(end.store.lines), end.store.keys, Idle)
            && SurvivorsOnce(ls, Documents(end.store.lines))
            && (IdsIdentify(ls) ==> SurvivingEventsOnce(ls, Documents(end.store.lines)))
  {
    FileIsReadBack(file, appended, defaults);
    more := DrainThenRunOnce(retries, ls, w, max, calls);
  }
}
