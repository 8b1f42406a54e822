/** The delivery protocol. */
module Delivery {
  // The delivery protocol as a labelled state machine.
  //
  // Publishers, the broker, the retry buffer, one worker process and its append-only history.
  // Every step that another party or a crash can interleave with is a label of its own: in
  // particular the history line and the key index are written in two steps, and a drain of the
  // retry buffer is a read, one `handle` per event, and a clear.

  import opened Texts
  import opened Events

  /** What became of a publication: queued, refused into the buffer, or both. */
  datatype Outcome = Queued | Refused | RefusedButQueued

  /** What the worker is processing: one unacknowledged delivery, or a snapshot of the buffer. */
  datatype Job =
    | FromBroker(event: Event)
    | FromBuffer(snapshot: seq<Event>, next: nat, written: nat)

  /** Progress of one `handle` call. */
  datatype Phase =
    | Attempting(failed: nat)
    | LineWritten
    | Handled(ok: bool)

  datatype Worker = Down | Idle | Busy(job: Job, phase: Phase)

  datatype State = State(
    ready: seq<Event>,
    buffer: seq<Event>,
    history: seq<Event>,
    index: set<Text>,
    worker: Worker)

  datatype Label =
    | Publish(event: Event, outcome: Outcome)
    | Get
    | WriteLine
    | IndexKey
    | SkipKnown
    | AttemptFails
    | Ack
    | Nack(at: nat)
    | DrainRead
    | DrainNext
    | DrainClear
    | DrainKeep
    | Crash(at: nat)
    | Restart

  const INIT: State := State([], [], [], {}, Down)

  ghost predicate HasCurrent(job: Job) {
    job.FromBroker? || job.next < |job.snapshot|
  }

  function Current(job: Job): Event
    requires HasCurrent(job)
  {
    if job.FromBroker? then job.event else job.snapshot[job.next]
  }

  /** A call of `handle` whose attempt budget is already spent refuses the event at once. */
  function StartPhase(retries: int): Phase {
    if retries <= 0 then Handled(false) else Attempting(0)
  }

  function Requeue(ready: seq<Event>, at: nat, e: Event): seq<Event>
    requires at <= |ready|
  {
    ready[..at] + [e] + ready[at..]
  }

  ghost predicate Enabled(s: State, l: Label) {
    match l
    case Publish(_, _) => true
    case Get => s.worker.Idle? && s.ready != []
    case WriteLine =>
      s.worker.Busy? && s.worker.phase.Attempting? && HasCurrent(s.worker.job) && Current(s.worker.job).id !in s.index
    case IndexKey => s.worker.Busy? && s.worker.phase.LineWritten? && HasCurrent(s.worker.job)
    case SkipKnown =>
      s.worker.Busy? && s.worker.phase.Attempting? && HasCurrent(s.worker.job) && Current(s.worker.job).id in s.index
    case AttemptFails => s.worker.Busy? && s.worker.phase.Attempting? && HasCurrent(s.worker.job)
    case Ack => s.worker.Busy? && s.worker.job.FromBroker? && s.worker.phase == Handled(true)
    case Nack(at) =>
      s.worker.Busy? && s.worker.job.FromBroker? && s.worker.phase == Handled(false) && at <= |s.ready|
    case DrainRead => s.worker.Idle?
    case DrainNext =>
      s.worker.Busy? && s.worker.job.FromBuffer? && HasCurrent(s.worker.job) && s.worker.phase.Handled?
    case DrainClear =>
      s.worker.Busy? && s.worker.job.FromBuffer? && !HasCurrent(s.worker.job) &&
      s.worker.job.written == |s.worker.job.snapshot|
    case DrainKeep =>
      s.worker.Busy? && s.worker.job.FromBuffer? && !HasCurrent(s.worker.job) &&
      s.worker.job.written != |s.worker.job.snapshot|
    case Crash(at) => !s.worker.Down? && at <= |s.ready|
    case Restart => s.worker.Down?
  }

  ghost function Next(retries: int, s: State, l: Label): State
    requires Enabled(s, l)
  {
    match l
    case Publish(e, outcome) =>
      s.(ready := if outcome.Refused? then s.ready else s.ready + [e],
         buffer := if outcome.Queued? then s.buffer else s.buffer + [e])
    case Get => s.(ready := s.ready[1..], worker := Busy(FromBroker(s.ready[0]), StartPhase(retries)))
    case WriteLine =>
      s.(history := s.history + [Current(s.worker.job)], worker := s.worker.(phase := LineWritten))
    case IndexKey =>
      s.(index := s.index + {Current(s.worker.job).id}, worker := s.worker.(phase := Handled(true)))
    case SkipKnown => s.(worker := s.worker.(phase := Handled(true)))
    case AttemptFails =>
      var failed := s.worker.phase.failed + 1;
      s.(worker := s.worker.(phase := if failed < retries then Attempting(failed) else Handled(false)))
    case Ack => s.(worker := Idle)
    case Nack(at) => s.(ready := Requeue(s.ready, at, s.worker.job.event), worker := Idle)
    case DrainRead => s.(worker := DrainWorker(retries, FromBuffer(s.buffer, 0, 0)))
    case DrainNext =>
      var j := s.worker.job;
      s.(worker := DrainWorker(retries,
                               FromBuffer(j.snapshot, j.next + 1, j.written + if s.worker.phase.ok then 1 else 0)))
    case DrainClear => s.(buffer := [], worker := Idle)
    case DrainKeep => s.(worker := Idle)
    case Crash(at) =>
      s.(ready := if s.worker.Busy? && s.worker.job.FromBroker? then Requeue(s.ready, at, s.worker.job.event)
                  else s.ready,
         index := {},
         worker := Down)
    case Restart => s.(index := Ids(s.history), worker := Idle)
  }

  /** The worker as it turns to the next event of a drain, or to the end of the snapshot. */
  function DrainWorker(retries: int, job: Job): Worker
    requires job.FromBuffer?
  {
    Busy(job, if job.next < |job.snapshot| then StartPhase(retries) else Handled(true))
  }

  /** Steps of the worker alone, none of them its crash. */
  predicate Undisturbed(ls: seq<Label>) {
    forall i :: 0 <= i < |ls| ==> !ls[i].Publish? && !ls[i].Crash?
  }

  lemma UndisturbedConcat(a: seq<Label>, b: seq<Label>)
    requires Undisturbed(a) && Undisturbed(b)
    ensures Undisturbed(a + b)
  {
  }

  /** `Run(retries, ls)`: the labels can be taken one after another from `INIT`. */
  ghost predicate Run(retries: int, ls: seq<Label>)
    decreases |ls|, 0
  {
    ls == [] ||
    (Run(retries, ls[..|ls| - 1]) && Enabled(After(retries, ls[..|ls| - 1]), ls[|ls| - 1]))
  }

  ghost function After(retries: int, ls: seq<Label>): State
    requires Run(retries, ls)
    decreases |ls|, 1
  {
    if ls == [] then INIT else Next(retries, After(retries, ls[..|ls| - 1]), ls[|ls| - 1])
  }

  /** Events delivered to the worker and not yet acknowledged. */
  ghost function Unacked(s: State): set<Text> {
    if s.worker.Busy? && s.worker.job.FromBroker? then {s.worker.job.event.id} else {}
  }

  /** Identifiers still held somewhere durable: broker, retry buffer or history. */
  ghost function HeldIds(s: State): set<Text> {
    Ids(s.ready) + Unacked(s) + Ids(s.buffer) + Ids(s.history)
  }

  lemma RunExtends(retries: int, ls: seq<Label>, l: Label)
    requires Run(retries, ls)
    ensures Run(retries, ls + [l]) <==> Enabled(After(retries, ls), l)
    ensures Enabled(After(retries, ls), l) ==> After(retries, ls + [l]) == Next(retries, After(retries, ls), l)
  {
    assert (ls + [l])[..|ls|] == ls;
  }
}
