/** At most once. */
module DeliverySafety {
  // At-most-once: what every step of the protocol keeps about the history and its key index.

  import opened Events
  import opened Delivery

  /** The key index lags the file only between the write of a line and the index update. */
  ghost predicate IndexMatches(s: State) {
    match s.worker
    case Down => s.index == {}
    case Idle => s.index == Ids(s.history)
    case Busy(job, phase) =>
      if phase.LineWritten? then
        HasCurrent(job) && Current(job).id !in s.index && Ids(s.history) == s.index + {Current(job).id}
      else
        s.index == Ids(s.history)
  }

  ghost predicate JobConsistent(s: State) {
    s.worker.Busy? ==>
      var Busy(job, phase) := s.worker;
      && (HasCurrent(job) && phase == Handled(true) ==> Current(job).id in Ids(s.history))
      && (job.FromBuffer? ==>
            && job.written <= job.next <= |job.snapshot|
            && job.snapshot <= s.buffer
            && (!HasCurrent(job) ==> phase == Handled(true))
            && (job.written == job.next ==> Ids(job.snapshot[..job.next]) <= Ids(s.history)))
  }

  ghost predicate Inv(s: State) {
    DistinctIds(s.history) && IndexMatches(s) && JobConsistent(s)
  }

  lemma DistinctAppend(events: seq<Event>, e: Event)
    requires DistinctIds(events) && e.id !in Ids(events)
    ensures DistinctIds(events + [e])
  {
  }

  lemma StepKeepsInv(retries: int, s: State, l: Label)
    requires Inv(s) && Enabled(s, l)
    ensures Inv(Next(retries, s, l))
  {
    match l
    case WriteLine =>
      var e := Current(s.worker.job);
      DistinctAppend(s.history, e);
      IdsOfConcat(s.history, [e]);
      IdsOfSingleton(e);
    case DrainNext =>
      var j := s.worker.job;
      assert j.snapshot[..j.next + 1] == j.snapshot[..j.next] + [j.snapshot[j.next]];
      IdsOfConcat(j.snapshot[..j.next], [j.snapshot[j.next]]);
      IdsOfSingleton(j.snapshot[j.next]);
    case _ =>
  }

  /** At most once, over every interleaving, redelivery, replay, crash and restart. */
  lemma {:induction false} AtMostOnce(retries: int, ls: seq<Label>)
    requires Run(retries, ls)
    ensures Inv(After(retries, ls))
  {
    if ls != [] {
      var before := ls[..|ls| - 1];
      AtMostOnce(retries, before);
      StepKeepsInv(retries, After(retries, before), ls[|ls| - 1]);
    }
  }
}
