/** What the events of a run say about the state it ends in: nothing here reads the
    specification's own history, only the run. */
module PublisherHistory {
  import opened Mqtt
  import opened PublisherModel
  import opened PublisherInvariants
  import opened PublisherIds
  import opened PublisherTheorems

  // ---- stop ----

  /** Past the stop test and not on the wire yet. */
  predicate PastStopTest(w: Writer) {
    w.Pacing? || w.Acquiring? || w.Holding? || w.Stamped? || w.Writing?
  }

  function Launched(s: State): nat {
    |Publishes(s.trace.wire)| + Bit(PastStopTest(s.writer))
  }

  lemma StoppedMoveLaunchesNothing(c: Config, s: State, to: Writer)
    requires s.stop && CanMove(c, s, to)
    ensures PastStopTest(to) ==> PastStopTest(s.writer)
  {
  }

  lemma StoppedWriterLaunchesNothing(c: Config, s: State, e: Event)
    requires s.stop && Enabled(c, s, e) && !ReaderSide(e) && !EnvSide(e) && !TouchesWire(e)
    ensures Launched(WriterStep(c, s, e)) <= Launched(s)
  {
    WireFrame(c, s, e);
    if e.Move? { StoppedMoveLaunchesNothing(c, s, e.to); }
  }

  lemma WritingLaunchesNothing(c: Config, s: State, e: Event)
    requires Enabled(c, s, e) && TouchesWire(e)
    ensures Launched(WriterStep(c, s, e)) == Launched(s)
  {
    WireAppend(s.trace.wire, if e.PublishWritten? then OutPublish(s.writer.id, s.sent)
                             else if e.PubrelWritten? then OutPubrel(s.writer.id) else OutDisconnect);
  }

  lemma StopStep(c: Config, s: State, e: Event)
    requires s.stop && Enabled(c, s, e)
    ensures Launched(Apply(c, s, e)) <= Launched(s)
  {
    if TouchesWire(e) { WritingLaunchesNothing(c, s, e); }
    else if ReaderSide(e) || EnvSide(e) { ReaderFrame(c, s, e); }
    else { StoppedWriterLaunchesNothing(c, s, e); }
  }

  /** At every QoS, once stop is requested at most one further PUBLISH is written,
      and none unless the writer had already passed the stop test. */
  lemma {:induction false} StopEndsSending(c: Config, s: State, es: seq<Event>)
    requires s.stop && ValidRun(c, s, es)
    ensures |Publishes(After(c, s, es).trace.wire)| <= |Publishes(s.trace.wire)| + 1
    ensures !PastStopTest(s.writer) ==> |Publishes(After(c, s, es).trace.wire)| <= |Publishes(s.trace.wire)|
    ensures Launched(After(c, s, es)) <= Launched(s)
    decreases |es|
  {
    if es != [] {
      StopIsForGood(c, s, es[0]);
      StopStep(c, s, es[0]);
      StopEndsSending(c, Apply(c, s, es[0]), es[1..]);
    }
  }

  // ---- failed writes ----

  /** The writer has left its loop. */
  predicate OutOfLoop(w: Writer) {
    InTail(w) || w.Disconnecting? || w.Joining? || w.Done?
  }

  lemma OutOfLoopStep(c: Config, s: State, e: Event)
    requires OutOfLoop(s.writer) && Enabled(c, s, e)
    ensures OutOfLoop(Apply(c, s, e).writer) && Publishes(Apply(c, s, e).trace.wire) == Publishes(s.trace.wire)
    ensures s.writer.Done? ==> Apply(c, s, e).writer == s.writer
  {
    if e.PubrelWritten? { WireAppend(s.trace.wire, OutPubrel(s.writer.id)); }
    else if e.SendDisconnect? { WireAppend(s.trace.wire, OutDisconnect); }
    else if ReaderSide(e) || EnvSide(e) { ReaderFrame(c, s, e); }
    else { WireFrame(c, s, e); }
  }

  /** Outside the loop nothing is published any more, and an outcome is final. */
  lemma {:induction false} LeavingIsFinal(c: Config, s: State, es: seq<Event>)
    requires OutOfLoop(s.writer) && ValidRun(c, s, es)
    ensures Publishes(After(c, s, es).trace.wire) == Publishes(s.trace.wire)
    ensures s.writer.Done? ==> After(c, s, es).writer == s.writer
    decreases |es|
  {
    if es != [] {
      OutOfLoopStep(c, s, es[0]);
      LeavingIsFinal(c, Apply(c, s, es[0]), es[1..]);
    }
  }

  /** A failed PUBLISH, or a failed PUBREL at the loop top, is the run's outcome
      whatever happens afterwards; a failed PUBREL in the tail is not, but nothing is
      published after it either. */
  lemma FailedWriteIsFinal(c: Config, s: State, e: Event, es: seq<Event>)
    requires Enabled(c, s, e) && (e.PublishFailed? || e.PubrelFailed?) && ValidRun(c, Apply(c, s, e), es)
    ensures e.PublishFailed? || s.writer.stage.Loop? ==> After(c, Apply(c, s, e), es).writer == Done(WriteFailed)
    ensures e.PubrelFailed? && !s.writer.stage.Loop? ==> !Apply(c, s, e).writer.Done?
    ensures Publishes(After(c, Apply(c, s, e), es).trace.wire) == Publishes(s.trace.wire)
  {
    var t := Apply(c, s, e);
    if e.PublishFailed? { WireFrame(c, s, e); }
    LeavingIsFinal(c, t, es);
  }

  // ---- how the read side ended ----

  predicate EndedWith(r: Reader, error: bool) {
    r == Leaving(error) || r == Ended(error)
  }

  lemma ReadEndStep(c: Config, s: State, e: Event, error: bool)
    requires EndedWith(s.reader, error) && Enabled(c, s, e)
    ensures EndedWith(Apply(c, s, e).reader, error)
  {
    if !ReaderSide(e) && !EnvSide(e) { WriterKeepsReader(c, s, e); }
  }

  lemma WriterKeepsReader(c: Config, s: State, e: Event)
    requires Enabled(c, s, e) && !ReaderSide(e) && !EnvSide(e)
    ensures WriterStep(c, s, e).reader == s.reader
  {
    match e
    case PublishFailed =>
    case Insert =>
    case _ =>
  }

  lemma {:induction false} ReadEndSticks(c: Config, s: State, es: seq<Event>, error: bool)
    requires EndedWith(s.reader, error) && ValidRun(c, s, es)
    ensures EndedWith(After(c, s, es).reader, error)
    decreases |es|
  {
    if es != [] {
      ReadEndStep(c, s, es[0], error);
      ReadEndSticks(c, Apply(c, s, es[0]), es[1..], error);
    }
  }

  /** A read error is never reported as success or as a mere early close, and an
      orderly end never as a read error. */
  lemma ReadErrorIsReported(c: Config, s: State, error: bool, es: seq<Event>)
    requires Reachable(c, s) && Enabled(c, s, ReadEnd(error)) && !s.writer.Done?
    requires ValidRun(c, Apply(c, s, ReadEnd(error)), es)
    ensures var w := After(c, Apply(c, s, ReadEnd(error)), es).writer;
            if error then w != Done(Ok) && w != Done(ClosedEarly) else w != Done(ReadFailed)
  {
    var t := Apply(c, s, ReadEnd(error));
    ReachesStep(c, Init(c), s, ReadEnd(error));
    ReadEndSticks(c, t, es, error);
    ReachableInv(c, t);
    RunInv(c, t, es);
  }

  // ---- nothing follows DISCONNECT ----

  predicate DisconnectLast(s: State) {
    forall k :: 0 <= k < |s.trace.wire| && s.trace.wire[k] == OutDisconnect ==>
      k == |s.trace.wire| - 1 && (s.writer.Joining? || s.writer.Done?)
  }

  lemma DisconnectStep(c: Config, s: State, e: Event)
    requires DisconnectLast(s) && Enabled(c, s, e)
    ensures DisconnectLast(Apply(c, s, e))
  {
    if ReaderSide(e) || EnvSide(e) { ReaderFrame(c, s, e); }
    else if !TouchesWire(e) {
      WireFrame(c, s, e);
      if e.Move? { assert s.writer.Joining? || s.writer.Done? ==> e.to.Done?; }
    }
  }

  lemma {:induction false} DisconnectRun(c: Config, s: State, es: seq<Event>)
    requires DisconnectLast(s) && ValidRun(c, s, es)
    ensures DisconnectLast(After(c, s, es))
    decreases |es|
  {
    if es != [] {
      DisconnectStep(c, s, es[0]);
      DisconnectRun(c, Apply(c, s, es[0]), es[1..]);
    }
  }

  lemma NothingAfterDisconnect(c: Config, s: State)
    requires Reachable(c, s)
    ensures forall k :: 0 <= k < |s.trace.wire| - 1 ==> s.trace.wire[k] != OutDisconnect
    ensures s.trace.wire != [] && s.trace.wire[|s.trace.wire| - 1] == OutDisconnect ==>
              s.writer.Joining? || s.writer.Done?
  {
    var es :| ValidRun(c, Init(c), es) && After(c, Init(c), es) == s;
    DisconnectRun(c, Init(c), es);
  }

  // ---- acknowledgement latency ----

  /** The clock at each allocation of the run, in order: when message k was sent. */
  ghost function SendTimes(c: Config, s: State, es: seq<Event>): seq<nat>
    requires ValidRun(c, s, es)
    decreases |es|
  {
    if es == [] then [] else NewTime(s, es[0]) + SendTimes(c, Apply(c, s, es[0]), es[1..])
  }

  function NewTime(s: State, e: Event): seq<nat> {
    if e.Stamp? then [s.clock] else []
  }

  /** A message whose accepting acknowledgement has been handled, and when. */
  datatype Completion = Completion(message: nat, at: nat)

  ghost function Completions(c: Config, s: State, es: seq<Event>): seq<Completion>
    requires ValidRun(c, s, es)
    decreases |es|
  {
    if es == [] then [] else NewCompletion(s, es[0]) + Completions(c, Apply(c, s, es[0]), es[1..])
  }

  function NewCompletion(s: State, e: Event): seq<Completion> {
    if e.Return? && s.reader.Returning? && !s.reader.refused then [Completion(s.reader.entry.born, s.clock)] else []
  }

  /** The samples those completions make: completion minus send, for messages sent at
      or after the end of the warm-up, in a 64-bit register. */
  function Latencies(c: Config, sendTimes: seq<nat>, done: seq<Completion>): seq<nat>
    requires forall i :: 0 <= i < |done| ==> done[i].message < |sendTimes|
  {
    if done == [] then []
    else
      (if sendTimes[done[0].message] >= c.warmupUntil
       then [(done[0].at - sendTimes[done[0].message]) % 0x1_0000_0000_0000_0000] else [])
      + Latencies(c, sendTimes, done[1..])
  }

  /** Every time the publisher still holds is the send time of the message it
      belongs to. */
  predicate Dated(entry: Entry, sendTimes: seq<nat>) {
    entry.born < |sendTimes| && entry.at == sendTimes[entry.born]
  }

  predicate AllDated(s: State, sendTimes: seq<nat>) {
    && |sendTimes| == s.trace.allocs && (forall i :: 0 <= i < |sendTimes| ==> sendTimes[i] <= s.clock)
    && (forall id :: id in s.inFlight ==> Dated(s.inFlight[id], sendTimes))
    && (s.writer.Stamped? ==> Dated(s.writer.entry, sendTimes))
    && (s.reader.Returning? ==> Dated(s.reader.entry, sendTimes))
  }

  lemma StampKeepsDates(c: Config, s: State, sendTimes: seq<nat>)
    requires !c.qos.AtMostOnce? && AllDated(s, sendTimes) && Enabled(c, s, Stamp)
    ensures AllDated(WriterStep(c, s, Stamp), sendTimes + [s.clock])
  {
  }

  lemma InsertKeepsDates(c: Config, s: State, sendTimes: seq<nat>)
    requires !c.qos.AtMostOnce? && AllDated(s, sendTimes) && Enabled(c, s, Insert)
    ensures AllDated(WriterStep(c, s, Insert), sendTimes)
  {
  }

  lemma WriterKeepsDates(c: Config, s: State, e: Event, sendTimes: seq<nat>)
    requires !c.qos.AtMostOnce? && AllDated(s, sendTimes) && Enabled(c, s, e)
    requires !ReaderSide(e) && !EnvSide(e) && !e.Stamp? && !e.Insert?
    ensures AllDated(WriterStep(c, s, e), sendTimes)
  {
    WriterAllocatesOnlyAtStamp(c, s, e);
    WriterKeepsItsId(c, s, e);
    WriterKeepsReader(c, s, e);
    WriterKeepsClock(c, s, e);
  }

  lemma WriterKeepsClock(c: Config, s: State, e: Event)
    requires Enabled(c, s, e) && !ReaderSide(e) && !EnvSide(e)
    ensures WriterStep(c, s, e).clock == s.clock
  {
    match e
    case PublishFailed =>
    case Insert =>
    case _ =>
  }

  lemma CompleteKeepsDates(s: State, p: Packet, sendTimes: seq<nat>)
    requires AllDated(s, sendTimes) && Terminal(p)
    ensures AllDated(RemoveEntry(s, p), sendTimes)
  {
  }

  lemma ReaderKeepsDates(c: Config, s: State, e: Event, sendTimes: seq<nat>)
    requires AllDated(s, sendTimes) && Enabled(c, s, e) && (ReaderSide(e) || EnvSide(e))
    ensures AllDated(Apply(c, s, e), sendTimes)
  {
    match e
    case Complete => CompleteKeepsDates(s, s.reader.packet, sendTimes);
    case Return =>
    case _ =>
  }

  lemma StepKeepsDates(c: Config, s: State, e: Event, sendTimes: seq<nat>)
    requires !c.qos.AtMostOnce? && AllDated(s, sendTimes) && Enabled(c, s, e)
    ensures AllDated(Apply(c, s, e), sendTimes + NewTime(s, e))
  {
    assert sendTimes + [] == sendTimes;
    if e.Stamp? { StampKeepsDates(c, s, sendTimes); }
    else if e.Insert? { InsertKeepsDates(c, s, sendTimes); }
    else if ReaderSide(e) || EnvSide(e) { ReaderKeepsDates(c, s, e, sendTimes); }
    else { WriterKeepsDates(c, s, e, sendTimes); }
  }

  predicate InTime(sendTimes: seq<nat>, done: seq<Completion>) {
    forall i :: 0 <= i < |done| ==> done[i].message < |sendTimes| && sendTimes[done[i].message] <= done[i].at
  }

  /** `done` explains what `t` has more than `s`. */
  predicate Explained(c: Config, s: State, t: State, times: seq<nat>, done: seq<Completion>) {
    && InTime(times, done) && t.samples == s.samples + Latencies(c, times, done)
    && t.counters.acknowledged == s.counters.acknowledged + |done|
  }

  /** What one step adds to the samples and the count. */
  lemma StepSamples(c: Config, s: State, e: Event, sendTimes: seq<nat>)
    requires AllDated(s, sendTimes) && Enabled(c, s, e)
    ensures Explained(c, s, Apply(c, s, e), sendTimes, NewCompletion(s, e))
  {
    if e.Return? {
      ReturnSamples(c, s, sendTimes);
    } else if ReaderSide(e) || EnvSide(e) {
      match e
      case Complete =>
      case _ =>
    } else {
      WriterTakesNoSample(c, s, e);
    }
  }

  lemma ReturnSamples(c: Config, s: State, sendTimes: seq<nat>)
    requires AllDated(s, sendTimes) && Enabled(c, s, Return)
    ensures Explained(c, s, ReturnPermit(c, s, s.reader.entry, s.reader.refused), sendTimes, NewCompletion(s, Return))
  {
  }

  lemma WriterTakesNoSample(c: Config, s: State, e: Event)
    requires Enabled(c, s, e) && !ReaderSide(e) && !EnvSide(e)
    ensures WriterStep(c, s, e).samples == s.samples
    ensures WriterStep(c, s, e).counters.acknowledged == s.counters.acknowledged
  {
    match e
    case PublishFailed =>
    case Insert =>
    case _ =>
  }

  lemma LatenciesSplit(c: Config, times: seq<nat>, more: seq<nat>, head: seq<Completion>, done: seq<Completion>)
    requires |head| <= 1 && InTime(times, head) && InTime(times + more, done)
    ensures InTime(times + more, head + done)
    ensures Latencies(c, times + more, head + done) == Latencies(c, times, head) + Latencies(c, times + more, done)
  {
    if head == [] {
      assert head + done == done;
    } else {
      assert (head + done)[1..] == done && head[1..] == [];
      assert (times + more)[head[0].message] == times[head[0].message];
    }
  }

  lemma ExplainedBoth(c: Config, s: State, u: State, t: State, times: seq<nat>, more: seq<nat>,
                      head: seq<Completion>, done: seq<Completion>)
    requires |head| <= 1 && Explained(c, s, u, times, head) && Explained(c, u, t, times + more, done)
    ensures Explained(c, s, t, times + more, head + done)
  {
    LatenciesSplit(c, times, more, head, done);
    SamplesAssoc(s.samples, Latencies(c, times, head), Latencies(c, times + more, done));
  }

  lemma {:induction false} RunSamples(c: Config, s: State, es: seq<Event>, times: seq<nat>)
    requires !c.qos.AtMostOnce? && AllDated(s, times) && ValidRun(c, s, es)
    ensures Explained(c, s, After(c, s, es), times + SendTimes(c, s, es), Completions(c, s, es))
    decreases |es|
  {
    if es == [] {
      assert s.samples + [] == s.samples;
    } else {
      var t, time, head := Apply(c, s, es[0]), NewTime(s, es[0]), NewCompletion(s, es[0]);
      StepKeepsDates(c, s, es[0], times);
      StepSamples(c, s, es[0], times);
      RunSamples(c, t, es[1..], times + time);
      var later := SendTimes(c, t, es[1..]);
      assert times + time + later == times + (time + later);
      ExplainedBoth(c, s, t, After(c, t, es[1..]), times, time + later, head, Completions(c, t, es[1..]));
    }
  }

  lemma SamplesAssoc(a: seq<nat>, b: seq<nat>, d: seq<nat>)
    ensures a + b + d == a + (b + d)
  {
  }

  /** In every run the latency samples are, in order, completion minus send of the
      acknowledged messages sent at or after the warm-up, and nothing else; and
      `acknowledged` counts the acknowledged messages. */
  lemma AckLatencies(c: Config, es: seq<Event>)
    requires !c.qos.AtMostOnce? && ValidRun(c, Init(c), es)
    ensures var sent, done := SendTimes(c, Init(c), es), Completions(c, Init(c), es);
            && InTime(sent, done)
            && After(c, Init(c), es).samples == Latencies(c, sent, done)
            && After(c, Init(c), es).counters.acknowledged == |done|
  {
    RunSamples(c, Init(c), es, []);
    assert [] + SendTimes(c, Init(c), es) == SendTimes(c, Init(c), es);
  }

  // ---- no message is completed twice ----

  /** Messages whose identifier is in the map or past it: all below this. */
  function Issued(s: State): int {
    s.trace.allocs - Bit(s.writer.Stamped?)
  }

  /** `done` are over: no entry, in the map or in the ack task's hands, is theirs; and
      the entry in its hands is not in the map. */
  predicate Over(s: State, done: set<nat>) {
    && (forall m :: m in done ==> m < Issued(s))
    && (forall id :: id in s.inFlight ==> s.inFlight[id].born !in done)
    && (s.reader.Returning? ==>
          && s.reader.entry.born < Issued(s) && s.reader.entry.born !in done
          && forall id :: id in s.inFlight ==> s.inFlight[id].born != s.reader.entry.born)
  }

  function NewOver(s: State, e: Event): set<nat> {
    if e.Return? && s.reader.Returning? then {s.reader.entry.born} else {}
  }

  lemma StampKeepsOver(c: Config, s: State, done: set<nat>)
    requires !c.qos.AtMostOnce? && Over(s, done) && Enabled(c, s, Stamp)
    ensures Over(WriterStep(c, s, Stamp), done)
  {
  }

  lemma InsertKeepsOver(c: Config, s: State, done: set<nat>)
    requires !c.qos.AtMostOnce? && IdsCyclic(c, s) && Over(s, done) && Enabled(c, s, Insert)
    ensures Over(WriterStep(c, s, Insert), done)
  {
  }

  lemma WriterKeepsOver(c: Config, s: State, e: Event, done: set<nat>)
    requires Over(s, done) && Enabled(c, s, e) && !ReaderSide(e) && !EnvSide(e) && !e.Stamp? && !e.Insert?
    ensures Over(WriterStep(c, s, e), done)
  {
    WriterAllocatesOnlyAtStamp(c, s, e);
    WriterKeepsItsId(c, s, e);
    WriterKeepsReader(c, s, e);
  }

  lemma CompleteKeepsOver(c: Config, s: State, p: Packet, done: set<nat>)
    requires !c.qos.AtMostOnce? && IdsCyclic(c, s) && Over(s, done) && Terminal(p) && s.reader == Handling(p)
    ensures Over(RemoveEntry(s, p), done)
  {
    if p.id in s.inFlight {
      assert EntryPlaced(s, p.id);
      forall id | id in s.inFlight && id != p.id ensures s.inFlight[id].born != s.inFlight[p.id].born {
        assert EntryPlaced(s, id);
      }
    }
  }

  lemma ReaderKeepsOver(c: Config, s: State, e: Event, done: set<nat>)
    requires !c.qos.AtMostOnce? && IdsCyclic(c, s) && Over(s, done) && Enabled(c, s, e)
    requires ReaderSide(e) || EnvSide(e)
    ensures Over(Apply(c, s, e), done + NewOver(s, e))
  {
    match e
    case Complete => CompleteKeepsOver(c, s, s.reader.packet, done);
    case Return => ReturnKeepsOver(c, s, done);
    case _ =>
  }

  lemma ReturnKeepsOver(c: Config, s: State, done: set<nat>)
    requires Over(s, done) && Enabled(c, s, Return)
    ensures Over(ReturnPermit(c, s, s.reader.entry, s.reader.refused), done + {s.reader.entry.born})
  {
  }

  lemma StepKeepsOver(c: Config, s: State, e: Event, done: set<nat>)
    requires !c.qos.AtMostOnce? && IdsCyclic(c, s) && Over(s, done) && Enabled(c, s, e)
    ensures Over(Apply(c, s, e), done + NewOver(s, e))
    ensures NewOver(s, e) !! done
  {
    assert done + {} == done;
    if e.Stamp? { StampKeepsOver(c, s, done); }
    else if e.Insert? { InsertKeepsOver(c, s, done); }
    else if ReaderSide(e) || EnvSide(e) { ReaderKeepsOver(c, s, e, done); }
    else { WriterKeepsOver(c, s, e, done); }
  }

  predicate Distinct(ks: seq<Completion>, done: set<nat>) {
    && (forall i :: 0 <= i < |ks| ==> ks[i].message !in done)
    && (forall i, j :: 0 <= i < j < |ks| ==> ks[i].message != ks[j].message)
  }

  lemma DistinctBoth(s: State, e: Event, later: seq<Completion>, done: set<nat>)
    requires NewOver(s, e) !! done && Distinct(later, done + NewOver(s, e))
    ensures Distinct(NewCompletion(s, e) + later, done)
  {
  }

  lemma {:induction false} RunCompletesOnce(c: Config, s: State, es: seq<Event>, done: set<nat>)
    requires !c.qos.AtMostOnce? && Inv(c, s) && Over(s, done) && ValidRun(c, s, es)
    ensures Distinct(Completions(c, s, es), done)
    decreases |es|
  {
    if es != [] {
      StepInv(c, s, es[0]);
      StepKeepsOver(c, s, es[0], done);
      var t := Apply(c, s, es[0]);
      RunCompletesOnce(c, t, es[1..], done + NewOver(s, es[0]));
      DistinctBoth(s, es[0], Completions(c, t, es[1..]), done);
    }
  }

  /** With any broker, duplicate and unknown acknowledgements and reused identifiers
      included, no message is counted as acknowledged, or timed, twice. */
  lemma NoMessageCompletesTwice(c: Config, es: seq<Event>)
    requires !c.qos.AtMostOnce? && ValidRun(c, Init(c), es)
    ensures var done := Completions(c, Init(c), es);
            forall i, j :: 0 <= i < j < |done| ==> done[i].message != done[j].message
  {
    InitInv(c);
    RunCompletesOnce(c, Init(c), es, {});
  }

  // ---- failed PUBLISHes ----

  function Failures(es: seq<Event>): nat {
    if es == [] then 0 else Bit(es[0].PublishFailed?) + Failures(es[1..])
  }

  lemma StepCountsFailures(c: Config, s: State, e: Event)
    requires Enabled(c, s, e)
    ensures Apply(c, s, e).counters.publishErrors == s.counters.publishErrors + Bit(e.PublishFailed?)
  {
    match e
    case PublishFailed =>
    case Return =>
    case Complete =>
    case _ =>
  }

  /** `publish_errors` counts the failed PUBLISHes, at every QoS. */
  lemma {:induction false} ErrorsAreCounted(c: Config, s: State, es: seq<Event>)
    requires ValidRun(c, s, es)
    ensures After(c, s, es).counters.publishErrors == s.counters.publishErrors + Failures(es)
    decreases |es|
  {
    if es != [] {
      StepCountsFailures(c, s, es[0]);
      ErrorsAreCounted(c, Apply(c, s, es[0]), es[1..]);
    }
  }

  // ---- pacing, to the instant ----

  /** The writer may go on with message k from exactly start + k * interval, whatever
      happened before; unpaced, at once. */
  lemma SendableExactly(c: Config, s: State)
    requires s.writer.Pacing?
    ensures CanMove(c, s, Acquiring) <==> c.interval.None? || s.clock >= c.start + s.sent * c.interval.value
  {
  }

  /** The instant at which the n-th message (from 1) becomes sendable. */
  function DueAfter(c: Config, n: nat): nat
    requires c.interval.Some?
  {
    c.start + (if n == 0 then 0 else (n - 1) * c.interval.value)
  }

  lemma DueNext(c: Config, n: nat)
    requires c.interval.Some?
    ensures DueAfter(c, n) <= DueAfter(c, n + 1)
  {
    if n > 0 {
      assert n * c.interval.value == (n - 1) * c.interval.value + c.interval.value;
    }
  }

  lemma SendNextOnTime(c: Config, s: State, k: nat) returns (es: seq<Event>, t: State)
    requires !c.qos.AtMostOnce? && c.interval.Some? && k < c.window && QuotaAbove(c, k) && Unanswered(c, s, k)
    requires s.clock == DueAfter(c, k)
    ensures ValidRun(c, s, es) && After(c, s, es) == t && Unanswered(c, t, k + 1)
    ensures t.clock == DueAfter(c, k + 1)
  {
    DueNext(c, k);
    es, t := SendOneUnanswered(c, s, k);
  }

  lemma {:induction false} SendEachOnTime(c: Config, k: nat) returns (es: seq<Event>, t: State)
    requires !c.qos.AtMostOnce? && c.interval.Some? && k <= c.window && (k > 0 ==> QuotaAbove(c, k - 1))
    ensures ValidRun(c, Init(c), es) && After(c, Init(c), es) == t && Unanswered(c, t, k)
    ensures t.clock == DueAfter(c, k)
  {
    if k == 0 {
      InitInv(c);
      es, t := [], Init(c);
    } else {
      var fs, u := SendEachOnTime(c, k - 1);
      var gs, v := SendNextOnTime(c, u, k - 1);
      RunConcat(c, Init(c), fs, gs);
      es, t := fs + gs, v;
    }
  }

  /** The pacing bound is attained: the whole window can be on the wire, message k at
      the instant start + k * interval. */
  lemma PacingIsTight(c: Config, k: nat) returns (t: State)
    requires !c.qos.AtMostOnce? && c.interval.Some? && k < c.window && QuotaAbove(c, k)
    ensures Reachable(c, t) && t.clock == c.start + k * c.interval.value
    ensures |Publishes(t.trace.wire)| == k + 1
  {
    var es, u := SendEachOnTime(c, k + 1);
    t := u;
  }
}
