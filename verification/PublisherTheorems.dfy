/** The guarantees of one publisher, for every interleaving and every broker. */
module PublisherTheorems {
  import opened Mqtt
  import opened Arithmetic
  import opened PublisherModel
  import opened PublisherInvariants
  import opened PublisherIds

  // ---- flow control (section 4.9 of MQTT v5.0) ----

  /** The semaphore respects the request, the identifier space and, exactly
      when it is at least 1, the broker's Receive Maximum. */
  lemma WindowRespectsLimits(requested: nat, receiveMaximum: Option<PacketId>)
    ensures var w := Window(requested, receiveMaximum);
            && 1 <= w <= Max(requested, 1) && w <= ID_COUNT
            && (receiveMaximum.Some? ==> (w <= receiveMaximum.value <==> receiveMaximum.value >= 1))
            && (w == Max(requested, 1) || w == ID_COUNT
                || (receiveMaximum.Some? && w == Max(receiveMaximum.value, 1)))
  {
  }

  /** Messages on the wire whose terminal acknowledgement has not been processed. */
  function Unacknowledged(s: State): int {
    |Publishes(s.trace.wire)| - s.counters.acknowledged - s.trace.refusedInFlight
  }

  /** Available permits, in-flight entries, overwritten entries and permits in
      transit add up to the window until a PUBLISH write fails, and the broker
      is never owed more acknowledgements than the window. */
  lemma FlowControl(c: Config, s: State)
    requires Reachable(c, s) && !c.qos.AtMostOnce?
    ensures s.writer != Done(WriteFailed) ==>
              s.permits + |s.inFlight| + s.trace.overwritten + Held(c, s) + Owed(s) == c.window
    ensures s.permits <= c.window + Bit(s.writer == Done(WriteFailed))
    ensures Unacknowledged(s) <= c.window
    ensures Unacknowledged(s) <= |s.inFlight| + s.trace.overwritten + Owed(s)
  {
    ReachableInv(c, s);
  }

  /** With the window the code computes, the broker's Receive Maximum, the request
      and the identifier space are all respected on the wire at every moment. */
  lemma WithinReceiveMaximum(c: Config, s: State, requested: nat, receiveMaximum: Option<PacketId>)
    requires Reachable(c, s) && !c.qos.AtMostOnce? && c.window == Window(requested, receiveMaximum)
    ensures Unacknowledged(s) <= Max(requested, 1) && Unacknowledged(s) <= ID_COUNT
    ensures receiveMaximum.Some? && receiveMaximum.value >= 1 ==> Unacknowledged(s) <= receiveMaximum.value
  {
    FlowControl(c, s);
    WindowRespectsLimits(requested, receiveMaximum);
  }

  /** Reuse of an outstanding identifier costs a permit for good, but there is
      always one left that an acknowledgement can bring back. */
  lemma ReuseNeverTakesTheLastPermit(c: Config, s: State)
    requires Reachable(c, s) && c.window >= 1
    ensures s.trace.overwritten < c.window
  {
    ReachableInv(c, s);
  }

  /** Everything that stands for a permit once the writer holds none. */
  function PermitsAccounted(s: State): int {
    s.permits + |s.inFlight| + s.trace.overwritten + Owed(s)
  }

  /** A failed write leaves one permit too many in circulation exactly when its
      acknowledgement was processed before the error was reported; otherwise the
      permits add up to the window again. */
  lemma PermitReturnedTwiceIff(c: Config, s: State)
    requires !c.qos.AtMostOnce? && Inv(c, s) && Enabled(c, s, PublishFailed)
    ensures var t := Apply(c, s, PublishFailed);
            PermitsAccounted(t) == if s.writer.id in s.inFlight then c.window else c.window + 1
  {
    StepInv(c, s, PublishFailed);
  }

  /** For which settings there are ever more permits than the window. */
  lemma SurplusIffAnythingIsSent(c: Config)
    requires !c.qos.AtMostOnce?
    ensures (exists s :: Reachable(c, s) && s.permits > c.window) <==> c.window >= 1 && QuotaAbove(c, 0)
  {
    if c.window >= 1 && QuotaAbove(c, 0) {
      var t := PermitReturnedTwice(c);
    } else {
      forall s | Reachable(c, s) ensures s.permits <= c.window {
        IdleHasNoSurplus(c, s);
      }
    }
  }

  /** The writer gets past its window only if it has one and a message to send. */
  predicate Underway(s: State) {
    s.writer.Holding? || s.writer.Stamped? || s.writer.Writing? || s.trace.surplus > 0
  }

  lemma UnderwayNeedsAPermit(c: Config, s: State, e: Event)
    requires !c.qos.AtMostOnce? && Inv(c, s) && !Underway(s) && Enabled(c, s, e)
    requires !(c.window >= 1 && QuotaAbove(c, 0))
    ensures !Underway(Apply(c, s, e))
  {
    if ReaderSide(e) || EnvSide(e) {
      ReaderFrame(c, s, e);
      ReaderMakesNoSurplus(c, s, e);
    } else {
      WriterNeedsAPermit(c, s, e);
    }
  }

  lemma ReaderMakesNoSurplus(c: Config, s: State, e: Event)
    requires Enabled(c, s, e) && (ReaderSide(e) || EnvSide(e))
    ensures Apply(c, s, e).trace.surplus == s.trace.surplus
  {
    match e
    case Return =>
    case _ =>
  }

  lemma WriterNeedsAPermit(c: Config, s: State, e: Event)
    requires !c.qos.AtMostOnce? && Ledger(c, s) && !Underway(s) && Enabled(c, s, e) && !ReaderSide(e) && !EnvSide(e)
    requires !(c.window >= 1 && QuotaAbove(c, 0))
    ensures !Underway(WriterStep(c, s, e))
  {
  }

  lemma {:induction false} NeverUnderway(c: Config, s: State, es: seq<Event>)
    requires !c.qos.AtMostOnce? && Inv(c, s) && !Underway(s) && ValidRun(c, s, es)
    requires !(c.window >= 1 && QuotaAbove(c, 0))
    ensures !Underway(After(c, s, es))
    decreases |es|
  {
    if es != [] {
      StepInv(c, s, es[0]);
      UnderwayNeedsAPermit(c, s, es[0]);
      NeverUnderway(c, Apply(c, s, es[0]), es[1..]);
    }
  }

  lemma IdleHasNoSurplus(c: Config, s: State)
    requires !c.qos.AtMostOnce? && Reachable(c, s) && !(c.window >= 1 && QuotaAbove(c, 0))
    ensures s.permits <= c.window
  {
    var es :| ValidRun(c, Init(c), es) && After(c, Init(c), es) == s;
    InitInv(c);
    NeverUnderway(c, Init(c), es);
    ReachableInv(c, s);
  }

  /** ... and that does happen, whatever the settings. */
  lemma PermitReturnedTwice(c: Config) returns (t: State)
    requires !c.qos.AtMostOnce? && c.window >= 1 && QuotaAbove(c, 0)
    ensures Reachable(c, t) && t.permits == c.window + 1
  {
    var gs, v := FirstInFlight(c);
    var hs, w := AckOne(c, v, v.writer.id);
    RunConcat(c, Init(c), gs, hs);
    OverwritesNothing(c, v, hs);
    InitInv(c);
    RunInv(c, Init(c), gs + hs);
    PermitReturnedTwiceIff(c, w);
    Extend(c, Init(c), gs + hs, PublishFailed);
    t := Apply(c, w, PublishFailed);
  }

  lemma FirstInFlight(c: Config) returns (es: seq<Event>, t: State)
    requires !c.qos.AtMostOnce? && c.window >= 1 && QuotaAbove(c, 0)
    ensures ValidRun(c, Init(c), es) && After(c, Init(c), es) == t
    ensures t.writer.Writing? && t.reader.Reading? && t.inFlight.Keys == {t.writer.id} && t.trace.overwritten == 0
  {
    InitInv(c);
    var fs, u := TakePermit(c, Init(c));
    Extend(c, Init(c), fs, Stamp);
    es := fs + [Stamp];
    Extend(c, Init(c), es, Insert);
    es := es + [Insert];
    t := After(c, Init(c), es);
  }

  lemma {:induction false} OverwritesNothing(c: Config, s: State, es: seq<Event>)
    requires ValidRun(c, s, es) && forall e :: e in es ==> !e.Insert?
    ensures After(c, s, es).trace.overwritten == s.trace.overwritten
    decreases |es|
  {
    if es != [] {
      assert es[0] in es;
      OnlyInsertOverwrites(c, s, es[0]);
      OverwritesNothing(c, Apply(c, s, es[0]), es[1..]);
    }
  }

  // ---- counters ----

  lemma CounterAccounting(c: Config, s: State)
    requires Reachable(c, s) && !c.qos.AtMostOnce?
    ensures s.counters.acknowledged + s.trace.refusedInFlight + |s.inFlight|
            <= s.counters.published + s.counters.publishErrors + InProgress(s)
    ensures |s.samples| <= s.counters.acknowledged <= |Publishes(s.trace.wire)| + s.trace.surplus + InProgress(s)
    ensures forall k :: 0 <= k < |Publishes(s.trace.wire)| ==>
              Publishes(s.trace.wire)[k] == OutPublish(IdOf(k), k)
  {
    ReachableInv(c, s);
  }

  /** How many terminal acknowledgements with this error code were handled. */
  function Refusals(handled: seq<Packet>, code: ReasonCode): nat {
    if handled == [] then 0
    else Refusals(handled[..|handled| - 1], code) +
         Bit(Terminal(handled[|handled| - 1]) && IsError(code) && handled[|handled| - 1].code == code)
  }

  predicate RefusalsTallied(s: State) {
    forall code: ReasonCode :: (code in s.counters.refused ==> s.counters.refused[code] >= 1) &&
      (if code in s.counters.refused then s.counters.refused[code] else 0) == Refusals(s.trace.handled, code)
  }

  lemma RefusalsAppend(handled: seq<Packet>, p: Packet, code: ReasonCode)
    ensures Refusals(handled + [p], code)
            == Refusals(handled, code) + Bit(Terminal(p) && IsError(code) && p.code == code)
  {
    assert (handled + [p])[..|handled|] == handled;
  }

  lemma HandledFrame(c: Config, s: State, e: Event)
    requires Enabled(c, s, e) && !e.Complete? && !e.Queue? && !e.Ignore?
    ensures Apply(c, s, e).trace.handled == s.trace.handled
    ensures Apply(c, s, e).counters.refused == s.counters.refused
  {
    if !ReaderSide(e) && !EnvSide(e) {
      WriterHandlesNothing(c, s, e);
    } else {
      match e
      case Return =>
      case _ =>
    }
  }

  lemma WriterHandlesNothing(c: Config, s: State, e: Event)
    requires Enabled(c, s, e) && !ReaderSide(e) && !EnvSide(e)
    ensures WriterStep(c, s, e).trace.handled == s.trace.handled
    ensures WriterStep(c, s, e).counters.refused == s.counters.refused
  {
    match e
    case PublishFailed =>
    case Insert =>
    case _ =>
  }

  lemma StepKeepsTally(c: Config, s: State, e: Event)
    requires RefusalsTallied(s) && Enabled(c, s, e)
    ensures RefusalsTallied(Apply(c, s, e))
  {
    if e.Complete? || e.Queue? || e.Ignore? {
      var t := Apply(c, s, e);
      var p := s.reader.packet;
      assert t.trace.handled == s.trace.handled + [p];
      forall code: ReasonCode ensures
        && (code in t.counters.refused ==> t.counters.refused[code] >= 1)
        && (if code in t.counters.refused then t.counters.refused[code] else 0) == Refusals(t.trace.handled, code)
      {
        RefusalsAppend(s.trace.handled, p, code);
      }
    } else {
      HandledFrame(c, s, e);
    }
  }

  lemma {:induction false} RunKeepsTally(c: Config, s: State, es: seq<Event>)
    requires RefusalsTallied(s) && ValidRun(c, s, es)
    ensures RefusalsTallied(After(c, s, es))
    decreases |es|
  {
    if es != [] {
      StepKeepsTally(c, s, es[0]);
      RunKeepsTally(c, Apply(c, s, es[0]), es[1..]);
    }
  }

  /** The refusal table is the exact tally, per Reason Code, of the refusing
      acknowledgements handled so far, known identifier or not. */
  lemma RefusalTableIsExact(c: Config, s: State)
    requires Reachable(c, s)
    ensures RefusalsTallied(s)
  {
    var es :| ValidRun(c, Init(c), es) && After(c, Init(c), es) == s;
    RunKeepsTally(c, Init(c), es);
  }

  // ---- PUBREL order (sections 4.3.3 and 4.6) ----

  /** Until a write fails, PUBRELs leave in the order their accepted PUBRECs
      arrived, with nothing lost, duplicated or added for a refused PUBREC. */
  lemma PubrelOrder(c: Config, s: State)
    requires Reachable(c, s) && !s.trace.writeFailed && !Returned(s)
    ensures Pubrels(s.trace.wire) + HeldPubrel(s) + s.channel == AcceptedIds(s.trace.handled)
  {
    ReachableInv(c, s);
  }

  // ---- shutdown ----

  /** PUBLISHes written plus the one the writer is already committed to. */
  function Committed(s: State): nat {
    |Publishes(s.trace.wire)| + Bit(s.writer.Holding? || s.writer.Stamped? || s.writer.Writing?)
  }

  lemma ClosedWriterCommitsNothing(c: Config, s: State, e: Event)
    requires !c.qos.AtMostOnce? && s.closed && Enabled(c, s, e)
    ensures Apply(c, s, e).closed && Committed(Apply(c, s, e)) <= Committed(s)
  {
    ClosedStays(c, s, e);
    if e.PublishWritten? { WireAppend(s.trace.wire, OutPublish(s.writer.id, s.sent)); }
    else if e.PubrelWritten? { WireAppend(s.trace.wire, OutPubrel(s.writer.id)); }
    else if e.SendDisconnect? { WireAppend(s.trace.wire, OutDisconnect); }
    else if ReaderSide(e) || EnvSide(e) { ReaderFrame(c, s, e); }
    else {
      WireFrame(c, s, e);
      ClosedWriterStaysOut(c, s, e);
    }
  }

  lemma ClosedStays(c: Config, s: State, e: Event)
    requires s.closed && Enabled(c, s, e)
    ensures Apply(c, s, e).closed
  {
  }

  lemma ClosedWriterStaysOut(c: Config, s: State, e: Event)
    requires !c.qos.AtMostOnce? && s.closed && Enabled(c, s, e)
    requires !ReaderSide(e) && !EnvSide(e) && !TouchesWire(e)
    ensures var w := WriterStep(c, s, e).writer;
            w.Holding? || w.Stamped? || w.Writing? ==> s.writer.Holding? || s.writer.Stamped? || s.writer.Writing?
  {
  }

  /** Once the read side has ended, at most one further PUBLISH is written. */
  lemma {:induction false} AtMostOneMorePublish(c: Config, s: State, es: seq<Event>)
    requires !c.qos.AtMostOnce? && s.closed && ValidRun(c, s, es)
    ensures After(c, s, es).closed
    ensures |Publishes(After(c, s, es).trace.wire)| <= Committed(After(c, s, es)) <= Committed(s)
    ensures Committed(s) <= |Publishes(s.trace.wire)| + 1
    decreases |es|
  {
    if es != [] {
      ClosedWriterCommitsNothing(c, s, es[0]);
      AtMostOneMorePublish(c, Apply(c, s, es[0]), es[1..]);
    }
  }

  ghost predicate WriterCanStep(c: Config, s: State) {
    exists e :: !ReaderSide(e) && !EnvSide(e) && Enabled(c, s, e)
  }

  /** The write side waits in exactly two places: for a deadline, and on a full
      open window; a stop request ends either wait, closing ends the second. */
  lemma WriterBlocksOnlyOnWindowOrDeadline(c: Config, s: State)
    requires !s.writer.Done?
    ensures !WriterCanStep(c, s) <==>
              || (s.writer.Pacing? && !DeadlinePassed(c, s.sent, s.clock) && !s.stop)
              || (s.writer.Acquiring? && !c.qos.AtMostOnce? && s.permits == 0 && !s.closed && !s.stop)
  {
    var w := WriterWitness(c, s);
    if Enabled(c, s, w) {
      assert WriterCanStep(c, s);
    } else {
      forall e | !ReaderSide(e) && !EnvSide(e) ensures !Enabled(c, s, e) {
      }
    }
  }

  /** A step the writer could take at its current point. */
  function WriterWitness(c: Config, s: State): (e: Event)
    ensures !ReaderSide(e) && !EnvSide(e)
  {
    match s.writer
    case Draining(stage) => if s.channel == [] then Move(AfterDrain(stage)) else PopPubrel
    case Releasing(_, _) => PubrelWritten
    case Checking => Move(if QuotaMet(c, s.sent) || s.stop then TailCheck else Pacing)
    case Pacing => if DeadlinePassed(c, s.sent, s.clock) then Move(Acquiring) else Move(TailCheck)
    case Acquiring =>
      if c.qos.AtMostOnce? then Move(Holding) else if s.closed then AcquireClosed
      else if s.permits > 0 then Acquire else Move(TailCheck)
    case Holding => Stamp
    case Stamped(_, _) => Insert
    case Writing(_) => PublishWritten
    case Written(_) => Count
    case Counted(_) => Forget
    case TailCheck => Move(Draining(Final))
    case Disconnecting => SendDisconnect
    case Joining => Move(Done(TimedOut))
    case Done(_) => Stamp
  }

  /** Ok means the ack task joined without a read error and the window never
      closed under the sender; a read error outranks the closed window; and the
      waiting tail is skipped only when the read side has really ended. */
  lemma OutcomeIsHonest(c: Config, s: State)
    requires Reachable(c, s)
    ensures s.writer == Done(Ok) ==> s.reader == Ended(false) && !s.windowClosed
    ensures s.writer == Done(ReadFailed) ==> s.reader == Ended(true)
    ensures s.writer == Done(ClosedEarly) ==> s.reader == Ended(false) && s.windowClosed
    ensures s.windowClosed ==> s.reader.Ended?
    ensures s.writer.Joining? && s.reader.Ended? ==>
              CanMove(c, s, Done(if s.reader.error then ReadFailed else if s.windowClosed then ClosedEarly else Ok))
  {
    ReachableInv(c, s);
  }

  // ---- why the loop ended ----

  predicate InTail(w: Writer) {
    w.TailCheck? || (w.Draining? && !w.stage.Loop?) || (w.Releasing? && !w.stage.Loop?)
  }

  predicate PastTail(w: Writer) {
    w.Disconnecting? || w.Joining? || (w.Done? && w.outcome != WriteFailed)
  }

  /** The loop is left for the tail at the quota or on request, and for good only
      there or at a closed window. */
  predicate ExitExplained(c: Config, s: State) {
    && (InTail(s.writer) ==> QuotaMet(c, s.sent) || s.stop)
    && (PastTail(s.writer) ==> QuotaMet(c, s.sent) || s.stop || s.windowClosed)
  }

  lemma MoveKeepsExit(c: Config, s: State, to: Writer)
    requires ExitExplained(c, s) && CanMove(c, s, to)
    ensures ExitExplained(c, s.(writer := to))
  {
  }

  lemma WriterKeepsExit(c: Config, s: State, e: Event)
    requires ExitExplained(c, s) && Enabled(c, s, e) && !ReaderSide(e) && !EnvSide(e) && !e.Move?
    ensures ExitExplained(c, WriterStep(c, s, e))
  {
  }

  lemma StopIsForGood(c: Config, s: State, e: Event)
    requires Enabled(c, s, e)
    ensures s.stop ==> Apply(c, s, e).stop
  {
  }

  lemma StepKeepsExit(c: Config, s: State, e: Event)
    requires ExitExplained(c, s) && Enabled(c, s, e)
    ensures ExitExplained(c, Apply(c, s, e))
  {
    StopIsForGood(c, s, e);
    if e.Move? { MoveKeepsExit(c, s, e.to); }
    else if ReaderSide(e) || EnvSide(e) { ReaderFrame(c, s, e); }
    else { WriterKeepsExit(c, s, e); }
  }

  lemma {:induction false} RunKeepsExit(c: Config, s: State, es: seq<Event>)
    requires ExitExplained(c, s) && ValidRun(c, s, es)
    ensures ExitExplained(c, After(c, s, es))
    decreases |es|
  {
    if es != [] {
      StepKeepsExit(c, s, es[0]);
      RunKeepsExit(c, Apply(c, s, es[0]), es[1..]);
    }
  }

  /** A publisher that returns Ok without having been asked to stop had a quota
      and has published exactly it. */
  lemma OkMeansQuotaOrStop(c: Config, s: State)
    requires Reachable(c, s) && s.writer == Done(Ok) && !s.stop
    ensures c.quota.Some? && s.counters.published == c.quota.value == |Publishes(s.trace.wire)|
  {
    var es :| ValidRun(c, Init(c), es) && After(c, Init(c), es) == s;
    RunKeepsExit(c, Init(c), es);
    ReachableInv(c, s);
  }

  // ---- pacing and quota ----

  /** By time t a paced publisher has sent at most floor((t - start) / interval) + 1. */
  lemma PacingBound(c: Config, s: State)
    requires Reachable(c, s) && c.interval.Some? && c.interval.value > 0
    ensures c.start <= s.clock
    ensures |Publishes(s.trace.wire)| <= (s.clock - c.start) / c.interval.value + 1
  {
    ReachableInv(c, s);
    var n := |Publishes(s.trace.wire)|;
    if n > 0 {
      assert (n - 1) * c.interval.value <= s.clock - c.start;
      DivisionBound(n - 1, c.interval.value, s.clock - c.start);
    }
  }

  /** A publisher never exceeds its quota, and one that ends because the quota
      is met has published exactly it. */
  lemma QuotaRespected(c: Config, s: State)
    requires Reachable(c, s) && c.quota.Some?
    ensures s.counters.published <= c.quota.value
    ensures QuotaMet(c, s.sent) ==> s.counters.published == c.quota.value
  {
    ReachableInv(c, s);
  }
}
