/** QoS 1 and QoS 2 exchanges against a conforming broker. */
module BrokerTheorems {
  import opened Mqtt
  import opened PublisherModel
  import opened PublisherInvariants
  import opened PublisherTheorems
  import opened BrokerModel

  // ---- every terminal acknowledgement frees exactly one permit ----

  /** Terminal acknowledgements handled so far, accepting or refusing. */
  function Terminals(handled: seq<Packet>, refused: bool): nat {
    if handled == [] then 0
    else Terminals(handled[..|handled| - 1], refused) +
         Bit(Terminal(handled[|handled| - 1]) && IsError(handled[|handled| - 1].code) == refused)
  }

  lemma TerminalsAppend(handled: seq<Packet>, p: Packet, refused: bool)
    ensures Terminals(handled + [p], refused)
            == Terminals(handled, refused) + Bit(Terminal(p) && IsError(p.code) == refused)
  {
    assert (handled + [p])[..|handled|] == handled;
  }

  predicate CompletedOnce(s: State) {
    && s.counters.acknowledged + Bit(s.reader.Returning? && !s.reader.refused) == Terminals(s.trace.handled, false)
    && s.trace.refusedInFlight + Bit(s.reader.Returning? && s.reader.refused) == Terminals(s.trace.handled, true)
  }

  lemma CompleteKeepsCompletedOnce(c: Config, s: State)
    requires CompletedOnce(s) && Enabled(c, s, Complete) && s.reader.packet.id in s.inFlight
    ensures CompletedOnce(RemoveEntry(s, s.reader.packet))
  {
    TerminalsAppend(s.trace.handled, s.reader.packet, false);
    TerminalsAppend(s.trace.handled, s.reader.packet, true);
  }

  lemma ReturnKeepsCompletedOnce(c: Config, s: State)
    requires CompletedOnce(s) && Enabled(c, s, Return)
    ensures CompletedOnce(ReturnPermit(c, s, s.reader.entry, s.reader.refused))
  {
  }

  lemma AcceptedPubrecCompletesNothing(c: Config, s: State)
    requires CompletedOnce(s) && Enabled(c, s, Queue)
    ensures var t := QueuePubrel(s, s.reader.packet);
            CompletedOnce(t) && t.permits == s.permits && t.samples == s.samples && t.inFlight == s.inFlight
            && t.counters == s.counters
  {
    TerminalsAppend(s.trace.handled, s.reader.packet, false);
    TerminalsAppend(s.trace.handled, s.reader.packet, true);
  }

  lemma OtherStepsCompleteNothing(c: Config, s: State, e: Event)
    requires Enabled(c, s, e) && !e.Complete? && !e.Queue? && !e.Ignore? && !e.Return?
    ensures var t := Apply(c, s, e);
            && t.trace.handled == s.trace.handled && t.counters.acknowledged == s.counters.acknowledged
            && t.trace.refusedInFlight == s.trace.refusedInFlight && !t.reader.Returning? == !s.reader.Returning?
            && (t.reader.Returning? ==> t.reader == s.reader)
  {
    if !ReaderSide(e) && !EnvSide(e) {
      WriterCompletesNothing(c, s, e);
    }
  }

  lemma WriterCompletesNothing(c: Config, s: State, e: Event)
    requires Enabled(c, s, e) && !ReaderSide(e) && !EnvSide(e)
    ensures var t := WriterStep(c, s, e);
            && t.trace.handled == s.trace.handled && t.counters.acknowledged == s.counters.acknowledged
            && t.trace.refusedInFlight == s.trace.refusedInFlight && t.reader == s.reader
  {
    match e
    case PublishFailed =>
    case Insert =>
    case _ =>
  }

  /** A conforming broker sends no packet the read side ignores and, without
      reuse, never acknowledges an unknown identifier. */
  lemma AnswersAreExpected(c: Config, y: System)
    requires TokenInv(c, y) && Intact(y.client) && y.client.reader.Handling?
    ensures Terminal(y.client.reader.packet) || AcceptedPubrec(y.client.reader.packet)
    ensures Live(y.client) ==> y.client.reader.packet.id in y.client.inFlight
  {
    assert TokensFit(y, y.client.reader.packet.id);
  }

  lemma StepKeepsCompletedOnce(c: Config, s: State, e: Event)
    requires Enabled(c, s, e) && CompletedOnce(s) && !e.Ignore?
    requires e.Complete? ==> s.reader.packet.id in s.inFlight
    ensures CompletedOnce(Apply(c, s, e))
  {
    if e.Complete? {
      CompleteKeepsCompletedOnce(c, s);
    } else if e.Return? {
      ReturnKeepsCompletedOnce(c, s);
    } else if e.Queue? {
      AcceptedPubrecCompletesNothing(c, s);
    } else {
      OtherStepsCompleteNothing(c, s, e);
    }
  }

  // ---- the system invariant ----

  predicate SystemInv(c: Config, y: System) {
    && !c.qos.AtMostOnce?
    && Inv(c, y.client)
    && TokenInv(c, y)
    && (Live(y.client) ==> CompletedOnce(y.client))
  }

  lemma StartInv(c: Config)
    requires !c.qos.AtMostOnce?
    ensures SystemInv(c, Start(c))
  {
    InitInv(c);
  }

  lemma ClientStepKeepsCompletedOnce(c: Config, y: System, e: Event)
    requires TokenInv(c, y) && CanStep(c, y, Client(e)) && Live(Apply(c, y.client, e))
    requires Live(y.client) ==> CompletedOnce(y.client)
    ensures CompletedOnce(Apply(c, y.client, e))
  {
    IntactIsMonotone(c, y.client, e);
    if y.client.reader.Handling? { AnswersAreExpected(c, y); }
    StepKeepsCompletedOnce(c, y.client, e);
  }

  lemma SystemStepInv(c: Config, y: System, e: SystemEvent)
    requires SystemInv(c, y) && CanStep(c, y, e)
    ensures SystemInv(c, Step(c, y, e))
  {
    StepKeepsTokenInv(c, y, e);
    if e.Client? {
      ClientStepInv(c, y, e.event);
    }
  }

  lemma ClientStepInv(c: Config, y: System, e: Event)
    requires SystemInv(c, y) && CanStep(c, y, Client(e))
    ensures Inv(c, Apply(c, y.client, e))
    ensures Live(Apply(c, y.client, e)) ==> CompletedOnce(Apply(c, y.client, e))
  {
    StepInv(c, y.client, e);
    if Live(Apply(c, y.client, e)) {
      ClientStepKeepsCompletedOnce(c, y, e);
    }
  }

  lemma {:induction false} SystemRunInv(c: Config, y: System, es: seq<SystemEvent>)
    requires SystemInv(c, y) && SystemRun(c, y, es)
    ensures SystemInv(c, EndOf(c, y, es))
    decreases |es|
  {
    if es != [] {
      SystemStepInv(c, y, es[0]);
      SystemRunInv(c, Step(c, y, es[0]), es[1..]);
    }
  }

  lemma SystemReachableInv(c: Config, y: System)
    requires !c.qos.AtMostOnce? && SystemReachable(c, y)
    ensures SystemInv(c, y)
  {
    var es :| SystemRun(c, Start(c), es) && EndOf(c, Start(c), es) == y;
    StartInv(c);
    SystemRunInv(c, Start(c), es);
  }

  lemma {:induction false} NoPubrelOnLink(os: seq<Out>, id: PacketId)
    requires forall o :: o in os ==> !o.OutPubrel?
    ensures OutTokens(os, true, id) == 0
    decreases |os|
  {
    if os != [] {
      assert os[0] in os;
      NoPubrelOnLink(os[1..], id);
    }
  }

  lemma {:induction false} NoPubcompOnLink(ps: seq<Packet>, id: PacketId)
    requires forall p :: p in ps ==> !p.Pubcomp?
    ensures InTokens(ps, true, id) == 0
    decreases |ps|
  {
    if ps != [] {
      assert ps[0] in ps;
      NoPubcompOnLink(ps[1..], id);
    }
  }

  lemma NoSecondHalf(c: Config, y: System, id: PacketId)
    requires c.qos.AtLeastOnce? && KindsMatch(c, y)
    ensures AwaitingPubcomp(y, id) == 0
  {
    NoPubrelOnLink(y.toBroker, id);
    NoPubcompOnLink(y.toClient, id);
  }

  /** An identifier is in flight exactly when it is in one of the three phases,
      and it is never in two; at QoS 1 only the first phase exists. */
  lemma ExchangePhases(c: Config, y: System, id: PacketId)
    requires !c.qos.AtMostOnce? && SystemReachable(c, y) && Live(y.client)
    ensures AwaitingFirst(y, id) <= 1 && QueuedForPubrel(y, id) <= 1 && AwaitingPubcomp(y, id) <= 1
    ensures id in y.client.inFlight <==>
              AwaitingFirst(y, id) == 1 || QueuedForPubrel(y, id) == 1 || AwaitingPubcomp(y, id) == 1
    ensures !(AwaitingFirst(y, id) == 1 && QueuedForPubrel(y, id) == 1)
    ensures !(AwaitingFirst(y, id) == 1 && AwaitingPubcomp(y, id) == 1)
    ensures !(QueuedForPubrel(y, id) == 1 && AwaitingPubcomp(y, id) == 1)
    ensures c.qos.AtLeastOnce? ==> QueuedForPubrel(y, id) == 0 && AwaitingPubcomp(y, id) == 0
  {
    SystemReachableInv(c, y);
    if c.qos.AtLeastOnce? { NoSecondHalf(c, y, id); }
    assert TokensFit(y, id);
    AtMostOne(AwaitingFirst(y, id), QueuedForPubrel(y, id), AwaitingPubcomp(y, id));
  }

  lemma AtMostOne(a: nat, b: nat, d: nat)
    requires a + b + d <= 1
    ensures a <= 1 && b <= 1 && d <= 1
    ensures !(a == 1 && b == 1) && !(a == 1 && d == 1) && !(b == 1 && d == 1)
  {
  }

  /** Permits are freed exactly once per message, at PUBACK, PUBCOMP or a
      refusing PUBREC: the permits back equal the terminal acknowledgements
      handled, and no more samples exist than accepting ones. */
  lemma FreedExactlyOnce(c: Config, y: System)
    requires !c.qos.AtMostOnce? && SystemReachable(c, y) && Live(y.client)
    ensures var s := y.client;
            && s.counters.acknowledged + s.trace.refusedInFlight + Owed(s)
               == Terminals(s.trace.handled, false) + Terminals(s.trace.handled, true)
            && |s.samples| <= Terminals(s.trace.handled, false)
            && s.permits + Held(c, s) + |Publishes(s.trace.wire)| + Bit(s.writer.Writing?)
               == c.window + s.counters.acknowledged + s.trace.refusedInFlight
  {
    SystemReachableInv(c, y);
    LedgerArithmetic(c, y.client);
  }

  lemma LedgerArithmetic(c: Config, s: State)
    requires !c.qos.AtMostOnce? && Inv(c, s) && CompletedOnce(s) && !Returned(s) && s.trace.overwritten == 0
    ensures |s.samples| <= Terminals(s.trace.handled, false)
    ensures s.permits + Held(c, s) + |Publishes(s.trace.wire)| + Bit(s.writer.Writing?)
            == c.window + s.counters.acknowledged + s.trace.refusedInFlight
  {
  }

  // ---- a failed write ----

  /** Until an identifier is reused, a conforming broker cannot have answered a
      PUBLISH that is still being written, so a failed write returns its permit
      once. */
  lemma FailedWriteAgainstConformingBroker(c: Config, y: System)
    requires !c.qos.AtMostOnce? && SystemReachable(c, y) && Live(y.client) && Enabled(c, y.client, PublishFailed)
    ensures y.client.writer.id in y.client.inFlight
    ensures PermitsAccounted(Apply(c, y.client, PublishFailed)) == c.window
  {
    SystemReachableInv(c, y);
    assert TokensFit(y, y.client.writer.id);
    PermitReturnedTwiceIff(c, y.client);
  }

  // ---- message by message ----

  /** PUBLISHes on the wire with this identifier. */
  function PublishedAs(wire: seq<Out>, id: PacketId): nat {
    if wire == [] then 0
    else PublishedAs(wire[..|wire| - 1], id) + Bit(OutCarries(wire[|wire| - 1], false, id))
  }

  /** Terminal acknowledgements handled for this identifier. */
  function FinalAcks(handled: seq<Packet>, id: PacketId): nat {
    if handled == [] then 0
    else FinalAcks(handled[..|handled| - 1], id) +
         Bit(Terminal(handled[|handled| - 1]) && handled[|handled| - 1].id == id)
  }

  lemma PublishedAsAppend(wire: seq<Out>, o: Out, id: PacketId)
    ensures PublishedAs(wire + [o], id) == PublishedAs(wire, id) + Bit(OutCarries(o, false, id))
  {
    assert (wire + [o])[..|wire|] == wire;
  }

  lemma FinalAcksAppend(handled: seq<Packet>, p: Packet, id: PacketId)
    ensures FinalAcks(handled + [p], id) == FinalAcks(handled, id) + Bit(Terminal(p) && p.id == id)
  {
    assert (handled + [p])[..|handled|] == handled;
  }

  /** Messages sent under this identifier, and those of them that are over. */
  predicate Balanced(s: State, id: PacketId) {
    PublishedAs(s.trace.wire, id) + Bit(s.writer == Writing(id))
    == FinalAcks(s.trace.handled, id) + Bit(id in s.inFlight)
  }

  lemma WireStepKeepsBalanced(c: Config, s: State, e: Event, id: PacketId)
    requires Enabled(c, s, e) && TouchesWire(e) && Balanced(s, id)
    ensures Balanced(WriterStep(c, s, e), id)
  {
    PublishedAsAppend(s.trace.wire, OnWire(c, s, e), id);
  }

  lemma InsertKeepsBalanced(c: Config, s: State, id: PacketId)
    requires !c.qos.AtMostOnce? && Enabled(c, s, Insert) && s.writer.id !in s.inFlight && Balanced(s, id)
    ensures Balanced(WriterStep(c, s, Insert), id)
  {
  }

  lemma CompleteKeepsBalanced(s: State, p: Packet, id: PacketId)
    requires Terminal(p) && p.id in s.inFlight && Balanced(s, id)
    ensures Balanced(RemoveEntry(s, p), id)
  {
    var t := RemoveEntry(s, p);
    FinalAcksAppend(s.trace.handled, p, id);
    assert t.trace.handled == s.trace.handled + [p] && t.trace.wire == s.trace.wire;
    assert id in t.inFlight <==> id in s.inFlight && id != p.id;
  }

  lemma QueueKeepsBalanced(s: State, p: Packet, id: PacketId)
    requires AcceptedPubrec(p) && Balanced(s, id)
    ensures Balanced(QueuePubrel(s, p), id)
  {
    FinalAcksAppend(s.trace.handled, p, id);
  }

  lemma QuietStepKeepsBalanced(c: Config, s: State, e: Event, id: PacketId)
    requires Enabled(c, s, e) && !MovesToken(e) && Balanced(s, id)
    ensures Balanced(Apply(c, s, e), id)
  {
    QuietStepMovesNothing(c, s, e);
    if ReaderSide(e) || EnvSide(e) { ReaderFrame(c, s, e); } else { WireFrame(c, s, e); }
    QuietStepHandlesNothing(c, s, e);
  }

  lemma QuietStepHandlesNothing(c: Config, s: State, e: Event)
    requires Enabled(c, s, e) && !MovesToken(e)
    ensures Apply(c, s, e).trace.handled == s.trace.handled
  {
    if !e.Return? { OtherStepsCompleteNothing(c, s, e); }
  }

  lemma StepKeepsBalanced(c: Config, s: State, e: Event, id: PacketId)
    requires !c.qos.AtMostOnce? && Enabled(c, s, e) && Balanced(s, id)
    requires !e.PublishFailed? && !e.PubrelFailed? && !e.Ignore?
    requires e.Insert? ==> s.writer.id !in s.inFlight
    requires e.Complete? ==> s.reader.packet.id in s.inFlight
    ensures Balanced(Apply(c, s, e), id)
  {
    if TouchesWire(e) { WireStepKeepsBalanced(c, s, e, id); }
    else if e.Insert? { InsertKeepsBalanced(c, s, id); }
    else if e.Complete? { CompleteKeepsBalanced(s, s.reader.packet, id); }
    else if e.Queue? { QueueKeepsBalanced(s, s.reader.packet, id); }
    else if !MovesToken(e) { QuietStepKeepsBalanced(c, s, e, id); }
  }

  lemma ClientStepKeepsBalanced(c: Config, y: System, e: Event, id: PacketId)
    requires SystemInv(c, y) && CanStep(c, y, Client(e)) && Live(Apply(c, y.client, e)) && Balanced(y.client, id)
    ensures Balanced(Apply(c, y.client, e), id)
  {
    IntactIsMonotone(c, y.client, e);
    if y.client.reader.Handling? { AnswersAreExpected(c, y); }
    StepKeepsBalanced(c, y.client, e, id);
  }

  lemma {:induction false} RunKeepsBalanced(c: Config, y: System, es: seq<SystemEvent>, id: PacketId)
    requires SystemInv(c, y) && SystemRun(c, y, es) && (Live(y.client) ==> Balanced(y.client, id))
    ensures Live(EndOf(c, y, es).client) ==> Balanced(EndOf(c, y, es).client, id)
    decreases |es|
  {
    if es != [] {
      SystemStepInv(c, y, es[0]);
      var z := Step(c, y, es[0]);
      if es[0].Client? && Live(z.client) {
        IntactIsMonotone(c, y.client, es[0].event);
        ClientStepKeepsBalanced(c, y, es[0].event, id);
      }
      RunKeepsBalanced(c, z, es[1..], id);
    }
  }

  /** Message by message: of the messages sent under an identifier, each has had
      exactly one terminal acknowledgement, except the one in flight, if any,
      which has had none. */
  lemma EachMessageFreedOnce(c: Config, y: System, id: PacketId)
    requires !c.qos.AtMostOnce? && SystemReachable(c, y) && Live(y.client)
    ensures PublishedAs(y.client.trace.wire, id) + Bit(y.client.writer == Writing(id))
            == FinalAcks(y.client.trace.handled, id) + Bit(id in y.client.inFlight)
  {
    var es :| SystemRun(c, Start(c), es) && EndOf(c, Start(c), es) == y;
    StartInv(c);
    RunKeepsBalanced(c, Start(c), es, id);
  }
}
