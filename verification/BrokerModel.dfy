/** A publisher composed with a conforming broker over FIFO links.

    The broker answers each PUBLISH once (PUBACK at QoS 1, PUBREC at QoS 2) and
    each PUBREL once (PUBCOMP), in any order, at any time, with any Reason Code. */
module BrokerModel {
  import opened Mqtt
  import opened PublisherModel
  import opened PublisherInvariants

  /** `unacked` and `released` are the identifiers the broker owes a first
      answer and a PUBCOMP. */
  datatype System = System(client: State, toBroker: seq<Out>, unacked: multiset<PacketId>,
                           released: multiset<PacketId>, toClient: seq<Packet>)

  datatype SystemEvent = Client(event: Event) | BrokerRead | Answer(packet: Packet)

  function Start(c: Config): System {
    System(Init(c), [], multiset{}, multiset{}, [])
  }

  predicate AnswerAllowed(c: Config, y: System, p: Packet) {
    match c.qos
    case AtMostOnce => false
    case AtLeastOnce => p.Puback? && p.id in y.unacked
    case ExactlyOnce => (p.Pubrec? && p.id in y.unacked) || (p.Pubcomp? && p.id in y.released)
  }

  predicate CanStep(c: Config, y: System, e: SystemEvent) {
    match e
    case Client(ev) => Enabled(c, y.client, ev) && (ev.Receive? ==> y.toClient != [] && ev.packet == y.toClient[0])
    case BrokerRead => y.toBroker != []
    case Answer(p) => AnswerAllowed(c, y, p)
  }

  /** The packet a wire-touching step writes. */
  function OnWire(c: Config, s: State, e: Event): Out
    requires Enabled(c, s, e) && TouchesWire(e)
  {
    if e.PublishWritten? then OutPublish(s.writer.id, s.sent)
    else if e.PubrelWritten? then OutPubrel(s.writer.id)
    else OutDisconnect
  }

  function ReadOne(y: System): System
    requires y.toBroker != []
  {
    var rest := y.(toBroker := y.toBroker[1..]);
    match y.toBroker[0]
    case OutPublish(id, _) => rest.(unacked := y.unacked + multiset{id})
    case OutPubrel(id) => rest.(released := y.released + multiset{id})
    case OutDisconnect => rest
  }

  function SendAnswer(y: System, p: Packet): System
    requires p.Puback? || p.Pubrec? || p.Pubcomp?
  {
    var sent := y.(toClient := y.toClient + [p]);
    if p.Pubcomp? then sent.(released := y.released - multiset{p.id})
    else sent.(unacked := y.unacked - multiset{p.id})
  }

  function ClientStep(c: Config, y: System, e: Event): System
    requires CanStep(c, y, Client(e))
  {
    y.(client := Apply(c, y.client, e),
       toBroker := if TouchesWire(e) then y.toBroker + [OnWire(c, y.client, e)] else y.toBroker,
       toClient := if e.Receive? then y.toClient[1..] else y.toClient)
  }

  function Step(c: Config, y: System, e: SystemEvent): System
    requires CanStep(c, y, e)
  {
    match e
    case Client(ev) => ClientStep(c, y, ev)
    case BrokerRead => ReadOne(y)
    case Answer(p) => SendAnswer(y, p)
  }

  ghost predicate SystemRun(c: Config, y: System, es: seq<SystemEvent>)
    decreases |es|
  {
    es == [] || (CanStep(c, y, es[0]) && SystemRun(c, Step(c, y, es[0]), es[1..]))
  }

  ghost function EndOf(c: Config, y: System, es: seq<SystemEvent>): System
    requires SystemRun(c, y, es)
    decreases |es|
  {
    if es == [] then y else EndOf(c, Step(c, y, es[0]), es[1..])
  }

  ghost predicate SystemReachable(c: Config, y: System) {
    exists es :: SystemRun(c, Start(c), es) && EndOf(c, Start(c), es) == y
  }

  // ---- where each identifier is ----

  /** Is this packet part of the PUBREL/PUBCOMP half of an exchange? */
  predicate OutCarries(o: Out, second: bool, id: PacketId) {
    if second then o == OutPubrel(id) else o.OutPublish? && o.id == id
  }

  predicate InCarries(p: Packet, second: bool, id: PacketId) {
    if second then p.Pubcomp? && p.id == id else (p.Puback? || p.Pubrec?) && p.id == id
  }

  function OutTokens(os: seq<Out>, second: bool, id: PacketId): nat {
    if os == [] then 0 else Bit(OutCarries(os[0], second, id)) + OutTokens(os[1..], second, id)
  }

  function InTokens(ps: seq<Packet>, second: bool, id: PacketId): nat {
    if ps == [] then 0 else Bit(InCarries(ps[0], second, id)) + InTokens(ps[1..], second, id)
  }

  lemma {:induction false} OutTokensAppend(os: seq<Out>, o: Out, second: bool, id: PacketId)
    ensures OutTokens(os + [o], second, id) == OutTokens(os, second, id) + Bit(OutCarries(o, second, id))
  {
    if os == [] {
      assert (os + [o])[1..] == [];
    } else {
      assert (os + [o])[1..] == os[1..] + [o];
      OutTokensAppend(os[1..], o, second, id);
    }
  }

  lemma {:induction false} InTokensAppend(ps: seq<Packet>, p: Packet, second: bool, id: PacketId)
    ensures InTokens(ps + [p], second, id) == InTokens(ps, second, id) + Bit(InCarries(p, second, id))
  {
    if ps == [] {
      assert (ps + [p])[1..] == [];
    } else {
      assert (ps + [p])[1..] == ps[1..] + [p];
      InTokensAppend(ps[1..], p, second, id);
    }
  }

  /** Waiting for PUBACK or PUBREC: being written, on the way to the broker, owed
      an answer, on the way back, or in the read side's hands. */
  function AwaitingFirst(y: System, id: PacketId): nat {
    Bit(y.client.writer == Writing(id)) + OutTokens(y.toBroker, false, id) + y.unacked[id]
    + InTokens(y.toClient, false, id) + Bit(y.client.reader.Handling? && InCarries(y.client.reader.packet, false, id))
  }

  /** Accepted by a PUBREC, PUBREL not yet on the wire. */
  function QueuedForPubrel(y: System, id: PacketId): nat {
    multiset(y.client.channel)[id] + Bit(y.client.writer.Releasing? && y.client.writer.id == id)
  }

  function AwaitingPubcomp(y: System, id: PacketId): nat {
    OutTokens(y.toBroker, true, id) + y.released[id]
    + InTokens(y.toClient, true, id) + Bit(y.client.reader.Handling? && InCarries(y.client.reader.packet, true, id))
  }

  function Tokens(y: System, id: PacketId): nat {
    AwaitingFirst(y, id) + QueuedForPubrel(y, id) + AwaitingPubcomp(y, id)
  }

  /** `run` has not returned and no write has failed. */
  predicate Intact(s: State) {
    !s.trace.writeFailed && !Returned(s)
  }

  /** Intact, and no identifier was ever reused while outstanding. */
  predicate Live(s: State) {
    Intact(s) && s.trace.overwritten == 0
  }

  /** An in-flight identifier is never lost ... */
  predicate NotLost(y: System, id: PacketId) {
    id in y.client.inFlight ==> Tokens(y, id) >= 1
  }

  /** ... and without reuse it is in exactly one place, and no other is anywhere. */
  predicate OneToken(y: System, id: PacketId) {
    Tokens(y, id) == Bit(id in y.client.inFlight)
  }

  predicate TokensFit(y: System, id: PacketId) {
    NotLost(y, id) && (Live(y.client) ==> OneToken(y, id))
  }

  predicate AnswerKind(c: Config, p: Packet) {
    if c.qos.AtLeastOnce? then p.Puback? else p.Pubrec? || p.Pubcomp?
  }

  /** Only answers of the right kind travel, DISCONNECT comes last, and at QoS 1
      there is no second half. */
  predicate KindsMatch(c: Config, y: System) {
    && (forall p :: p in y.toClient ==> AnswerKind(c, p))
    && (y.client.reader.Handling? ==> AnswerKind(c, y.client.reader.packet))
    && (!y.client.writer.Joining? && !Returned(y.client) ==> forall o :: o in y.toBroker ==> !o.OutDisconnect?)
    && (c.qos.AtLeastOnce? ==>
          && y.client.channel == [] && !y.client.writer.Releasing? && y.released == multiset{}
          && forall o :: o in y.toBroker ==> !o.OutPubrel?)
  }

  predicate TokenInv(c: Config, y: System) {
    KindsMatch(c, y) && (Intact(y.client) ==> forall id: PacketId :: TokensFit(y, id))
  }

  // ---- kinds ----

  lemma ClientKeepsKinds(c: Config, y: System, e: Event)
    requires KindsMatch(c, y) && CanStep(c, y, Client(e))
    ensures KindsMatch(c, ClientStep(c, y, e))
  {
  }

  lemma ReadKeepsKinds(c: Config, y: System)
    requires KindsMatch(c, y) && y.toBroker != []
    ensures KindsMatch(c, ReadOne(y))
  {
  }

  lemma AnswerKeepsKinds(c: Config, y: System, p: Packet)
    requires KindsMatch(c, y) && AnswerAllowed(c, y, p)
    ensures KindsMatch(c, SendAnswer(y, p))
  {
  }

  lemma BrokerKeepsKinds(c: Config, y: System, e: SystemEvent)
    requires KindsMatch(c, y) && CanStep(c, y, e) && !e.Client?
    ensures KindsMatch(c, Step(c, y, e))
  {
    if e.BrokerRead? { ReadKeepsKinds(c, y); } else { AnswerKeepsKinds(c, y, e.packet); }
  }

  // ---- tokens move; only Insert creates one, only a terminal ack consumes one ----

  lemma ReadMovesToken(y: System, id: PacketId)
    requires y.toBroker != []
    ensures Tokens(ReadOne(y), id) == Tokens(y, id)
  {
    var z := ReadOne(y);
    assert AwaitingFirst(z, id) == AwaitingFirst(y, id);
    assert AwaitingPubcomp(z, id) == AwaitingPubcomp(y, id);
  }

  lemma AnswerMovesToken(c: Config, y: System, p: Packet, id: PacketId)
    requires AnswerAllowed(c, y, p)
    ensures Tokens(SendAnswer(y, p), id) == Tokens(y, id)
  {
    InTokensAppend(y.toClient, p, false, id);
    InTokensAppend(y.toClient, p, true, id);
  }

  lemma ReceiveMovesToken(c: Config, y: System, p: Packet, id: PacketId)
    requires CanStep(c, y, Client(Receive(p)))
    ensures Tokens(ClientStep(c, y, Receive(p)), id) == Tokens(y, id)
  {
  }

  lemma CompleteConsumesToken(c: Config, y: System, id: PacketId)
    requires CanStep(c, y, Client(Complete))
    ensures Tokens(ClientStep(c, y, Complete), id) + Bit(id == y.client.reader.packet.id) == Tokens(y, id)
  {
  }

  lemma QueueMovesToken(c: Config, y: System, id: PacketId)
    requires CanStep(c, y, Client(Queue)) && !Returned(y.client)
    ensures Tokens(ClientStep(c, y, Queue), id) == Tokens(y, id)
  {
  }

  lemma PopMovesToken(c: Config, y: System, id: PacketId)
    requires CanStep(c, y, Client(PopPubrel))
    ensures Tokens(ClientStep(c, y, PopPubrel), id) == Tokens(y, id)
  {
    assert y.client.channel == [y.client.channel[0]] + y.client.channel[1..];
  }

  lemma WireWriteMovesToken(c: Config, y: System, e: Event, id: PacketId)
    requires CanStep(c, y, Client(e)) && TouchesWire(e)
    ensures Tokens(ClientStep(c, y, e), id) == Tokens(y, id)
  {
    OutTokensAppend(y.toBroker, OnWire(c, y.client, e), false, id);
    OutTokensAppend(y.toBroker, OnWire(c, y.client, e), true, id);
  }

  lemma InsertCreatesToken(c: Config, y: System, id: PacketId)
    requires CanStep(c, y, Client(Insert))
    ensures Tokens(ClientStep(c, y, Insert), id) == Tokens(y, id) + Bit(id == y.client.writer.id)
  {
  }

  predicate MovesToken(e: Event) {
    TouchesWire(e) || TouchesPubrels(e) || e.Insert? || e.PublishFailed? || e.Receive? || e.Complete? || e.Queue?
    || e.Ignore?
  }

  lemma QuietStepMovesNothing(c: Config, s: State, e: Event)
    requires Enabled(c, s, e) && !MovesToken(e)
    ensures var t := Apply(c, s, e);
            && t.inFlight == s.inFlight && t.channel == s.channel
            && t.writer.Writing? == s.writer.Writing? && (t.writer.Writing? ==> t.writer == s.writer)
            && t.writer.Releasing? == s.writer.Releasing? && (t.writer.Releasing? ==> t.writer == s.writer)
            && t.reader.Handling? == s.reader.Handling? && (t.reader.Handling? ==> t.reader == s.reader)
  {
    if ReaderSide(e) || EnvSide(e) {
      match e
      case Return =>
      case _ =>
    } else {
      QuietWriterMovesNothing(c, s, e);
    }
  }

  lemma QuietWriterMovesNothing(c: Config, s: State, e: Event)
    requires Enabled(c, s, e) && !MovesToken(e) && !ReaderSide(e) && !EnvSide(e)
    ensures var t := WriterStep(c, s, e);
            && t.inFlight == s.inFlight && t.channel == s.channel && t.reader == s.reader
            && !t.writer.Writing? && !s.writer.Writing? && !t.writer.Releasing? && !s.writer.Releasing?
  {
  }

  /** Once a run is no longer Intact, or no longer Live, it never is again. */
  lemma IntactIsMonotone(c: Config, s: State, e: Event)
    requires Enabled(c, s, e) && Intact(Apply(c, s, e))
    ensures Intact(s) && !e.PublishFailed? && !e.PubrelFailed?
    ensures Apply(c, s, e).trace.overwritten
            == s.trace.overwritten + Bit(e.Insert? && !c.qos.AtMostOnce? && s.writer.id in s.inFlight)
  {
  }

  predicate CreatesFor(s: State, e: Event, id: PacketId) {
    e.Insert? && s.writer.Stamped? && s.writer.id == id
  }

  predicate ConsumesFor(s: State, e: Event, id: PacketId) {
    e.Complete? && s.reader.Handling? && Terminal(s.reader.packet) && s.reader.packet.id == id
  }

  lemma ClientMovesToken(c: Config, y: System, e: Event, id: PacketId)
    requires KindsMatch(c, y) && CanStep(c, y, Client(e)) && Intact(Apply(c, y.client, e))
    ensures Tokens(ClientStep(c, y, e), id) + Bit(ConsumesFor(y.client, e, id))
            == Tokens(y, id) + Bit(CreatesFor(y.client, e, id))
  {
    IntactIsMonotone(c, y.client, e);
    if e.Receive? { ReceiveMovesToken(c, y, e.packet, id); }
    else if e.Complete? { CompleteConsumesToken(c, y, id); }
    else if e.Queue? { QueueMovesToken(c, y, id); }
    else if e.PopPubrel? { PopMovesToken(c, y, id); }
    else if TouchesWire(e) { WireWriteMovesToken(c, y, e, id); }
    else if e.Insert? { InsertCreatesToken(c, y, id); }
    else if !e.Ignore? { QuietStepMovesNothing(c, y.client, e); }
  }

  lemma TrafficKeepsEntries(c: Config, s: State, e: Event)
    requires Enabled(c, s, e)
    requires TouchesWire(e) || TouchesPubrels(e) || e.Receive? || e.Queue? || e.Ignore?
    ensures Apply(c, s, e).inFlight == s.inFlight
  {
  }

  /** Entries appear with a token and disappear with one. */
  lemma EntriesFollowTokens(c: Config, s: State, e: Event, id: PacketId)
    requires !c.qos.AtMostOnce? && Enabled(c, s, e) && Intact(Apply(c, s, e))
    ensures CreatesFor(s, e, id) ==> id in Apply(c, s, e).inFlight
    ensures ConsumesFor(s, e, id) ==> id !in Apply(c, s, e).inFlight
    ensures !CreatesFor(s, e, id) && !ConsumesFor(s, e, id) ==> (id in Apply(c, s, e).inFlight <==> id in s.inFlight)
  {
    IntactIsMonotone(c, s, e);
    if !MovesToken(e) {
      QuietStepMovesNothing(c, s, e);
    } else if !e.Insert? && !e.Complete? {
      TrafficKeepsEntries(c, s, e);
    }
  }

  lemma ClientKeepsTokensFit(c: Config, y: System, e: Event, id: PacketId)
    requires !c.qos.AtMostOnce? && TokenInv(c, y) && CanStep(c, y, Client(e)) && Intact(Apply(c, y.client, e))
    ensures TokensFit(ClientStep(c, y, e), id)
  {
    IntactIsMonotone(c, y.client, e);
    assert TokensFit(y, id);
    ClientMovesToken(c, y, e, id);
    EntriesFollowTokens(c, y.client, e, id);
  }

  lemma StepKeepsTokenInv(c: Config, y: System, e: SystemEvent)
    requires !c.qos.AtMostOnce? && TokenInv(c, y) && CanStep(c, y, e)
    ensures TokenInv(c, Step(c, y, e))
  {
    var z := Step(c, y, e);
    if e.Client? {
      ClientKeepsKinds(c, y, e.event);
    } else {
      BrokerKeepsKinds(c, y, e);
    }
    if Intact(z.client) {
      forall id: PacketId ensures TokensFit(z, id) {
        if e.Client? {
          ClientKeepsTokensFit(c, y, e.event, id);
        } else {
          assert TokensFit(y, id);
          if e.BrokerRead? { ReadMovesToken(y, id); } else { AnswerMovesToken(c, y, e.packet, id); }
        }
      }
    }
  }
}
