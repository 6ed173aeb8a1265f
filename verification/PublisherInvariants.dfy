/** What every interleaving keeps, whatever the broker sends. */
module PublisherInvariants {
  import opened Mqtt
  import opened PublisherModel

  /** `t` differs from `s` only in what the read side and the world may touch. */
  predicate WriterUntouched(s: State, t: State) {
    && t.writer == s.writer && t.sent == s.sent && t.lastId == s.lastId
    && t.windowClosed == s.windowClosed && t.counters.published == s.counters.published
    && t.trace.wire == s.trace.wire && t.trace.allocs == s.trace.allocs
    && t.trace.overwritten == s.trace.overwritten && t.trace.writeFailed == s.trace.writeFailed
    && (forall id :: id in t.inFlight ==> id in s.inFlight && t.inFlight[id] == s.inFlight[id])
  }

  lemma CompleteFrame(s: State, p: Packet)
    requires Terminal(p)
    ensures WriterUntouched(s, RemoveEntry(s, p))
  {
  }

  lemma ReturnFrame(c: Config, s: State, entry: Entry, refused: bool)
    ensures WriterUntouched(s, ReturnPermit(c, s, entry, refused))
  {
  }

  /** The read side and the environment leave the write side's variables alone. */
  lemma ReaderFrame(c: Config, s: State, e: Event)
    requires Enabled(c, s, e) && (ReaderSide(e) || EnvSide(e))
    ensures WriterUntouched(s, Apply(c, s, e))
  {
    match e
    case Complete => CompleteFrame(s, s.reader.packet);
    case Return => ReturnFrame(c, s, s.reader.entry, s.reader.refused);
    case _ =>
  }

  // ---- the ledger: map size, permits, counters ----

  /** A permit has been taken but its identifier is not in the map yet. */
  function Held(c: Config, s: State): nat {
    Bit(!c.qos.AtMostOnce? && (s.writer.Holding? || s.writer.Stamped?))
  }

  /** An entry has left the map but its permit is not back yet. */
  function Owed(s: State): nat {
    Bit(s.reader.Returning?)
  }

  /** A PUBLISH is in the map but not counted as published. */
  function InProgress(s: State): nat {
    Bit(s.writer.Writing? || s.writer.Written?)
  }

  /** Between the quota check and the end of one loop iteration. */
  predicate Sending(w: Writer) {
    w.Pacing? || w.Acquiring? || w.Holding? || w.Stamped? || w.Writing? || w.Written? || w.Counted?
  }

  /** The tracked size is the map's size; at QoS 0 nothing ever enters the map. */
  predicate SizeTracked(c: Config, s: State) {
    && s.trace.live == |s.inFlight|
    && (c.qos.AtMostOnce? ==> s.inFlight == map[])
  }

  predicate PermitsConserved(c: Config, s: State) {
    && s.permits + s.trace.live + s.trace.overwritten + Held(c, s) + Owed(s) == c.window + s.trace.surplus
    && s.trace.surplus <= Bit(s.writer == Done(WriteFailed))
  }

  predicate CountersBalance(c: Config, s: State) {
    && s.counters.published == s.sent + Bit(s.writer.Counted?)
    && |s.samples| <= s.counters.acknowledged
    && s.counters.publishErrors <= Bit(s.writer == Done(WriteFailed))
    && s.trace.surplus <= s.counters.publishErrors
    && (c.quota.Some? ==> s.sent + Bit(Sending(s.writer)) <= c.quota.value)
    && (!c.qos.AtMostOnce? ==>
          s.counters.acknowledged + s.trace.refusedInFlight + Owed(s) + s.trace.live + s.trace.overwritten
          == s.counters.published + InProgress(s) + s.trace.surplus)
  }

  predicate Ledger(c: Config, s: State) {
    SizeTracked(c, s) && PermitsConserved(c, s) && CountersBalance(c, s)
  }

  lemma RemovingAKey(m: map<PacketId, Entry>, id: PacketId)
    ensures |m - {id}| == |m| - Bit(id in m)
    ensures m == map[] ==> m - {id} == map[]
  {
    if id in m {
      assert m == (m - {id})[id := m[id]];
    } else {
      assert m - {id} == m;
    }
  }

  lemma AddingAKey(m: map<PacketId, Entry>, id: PacketId, entry: Entry)
    ensures |m[id := entry]| == |m| + Bit(id !in m)
  {
    if id in m {
      assert m[id := entry].Keys == m.Keys;
      assert |m[id := entry].Keys| == |m.Keys|;
    }
  }

  lemma InsertKeepsSize(c: Config, s: State)
    requires SizeTracked(c, s) && Enabled(c, s, Insert)
    ensures SizeTracked(c, WriterStep(c, s, Insert))
  {
    AddingAKey(s.inFlight, s.writer.id, s.writer.entry);
  }

  lemma InsertKeepsLedger(c: Config, s: State)
    requires Ledger(c, s) && Enabled(c, s, Insert)
    ensures Ledger(c, WriterStep(c, s, Insert))
  {
    InsertKeepsSize(c, s);
  }

  lemma FailedWriteKeepsLedger(c: Config, s: State)
    requires Ledger(c, s) && Enabled(c, s, PublishFailed)
    ensures Ledger(c, FailPublish(c, s, s.writer.id))
  {
    RemovingAKey(s.inFlight, s.writer.id);
  }

  lemma RemoveHitKeepsLedger(c: Config, s: State, p: Packet)
    requires Ledger(c, s) && s.reader.Handling? && Terminal(p) && p.id in s.inFlight
    ensures Ledger(c, RemoveEntry(s, p))
  {
    RemovingAKey(s.inFlight, p.id);
  }

  lemma CompleteKeepsLedger(c: Config, s: State)
    requires Ledger(c, s) && Enabled(c, s, Complete)
    ensures Ledger(c, RemoveEntry(s, s.reader.packet))
  {
    if s.reader.packet.id in s.inFlight {
      RemoveHitKeepsLedger(c, s, s.reader.packet);
    }
  }

  lemma ReturnKeepsLedger(c: Config, s: State)
    requires Ledger(c, s) && Enabled(c, s, Return)
    ensures Ledger(c, ReturnPermit(c, s, s.reader.entry, s.reader.refused))
  {
  }

  lemma MoveKeepsLedger(c: Config, s: State, to: Writer)
    requires Ledger(c, s) && CanMove(c, s, to)
    ensures Ledger(c, s.(writer := to))
  {
  }

  /** Steps of the write side that only talk: no permit, entry or counter moves. */
  predicate OnlyTalks(e: Event) {
    e.PopPubrel? || e.PubrelWritten? || e.PubrelFailed? || e.PublishWritten? || e.SendDisconnect?
  }

  lemma TalkKeepsLedger(c: Config, s: State, e: Event)
    requires Ledger(c, s) && Enabled(c, s, e) && OnlyTalks(e)
    ensures Ledger(c, WriterStep(c, s, e))
  {
  }

  lemma AcquireKeepsLedger(c: Config, s: State, e: Event)
    requires Ledger(c, s) && Enabled(c, s, e) && (e.Acquire? || e.AcquireClosed?)
    ensures Ledger(c, WriterStep(c, s, e))
  {
  }

  lemma StampKeepsLedger(c: Config, s: State)
    requires Ledger(c, s) && Enabled(c, s, Stamp)
    ensures Ledger(c, WriterStep(c, s, Stamp))
  {
  }

  lemma CountingKeepsLedger(c: Config, s: State, e: Event)
    requires Ledger(c, s) && Enabled(c, s, e) && (e.Count? || e.Forget?)
    ensures Ledger(c, WriterStep(c, s, e))
  {
  }

  lemma WriterKeepsLedger(c: Config, s: State, e: Event)
    requires Ledger(c, s) && Enabled(c, s, e) && !ReaderSide(e) && !EnvSide(e)
    ensures Ledger(c, WriterStep(c, s, e))
  {
    if OnlyTalks(e) { TalkKeepsLedger(c, s, e); }
    else if e.Acquire? || e.AcquireClosed? { AcquireKeepsLedger(c, s, e); }
    else if e.Stamp? { StampKeepsLedger(c, s); }
    else if e.Count? || e.Forget? { CountingKeepsLedger(c, s, e); }
    else if e.Insert? { InsertKeepsLedger(c, s); }
    else if e.PublishFailed? { FailedWriteKeepsLedger(c, s); }
    else { MoveKeepsLedger(c, s, e.to); }
  }

  lemma QueueKeepsLedger(c: Config, s: State)
    requires Ledger(c, s) && Enabled(c, s, Queue)
    ensures Ledger(c, QueuePubrel(s, s.reader.packet))
  {
  }

  lemma ReadingKeepsLedger(c: Config, s: State, e: Event)
    requires Ledger(c, s) && Enabled(c, s, e) && (e.Receive? || e.Ignore? || e.ReadEnd? || e.Close?)
    ensures Ledger(c, ReaderStep(c, s, e))
  {
  }

  lemma WorldKeepsLedger(c: Config, s: State, e: Event)
    requires Ledger(c, s) && Enabled(c, s, e) && EnvSide(e)
    ensures Ledger(c, EnvStep(c, s, e))
  {
  }

  lemma StepKeepsLedger(c: Config, s: State, e: Event)
    requires Ledger(c, s) && Enabled(c, s, e)
    ensures Ledger(c, Apply(c, s, e))
  {
    if e.Complete? { CompleteKeepsLedger(c, s); }
    else if e.Return? { ReturnKeepsLedger(c, s); }
    else if e.Queue? { QueueKeepsLedger(c, s); }
    else if ReaderSide(e) { ReadingKeepsLedger(c, s, e); }
    else if EnvSide(e) { WorldKeepsLedger(c, s, e); }
    else { WriterKeepsLedger(c, s, e); }
  }

  // ---- what reuse can cost ----

  /** Every overwritten entry costs a permit for good, but never the last one. */
  predicate LastPermitKept(c: Config, s: State) {
    s.trace.overwritten == 0 || s.trace.overwritten < c.window
  }

  lemma OnlyInsertOverwrites(c: Config, s: State, e: Event)
    requires Enabled(c, s, e) && !e.Insert?
    ensures Apply(c, s, e).trace.overwritten == s.trace.overwritten
  {
    if ReaderSide(e) || EnvSide(e) {
      ReaderFrame(c, s, e);
    } else if !e.Stamp? {
      WriterAllocatesOnlyAtStamp(c, s, e);
    }
  }

  /** A colliding insert needs a live entry and the permit in the writer's hand,
      so two permits are still accounted for before it and one after it. */
  lemma InsertKeepsLastPermit(c: Config, s: State)
    requires Ledger(c, s) && LastPermitKept(c, s) && Enabled(c, s, Insert)
    ensures LastPermitKept(c, WriterStep(c, s, Insert))
  {
    if s.writer.id in s.inFlight {
      assert |s.inFlight.Keys| >= 1;
    }
  }

  lemma StepKeepsLastPermit(c: Config, s: State, e: Event)
    requires Ledger(c, s) && LastPermitKept(c, s) && Enabled(c, s, e)
    ensures LastPermitKept(c, Apply(c, s, e))
  {
    if e.Insert? { InsertKeepsLastPermit(c, s); } else { OnlyInsertOverwrites(c, s, e); }
  }

  // ---- shutdown order and pacing ----

  predicate ShutdownOrdered(c: Config, s: State) {
    && (s.closed <==> s.reader.Ended?)
    && (s.windowClosed ==> s.closed && (s.writer.Disconnecting? || s.writer.Joining? || s.writer.Done?))
    && (s.writer == Done(Ok) ==> s.reader == Ended(false) && !s.windowClosed)
    && (s.writer == Done(ReadFailed) ==> s.reader == Ended(true))
    && (s.writer == Done(ClosedEarly) ==> s.reader == Ended(false) && s.windowClosed)
  }

  /** A message past the pacing point was not let through before its deadline. */
  predicate Paced(c: Config, s: State) {
    && c.start <= s.clock
    && (Sending(s.writer) && !s.writer.Pacing? ==> DeadlinePassed(c, s.sent, s.clock))
    && (s.sent > 0 ==> DeadlinePassed(c, s.sent - 1, s.clock))
  }

  predicate Orderly(c: Config, s: State) {
    ShutdownOrdered(c, s) && Paced(c, s)
  }

  lemma MoveKeepsOrderly(c: Config, s: State, to: Writer)
    requires Orderly(c, s) && CanMove(c, s, to)
    ensures Orderly(c, s.(writer := to))
  {
  }

  lemma WriterKeepsOrderly(c: Config, s: State, e: Event)
    requires Orderly(c, s) && Enabled(c, s, e) && !ReaderSide(e) && !EnvSide(e) && !e.Move?
    ensures Orderly(c, WriterStep(c, s, e))
  {
  }

  lemma ReaderKeepsOrderly(c: Config, s: State, e: Event)
    requires Orderly(c, s) && Enabled(c, s, e) && (ReaderSide(e) || EnvSide(e))
    ensures Orderly(c, Apply(c, s, e))
  {
  }

  lemma StepKeepsOrderly(c: Config, s: State, e: Event)
    requires Orderly(c, s) && Enabled(c, s, e)
    ensures Orderly(c, Apply(c, s, e))
  {
    if e.Move? { MoveKeepsOrderly(c, s, e.to); }
    else if ReaderSide(e) || EnvSide(e) { ReaderKeepsOrderly(c, s, e); }
    else { WriterKeepsOrderly(c, s, e); }
  }

  // ---- identifiers ----

  /** Identifiers allocated for messages that are not yet in `sent`. */
  function Pending(w: Writer): nat {
    Bit(w.Stamped? || w.Writing? || w.Written? || w.Counted?)
  }

  predicate EntryPlaced(s: State, id: PacketId)
    requires id in s.inFlight
  {
    var born := s.inFlight[id].born;
    born < s.trace.allocs - Bit(s.writer.Stamped?) <= born + ID_COUNT && id == IdOf(born)
  }

  /** In-flight entries sit at the identifier of their own allocation and are
      never more than one identifier cycle old. */
  predicate EntriesPlaced(s: State) {
    forall id :: id in s.inFlight ==> EntryPlaced(s, id)
  }

  predicate Allocated(s: State) {
    && s.lastId == LastId(s.trace.allocs)
    && (!s.writer.Done? ==> s.trace.allocs == s.sent + Pending(s.writer))
    && (s.writer.Stamped? ==> s.writer.entry.born == s.sent)
    && (s.writer.Stamped? || s.writer.Writing? ==> s.writer.id == IdOf(s.sent))
  }

  predicate IdsCyclic(c: Config, s: State) {
    c.qos.AtMostOnce? || (EntriesPlaced(s) && Allocated(s))
  }

  lemma StampKeepsIds(c: Config, s: State)
    requires IdsCyclic(c, s) && Enabled(c, s, Stamp)
    ensures IdsCyclic(c, WriterStep(c, s, Stamp))
  {
    NextIdIsIdOf(s.trace.allocs);
    var t := WriterStep(c, s, Stamp);
    if !c.qos.AtMostOnce? {
      forall id | id in t.inFlight ensures EntryPlaced(t, id) {
        assert EntryPlaced(s, id);
      }
    }
  }

  lemma InsertKeepsIds(c: Config, s: State)
    requires IdsCyclic(c, s) && Enabled(c, s, Insert)
    ensures IdsCyclic(c, WriterStep(c, s, Insert))
  {
    var t := WriterStep(c, s, Insert);
    if !c.qos.AtMostOnce? {
      forall id | id in t.inFlight ensures EntryPlaced(t, id) {
        if id != s.writer.id {
          assert EntryPlaced(s, id);
          SameIdMeansWholeCycles(s.inFlight[id].born, s.sent);
        }
      }
    }
  }

  /** Every other write-side step adds no entry and leaves allocation alone. */
  lemma WriterAllocatesOnlyAtStamp(c: Config, s: State, e: Event)
    requires Enabled(c, s, e) && !ReaderSide(e) && !EnvSide(e) && !e.Stamp? && !e.Insert?
    ensures var t := WriterStep(c, s, e);
            && t.trace.allocs == s.trace.allocs && t.lastId == s.lastId
            && t.trace.overwritten == s.trace.overwritten
            && (forall id :: id in t.inFlight ==> id in s.inFlight && t.inFlight[id] == s.inFlight[id])
  {
  }

  lemma WriterKeepsItsId(c: Config, s: State, e: Event)
    requires Enabled(c, s, e) && !ReaderSide(e) && !EnvSide(e) && !e.Stamp? && !e.Insert?
    ensures var t := WriterStep(c, s, e);
            && !t.writer.Stamped? && !s.writer.Stamped? && !t.writer.Writing?
            && (!t.writer.Done? ==> !s.writer.Done? && t.sent + Pending(t.writer) == s.sent + Pending(s.writer))
  {
  }

  lemma EntriesStayPlaced(s: State, t: State)
    requires EntriesPlaced(s) && t.trace.allocs == s.trace.allocs && t.writer.Stamped? == s.writer.Stamped?
    requires forall id :: id in t.inFlight ==> id in s.inFlight && t.inFlight[id] == s.inFlight[id]
    ensures EntriesPlaced(t)
  {
    forall id | id in t.inFlight ensures EntryPlaced(t, id) {
      assert EntryPlaced(s, id);
    }
  }

  lemma ReaderKeepsIds(c: Config, s: State, e: Event)
    requires IdsCyclic(c, s) && Enabled(c, s, e) && (ReaderSide(e) || EnvSide(e))
    ensures IdsCyclic(c, Apply(c, s, e))
  {
    ReaderFrame(c, s, e);
    if !c.qos.AtMostOnce? { EntriesStayPlaced(s, Apply(c, s, e)); }
  }

  lemma WriterKeepsIds(c: Config, s: State, e: Event)
    requires IdsCyclic(c, s) && Enabled(c, s, e) && !ReaderSide(e) && !EnvSide(e) && !e.Stamp? && !e.Insert?
    ensures IdsCyclic(c, WriterStep(c, s, e))
  {
    WriterAllocatesOnlyAtStamp(c, s, e);
    WriterKeepsItsId(c, s, e);
    if !c.qos.AtMostOnce? { EntriesStayPlaced(s, WriterStep(c, s, e)); }
  }

  lemma StepKeepsIds(c: Config, s: State, e: Event)
    requires IdsCyclic(c, s) && Enabled(c, s, e)
    ensures IdsCyclic(c, Apply(c, s, e))
  {
    if e.Stamp? { StampKeepsIds(c, s); }
    else if e.Insert? { InsertKeepsIds(c, s); }
    else if ReaderSide(e) || EnvSide(e) { ReaderKeepsIds(c, s, e); }
    else { WriterKeepsIds(c, s, e); }
  }

  // ---- the wire ----

  /** PUBLISHes on the wire, in order. */
  function Publishes(wire: seq<Out>): seq<Out> {
    if wire == [] then []
    else Publishes(wire[..|wire| - 1]) + (if wire[|wire| - 1].OutPublish? then [wire[|wire| - 1]] else [])
  }

  /** Identifiers of the PUBRELs on the wire, in order. */
  function Pubrels(wire: seq<Out>): seq<PacketId> {
    if wire == [] then []
    else Pubrels(wire[..|wire| - 1]) + (if wire[|wire| - 1].OutPubrel? then [wire[|wire| - 1].id] else [])
  }

  /** Identifiers of the accepted PUBRECs, in receipt order. */
  function AcceptedIds(handled: seq<Packet>): seq<PacketId> {
    if handled == [] then []
    else AcceptedIds(handled[..|handled| - 1]) +
         (if AcceptedPubrec(handled[|handled| - 1]) then [handled[|handled| - 1].id] else [])
  }

  lemma WireAppend(wire: seq<Out>, o: Out)
    ensures Publishes(wire + [o]) == Publishes(wire) + (if o.OutPublish? then [o] else [])
    ensures Pubrels(wire + [o]) == Pubrels(wire) + (if o.OutPubrel? then [o.id] else [])
  {
    assert (wire + [o])[..|wire|] == wire;
  }

  lemma HandledAppend(handled: seq<Packet>, p: Packet)
    ensures AcceptedIds(handled + [p]) == AcceptedIds(handled) + (if AcceptedPubrec(p) then [p.id] else [])
  {
    assert (handled + [p])[..|handled|] == handled;
  }

  predicate Numbered(c: Config, ps: seq<Out>) {
    forall k :: 0 <= k < |ps| ==>
      ps[k].OutPublish? && ps[k].index == k && (!c.qos.AtMostOnce? ==> ps[k].id == IdOf(k))
  }

  /** The k-th PUBLISH on the wire carries the k-th identifier of the cycle. */
  predicate WireNumbered(c: Config, s: State) {
    && Numbered(c, Publishes(s.trace.wire))
    && |Publishes(s.trace.wire)| == s.counters.published + Bit(s.writer.Written?)
  }

  function HeldPubrel(s: State): seq<PacketId> {
    if s.writer.Releasing? then [s.writer.id] else []
  }

  predicate PubrelsConserved(s: State) {
    s.trace.writeFailed || Returned(s) ||
    Pubrels(s.trace.wire) + HeldPubrel(s) + s.channel == AcceptedIds(s.trace.handled)
  }

  predicate TouchesWire(e: Event) {
    e.PublishWritten? || e.PubrelWritten? || e.SendDisconnect?
  }

  predicate TouchesPubrels(e: Event) {
    e.PopPubrel? || e.PubrelWritten? || e.PubrelFailed?
  }

  lemma WireFrame(c: Config, s: State, e: Event)
    requires Enabled(c, s, e) && !ReaderSide(e) && !EnvSide(e) && !TouchesWire(e)
    ensures var t := WriterStep(c, s, e);
            && t.trace.wire == s.trace.wire
            && t.counters.published + Bit(t.writer.Written?) == s.counters.published + Bit(s.writer.Written?)
  {
  }

  lemma ChannelFrame(c: Config, s: State, e: Event)
    requires Enabled(c, s, e) && !ReaderSide(e) && !EnvSide(e) && !TouchesPubrels(e)
    ensures var t := WriterStep(c, s, e);
            && t.channel == s.channel && t.trace.handled == s.trace.handled
            && !t.writer.Releasing? && !s.writer.Releasing? && !Returned(s)
            && (s.trace.writeFailed ==> t.trace.writeFailed)
  {
  }

  lemma PublishKeepsWireNumbered(c: Config, s: State)
    requires CountersBalance(c, s) && IdsCyclic(c, s) && WireNumbered(c, s) && Enabled(c, s, PublishWritten)
    ensures WireNumbered(c, WriterStep(c, s, PublishWritten))
  {
    WireAppend(s.trace.wire, OutPublish(s.writer.id, s.sent));
  }

  lemma OtherPacketKeepsWireNumbered(c: Config, s: State, e: Event)
    requires WireNumbered(c, s) && Enabled(c, s, e) && (e.PubrelWritten? || e.SendDisconnect?)
    ensures WireNumbered(c, WriterStep(c, s, e))
  {
    WireAppend(s.trace.wire, if e.PubrelWritten? then OutPubrel(s.writer.id) else OutDisconnect);
  }

  lemma SilenceKeepsWireNumbered(c: Config, s: State, e: Event)
    requires WireNumbered(c, s) && Enabled(c, s, e) && !TouchesWire(e)
    ensures WireNumbered(c, Apply(c, s, e))
  {
    if ReaderSide(e) || EnvSide(e) { ReaderFrame(c, s, e); } else { WireFrame(c, s, e); }
  }

  lemma StepKeepsWireNumbered(c: Config, s: State, e: Event)
    requires CountersBalance(c, s) && IdsCyclic(c, s) && WireNumbered(c, s) && Enabled(c, s, e)
    ensures WireNumbered(c, Apply(c, s, e))
  {
    if e.PublishWritten? { PublishKeepsWireNumbered(c, s); }
    else if TouchesWire(e) { OtherPacketKeepsWireNumbered(c, s, e); }
    else { SilenceKeepsWireNumbered(c, s, e); }
  }

  lemma PopKeepsPubrels(c: Config, s: State)
    requires PubrelsConserved(s) && Enabled(c, s, PopPubrel)
    ensures PubrelsConserved(WriterStep(c, s, PopPubrel))
  {
    var id, rest := s.channel[0], s.channel[1..];
    assert s.channel == [id] + rest;
    assert HeldPubrel(s) == [];
    assert Pubrels(s.trace.wire) + [] + ([id] + rest) == Pubrels(s.trace.wire) + [id] + rest;
  }

  lemma PubrelWriteKeepsPubrels(c: Config, s: State)
    requires PubrelsConserved(s) && Enabled(c, s, PubrelWritten)
    ensures PubrelsConserved(WriterStep(c, s, PubrelWritten))
  {
    WireAppend(s.trace.wire, OutPubrel(s.writer.id));
    var t := WriterStep(c, s, PubrelWritten);
    assert HeldPubrel(t) == [];
    assert Pubrels(t.trace.wire) + [] == Pubrels(s.trace.wire) + HeldPubrel(s);
  }

  lemma QueueKeepsPubrels(c: Config, s: State)
    requires PubrelsConserved(s) && Enabled(c, s, Queue)
    ensures PubrelsConserved(QueuePubrel(s, s.reader.packet))
  {
    var p := s.reader.packet;
    HandledAppend(s.trace.handled, p);
    assert Pubrels(s.trace.wire) + HeldPubrel(s) + (s.channel + [p.id])
        == Pubrels(s.trace.wire) + HeldPubrel(s) + s.channel + [p.id];
  }

  lemma ReaderChannelFrame(c: Config, s: State, e: Event)
    requires Enabled(c, s, e) && (ReaderSide(e) || EnvSide(e)) && !e.Queue?
    ensures var t := Apply(c, s, e);
            t.channel == s.channel && AcceptedIds(t.trace.handled) == AcceptedIds(s.trace.handled)
  {
    if e.Complete? || e.Ignore? { HandledAppend(s.trace.handled, s.reader.packet); }
  }

  lemma ReaderKeepsPubrels(c: Config, s: State, e: Event)
    requires PubrelsConserved(s) && Enabled(c, s, e) && (ReaderSide(e) || EnvSide(e)) && !e.Queue?
    ensures PubrelsConserved(Apply(c, s, e))
  {
    ReaderFrame(c, s, e);
    ReaderChannelFrame(c, s, e);
  }

  lemma WriterKeepsPubrels(c: Config, s: State, e: Event)
    requires PubrelsConserved(s) && Enabled(c, s, e) && !ReaderSide(e) && !EnvSide(e) && !TouchesPubrels(e)
    ensures PubrelsConserved(WriterStep(c, s, e))
  {
    ChannelFrame(c, s, e);
    if e.PublishWritten? { WireAppend(s.trace.wire, OutPublish(s.writer.id, s.sent)); }
    else if e.SendDisconnect? { WireAppend(s.trace.wire, OutDisconnect); }
    else { WireFrame(c, s, e); }
  }

  lemma StepKeepsPubrels(c: Config, s: State, e: Event)
    requires PubrelsConserved(s) && Enabled(c, s, e)
    ensures PubrelsConserved(Apply(c, s, e))
  {
    if e.PubrelWritten? { PubrelWriteKeepsPubrels(c, s); }
    else if e.PopPubrel? { PopKeepsPubrels(c, s); }
    else if e.Queue? { QueueKeepsPubrels(c, s); }
    else if ReaderSide(e) || EnvSide(e) { ReaderKeepsPubrels(c, s, e); }
    else if !e.PubrelFailed? { WriterKeepsPubrels(c, s, e); }
  }

  // ---- the whole invariant, over every run ----

  predicate Inv(c: Config, s: State) {
    && Ledger(c, s)
    && LastPermitKept(c, s)
    && Orderly(c, s)
    && IdsCyclic(c, s)
    && WireNumbered(c, s)
    && PubrelsConserved(s)
  }

  lemma InitInv(c: Config)
    ensures Inv(c, Init(c))
  {
  }

  lemma StepInv(c: Config, s: State, e: Event)
    requires Inv(c, s) && Enabled(c, s, e)
    ensures Inv(c, Apply(c, s, e))
  {
    StepKeepsLedger(c, s, e);
    StepKeepsLastPermit(c, s, e);
    StepKeepsOrderly(c, s, e);
    StepKeepsIds(c, s, e);
    StepKeepsWireNumbered(c, s, e);
    StepKeepsPubrels(c, s, e);
  }

  lemma {:induction false} RunInv(c: Config, s: State, es: seq<Event>)
    requires Inv(c, s) && ValidRun(c, s, es)
    ensures Inv(c, After(c, s, es))
    decreases |es|
  {
    if es != [] {
      StepInv(c, s, es[0]);
      RunInv(c, Apply(c, s, es[0]), es[1..]);
    }
  }

  lemma ReachableInv(c: Config, s: State)
    requires Reachable(c, s)
    ensures Inv(c, s)
  {
    var es :| ValidRun(c, Init(c), es) && After(c, Init(c), es) == s;
    InitInv(c);
    RunInv(c, Init(c), es);
  }
}
