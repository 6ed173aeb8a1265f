/** One benchmark publisher as a transition system.

    Two tasks share a semaphore, an in-flight map, a PUBREL channel and some
    counters. The write side paces, acquires a permit, allocates an identifier,
    inserts it, writes the PUBLISH and forgets the permit; the read side turns
    acknowledgements into returned permits. Every point at which the other task
    can run is a separate `Event`, so a run is an arbitrary interleaving. The
    broker is an arbitrary source of `Receive` events. */
module PublisherModel {
  import opened Mqtt

  /** `window` is the semaphore's initial permit count; `interval` the pacing
      period (None: unthrottled); `quota` this publisher's message count. */
  datatype Config = Config(qos: QoS, window: nat, quota: Option<nat>, warmupUntil: nat,
                           start: nat, interval: Option<nat>)

  function Min(a: int, b: int): int { if a <= b then a else b }
  function Bit(b: bool): nat { if b then 1 else 0 }
  function Max(a: int, b: int): int { if a >= b then a else b }

  /** How many messages may be unacknowledged: the smaller of the request and the
      Receive Maximum, raised to 1 if that is 0. */
  function EffectiveInflight(requested: nat, receiveMaximum: Option<PacketId>): nat {
    var capped := if receiveMaximum.Some? then Min(requested, receiveMaximum.value) else requested;
    Max(capped, 1)
  }

  /** The semaphore's size: also never wider than the identifier space. */
  function Window(requested: nat, receiveMaximum: Option<PacketId>): nat {
    Min(EffectiveInflight(requested, receiveMaximum), ID_COUNT)
  }

  /** The earliest instant for message `index`; None if sending is not paced. */
  function Deadline(c: Config, index: nat): Option<nat> {
    if c.interval.Some? then Some(c.start + index * c.interval.value) else None
  }

  predicate DeadlinePassed(c: Config, index: nat, now: nat) {
    var d := Deadline(c, index);
    d.Some? ==> d.value <= now
  }

  predicate QuotaMet(c: Config, sent: nat) {
    c.quota.Some? && sent >= c.quota.value
  }

  /** An in-flight entry: its send time and, for specification only, which
      allocation created it. */
  datatype Entry = Entry(at: nat, born: nat)

  datatype Outcome = Ok | ReadFailed | ClosedEarly | TimedOut | WriteFailed

  /** Which caller a PUBREL drain returns to. */
  datatype Stage = Loop | Tail | Final

  /** Where the write side is. Identifier 0 stands for "none" (QoS 0). */
  datatype Writer =
    | Draining(stage: Stage)                  // about to try_recv the PUBREL channel
    | Releasing(stage: Stage, id: PacketId)   // popped, its PUBREL not yet written
    | Checking                                // quota and stop tests
    | Pacing
    | Acquiring
    | Holding                                 // permit held, identifier not allocated
    | Stamped(id: PacketId, entry: Entry)     // allocated and timed, not in the map
    | Writing(id: PacketId)                   // in the map, PUBLISH not on the wire
    | Written(id: PacketId)                   // on the wire, not counted
    | Counted(id: PacketId)                   // counted, permit not forgotten
    | TailCheck
    | Disconnecting
    | Joining
    | Done(outcome: Outcome)

  datatype Reader =
    | Reading
    | Handling(packet: Packet)
    | Returning(entry: Entry, refused: bool)  // removed, permit not yet returned
    | Leaving(error: bool)                    // loop exited, semaphore not yet closed
    | Ended(error: bool)

  /** A packet the publisher put on the wire. `index` numbers the PUBLISHes. */
  datatype Out = OutPublish(id: PacketId, index: nat) | OutPubrel(id: PacketId) | OutDisconnect

  datatype Counters = Counters(published: nat, acknowledged: nat, publishErrors: nat,
                               refused: map<ReasonCode, nat>)

  /** History kept for specification: it never influences a step.
      `live` is the map's size, `overwritten` counts inserts that hit a live entry,
      `refusedInFlight` the refusals that freed a slot, `surplus` the permits
      returned twice. */
  datatype Trace = Trace(wire: seq<Out>, handled: seq<Packet>, allocs: nat, overwritten: nat, live: int,
                         refusedInFlight: nat, surplus: nat, writeFailed: bool)

  datatype State = State(writer: Writer, reader: Reader, permits: nat, closed: bool,
                         inFlight: map<PacketId, Entry>, channel: seq<PacketId>,
                         sent: nat, lastId: PacketId, windowClosed: bool, stop: bool, clock: nat,
                         counters: Counters, samples: seq<nat>, trace: Trace)

  function Init(c: Config): State {
    State(Draining(Loop), Reading, c.window, false, map[], [], 0, 0, false, false, c.start,
          Counters(0, 0, 0, map[]), [], Trace([], [], 0, 0, 0, 0, 0, false))
  }

  datatype Event =
    // write side
    | Move(to: Writer)          // control flow only: see CanMove
    | PopPubrel
    | PubrelWritten
    | PubrelFailed
    | Acquire
    | AcquireClosed
    | Stamp
    | Insert
    | PublishWritten
    | PublishFailed
    | Count
    | Forget
    | SendDisconnect
    // read side
    | Receive(packet: Packet)
    | Complete                  // a terminal acknowledgement: entry removed
    | Queue                     // an accepted PUBREC: handed to the write side
    | Ignore
    | Return
    | ReadEnd(error: bool)
    | Close
    // environment
    | StopRequest
    | Tick(now: nat)

  /** The write half and the PUBREL receiver are gone once `run` has returned. */
  predicate Returned(s: State) {
    s.writer.Done?
  }

  /** Acknowledgements that end a message: PUBACK, PUBCOMP, refusing PUBREC. */
  predicate Terminal(p: Packet) {
    p.Puback? || p.Pubcomp? || (p.Pubrec? && IsError(p.code))
  }

  predicate AcceptedPubrec(p: Packet) {
    p.Pubrec? && !IsError(p.code)
  }

  function AfterDrain(stage: Stage): Writer {
    match stage
    case Loop => Checking
    case Tail => TailCheck
    case Final => Disconnecting
  }

  function JoinOutcome(readError: bool, windowClosed: bool): Outcome {
    if readError then ReadFailed else if windowClosed then ClosedEarly else Ok
  }

  /** The control-flow edges of `run` that touch nothing but the program point.
      Timeouts and select! races are nondeterministic. */
  predicate CanMove(c: Config, s: State, to: Writer) {
    match s.writer
    case Draining(stage) => s.channel == [] && to == AfterDrain(stage)
    case Checking => to == if QuotaMet(c, s.sent) || s.stop then TailCheck else Pacing
    case Pacing =>
      || (to == Acquiring && DeadlinePassed(c, s.sent, s.clock))
      || (to == TailCheck && s.stop && c.interval.Some?)
    case Acquiring =>
      if c.qos.AtMostOnce? then to == Holding else to == TailCheck && s.stop
    case TailCheck => (to == Draining(Tail) && s.inFlight != map[]) || to == Draining(Final)
    case Disconnecting => to == Joining        // the DISCONNECT could not be written
    case Joining => (s.reader.Ended? && to == Done(JoinOutcome(s.reader.error, s.windowClosed))) || to == Done(TimedOut)
    case _ => false
  }

  predicate Enabled(c: Config, s: State, e: Event) {
    match e
    case Move(to) => CanMove(c, s, to)
    case PopPubrel => s.writer.Draining? && s.channel != []
    case PubrelWritten => s.writer.Releasing?
    case PubrelFailed => s.writer.Releasing?
    case Acquire => s.writer.Acquiring? && !c.qos.AtMostOnce? && !s.closed && s.permits > 0
    case AcquireClosed => s.writer.Acquiring? && !c.qos.AtMostOnce? && s.closed
    case Stamp => s.writer.Holding?
    case Insert => s.writer.Stamped?
    case PublishWritten => s.writer.Writing?
    case PublishFailed => s.writer.Writing?
    case Count => s.writer.Written?
    case Forget => s.writer.Counted?
    case SendDisconnect => s.writer.Disconnecting?
    case Receive(_) => s.reader.Reading?
    case Complete => s.reader.Handling? && Terminal(s.reader.packet)
    case Queue => s.reader.Handling? && AcceptedPubrec(s.reader.packet)
    case Ignore => s.reader.Handling? && !Terminal(s.reader.packet) && !AcceptedPubrec(s.reader.packet)
    case Return => s.reader.Returning?
    case ReadEnd(_) => s.reader.Reading?
    case Close => s.reader.Leaving?
    case StopRequest => true
    case Tick(now) => s.clock <= now
  }

  /** `publish_errors += 1`, the entry removed, the unforgotten permit returned. */
  function FailPublish(c: Config, s: State, id: PacketId): State {
    var permitBack := if c.qos.AtMostOnce? then 0 else 1;
    var surplus := if c.qos.AtMostOnce? || id in s.inFlight then 0 else 1;
    s.(writer := Done(WriteFailed), permits := s.permits + permitBack, inFlight := s.inFlight - {id},
       counters := s.counters.(publishErrors := s.counters.publishErrors + 1),
       trace := s.trace.(live := s.trace.live - Bit(id in s.inFlight), surplus := s.trace.surplus + surplus,
                         writeFailed := true))
  }

  function Tally(refused: map<ReasonCode, nat>, code: ReasonCode): map<ReasonCode, nat> {
    refused[code := (if code in refused then refused[code] else 0) + 1]
  }

  /** The first half of `complete_ack`: tally a refusal, take the entry out. */
  function RemoveEntry(s: State, p: Packet): State
    requires Terminal(p)
  {
    var refused := if IsError(p.code) then Tally(s.counters.refused, p.code) else s.counters.refused;
    var handled := s.trace.handled + [p];
    if p.id in s.inFlight then
      s.(reader := Returning(s.inFlight[p.id], IsError(p.code)), inFlight := s.inFlight - {p.id},
         counters := s.counters.(refused := refused),
         trace := s.trace.(live := s.trace.live - 1, handled := handled))
    else
      s.(reader := Reading, counters := s.counters.(refused := refused), trace := s.trace.(handled := handled))
  }

  /** Hand the identifier of an accepted PUBREC to the write side, if it lives. */
  function QueuePubrel(s: State, p: Packet): State
    requires AcceptedPubrec(p)
  {
    s.(reader := Reading, channel := if Returned(s) then s.channel else s.channel + [p.id],
       trace := s.trace.(handled := s.trace.handled + [p]))
  }

  /** Nanoseconds since `at`, truncated to 64 bits as the source casts it. */
  function Elapsed(at: nat, now: nat): nat {
    (if at <= now then now - at else 0) % 0x1_0000_0000_0000_0000
  }

  /** The second half of `complete_ack`: return the permit, count, time. */
  function ReturnPermit(c: Config, s: State, entry: Entry, refused: bool): State {
    var t := s.(reader := Reading, permits := s.permits + 1);
    if refused then
      t.(trace := s.trace.(refusedInFlight := s.trace.refusedInFlight + 1))
    else
      t.(counters := s.counters.(acknowledged := s.counters.acknowledged + 1),
         samples := if entry.at >= c.warmupUntil then s.samples + [Elapsed(entry.at, s.clock)] else s.samples)
  }

  predicate ReaderSide(e: Event) {
    e.Receive? || e.Complete? || e.Queue? || e.Ignore? || e.Return? || e.ReadEnd? || e.Close?
  }

  predicate EnvSide(e: Event) {
    e.StopRequest? || e.Tick?
  }

  function WriterStep(c: Config, s: State, e: Event): State
    requires Enabled(c, s, e) && !ReaderSide(e) && !EnvSide(e)
  {
    match e
    case Move(to) => s.(writer := to)
    case PopPubrel => s.(writer := Releasing(s.writer.stage, s.channel[0]), channel := s.channel[1..])
    case PubrelWritten =>
      s.(writer := Draining(s.writer.stage), trace := s.trace.(wire := s.trace.wire + [OutPubrel(s.writer.id)]))
    // at the loop top the error propagates; in the tail it only ends this drain
    case PubrelFailed =>
      s.(writer := if s.writer.stage.Loop? then Done(WriteFailed) else AfterDrain(s.writer.stage),
         trace := s.trace.(writeFailed := true))
    case Acquire => s.(writer := Holding, permits := s.permits - 1)
    // nothing can acknowledge any more: the waiting tail is skipped
    case AcquireClosed => s.(writer := Disconnecting, windowClosed := true)
    case Stamp =>
      if c.qos.AtMostOnce? then s.(writer := Stamped(0, Entry(s.clock, 0)))
      else s.(writer := Stamped(NextId(s.lastId), Entry(s.clock, s.trace.allocs)), lastId := NextId(s.lastId),
              trace := s.trace.(allocs := s.trace.allocs + 1))
    case Insert =>
      var id := s.writer.id;
      if c.qos.AtMostOnce? then s.(writer := Writing(id))
      else s.(writer := Writing(id), inFlight := s.inFlight[id := s.writer.entry],
              trace := s.trace.(live := s.trace.live + Bit(id !in s.inFlight),
                                overwritten := s.trace.overwritten + Bit(id in s.inFlight)))
    case PublishWritten =>
      s.(writer := Written(s.writer.id),
         trace := s.trace.(wire := s.trace.wire + [OutPublish(s.writer.id, s.sent)]))
    case PublishFailed => FailPublish(c, s, s.writer.id)
    case Count =>
      s.(writer := Counted(s.writer.id), counters := s.counters.(published := s.counters.published + 1))
    case Forget => s.(writer := Draining(Loop), sent := s.sent + 1)
    case SendDisconnect => s.(writer := Joining, trace := s.trace.(wire := s.trace.wire + [OutDisconnect]))
  }

  function ReaderStep(c: Config, s: State, e: Event): State
    requires Enabled(c, s, e) && ReaderSide(e)
  {
    match e
    case Receive(p) => s.(reader := Handling(p))
    case Complete => RemoveEntry(s, s.reader.packet)
    case Queue => QueuePubrel(s, s.reader.packet)
    case Ignore => s.(reader := Reading, trace := s.trace.(handled := s.trace.handled + [s.reader.packet]))
    case Return => ReturnPermit(c, s, s.reader.entry, s.reader.refused)
    case ReadEnd(error) => s.(reader := Leaving(error))
    case Close => s.(reader := Ended(s.reader.error), closed := true)
  }

  function EnvStep(c: Config, s: State, e: Event): State
    requires Enabled(c, s, e) && EnvSide(e)
  {
    match e
    case StopRequest => s.(stop := true)
    case Tick(now) => s.(clock := now)
  }

  function Apply(c: Config, s: State, e: Event): State
    requires Enabled(c, s, e)
  {
    if ReaderSide(e) then ReaderStep(c, s, e)
    else if EnvSide(e) then EnvStep(c, s, e)
    else WriterStep(c, s, e)
  }

  // ---- runs ----

  ghost predicate ValidRun(c: Config, s: State, es: seq<Event>)
    decreases |es|
  {
    es == [] || (Enabled(c, s, es[0]) && ValidRun(c, Apply(c, s, es[0]), es[1..]))
  }

  ghost function After(c: Config, s: State, es: seq<Event>): State
    requires ValidRun(c, s, es)
    decreases |es|
  {
    if es == [] then s else After(c, Apply(c, s, es[0]), es[1..])
  }

  ghost predicate Reaches(c: Config, s: State, t: State) {
    exists es :: ValidRun(c, s, es) && After(c, s, es) == t
  }

  ghost predicate Reachable(c: Config, s: State) {
    Reaches(c, Init(c), s)
  }

  lemma ConcatTail(es: seq<Event>, fs: seq<Event>)
    ensures es == [] ==> es + fs == fs
    ensures es != [] ==> es + fs != [] && (es + fs)[0] == es[0] && (es + fs)[1..] == es[1..] + fs
  {
  }

  lemma {:induction false} RunConcat(c: Config, s: State, es: seq<Event>, fs: seq<Event>)
    requires ValidRun(c, s, es) && ValidRun(c, After(c, s, es), fs)
    ensures ValidRun(c, s, es + fs) && After(c, s, es + fs) == After(c, After(c, s, es), fs)
    decreases |es|
  {
    ConcatTail(es, fs);
    if es != [] {
      RunConcat(c, Apply(c, s, es[0]), es[1..], fs);
    }
  }

  lemma ReachesSelf(c: Config, s: State)
    ensures Reaches(c, s, s)
  {
    assert ValidRun(c, s, []) && After(c, s, []) == s;
  }

  lemma ReachesStep(c: Config, s: State, t: State, e: Event)
    requires Reaches(c, s, t) && Enabled(c, t, e)
    ensures Reaches(c, s, Apply(c, t, e))
  {
    var es :| ValidRun(c, s, es) && After(c, s, es) == t;
    var u := Apply(c, t, e);
    assert [e][1..] == [];
    assert ValidRun(c, u, []) && After(c, u, []) == u;
    assert ValidRun(c, t, [e]) && After(c, t, [e]) == Apply(c, t, e);
    RunConcat(c, s, es, [e]);
  }
}
