/** Does the sender always get on? At QoS 1 yes; at QoS 2 it parks on a full
    window without draining the PUBREL channel, and the states in which nothing
    can move any more are characterised exactly. */
module Progress {
  import opened Mqtt
  import opened PublisherModel
  import opened PublisherInvariants
  import opened BrokerModel
  import opened BrokerTheorems

  predicate InLoop(w: Writer) {
    Sending(w) || w == Draining(Loop) || w.Checking? || (w.Releasing? && w.stage.Loop?)
  }

  predicate Undisturbed(s: State) {
    InLoop(s.writer) && !s.stop && !s.closed && !s.reader.Leaving? && !s.trace.writeFailed
  }

  /** The sending phase: no stop, no failure, quota not met. */
  predicate Unfinished(c: Config, y: System) {
    SystemInv(c, y) && c.window >= 1 && Undisturbed(y.client) && !QuotaMet(c, y.client.sent)
  }

  /** Steps that advance some message: everything but failures, stop requests,
      the end of the connection and the bare passage of time. */
  predicate Advances(c: Config, s: State, e: Event) {
    match e
    case Tick(now) => s.writer.Pacing? && !DeadlinePassed(c, s.sent, s.clock) && DeadlinePassed(c, s.sent, now)
    case PubrelFailed => false
    case PublishFailed => false
    case ReadEnd(_) => false
    case StopRequest => false
    case _ => true
  }

  predicate ProgressStep(c: Config, y: System, e: SystemEvent) {
    && CanStep(c, y, e) && InLoop(y.client.writer) && !y.client.stop && !QuotaMet(c, y.client.sent)
    && (e.Client? ==> Advances(c, y.client, e.event))
  }

  ghost predicate Quiescent(c: Config, y: System) {
    forall e :: !ProgressStep(c, y, e)
  }

  /** The writer waits on an exhausted window (some of it possibly lost to reused
      identifiers) and every outstanding message waits for its PUBREL. */
  predicate Deadlocked(c: Config, y: System) {
    && c.qos.ExactlyOnce? && y.client.writer.Acquiring?
    && |y.client.inFlight| + y.client.trace.overwritten == c.window
    && forall id :: id in y.client.inFlight ==> id in y.client.channel
  }

  // ---- states in which something can advance ----

  predicate Parked(s: State) {
    s.writer.Acquiring? && s.permits == 0
  }

  /** The step that advances the writer from its current point in the loop. */
  function WriterAdvance(c: Config, s: State): Event {
    match s.writer
    case Draining(_) => if s.channel == [] then Move(Checking) else PopPubrel
    case Releasing(_, _) => PubrelWritten
    case Checking => Move(Pacing)
    case Pacing =>
      var d := Deadline(c, s.sent);
      if DeadlinePassed(c, s.sent, s.clock) then Move(Acquiring) else Tick(Max(s.clock, d.value))
    case Acquiring => Acquire
    case Holding => Stamp
    case Stamped(_, _) => Insert
    case Writing(_) => PublishWritten
    case Written(_) => Count
    case _ => Forget
  }

  lemma WriterCanAdvance(c: Config, s: State)
    requires InLoop(s.writer) && !s.stop && !s.closed && !QuotaMet(c, s.sent) && !c.qos.AtMostOnce? && !Parked(s)
    ensures var e := WriterAdvance(c, s); Enabled(c, s, e) && Advances(c, s, e) && !e.Receive?
  {
  }

  lemma WriterAdvances(c: Config, y: System)
    requires Unfinished(c, y) && !Parked(y.client)
    ensures ProgressStep(c, y, Client(WriterAdvance(c, y.client)))
  {
    WriterCanAdvance(c, y.client);
  }

  /** The step that advances the read side or the links, if they hold anything. */
  function LinkAdvance(y: System): SystemEvent {
    if y.toBroker != [] then BrokerRead
    else if y.client.reader.Returning? then Client(Return)
    else if y.client.reader.Handling? then
      if Terminal(y.client.reader.packet) then Client(Complete) else Client(Queue)
    else if y.toClient != [] then Client(Receive(y.toClient[0]))
    else BrokerRead
  }

  predicate LinksEmpty(y: System) {
    y.toBroker == [] && y.toClient == [] && y.client.reader.Reading?
  }

  lemma HandlingAdvances(c: Config, y: System)
    requires Unfinished(c, y) && y.client.reader.Handling?
    ensures ProgressStep(c, y, if Terminal(y.client.reader.packet) then Client(Complete) else Client(Queue))
  {
    AnswersAreExpected(c, y);
  }

  lemma LinksAdvance(c: Config, y: System)
    requires Unfinished(c, y) && !LinksEmpty(y)
    ensures ProgressStep(c, y, LinkAdvance(y))
  {
    if y.client.reader.Handling? {
      HandlingAdvances(c, y);
    }
  }

  /** The answer the broker owes to `id`. */
  function Reply(c: Config, y: System, id: PacketId): Packet {
    if c.qos.AtLeastOnce? then Puback(id, SUCCESS)
    else if id in y.unacked then Pubrec(id, SUCCESS)
    else Pubcomp(id, SUCCESS)
  }

  predicate Owes(y: System, id: PacketId) {
    id in y.unacked || id in y.released
  }

  lemma BrokerAdvances(c: Config, y: System, id: PacketId)
    requires Unfinished(c, y) && Owes(y, id)
    ensures ProgressStep(c, y, Answer(Reply(c, y, id)))
  {
  }

  /** Nothing on the links or in the read side's hands, and nothing owed. */
  predicate Settled(y: System) {
    LinksEmpty(y) && forall id: PacketId :: !Owes(y, id)
  }

  lemma FullWindow(c: Config, s: State)
    requires Inv(c, s) && Intact(s) && Parked(s) && s.reader.Reading? && c.window >= 1
    ensures |s.inFlight| + s.trace.overwritten == c.window && |s.inFlight| >= 1
  {
  }

  /** In a settled state an outstanding message can only be in the PUBREL channel. */
  lemma SettledEntryIsQueued(c: Config, y: System, id: PacketId)
    requires TokenInv(c, y) && Intact(y.client) && y.client.writer.Acquiring? && Settled(y)
    requires id in y.client.inFlight
    ensures id in y.client.channel
  {
    assert TokensFit(y, id) && !Owes(y, id);
    assert AwaitingFirst(y, id) == 0 && AwaitingPubcomp(y, id) == 0;
  }

  lemma SettledMeansDeadlocked(c: Config, y: System)
    requires Unfinished(c, y) && Parked(y.client) && Settled(y)
    ensures Deadlocked(c, y)
  {
    FullWindow(c, y.client);
    forall id | id in y.client.inFlight ensures id in y.client.channel {
      SettledEntryIsQueued(c, y, id);
    }
    assert |y.client.inFlight.Keys| >= 1;
  }

  lemma UnlessStuckSomethingAdvances(c: Config, y: System)
    requires Unfinished(c, y) && !(Deadlocked(c, y) && Settled(y))
    ensures exists e :: ProgressStep(c, y, e)
  {
    if !Parked(y.client) {
      WriterAdvances(c, y);
    } else if !LinksEmpty(y) {
      LinksAdvance(c, y);
    } else if id: PacketId :| Owes(y, id) {
      BrokerAdvances(c, y, id);
    } else {
      SettledMeansDeadlocked(c, y);
      assert false;
    }
  }

  lemma DeadlockedClientWaits(c: Config, s: State)
    requires Inv(c, s) && !Returned(s) && |s.inFlight| + s.trace.overwritten == c.window
    ensures s.permits == 0 && !s.reader.Returning?
  {
  }

  lemma SettledAllowsNoAnswer(c: Config, y: System, p: Packet)
    requires Settled(y)
    ensures !AnswerAllowed(c, y, p)
  {
    if p.Puback? || p.Pubrec? || p.Pubcomp? {
      assert !Owes(y, p.id);
    }
  }

  lemma SettledDeadlockIsQuiescent(c: Config, y: System)
    requires Unfinished(c, y) && Deadlocked(c, y) && Settled(y)
    ensures Quiescent(c, y)
  {
    DeadlockedClientWaits(c, y.client);
    forall e ensures !ProgressStep(c, y, e) {
      if e.Answer? { SettledAllowsNoAnswer(c, y, e.packet); }
    }
  }

  /** Before stop, the states in which nothing can advance are exactly the QoS 2
      states with an exhausted window, every outstanding id in the PUBREL channel
      and nothing in transit. */
  lemma StuckIffDeadlocked(c: Config, y: System)
    requires Unfinished(c, y)
    ensures Quiescent(c, y) <==> Deadlocked(c, y) && Settled(y)
  {
    if Deadlocked(c, y) && Settled(y) {
      SettledDeadlockIsQuiescent(c, y);
    } else {
      UnlessStuckSomethingAdvances(c, y);
    }
  }

  lemma DeadlockedOwesNothing(c: Config, y: System, id: PacketId)
    requires Unfinished(c, y) && Deadlocked(c, y) && y.client.trace.overwritten == 0
    ensures AwaitingFirst(y, id) == 0 && AwaitingPubcomp(y, id) == 0
  {
    assert TokensFit(y, id);
    if id in y.client.inFlight {
      assert id in y.client.channel;
    }
  }

  /** Until an identifier is reused, a deadlock leaves nothing in transit: the full
      window and the channel alone decide. */
  lemma DeadlockedIsSettled(c: Config, y: System)
    requires Unfinished(c, y) && Deadlocked(c, y) && y.client.trace.overwritten == 0
    ensures Settled(y) && Quiescent(c, y)
  {
    DeadlockedClientWaits(c, y.client);
    if y.toBroker != [] {
      assert y.toBroker[0] in y.toBroker;
      DeadlockedOwesNothing(c, y, y.toBroker[0].id);
      assert false;
    }
    if y.toClient != [] {
      assert y.toClient[0] in y.toClient;
      DeadlockedOwesNothing(c, y, y.toClient[0].id);
      assert false;
    }
    if y.client.reader.Handling? {
      DeadlockedOwesNothing(c, y, y.client.reader.packet.id);
      assert false;
    }
    forall id: PacketId ensures !Owes(y, id) {
      DeadlockedOwesNothing(c, y, id);
    }
    SettledDeadlockIsQuiescent(c, y);
  }

  /** At QoS 1 the sender can always advance, whatever identifiers were reused. */
  lemma Qos1NeverStuck(c: Config, y: System)
    requires c.qos.AtLeastOnce? && Unfinished(c, y)
    ensures exists e :: ProgressStep(c, y, e)
  {
    UnlessStuckSomethingAdvances(c, y);
  }

  // ---- progress runs are finite ----

  function WriterWeight(c: Config, s: State): nat {
    match s.writer
    case Draining(_) => 30
    case Releasing(_, _) => 38
    case Checking => 29
    case Pacing => if DeadlinePassed(c, s.sent, s.clock) then 27 else 28
    case Acquiring => 26
    case Holding => 25
    case Stamped(_, _) => 24
    case Writing(_) => 17
    case Written(_) => 2
    case Counted(_) => 1
    case _ => 0
  }

  function InWeight(p: Packet): nat {
    if p.Puback? || p.Pubrec? then 11 else 5
  }

  function OutWeight(o: Out): nat {
    match o
    case OutPublish(_, _) => 13
    case OutPubrel(_) => 7
    case OutDisconnect => 1
  }

  function ReaderWeight(r: Reader): nat {
    match r
    case Handling(p) => InWeight(p) - 1
    case Returning(_, _) => 1
    case _ => 0
  }

  function InSum(ps: seq<Packet>): nat {
    if ps == [] then 0 else InWeight(ps[0]) + InSum(ps[1..])
  }

  function OutSum(os: seq<Out>): nat {
    if os == [] then 0 else OutWeight(os[0]) + OutSum(os[1..])
  }

  lemma {:induction false} InSumAppend(ps: seq<Packet>, p: Packet)
    ensures InSum(ps + [p]) == InSum(ps) + InWeight(p)
  {
    if ps == [] {
      assert (ps + [p])[1..] == [];
    } else {
      assert (ps + [p])[1..] == ps[1..] + [p];
      InSumAppend(ps[1..], p);
    }
  }

  lemma {:induction false} OutSumAppend(os: seq<Out>, o: Out)
    ensures OutSum(os + [o]) == OutSum(os) + OutWeight(o)
  {
    if os == [] {
      assert (os + [o])[1..] == [];
    } else {
      assert (os + [o])[1..] == os[1..] + [o];
      OutSumAppend(os[1..], o);
    }
  }

  /** What the two tasks still have to do before the quota is met. */
  function ClientWork(c: Config, s: State): int
    requires c.quota.Some?
  {
    40 * (c.quota.value - s.sent) + WriterWeight(c, s) + ReaderWeight(s.reader) + 9 * |s.channel|
  }

  function LinkWork(y: System): nat {
    OutSum(y.toBroker) + 12 * |y.unacked| + InSum(y.toClient) + 6 * |y.released|
  }

  function Work(c: Config, y: System): int
    requires c.quota.Some?
  {
    ClientWork(c, y.client) + LinkWork(y)
  }

  /** Work a client step adds to the links (a packet written) or takes (read). */
  function Transfer(c: Config, s: State, e: Event): int
    requires Enabled(c, s, e)
  {
    if TouchesWire(e) then OutWeight(OnWire(c, s, e)) else if e.Receive? then 0 - InWeight(e.packet) else 0
  }

  lemma WriterSpends(c: Config, s: State, e: Event)
    requires c.quota.Some? && Enabled(c, s, e) && InLoop(s.writer) && Advances(c, s, e)
    requires !ReaderSide(e) && !EnvSide(e)
    ensures ClientWork(c, WriterStep(c, s, e)) + Transfer(c, s, e) < ClientWork(c, s)
  {
  }

  lemma ReaderSpends(c: Config, s: State, e: Event)
    requires c.quota.Some? && Enabled(c, s, e) && Advances(c, s, e) && (ReaderSide(e) || EnvSide(e))
    requires !e.Close? && !Ignored(s)
    ensures ClientWork(c, Apply(c, s, e)) + Transfer(c, s, e) < ClientWork(c, s)
  {
  }

  predicate Ignored(s: State) {
    s.reader.Handling? && !(s.reader.packet.Puback? || s.reader.packet.Pubrec? || s.reader.packet.Pubcomp?)
  }

  lemma BrokerSpends(c: Config, y: System, e: SystemEvent)
    requires CanStep(c, y, e) && !e.Client?
    ensures Step(c, y, e).client == y.client && LinkWork(Step(c, y, e)) < LinkWork(y)
  {
    if e.Answer? {
      InSumAppend(y.toClient, e.packet);
    }
  }

  lemma EveryStepSpends(c: Config, y: System, e: SystemEvent)
    requires c.quota.Some? && SystemInv(c, y) && Undisturbed(y.client) && ProgressStep(c, y, e)
    ensures Work(c, Step(c, y, e)) < Work(c, y)
    ensures 0 <= Work(c, y)
  {
    if e.Client? {
      var ev := e.event;
      if ReaderSide(ev) || EnvSide(ev) { ReaderSpends(c, y.client, ev); } else { WriterSpends(c, y.client, ev); }
      if TouchesWire(ev) { OutSumAppend(y.toBroker, OnWire(c, y.client, ev)); }
    } else {
      BrokerSpends(c, y, e);
    }
  }

  lemma ProgressStaysUndisturbed(c: Config, y: System, e: SystemEvent)
    requires Undisturbed(y.client) && ProgressStep(c, y, e)
    ensures Undisturbed(Step(c, y, e).client)
  {
    if e.Client? {
      var s, ev := y.client, e.event;
      if ReaderSide(ev) || EnvSide(ev) {
        ReaderFrame(c, s, ev);
      } else {
        WriterStaysInLoop(c, s, ev);
      }
    }
  }

  lemma WriterStaysInLoop(c: Config, s: State, e: Event)
    requires Undisturbed(s) && !QuotaMet(c, s.sent) && Enabled(c, s, e) && !ReaderSide(e) && !EnvSide(e)
    requires Advances(c, s, e)
    ensures Undisturbed(WriterStep(c, s, e))
  {
  }

  ghost predicate ProgressRun(c: Config, y: System, es: seq<SystemEvent>)
    decreases |es|
  {
    es == [] || (ProgressStep(c, y, es[0]) && ProgressRun(c, Step(c, y, es[0]), es[1..]))
  }

  /** However the steps are scheduled, progress ends within a bound fixed by the
      starting state, and it ends with the quota met or in a QoS 2 deadlock. */
  lemma {:induction false} ProgressEnds(c: Config, y: System, es: seq<SystemEvent>)
    requires c.quota.Some? && c.window >= 1 && SystemInv(c, y) && Undisturbed(y.client) && ProgressRun(c, y, es)
    ensures SystemRun(c, y, es) && |es| <= Work(c, y)
    ensures var z := EndOf(c, y, es);
            && SystemInv(c, z) && Undisturbed(z.client)
            && (Quiescent(c, z) ==> QuotaMet(c, z.client.sent) || (Deadlocked(c, z) && Settled(z)))
    decreases |es|
  {
    if es == [] {
      assert 0 <= Work(c, y);
      if !QuotaMet(c, y.client.sent) { StuckIffDeadlocked(c, y); }
    } else {
      EveryStepSpends(c, y, es[0]);
      SystemStepInv(c, y, es[0]);
      ProgressStaysUndisturbed(c, y, es[0]);
      ProgressEnds(c, Step(c, y, es[0]), es[1..]);
    }
  }

  /** At QoS 1, a broker that answers every PUBLISH gets the whole quota, for every
      window and every quota. */
  lemma Qos1MeetsQuota(c: Config, es: seq<SystemEvent>)
    requires c.qos.AtLeastOnce? && c.quota.Some? && c.window >= 1 && ProgressRun(c, Start(c), es)
    ensures SystemRun(c, Start(c), es) && |es| <= 40 * c.quota.value + 30
    ensures Quiescent(c, EndOf(c, Start(c), es)) ==>
              EndOf(c, Start(c), es).client.counters.published == c.quota.value
  {
    StartInv(c);
    ProgressEnds(c, Start(c), es);
  }

  /** The publisher inside the system is the publisher of every other theorem. */
  lemma {:induction false} ClientRuns(c: Config, s: State, y: System, es: seq<SystemEvent>)
    requires SystemRun(c, y, es) && Reaches(c, s, y.client)
    ensures Reaches(c, s, EndOf(c, y, es).client)
    decreases |es|
  {
    if es != [] {
      if es[0].Client? {
        ReachesStep(c, s, y.client, es[0].event);
      }
      ClientRuns(c, s, Step(c, y, es[0]), es[1..]);
    }
  }
}
