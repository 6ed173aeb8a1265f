/** For which settings the QoS 2 deadlock really happens, and how a stop request
    resolves it. */
module Deadlock {
  import opened Mqtt
  import opened PublisherModel
  import opened PublisherInvariants
  import opened PublisherIds
  import opened BrokerModel
  import opened BrokerTheorems
  import opened Progress

  // ---- building system runs ----

  lemma SystemConcatTail(es: seq<SystemEvent>, fs: seq<SystemEvent>)
    ensures es == [] ==> es + fs == fs
    ensures es != [] ==> es + fs != [] && (es + fs)[0] == es[0] && (es + fs)[1..] == es[1..] + fs
  {
  }

  lemma {:induction false} SystemConcat(c: Config, y: System, es: seq<SystemEvent>, fs: seq<SystemEvent>)
    requires SystemRun(c, y, es) && SystemRun(c, EndOf(c, y, es), fs)
    ensures SystemRun(c, y, es + fs) && EndOf(c, y, es + fs) == EndOf(c, EndOf(c, y, es), fs)
    decreases |es|
  {
    SystemConcatTail(es, fs);
    if es != [] {
      SystemConcat(c, Step(c, y, es[0]), es[1..], fs);
    }
  }

  lemma SystemExtend(c: Config, y: System, es: seq<SystemEvent>, e: SystemEvent)
    requires SystemRun(c, y, es) && CanStep(c, EndOf(c, y, es), e)
    ensures SystemRun(c, y, es + [e]) && EndOf(c, y, es + [e]) == Step(c, EndOf(c, y, es), e)
  {
    var z := EndOf(c, y, es);
    assert [e][1..] == [];
    assert SystemRun(c, Step(c, z, e), []);
    assert SystemRun(c, z, [e]);
    SystemConcat(c, y, es, [e]);
  }

  lemma WireGrowth(c: Config, s: State, e: Event)
    requires Enabled(c, s, e) && !ReaderSide(e)
    ensures Apply(c, s, e).trace.wire == s.trace.wire + if TouchesWire(e) then [OnWire(c, s, e)] else []
  {
    if EnvSide(e) { ReaderFrame(c, s, e); }
    else if !TouchesWire(e) { WireFrame(c, s, e); }
  }

  /** One step of the write side: what it puts on the wire is on the link. */
  lemma LiftStep(c: Config, y: System, e: Event)
    requires Enabled(c, y.client, e) && !ReaderSide(e)
    ensures var y' := ClientStep(c, y, e);
            && y' == y.(client := Apply(c, y.client, e), toBroker := y'.toBroker)
            && y.client.trace.wire <= y'.client.trace.wire
            && y'.toBroker == y.toBroker + y'.client.trace.wire[|y.client.trace.wire|..]
  {
    WireGrowth(c, y.client, e);
    if !TouchesWire(e) { assert y.toBroker + [] == y.toBroker; }
  }

  /** A run of the write side alone is a run of the system; what it puts on the
      wire is what the broker will read. */
  lemma {:induction false} Lift(c: Config, y: System, es: seq<Event>) returns (fs: seq<SystemEvent>, z: System)
    requires ValidRun(c, y.client, es) && forall e :: e in es ==> !ReaderSide(e)
    ensures SystemRun(c, y, fs) && EndOf(c, y, fs) == z
    ensures z.client == After(c, y.client, es) && z == y.(client := z.client, toBroker := z.toBroker)
    ensures y.client.trace.wire <= z.client.trace.wire
    ensures z.toBroker == y.toBroker + z.client.trace.wire[|y.client.trace.wire|..]
    decreases |es|
  {
    if es == [] {
      fs, z := [], y;
    } else {
      assert es[0] in es;
      LiftStep(c, y, es[0]);
      var y' := ClientStep(c, y, es[0]);
      var gs, z' := Lift(c, y', es[1..]);
      fs, z := [Client(es[0])] + gs, z';
      assert fs[1..] == gs;
      SuffixSplit(y.client.trace.wire, y'.client.trace.wire, z.client.trace.wire, y.toBroker);
    }
  }

  lemma SuffixSplit(a: seq<Out>, b: seq<Out>, w: seq<Out>, link: seq<Out>)
    requires a <= b <= w
    ensures link + b[|a|..] + w[|b|..] == link + w[|a|..]
  {
    assert w[|a|..] == b[|a|..] + w[|b|..];
  }

  // ---- filling the window with accepted, unreleased messages ----

  /** k messages sent; the broker has accepted each with a PUBREC the read side
      has not read yet; nothing else is pending anywhere. */
  predicate Accepted(c: Config, y: System, k: nat) {
    && SystemInv(c, y) && y.client.reader.Reading? && y.client.channel == []
    && !y.client.closed && !y.client.stop && y.client.sent == k && y.client.permits + k == c.window
    && y.client.trace.overwritten == 0 && !y.client.trace.writeFailed
    && y.toBroker == [] && y.unacked == multiset{} && y.released == multiset{}
    && (forall p :: p in y.toClient ==> AcceptedPubrec(p))
  }

  lemma FreshInFirstCycle(c: Config, s: State)
    requires !c.qos.AtMostOnce? && IdsCyclic(c, s) && s.writer == Draining(Loop) && s.sent < ID_COUNT
    ensures IdOf(s.sent) !in s.inFlight
  {
    if IdOf(s.sent) in s.inFlight {
      assert EntryPlaced(s, IdOf(s.sent));
      SameIdMeansWholeCycles(s.inFlight[IdOf(s.sent)].born, s.sent);
      assert false;
    }
  }

  lemma SendOneToBroker(c: Config, y: System, k: nat) returns (es: seq<SystemEvent>, z: System)
    requires CanSend(c, y.client) && y.client.sent == k < ID_COUNT && y.toBroker == [] && SystemInv(c, y)
    requires y.client.trace.overwritten == 0 && !y.client.trace.writeFailed
    ensures SystemRun(c, y, es) && EndOf(c, y, es) == z && SystemInv(c, z)
    ensures SentOne(y.client, z.client) && z.client.trace.overwritten == 0 && !z.client.trace.writeFailed
    ensures z == y.(client := z.client, toBroker := [OutPublish(IdOf(k), k)])
  {
    FreshInFirstCycle(c, y.client);
    var fs, t := SendOne(c, y.client);
    es, z := Lift(c, y, fs);
    SuffixOf(y.client.trace.wire, OutPublish(IdOf(k), k));
    SystemRunInv(c, y, es);
  }

  lemma SuffixOf(wire: seq<Out>, o: Out)
    ensures [] + (wire + [o])[|wire|..] == [o]
  {
  }

  /** The broker reads the one packet on the link and answers it. */
  lemma AnswerPublish(c: Config, y: System, k: nat, p: Packet) returns (es: seq<SystemEvent>, z: System)
    requires if c.qos.ExactlyOnce? then p.Pubrec? else c.qos.AtLeastOnce? && p.Puback?
    requires y.toBroker == [OutPublish(p.id, k)]
    ensures SystemRun(c, y, es) && EndOf(c, y, es) == z
    ensures z == y.(toBroker := [], toClient := y.toClient + [p])
  {
    SystemExtend(c, y, [], BrokerRead);
    SystemExtend(c, y, [] + [BrokerRead], Answer(p));
    es, z := [] + [BrokerRead] + [Answer(p)], SendAnswer(ReadOne(y), p);
    assert y.unacked + multiset{p.id} - multiset{p.id} == y.unacked;
  }

  lemma AcceptOne(c: Config, y: System, k: nat) returns (es: seq<SystemEvent>, z: System)
    requires c.qos.ExactlyOnce? && k < c.window <= ID_COUNT && QuotaAbove(c, k)
    requires Accepted(c, y, k) && y.client.writer == Draining(Loop)
    ensures SystemRun(c, y, es) && EndOf(c, y, es) == z
    ensures Accepted(c, z, k + 1) && z.client.writer == Draining(Loop)
  {
    AcceptedCanSend(c, y, k);
    var fs, u := SendOneToBroker(c, y, k);
    var gs, v := AnswerPublish(c, u, k, Pubrec(IdOf(k), SUCCESS));
    SystemConcat(c, y, fs, gs);
    SystemRunInv(c, u, gs);
    es, z := fs + gs, v;
    AcceptedNext(c, y, z, k);
  }

  lemma AcceptedCanSend(c: Config, y: System, k: nat)
    requires k < c.window && QuotaAbove(c, k) && Accepted(c, y, k) && y.client.writer == Draining(Loop)
    ensures CanSend(c, y.client)
  {
  }

  lemma AcceptedNext(c: Config, y: System, z: System, k: nat)
    requires Accepted(c, y, k) && SystemInv(c, z) && SentOne(y.client, z.client)
    requires z.client.trace.overwritten == 0 && !z.client.trace.writeFailed
    requires z == y.(client := z.client, toClient := y.toClient + [Pubrec(IdOf(k), SUCCESS)])
    ensures Accepted(c, z, k + 1) && z.client.writer == Draining(Loop)
  {
  }

  lemma {:induction false} AcceptMany(c: Config, k: nat) returns (es: seq<SystemEvent>, z: System)
    requires c.qos.ExactlyOnce? && k <= c.window <= ID_COUNT && (k > 0 ==> QuotaAbove(c, k - 1))
    ensures SystemRun(c, Start(c), es) && EndOf(c, Start(c), es) == z
    ensures Accepted(c, z, k) && z.client.writer == Draining(Loop)
  {
    if k == 0 {
      StartInv(c);
      es, z := [], Start(c);
    } else {
      var fs, u := AcceptMany(c, k - 1);
      var gs, v := AcceptOne(c, u, k - 1);
      SystemConcat(c, Start(c), fs, gs);
      es, z := fs + gs, v;
    }
  }

  /** The writer parks while the PUBRECs are still on their way. */
  lemma Park(c: Config, y: System) returns (es: seq<SystemEvent>, z: System)
    requires c.qos.ExactlyOnce? && QuotaAbove(c, c.window) && Accepted(c, y, c.window)
    requires y.client.writer == Draining(Loop)
    ensures SystemRun(c, y, es) && EndOf(c, y, es) == z
    ensures Accepted(c, z, c.window) && z.client.writer.Acquiring?
  {
    var fs, t := ReachWindow(c, y.client);
    es, z := Lift(c, y, fs);
    SystemRunInv(c, y, es);
  }

  /** The read side hands every PUBREC to a writer that no longer looks. */
  lemma {:induction false} DeliverPubrecs(c: Config, y: System) returns (es: seq<SystemEvent>, z: System)
    requires c.qos.ExactlyOnce? && SystemInv(c, y) && y.client.writer.Acquiring? && y.client.reader.Reading?
    requires forall p :: p in y.toClient ==> AcceptedPubrec(p)
    ensures SystemRun(c, y, es) && EndOf(c, y, es) == z && SystemInv(c, z)
    ensures z.toClient == [] && z.client.reader.Reading? && z == y.(client := z.client, toClient := [])
    ensures z.client == y.client.(channel := z.client.channel, trace := z.client.trace)
    ensures z.client.trace.overwritten == y.client.trace.overwritten
    ensures z.client.trace.writeFailed == y.client.trace.writeFailed
    decreases |y.toClient|
  {
    if y.toClient == [] {
      es, z := [], y;
    } else {
      var p := y.toClient[0];
      assert p in y.toClient;
      SystemExtend(c, y, [], Client(Receive(p)));
      SystemExtend(c, y, [] + [Client(Receive(p))], Client(Queue));
      var fs := [] + [Client(Receive(p))] + [Client(Queue)];
      var u := EndOf(c, y, fs);
      SystemRunInv(c, y, fs);
      var gs, v := DeliverPubrecs(c, u);
      SystemConcat(c, y, fs, gs);
      es, z := fs + gs, v;
    }
  }

  lemma DeadlockHappens(c: Config) returns (z: System)
    requires c.qos.ExactlyOnce? && 1 <= c.window <= ID_COUNT && QuotaAbove(c, c.window)
    ensures SystemReachable(c, z) && Unfinished(c, z) && Deadlocked(c, z) && Settled(z)
  {
    var fs, u := FillAndPark(c);
    var gs, v := Wedge(c, u);
    SystemConcat(c, Start(c), fs, gs);
    z := v;
  }

  lemma FillAndPark(c: Config) returns (es: seq<SystemEvent>, z: System)
    requires c.qos.ExactlyOnce? && 1 <= c.window <= ID_COUNT && QuotaAbove(c, c.window)
    ensures SystemRun(c, Start(c), es) && EndOf(c, Start(c), es) == z
    ensures Accepted(c, z, c.window) && z.client.writer.Acquiring?
  {
    var fs, u := AcceptMany(c, c.window);
    var gs, v := Park(c, u);
    SystemConcat(c, Start(c), fs, gs);
    es, z := fs + gs, v;
  }

  lemma Wedge(c: Config, y: System) returns (es: seq<SystemEvent>, z: System)
    requires c.qos.ExactlyOnce? && 1 <= c.window && QuotaAbove(c, c.window)
    requires Accepted(c, y, c.window) && y.client.writer.Acquiring?
    ensures SystemRun(c, y, es) && EndOf(c, y, es) == z
    ensures Unfinished(c, z) && Deadlocked(c, z) && Settled(z)
  {
    es, z := DeliverPubrecs(c, y);
    assert Unfinished(c, z) && Parked(z.client) && Settled(z);
    SettledMeansDeadlocked(c, z);
  }

  /** A QoS 2 publisher can wedge exactly when it has more messages to send than
      fit in its window; with quota <= window it never does. */
  lemma DeadlockIffQuotaExceedsWindow(c: Config)
    requires c.qos.ExactlyOnce? && 1 <= c.window <= ID_COUNT
    ensures (exists y :: SystemReachable(c, y) && Unfinished(c, y) && Quiescent(c, y)) <==> QuotaAbove(c, c.window)
  {
    if QuotaAbove(c, c.window) {
      var z := DeadlockHappens(c);
      StuckIffDeadlocked(c, z);
    } else {
      forall y | SystemReachable(c, y) && Unfinished(c, y) ensures !Quiescent(c, y) {
        StuckIffDeadlocked(c, y);
        if Deadlocked(c, y) {
          ParkedNeedsMoreQuota(c, y.client);
          assert false;
        }
      }
    }
  }

  lemma ParkedNeedsMoreQuota(c: Config, s: State)
    requires !c.qos.AtMostOnce? && Inv(c, s) && s.writer.Acquiring?
    requires |s.inFlight| + s.trace.overwritten == c.window
    ensures QuotaAbove(c, c.window)
  {
  }

  /** At QoS 2 a publisher whose quota fits its window gets the whole quota, however
      the steps are scheduled. */
  lemma Qos2MeetsQuotaWithinWindow(c: Config, es: seq<SystemEvent>)
    requires c.qos.ExactlyOnce? && c.quota.Some? && c.window >= 1 && c.quota.value <= c.window
    requires ProgressRun(c, Start(c), es)
    ensures SystemRun(c, Start(c), es) && |es| <= 40 * c.quota.value + 30
    ensures Quiescent(c, EndOf(c, Start(c), es)) ==>
              EndOf(c, Start(c), es).client.counters.published == c.quota.value
  {
    StartInv(c);
    ProgressEnds(c, Start(c), es);
    var z := EndOf(c, Start(c), es);
    if Deadlocked(c, z) {
      ParkedNeedsMoreQuota(c, z.client);
      assert false;
    }
  }

  // ---- a stop request resolves it ----

  function PubrelPackets(ids: seq<PacketId>): seq<Out> {
    if ids == [] then [] else [OutPubrel(ids[0])] + PubrelPackets(ids[1..])
  }

  lemma ReleaseHead(c: Config, s: State) returns (es: seq<Event>, t: State)
    requires s.writer == Draining(Tail) && s.channel != []
    ensures ValidRun(c, s, es) && After(c, s, es) == t
    ensures t.channel == s.channel[1..] && t.writer == Draining(Tail)
    ensures t.trace.wire == s.trace.wire + [OutPubrel(s.channel[0])]
    ensures t.inFlight == s.inFlight && t.trace.writeFailed == s.trace.writeFailed
  {
    Extend(c, s, [], PopPubrel);
    Extend(c, s, [] + [PopPubrel], PubrelWritten);
    es := [] + [PopPubrel] + [PubrelWritten];
    t := After(c, s, es);
  }

  lemma HeadFirst(wire: seq<Out>, ids: seq<PacketId>)
    requires ids != []
    ensures wire + [OutPubrel(ids[0])] + PubrelPackets(ids[1..]) == wire + PubrelPackets(ids)
  {
    assert wire + [OutPubrel(ids[0])] + PubrelPackets(ids[1..])
        == wire + ([OutPubrel(ids[0])] + PubrelPackets(ids[1..]));
  }

  lemma {:induction false} DrainTail(c: Config, s: State) returns (es: seq<Event>, t: State)
    requires s.writer == Draining(Tail)
    ensures ValidRun(c, s, es) && After(c, s, es) == t
    ensures t.channel == [] && t.writer == Draining(Tail) && t.trace.wire == s.trace.wire + PubrelPackets(s.channel)
    ensures t.inFlight == s.inFlight && !t.trace.writeFailed == !s.trace.writeFailed
    decreases |s.channel|
  {
    if s.channel == [] {
      es, t := [], s;
    } else {
      var fs, u := ReleaseHead(c, s);
      var gs, v := DrainTail(c, u);
      HeadFirst(s.trace.wire, s.channel);
      RunConcat(c, s, fs, gs);
      es, t := fs + gs, v;
    }
  }

  lemma EnterTail(c: Config, s: State) returns (es: seq<Event>, t: State)
    requires s.writer.Acquiring? && !c.qos.AtMostOnce? && s.inFlight != map[]
    ensures ValidRun(c, s, es) && After(c, s, es) == t
    ensures t == s.(writer := Draining(Tail), stop := true)
  {
    es := [];
    Extend(c, s, es, StopRequest);
    es := es + [StopRequest];
    Extend(c, s, es, Move(TailCheck));
    es := es + [Move(TailCheck)];
    Extend(c, s, es, Move(Draining(Tail)));
    es := es + [Move(Draining(Tail))];
    t := After(c, s, es);
  }

  /** A stop request opens the way to the tail loop, which can write the PUBREL of
      every outstanding message, in the order accepted. */
  lemma StopReachesTail(c: Config, y: System) returns (es: seq<Event>, t: State)
    requires Unfinished(c, y) && Deadlocked(c, y)
    ensures ValidRun(c, y.client, es) && After(c, y.client, es) == t
    ensures t.channel == [] && t.trace.wire == y.client.trace.wire + PubrelPackets(y.client.channel)
    ensures t.inFlight == y.client.inFlight
  {
    assert |y.client.inFlight| >= 1;
    var fs, u := EnterTail(c, y.client);
    var gs, v := DrainTail(c, u);
    RunConcat(c, y.client, fs, gs);
    es, t := fs + gs, v;
  }

  // ---- the tail finishes every exchange ----

  /** With nothing in transit, nothing queued and no write in hand, nothing is
      outstanding: the tail's wait is over. It holds even after reuse. */
  lemma NothingInTransitMeansDone(c: Config, y: System)
    requires TokenInv(c, y) && Intact(y.client) && Settled(y) && y.client.channel == []
    requires !y.client.writer.Writing? && !y.client.writer.Releasing?
    ensures y.client.inFlight == map[]
  {
    forall id: PacketId ensures id !in y.client.inFlight {
      assert TokensFit(y, id) && !Owes(y, id);
    }
  }

  /** What the tail, the links and the broker can do towards the end of an exchange. */
  predicate Finishes(c: Config, y: System, e: SystemEvent) {
    && CanStep(c, y, e)
    && match e
       case Client(ev) =>
         || ev.PopPubrel? || ev.PubrelWritten? || ev.Receive? || ev.Complete? || ev.Queue? || ev.Return?
         || (ev == Move(Draining(Tail)) && y.client.channel != [])
       case _ => true
  }

  /** In the tail, as long as a message is outstanding and no write has failed, some
      step towards its completion is possible: QoS 2 does not wedge there. */
  lemma TailNeverStuck(c: Config, y: System)
    requires SystemInv(c, y) && Intact(y.client) && !y.client.reader.Leaving? && !y.client.reader.Ended?
    requires y.client.writer == TailCheck || y.client.writer == Draining(Tail)
             || (y.client.writer.Releasing? && y.client.writer.stage.Tail?)
    requires y.client.inFlight != map[]
    ensures exists e :: Finishes(c, y, e)
  {
    var s := y.client;
    if !LinksEmpty(y) {
      LinksFinish(c, y);
    } else if id: PacketId :| Owes(y, id) {
      OwedFinishes(c, y, id);
    } else if s.writer.Releasing? {
      assert Finishes(c, y, Client(PubrelWritten));
    } else {
      if s.channel == [] {
        NothingInTransitMeansDone(c, y);
        assert false;
      }
      assert Finishes(c, y, Client(if s.writer == TailCheck then Move(Draining(Tail)) else PopPubrel));
    }
  }

  lemma LinksFinish(c: Config, y: System)
    requires SystemInv(c, y) && Intact(y.client) && !LinksEmpty(y)
    requires !y.client.reader.Leaving? && !y.client.reader.Ended?
    ensures exists e :: Finishes(c, y, e)
  {
    if y.toBroker != [] {
      assert Finishes(c, y, BrokerRead);
    } else if y.client.reader.Returning? {
      assert Finishes(c, y, Client(Return));
    } else if y.client.reader.Handling? {
      HandlingFinishes(c, y);
    } else {
      assert Finishes(c, y, Client(Receive(y.toClient[0])));
    }
  }

  lemma HandlingFinishes(c: Config, y: System)
    requires SystemInv(c, y) && Intact(y.client) && y.client.reader.Handling?
    ensures exists e :: Finishes(c, y, e)
  {
    AnswersAreExpected(c, y);
    assert Finishes(c, y, Client(if Terminal(y.client.reader.packet) then Complete else Queue));
  }

  lemma OwedFinishes(c: Config, y: System, id: PacketId)
    requires SystemInv(c, y) && Owes(y, id)
    ensures exists e :: Finishes(c, y, e)
  {
    assert Finishes(c, y, Answer(Reply(c, y, id)));
  }

  // ---- no run leaves for good without releasing what it owed ----

  predicate Gone(w: Writer) {
    w.Disconnecting? || w.Joining? || w.Done?
  }

  /** PUBRELs written, then those still to write, in order. */
  function Releases(s: State): seq<PacketId> {
    Pubrels(s.trace.wire) + HeldPubrel(s) + s.channel
  }

  /** `ids` are, in order, the first PUBRELs this publisher writes before it leaves,
      unless a write fails or the window is closed under it. */
  predicate WillRelease(s: State, ids: seq<PacketId>) {
    || s.trace.writeFailed || s.windowClosed
    || ids <= (if Gone(s.writer) then Pubrels(s.trace.wire) else Releases(s))
  }

  lemma PopKeepsReleases(c: Config, s: State)
    requires Enabled(c, s, PopPubrel)
    ensures Releases(WriterStep(c, s, PopPubrel)) == Releases(s)
  {
    var id, rest := s.channel[0], s.channel[1..];
    assert s.channel == [id] + rest && HeldPubrel(s) == [];
    assert Pubrels(s.trace.wire) + [] + ([id] + rest) == Pubrels(s.trace.wire) + [id] + rest;
  }

  lemma PubrelWriteKeepsReleases(c: Config, s: State)
    requires Enabled(c, s, PubrelWritten)
    ensures Releases(WriterStep(c, s, PubrelWritten)) == Releases(s)
  {
    WireAppend(s.trace.wire, OutPubrel(s.writer.id));
    assert Pubrels(s.trace.wire) + [s.writer.id] + [] == Pubrels(s.trace.wire) + [s.writer.id];
  }

  /** Every other write-side step keeps the PUBRELs; one that leaves has none left. */
  lemma WriterKeepsReleases(c: Config, s: State, e: Event)
    requires Enabled(c, s, e) && !ReaderSide(e) && !EnvSide(e) && !TouchesPubrels(e)
    ensures var t := WriterStep(c, s, e);
            && Pubrels(t.trace.wire) == Pubrels(s.trace.wire) && Releases(t) == Releases(s)
            && (s.windowClosed ==> t.windowClosed)
  {
    ChannelFrame(c, s, e);
    if e.PublishWritten? { WireAppend(s.trace.wire, OutPublish(s.writer.id, s.sent)); }
    else if e.SendDisconnect? { WireAppend(s.trace.wire, OutDisconnect); }
    else { WireFrame(c, s, e); }
  }

  lemma LeavingMeansDrained(c: Config, s: State, e: Event)
    requires Enabled(c, s, e) && !ReaderSide(e) && !EnvSide(e) && !TouchesPubrels(e)
    ensures var t := WriterStep(c, s, e);
            && (Gone(s.writer) ==> Gone(t.writer))
            && (Gone(t.writer) && !Gone(s.writer) ==>
                  t.trace.writeFailed || t.windowClosed || (s.writer.Draining? && s.channel == []))
  {
  }

  lemma WriterKeepsWillRelease(c: Config, s: State, e: Event, ids: seq<PacketId>)
    requires WillRelease(s, ids) && Enabled(c, s, e) && !ReaderSide(e) && !EnvSide(e) && !TouchesPubrels(e)
    ensures WillRelease(WriterStep(c, s, e), ids)
  {
    WriterKeepsReleases(c, s, e);
    LeavingMeansDrained(c, s, e);
    ChannelFrame(c, s, e);
    if s.writer.Draining? && s.channel == [] {
      assert Releases(s) == Pubrels(s.trace.wire);
    }
  }

  lemma ReaderKeepsWillRelease(c: Config, s: State, e: Event, ids: seq<PacketId>)
    requires WillRelease(s, ids) && Enabled(c, s, e) && (ReaderSide(e) || EnvSide(e))
    ensures WillRelease(Apply(c, s, e), ids)
  {
    ReaderFrame(c, s, e);
    ChannelOnlyGrows(c, s, e);
    var t := Apply(c, s, e);
    assert t.channel == s.channel + t.channel[|s.channel|..];
    assert Releases(t) == Releases(s) + t.channel[|s.channel|..];
  }

  lemma ChannelOnlyGrows(c: Config, s: State, e: Event)
    requires Enabled(c, s, e) && (ReaderSide(e) || EnvSide(e))
    ensures s.channel <= Apply(c, s, e).channel
  {
    if !e.Queue? { ReaderChannelFrame(c, s, e); }
  }

  lemma StepKeepsWillRelease(c: Config, s: State, e: Event, ids: seq<PacketId>)
    requires WillRelease(s, ids) && Enabled(c, s, e)
    ensures WillRelease(Apply(c, s, e), ids)
  {
    if e.PopPubrel? { PopKeepsReleases(c, s); }
    else if e.PubrelWritten? { PubrelWriteKeepsReleases(c, s); }
    else if ReaderSide(e) || EnvSide(e) { ReaderKeepsWillRelease(c, s, e, ids); }
    else if !e.PubrelFailed? { WriterKeepsWillRelease(c, s, e, ids); }
  }

  /** In every run, whatever was accepted by the time of any state `s` before the
      final disconnect has had its PUBREL written, in order, by the time the
      publisher disconnects, unless a write fails or the window is closed. */
  lemma {:induction false} TailReleasesEverything(c: Config, s: State, es: seq<Event>, ids: seq<PacketId>)
    requires WillRelease(s, ids) && ValidRun(c, s, es)
    ensures WillRelease(After(c, s, es), ids)
    decreases |es|
  {
    if es != [] {
      StepKeepsWillRelease(c, s, es[0], ids);
      TailReleasesEverything(c, Apply(c, s, es[0]), es[1..], ids);
    }
  }

  /** Every way out of a deadlock that is not a failed write or a closed window
      (that is, every way a stop request opens) first writes the PUBREL of every
      outstanding message. */
  lemma StopResolvesDeadlock(c: Config, y: System, es: seq<Event>)
    requires Unfinished(c, y) && Deadlocked(c, y) && ValidRun(c, y.client, es)
    ensures var s, t := y.client, After(c, y.client, es);
            Gone(t.writer) && !t.trace.writeFailed && !t.windowClosed ==>
              && Pubrels(s.trace.wire) + s.channel <= Pubrels(t.trace.wire)
              && forall id :: id in s.inFlight ==> id in Pubrels(t.trace.wire)[|Pubrels(s.trace.wire)|..]
  {
    var s, t := y.client, After(c, y.client, es);
    var ids := Pubrels(s.trace.wire) + s.channel;
    assert Releases(s) == ids;
    TailReleasesEverything(c, s, es, ids);
    if Gone(t.writer) && !t.trace.writeFailed && !t.windowClosed {
      SuffixHolds(Pubrels(s.trace.wire), s.channel, Pubrels(t.trace.wire));
    }
  }

  lemma SuffixHolds(written: seq<PacketId>, queued: seq<PacketId>, final: seq<PacketId>)
    requires written + queued <= final
    ensures forall id :: id in queued ==> id in final[|written|..]
  {
    forall id | id in queued ensures id in final[|written|..] {
      var k :| 0 <= k < |queued| && queued[k] == id;
      assert final[|written|..][k] == (written + queued)[|written| + k];
    }
  }
}
