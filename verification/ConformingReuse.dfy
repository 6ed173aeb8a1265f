/** Identifier reuse against a conforming broker: one that answers everything it is
    asked, correctly, and merely takes its time over one message. */
module ConformingReuse {
  import opened Mqtt
  import opened PublisherModel
  import opened PublisherInvariants
  import opened PublisherIds
  import opened PublisherTheorems
  import opened BrokerModel
  import opened BrokerTheorems
  import opened Progress
  import opened Deadlock

  /** `t` is `s` with the message `id` completed and nothing else changed that the
      next message depends on. */
  predicate Freed(s: State, t: State, id: PacketId) {
    && t.writer == s.writer && t.reader.Reading? && t.permits == s.permits + 1 && t.inFlight == s.inFlight - {id}
    && SameOtherwise(s, t)
  }

  predicate SameOtherwise(s: State, t: State) {
    && t.channel == s.channel && t.closed == s.closed && t.stop == s.stop && t.sent == s.sent
    && t.trace.overwritten == s.trace.overwritten && t.trace.writeFailed == s.trace.writeFailed
  }

  // ---- one complete exchange ----

  lemma ReceiveOne(c: Config, y: System, p: Packet) returns (es: seq<SystemEvent>, z: System)
    requires y.toClient == [p] && y.client.reader.Reading?
    ensures SystemRun(c, y, es) && EndOf(c, y, es) == z
    ensures z == y.(client := y.client.(reader := Handling(p)), toClient := [])
  {
    SystemExtend(c, y, [], Client(Receive(p)));
    es, z := [] + [Client(Receive(p))], ClientStep(c, y, Receive(p));
  }

  lemma CompleteAndReturn(c: Config, y: System, p: Packet) returns (es: seq<SystemEvent>, z: System)
    requires y.client.reader == Handling(p) && Terminal(p) && p.id in y.client.inFlight
    ensures SystemRun(c, y, es) && EndOf(c, y, es) == z
    ensures z == y.(client := z.client) && Freed(y.client, z.client, p.id)
  {
    SystemExtend(c, y, [], Client(Complete));
    SystemExtend(c, y, [] + [Client(Complete)], Client(Return));
    es := [] + [Client(Complete)] + [Client(Return)];
    z := EndOf(c, y, es);
  }

  /** The read side handles the one terminal acknowledgement on the link. */
  lemma HandleTerminal(c: Config, y: System, p: Packet) returns (es: seq<SystemEvent>, z: System)
    requires y.toClient == [p] && Terminal(p) && p.id in y.client.inFlight && y.client.reader.Reading?
    ensures SystemRun(c, y, es) && EndOf(c, y, es) == z
    ensures z == y.(client := z.client, toClient := []) && Freed(y.client, z.client, p.id)
  {
    var fs, u := ReceiveOne(c, y, p);
    var gs, v := CompleteAndReturn(c, u, p);
    SystemConcat(c, y, fs, gs);
    es, z := fs + gs, v;
  }

  /** The read side queues the one accepted PUBREC on the link. */
  lemma HandlePubrec(c: Config, y: System, p: Packet) returns (es: seq<SystemEvent>, z: System)
    requires y.toClient == [p] && AcceptedPubrec(p) && y.client.reader.Reading? && y.client.channel == []
    requires !Returned(y.client)
    ensures SystemRun(c, y, es) && EndOf(c, y, es) == z
    ensures z == y.(client := z.client, toClient := [])
    ensures z.client == y.client.(channel := [p.id], trace := z.client.trace)
    ensures SameOtherwise(y.client.(channel := [p.id]), z.client)
  {
    var fs, u := ReceiveOne(c, y, p);
    SystemExtend(c, y, fs, Client(Queue));
    es, z := fs + [Client(Queue)], ClientStep(c, u, Queue);
  }

  /** The write side, at its loop top, releases the one queued identifier. */
  lemma ReleaseQueued(c: Config, y: System, id: PacketId) returns (es: seq<SystemEvent>, z: System)
    requires y.client.writer == Draining(Loop) && y.client.channel == [id] && y.toBroker == []
    ensures SystemRun(c, y, es) && EndOf(c, y, es) == z
    ensures z == y.(client := z.client, toBroker := [OutPubrel(id)])
    ensures z.client == y.client.(channel := [], trace := z.client.trace)
    ensures SameOtherwise(y.client.(channel := []), z.client)
  {
    es := [];
    SystemExtend(c, y, es, Client(PopPubrel));
    es := es + [Client(PopPubrel)];
    SystemExtend(c, y, es, Client(PubrelWritten));
    es := es + [Client(PubrelWritten)];
    z := EndOf(c, y, es);
  }

  lemma AnswerPubrel(c: Config, y: System, id: PacketId) returns (es: seq<SystemEvent>, z: System)
    requires c.qos.ExactlyOnce? && y.toBroker == [OutPubrel(id)] && y.toClient == []
    ensures SystemRun(c, y, es) && EndOf(c, y, es) == z
    ensures z == y.(toBroker := [], toClient := [Pubcomp(id, SUCCESS)])
  {
    var p := Pubcomp(id, SUCCESS);
    SystemExtend(c, y, [], BrokerRead);
    SystemExtend(c, y, [] + [BrokerRead], Answer(p));
    es, z := [] + [BrokerRead] + [Answer(p)], SendAnswer(ReadOne(y), p);
    assert y.released + multiset{id} - multiset{id} == y.released;
  }

  /** A PUBLISH just written and nothing else on the links. */
  predicate JustSent(y: System, id: PacketId, k: nat) {
    && y.toBroker == [OutPublish(id, k)] && y.toClient == [] && y.client.reader.Reading?
    && y.client.writer == Draining(Loop) && y.client.channel == [] && id in y.client.inFlight
  }

  lemma Qos1Exchange(c: Config, y: System, id: PacketId, k: nat) returns (es: seq<SystemEvent>, z: System)
    requires c.qos.AtLeastOnce? && JustSent(y, id, k)
    ensures SystemRun(c, y, es) && EndOf(c, y, es) == z
    ensures z == y.(client := z.client, toBroker := []) && Freed(y.client, z.client, id)
  {
    var fs, u := AnswerPublish(c, y, k, Puback(id, SUCCESS));
    var gs, v := HandleTerminal(c, u, Puback(id, SUCCESS));
    SystemConcat(c, y, fs, gs);
    es, z := fs + gs, v;
  }

  /** PUBLISH, PUBREC, up to the PUBREL on the wire. */
  lemma Qos2FirstHalf(c: Config, y: System, id: PacketId, k: nat) returns (es: seq<SystemEvent>, z: System)
    requires c.qos.ExactlyOnce? && JustSent(y, id, k)
    ensures SystemRun(c, y, es) && EndOf(c, y, es) == z
    ensures z == y.(client := z.client, toBroker := [OutPubrel(id)])
    ensures z.client == y.client.(trace := z.client.trace) && SameOtherwise(y.client, z.client)
  {
    var fs, u := AnswerPublish(c, y, k, Pubrec(id, SUCCESS));
    var gs, v := HandlePubrec(c, u, Pubrec(id, SUCCESS));
    SystemConcat(c, y, fs, gs);
    var hs, w := ReleaseQueued(c, v, id);
    SystemConcat(c, y, fs + gs, hs);
    es, z := fs + gs + hs, w;
  }

  lemma Qos2Exchange(c: Config, y: System, id: PacketId, k: nat) returns (es: seq<SystemEvent>, z: System)
    requires c.qos.ExactlyOnce? && JustSent(y, id, k)
    ensures SystemRun(c, y, es) && EndOf(c, y, es) == z
    ensures z == y.(client := z.client, toBroker := []) && Freed(y.client, z.client, id)
  {
    var fs, u := Qos2FirstHalf(c, y, id, k);
    var gs, v := AnswerPubrel(c, u, id);
    SystemConcat(c, y, fs, gs);
    var hs, w := HandleTerminal(c, v, Pubcomp(id, SUCCESS));
    SystemConcat(c, y, fs + gs, hs);
    es, z := fs + gs + hs, w;
  }

  // ---- every message but the first is completed ----

  /** k messages sent; all are complete except the first, which the broker has read
      and not answered yet. */
  predicate FirstWithheld(c: Config, y: System, k: nat) {
    && SystemInv(c, y) && AtLoopTop(c, y.client, k)
    && y.toBroker == [] && y.toClient == [] && y.unacked == multiset{IdOf(0)} && y.released == multiset{}
  }

  predicate AtLoopTop(c: Config, s: State, k: nat) {
    && s.writer == Draining(Loop) && s.reader.Reading? && s.channel == [] && !s.closed && !s.stop
    && s.sent == k && s.permits + 1 == c.window && IdOf(0) in s.inFlight
    && s.trace.overwritten == 0 && !s.trace.writeFailed
  }

  lemma StartCanSend(c: Config)
    requires !c.qos.AtMostOnce? && c.window >= 1 && QuotaAbove(c, 0)
    ensures SystemInv(c, Start(c)) && CanSend(c, Start(c).client)
  {
    StartInv(c);
  }

  lemma ReadPublish(c: Config, y: System, id: PacketId, k: nat) returns (es: seq<SystemEvent>, z: System)
    requires SystemInv(c, y) && y.toBroker == [OutPublish(id, k)]
    ensures SystemRun(c, y, es) && EndOf(c, y, es) == z && SystemInv(c, z)
    ensures z == y.(toBroker := [], unacked := y.unacked + multiset{id})
  {
    SystemExtend(c, y, [], BrokerRead);
    es, z := [] + [BrokerRead], ReadOne(y);
    SystemRunInv(c, y, es);
  }

  lemma SendFirst(c: Config) returns (es: seq<SystemEvent>, z: System)
    requires !c.qos.AtMostOnce? && c.window >= 2 && QuotaAbove(c, 0)
    ensures SystemRun(c, Start(c), es) && EndOf(c, Start(c), es) == z && FirstWithheld(c, z, 1)
  {
    StartCanSend(c);
    var fs, u := SendOneToBroker(c, Start(c), 0);
    var gs, v := ReadPublish(c, u, IdOf(0), 0);
    SystemConcat(c, Start(c), fs, gs);
    es, z := fs + gs, v;
    FirstIsWithheld(c, u.client, z);
  }

  lemma FirstIsWithheld(c: Config, s: State, z: System)
    requires SentOne(Init(c), s) && s.trace.overwritten == 0 && !s.trace.writeFailed && SystemInv(c, z)
    requires z == System(s, [], multiset{IdOf(0)}, multiset{}, [])
    ensures FirstWithheld(c, z, 1)
  {
  }

  lemma CompleteOne(c: Config, y: System, id: PacketId, k: nat) returns (es: seq<SystemEvent>, z: System)
    requires !c.qos.AtMostOnce? && SystemInv(c, y) && JustSent(y, id, k)
    ensures SystemRun(c, y, es) && EndOf(c, y, es) == z && SystemInv(c, z)
    ensures z == y.(client := z.client, toBroker := []) && Freed(y.client, z.client, id)
  {
    if c.qos.AtLeastOnce? {
      es, z := Qos1Exchange(c, y, id, k);
    } else {
      es, z := Qos2Exchange(c, y, id, k);
    }
    SystemRunInv(c, y, es);
  }

  lemma WithheldCanSend(c: Config, y: System, k: nat)
    requires c.window >= 2 && QuotaAbove(c, k) && FirstWithheld(c, y, k)
    ensures CanSend(c, y.client)
  {
  }

  lemma SendAndCompleteOne(c: Config, y: System, k: nat) returns (es: seq<SystemEvent>, z: System)
    requires c.window >= 2 && 1 <= k < ID_COUNT && QuotaAbove(c, k) && FirstWithheld(c, y, k)
    ensures SystemRun(c, y, es) && EndOf(c, y, es) == z && FirstWithheld(c, z, k + 1)
  {
    WithheldCanSend(c, y, k);
    var fs, u := SendOneToBroker(c, y, k);
    SameIdMeansWholeCycles(0, k);
    assert JustSent(u, IdOf(k), k) && IdOf(0) in u.client.inFlight;
    var gs, v := CompleteOne(c, u, IdOf(k), k);
    SystemConcat(c, y, fs, gs);
    es, z := fs + gs, v;
  }

  lemma {:induction false} WithholdFirst(c: Config, k: nat) returns (es: seq<SystemEvent>, z: System)
    requires !c.qos.AtMostOnce? && c.window >= 2 && 1 <= k <= ID_COUNT && QuotaAbove(c, k - 1)
    ensures SystemRun(c, Start(c), es) && EndOf(c, Start(c), es) == z && FirstWithheld(c, z, k)
  {
    if k == 1 {
      es, z := SendFirst(c);
    } else {
      var fs, u := WithholdFirst(c, k - 1);
      var gs, v := SendAndCompleteOne(c, u, k - 1);
      SystemConcat(c, Start(c), fs, gs);
      es, z := fs + gs, v;
    }
  }

  /** The 65536th message takes the identifier of the first, still unanswered. */
  lemma SlowAnswerForcesReuse(c: Config) returns (z: System)
    requires !c.qos.AtMostOnce? && c.window >= 2 && QuotaAbove(c, ID_COUNT)
    ensures SystemReachable(c, z) && z.client.trace.overwritten > 0
  {
    var fs, u := WithholdFirst(c, ID_COUNT);
    SameIdMeansWholeCycles(0, ID_COUNT);
    WithheldCanSend(c, u, ID_COUNT);
    var gs, t := SendOne(c, u.client);
    var hs, v := Lift(c, u, gs);
    SystemConcat(c, Start(c), fs, hs);
    z := v;
  }

  // ---- the exact settings ----

  lemma SystemClientReachable(c: Config, y: System)
    requires SystemReachable(c, y)
    ensures Reachable(c, y.client)
  {
    var es :| SystemRun(c, Start(c), es) && EndOf(c, Start(c), es) == y;
    ReachesSelf(c, Init(c));
    ClientRuns(c, Init(c), Start(c), es);
  }

  /** Even against a conforming broker, some run reuses an outstanding identifier
      exactly when two messages can be in flight and 65536 are to be sent. */
  lemma ConformingReuseIff(c: Config)
    requires !c.qos.AtMostOnce?
    ensures (exists y :: SystemReachable(c, y) && y.client.trace.overwritten > 0)
            <==> c.window >= 2 && QuotaAbove(c, ID_COUNT)
  {
    if c.window >= 2 && QuotaAbove(c, ID_COUNT) {
      var z := SlowAnswerForcesReuse(c);
    } else {
      forall y | SystemReachable(c, y) ensures y.client.trace.overwritten == 0 {
        SystemClientReachable(c, y);
        NarrowOrShortNeverReuses(c, y.client);
      }
    }
  }

  /** A broker free to send anything reaches reuse for the very same settings. */
  lemma ReuseIffTwoInFlight(c: Config)
    requires !c.qos.AtMostOnce?
    ensures (exists s :: Reachable(c, s) && s.trace.overwritten > 0)
            <==> c.window >= 2 && QuotaAbove(c, ID_COUNT)
  {
    if c.window >= 2 && QuotaAbove(c, ID_COUNT) {
      var z := SlowAnswerForcesReuse(c);
      SystemClientReachable(c, z);
    } else {
      forall s | Reachable(c, s) ensures s.trace.overwritten == 0 {
        NarrowOrShortNeverReuses(c, s);
      }
    }
  }

  // ---- permits returned twice against a conforming broker ----

  /** While the writer is in its loop, no write has failed. */
  predicate LoopUnfailed(s: State) {
    InLoop(s.writer) ==> !s.trace.writeFailed
  }

  lemma StepKeepsUnfailed(c: Config, s: State, e: Event)
    requires LoopUnfailed(s) && Enabled(c, s, e)
    ensures LoopUnfailed(Apply(c, s, e))
  {
    if ReaderSide(e) || EnvSide(e) { ReaderFrame(c, s, e); }
  }

  lemma OnlyFailuresAddSurplus(c: Config, s: State, e: Event)
    requires Enabled(c, s, e) && !e.PublishFailed?
    ensures Apply(c, s, e).trace.surplus == s.trace.surplus
  {
    if ReaderSide(e) || EnvSide(e) { ReaderMakesNoSurplus(c, s, e); }
  }

  predicate NoSurplusYet(c: Config, y: System) {
    SystemInv(c, y) && LoopUnfailed(y.client) && (y.client.trace.overwritten == 0 ==> y.client.trace.surplus == 0)
  }

  lemma ClientKeepsNoSurplus(c: Config, y: System, e: Event)
    requires NoSurplusYet(c, y) && CanStep(c, y, Client(e)) && Apply(c, y.client, e).trace.overwritten == 0
    ensures Apply(c, y.client, e).trace.surplus == 0
  {
    OverwritesIffStale(c, y.client, e);
    if e.PublishFailed? {
      assert TokensFit(y, y.client.writer.id);
    } else {
      OnlyFailuresAddSurplus(c, y.client, e);
    }
  }

  lemma {:induction false} RunKeepsNoSurplus(c: Config, y: System, es: seq<SystemEvent>)
    requires NoSurplusYet(c, y) && SystemRun(c, y, es)
    ensures NoSurplusYet(c, EndOf(c, y, es))
    decreases |es|
  {
    if es != [] {
      SystemStepInv(c, y, es[0]);
      var z := Step(c, y, es[0]);
      if es[0].Client? {
        StepKeepsUnfailed(c, y.client, es[0].event);
        if z.client.trace.overwritten == 0 { ClientKeepsNoSurplus(c, y, es[0].event); }
      }
      RunKeepsNoSurplus(c, z, es[1..]);
    }
  }

  lemma NoReuseNoSurplus(c: Config, y: System)
    requires !c.qos.AtMostOnce? && SystemReachable(c, y) && y.client.trace.overwritten == 0
    ensures PermitsAccounted(y.client) <= c.window
  {
    var es :| SystemRun(c, Start(c), es) && EndOf(c, Start(c), es) == y;
    StartInv(c);
    RunKeepsNoSurplus(c, Start(c), es);
  }

  /** The 65536th message is in the map, in the place of the first, and not yet
      on the wire. */
  predicate Replacing(c: Config, y: System) {
    && SystemInv(c, y) && y.client.writer == Writing(IdOf(0)) && y.client.reader.Reading?
    && IdOf(0) in y.client.inFlight && y.toClient == [] && IdOf(0) in y.unacked
  }

  lemma ReplaceFirst(c: Config) returns (es: seq<SystemEvent>, z: System)
    requires !c.qos.AtMostOnce? && c.window >= 2 && QuotaAbove(c, ID_COUNT)
    ensures SystemRun(c, Start(c), es) && EndOf(c, Start(c), es) == z && Replacing(c, z)
  {
    var fs, u := WithholdFirst(c, ID_COUNT);
    var gs, v := InsertReplacement(c, u);
    SystemConcat(c, Start(c), fs, gs);
    es, z := fs + gs, v;
  }

  lemma InsertReplacement(c: Config, y: System) returns (es: seq<SystemEvent>, z: System)
    requires c.window >= 2 && QuotaAbove(c, ID_COUNT) && FirstWithheld(c, y, ID_COUNT)
    ensures SystemRun(c, y, es) && EndOf(c, y, es) == z && Replacing(c, z)
  {
    SameIdMeansWholeCycles(0, ID_COUNT);
    WithheldCanSend(c, y, ID_COUNT);
    es, z := InsertOne(c, y);
    SystemRunInv(c, y, es);
  }

  lemma InsertOne(c: Config, y: System) returns (es: seq<SystemEvent>, z: System)
    requires CanSend(c, y.client)
    ensures SystemRun(c, y, es) && EndOf(c, y, es) == z
    ensures z == y.(client := z.client, toBroker := z.toBroker) && z.client.reader == y.client.reader
    ensures z.client.writer == Writing(IdOf(y.client.sent)) && IdOf(y.client.sent) in z.client.inFlight
  {
    var fs, s := TakePermit(c, y.client);
    var gs, t := Launch(c, s);
    RunConcat(c, y.client, fs, gs);
    es, z := Lift(c, y, fs + gs);
  }

  /** An answer that ends the first message, delivered and handled. */
  lemma FinishFirst(c: Config, y: System) returns (es: seq<SystemEvent>, z: System)
    requires Replacing(c, y)
    ensures SystemRun(c, y, es) && EndOf(c, y, es) == z
    ensures z.client.writer == y.client.writer && IdOf(0) !in z.client.inFlight
  {
    var p := if c.qos.AtLeastOnce? then Puback(IdOf(0), SUCCESS) else Pubrec(IdOf(0), 0x80);
    SystemExtend(c, y, [], Answer(p));
    var u := SendAnswer(y, p);
    assert u.toClient == [p];
    var gs, v := HandleTerminal(c, u, p);
    SystemConcat(c, y, [] + [Answer(p)], gs);
    es, z := [] + [Answer(p)] + gs, v;
  }

  lemma FinishAndFail(c: Config, y: System) returns (es: seq<SystemEvent>, z: System)
    requires Replacing(c, y)
    ensures SystemRun(c, y, es) && EndOf(c, y, es) == z && PermitsAccounted(z.client) == c.window + 1
  {
    var fs, u := FinishFirst(c, y);
    SystemRunInv(c, y, fs);
    PermitReturnedTwiceIff(c, u.client);
    SystemExtend(c, y, fs, Client(PublishFailed));
    es, z := fs + [Client(PublishFailed)], ClientStep(c, u, PublishFailed);
  }

  /** The first message's answer takes the entry of the one being written, whose
      write then fails. */
  lemma LateAnswerReturnsTwice(c: Config) returns (z: System)
    requires !c.qos.AtMostOnce? && c.window >= 2 && QuotaAbove(c, ID_COUNT)
    ensures SystemReachable(c, z) && PermitsAccounted(z.client) == c.window + 1
  {
    var fs, u := ReplaceFirst(c);
    var gs, v := FinishAndFail(c, u);
    SystemConcat(c, Start(c), fs, gs);
    z := v;
  }

  /** Against a conforming broker a permit can be returned twice exactly when an
      identifier can be reused. */
  lemma ConformingSurplusIff(c: Config)
    requires !c.qos.AtMostOnce?
    ensures (exists y :: SystemReachable(c, y) && PermitsAccounted(y.client) > c.window)
            <==> c.window >= 2 && QuotaAbove(c, ID_COUNT)
  {
    if c.window >= 2 && QuotaAbove(c, ID_COUNT) {
      var z := LateAnswerReturnsTwice(c);
    } else {
      forall y | SystemReachable(c, y) ensures PermitsAccounted(y.client) <= c.window {
        SystemClientReachable(c, y);
        NarrowOrShortNeverReuses(c, y.client);
        NoReuseNoSurplus(c, y);
      }
    }
  }
}
