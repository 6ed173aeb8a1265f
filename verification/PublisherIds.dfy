/** When a Packet Identifier can be reused while its message is outstanding
    (section 2.2.1 of MQTT v5.0): per step, per run, and for which settings. */
module PublisherIds {
  import opened Mqtt
  import opened PublisherModel
  import opened PublisherInvariants

  // ---- the exact condition, per step and per run ----

  /** Some message is outstanding although a whole cycle of identifiers has
      been allocated since. */
  ghost predicate Stale(s: State) {
    exists id :: id in s.inFlight && s.inFlight[id].born + ID_COUNT <= s.sent
  }

  lemma CollidesIffStale(c: Config, s: State)
    requires !c.qos.AtMostOnce? && IdsCyclic(c, s) && Enabled(c, s, Insert)
    ensures s.writer.id != 0
    ensures s.writer.id in s.inFlight <==> Stale(s)
  {
    var id := s.writer.id;
    if id in s.inFlight {
      assert EntryPlaced(s, id);
      SameIdMeansWholeCycles(s.inFlight[id].born, s.sent);
    }
    if Stale(s) {
      var aged :| aged in s.inFlight && s.inFlight[aged].born + ID_COUNT <= s.sent;
      assert EntryPlaced(s, aged);
      SameIdMeansWholeCycles(s.inFlight[aged].born, s.sent);
    }
  }

  ghost predicate NeverStale(c: Config, s: State, es: seq<Event>)
    requires ValidRun(c, s, es)
    decreases |es|
  {
    es == [] || ((es[0].Insert? ==> !Stale(s)) && NeverStale(c, Apply(c, s, es[0]), es[1..]))
  }

  lemma OverwritesIffStale(c: Config, s: State, e: Event)
    requires !c.qos.AtMostOnce? && IdsCyclic(c, s) && Enabled(c, s, e)
    ensures Apply(c, s, e).trace.overwritten == s.trace.overwritten + Bit(e.Insert? && Stale(s))
  {
    if e.Insert? { CollidesIffStale(c, s); } else { OnlyInsertOverwrites(c, s, e); }
  }

  /** Over any run and any number of wrap-arounds: no identifier is reused while
      outstanding if and only if no message ever outlives a whole cycle. */
  lemma {:induction false} UniqueIffNeverStale(c: Config, s: State, es: seq<Event>)
    requires !c.qos.AtMostOnce? && Inv(c, s) && ValidRun(c, s, es)
    ensures After(c, s, es).trace.overwritten >= s.trace.overwritten
    ensures After(c, s, es).trace.overwritten == s.trace.overwritten <==> NeverStale(c, s, es)
    decreases |es|
  {
    if es != [] {
      StepInv(c, s, es[0]);
      OverwritesIffStale(c, s, es[0]);
      UniqueIffNeverStale(c, Apply(c, s, es[0]), es[1..]);
    }
  }

  // ---- completion in send order ----

  /** The step removes no entry, or the oldest one. */
  predicate OldestFirst(s: State, e: Event) {
    e.Complete? && s.reader.Handling? && Terminal(s.reader.packet) && s.reader.packet.id in s.inFlight ==>
      forall id :: id in s.inFlight ==> s.inFlight[s.reader.packet.id].born <= s.inFlight[id].born
  }

  ghost predicate InOrderRun(c: Config, s: State, es: seq<Event>)
    decreases |es|
  {
    es == [] || (Enabled(c, s, es[0]) && OldestFirst(s, es[0]) && InOrderRun(c, Apply(c, s, es[0]), es[1..]))
  }

  lemma {:induction false} InOrderIsValid(c: Config, s: State, es: seq<Event>)
    requires InOrderRun(c, s, es)
    ensures ValidRun(c, s, es)
    decreases |es|
  {
    if es != [] {
      InOrderIsValid(c, Apply(c, s, es[0]), es[1..]);
    }
  }

  function Inserted(s: State): nat {
    s.sent + Bit(s.writer.Writing? || s.writer.Written? || s.writer.Counted?)
  }

  predicate At(m: map<PacketId, Entry>, b: nat) {
    IdOf(b) in m && m[IdOf(b)].born == b
  }

  /** The outstanding messages are the most recent of `n`, without a gap. */
  predicate Recent(m: map<PacketId, Entry>, n: nat) {
    && |m| <= n
    && (forall id :: id in m ==> n - |m| <= m[id].born < n && id == IdOf(m[id].born))
    && (forall b: nat :: n - |m| <= b < n ==> At(m, b))
  }

  predicate Contiguous(s: State) {
    Recent(s.inFlight, Inserted(s))
  }

  predicate InOrderInv(s: State) {
    s.trace.overwritten == 0 && (s.writer.Done? || Contiguous(s))
  }

  lemma AddNewest(m: map<PacketId, Entry>, n: nat, entry: Entry)
    requires Recent(m, n) && |m| < ID_COUNT && entry.born == n
    ensures IdOf(n) !in m && Recent(m[IdOf(n) := entry], n + 1)
  {
    if IdOf(n) in m {
      SameIdMeansWholeCycles(m[IdOf(n)].born, n);
      assert false;
    }
    AddingAKey(m, IdOf(n), entry);
    var m' := m[IdOf(n) := entry];
    forall b: nat | n - |m| <= b < n + 1 ensures At(m', b) {
      assert b < n ==> At(m, b);
    }
  }

  lemma RemoveOldest(m: map<PacketId, Entry>, n: nat, id: PacketId)
    requires Recent(m, n) && id in m && forall other :: other in m ==> m[id].born <= m[other].born
    ensures Recent(m - {id}, n)
  {
    RemovingAKey(m, id);
    var oldest: nat := n - |m|;
    assert At(m, oldest);
    var m' := m - {id};
    forall b: nat | oldest + 1 <= b < n ensures At(m', b) {
      assert At(m, b);
    }
    assert m[id].born == oldest && id == IdOf(oldest);
  }

  lemma RoomForOne(c: Config, s: State)
    requires !c.qos.AtMostOnce? && Ledger(c, s) && IdsCyclic(c, s) && s.writer.Stamped?
    ensures |s.inFlight| < c.window && s.writer.id == IdOf(s.sent) && s.writer.entry.born == s.sent
  {
  }

  lemma InsertEffect(c: Config, s: State)
    requires !c.qos.AtMostOnce? && Enabled(c, s, Insert)
    ensures var t := WriterStep(c, s, Insert);
            && t.inFlight == s.inFlight[s.writer.id := s.writer.entry] && Inserted(t) == Inserted(s) + 1
            && t.trace.overwritten == s.trace.overwritten + Bit(s.writer.id in s.inFlight)
  {
  }

  lemma InsertKeepsContiguous(c: Config, s: State)
    requires !c.qos.AtMostOnce? && c.window <= ID_COUNT && Inv(c, s) && InOrderInv(s) && Enabled(c, s, Insert)
    ensures s.writer.id !in s.inFlight
    ensures InOrderInv(WriterStep(c, s, Insert))
  {
    RoomForOne(c, s);
    AddNewest(s.inFlight, s.sent, s.writer.entry);
    InsertEffect(c, s);
  }

  lemma CompleteKeepsContiguous(c: Config, s: State)
    requires InOrderInv(s) && !s.writer.Done? && Enabled(c, s, Complete) && OldestFirst(s, Complete)
    ensures Contiguous(RemoveEntry(s, s.reader.packet))
  {
    var p := s.reader.packet;
    assert Inserted(RemoveEntry(s, p)) == Inserted(s);
    if p.id in s.inFlight {
      RemoveOldest(s.inFlight, Inserted(s), p.id);
      assert RemoveEntry(s, p).inFlight == s.inFlight - {p.id};
    } else {
      assert RemoveEntry(s, p).inFlight == s.inFlight;
    }
  }

  lemma OtherStepsKeepEntries(c: Config, s: State, e: Event)
    requires Enabled(c, s, e) && !e.Insert? && !e.Complete? && !e.PublishFailed?
    ensures Apply(c, s, e).inFlight == s.inFlight
  {
    match e
    case Return =>
    case _ =>
  }

  lemma OtherStepsKeepInserted(c: Config, s: State, e: Event)
    requires Enabled(c, s, e) && !e.Insert? && !e.PublishFailed?
    ensures s.writer.Done? ==> Apply(c, s, e).writer.Done?
    ensures !Apply(c, s, e).writer.Done? ==> Inserted(Apply(c, s, e)) == Inserted(s)
  {
    if ReaderSide(e) || EnvSide(e) { ReaderFrame(c, s, e); }
  }

  lemma InOrderStep(c: Config, s: State, e: Event)
    requires !c.qos.AtMostOnce? && c.window <= ID_COUNT && Inv(c, s) && InOrderInv(s)
    requires Enabled(c, s, e) && OldestFirst(s, e)
    ensures InOrderInv(Apply(c, s, e))
    ensures e.Insert? ==> s.writer.id !in s.inFlight
  {
    if e.Insert? {
      InsertKeepsContiguous(c, s);
    } else if e.PublishFailed? {
    } else {
      OnlyInsertOverwrites(c, s, e);
      OtherStepsKeepInserted(c, s, e);
      if e.Complete? {
        if !s.writer.Done? { CompleteKeepsContiguous(c, s); }
      } else {
        OtherStepsKeepEntries(c, s, e);
      }
    }
  }

  /** With the 65535 cap, completion in send order is enough for uniqueness. */
  lemma {:induction false} InOrderNeverCollides(c: Config, s: State, es: seq<Event>)
    requires !c.qos.AtMostOnce? && c.window <= ID_COUNT && Inv(c, s) && InOrderInv(s) && InOrderRun(c, s, es)
    ensures ValidRun(c, s, es) && After(c, s, es).trace.overwritten == 0
    decreases |es|
  {
    InOrderIsValid(c, s, es);
    if es != [] {
      StepInv(c, s, es[0]);
      InOrderStep(c, s, es[0]);
      InOrderNeverCollides(c, Apply(c, s, es[0]), es[1..]);
    }
  }

  // ---- runs that exhibit reuse ----

  /** The write side is at its loop top with a free permit and work to do. */
  predicate CanSend(c: Config, s: State) {
    && !c.qos.AtMostOnce? && Inv(c, s)
    && s.writer == Draining(Loop) && s.channel == [] && !s.closed && !s.stop
    && s.permits > 0 && !QuotaMet(c, s.sent)
  }

  /** `t` is `s` after one complete loop iteration: one more PUBLISH in flight. */
  ghost predicate SentOne(s: State, t: State) {
    && t.writer == Draining(Loop) && t.reader == s.reader && t.permits == s.permits - 1
    && t.closed == s.closed && t.stop == s.stop && t.channel == s.channel && t.sent == s.sent + 1
    && (exists at :: t.inFlight == s.inFlight[IdOf(s.sent) := Entry(at, s.sent)])
    && t.trace.overwritten == s.trace.overwritten + Bit(IdOf(s.sent) in s.inFlight)
    && t.trace.wire == s.trace.wire + [OutPublish(IdOf(s.sent), s.sent)]
    && t.trace.writeFailed == s.trace.writeFailed
  }

  lemma Extend(c: Config, s: State, es: seq<Event>, e: Event)
    requires ValidRun(c, s, es) && Enabled(c, After(c, s, es), e)
    ensures ValidRun(c, s, es + [e]) && After(c, s, es + [e]) == Apply(c, After(c, s, es), e)
  {
    var t := After(c, s, es);
    assert [e][1..] == [];
    assert ValidRun(c, Apply(c, t, e), []);
    assert ValidRun(c, t, [e]);
    RunConcat(c, s, es, [e]);
  }

  function WaitUntil(c: Config, s: State): (now: nat)
    ensures s.clock <= now && DeadlinePassed(c, s.sent, now)
  {
    var d := Deadline(c, s.sent);
    if d.Some? then Max(s.clock, d.value) else s.clock
  }

  /** Past the quota and stop tests, at an instant when the message is due. */
  lemma PassTests(c: Config, s: State) returns (es: seq<Event>, t: State)
    requires s.writer == Draining(Loop) && s.channel == [] && !s.stop && !QuotaMet(c, s.sent)
    ensures ValidRun(c, s, es) && After(c, s, es) == t
    ensures forall e :: e in es ==> !ReaderSide(e)
    ensures t == s.(writer := Pacing, clock := WaitUntil(c, s))
  {
    var now := WaitUntil(c, s);
    es := [];
    Extend(c, s, es, Tick(now));
    es := es + [Tick(now)];
    Extend(c, s, es, Move(Checking));
    es := es + [Move(Checking)];
    Extend(c, s, es, Move(Pacing));
    es := es + [Move(Pacing)];
    t := After(c, s, es);
  }

  /** From the loop top to the window, whether or not a permit is free. */
  lemma ReachWindow(c: Config, s: State) returns (es: seq<Event>, t: State)
    requires s.writer == Draining(Loop) && s.channel == [] && !s.stop && !QuotaMet(c, s.sent)
    ensures ValidRun(c, s, es) && After(c, s, es) == t
    ensures forall e :: e in es ==> !ReaderSide(e)
    ensures t == s.(writer := Acquiring, clock := WaitUntil(c, s))
  {
    var fs, u := PassTests(c, s);
    Extend(c, s, fs, Move(Acquiring));
    es, t := fs + [Move(Acquiring)], Apply(c, u, Move(Acquiring));
  }

  lemma TakePermit(c: Config, s: State) returns (es: seq<Event>, t: State)
    requires CanSend(c, s)
    ensures ValidRun(c, s, es) && After(c, s, es) == t
    ensures forall e :: e in es ==> !ReaderSide(e)
    ensures t == s.(writer := Holding, permits := s.permits - 1, clock := WaitUntil(c, s))
  {
    var fs, u := ReachWindow(c, s);
    Extend(c, s, fs, Acquire);
    es, t := fs + [Acquire], Apply(c, u, Acquire);
  }

  /** From a held permit to the message in the map. */
  lemma Launch(c: Config, s: State) returns (es: seq<Event>, t: State)
    requires !c.qos.AtMostOnce? && s.writer.Holding? && s.lastId == LastId(s.sent) && s.trace.allocs == s.sent
    ensures ValidRun(c, s, es) && After(c, s, es) == t
    ensures forall e :: e in es ==> !ReaderSide(e)
    ensures t == s.(writer := Writing(IdOf(s.sent)), lastId := IdOf(s.sent), trace := t.trace,
                    inFlight := s.inFlight[IdOf(s.sent) := Entry(s.clock, s.sent)])
    ensures t.trace.overwritten == s.trace.overwritten + Bit(IdOf(s.sent) in s.inFlight)
    ensures t.trace.wire == s.trace.wire && t.trace.writeFailed == s.trace.writeFailed
  {
    NextIdIsIdOf(s.sent);
    es := [];
    Extend(c, s, es, Stamp);
    es := es + [Stamp];
    Extend(c, s, es, Insert);
    es := es + [Insert];
    t := After(c, s, es);
  }

  /** From the map to the loop top, with the message on the wire. */
  lemma Emit(c: Config, s: State) returns (es: seq<Event>, t: State)
    requires s.writer.Writing?
    ensures ValidRun(c, s, es) && After(c, s, es) == t
    ensures forall e :: e in es ==> !ReaderSide(e)
    ensures t == s.(writer := Draining(Loop), sent := s.sent + 1, counters := t.counters, trace := t.trace)
    ensures t.trace == s.trace.(wire := s.trace.wire + [OutPublish(s.writer.id, s.sent)])
  {
    es := [];
    Extend(c, s, es, PublishWritten);
    es := es + [PublishWritten];
    Extend(c, s, es, Count);
    es := es + [Count];
    Extend(c, s, es, Forget);
    es := es + [Forget];
    t := After(c, s, es);
  }

  lemma PublishHeld(c: Config, s: State) returns (es: seq<Event>, t: State)
    requires !c.qos.AtMostOnce? && s.writer.Holding? && s.lastId == LastId(s.sent) && s.trace.allocs == s.sent
    ensures ValidRun(c, s, es) && After(c, s, es) == t
    ensures forall e :: e in es ==> !ReaderSide(e)
    ensures SentOne(s.(permits := s.permits + 1), t) && t.clock == s.clock
  {
    var fs, u := Launch(c, s);
    var gs, v := Emit(c, u);
    RunConcat(c, s, fs, gs);
    es, t := fs + gs, v;
  }

  lemma SendOne(c: Config, s: State) returns (es: seq<Event>, t: State)
    requires CanSend(c, s)
    ensures ValidRun(c, s, es) && After(c, s, es) == t
    ensures forall e :: e in es ==> !ReaderSide(e)
    ensures SentOne(s, t) && Inv(c, t) && t.clock == WaitUntil(c, s)
  {
    var fs, u := TakePermit(c, s);
    var gs, v := PublishHeld(c, u);
    RunConcat(c, s, fs, gs);
    es, t := fs + gs, v;
    RunInv(c, s, es);
  }

  lemma AckOne(c: Config, s: State, id: PacketId) returns (es: seq<Event>, t: State)
    requires s.reader.Reading? && id in s.inFlight
    ensures ValidRun(c, s, es) && After(c, s, es) == t
    ensures t.writer == s.writer && t.reader.Reading? && t.channel == s.channel && t.closed == s.closed
    ensures forall e :: e in es ==> !e.Insert?
    ensures t.stop == s.stop && t.sent == s.sent && t.permits == s.permits + 1 && t.inFlight == s.inFlight - {id}
  {
    var ack := if c.qos.ExactlyOnce? then Pubcomp(id, SUCCESS) else Puback(id, SUCCESS);
    es := [];
    Extend(c, s, es, Receive(ack));
    es := es + [Receive(ack)];
    Extend(c, s, es, Complete);
    es := es + [Complete];
    Extend(c, s, es, Return);
    es := es + [Return];
    t := After(c, s, es);
  }

  predicate QuotaAbove(c: Config, n: nat) {
    c.quota.None? || c.quota.value > n
  }

  /** k messages sent, none acknowledged. */
  predicate Unanswered(c: Config, s: State, k: nat) {
    && Inv(c, s) && s.writer == Draining(Loop) && s.reader.Reading? && s.channel == [] && !s.closed && !s.stop
    && s.sent == k && s.permits + k == c.window
    && (forall b: nat :: b < k ==> IdOf(b) in s.inFlight)
    && s.trace.overwritten >= Bit(k > ID_COUNT)
  }

  lemma SendOneUnanswered(c: Config, s: State, k: nat) returns (es: seq<Event>, t: State)
    requires !c.qos.AtMostOnce? && k < c.window && QuotaAbove(c, k) && Unanswered(c, s, k)
    ensures ValidRun(c, s, es) && After(c, s, es) == t
    ensures forall e :: e in es ==> !ReaderSide(e)
    ensures Unanswered(c, t, k + 1) && t.clock == WaitUntil(c, s)
  {
    es, t := SendOne(c, s);
    if k >= ID_COUNT {
      SameIdMeansWholeCycles(k - ID_COUNT, k);
    }
  }

  lemma {:induction false} SendUnanswered(c: Config, k: nat) returns (es: seq<Event>, t: State)
    requires !c.qos.AtMostOnce? && k <= c.window && (k > 0 ==> QuotaAbove(c, k - 1))
    ensures ValidRun(c, Init(c), es) && After(c, Init(c), es) == t
    ensures forall e :: e in es ==> !ReaderSide(e)
    ensures Unanswered(c, t, k)
  {
    if k == 0 {
      InitInv(c);
      es, t := [], Init(c);
    } else {
      var fs, u := SendUnanswered(c, k - 1);
      var gs, v := SendOneUnanswered(c, u, k - 1);
      RunConcat(c, Init(c), fs, gs);
      es, t := fs + gs, v;
    }
  }

  lemma {:induction false} NoCompletionIsInOrder(c: Config, s: State, es: seq<Event>)
    requires ValidRun(c, s, es) && forall e :: e in es ==> !ReaderSide(e)
    ensures InOrderRun(c, s, es)
    decreases |es|
  {
    if es != [] {
      assert es[0] in es;
      NoCompletionIsInOrder(c, Apply(c, s, es[0]), es[1..]);
    }
  }

  /** A publisher with at most 65535 messages to send never reuses one. */
  lemma {:induction false} ShortQuotaNeverStale(c: Config, s: State, es: seq<Event>)
    requires !c.qos.AtMostOnce? && !QuotaAbove(c, ID_COUNT) && Inv(c, s) && ValidRun(c, s, es)
    ensures NeverStale(c, s, es)
    decreases |es|
  {
    if es != [] {
      StepInv(c, s, es[0]);
      ShortQuotaNeverStale(c, Apply(c, s, es[0]), es[1..]);
    }
  }

  lemma ShortQuotaNeverCollides(c: Config, es: seq<Event>)
    requires !c.qos.AtMostOnce? && !QuotaAbove(c, ID_COUNT) && ValidRun(c, Init(c), es)
    ensures After(c, Init(c), es).trace.overwritten == 0
  {
    InitInv(c);
    ShortQuotaNeverStale(c, Init(c), es);
    UniqueIffNeverStale(c, Init(c), es);
  }

  /** With brokers that complete messages in send order, some run reuses an
      outstanding identifier exactly when the window exceeds 65535 (and there
      are enough messages to send): the source's cap is the largest safe one. */
  lemma InOrderReuseIffWindowTooWide(c: Config)
    requires !c.qos.AtMostOnce?
    ensures (exists es :: InOrderRun(c, Init(c), es) && ValidRun(c, Init(c), es)
                          && After(c, Init(c), es).trace.overwritten > 0)
            <==> c.window > ID_COUNT && QuotaAbove(c, ID_COUNT)
  {
    InitInv(c);
    if c.window > ID_COUNT && QuotaAbove(c, ID_COUNT) {
      var es, t := SendUnanswered(c, ID_COUNT + 1);
      NoCompletionIsInOrder(c, Init(c), es);
      assert InOrderRun(c, Init(c), es) && t.trace.overwritten > 0;
    } else {
      forall es | InOrderRun(c, Init(c), es) && ValidRun(c, Init(c), es)
        ensures After(c, Init(c), es).trace.overwritten == 0
      {
        if c.window <= ID_COUNT {
          InOrderNeverCollides(c, Init(c), es);
        } else {
          ShortQuotaNeverCollides(c, es);
        }
      }
    }
  }

  // ---- settings that rule reuse out, whatever the broker ----

  lemma NarrowOrShortNeverReuses(c: Config, s: State)
    requires !c.qos.AtMostOnce? && Reachable(c, s) && !(c.window >= 2 && QuotaAbove(c, ID_COUNT))
    ensures s.trace.overwritten == 0
  {
    InitInv(c);
    var es :| ValidRun(c, Init(c), es) && After(c, Init(c), es) == s;
    if c.window <= 1 {
      OneSlotNeverStale(c, Init(c), es);
      UniqueIffNeverStale(c, Init(c), es);
    } else {
      ShortQuotaNeverCollides(c, es);
    }
  }

  lemma {:induction false} OneSlotNeverStale(c: Config, s: State, es: seq<Event>)
    requires !c.qos.AtMostOnce? && c.window <= 1 && Inv(c, s) && ValidRun(c, s, es)
    ensures NeverStale(c, s, es)
    decreases |es|
  {
    if es != [] {
      StepInv(c, s, es[0]);
      OneSlotNeverStale(c, Apply(c, s, es[0]), es[1..]);
    }
  }
}
