/** The publisher in the source's own form: an object whose fields the two tasks
    update in place. The methods under "steps" are the indivisible pieces of the
    code, each proved to take one step of the transition system; the loops of
    `run` and `drain_pubrels` are built from them, with the other task free to
    run at every await. `Valid` says that the object's state is the end of a run
    of the transition system, so every theorem about reachable states holds of
    the object at every point. */
module PublisherCode {
  import opened Mqtt
  import opened PublisherModel
  import opened PublisherInvariants
  import opened PublisherIds

  class Publisher {
    const c: Config
    // shared between the tasks
    var permits: nat
    var closed: bool
    var inFlight: map<PacketId, Entry>
    var channel: seq<PacketId>
    var counters: Counters
    // the ack task's
    var samples: seq<nat>
    // the write side's
    var sent: nat
    var nextPacketId: PacketId
    var windowClosed: bool
    // the outside world's
    var stop: bool
    var clock: nat
    // the surroundings: what the ack task and the world do at each coming await of the
    // write side, and whether each coming write succeeds (beyond the list: yes)
    var world: seq<seq<Event>>
    var link: seq<bool>
    // where the two tasks are (the channel's receiver dies with the write side)
    var writer: Writer
    var reader: Reader
    // how they got there
    ghost var trace: Trace
    ghost var history: seq<Event>

    ghost function Now(): State
      reads this
    {
      State(writer, reader, permits, closed, inFlight, channel, sent, nextPacketId, windowClosed, stop, clock,
            counters, samples, trace)
    }

    ghost predicate Valid()
      reads this
    {
      ValidRun(c, Init(c), history) && After(c, Init(c), history) == Now()
    }

    constructor (c: Config, world: seq<seq<Event>>, link: seq<bool>)
      ensures this.c == c && Valid() && Now() == Init(c) && history == []
      ensures this.world == world && this.link == link
    {
      this.c, this.world, this.link := c, world, link;
      permits, closed, inFlight, channel := c.window, false, map[], [];
      counters, samples := Counters(0, 0, 0, map[]), [];
      sent, nextPacketId, windowClosed, stop, clock := 0, 0, false, false, c.start;
      writer, reader, trace, history := Draining(Loop), Reading, Trace([], [], 0, 0, 0, 0, 0, false), [];
    }

    // ---- steps of the write side ----

    method PopChannel() returns (id: PacketId)
      requires Enabled(c, Now(), PopPubrel)
      modifies this`channel, this`writer
      ensures Now() == Apply(c, old(Now()), PopPubrel)
      ensures id == old(channel)[0]
    {
      id := channel[0];
      channel := channel[1..];
      writer := Releasing(writer.stage, id);
    }

    method WritePubrel(id: PacketId)
      requires Enabled(c, Now(), PubrelWritten) && writer.id == id
      modifies this`writer, this`trace
      ensures Now() == Apply(c, old(Now()), PubrelWritten)
    {
      trace := trace.(wire := trace.wire + [OutPubrel(id)]);
      writer := Draining(writer.stage);
    }

    method FailPubrel(id: PacketId)
      requires Enabled(c, Now(), PubrelFailed) && writer.id == id
      modifies this`writer, this`trace
      ensures Now() == Apply(c, old(Now()), PubrelFailed)
    {
      trace := trace.(writeFailed := true);
      writer := if writer.stage.Loop? then Done(WriteFailed) else AfterDrain(writer.stage);
    }

    method TakePermit()
      requires Enabled(c, Now(), Acquire)
      modifies this`permits, this`writer
      ensures Now() == Apply(c, old(Now()), Acquire)
    {
      permits := permits - 1;
      writer := Holding;
    }

    method SeeWindowClosed()
      requires Enabled(c, Now(), AcquireClosed)
      modifies this`windowClosed, this`writer
      ensures Now() == Apply(c, old(Now()), AcquireClosed)
    {
      windowClosed := true;
      writer := Disconnecting;
    }

    method Allocate() returns (id: PacketId, entry: Entry)
      requires Enabled(c, Now(), PublisherModel.Stamp)
      requires !c.qos.AtMostOnce? ==> trace.allocs == sent
      modifies this`nextPacketId, this`writer, this`trace
      ensures Now() == Apply(c, old(Now()), PublisherModel.Stamp) && writer == Stamped(id, entry)
    {
      if c.qos.AtMostOnce? {
        id, entry := 0, Entry(clock, 0);
      } else {
        nextPacketId := (nextPacketId + 1) % 0x10000;
        if nextPacketId == 0 {
          nextPacketId := 1;
        }
        id, entry := nextPacketId, Entry(clock, sent);
        trace := trace.(allocs := trace.allocs + 1);
      }
      writer := Stamped(id, entry);
    }

    method InsertEntry(id: PacketId, entry: Entry)
      requires Enabled(c, Now(), Insert) && writer == Stamped(id, entry)
      modifies this`inFlight, this`writer, this`trace
      ensures Now() == Apply(c, old(Now()), Insert)
    {
      if !c.qos.AtMostOnce? {
        trace := trace.(live := trace.live + Bit(id !in inFlight),
                        overwritten := trace.overwritten + Bit(id in inFlight));
        inFlight := inFlight[id := entry];
      }
      writer := Writing(id);
    }

    method WritePublish(id: PacketId)
      requires Enabled(c, Now(), PublishWritten) && writer == Writing(id)
      modifies this`writer, this`trace
      ensures Now() == Apply(c, old(Now()), PublishWritten)
    {
      trace := trace.(wire := trace.wire + [OutPublish(id, sent)]);
      writer := Written(id);
    }

    /** The write failed: the entry goes, and the unforgotten permit comes back. */
    method FailWrite(id: PacketId)
      requires Enabled(c, Now(), PublishFailed) && writer == Writing(id)
      modifies this`counters, this`inFlight, this`permits, this`writer, this`trace
      ensures Now() == FailPublish(c, old(Now()), id)
    {
      ghost var before := Now();
      counters := counters.(publishErrors := counters.publishErrors + 1);
      inFlight := inFlight - {id};
      permits := permits + if c.qos.AtMostOnce? then 0 else 1;
      writer := Done(WriteFailed);
      trace := FailPublish(c, before, id).trace;
    }

    method CountPublished()
      requires Enabled(c, Now(), Count)
      modifies this`counters, this`writer
      ensures Now() == Apply(c, old(Now()), Count)
    {
      counters := counters.(published := counters.published + 1);
      writer := Counted(writer.id);
    }

    /** The permit is forgotten: the ack side gives the slot back. */
    method ForgetPermit()
      requires Enabled(c, Now(), Forget)
      modifies this`sent, this`writer
      ensures Now() == Apply(c, old(Now()), Forget)
    {
      sent := sent + 1;
      writer := Draining(Loop);
    }

    method WriteDisconnect()
      requires Enabled(c, Now(), SendDisconnect)
      modifies this`writer, this`trace
      ensures Now() == Apply(c, old(Now()), SendDisconnect)
    {
      trace := trace.(wire := trace.wire + [OutDisconnect]);
      writer := Joining;
    }

    // ---- steps of the ack task and of the outside world ----

    method TallyIfRefused(code: ReasonCode)
      modifies this`counters
      ensures counters == old(counters).(refused := if IsError(code) then Tally(old(counters).refused, code)
                                                    else old(counters).refused)
    {
      if IsError(code) {
        var soFar := if code in counters.refused then counters.refused[code] else 0;
        counters := counters.(refused := counters.refused[code := soFar + 1]);
      }
    }

    /** `complete_ack` up to releasing the map's lock. */
    method TakeEntry(p: Packet)
      requires Enabled(c, Now(), Complete) && reader == Handling(p)
      modifies this`counters, this`inFlight, this`reader, this`trace
      ensures Now() == RemoveEntry(old(Now()), p)
    {
      ghost var before := Now();
      TallyIfRefused(p.code);
      if p.id in inFlight {
        reader := Returning(inFlight[p.id], IsError(p.code));
        inFlight := inFlight - {p.id};
      } else {
        reader := Reading;
      }
      trace := RemoveEntry(before, p).trace;
    }

    /** `complete_ack` from `add_permits` on. */
    method GiveBack(entry: Entry, refused: bool)
      requires Enabled(c, Now(), Return) && reader == Returning(entry, refused)
      modifies this`permits, this`counters, this`samples, this`reader, this`trace
      ensures Now() == ReturnPermit(c, old(Now()), entry, refused)
    {
      trace := ReturnPermit(c, Now(), entry, refused).trace;
      permits := permits + 1;
      if !refused {
        counters := counters.(acknowledged := counters.acknowledged + 1);
        if entry.at >= c.warmupUntil {
          samples := samples + [Elapsed(entry.at, clock)];
        }
      }
      reader := Reading;
    }

    method HandOver(p: Packet)
      requires Enabled(c, Now(), Queue) && reader == Handling(p)
      modifies this`channel, this`reader, this`trace
      ensures Now() == QueuePubrel(old(Now()), p)
    {
      if !writer.Done? {
        channel := channel + [p.id];
      }
      trace := trace.(handled := trace.handled + [p]);
      reader := Reading;
    }

    method OtherStep(e: Event)
      requires Enabled(c, Now(), e) && (EnvSide(e) || ReaderSide(e)) && !e.Complete? && !e.Return? && !e.Queue?
      modifies this`reader, this`closed, this`stop, this`clock, this`trace
      ensures Now() == Apply(c, old(Now()), e)
    {
      match e
      case Receive(p) => reader := Handling(p);
      case Ignore =>
        trace := trace.(handled := trace.handled + [reader.packet]);
        reader := Reading;
      case ReadEnd(error) => reader := Leaving(error);
      case Close =>
        closed := true;
        reader := Ended(reader.error);
      case StopRequest => stop := true;
      case Tick(now) => clock := now;
    }

    // ---- the run so far ----

    /** The step just taken from `before` is appended to the run. */
    ghost method Record(e: Event, before: State)
      requires ValidRun(c, Init(c), history) && After(c, Init(c), history) == before
      requires Enabled(c, before, e) && Now() == Apply(c, before, e)
      modifies this`history
      ensures Valid() && history == old(history) + [e]
    {
      Extend(c, Init(c), history, e);
      history := history + [e];
    }

    /** Control flow: nothing but the program point changes. */
    method GoTo(to: Writer)
      requires Valid() && CanMove(c, Now(), to)
      modifies this`writer, this`history
      ensures Valid() && writer == to
    {
      ghost var before := Now();
      writer := to;
      Record(Move(to), before);
    }

    lemma ValidMeansInv()
      requires Valid()
      ensures Inv(c, Now())
    {
      InitInv(c);
      RunInv(c, Init(c), history);
    }

    // ---- the source's loops ----

    /** One step of the ack task or of the world. */
    method Elsewhere(e: Event)
      requires Valid() && Happens(c, Now(), e)
      modifies this`permits, this`closed, this`inFlight, this`channel, this`counters, this`samples
      modifies this`stop, this`clock, this`reader, this`trace, this`history
      ensures Valid() && Now() == Apply(c, old(Now()), e)
    {
      ghost var before := Now();
      TakeStep(e);
      Record(e, before);
    }

    method TakeStep(e: Event)
      requires Happens(c, Now(), e)
      modifies this`permits, this`closed, this`inFlight, this`channel, this`counters, this`samples
      modifies this`stop, this`clock, this`reader, this`trace
      ensures Now() == Apply(c, old(Now()), e)
    {
      if e.Complete? {
        TakeEntry(reader.packet);
      } else if e.Return? {
        GiveBack(reader.entry, reader.refused);
      } else if e.Queue? {
        HandOver(reader.packet);
      } else {
        OtherStep(e);
      }
    }

    /** An await of the write side: everything the ack task and the world do during it
        happens; what is not possible by then is dropped. */
    method Await()
      requires Valid()
      modifies this`permits, this`closed, this`inFlight, this`channel, this`counters, this`samples
      modifies this`stop, this`clock, this`reader, this`trace, this`history, this`world
      ensures Valid() && Now() == Play(c, old(Now()), Lull(old(world))) && world == Later(old(world))
      ensures (old(stop) ==> stop) && (old(inFlight) == map[] ==> inFlight == map[])
      ensures |channel| <= |old(channel)| + |Lull(old(world))| && old(channel) <= channel
      ensures trace.wire == old(trace.wire)
    {
      var batch := Lull(world);
      world := Later(world);
      PlayFrame(c, Now(), batch);
      assert batch[0..] == batch;
      for i := 0 to |batch|
        invariant Valid() && world == Later(old(world))
        invariant Play(c, Now(), batch[i..]) == Play(c, old(Now()), batch)
      {
        PlayOne(c, Now(), batch, i);
        HappensIfPossible(c, Now(), batch[i]);
        if Possible(reader, clock, batch[i]) {
          Elsewhere(batch[i]);
        }
      }
      assert batch[|batch|..] == [];
    }

    /** Write a PUBREL for every identifier handed back, those that arrive while
        writing included, in order; the first failing write ends the drain. */
    method DrainPubrels() returns (ok: bool)
      requires Valid() && writer.Draining?
      modifies this
      ensures Valid() && sent == old(sent) && windowClosed == old(windowClosed) && |world| <= |old(world)|
      ensures (old(stop) ==> stop) && (old(inFlight) == map[] ==> inFlight == map[])
      ensures if ok then Worked(old(link), link) else Broke(old(link), link)
      ensures ok ==> old(Pubrels(trace.wire) + channel) <= Pubrels(trace.wire)
      ensures writer == if ok || !old(writer).stage.Loop? then AfterDrain(old(writer).stage) else Done(WriteFailed)
    {
      while channel != []
        invariant Valid() && writer == old(writer) && sent == old(sent) && windowClosed == old(windowClosed)
        invariant |world| <= |old(world)| && Worked(old(link), link)
        invariant (old(stop) ==> stop) && (old(inFlight) == map[] ==> inFlight == map[])
        invariant old(Pubrels(trace.wire) + channel) <= Pubrels(trace.wire) + channel
        decreases Ahead(world) + |channel|
      {
        ghost var before, written, queued := link, Pubrels(trace.wire), channel;
        ok := ReleaseOne();
        LinkUsed(old(link), before, link);
        if !ok {
          return;
        }
        MovedOver(old(Pubrels(trace.wire) + channel), written, queued, channel);
      }
      assert Pubrels(trace.wire) + [] == Pubrels(trace.wire);
      GoTo(AfterDrain(writer.stage));
      ok := true;
    }

    method ReleaseOne() returns (ok: bool)
      requires Valid() && writer.Draining? && channel != []
      modifies this
      ensures Valid() && sent == old(sent) && windowClosed == old(windowClosed)
      ensures |world| <= |old(world)| && Ahead(world) + |channel| < Ahead(old(world)) + |old(channel)|
      ensures (old(stop) ==> stop) && (old(inFlight) == map[] ==> inFlight == map[])
      ensures ok == Works(old(link)) && link == Later(old(link))
      ensures ok ==> Pubrels(trace.wire) == old(Pubrels(trace.wire)) + [old(channel)[0]] && old(channel)[1..] <= channel
      ensures writer == if ok then old(writer)
                        else if old(writer).stage.Loop? then Done(WriteFailed) else AfterDrain(old(writer).stage)
    {
      var id := Pop();
      Await();
      ok := EmitPubrel(id);
    }

    method Pop() returns (id: PacketId)
      requires Valid() && writer.Draining? && channel != []
      modifies this`channel, this`writer, this`history
      ensures Valid() && writer == Releasing(old(writer).stage, id)
      ensures id == old(channel)[0] && channel == old(channel)[1..]
    {
      ghost var before := Now();
      id := PopChannel();
      Record(PopPubrel, before);
    }

    /** Use the link once: does the write succeed? */
    method TryWrite() returns (ok: bool)
      modifies this`link
      ensures ok == Works(old(link)) && link == Later(old(link))
    {
      ok, link := Works(link), Later(link);
    }

    method EmitPubrel(id: PacketId) returns (ok: bool)
      requires Valid() && writer.Releasing? && writer.id == id
      modifies this`writer, this`trace, this`history, this`link
      ensures Valid() && ok == Works(old(link)) && link == Later(old(link))
      ensures ok ==> Pubrels(trace.wire) == old(Pubrels(trace.wire)) + [id]
      ensures writer == if ok then Draining(old(writer).stage)
                        else if old(writer).stage.Loop? then Done(WriteFailed) else AfterDrain(old(writer).stage)
    {
      ok := TryWrite();
      if ok {
        PubrelOut(id);
      } else {
        PubrelLost(id);
      }
    }

    method PubrelOut(id: PacketId)
      requires Valid() && writer.Releasing? && writer.id == id
      modifies this`writer, this`trace, this`history
      ensures Valid() && writer == Draining(old(writer).stage)
      ensures Pubrels(trace.wire) == old(Pubrels(trace.wire)) + [id]
    {
      ghost var before := Now();
      WireAppend(trace.wire, OutPubrel(id));
      WritePubrel(id);
      Record(PubrelWritten, before);
    }

    method PubrelLost(id: PacketId)
      requires Valid() && writer.Releasing? && writer.id == id
      modifies this`writer, this`trace, this`history
      ensures Valid()
      ensures writer == if old(writer).stage.Loop? then Done(WriteFailed) else AfterDrain(old(writer).stage)
    {
      ghost var before := Now();
      FailPubrel(id);
      Record(PubrelFailed, before);
    }

    /** Wait for the message's deadline or a stop request, as long as anything is
        still to happen. */
    method AwaitDeadline()
      requires Valid() && writer.Pacing?
      modifies this`permits, this`closed, this`inFlight, this`channel, this`counters, this`samples
      modifies this`stop, this`clock, this`reader, this`trace, this`history, this`world
      ensures Valid() && |world| <= |old(world)|
      ensures DeadlinePassed(c, sent, clock) || stop || world == []
    {
      Await();
      while !DeadlinePassed(c, sent, clock) && !stop && world != []
        invariant Valid() && |world| <= |old(world)|
        decreases |world|
      {
        Await();
      }
    }

    /** Pace, unless unthrottled: true when the deadline has passed. Otherwise a stop
        request ended the wait, or nothing more happens. */
    method Pace() returns (due: bool)
      requires Valid() && writer.Pacing?
      modifies this
      ensures Valid() && sent == old(sent) && link == old(link) && |world| <= |old(world)|
      ensures if due then writer == Acquiring
              else (writer == TailCheck && stop) || (WaitsForDeadline() && world == [])
    {
      AwaitDeadline();
      due := DeadlinePassed(c, sent, clock);
      var preferStop: bool := *;
      if c.interval.Some? && stop && (preferStop || !due) {
        GoTo(TailCheck);
        return false;
      }
      if due {
        GoTo(Acquiring);
      }
    }

    /** Wait for a permit, a closed window or a stop request, as long as anything is
        still to happen. */
    method AwaitPermit()
      requires Valid() && writer.Acquiring?
      modifies this`permits, this`closed, this`inFlight, this`channel, this`counters, this`samples
      modifies this`stop, this`clock, this`reader, this`trace, this`history, this`world
      ensures Valid() && |world| <= |old(world)|
      ensures permits > 0 || closed || stop || world == []
    {
      Await();
      while permits == 0 && !closed && !stop && world != []
        invariant Valid() && |world| <= |old(world)|
        decreases |world|
      {
        Await();
      }
    }

    /** Acquire a permit: false when the window closed, a stop request won, or
        nothing is left to happen that could free one. At QoS 0 nothing is acquired. */
    method AcquirePermit() returns (got: bool)
      requires Valid() && writer.Acquiring?
      modifies this
      ensures Valid() && sent == old(sent) && link == old(link) && |world| <= |old(world)|
      ensures c.qos.AtMostOnce? ==> got
      ensures if got then writer == Holding
              else || (writer == TailCheck && stop) || (writer == Disconnecting && windowClosed)
                   || (WaitsForPermit() && world == [])
    {
      if c.qos.AtMostOnce? {
        GoTo(Holding);
        return true;
      }
      AwaitPermit();
      got := Contend();
    }

    method Contend() returns (got: bool)
      requires Valid() && writer.Acquiring? && !c.qos.AtMostOnce? && (permits > 0 || closed || stop || world == [])
      modifies this`permits, this`windowClosed, this`writer, this`history
      ensures Valid()
      ensures if got then writer == Holding
              else || (writer == TailCheck && stop) || (writer == Disconnecting && windowClosed)
                   || (WaitsForPermit() && world == [])
    {
      var preferStop: bool := *;
      if stop && (preferStop || (permits == 0 && !closed)) {
        GoTo(TailCheck);
        return false;
      }
      if closed {
        GiveUp();
        return false;
      }
      if permits == 0 {
        return false;
      }
      Hold();
      got := true;
    }

    /** Parked on an open, exhausted window with nothing to end the wait. */
    predicate WaitsForPermit()
      reads this
    {
      writer == Acquiring && permits == 0 && !closed && !stop && !c.qos.AtMostOnce?
    }

    predicate WaitsForDeadline()
      reads this
    {
      writer == Pacing && !DeadlinePassed(c, sent, clock) && !stop
    }

    method Hold()
      requires Valid() && writer.Acquiring? && permits > 0 && !closed && !c.qos.AtMostOnce?
      modifies this`permits, this`writer, this`history
      ensures Valid() && writer == Holding
    {
      ghost var before := Now();
      TakePermit();
      Record(Acquire, before);
    }

    method GiveUp()
      requires Valid() && writer.Acquiring? && closed && !c.qos.AtMostOnce?
      modifies this`windowClosed, this`writer, this`history
      ensures Valid() && writer == Disconnecting && windowClosed
    {
      ghost var before := Now();
      SeeWindowClosed();
      Record(AcquireClosed, before);
    }

    /** From a held permit to the loop top if the write succeeds, or to the failure
        exit if it does not. */
    method PublishNext() returns (ok: bool)
      requires Valid() && writer.Holding?
      modifies this
      ensures Valid() && |world| <= |old(world)|
      ensures ok == Works(old(link)) && link == Later(old(link))
      ensures if ok then writer == Draining(Loop) && sent == old(sent) + 1
              else writer == Done(WriteFailed) && sent == old(sent)
    {
      var id := Launch();
      Await();
      ok := Emit(id);
      if ok {
        CountAndForget();
      }
    }

    method Launch() returns (id: PacketId)
      requires Valid() && writer.Holding?
      modifies this
      ensures Valid() && writer == Writing(id) && sent == old(sent) && link == old(link) && |world| <= |old(world)|
    {
      var entry;
      id, entry := StampNext();
      Await();
      PutInFlight(id, entry);
    }

    method StampNext() returns (id: PacketId, entry: Entry)
      requires Valid() && writer.Holding?
      modifies this`nextPacketId, this`writer, this`trace, this`history
      ensures Valid() && writer == Stamped(id, entry)
    {
      ValidMeansInv();
      ghost var before := Now();
      id, entry := Allocate();
      Record(PublisherModel.Stamp, before);
    }

    method PutInFlight(id: PacketId, entry: Entry)
      requires Valid() && writer == Stamped(id, entry)
      modifies this`inFlight, this`writer, this`trace, this`history
      ensures Valid() && writer == Writing(id)
    {
      ghost var before := Now();
      InsertEntry(id, entry);
      Record(Insert, before);
    }

    method Emit(id: PacketId) returns (ok: bool)
      requires Valid() && writer == Writing(id)
      modifies this`counters, this`inFlight, this`permits, this`writer, this`trace, this`history, this`link
      ensures Valid() && ok == Works(old(link)) && link == Later(old(link))
      ensures writer == if ok then Written(id) else Done(WriteFailed)
    {
      ok := TryWrite();
      if ok {
        PublishOut(id);
      } else {
        PublishLost(id);
      }
    }

    method PublishOut(id: PacketId)
      requires Valid() && writer == Writing(id)
      modifies this`writer, this`trace, this`history
      ensures Valid() && writer == Written(id)
    {
      ghost var before := Now();
      WritePublish(id);
      Record(PublishWritten, before);
    }

    method PublishLost(id: PacketId)
      requires Valid() && writer == Writing(id)
      modifies this`counters, this`inFlight, this`permits, this`writer, this`trace, this`history
      ensures Valid() && writer == Done(WriteFailed)
    {
      ghost var before := Now();
      FailWrite(id);
      Record(PublishFailed, before);
    }

    /** The ack task may run before the message is counted. */
    method CountAndForget()
      requires Valid() && writer.Written?
      modifies this
      ensures Valid() && writer == Draining(Loop) && sent == old(sent) + 1
      ensures link == old(link) && |world| <= |old(world)|
    {
      Await();
      CountOne();
      ForgetOne();
    }

    method CountOne()
      requires Valid() && writer.Written?
      modifies this`counters, this`writer, this`history
      ensures Valid() && writer.Counted?
    {
      ghost var before := Now();
      CountPublished();
      Record(Count, before);
    }

    method ForgetOne()
      requires Valid() && writer.Counted?
      modifies this`sent, this`writer, this`history
      ensures Valid() && writer == Draining(Loop) && sent == old(sent) + 1
    {
      ghost var before := Now();
      ForgetPermit();
      Record(Forget, before);
    }

    /** The ways out of the send loop: to the tail when the quota is met or on request,
        at a closed window, at a failed write; or it is still waiting for its deadline
        or for a permit when nothing more happens. */
    predicate LoopOver()
      reads this
    {
      || (writer == TailCheck && (QuotaMet(c, sent) || stop))
      || (writer == Disconnecting && windowClosed)
      || writer == Done(WriteFailed)
      || ((WaitsForDeadline() || WaitsForPermit()) && world == [])
    }

    /** One iteration: one more message sent, or the loop is over. It is over if a stop
        had been requested, and it fails exactly when a write does. */
    method SendOneMore() returns (going: bool)
      requires Valid() && writer == Draining(Loop)
      modifies this
      ensures Valid() && |world| <= |old(world)|
      ensures if going then writer == Draining(Loop) && sent == old(sent) + 1 && !QuotaMet(c, old(sent))
              else LoopOver() && sent == old(sent)
      ensures old(stop) ==> !going
      ensures if writer == Done(WriteFailed) then Broke(old(link), link) else Worked(old(link), link)
    {
      going := DrainPubrels();
      if !going {
        return;
      }
      if QuotaMet(c, sent) || stop {
        GoTo(TailCheck);
        return false;
      }
      GoTo(Pacing);
      going := Pace();
      if !going {
        return;
      }
      going := AcquirePermit();
      if !going {
        return;
      }
      ghost var before := link;
      going := PublishNext();
      LinkUsed(old(link), before, link);
    }

    /** The send loop. Without a quota it may never end, and `rounds` says how many
        messages to look at. */
    method SendLoop(rounds: nat)
      requires Valid() && writer == Draining(Loop)
      modifies this
      ensures Valid() && |world| <= |old(world)| && old(sent) <= sent
      ensures LoopOver() || (writer == Draining(Loop) && c.quota.None? && sent == old(sent) + rounds)
      ensures if writer == Done(WriteFailed) then Broke(old(link), link) else Worked(old(link), link)
    {
      var round := 0;
      while c.quota.Some? || round < rounds
        invariant Valid() && |world| <= |old(world)| && writer == Draining(Loop) && sent == old(sent) + round
        invariant Worked(old(link), link) && (c.quota.None? ==> round <= rounds)
        decreases if c.quota.Some? then Max(c.quota.value - sent, 0) else rounds - round
      {
        ghost var before := link;
        var going := SendOneMore();
        LinkUsedOn(old(link), before, link);
        if !going {
          return;
        }
        round := round + 1;
      }
    }

    /** Wait for outstanding acknowledgements, still answering PUBRECs, for at most
        `limit` rounds: the map is empty in the end, or the limit has passed. */
    method DrainTail(limit: nat)
      requires Valid() && writer == TailCheck
      modifies this
      ensures Valid() && writer == Disconnecting && |world| <= |old(world)|
      ensures sent == old(sent) && windowClosed == old(windowClosed) && (old(stop) ==> stop)
      ensures inFlight == map[] || Passed(old(world), world, limit)
      ensures Worked(old(link), link) ==> old(Pubrels(trace.wire) + channel) <= Pubrels(trace.wire)
    {
      var waited := 0;
      while inFlight != map[] && waited < limit
        invariant Valid() && writer == TailCheck && waited <= limit && Passed(old(world), world, waited)
        invariant sent == old(sent) && windowClosed == old(windowClosed) && (old(stop) ==> stop)
        invariant UsedUp(old(link), link)
        invariant Worked(old(link), link) ==> old(Pubrels(trace.wire) + channel) <= Pubrels(trace.wire) + channel
        decreases limit - waited
      {
        TailRound();
        waited := waited + 1;
      }
      LastDrain();
    }

    method LastDrain()
      requires Valid() && writer == TailCheck
      modifies this
      ensures Valid() && writer == Disconnecting && |world| <= |old(world)|
      ensures sent == old(sent) && windowClosed == old(windowClosed)
      ensures (old(stop) ==> stop) && (old(inFlight) == map[] ==> inFlight == map[])
      ensures UsedUp(old(link), link)
      ensures Worked(old(link), link) ==> old(Pubrels(trace.wire) + channel) <= Pubrels(trace.wire)
    {
      GoTo(Draining(Final));
      var ok := DrainPubrels();
      if !ok { BrokeIsNotWorked(old(link), link); }
    }

    /** Answer what has been accepted, then sleep. */
    method TailRound()
      requires Valid() && writer == TailCheck && inFlight != map[]
      modifies this
      ensures Valid() && writer == TailCheck && Passed(old(world), world, 1)
      ensures sent == old(sent) && windowClosed == old(windowClosed) && (old(stop) ==> stop)
      ensures UsedUp(old(link), link)
      ensures Worked(old(link), link) ==> old(Pubrels(trace.wire) + channel) <= Pubrels(trace.wire)
    {
      AnswerPubrecs();
      Await();
    }

    method AnswerPubrecs()
      requires Valid() && writer == TailCheck && inFlight != map[]
      modifies this
      ensures Valid() && writer == TailCheck && |world| <= |old(world)|
      ensures sent == old(sent) && windowClosed == old(windowClosed) && (old(stop) ==> stop)
      ensures UsedUp(old(link), link)
      ensures Worked(old(link), link) ==> old(Pubrels(trace.wire) + channel) <= Pubrels(trace.wire)
    {
      GoTo(Draining(Tail));
      var ok := DrainPubrels();
      if !ok { BrokeIsNotWorked(old(link), link); }
    }

    /** DISCONNECT goes out if the link still works. */
    method SayGoodbye()
      requires Valid() && writer == Disconnecting
      modifies this`writer, this`trace, this`history, this`link
      ensures Valid() && writer == Joining
      ensures trace.wire == old(trace.wire) + if Works(old(link)) then [OutDisconnect] else []
    {
      var ok := TryWrite();
      if ok {
        DisconnectOut();
      } else {
        GoTo(Joining);
      }
    }

    method DisconnectOut()
      requires Valid() && writer == Disconnecting
      modifies this`writer, this`trace, this`history
      ensures Valid() && writer == Joining && trace.wire == old(trace.wire) + [OutDisconnect]
    {
      ghost var before := Now();
      WriteDisconnect();
      Record(SendDisconnect, before);
    }

    /** Wait for the ack task, for at most `limit` awaits. */
    method Join(limit: nat)
      requires Valid() && writer == Joining
      modifies this`permits, this`closed, this`inFlight, this`channel, this`counters, this`samples
      modifies this`stop, this`clock, this`reader, this`trace, this`history, this`world
      ensures Valid() && |world| <= |old(world)| && (old(stop) ==> stop) && trace.wire == old(trace.wire)
      ensures reader.Ended? || Passed(old(world), world, limit)
    {
      var waited := 0;
      while !reader.Ended? && waited < limit
        invariant Valid() && waited <= limit && Passed(old(world), world, waited) && (old(stop) ==> stop)
        invariant trace.wire == old(trace.wire)
        decreases limit - waited
      {
        Await();
        waited := waited + 1;
      }
    }

    /** Say goodbye and report: how the read side ended if it did in time, a read error
        before a closed window; TimedOut only when the limit has passed without it. */
    method Finish(limit: nat) returns (outcome: Outcome)
      requires Valid() && writer == Disconnecting
      modifies this
      ensures Valid() && writer == Done(outcome) && |world| <= |old(world)|
      ensures sent == old(sent) && windowClosed == old(windowClosed) && (old(stop) ==> stop)
      ensures trace.wire == old(trace.wire) + if Works(old(link)) then [OutDisconnect] else []
      ensures outcome == TimedOut <==> !reader.Ended?
      ensures outcome == TimedOut ==> Passed(old(world), world, limit)
      ensures reader.Ended? ==>
                outcome == if reader.error then ReadFailed else if windowClosed then ClosedEarly else Ok
    {
      SayGoodbye();
      Join(limit);
      if reader.Ended? {
        outcome := JoinOutcome(reader.error, windowClosed);
      } else {
        outcome := TimedOut;
      }
      GoTo(Done(outcome));
    }

    /** The whole of `run` after the handshake: whatever the ack task, the broker, the
        clock and the link do, the object ends in a state every theorem about reachable
        states speaks of. None: waiting for a deadline or on a full window after
        everything has happened, or sending without a quota. */
    method Run(rounds: nat, tailLimit: nat, joinLimit: nat) returns (outcome: Option<Outcome>)
      requires Valid() && Now() == Init(c)
      modifies this
      ensures Valid() && Inv(c, Now()) && Reachable(c, Now())
      ensures if outcome.Some? then writer == Done(outcome.value)
              else || ((WaitsForDeadline() || WaitsForPermit()) && world == [])
                   || (writer == Draining(Loop) && c.quota.None? && sent == rounds)
      ensures outcome == Some(WriteFailed) ==> false in old(link)
      ensures outcome.Some? && outcome.value != WriteFailed ==>
                outcome.value == if !reader.Ended? then TimedOut else if reader.error then ReadFailed
                                 else if windowClosed then ClosedEarly else Ok
      ensures outcome == Some(TimedOut) ==> Passed(old(world), world, joinLimit)
      ensures c.quota.Some? ==> counters.published <= c.quota.value
      ensures outcome == Some(Ok) && !stop ==> c.quota.Some? && counters.published == c.quota.value
    {
      SendLoop(rounds);
      if writer == Done(WriteFailed) {
        BrokeMeansFailure(old(link), link);
        outcome := Some(WriteFailed);
      } else if writer == TailCheck || writer == Disconnecting {
        if writer == TailCheck {
          DrainTail(tailLimit);
        }
        var how := Finish(joinLimit);
        outcome := Some(how);
      } else {
        outcome := None;
      }
      ValidMeansInv();
    }
  }

  // ---- the surroundings ----

  /** What happens during the next await. */
  function Lull(world: seq<seq<Event>>): seq<Event> {
    if world == [] then [] else world[0]
  }

  function Later<T>(xs: seq<T>): seq<T> {
    if xs == [] then [] else xs[1..]
  }

  /** How much is still to happen. */
  function Ahead(world: seq<seq<Event>>): nat {
    if world == [] then 0 else |world[0]| + Ahead(world[1..])
  }

  /** Does the next write succeed? */
  predicate Works(link: seq<bool>) {
    link == [] || link[0]
  }

  /** At least `limit` awaits have passed, or everything has happened. */
  predicate Passed(before: seq<seq<Event>>, after: seq<seq<Event>>, limit: nat) {
    |after| <= |before| && (after == [] || |after| + limit <= |before|)
  }

  /** The writes between the two all succeeded ... */
  predicate Worked(before: seq<bool>, after: seq<bool>) {
    && |after| <= |before| && before[|before| - |after|..] == after
    && forall i :: 0 <= i < |before| - |after| ==> before[i]
  }

  /** ... or all but the last. */
  predicate Broke(before: seq<bool>, after: seq<bool>) {
    |after| < |before| && Worked(before, before[|before| - |after| - 1..])
    && !before[|before| - |after| - 1] && before[|before| - |after|..] == after
  }

  /** The link has been used, with whatever success. */
  predicate UsedUp(before: seq<bool>, after: seq<bool>) {
    |after| <= |before| && before[|before| - |after|..] == after
  }

  lemma BrokeIsNotWorked(a: seq<bool>, b: seq<bool>)
    requires Broke(a, b)
    ensures UsedUp(a, b) && !Worked(a, b)
  {
  }

  /** One identifier moves from the channel to the wire. */
  lemma MovedOver(start: seq<PacketId>, written: seq<PacketId>, queued: seq<PacketId>, left: seq<PacketId>)
    requires queued != [] && start <= written + queued && queued[1..] <= left
    ensures start <= written + [queued[0]] + left
  {
    assert queued == [queued[0]] + queued[1..];
    assert written + queued == written + [queued[0]] + queued[1..];
  }

  lemma LinkUsedOn(a: seq<bool>, b: seq<bool>, d: seq<bool>)
    requires Worked(a, b)
    ensures Worked(b, d) ==> Worked(a, d)
    ensures Broke(b, d) ==> Broke(a, d)
  {
    var n := |a| - |b|;
    assert forall i :: 0 <= i < |b| ==> b[i] == a[n + i];
    if Worked(b, d) || Broke(b, d) {
      assert b[|b| - |d|..] == a[|a| - |d|..];
    }
    if Broke(b, d) {
      assert b[|b| - |d| - 1..] == a[|a| - |d| - 1..];
    }
  }

  lemma LinkUsed(a: seq<bool>, b: seq<bool>, d: seq<bool>)
    requires Worked(a, b) && d == Later(b)
    ensures if Works(b) then Worked(a, d) else Broke(a, d)
  {
    if !Works(b) {
      assert b[|b| - |d| - 1..] == b;
    }
    LinkUsedOn(a, b, d);
  }

  lemma BrokeMeansFailure(a: seq<bool>, b: seq<bool>)
    requires Broke(a, b)
    ensures false in a
  {
    assert a[|a| - |b| - 1] in a;
  }

  /** A step the read side or the world takes if it can. */
  predicate Happens(c: Config, s: State, e: Event) {
    (ReaderSide(e) || EnvSide(e)) && Enabled(c, s, e)
  }

  /** The same, read off the ack task's position and the clock. */
  predicate Possible(reader: Reader, clock: nat, e: Event) {
    match e
    case Receive(_) => reader.Reading?
    case ReadEnd(_) => reader.Reading?
    case Complete => reader.Handling? && Terminal(reader.packet)
    case Queue => reader.Handling? && AcceptedPubrec(reader.packet)
    case Ignore => reader.Handling? && !Terminal(reader.packet) && !AcceptedPubrec(reader.packet)
    case Return => reader.Returning?
    case Close => reader.Leaving?
    case StopRequest => true
    case Tick(now) => clock <= now
    case _ => false
  }

  lemma HappensIfPossible(c: Config, s: State, e: Event)
    ensures Possible(s.reader, s.clock, e) <==> Happens(c, s, e)
  {
  }

  /** What a list of such steps makes of a state. */
  ghost function Play(c: Config, s: State, es: seq<Event>): State
    decreases |es|
  {
    if es == [] then s else Play(c, if Happens(c, s, es[0]) then Apply(c, s, es[0]) else s, es[1..])
  }

  lemma PlayOne(c: Config, s: State, es: seq<Event>, i: nat)
    requires i < |es|
    ensures Play(c, s, es[i..]) == Play(c, if Happens(c, s, es[i]) then Apply(c, s, es[i]) else s, es[i + 1..])
  {
    assert es[i..][1..] == es[i + 1..];
  }

  lemma AtMostOneQueued(c: Config, s: State, e: Event)
    requires Enabled(c, s, e) && (ReaderSide(e) || EnvSide(e))
    ensures |Apply(c, s, e).channel| <= |s.channel| + 1 && s.channel <= Apply(c, s, e).channel
  {
    match e
    case Return =>
    case _ =>
  }

  lemma StopStays(c: Config, s: State, e: Event)
    requires Enabled(c, s, e) && (ReaderSide(e) || EnvSide(e))
    ensures s.stop ==> Apply(c, s, e).stop
  {
    match e
    case Return =>
    case _ =>
  }

  lemma {:induction false} PlayFrame(c: Config, s: State, es: seq<Event>)
    ensures var t := Play(c, s, es);
            && WriterUntouched(s, t) && (s.stop ==> t.stop)
            && |t.channel| <= |s.channel| + |es| && s.channel <= t.channel
    decreases |es|
  {
    if es != [] {
      var u := if Happens(c, s, es[0]) then Apply(c, s, es[0]) else s;
      if Happens(c, s, es[0]) {
        ReaderFrame(c, s, es[0]);
        AtMostOneQueued(c, s, es[0]);
        StopStays(c, s, es[0]);
      }
      PlayFrame(c, u, es[1..]);
    }
  }
}
