/** The WebSocket byte-stream adapter: discrete frames in and out behind a
    poll-based byte stream. The socket is an arbitrary list of answers to the
    polls the adapter makes; an exhausted list keeps answering Pending. */
module WsByteStream {
  import opened Mqtt

  // ---- reading ----

  /** One answer of the inner stream's poll_next. */
  datatype Inbound = NotYet | Binary(bytes: seq<byte>) | NonBinary | CloseFrame | EndOfStream | Broken

  datatype ReadPoll = ReadPending | ReadReady(bytes: seq<byte>) | ReadError

  datatype ReadSide = ReadSide(buf: seq<byte>, pos: nat, inbound: seq<Inbound>)

  predicate Bounded(r: ReadSide) {
    r.pos <= |r.buf|
  }

  function Unread(r: ReadSide): seq<byte>
    requires Bounded(r)
  {
    r.buf[r.pos..]
  }

  /** The bytes a list of answers carries. */
  function Payload(inbound: seq<Inbound>): seq<byte> {
    if inbound == [] then []
    else (if inbound[0].Binary? then inbound[0].bytes else []) + Payload(inbound[1..])
  }

  function Copied(r: ReadSide, room: nat): nat
    requires Bounded(r)
    ensures Copied(r, room) <= room && r.pos + Copied(r, room) <= |r.buf|
  {
    if |r.buf| - r.pos <= room then |r.buf| - r.pos else room
  }

  /** `poll_read` into a destination with `room` bytes left. */
  function PollRead(r: ReadSide, room: nat): (ReadPoll, ReadSide)
    requires Bounded(r)
    decreases |r.inbound|
  {
    if r.pos < |r.buf| then
      var n := Copied(r, room);
      (ReadReady(r.buf[r.pos..r.pos + n]), r.(pos := r.pos + n))
    else if r.inbound == [] then (ReadPending, ReadSide([], 0, []))
    else
      var rest := r.inbound[1..];
      match r.inbound[0]
      case NotYet => (ReadPending, ReadSide([], 0, rest))
      case Binary(bytes) => PollRead(ReadSide(bytes, 0, rest), room)
      case NonBinary => PollRead(ReadSide([], 0, rest), room)
      case CloseFrame => (ReadReady([]), ReadSide([], 0, rest))
      case EndOfStream => (ReadReady([]), ReadSide([], 0, rest))
      case Broken => (ReadError, ReadSide([], 0, rest))
  }

  /** Bytes handed to the caller by one poll. */
  function Handed(o: ReadPoll): seq<byte> {
    if o.ReadReady? then o.bytes else []
  }

  /** No poll loses, invents or reorders a byte. */
  lemma {:induction false} PollReadConserves(r: ReadSide, room: nat)
    requires Bounded(r)
    ensures var (o, r') := PollRead(r, room);
            && Bounded(r') && |Handed(o)| <= room
            && Handed(o) + Unread(r') + Payload(r'.inbound) == Unread(r) + Payload(r.inbound)
    decreases |r.inbound|
  {
    if r.pos < |r.buf| {
      var n := Copied(r, room);
      assert r.buf[r.pos..] == r.buf[r.pos..r.pos + n] + r.buf[r.pos + n..];
    } else if r.inbound != [] {
      var rest := r.inbound[1..];
      match r.inbound[0]
      case Binary(bytes) => PollReadConserves(ReadSide(bytes, 0, rest), room);
      case NonBinary => PollReadConserves(ReadSide([], 0, rest), room);
      case _ =>
    }
  }

  /** Where the first answer is that is neither a control frame nor an empty Binary
      frame; the length of the list if there is none. */
  function FirstSignificant(inbound: seq<Inbound>): (n: nat)
    ensures n <= |inbound|
  {
    if inbound == [] then 0
    else if inbound[0].NonBinary? || inbound[0] == Binary([]) then 1 + FirstSignificant(inbound[1..])
    else 0
  }

  /** As many bytes as there are, and as there is room for. */
  function Fitting(available: nat, room: nat): nat {
    if available <= room then available else room
  }

  /** What a poll gives: the buffer first, as much as fits; otherwise the first answer
      that is neither a control frame nor an empty Binary frame decides, and everything
      up to it is consumed. A zero-byte Ready into a non-empty destination thus happens
      only at Close or end of stream. */
  predicate PollGives(r: ReadSide, room: nat, o: ReadPoll, after: seq<Inbound>)
    requires Bounded(r)
  {
    var n := FirstSignificant(r.inbound);
    if Unread(r) != [] then
      o.ReadReady? && |o.bytes| == Fitting(|Unread(r)|, room) && after == r.inbound
    else if n == |r.inbound| then o == ReadPending && after == []
    else
      && after == r.inbound[n + 1..]
      && match r.inbound[n]
         case NotYet => o == ReadPending
         case Broken => o.ReadError?
         case Binary(bytes) => o.ReadReady? && |o.bytes| == Fitting(|bytes|, room) && bytes != []
         case _ => o == ReadReady([])
  }

  lemma {:induction false} PollReadOutcome(r: ReadSide, room: nat)
    requires Bounded(r)
    ensures var (o, r') := PollRead(r, room); PollGives(r, room, o, r'.inbound)
    decreases |r.inbound|
  {
    if r.pos >= |r.buf| && r.inbound != [] {
      var rest := r.inbound[1..];
      var n := FirstSignificant(rest);
      assert n < |rest| ==> rest[n + 1..] == r.inbound[n + 2..];
      match r.inbound[0]
      case Binary(bytes) => PollReadOutcome(ReadSide(bytes, 0, rest), room);
      case NonBinary => PollReadOutcome(ReadSide([], 0, rest), room);
      case _ =>
    }
  }

  /** All bytes handed over by a sequence of polls. */
  function ReadRun(r: ReadSide, rooms: seq<nat>): (seq<byte>, ReadSide)
    requires Bounded(r)
    decreases |rooms|
  {
    if rooms == [] then ([], r)
    else
      PollReadConserves(r, rooms[0]);
      var (o, r') := PollRead(r, rooms[0]);
      var (later, r'') := ReadRun(r', rooms[1..]);
      (Handed(o) + later, r'')
  }

  /** For any frame split, destination sizes and Pending points: bytes delivered,
      then the unread buffer, then what has not been consumed, is the stream. */
  lemma {:induction false} ReadRunConserves(r: ReadSide, rooms: seq<nat>)
    requires Bounded(r)
    ensures var (delivered, r') := ReadRun(r, rooms);
            && Bounded(r')
            && delivered + Unread(r') + Payload(r'.inbound) == Unread(r) + Payload(r.inbound)
    decreases |rooms|
  {
    if rooms != [] {
      PollReadConserves(r, rooms[0]);
      var (o, r') := PollRead(r, rooms[0]);
      ReadRunConserves(r', rooms[1..]);
      var (later, r'') := ReadRun(r', rooms[1..]);
      Regroup(Handed(o), later, Unread(r''), Payload(r''.inbound), Unread(r'), Payload(r'.inbound));
    }
  }

  lemma Regroup(h: seq<byte>, a: seq<byte>, b: seq<byte>, d: seq<byte>, x: seq<byte>, y: seq<byte>)
    requires a + b + d == x + y
    ensures h + a + b + d == h + x + y
  {
    assert h + a + b + d == h + (a + b + d);
    assert h + x + y == h + (x + y);
  }

  function Fresh(inbound: seq<Inbound>): ReadSide {
    ReadSide([], 0, inbound)
  }

  /** Frame boundaries are unobservable: two splits of the same bytes, read with
      any destinations, agree on every byte both have delivered. */
  lemma SplitsAreUnobservable(a: seq<Inbound>, b: seq<Inbound>, roomsA: seq<nat>, roomsB: seq<nat>, n: nat)
    requires Payload(a) == Payload(b)
    requires n <= |ReadRun(Fresh(a), roomsA).0| && n <= |ReadRun(Fresh(b), roomsB).0|
    ensures ReadRun(Fresh(a), roomsA).0[..n] == ReadRun(Fresh(b), roomsB).0[..n]
    ensures n <= |Payload(a)| && ReadRun(Fresh(a), roomsA).0[..n] == Payload(a)[..n]
  {
    PrefixOfStream(a, roomsA, n);
    PrefixOfStream(b, roomsB, n);
  }

  lemma PrefixOfStream(a: seq<Inbound>, rooms: seq<nat>, n: nat)
    requires n <= |ReadRun(Fresh(a), rooms).0|
    ensures n <= |Payload(a)| && ReadRun(Fresh(a), rooms).0[..n] == Payload(a)[..n]
  {
    ReadRunConserves(Fresh(a), rooms);
    var (delivered, r) := ReadRun(Fresh(a), rooms);
    assert [] + Payload(a) == Payload(a) == delivered + (Unread(r) + Payload(r.inbound));
  }

  /** Nothing in this list ends or breaks the stream. */
  predicate Uninterrupted(inbound: seq<Inbound>) {
    forall i :: 0 <= i < |inbound| ==> inbound[i].NotYet? || inbound[i].Binary? || inbound[i].NonBinary?
  }

  /** What polling still has to work through: answers to take, bytes to hand over. */
  function Remaining(r: ReadSide): nat
    requires Bounded(r)
  {
    |r.inbound| + |Unread(r)| + |Payload(r.inbound)|
  }

  /** A poll with room takes an answer or hands over a byte, if there is any left. */
  lemma {:induction false} PollMakesHeadway(r: ReadSide, room: nat)
    requires Bounded(r) && room > 0 && Uninterrupted(r.inbound)
    ensures var r' := PollRead(r, room).1;
            && Bounded(r') && Uninterrupted(r'.inbound)
            && (Remaining(r') < Remaining(r) || Remaining(r') == 0)
    decreases |r.inbound|
  {
    if r.pos >= |r.buf| && r.inbound != [] {
      var rest := r.inbound[1..];
      match r.inbound[0]
      case Binary(bytes) => PollMakesHeadway(ReadSide(bytes, 0, rest), room);
      case NonBinary => PollMakesHeadway(ReadSide([], 0, rest), room);
      case _ =>
    }
  }

  lemma {:induction false} PollsRunDry(r: ReadSide, rooms: seq<nat>)
    requires Bounded(r) && Uninterrupted(r.inbound) && |rooms| >= Remaining(r)
    requires forall i :: 0 <= i < |rooms| ==> rooms[i] > 0
    ensures Bounded(ReadRun(r, rooms).1) && Remaining(ReadRun(r, rooms).1) == 0
    decreases |rooms|
  {
    if rooms != [] {
      PollMakesHeadway(r, rooms[0]);
      PollsRunDry(PollRead(r, rooms[0]).1, rooms[1..]);
    }
  }

  /** Enough polls with room deliver every byte, however the frames are cut and
      whatever else and however many Pending answers lie between them. */
  lemma EnoughPollsDeliverAll(r: ReadSide, rooms: seq<nat>)
    requires Bounded(r) && Uninterrupted(r.inbound) && |rooms| >= Remaining(r)
    requires forall i :: 0 <= i < |rooms| ==> rooms[i] > 0
    ensures ReadRun(r, rooms).0 == Unread(r) + Payload(r.inbound)
  {
    PollsRunDry(r, rooms);
    ReadRunConserves(r, rooms);
    var (delivered, r') := ReadRun(r, rooms);
    assert Unread(r') == [] && Payload(r'.inbound) == [];
    assert delivered + [] + [] == delivered;
  }

  // ---- writing ----

  /** One answer of the inner sink (poll_flush, poll_ready, start_send). */
  datatype SinkAnswer = Accept | Block | Fail

  datatype FlushPoll = FlushPending | FlushReady | FlushError

  /** `frames` are the Binary frames handed to the sink so far. */
  datatype WriteSide = WriteSide(buf: seq<byte>, sending: bool, answers: seq<SinkAnswer>,
                                 frames: seq<seq<byte>>, failed: bool)

  function Ask(w: WriteSide): SinkAnswer {
    if w.answers == [] then Block else w.answers[0]
  }

  function Answered(w: WriteSide): WriteSide {
    w.(answers := if w.answers == [] then [] else w.answers[1..])
  }

  function ToPoll(a: SinkAnswer): FlushPoll {
    match a
    case Accept => FlushReady
    case Block => FlushPending
    case Fail => FlushError
  }

  function PollWrite(w: WriteSide, bytes: seq<byte>): WriteSide {
    w.(buf := w.buf + bytes)
  }

  /** Drive the sink's own flush for a frame already handed over. */
  function DriveSend(w: WriteSide): (FlushPoll, WriteSide) {
    var a := Ask(w);
    (ToPoll(a), Answered(w).(sending := a != Accept, failed := w.failed || a == Fail))
  }

  /** `start_send` takes the buffer first, so a failure loses it; it has no
      Pending answer, so anything but Fail counts as accepted. */
  function StartSend(w: WriteSide): WriteSide {
    if Ask(w) == Fail then Answered(w).(buf := [], failed := true)
    else Answered(w).(buf := [], frames := w.frames + [w.buf], sending := true)
  }

  function PollFlush(w: WriteSide): (FlushPoll, WriteSide) {
    if w.sending then DriveSend(w)
    else if w.buf == [] then (ToPoll(Ask(w)), Answered(w).(failed := w.failed || Ask(w) == Fail))
    else
      match Ask(w)
      case Fail => (FlushError, Answered(w).(failed := true))
      case Block => (FlushPending, Answered(w))
      case Accept =>
        var sent := StartSend(Answered(w));
        if !sent.sending then (FlushError, sent) else DriveSend(sent)
  }

  function Concat(frames: seq<seq<byte>>): seq<byte> {
    if frames == [] then [] else frames[0] + Concat(frames[1..])
  }

  lemma {:induction false} ConcatAppend(frames: seq<seq<byte>>, f: seq<byte>)
    ensures Concat(frames + [f]) == Concat(frames) + f
  {
    if frames == [] {
      assert (frames + [f])[1..] == [];
    } else {
      assert (frames + [f])[1..] == frames[1..] + [f];
      ConcatAppend(frames[1..], f);
      assert frames[0] + (Concat(frames[1..]) + f) == frames[0] + Concat(frames[1..]) + f;
    }
  }

  /** Until the sink fails, a flush moves bytes from the buffer to the wire and
      neither loses nor reorders any. */
  lemma FlushConserves(w: WriteSide)
    ensures var (o, w') := PollFlush(w);
            && (w.failed ==> w'.failed) && (o == FlushError ==> w'.failed)
            && (!w'.failed ==> Concat(w'.frames) + w'.buf == Concat(w.frames) + w.buf)
  {
    ConcatAppend(w.frames, w.buf);
    assert Concat(w.frames) + w.buf + [] == Concat(w.frames) + w.buf;
  }

  /** The i-th answer from now; an exhausted sink keeps answering Block. */
  function AnswerAt(w: WriteSide, i: nat): SinkAnswer {
    if i < |w.answers| then w.answers[i] else Block
  }

  function Skipped(answers: seq<SinkAnswer>, n: nat): seq<SinkAnswer> {
    if n <= |answers| then answers[n..] else []
  }

  /** How many questions a flush asks the sink: one if a frame is on its way or there
      is nothing to send; otherwise one more for each that is granted. */
  function Questions(w: WriteSide): nat {
    if w.sending || w.buf == [] || AnswerAt(w, 0) != Accept then 1
    else if AnswerAt(w, 1) == Fail then 2
    else 3
  }

  /** A flush always asks the sink, and the last answer is its result: Accept is Ready,
      Block is Pending, Fail is an error. The buffer leaves, as one frame, exactly when
      the sink takes it; a frame stays in progress until an answer of Accept. */
  lemma FlushAsAnswered(w: WriteSide)
    ensures var (o, w') := PollFlush(w);
            var n := Questions(w);
            && w'.answers == Skipped(w.answers, n)
            && (o == FlushReady <==> AnswerAt(w, n - 1) == Accept)
            && (o == FlushPending <==> AnswerAt(w, n - 1) == Block)
            && (o == FlushError <==> AnswerAt(w, n - 1) == Fail)
            && (w'.frames == if n == 3 then w.frames + [w.buf] else w.frames)
            && (w'.buf == if n == 1 then w.buf else [])
            && (w'.sending <==> (w.sending || n == 3) && o != FlushReady)
            && (w'.failed <==> w.failed || o == FlushError)
  {
  }

  /** For one call: "Ready means all sent" fails exactly when a frame is still being
      sent and the buffer holds later bytes; the flag and the buffer tell. */
  lemma ReadyLeavesBytesIff(w: WriteSide)
    requires PollFlush(w).0 == FlushReady
    ensures PollFlush(w).1.buf != [] <==> w.sending && w.buf != []
    ensures !PollFlush(w).1.sending
  {
  }

  datatype WriteOp = Write(bytes: seq<byte>) | Flush

  function Do(w: WriteSide, op: WriteOp): WriteSide {
    if op.Write? then PollWrite(w, op.bytes) else PollFlush(w).1
  }

  function WriteRun(w: WriteSide, ops: seq<WriteOp>): WriteSide
    decreases |ops|
  {
    if ops == [] then w else WriteRun(Do(w, ops[0]), ops[1..])
  }

  function Written(ops: seq<WriteOp>): seq<byte> {
    if ops == [] then [] else (if ops[0].Write? then ops[0].bytes else []) + Written(ops[1..])
  }

  /** For any interleaving of writes, flushes and Pending answers: frames on the
      wire, then the buffer, is everything accepted, in order. */
  lemma {:induction false} WriteRunConserves(w: WriteSide, ops: seq<WriteOp>)
    ensures var w' := WriteRun(w, ops);
            && (w.failed ==> w'.failed)
            && (!w'.failed ==> Concat(w'.frames) + w'.buf == Concat(w.frames) + w.buf + Written(ops))
    decreases |ops|
  {
    if ops != [] {
      var u := Do(w, ops[0]);
      if ops[0].Flush? { FlushConserves(w); }
      WriteRunConserves(u, ops[1..]);
      if !WriteRun(w, ops).failed {
        Account(Concat(u.frames), u.buf, Concat(w.frames), w.buf, if ops[0].Write? then ops[0].bytes else [],
                Written(ops[1..]));
      }
    }
  }

  lemma Account(f': seq<byte>, b': seq<byte>, f: seq<byte>, b: seq<byte>, head: seq<byte>, rest: seq<byte>)
    requires f' + b' == f + b || f' + b' == f + (b + head)
    requires f' + b' == f + b ==> head == [] || f + b == f + (b + head)
    ensures f' + b' + rest == f + b + (head + rest)
  {
    assert f + (b + head) == f + b + head;
    assert f + b + head + rest == f + b + (head + rest);
  }

  /** The adapter as `new` leaves it. */
  function Idle(answers: seq<SinkAnswer>): WriteSide {
    WriteSide([], false, answers, [], false)
  }

  // ---- when Ready does not mean "all sent", over whole runs ----

  lemma {:induction false} WriteRunSnoc(w: WriteSide, ops: seq<WriteOp>, op: WriteOp)
    ensures WriteRun(w, ops + [op]) == Do(WriteRun(w, ops), op)
    decreases |ops|
  {
    if ops == [] {
      assert (ops + [op])[1..] == [];
    } else {
      assert (ops + [op])[1..] == ops[1..] + [op];
      WriteRunSnoc(Do(w, ops[0]), ops[1..], op);
    }
  }

  lemma {:induction false} WrittenSnoc(ops: seq<WriteOp>, op: WriteOp)
    ensures Written(ops + [op]) == Written(ops) + if op.Write? then op.bytes else []
    decreases |ops|
  {
    if ops == [] {
      assert (ops + [op])[1..] == [];
    } else {
      assert (ops + [op])[1..] == ops[1..] + [op];
      WrittenSnoc(ops[1..], op);
    }
  }

  /** The k-th operation is a flush, and this is what it returned. */
  predicate FlushGave(w: WriteSide, ops: seq<WriteOp>, k: nat, o: FlushPoll) {
    k < |ops| && ops[k].Flush? && PollFlush(WriteRun(w, ops[..k])).0 == o
  }

  /** The k-th operation is a flush that handed the sink a frame and was left
      Pending, as was every flush since. */
  predicate LeftUnfinished(w: WriteSide, ops: seq<WriteOp>, k: nat) {
    && FlushGave(w, ops, k, FlushPending)
    && PollFlush(WriteRun(w, ops[..k])).1.frames != WriteRun(w, ops[..k]).frames
    && forall j :: k < j < |ops| && ops[j].Flush? ==> FlushGave(w, ops, j, FlushPending)
  }

  /** Whether earlier flushes count as unfinished depends on the last call only. */
  lemma UnfinishedSnoc(w: WriteSide, ops: seq<WriteOp>, op: WriteOp, k: nat)
    requires k < |ops|
    ensures LeftUnfinished(w, ops + [op], k) <==>
              LeftUnfinished(w, ops, k) && (op.Flush? ==> PollFlush(WriteRun(w, ops)).0 == FlushPending)
  {
    var all := ops + [op];
    assert all[..|ops|] == ops;
    forall j | 0 <= j < |ops| ensures all[..j] == ops[..j] && all[j] == ops[j] {
    }
    if LeftUnfinished(w, all, k) {
      forall j | k < j < |ops| && ops[j].Flush? ensures FlushGave(w, ops, j, FlushPending) {
        assert FlushGave(w, all, j, FlushPending);
      }
      assert op.Flush? ==> FlushGave(w, all, |ops|, FlushPending);
    }
    if LeftUnfinished(w, ops, k) && (op.Flush? ==> PollFlush(WriteRun(w, ops)).0 == FlushPending) {
      forall j | k < j < |all| && all[j].Flush? ensures FlushGave(w, all, j, FlushPending) {
        assert j < |ops| ==> FlushGave(w, ops, j, FlushPending);
      }
    }
  }

  lemma LastUnfinished(w: WriteSide, ops: seq<WriteOp>, op: WriteOp)
    ensures LeftUnfinished(w, ops + [op], |ops|) <==>
              && op.Flush? && PollFlush(WriteRun(w, ops)).0 == FlushPending
              && PollFlush(WriteRun(w, ops)).1.frames != WriteRun(w, ops).frames
  {
    assert (ops + [op])[..|ops|] == ops;
  }

  /** What one call does to the flag and the buffer. */
  lemma FlagAfter(u: WriteSide, op: WriteOp)
    requires !Do(u, op).failed
    ensures op.Write? ==> Do(u, op).sending == u.sending
    ensures op.Flush? ==> var (o, v) := PollFlush(u);
            && (v.sending <==> o == FlushPending && (u.sending || v.frames != u.frames))
            && (u.sending ==> v.frames == u.frames && v.buf == u.buf)
            && (v.sending && !u.sending ==> v.buf == [])
  {
    assert |u.frames + [u.buf]| == |u.frames| + 1;
  }

  /** Until the sink fails: a frame is in progress exactly when some flush left it
      unfinished, and the buffer then holds exactly what was written since. */
  lemma {:induction false} SendingMeansUnfinished(w: WriteSide, ops: seq<WriteOp>)
    requires !w.sending && !WriteRun(w, ops).failed
    ensures WriteRun(w, ops).sending <==> exists k :: LeftUnfinished(w, ops, k)
    ensures forall k :: LeftUnfinished(w, ops, k) ==> WriteRun(w, ops).buf == Written(ops[k + 1..])
    decreases |ops|
  {
    if ops != [] {
      var n := |ops| - 1;
      var before, op := ops[..n], ops[n];
      assert ops == before + [op];
      WriteRunSnoc(w, before, op);
      var u := WriteRun(w, before);
      FailureIsForGood(u, op);
      SendingMeansUnfinished(w, before);
      FlagAfter(u, op);
      LastUnfinished(w, before, op);
      forall k: nat | k < n
        ensures LeftUnfinished(w, ops, k) <==>
                  LeftUnfinished(w, before, k) && (op.Flush? ==> PollFlush(u).0 == FlushPending)
      {
        UnfinishedSnoc(w, before, op, k);
      }
      if WriteRun(w, ops).sending { SomeFlushUnfinished(w, before, op); }
      forall k | LeftUnfinished(w, ops, k) ensures WriteRun(w, ops).buf == Written(ops[k + 1..]) {
        BufferSince(w, before, op, k);
      }
    }
  }

  lemma FailureIsForGood(u: WriteSide, op: WriteOp)
    ensures u.failed ==> Do(u, op).failed
  {
    if op.Flush? { FlushConserves(u); }
  }

  lemma SomeFlushUnfinished(w: WriteSide, before: seq<WriteOp>, op: WriteOp)
    requires WriteRun(w, before).sending ==> exists k :: LeftUnfinished(w, before, k)
    requires Do(WriteRun(w, before), op).sending && !Do(WriteRun(w, before), op).failed
    ensures exists k :: LeftUnfinished(w, before + [op], k)
  {
    var u := WriteRun(w, before);
    FlagAfter(u, op);
    if u.sending {
      var k :| LeftUnfinished(w, before, k);
      UnfinishedSnoc(w, before, op, k);
    } else {
      LastUnfinished(w, before, op);
    }
  }

  lemma BufferSince(w: WriteSide, before: seq<WriteOp>, op: WriteOp, k: nat)
    requires LeftUnfinished(w, before + [op], k) && !Do(WriteRun(w, before), op).failed
    requires forall j :: LeftUnfinished(w, before, j) ==>
               WriteRun(w, before).sending && WriteRun(w, before).buf == Written(before[j + 1..])
    ensures Do(WriteRun(w, before), op).buf == Written((before + [op])[k + 1..])
  {
    var u := WriteRun(w, before);
    FlagAfter(u, op);
    if k < |before| {
      UnfinishedSnoc(w, before, op, k);
      assert (before + [op])[k + 1..] == before[k + 1..] + [op];
      WrittenSnoc(before[k + 1..], op);
    } else {
      LastUnfinished(w, before, op);
      assert (before + [op])[k + 1..] == [];
    }
  }

  /** Over every run on a working sink: a flush that returns Ready leaves bytes
      behind exactly when something was written after the flush that handed over
      the frame it finishes, and what it leaves is exactly that. */
  lemma ReadyLeavesBytesIffWrittenSince(answers: seq<SinkAnswer>, ops: seq<WriteOp>)
    requires !WriteRun(Idle(answers), ops).failed && PollFlush(WriteRun(Idle(answers), ops)).0 == FlushReady
    ensures var w := Idle(answers);
            var left := PollFlush(WriteRun(w, ops)).1.buf;
            && (left != [] <==> exists k :: LeftUnfinished(w, ops, k) && Written(ops[k + 1..]) != [])
            && (forall k :: LeftUnfinished(w, ops, k) ==> left == Written(ops[k + 1..]))
  {
    SendingMeansUnfinished(Idle(answers), ops);
    ReadyLeavesBytesIff(WriteRun(Idle(answers), ops));
  }

  /** ... and it does happen: write, flush left Pending, write again, flush. */
  lemma ReadyWithBytesBuffered(x: seq<byte>, y: seq<byte>)
    requires x != []
    ensures var w := WriteRun(Idle([Accept, Accept, Block, Accept]), [Write(x), Flush, Write(y)]);
            !w.failed && PollFlush(w).0 == FlushReady && PollFlush(w).1.buf == y
  {
    var w0 := Idle([Accept, Accept, Block, Accept]);
    var w1 := Do(w0, Write(x));
    var w2 := Do(w1, Flush);
    assert w1.buf == x;
    assert w2 == WriteSide([], true, [Accept], [x], false);
    WriteRunSnoc(w0, [], Write(x));
    WriteRunSnoc(w0, [Write(x)], Flush);
    WriteRunSnoc(w0, [Write(x), Flush], Write(y));
    assert [] + [Write(x)] == [Write(x)];
    assert [Write(x)] + [Flush] == [Write(x), Flush];
    assert [Write(x), Flush] + [Write(y)] == [Write(x), Flush, Write(y)];
    assert [] + y == y;
  }

  // ---- the documented discipline: write, then flush to Ready ----

  predicate Clean(w: WriteSide) {
    w.buf == [] && !w.sending
  }

  /** Poll the flush until it is not Pending, at most `polls` times. */
  function FlushFully(w: WriteSide, polls: nat): (FlushPoll, WriteSide)
    decreases polls
  {
    if polls == 0 then (FlushPending, w)
    else
      var (o, w') := PollFlush(w);
      if o == FlushPending then FlushFully(w', polls - 1) else (o, w')
  }

  function OneFrame(batch: seq<byte>): seq<seq<byte>> {
    if batch == [] then [] else [batch]
  }

  /** While a batch is being flushed it is either wholly buffered or wholly on
      the wire as one frame. */
  predicate Flushing(w: WriteSide, frames: seq<seq<byte>>, batch: seq<byte>) {
    || (!w.sending && w.buf == batch && w.frames == frames)
    || (w.sending && w.buf == [] && w.frames == frames + [batch] && batch != [])
  }

  lemma PollKeepsFlushing(w: WriteSide, frames: seq<seq<byte>>, batch: seq<byte>)
    requires Flushing(w, frames, batch)
    ensures var (o, w') := PollFlush(w);
            && (o == FlushPending ==> Flushing(w', frames, batch))
            && (o == FlushReady ==> Clean(w') && w'.frames == frames + OneFrame(batch))
  {
    assert frames + [] == frames;
  }

  lemma {:induction false} FlushSendsOneFrame(w: WriteSide, frames: seq<seq<byte>>, batch: seq<byte>, polls: nat)
    requires Flushing(w, frames, batch) && FlushFully(w, polls).0 == FlushReady
    ensures Clean(FlushFully(w, polls).1) && FlushFully(w, polls).1.frames == frames + OneFrame(batch)
    decreases polls
  {
    PollKeepsFlushing(w, frames, batch);
    if PollFlush(w).0 == FlushPending {
      FlushSendsOneFrame(PollFlush(w).1, frames, batch, polls - 1);
    }
  }

  /** Each batch written and flushed to Ready before the next: None if some flush
      did not get there. */
  function Disciplined(w: WriteSide, batches: seq<seq<byte>>, polls: nat): Option<WriteSide>
    decreases |batches|
  {
    if batches == [] then Some(w)
    else
      var (o, w') := FlushFully(PollWrite(w, batches[0]), polls);
      if o == FlushReady then Disciplined(w', batches[1..], polls) else None
  }

  function NonEmpty(batches: seq<seq<byte>>): seq<seq<byte>> {
    if batches == [] then [] else OneFrame(batches[0]) + NonEmpty(batches[1..])
  }

  /** The state after the first batch, flushed to Ready. */
  lemma FirstBatch(w: WriteSide, batch: seq<byte>, polls: nat)
    requires Clean(w) && FlushFully(PollWrite(w, batch), polls).0 == FlushReady
    ensures var v := FlushFully(PollWrite(w, batch), polls).1;
            Clean(v) && v.frames == w.frames + OneFrame(batch)
  {
    assert [] + batch == batch;
    FlushSendsOneFrame(PollWrite(w, batch), w.frames, batch, polls);
  }

  lemma PrependBatch(frames: seq<seq<byte>>, batches: seq<seq<byte>>)
    requires batches != []
    ensures frames + OneFrame(batches[0]) + NonEmpty(batches[1..]) == frames + NonEmpty(batches)
  {
    assert frames + OneFrame(batches[0]) + NonEmpty(batches[1..])
        == frames + (OneFrame(batches[0]) + NonEmpty(batches[1..]));
  }

  /** One flushed write is one Binary frame: the frames are exactly the non-empty
      batches, and nothing stays behind. */
  lemma {:induction false} OneFramePerBatch(w: WriteSide, batches: seq<seq<byte>>, polls: nat)
    requires Clean(w) && Disciplined(w, batches, polls).Some?
    ensures var w' := Disciplined(w, batches, polls).value;
            Clean(w') && w'.frames == w.frames + NonEmpty(batches)
    decreases |batches|
  {
    if batches != [] {
      FirstBatch(w, batches[0], polls);
      OneFramePerBatch(FlushFully(PollWrite(w, batches[0]), polls).1, batches[1..], polls);
      PrependBatch(w.frames, batches);
    }
  }

  // ---- both directions composed ----

  /** Whatever the writer's calls and the sink's answers, and however the link
      interleaves other frames and Pending, the reader delivers a prefix of the
      bytes written, and the rest is accounted for, in order. */
  lemma RoundTrip(ops: seq<WriteOp>, answers: seq<SinkAnswer>, inbound: seq<Inbound>, rooms: seq<nat>)
    requires !WriteRun(Idle(answers), ops).failed
    requires Payload(inbound) == Concat(WriteRun(Idle(answers), ops).frames)
    ensures var (delivered, r) := ReadRun(Fresh(inbound), rooms);
            && Bounded(r)
            && delivered + Unread(r) + Payload(r.inbound) + WriteRun(Idle(answers), ops).buf == Written(ops)
  {
    WriteRunConserves(Idle(answers), ops);
    ReadRunConserves(Fresh(inbound), rooms);
    var (delivered, r) := ReadRun(Fresh(inbound), rooms);
    assert [] + Payload(inbound) == Payload(inbound);
    assert [] + [] + Written(ops) == Written(ops);
  }

  /** Once the writer has flushed everything, enough polls deliver exactly the bytes
      written, wherever the frame boundaries and Pending answers fell. */
  lemma RoundTripDeliversAll(ops: seq<WriteOp>, answers: seq<SinkAnswer>, inbound: seq<Inbound>, rooms: seq<nat>)
    requires var w := WriteRun(Idle(answers), ops);
             !w.failed && w.buf == [] && Payload(inbound) == Concat(w.frames)
    requires Uninterrupted(inbound) && |rooms| >= |inbound| + |Written(ops)|
    requires forall i :: 0 <= i < |rooms| ==> rooms[i] > 0
    ensures ReadRun(Fresh(inbound), rooms).0 == Written(ops)
  {
    WriteRunConserves(Idle(answers), ops);
    assert [] + [] + Written(ops) == Written(ops);
    assert Payload(inbound) + [] == Payload(inbound);
    EnoughPollsDeliverAll(Fresh(inbound), rooms);
    assert [] + Payload(inbound) == Payload(inbound);
  }

  // ---- the adapter object ----

  class Adapter {
    var readBuf: seq<byte>
    var readPos: nat
    var writeBuf: seq<byte>
    var sending: bool
    // the inner WebSocket stream: its answers to come and the frames it was given
    var inbound: seq<Inbound>
    var answers: seq<SinkAnswer>
    var frames: seq<seq<byte>>
    ghost var failed: bool

    ghost predicate Valid()
      reads this
    {
      readPos <= |readBuf|
    }

    ghost function Reader(): ReadSide
      reads this
    {
      ReadSide(readBuf, readPos, inbound)
    }

    ghost function Writer(): WriteSide
      reads this
    {
      WriteSide(writeBuf, sending, answers, frames, failed)
    }

    constructor (inbound: seq<Inbound>, answers: seq<SinkAnswer>)
      ensures Valid() && Reader() == Fresh(inbound) && Writer() == Idle(answers)
    {
      readBuf, readPos, writeBuf, sending := [], 0, [], false;
      this.inbound, this.answers, frames, failed := inbound, answers, [], false;
    }

    method NextMessage() returns (m: Inbound)
      modifies this`inbound
      ensures old(inbound) == [] ==> m == NotYet && inbound == []
      ensures old(inbound) != [] ==> m == old(inbound)[0] && inbound == old(inbound)[1..]
    {
      if inbound == [] {
        return NotYet;
      }
      m, inbound := inbound[0], inbound[1..];
    }

    method AskSink() returns (a: SinkAnswer)
      modifies this`answers
      ensures a == Ask(old(Writer())) && Writer() == Answered(old(Writer()))
    {
      if answers == [] {
        return Block;
      }
      a, answers := answers[0], answers[1..];
    }

    method ReadInto(room: nat) returns (o: ReadPoll)
      requires Valid()
      modifies this`readBuf, this`readPos, this`inbound
      ensures Valid() && (o, Reader()) == PollRead(old(Reader()), room)
    {
      while true
        invariant Valid() && PollRead(Reader(), room) == PollRead(old(Reader()), room)
        decreases |inbound|
      {
        if readPos < |readBuf| {
          var n := if |readBuf| - readPos <= room then |readBuf| - readPos else room;
          o := ReadReady(readBuf[readPos..readPos + n]);
          readPos := readPos + n;
          return;
        }
        readBuf, readPos := [], 0;
        var m := NextMessage();
        match m
        case Binary(bytes) =>
          readBuf := bytes;
        case CloseFrame => return ReadReady([]);
        case EndOfStream => return ReadReady([]);
        case NonBinary =>
        case Broken => return ReadError;
        case NotYet => return ReadPending;
      }
    }

    method WriteBytes(bytes: seq<byte>) returns (n: nat)
      modifies this`writeBuf
      ensures n == |bytes| && Writer() == PollWrite(old(Writer()), bytes)
    {
      writeBuf := writeBuf + bytes;
      n := |bytes|;
    }

    method FlushFrames() returns (o: FlushPoll)
      modifies this`writeBuf, this`sending, this`answers, this`frames, this`failed
      ensures (o, Writer()) == PollFlush(old(Writer()))
    {
      while true
        invariant PollFlush(Writer()) == PollFlush(old(Writer()))
        decreases !sending
      {
        if sending {
          var a := AskSink();
          failed := failed || a == Fail;
          if a == Accept {
            sending := false;
          }
          return ToPoll(a);
        }
        if writeBuf == [] {
          var a := AskSink();
          failed := failed || a == Fail;
          return ToPoll(a);
        }
        var ready := AskSink();
        if ready != Accept {
          failed := failed || ready == Fail;
          return ToPoll(ready);
        }
        var bytes := writeBuf;
        writeBuf := [];
        var started := AskSink();
        if started == Fail {
          failed := true;
          return FlushError;
        }
        frames := frames + [bytes];
        sending := true;
      }
    }
  }
}
