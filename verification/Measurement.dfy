/** The measurement header from publisher to subscriber: a 16-byte big-endian
    header at the front of every payload, and the receive loop that times it. */
module Measurement {
  import opened Mqtt
  import opened LatencyStats
  import opened Arithmetic
  import Lockstep

  const HEADER_LEN: nat := 16
  const TWO32: int := 0x1_0000_0000

  datatype Header = Header(elapsedNs: U64, publisher: int, seqNo: int)

  predicate HeaderFits(h: Header) {
    0 <= h.publisher < TWO32 && 0 <= h.seqNo < TWO32
  }

  // ---- big-endian integers ----

  function Power(width: nat): (p: nat)
    ensures p > 0
  {
    if width == 0 then 1 else 0x100 * Power(width - 1)
  }

  function ToBytes(n: nat, width: nat): (r: seq<byte>)
    ensures |r| == width
  {
    if width == 0 then [] else ToBytes(n / 0x100, width - 1) + [n % 0x100]
  }

  function FromBytes(bs: seq<byte>): nat {
    if bs == [] then 0 else 0x100 * FromBytes(bs[..|bs| - 1]) + bs[|bs| - 1]
  }

  lemma {:induction false} FromToBytes(n: nat, width: nat)
    requires n < Power(width)
    ensures FromBytes(ToBytes(n, width)) == n
    decreases width
  {
    if width > 0 {
      FromToBytes(n / 0x100, width - 1);
      var bs := ToBytes(n, width);
      assert bs[..width - 1] == ToBytes(n / 0x100, width - 1);
    }
  }

  lemma {:induction false} FromBytesBound(bs: seq<byte>)
    ensures FromBytes(bs) < Power(|bs|)
    decreases |bs|
  {
    if bs != [] { FromBytesBound(bs[..|bs| - 1]); }
  }

  lemma {:induction false} MostSignificantFirst(n: nat, width: nat, i: nat)
    requires i < width
    ensures ToBytes(n, width)[i] == n / Power(width - 1 - i) % 0x100
    decreases width
  {
    if i < width - 1 {
      MostSignificantFirst(n / 0x100, width - 1, i);
      DivDiv(n, Power(width - 2 - i));
    }
  }

  lemma DivDiv(n: nat, m: nat)
    requires m > 0
    ensures 0x100 * m > 0 && n / 0x100 / m == n / (0x100 * m)
  {
    var q := n / 0x100 / m;
    var r := n / 0x100 % m;
    assert n == 0x100 * (q * m + r) + n % 0x100;
    assert n == q * (0x100 * m) + (0x100 * r + n % 0x100);
    assert 0x100 * r + n % 0x100 < 0x100 * m;
    DivUnique(n, 0x100 * m, q, 0x100 * r + n % 0x100);
  }

  lemma Powers()
    ensures Power(4) == TWO32 && Power(8) == TWO64
  {
    assert Power(2) == 0x10000;
    assert Power(4) == 0x1_0000_0000;
    assert Power(6) == 0x1_0000_0000_0000;
  }

  // ---- build and decode ----

  function PayloadLen(size: nat): nat {
    if size < HEADER_LEN then HEADER_LEN else size
  }

  /** What `build` leaves in the buffer. */
  function Payload(size: nat, h: Header): seq<byte>
    requires HeaderFits(h)
  {
    ToBytes(h.elapsedNs, 8) + ToBytes(h.publisher, 4) + ToBytes(h.seqNo, 4)
    + seq(PayloadLen(size) - HEADER_LEN, _ => 0)
  }

  method CopyInto(buf: array<byte>, at: nat, bytes: seq<byte>)
    requires at + |bytes| <= buf.Length
    modifies buf
    ensures buf[..] == old(buf[..])[..at] + bytes + old(buf[..])[at + |bytes|..]
  {
    ghost var was := buf[..];
    for i := 0 to |bytes|
      invariant buf[..] == was[..at] + bytes[..i] + was[at + i..]
    {
      OneByteMore(was, at, bytes, i, buf[..]);
      buf[at + i] := bytes[i];
    }
    assert bytes[..|bytes|] == bytes;
  }

  lemma OneByteMore(was: seq<byte>, at: nat, bytes: seq<byte>, i: nat, s: seq<byte>)
    requires at + |bytes| <= |was| && i < |bytes| && s == was[..at] + bytes[..i] + was[at + i..]
    ensures s[at + i := bytes[i]] == was[..at] + bytes[..i + 1] + was[at + i + 1..]
  {
    assert was[at + i..] == [was[at + i]] + was[at + i + 1..];
  }

  /** Three pieces copied one after the other into a buffer. */
  lemma ThreeCopies(z: seq<byte>, a: seq<byte>, b: seq<byte>, d: seq<byte>, s: seq<byte>, t: seq<byte>, u: seq<byte>)
    requires |a| == 8 && |b| == 4 && |d| == 4 && |z| >= HEADER_LEN
    requires s == z[..0] + a + z[8..] && t == s[..8] + b + s[12..] && u == t[..12] + d + t[16..]
    ensures u == a + b + d + z[16..]
  {
    assert s[..8] == a && s[12..] == z[12..];
    assert t[..12] == a + b && t[16..] == z[16..];
  }

  method Build(size: nat, h: Header) returns (buf: array<byte>)
    requires HeaderFits(h)
    ensures fresh(buf) && buf[..] == Payload(size, h)
  {
    buf := new byte[PayloadLen(size)](_ => 0);
    ghost var zeros := buf[..];
    CopyInto(buf, 0, ToBytes(h.elapsedNs, 8));
    ghost var first := buf[..];
    CopyInto(buf, 8, ToBytes(h.publisher, 4));
    ghost var second := buf[..];
    CopyInto(buf, 12, ToBytes(h.seqNo, 4));
    ThreeCopies(zeros, ToBytes(h.elapsedNs, 8), ToBytes(h.publisher, 4), ToBytes(h.seqNo, 4), first, second, buf[..]);
    assert zeros[16..] == seq(PayloadLen(size) - HEADER_LEN, _ => 0);
  }

  function Decode(payload: seq<byte>): Option<Header> {
    if |payload| < HEADER_LEN then None
    else
      FromBytesBound(payload[0..8]);
      Powers();
      Some(Header(FromBytes(payload[0..8]), FromBytes(payload[8..12]), FromBytes(payload[12..16])))
  }

  /** Whatever the size, even below 16, the header survives, the payload has the
      requested length or 16, and only the header is non-zero. */
  lemma DecodeBuild(size: nat, h: Header)
    requires HeaderFits(h)
    ensures Decode(Payload(size, h)) == Some(h)
    ensures |Payload(size, h)| == if size < 16 then 16 else size
    ensures forall i :: HEADER_LEN <= i < |Payload(size, h)| ==> Payload(size, h)[i] == 0
  {
    var p := Payload(size, h);
    Powers();
    FromToBytes(h.elapsedNs, 8);
    FromToBytes(h.publisher, 4);
    FromToBytes(h.seqNo, 4);
    assert p[0..8] == ToBytes(h.elapsedNs, 8);
    assert p[8..12] == ToBytes(h.publisher, 4);
    assert p[12..16] == ToBytes(h.seqNo, 4);
  }

  // ---- end to end ----

  /** The stamp the publisher puts in its `sent`-th message at instant `at`: both
      the nanoseconds and the sequence number are truncating casts. */
  function Stamp(baseline: nat, at: nat, publisher: nat, sent: nat): Header
    requires baseline <= at && publisher < TWO32
  {
    Header((at - baseline) % TWO64, publisher, sent % TWO32)
  }

  /** Instants run up to `horizon`; `checked_add` beyond it gives no time. */
  datatype Clock = Clock(baseline: nat, warmupUntil: nat, horizon: nat)

  function SentAt(k: Clock, h: Header): Option<nat> {
    if k.baseline + h.elapsedNs <= k.horizon then Some(k.baseline + h.elapsedNs) else None
  }

  /** The latency sample one delivered payload contributes, if any. */
  function Sample(k: Clock, payload: seq<byte>, receivedAt: nat): Option<U64> {
    var h := Decode(payload);
    if h.None? then None
    else
      var sentAt := SentAt(k, h.value);
      if sentAt.Some? && k.warmupUntil <= sentAt.value <= receivedAt
      then Some((receivedAt - sentAt.value) % TWO64) else None
  }

  /** A message delivered unchanged after the warm-up is timed exactly: its
      sample is receive time minus send time, whatever the payload size. */
  lemma EndToEndTiming(k: Clock, size: nat, at: nat, publisher: nat, sent: nat, receivedAt: nat)
    requires publisher < TWO32 && k.baseline <= at <= receivedAt <= k.horizon
    requires receivedAt - k.baseline < TWO64
    ensures var payload := Payload(size, Stamp(k.baseline, at, publisher, sent));
            && Sample(k, payload, receivedAt) == (if k.warmupUntil <= at then Some(receivedAt - at) else None)
            && Decode(payload).value.publisher == publisher && (sent < TWO32 ==> Decode(payload).value.seqNo == sent)
  {
    DecodeBuild(size, Stamp(k.baseline, at, publisher, sent));
  }

  /** Any payload at all: what is not a header, or a header that claims a time before the
      end of the warm-up, after its own arrival or beyond the clock, is not timed. */
  lemma SampleIff(k: Clock, payload: seq<byte>, receivedAt: nat)
    ensures |payload| < 16 ==> Sample(k, payload, receivedAt) == None
    ensures |payload| >= 16 ==>
              var sentAt := k.baseline + FromBytes(payload[0..8]);
              Sample(k, payload, receivedAt)
              == if sentAt <= k.horizon && k.warmupUntil <= sentAt && sentAt <= receivedAt
                 then Some((receivedAt - sentAt) % 0x1_0000_0000_0000_0000) else None
  {
  }

  // ---- the receive loop ----

  /** One turn of the loop: a packet (and whether a reply to it can be written), the
      broker's end of stream, a read error, or the stop signal. */
  datatype Turn = Arrival(packet: Packet, at: nat, writable: bool) | EndOfStream | ReadError | StopSignal

  /** How `run` ends: with its samples, or with an error that loses them. */
  datatype Ending = Returned(samples: seq<U64>) | Refused(code: ReasonCode) | ReadFailed | ReplyFailed | StillReceiving

  /** The acknowledgement one packet calls for (sections 4.3.2 and 4.3.3). */
  function Reply(p: Packet): seq<Packet> {
    match p
    case Publish(AtLeastOnce, Some(id), _) => [Puback(id, SUCCESS)]
    case Publish(ExactlyOnce, Some(id), _) => [Pubrec(id, SUCCESS)]
    case Pubrel(id, _) => [Pubcomp(id, SUCCESS)]
    case _ => []
  }

  /** The answers owed that these packets give, each with success. */
  function Met(ps: seq<Packet>): multiset<Lockstep.Duty> {
    if ps == [] then multiset{}
    else
      var d := Lockstep.Discharged(ps[0]);
      (if d.Some? && ps[0].code == 0 then multiset{d.value} else multiset{}) + Met(ps[1..])
  }

  /** The reply to a packet answers exactly what the packet asks for. */
  lemma ReplyMeetsDuty(p: Packet)
    ensures Met(Reply(p)) == Lockstep.Incurred(p)
    ensures Reply(p) == [] <==> Lockstep.Incurred(p) == multiset{}
  {
    match p
    case Publish(AtLeastOnce, Some(id), _) => MetOne(Puback(id, SUCCESS));
    case Publish(ExactlyOnce, Some(id), _) => MetOne(Pubrec(id, SUCCESS));
    case Pubrel(id, _) => MetOne(Pubcomp(id, SUCCESS));
    case _ =>
  }

  lemma MetOne(r: Packet)
    requires Lockstep.Discharged(r).Some? && r.code == 0
    ensures Met([r]) == multiset{Lockstep.Discharged(r).value}
  {
    assert [r][1..] == [];
  }

  /** The loop goes on after this turn. */
  predicate GoesOn(t: Turn) {
    t.Arrival? && !t.packet.Disconnect? && (t.writable || Reply(t.packet) == [])
  }

  /** What the turn that ends the loop makes of it: the stop signal and the end of
      the stream keep the samples. */
  function EndingAt(t: Turn, samples: seq<U64>): Ending
    requires !GoesOn(t)
  {
    match t
    case Arrival(p, _, _) => if p.Disconnect? then Refused(p.code) else ReplyFailed
    case EndOfStream => Returned(samples)
    case ReadError => ReadFailed
    case StopSignal => Returned(samples)
  }

  /** How many turns are taken before the one that ends the loop. */
  function LoopLength(turns: seq<Turn>): (n: nat)
    ensures n <= |turns|
    ensures forall i :: 0 <= i < n ==> GoesOn(turns[i])
    ensures n < |turns| ==> !GoesOn(turns[n])
  {
    if turns == [] || !GoesOn(turns[0]) then 0 else 1 + LoopLength(turns[1..])
  }

  function WrittenFor(t: Turn): seq<Packet> {
    if t.Arrival? && t.writable then Reply(t.packet) else []
  }

  function Replies(turns: seq<Turn>): seq<Packet> {
    if turns == [] then [] else Replies(turns[..|turns| - 1]) + WrittenFor(turns[|turns| - 1])
  }

  /** What the packets of these turns ask for. */
  function Asked(turns: seq<Turn>): multiset<Lockstep.Duty> {
    if turns == [] then multiset{}
    else Asked(turns[..|turns| - 1])
         + (if turns[|turns| - 1].Arrival? then Lockstep.Incurred(turns[|turns| - 1].packet) else multiset{})
  }

  lemma {:induction false} MetConcat(a: seq<Packet>, b: seq<Packet>)
    ensures Met(a + b) == Met(a) + Met(b)
    decreases |a|
  {
    if a == [] {
      assert a + b == b;
    } else {
      assert (a + b)[1..] == a[1..] + b;
      MetConcat(a[1..], b);
    }
  }

  /** As long as the loop goes on, the replies written are exactly the answers asked
      for: none missing, none too many, none to the wrong identifier. */
  lemma {:induction false} RepliesMeetDuties(turns: seq<Turn>)
    requires forall i :: 0 <= i < |turns| ==> GoesOn(turns[i])
    ensures Met(Replies(turns)) == Asked(turns)
    decreases |turns|
  {
    if turns != [] {
      var n := |turns| - 1;
      RepliesMeetDuties(turns[..n]);
      MetConcat(Replies(turns[..n]), WrittenFor(turns[n]));
      ReplyMeetsDuty(turns[n].packet);
    }
  }

  function SampleOf(k: Clock, t: Turn): seq<U64> {
    if !t.Arrival? || !t.packet.Publish? then []
    else
      var s := Sample(k, t.packet.payload, t.at);
      if s.Some? then [s.value] else []
  }

  function SamplesOf(k: Clock, turns: seq<Turn>): seq<U64> {
    if turns == [] then [] else SamplesOf(k, turns[..|turns| - 1]) + SampleOf(k, turns[|turns| - 1])
  }

  function CountOf(t: Turn): nat {
    if t.Arrival? && t.packet.Publish? then 1 else 0
  }

  function Publishes(turns: seq<Turn>): nat {
    if turns == [] then 0 else Publishes(turns[..|turns| - 1]) + CountOf(turns[|turns| - 1])
  }

  lemma {:induction false} SamplesBounded(k: Clock, turns: seq<Turn>)
    ensures |SamplesOf(k, turns)| <= Publishes(turns)
    decreases |turns|
  {
    if turns != [] { SamplesBounded(k, turns[..|turns| - 1]); }
  }

  /** A loop that has gone on for i turns and ends at the next has length i. */
  lemma {:induction false} LengthIs(turns: seq<Turn>, i: nat)
    requires i <= |turns| && (forall j :: 0 <= j < i ==> GoesOn(turns[j])) && (i < |turns| ==> !GoesOn(turns[i]))
    ensures LoopLength(turns) == i
    decreases i
  {
    if i > 0 { LengthIs(turns[1..], i - 1); }
  }

  /** One packet other than DISCONNECT: counted and timed if it is a PUBLISH, then
      answered if it calls for an answer. */
  method HandleArrival(k: Clock, t: Turn)
    returns (received: nat, timed: seq<U64>, written: seq<Packet>, ok: bool)
    requires t.Arrival? && !t.packet.Disconnect?
    ensures received == CountOf(t) && timed == SampleOf(k, t) && written == WrittenFor(t) && ok == GoesOn(t)
  {
    received, timed, written, ok := 0, [], [], true;
    match t.packet
    case Publish(qos, packetId, payload) =>
      received := 1;
      var sample := Sample(k, payload, t.at);
      if sample.Some? {
        timed := [sample.value];
      }
      if packetId.Some? && !qos.AtMostOnce? {
        ok := t.writable;
        if ok {
          written := [if qos.AtLeastOnce? then Puback(packetId.value, SUCCESS) else Pubrec(packetId.value, SUCCESS)];
        }
      }
    case Pubrel(id, _) =>
      ok := t.writable;
      if ok {
        written := [Pubcomp(id, SUCCESS)];
      }
    case _ =>
  }

  /** After i turns, none of which ended the loop. */
  predicate Tracks(k: Clock, turns: seq<Turn>, i: nat, samples: seq<U64>, received: nat, replies: seq<Packet>) {
    && i <= |turns| && (forall j :: 0 <= j < i ==> GoesOn(turns[j]))
    && samples == SamplesOf(k, turns[..i]) && received == Publishes(turns[..i]) && replies == Replies(turns[..i])
  }

  /** What the loop has counted, written and returned in the end. */
  predicate Finished(k: Clock, turns: seq<Turn>, received: nat, replies: seq<Packet>, ending: Ending) {
    var n := LoopLength(turns);
    var seen := turns[..if n < |turns| then n + 1 else n];
    && received == Publishes(seen) && replies == Replies(seen)
    && ending == if n < |turns| then EndingAt(turns[n], SamplesOf(k, turns[..n])) else StillReceiving
  }

  /** Which turn ends the loop, and how, told apart; and everything before it has been
      answered. */
  lemma EndingTells(k: Clock, turns: seq<Turn>, received: nat, replies: seq<Packet>, ending: Ending)
    requires Finished(k, turns, received, replies, ending)
    ensures var n := LoopLength(turns);
            && Met(Replies(turns[..n])) == Asked(turns[..n])
            && (ending == StillReceiving <==> n == |turns|)
            && (n < |turns| ==>
                  match turns[n]
                  case StopSignal => ending == Returned(SamplesOf(k, turns[..n]))
                  case EndOfStream => ending == Returned(SamplesOf(k, turns[..n]))
                  case ReadError => ending == ReadFailed
                  case Arrival(Disconnect(code), _, _) => ending == Refused(code)
                  case Arrival(p, _, writable) =>
                    ending == ReplyFailed && !writable && Lockstep.Incurred(p) != multiset{})
  {
    var n := LoopLength(turns);
    RepliesMeetDuties(turns[..n]);
    if n < |turns| && turns[n].Arrival? { ReplyMeetsDuty(turns[n].packet); }
  }

  lemma OneTurnMore(k: Clock, turns: seq<Turn>, i: nat, samples: seq<U64>, received: nat, replies: seq<Packet>)
    requires i < |turns| && Tracks(k, turns, i, samples, received, replies) && GoesOn(turns[i])
    ensures Tracks(k, turns, i + 1, samples + SampleOf(k, turns[i]), received + CountOf(turns[i]),
                   replies + WrittenFor(turns[i]))
  {
    assert turns[..i + 1][..i] == turns[..i];
  }

  lemma LastTurn(k: Clock, turns: seq<Turn>, i: nat, samples: seq<U64>, received: nat, replies: seq<Packet>)
    requires i < |turns| && Tracks(k, turns, i, samples, received, replies) && !GoesOn(turns[i])
    ensures Finished(k, turns, received + CountOf(turns[i]), replies + WrittenFor(turns[i]),
                     EndingAt(turns[i], samples))
    ensures |samples| <= received
  {
    assert turns[..i + 1][..i] == turns[..i];
    LengthIs(turns, i);
    SamplesBounded(k, turns[..i]);
  }

  lemma NoLastTurn(k: Clock, turns: seq<Turn>, samples: seq<U64>, received: nat, replies: seq<Packet>)
    requires Tracks(k, turns, |turns|, samples, received, replies)
    ensures Finished(k, turns, received, replies, StillReceiving)
  {
    LengthIs(turns, |turns|);
  }

  /** The subscriber's loop. Every PUBLISH up to and including the turn that ends it
      is counted, timed if its header is plausible, and acknowledged per QoS; the
      samples come back only if the loop ends by the stop signal or the end of the
      stream. Arbitrary payload bytes are included. */
  method ReceiveLoop(k: Clock, turns: seq<Turn>) returns (received: nat, replies: seq<Packet>, ending: Ending)
    ensures Finished(k, turns, received, replies, ending)
    ensures ending.Returned? ==> |ending.samples| <= received
  {
    var samples: seq<U64> := [];
    received, replies := 0, [];
    for i := 0 to |turns|
      invariant Tracks(k, turns, i, samples, received, replies)
    {
      var t := turns[i];
      if GoesOn(t) {
        OneTurnMore(k, turns, i, samples, received, replies);
      } else {
        LastTurn(k, turns, i, samples, received, replies);
      }
      if t.StopSignal? || t.EndOfStream? {
        return received, replies, Returned(samples);
      } else if t.ReadError? {
        return received, replies, ReadFailed;
      } else if t.packet.Disconnect? {
        return received, replies, Refused(t.packet.code);
      }
      var counted, timed, written, ok := HandleArrival(k, t);
      received, samples, replies := received + counted, samples + timed, replies + written;
      if !ok {
        return received, replies, ReplyFailed;
      }
    }
    NoLastTurn(k, turns, samples, received, replies);
    ending := StillReceiving;
  }
}
