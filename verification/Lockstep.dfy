/** `pub`: one message at a time, each QoS handshake finished before the next. */
module Lockstep {
  import opened Mqtt

  /** What went over the connection, PINGRESP aside, in order. */
  datatype Exchange = Sent(packet: Packet) | Got(packet: Packet)

  /** What `recv` gives: a packet, or an error (end of stream included). A list of
      these that is exhausted means the client is still waiting. */
  datatype Inbound = Arrived(packet: Packet) | Lost

  datatype Result = Completed | Waiting | ConnectionLost | Rejected(code: ReasonCode) | ProtocolError

  // ---- the code's behaviour on a given stream of broker packets ----

  predicate IsAck(p: Packet) {
    p.Puback? || p.Pubrec? || p.Pubcomp?
  }

  /** `expect_ack`: any acknowledgement will do; its identifier is not looked at.
      Returns what was logged, what is left, and the acknowledgement's code. */
  function ExpectAck(inbox: seq<Inbound>): (seq<Exchange>, seq<Inbound>, Result, ReasonCode) {
    if inbox == [] then ([], [], Waiting, SUCCESS)
    else if inbox[0].Lost? then ([], inbox[1..], ConnectionLost, SUCCESS)
    else
      var p := inbox[0].packet;
      if p.Pingresp? then ExpectAck(inbox[1..])
      else if IsAck(p) then ([Got(p)], inbox[1..], Completed, p.code)
      else if p.Disconnect? then ([Got(p)], inbox[1..], Rejected(p.code), SUCCESS)
      else ([Got(p)], inbox[1..], ProtocolError, SUCCESS)
  }

  /** `expect_ack` followed by `check`. */
  function AwaitAccept(inbox: seq<Inbound>): (seq<Exchange>, seq<Inbound>, Result) {
    var (log, rest, result, code) := ExpectAck(inbox);
    (log, rest, if result.Completed? && IsError(code) then Rejected(code) else result)
  }

  /** `publish_one`, with the identifier already allocated. */
  function PublishOne(qos: QoS, payload: seq<byte>, id: PacketId, inbox: seq<Inbound>)
    : (seq<Exchange>, seq<Inbound>, Result)
  {
    if qos.AtMostOnce? then ([Sent(Publish(qos, None, payload))], inbox, Completed)
    else
      var publish := [Sent(Publish(qos, Some(id), payload))];
      var (log, rest, result) := AwaitAccept(inbox);
      if qos.AtLeastOnce? || !result.Completed? then (publish + log, rest, result)
      else
        var (log', rest', result') := AwaitAccept(rest);
        (publish + log + [Sent(Pubrel(id, SUCCESS))] + log', rest', result')
  }

  /** The per-line loop of `run`: stop at the first message that does not complete. */
  function PublishAll(qos: QoS, payloads: seq<seq<byte>>, k: nat, inbox: seq<Inbound>)
    : (seq<Exchange>, seq<Inbound>, Result)
    decreases |payloads|
  {
    if payloads == [] then ([], inbox, Completed)
    else
      var (log, rest, result) := PublishOne(qos, payloads[0], IdOf(k), inbox);
      if !result.Completed? then (log, rest, result)
      else
        var (log', rest', result') := PublishAll(qos, payloads[1..], if qos.AtMostOnce? then k else k + 1, rest);
        (log + log', rest', result')
  }

  // ---- what a conforming broker may send ----

  datatype Duty = OwesPuback(id: PacketId) | OwesPubrec(id: PacketId) | OwesPubcomp(id: PacketId)

  function Discharged(p: Packet): Option<Duty> {
    match p
    case Puback(id, _) => Some(OwesPuback(id))
    case Pubrec(id, _) => Some(OwesPubrec(id))
    case Pubcomp(id, _) => Some(OwesPubcomp(id))
    case _ => None
  }

  function Incurred(p: Packet): multiset<Duty> {
    match p
    case Publish(AtLeastOnce, Some(id), _) => multiset{OwesPuback(id)}
    case Publish(ExactlyOnce, Some(id), _) => multiset{OwesPubrec(id)}
    case Pubrel(id, _) => multiset{OwesPubcomp(id)}
    case _ => multiset{}
  }

  function OwedAfter(owed: multiset<Duty>, x: Exchange): multiset<Duty> {
    if x.Sent? then owed + Incurred(x.packet)
    else
      var d := Discharged(x.packet);
      if d.Some? then owed - multiset{d.value} else owed
  }

  function OwedAfterAll(owed: multiset<Duty>, log: seq<Exchange>): multiset<Duty>
    decreases |log|
  {
    if log == [] then owed else OwedAfterAll(OwedAfter(owed, log[0]), log[1..])
  }

  /** Acknowledgements answer something still owed; nothing else is restricted. */
  predicate Conforming(owed: multiset<Duty>, log: seq<Exchange>)
    decreases |log|
  {
    log == [] || ((log[0].Got? && Discharged(log[0].packet).Some? ==> Discharged(log[0].packet).value in owed)
                  && Conforming(OwedAfter(owed, log[0]), log[1..]))
  }

  lemma {:induction false} ConformingSplits(owed: multiset<Duty>, a: seq<Exchange>, b: seq<Exchange>)
    requires Conforming(owed, a + b)
    ensures Conforming(owed, a) && Conforming(OwedAfterAll(owed, a), b)
    decreases |a|
  {
    if a == [] {
      assert a + b == b;
    } else {
      assert (a + b)[1..] == a[1..] + b;
      ConformingSplits(OwedAfter(owed, a[0]), a[1..], b);
    }
  }

  // ---- the protocol the source promises ----

  /** The log ends here with a packet that is no acknowledgement. */
  predicate EndsBadly(log: seq<Exchange>) {
    |log| == 1 && log[0].Got? && !IsAck(log[0].packet)
  }

  /** Reference protocol: message k is sent with identifier IdOf(k); at QoS 1 its
      own PUBACK follows, at QoS 2 its own PUBREC, then, only if that is no
      error, its PUBREL and its own PUBCOMP; the next message starts only after
      its predecessor's last acknowledgement accepted it. */
  predicate InLockstep(qos: QoS, payloads: seq<seq<byte>>, k: nat, log: seq<Exchange>)
    decreases |log|
  {
    log == [] ||
    (payloads != [] &&
     match qos
     case AtMostOnce =>
       log[0] == Sent(Publish(qos, None, payloads[0])) && InLockstep(qos, payloads[1..], k, log[1..])
     case AtLeastOnce =>
       && log[0] == Sent(Publish(qos, Some(IdOf(k)), payloads[0]))
       && (|log| == 1 || EndsBadly(log[1..]) ||
           (log[1].Got? && log[1].packet.Puback? && log[1].packet.id == IdOf(k)
            && if IsError(log[1].packet.code) then |log| == 2
               else InLockstep(qos, payloads[1..], k + 1, log[2..])))
     case ExactlyOnce =>
       && log[0] == Sent(Publish(qos, Some(IdOf(k)), payloads[0]))
       && (|log| == 1 || EndsBadly(log[1..]) ||
           (log[1].Got? && log[1].packet.Pubrec? && log[1].packet.id == IdOf(k)
            && if IsError(log[1].packet.code) then |log| == 2
               else |log| >= 3 && log[2] == Sent(Pubrel(IdOf(k), SUCCESS)) && Released(qos, payloads, k, log[3..]))))
  }

  /** The second half of a QoS 2 exchange, and what follows it. */
  predicate Released(qos: QoS, payloads: seq<seq<byte>>, k: nat, log: seq<Exchange>)
    requires payloads != []
    decreases |log|
  {
    log == [] || EndsBadly(log) ||
    (log[0].Got? && log[0].packet.Pubcomp? && log[0].packet.id == IdOf(k)
     && if IsError(log[0].packet.code) then |log| == 1
        else InLockstep(qos, payloads[1..], k + 1, log[1..]))
  }

  // ---- the code follows it against every conforming broker ----

  lemma {:induction false} AwaitLogsOne(inbox: seq<Inbound>)
    ensures var (log, rest, result) := AwaitAccept(inbox);
            && |log| <= 1 && (log == [] <==> result.Waiting? || result.ConnectionLost?)
            && (log != [] ==> log[0].Got?)
            && (log != [] ==> (result.Completed? <==> IsAck(log[0].packet) && !IsError(log[0].packet.code)))
    decreases |inbox|
  {
    if inbox != [] && inbox[0] == Arrived(Pingresp) {
      AwaitLogsOne(inbox[1..]);
    }
  }

  /** With a single duty outstanding, a conforming answer can only be its own. */
  lemma OnlyOwnAnswer(d: Duty, log: seq<Exchange>)
    requires |log| == 1 && log[0].Got? && IsAck(log[0].packet) && Conforming(multiset{d}, log)
    ensures Discharged(log[0].packet) == Some(d) && OwedAfterAll(multiset{d}, log) == multiset{}
  {
    assert log[1..] == [];
  }

  lemma OwesAfterSend(p: Packet, rest: seq<Exchange>)
    requires Conforming(multiset{}, [Sent(p)] + rest)
    ensures Conforming(Incurred(p), rest)
  {
    var log := [Sent(p)] + rest;
    assert log[1..] == rest;
    assert multiset{} + Incurred(p) == Incurred(p);
  }

  /** An awaited answer: none yet, a packet that ends the run, or the answer to
      `d` itself, after which nothing is owed. */
  predicate Answers(d: Duty, answer: seq<Exchange>, later: seq<Exchange>) {
    || (answer == [] && later == [])
    || (EndsBadly(answer) && later == [])
    || (|answer| == 1 && answer[0].Got? && IsAck(answer[0].packet) && Discharged(answer[0].packet) == Some(d)
        && (IsError(answer[0].packet.code) ==> later == []))
  }

  lemma AwaitedAnswer(d: Duty, inbox: seq<Inbound>, later: seq<Exchange>)
    requires !AwaitAccept(inbox).2.Completed? ==> later == []
    requires Conforming(multiset{d}, AwaitAccept(inbox).0 + later)
    ensures Answers(d, AwaitAccept(inbox).0, later)
    ensures AwaitAccept(inbox).2.Completed? ==> Conforming(multiset{}, later)
  {
    AwaitLogsOne(inbox);
    var answer := AwaitAccept(inbox).0;
    ConformingSplits(multiset{d}, answer, later);
    if answer != [] && IsAck(answer[0].packet) {
      OnlyOwnAnswer(d, answer);
    }
  }

  /** For every payload list, QoS and broker stream: if the broker conforms, the
      whole conversation is in lockstep, although identifiers are never compared. */
  lemma {:induction false} CodeIsInLockstep(qos: QoS, payloads: seq<seq<byte>>, k: nat, inbox: seq<Inbound>)
    requires Conforming(multiset{}, PublishAll(qos, payloads, k, inbox).0)
    ensures InLockstep(qos, payloads, k, PublishAll(qos, payloads, k, inbox).0)
    decreases |payloads|, 2
  {
    if payloads != [] {
      if qos.AtMostOnce? {
        Qos0Step(payloads, k, inbox);
      } else if qos.AtLeastOnce? {
        Qos1Step(payloads, k, inbox);
      } else {
        Qos2Step(payloads, k, inbox);
      }
    }
  }

  lemma Qos0Step(payloads: seq<seq<byte>>, k: nat, inbox: seq<Inbound>)
    requires payloads != [] && Conforming(multiset{}, PublishAll(AtMostOnce, payloads, k, inbox).0)
    ensures InLockstep(AtMostOnce, payloads, k, PublishAll(AtMostOnce, payloads, k, inbox).0)
    decreases |payloads|, 0
  {
    var later := PublishAll(AtMostOnce, payloads[1..], k, inbox).0;
    var log := PublishAll(AtMostOnce, payloads, k, inbox).0;
    assert log == [Sent(Publish(AtMostOnce, None, payloads[0]))] + later;
    OwesAfterSend(Publish(AtMostOnce, None, payloads[0]), later);
    CodeIsInLockstep(AtMostOnce, payloads[1..], k, inbox);
    assert log[1..] == later;
  }

  /** The messages after this one, if it completed. */
  function Later(qos: QoS, payloads: seq<seq<byte>>, k: nat, inbox: seq<Inbound>): seq<Exchange>
    requires payloads != []
  {
    var (answer, rest, result) := AwaitAccept(inbox);
    if result.Completed? then PublishAll(qos, payloads[1..], k + 1, rest).0 else []
  }

  lemma Assoc(a: seq<Exchange>, b: seq<Exchange>, d: seq<Exchange>)
    ensures a + b + d == a + (b + d)
  {
  }

  lemma NothingMore(a: seq<Exchange>)
    ensures a + [] == a
  {
  }

  lemma Qos1Shape(payloads: seq<seq<byte>>, k: nat, inbox: seq<Inbound>)
    requires payloads != []
    ensures PublishAll(AtLeastOnce, payloads, k, inbox).0
            == [Sent(Publish(AtLeastOnce, Some(IdOf(k)), payloads[0]))]
               + (AwaitAccept(inbox).0 + Later(AtLeastOnce, payloads, k, inbox))
  {
    var send := [Sent(Publish(AtLeastOnce, Some(IdOf(k)), payloads[0]))];
    var (answer, rest, result) := AwaitAccept(inbox);
    assert PublishOne(AtLeastOnce, payloads[0], IdOf(k), inbox) == (send + answer, rest, result);
    Assoc(send, answer, Later(AtLeastOnce, payloads, k, inbox));
    NothingMore(answer);
  }

  lemma Qos1Assemble(payloads: seq<seq<byte>>, k: nat, answer: seq<Exchange>, later: seq<Exchange>)
    requires payloads != [] && Answers(OwesPuback(IdOf(k)), answer, later)
    requires InLockstep(AtLeastOnce, payloads[1..], k + 1, later)
    ensures InLockstep(AtLeastOnce, payloads, k,
                       [Sent(Publish(AtLeastOnce, Some(IdOf(k)), payloads[0]))] + (answer + later))
  {
    var log := [Sent(Publish(AtLeastOnce, Some(IdOf(k)), payloads[0]))] + (answer + later);
    if answer != [] {
      assert log[1..] == answer + later && log[1] == answer[0];
      assert log[2..] == later;
      NothingMore(answer);
    }
  }

  lemma Qos1Step(payloads: seq<seq<byte>>, k: nat, inbox: seq<Inbound>)
    requires payloads != [] && Conforming(multiset{}, PublishAll(AtLeastOnce, payloads, k, inbox).0)
    ensures InLockstep(AtLeastOnce, payloads, k, PublishAll(AtLeastOnce, payloads, k, inbox).0)
    decreases |payloads|, 0
  {
    var (answer, rest, result) := AwaitAccept(inbox);
    var later := Later(AtLeastOnce, payloads, k, inbox);
    Qos1Shape(payloads, k, inbox);
    OwesAfterSend(Publish(AtLeastOnce, Some(IdOf(k)), payloads[0]), answer + later);
    AwaitedAnswer(OwesPuback(IdOf(k)), inbox, later);
    if result.Completed? {
      CodeIsInLockstep(AtLeastOnce, payloads[1..], k + 1, rest);
    }
    Qos1Assemble(payloads, k, answer, later);
  }

  /** PUBREL, its answer, and the messages after it. */
  function Qos2Tail(payloads: seq<seq<byte>>, k: nat, inbox: seq<Inbound>): seq<Exchange>
    requires payloads != []
  {
    [Sent(Pubrel(IdOf(k), SUCCESS))] + (AwaitAccept(inbox).0 + Later(ExactlyOnce, payloads, k, inbox))
  }

  function Qos2Later(payloads: seq<seq<byte>>, k: nat, inbox: seq<Inbound>): seq<Exchange>
    requires payloads != []
  {
    var (rec, rest, result) := AwaitAccept(inbox);
    if result.Completed? then Qos2Tail(payloads, k, rest) else []
  }

  lemma Qos2Shape(payloads: seq<seq<byte>>, k: nat, inbox: seq<Inbound>)
    requires payloads != []
    ensures PublishAll(ExactlyOnce, payloads, k, inbox).0
            == [Sent(Publish(ExactlyOnce, Some(IdOf(k)), payloads[0]))]
               + (AwaitAccept(inbox).0 + Qos2Later(payloads, k, inbox))
  {
    var send := [Sent(Publish(ExactlyOnce, Some(IdOf(k)), payloads[0]))];
    var (rec, rest, result) := AwaitAccept(inbox);
    if result.Completed? {
      var release := [Sent(Pubrel(IdOf(k), SUCCESS))];
      var (comp, rest', result') := AwaitAccept(rest);
      var one := send + rec + release + comp;
      assert PublishOne(ExactlyOnce, payloads[0], IdOf(k), inbox) == (one, rest', result');
      Regroup(send, rec, release, comp, Later(ExactlyOnce, payloads, k, rest));
      NothingMore(one);
    } else {
      assert PublishOne(ExactlyOnce, payloads[0], IdOf(k), inbox) == (send + rec, rest, result);
      NothingMore(rec);
    }
  }

  lemma Regroup(a: seq<Exchange>, b: seq<Exchange>, d: seq<Exchange>, e: seq<Exchange>, f: seq<Exchange>)
    ensures a + b + d + e + f == a + (b + (d + (e + f)))
  {
    Assoc(d, e, f);
    Assoc(b, d, e + f);
    Assoc(a, b, d + (e + f));
    Assoc(a + b, d, e + f);
    Assoc(a + b + d, e, f);
  }

  lemma Qos2Assemble(payloads: seq<seq<byte>>, k: nat, answer: seq<Exchange>, later: seq<Exchange>)
    requires payloads != [] && Answers(OwesPubrec(IdOf(k)), answer, later)
    requires |answer| == 1 && IsAck(answer[0].packet) && !IsError(answer[0].packet.code) ==>
               && |later| >= 1 && later[0] == Sent(Pubrel(IdOf(k), SUCCESS))
               && Released(ExactlyOnce, payloads, k, later[1..])
    ensures InLockstep(ExactlyOnce, payloads, k,
                       [Sent(Publish(ExactlyOnce, Some(IdOf(k)), payloads[0]))] + (answer + later))
  {
    var log := [Sent(Publish(ExactlyOnce, Some(IdOf(k)), payloads[0]))] + (answer + later);
    if answer != [] {
      assert log[1..] == answer + later && log[1] == answer[0];
      assert log[2..] == later;
      NothingMore(answer);
      if later != [] {
        assert log[2] == later[0] && log[3..] == later[1..];
      }
    }
  }

  lemma Qos2Step(payloads: seq<seq<byte>>, k: nat, inbox: seq<Inbound>)
    requires payloads != [] && Conforming(multiset{}, PublishAll(ExactlyOnce, payloads, k, inbox).0)
    ensures InLockstep(ExactlyOnce, payloads, k, PublishAll(ExactlyOnce, payloads, k, inbox).0)
    decreases |payloads|, 1
  {
    var (rec, rest, result) := AwaitAccept(inbox);
    var later := Qos2Later(payloads, k, inbox);
    Qos2Shape(payloads, k, inbox);
    OwesAfterSend(Publish(ExactlyOnce, Some(IdOf(k)), payloads[0]), rec + later);
    AwaitedAnswer(OwesPubrec(IdOf(k)), inbox, later);
    AwaitLogsOne(inbox);
    if result.Completed? {
      Qos2Second(payloads, k, rest);
    }
    Qos2Assemble(payloads, k, rec, later);
  }

  lemma ReleasedAssemble(payloads: seq<seq<byte>>, k: nat, answer: seq<Exchange>, later: seq<Exchange>)
    requires payloads != [] && Answers(OwesPubcomp(IdOf(k)), answer, later)
    requires InLockstep(ExactlyOnce, payloads[1..], k + 1, later)
    ensures Released(ExactlyOnce, payloads, k, answer + later)
  {
    if answer != [] {
      assert (answer + later)[1..] == later;
    }
  }

  lemma Qos2Second(payloads: seq<seq<byte>>, k: nat, inbox: seq<Inbound>)
    requires payloads != [] && Conforming(multiset{}, Qos2Tail(payloads, k, inbox))
    ensures Released(ExactlyOnce, payloads, k, Qos2Tail(payloads, k, inbox)[1..])
    decreases |payloads|, 0
  {
    var (comp, rest, result) := AwaitAccept(inbox);
    var later := Later(ExactlyOnce, payloads, k, inbox);
    OwesAfterSend(Pubrel(IdOf(k), SUCCESS), comp + later);
    assert Qos2Tail(payloads, k, inbox)[1..] == comp + later;
    AwaitedAnswer(OwesPubcomp(IdOf(k)), inbox, later);
    if result.Completed? {
      CodeIsInLockstep(ExactlyOnce, payloads[1..], k + 1, rest);
    }
    ReleasedAssemble(payloads, k, comp, later);
  }

  // ---- what becomes of every inbox ----

  /** What is not a PINGRESP. */
  function Significant(inbox: seq<Inbound>): seq<Inbound> {
    if inbox == [] then []
    else (if inbox[0] == Arrived(Pingresp) then [] else [inbox[0]]) + Significant(inbox[1..])
  }

  /** An acknowledgement of any kind whose Reason Code is below 0x80. */
  predicate Accepting(m: Inbound) {
    m.Arrived? && (m.packet.Puback? || m.packet.Pubrec? || m.packet.Pubcomp?) && m.packet.code < 0x80
  }

  /** What stops `pub`, if it is not an accepting acknowledgement. */
  function Verdict(m: Inbound): Result {
    match m
    case Lost => ConnectionLost
    case Arrived(Puback(_, code)) => Rejected(code)
    case Arrived(Pubrec(_, code)) => Rejected(code)
    case Arrived(Pubcomp(_, code)) => Rejected(code)
    case Arrived(Disconnect(code)) => Rejected(code)
    case _ => ProtocolError
  }

  /** The packets to send, each waiting for an acceptance of the one before. */
  function Script(qos: QoS, payloads: seq<seq<byte>>, k: nat): seq<Packet>
    decreases |payloads|
  {
    if payloads == [] then []
    else
      match qos
      case AtMostOnce => [Publish(qos, None, payloads[0])] + Script(qos, payloads[1..], k)
      case AtLeastOnce => [Publish(qos, Some(IdOf(k)), payloads[0])] + Script(qos, payloads[1..], k + 1)
      case ExactlyOnce =>
        [Publish(qos, Some(IdOf(k)), payloads[0]), Pubrel(IdOf(k), SUCCESS)] + Script(qos, payloads[1..], k + 1)
  }

  /** How many accepting acknowledgements come first, `need` at most. */
  function Accepted(sig: seq<Inbound>, need: nat): nat
    decreases need
  {
    if need == 0 || sig == [] || !Accepting(sig[0]) then 0 else 1 + Accepted(sig[1..], need - 1)
  }

  /** The answers in a log, in order. */
  function Answered(log: seq<Exchange>): seq<Packet> {
    if log == [] then [] else (if log[0].Got? then [log[0].packet] else []) + Answered(log[1..])
  }

  function SentBy(log: seq<Exchange>): seq<Packet> {
    if log == [] then [] else (if log[0].Sent? then [log[0].packet] else []) + SentBy(log[1..])
  }

  function PacketsOf(sig: seq<Inbound>): seq<Packet> {
    if sig == [] then [] else (if sig[0].Arrived? then [sig[0].packet] else []) + PacketsOf(sig[1..])
  }

  lemma AnsweredCons(x: Exchange, log: seq<Exchange>)
    ensures Answered([x] + log) == (if x.Got? then [x.packet] else []) + Answered(log)
    ensures SentBy([x] + log) == (if x.Sent? then [x.packet] else []) + SentBy(log)
  {
    assert ([x] + log)[1..] == log;
  }

  /** A conversation over `script`: send, wait for one significant packet, go on if it
      accepts. */
  function Converse(script: seq<Packet>, sig: seq<Inbound>): (seq<Exchange>, seq<Inbound>, Result)
    decreases |script|
  {
    if script == [] then ([], sig, Completed)
    else if sig == [] then ([Sent(script[0])], [], Waiting)
    else if Accepting(sig[0]) then
      var (log, rest, result) := Converse(script[1..], sig[1..]);
      ([Sent(script[0])] + ([Got(sig[0].packet)] + log), rest, result)
    else
      ([Sent(script[0])] + (if sig[0].Arrived? then [Got(sig[0].packet)] else []), sig[1..], Verdict(sig[0]))
  }

  /** How many packets of the script are sent: one more than are accepted in a row. */
  function SendCount(need: nat, sig: seq<Inbound>): nat {
    var n := Accepted(sig, need);
    if n == need then n else n + 1
  }

  /** How many significant packets are consumed: the accepting ones, and the first that
      is not, if one more is needed and there is one. */
  function SeenCount(need: nat, sig: seq<Inbound>): nat {
    var n := Accepted(sig, need);
    if n == need || n == |sig| then n else n + 1
  }

  lemma {:induction false} CountBounds(need: nat, sig: seq<Inbound>)
    ensures Accepted(sig, need) <= need && Accepted(sig, need) <= |sig|
    ensures SendCount(need, sig) <= need && SeenCount(need, sig) <= |sig|
    decreases need
  {
    if need > 0 && sig != [] { CountBounds(need - 1, sig[1..]); }
  }

  /** What such a conversation comes to: it completes if enough is accepted, waits if
      nothing else comes, and otherwise the first packet that does not accept says why
      it stops. */
  predicate ComesTo(script: seq<Packet>, sig: seq<Inbound>, log: seq<Exchange>, rest: seq<Inbound>, result: Result) {
    CountBounds(|script|, sig);
    var n := Accepted(sig, |script|);
    && SentBy(log) == script[..SendCount(|script|, sig)]
    && Answered(log) == PacketsOf(sig[..SeenCount(|script|, sig)]) && rest == sig[SeenCount(|script|, sig)..]
    && result == if n == |script| then Completed else if n == |sig| then Waiting else Verdict(sig[n])
  }

  lemma {:induction false} ConverseComesTo(script: seq<Packet>, sig: seq<Inbound>)
    ensures var (log, rest, result) := Converse(script, sig); ComesTo(script, sig, log, rest, result)
    decreases |script|
  {
    if script != [] && sig != [] && Accepting(sig[0]) {
      ConverseComesTo(script[1..], sig[1..]);
      var (log, rest, result) := Converse(script[1..], sig[1..]);
      ComesToNext(script, sig, log, rest, result);
    } else {
      ConverseStops(script, sig);
    }
  }

  lemma ConverseStops(script: seq<Packet>, sig: seq<Inbound>)
    requires script == [] || sig == [] || !Accepting(sig[0])
    ensures var (log, rest, result) := Converse(script, sig); ComesTo(script, sig, log, rest, result)
  {
    if script != [] {
      assert script[..1] == [script[0]];
      if sig != [] {
        assert sig[..1] == [sig[0]] && [sig[0]][1..] == [];
        var got := if sig[0].Arrived? then [Got(sig[0].packet)] else [];
        assert Answered(got) == PacketsOf([sig[0]]) && SentBy(got) == [];
        AnsweredCons(Sent(script[0]), got);
      }
    }
  }

  lemma ComesToNext(script: seq<Packet>, sig: seq<Inbound>, log: seq<Exchange>, rest: seq<Inbound>, result: Result)
    requires script != [] && sig != [] && Accepting(sig[0]) && ComesTo(script[1..], sig[1..], log, rest, result)
    ensures ComesTo(script, sig, [Sent(script[0])] + ([Got(sig[0].packet)] + log), rest, result)
  {
    CountsCons(|script|, sig);
    CountBounds(|script|, sig);
    CountBounds(|script| - 1, sig[1..]);
    SentNext(script, sig[0].packet, log, SendCount(|script| - 1, sig[1..]));
    AnsweredNext(script[0], sig, log, SeenCount(|script| - 1, sig[1..]));
  }

  lemma SentNext(script: seq<Packet>, answer: Packet, log: seq<Exchange>, m: nat)
    requires m < |script| && SentBy(log) == script[1..][..m]
    ensures SentBy([Sent(script[0])] + ([Got(answer)] + log)) == script[..m + 1]
  {
    AnsweredCons(Got(answer), log);
    AnsweredCons(Sent(script[0]), [Got(answer)] + log);
    ScriptCons(script, m + 1);
    assert [] + SentBy(log) == SentBy(log);
  }

  lemma AnsweredNext(p: Packet, sig: seq<Inbound>, log: seq<Exchange>, m: nat)
    requires m < |sig| && sig[0].Arrived? && Answered(log) == PacketsOf(sig[1..][..m])
    ensures Answered([Sent(p)] + ([Got(sig[0].packet)] + log)) == PacketsOf(sig[..m + 1])
    ensures sig[m + 1..] == sig[1..][m..]
  {
    AnsweredCons(Got(sig[0].packet), log);
    AnsweredCons(Sent(p), [Got(sig[0].packet)] + log);
    PacketsCons(sig, m + 1);
  }

  lemma CountsCons(need: nat, sig: seq<Inbound>)
    requires need > 0 && sig != [] && Accepting(sig[0])
    ensures Accepted(sig, need) == Accepted(sig[1..], need - 1) + 1
    ensures SendCount(need, sig) == SendCount(need - 1, sig[1..]) + 1
    ensures SeenCount(need, sig) == SeenCount(need - 1, sig[1..]) + 1
  {
  }

  lemma ScriptCons(script: seq<Packet>, n: nat)
    requires 0 < n <= |script|
    ensures script[..n] == [script[0]] + script[1..][..n - 1]
  {
  }

  lemma PacketsCons(sig: seq<Inbound>, seen: nat)
    requires 0 < seen <= |sig| && sig[0].Arrived?
    ensures PacketsOf(sig[..seen]) == [sig[0].packet] + PacketsOf(sig[1..][..seen - 1])
    ensures sig[seen..] == sig[1..][seen - 1..]
  {
    assert sig[..seen][1..] == sig[1..][..seen - 1];
  }

  /** One wait, in terms of the first significant packet. */
  predicate AwaitGives(sig: seq<Inbound>, log: seq<Exchange>, rest: seq<Inbound>, result: Result) {
    if sig == [] then log == [] && rest == [] && result == Waiting
    else
      && rest == sig[1..] && log == (if sig[0].Arrived? then [Got(sig[0].packet)] else [])
      && result == if Accepting(sig[0]) then Completed else Verdict(sig[0])
  }

  lemma SignificantHead(inbox: seq<Inbound>)
    requires inbox != []
    ensures if inbox[0] == Arrived(Pingresp) then Significant(inbox) == Significant(inbox[1..])
            else && Significant(inbox) != [] && Significant(inbox)[0] == inbox[0]
                 && Significant(inbox)[1..] == Significant(inbox[1..])
  {
  }

  lemma {:induction false} AwaitBySignificant(inbox: seq<Inbound>)
    ensures var (log, rest, result) := AwaitAccept(inbox);
            AwaitGives(Significant(inbox), log, Significant(rest), result)
    decreases |inbox|
  {
    if inbox != [] {
      SignificantHead(inbox);
      if inbox[0] == Arrived(Pingresp) {
        AwaitBySignificant(inbox[1..]);
      }
    }
  }

  lemma ConverseStep(p: Packet, script: seq<Packet>, sig: seq<Inbound>)
    ensures Converse([p] + script, sig)
            == if sig == [] then ([Sent(p)], [], Waiting)
               else if Accepting(sig[0]) then
                 var (log, rest, result) := Converse(script, sig[1..]);
                 ([Sent(p)] + ([Got(sig[0].packet)] + log), rest, result)
               else ([Sent(p)] + (if sig[0].Arrived? then [Got(sig[0].packet)] else []), sig[1..], Verdict(sig[0]))
  {
    assert ([p] + script)[1..] == script;
  }

  /** The same conversation, apart from PINGRESPs left unread. */
  predicate SameTalk(a: (seq<Exchange>, seq<Inbound>, Result), b: (seq<Exchange>, seq<Inbound>, Result)) {
    a.0 == b.0 && Significant(a.1) == b.1 && a.2 == b.2
  }

  lemma {:induction false} PublishAllConverses(qos: QoS, payloads: seq<seq<byte>>, k: nat, inbox: seq<Inbound>)
    requires !qos.AtMostOnce?
    ensures SameTalk(PublishAll(qos, payloads, k, inbox), Converse(Script(qos, payloads, k), Significant(inbox)))
    decreases |payloads|
  {
    if payloads != [] {
      var (answer, rest, result) := AwaitAccept(inbox);
      if qos.AtLeastOnce? {
        if result.Completed? { PublishAllConverses(qos, payloads[1..], k + 1, rest); }
        Qos1Converses(payloads, k, inbox);
      } else {
        var (answer', rest', result') := AwaitAccept(rest);
        if result.Completed? && result'.Completed? { PublishAllConverses(qos, payloads[1..], k + 1, rest'); }
        Qos2Converses(payloads, k, inbox);
      }
    }
  }

  lemma Qos1Converses(payloads: seq<seq<byte>>, k: nat, inbox: seq<Inbound>)
    requires payloads != []
    requires var (answer, rest, result) := AwaitAccept(inbox);
             result.Completed? ==> SameTalk(PublishAll(AtLeastOnce, payloads[1..], k + 1, rest),
                                            Converse(Script(AtLeastOnce, payloads[1..], k + 1), Significant(rest)))
    ensures SameTalk(PublishAll(AtLeastOnce, payloads, k, inbox),
                     Converse(Script(AtLeastOnce, payloads, k), Significant(inbox)))
  {
    var p := Publish(AtLeastOnce, Some(IdOf(k)), payloads[0]);
    AwaitBySignificant(inbox);
    ConverseStep(p, Script(AtLeastOnce, payloads[1..], k + 1), Significant(inbox));
    Qos1Shape(payloads, k, inbox);
    var (answer, rest, result) := AwaitAccept(inbox);
    Assoc([Sent(p)], answer, Later(AtLeastOnce, payloads, k, inbox));
    NothingMore([Sent(p)] + answer);
  }

  /** From the PUBREL on. */
  function SecondHalf(payloads: seq<seq<byte>>, k: nat, inbox: seq<Inbound>): (seq<Exchange>, seq<Inbound>, Result)
    requires payloads != []
  {
    var (answer, rest, result) := AwaitAccept(inbox);
    var release := [Sent(Pubrel(IdOf(k), SUCCESS))];
    if result.Completed? then
      var (log, rest', result') := PublishAll(ExactlyOnce, payloads[1..], k + 1, rest);
      (release + (answer + log), rest', result')
    else (release + answer, rest, result)
  }

  lemma Qos2SecondConverses(payloads: seq<seq<byte>>, k: nat, inbox: seq<Inbound>)
    requires payloads != []
    requires var (answer, rest, result) := AwaitAccept(inbox);
             result.Completed? ==> SameTalk(PublishAll(ExactlyOnce, payloads[1..], k + 1, rest),
                                            Converse(Script(ExactlyOnce, payloads[1..], k + 1), Significant(rest)))
    ensures var script := [Pubrel(IdOf(k), SUCCESS)] + Script(ExactlyOnce, payloads[1..], k + 1);
            SameTalk(SecondHalf(payloads, k, inbox), Converse(script, Significant(inbox)))
  {
    var p := Pubrel(IdOf(k), SUCCESS);
    AwaitBySignificant(inbox);
    ConverseStep(p, Script(ExactlyOnce, payloads[1..], k + 1), Significant(inbox));
    NothingMore([Sent(p)]);
  }

  /** A QoS 2 message: its PUBLISH and the first answer, then the second half. */
  lemma Qos2Halves(payloads: seq<seq<byte>>, k: nat, inbox: seq<Inbound>)
    requires payloads != []
    ensures var send := [Sent(Publish(ExactlyOnce, Some(IdOf(k)), payloads[0]))];
            var (answer, rest, result) := AwaitAccept(inbox);
            PublishAll(ExactlyOnce, payloads, k, inbox)
            == if result.Completed? then
                 var (log, rest', result') := SecondHalf(payloads, k, rest);
                 (send + (answer + log), rest', result')
               else (send + answer, rest, result)
  {
    var send := [Sent(Publish(ExactlyOnce, Some(IdOf(k)), payloads[0]))];
    var (rec, rest, result) := AwaitAccept(inbox);
    if result.Completed? {
      var release := [Sent(Pubrel(IdOf(k), SUCCESS))];
      var (comp, rest', result') := AwaitAccept(rest);
      var one := send + rec + release + comp;
      assert PublishOne(ExactlyOnce, payloads[0], IdOf(k), inbox) == (one, rest', result');
      if result'.Completed? {
        Regroup(send, rec, release, comp, PublishAll(ExactlyOnce, payloads[1..], k + 1, rest').0);
      } else {
        Regroup(send, rec, release, comp, []);
        NothingMore(one);
        NothingMore(comp);
      }
    }
  }

  lemma Qos2Converses(payloads: seq<seq<byte>>, k: nat, inbox: seq<Inbound>)
    requires payloads != []
    requires var (answer, rest, result) := AwaitAccept(inbox);
             var (answer', rest', result') := AwaitAccept(rest);
             result.Completed? && result'.Completed? ==>
               SameTalk(PublishAll(ExactlyOnce, payloads[1..], k + 1, rest'),
                        Converse(Script(ExactlyOnce, payloads[1..], k + 1), Significant(rest')))
    ensures SameTalk(PublishAll(ExactlyOnce, payloads, k, inbox),
                     Converse(Script(ExactlyOnce, payloads, k), Significant(inbox)))
  {
    var p, q := Publish(ExactlyOnce, Some(IdOf(k)), payloads[0]), Pubrel(IdOf(k), SUCCESS);
    var later := Script(ExactlyOnce, payloads[1..], k + 1);
    assert [p, q] + later == [p] + ([q] + later);
    AwaitBySignificant(inbox);
    ConverseStep(p, [q] + later, Significant(inbox));
    Qos2Halves(payloads, k, inbox);
    var (answer, rest, result) := AwaitAccept(inbox);
    if result.Completed? {
      Qos2SecondConverses(payloads, k, rest);
    }
    NothingMore([Sent(p)]);
  }

  /** Every inbox at QoS 1 and 2, identifiers never looked at: what is sent, what is
      consumed and how `pub` ends, read off the packets other than PINGRESP. It stops
      with the code of the first refusal or DISCONNECT, with a protocol error at the
      first foreign packet, and with the connection. */
  lemma PubOutcome(qos: QoS, payloads: seq<seq<byte>>, k: nat, inbox: seq<Inbound>)
    requires !qos.AtMostOnce?
    ensures var (log, rest, result) := PublishAll(qos, payloads, k, inbox);
            ComesTo(Script(qos, payloads, k), Significant(inbox), log, Significant(rest), result)
  {
    PublishAllConverses(qos, payloads, k, inbox);
    ConverseComesTo(Script(qos, payloads, k), Significant(inbox));
  }

  lemma {:induction false} AllAccepted(sig: seq<Inbound>, need: nat)
    requires forall i :: 0 <= i < |sig| ==> Accepting(sig[i])
    ensures Accepted(sig, need) == if |sig| <= need then |sig| else need
    decreases need
  {
    if need > 0 && sig != [] { AllAccepted(sig[1..], need - 1); }
  }

  /** In particular `pub` succeeds when each message gets its accepting
      acknowledgements, PINGRESPs anywhere: everything is sent, every answer is
      consumed, and nothing but PINGRESP is left. */
  lemma AnsweredMeansCompleted(qos: QoS, payloads: seq<seq<byte>>, k: nat, inbox: seq<Inbound>)
    requires !qos.AtMostOnce? && |Significant(inbox)| == |Script(qos, payloads, k)|
    requires forall i :: 0 <= i < |Significant(inbox)| ==> Accepting(Significant(inbox)[i])
    ensures var (log, rest, result) := PublishAll(qos, payloads, k, inbox);
            && result == Completed && Significant(rest) == []
            && SentBy(log) == Script(qos, payloads, k) && Answered(log) == PacketsOf(Significant(inbox))
  {
    PubOutcome(qos, payloads, k, inbox);
    var sig, script := Significant(inbox), Script(qos, payloads, k);
    AllAccepted(sig, |script|);
    assert sig[..|sig|] == sig && script[..|script|] == script;
  }

  /** At QoS 0 every payload is sent and nothing is waited for or read. */
  lemma {:induction false} Qos0Outcome(payloads: seq<seq<byte>>, k: nat, inbox: seq<Inbound>)
    ensures var (log, rest, result) := PublishAll(AtMostOnce, payloads, k, inbox);
            && SentBy(log) == Script(AtMostOnce, payloads, k) && Answered(log) == []
            && rest == inbox && result == Completed
    decreases |payloads|
  {
    if payloads != [] {
      Qos0Outcome(payloads[1..], k, inbox);
      var p := Publish(AtMostOnce, None, payloads[0]);
      AnsweredCons(Sent(p), PublishAll(AtMostOnce, payloads[1..], k, inbox).0);
    }
  }

  // ---- success means that everything was delivered ----

  predicate AcceptedAs(x: Exchange, d: Duty) {
    x.Got? && Discharged(x.packet) == Some(d) && !IsError(x.packet.code)
  }

  /** The complete conversation: every payload sent, in order, and each handshake
      finished with the broker's own acceptance. */
  predicate Delivered(qos: QoS, payloads: seq<seq<byte>>, k: nat, log: seq<Exchange>)
    decreases |payloads|
  {
    if payloads == [] then log == []
    else
      match qos
      case AtMostOnce =>
        && |log| >= 1 && log[0] == Sent(Publish(qos, None, payloads[0]))
        && Delivered(qos, payloads[1..], k, log[1..])
      case AtLeastOnce =>
        && |log| >= 2 && log[0] == Sent(Publish(qos, Some(IdOf(k)), payloads[0]))
        && AcceptedAs(log[1], OwesPuback(IdOf(k)))
        && Delivered(qos, payloads[1..], k + 1, log[2..])
      case ExactlyOnce =>
        && |log| >= 4 && log[0] == Sent(Publish(qos, Some(IdOf(k)), payloads[0]))
        && AcceptedAs(log[1], OwesPubrec(IdOf(k)))
        && log[2] == Sent(Pubrel(IdOf(k), SUCCESS))
        && AcceptedAs(log[3], OwesPubcomp(IdOf(k)))
        && Delivered(qos, payloads[1..], k + 1, log[4..])
  }

  /** Against a conforming broker `pub` succeeds exactly when every payload was sent
      and finally accepted. */
  lemma CompletedIffDelivered(qos: QoS, payloads: seq<seq<byte>>, k: nat, inbox: seq<Inbound>)
    requires Conforming(multiset{}, PublishAll(qos, payloads, k, inbox).0)
    ensures PublishAll(qos, payloads, k, inbox).2.Completed?
            <==> Delivered(qos, payloads, k, PublishAll(qos, payloads, k, inbox).0)
  {
    CodeIsInLockstep(qos, payloads, k, inbox);
    LockstepCompletes(qos, payloads, k, inbox);
  }

  lemma {:induction false} LockstepCompletes(qos: QoS, payloads: seq<seq<byte>>, k: nat, inbox: seq<Inbound>)
    requires InLockstep(qos, payloads, k, PublishAll(qos, payloads, k, inbox).0)
    ensures PublishAll(qos, payloads, k, inbox).2.Completed?
            <==> Delivered(qos, payloads, k, PublishAll(qos, payloads, k, inbox).0)
    decreases |payloads|, 2
  {
    if payloads != [] {
      if qos.AtMostOnce? {
        Qos0Completes(payloads, k, inbox);
      } else if qos.AtLeastOnce? {
        Qos1Completes(payloads, k, inbox);
      } else {
        Qos2Completes(payloads, k, inbox);
      }
    }
  }

  lemma Qos0Completes(payloads: seq<seq<byte>>, k: nat, inbox: seq<Inbound>)
    requires payloads != [] && InLockstep(AtMostOnce, payloads, k, PublishAll(AtMostOnce, payloads, k, inbox).0)
    ensures PublishAll(AtMostOnce, payloads, k, inbox).2.Completed?
            <==> Delivered(AtMostOnce, payloads, k, PublishAll(AtMostOnce, payloads, k, inbox).0)
    decreases |payloads|, 0
  {
    var log := PublishAll(AtMostOnce, payloads, k, inbox).0;
    assert log[1..] == PublishAll(AtMostOnce, payloads[1..], k, inbox).0;
    LockstepCompletes(AtMostOnce, payloads[1..], k, inbox);
  }

  lemma Qos1Completes(payloads: seq<seq<byte>>, k: nat, inbox: seq<Inbound>)
    requires payloads != [] && InLockstep(AtLeastOnce, payloads, k, PublishAll(AtLeastOnce, payloads, k, inbox).0)
    ensures PublishAll(AtLeastOnce, payloads, k, inbox).2.Completed?
            <==> Delivered(AtLeastOnce, payloads, k, PublishAll(AtLeastOnce, payloads, k, inbox).0)
    decreases |payloads|, 0
  {
    var log := PublishAll(AtLeastOnce, payloads, k, inbox).0;
    var (answer, rest, result) := AwaitAccept(inbox);
    var later := Later(AtLeastOnce, payloads, k, inbox);
    Qos1Shape(payloads, k, inbox);
    AwaitLogsOne(inbox);
    if result.Completed? {
      assert log[1] == answer[0] && log[2..] == later;
      assert log[1..][0] == log[1];
      LockstepCompletes(AtLeastOnce, payloads[1..], k + 1, rest);
    } else {
      assert later == [] && (|log| > 1 ==> log[1] == answer[0]);
    }
  }

  /** The second half of message k, from its PUBREL on. */
  predicate FinallyDelivered(payloads: seq<seq<byte>>, k: nat, log: seq<Exchange>)
    requires payloads != []
  {
    && |log| >= 1 && AcceptedAs(log[0], OwesPubcomp(IdOf(k)))
    && Delivered(ExactlyOnce, payloads[1..], k + 1, log[1..])
  }

  lemma Qos2SecondCompletes(payloads: seq<seq<byte>>, k: nat, inbox: seq<Inbound>)
    requires payloads != []
    requires Released(ExactlyOnce, payloads, k, AwaitAccept(inbox).0 + Later(ExactlyOnce, payloads, k, inbox))
    ensures var (comp, rest, result) := AwaitAccept(inbox);
            (result.Completed? && PublishAll(ExactlyOnce, payloads[1..], k + 1, rest).2.Completed?)
            <==> FinallyDelivered(payloads, k, comp + Later(ExactlyOnce, payloads, k, inbox))
    decreases |payloads|, 0
  {
    var (comp, rest, result) := AwaitAccept(inbox);
    var later := Later(ExactlyOnce, payloads, k, inbox);
    var log := comp + later;
    AwaitLogsOne(inbox);
    if result.Completed? {
      assert log[0] == comp[0] && log[1..] == later;
      LockstepCompletes(ExactlyOnce, payloads[1..], k + 1, rest);
    } else {
      assert later == [] && (log != [] ==> log[0] == comp[0]);
    }
  }

  lemma Qos2Completes(payloads: seq<seq<byte>>, k: nat, inbox: seq<Inbound>)
    requires payloads != [] && InLockstep(ExactlyOnce, payloads, k, PublishAll(ExactlyOnce, payloads, k, inbox).0)
    ensures PublishAll(ExactlyOnce, payloads, k, inbox).2.Completed?
            <==> Delivered(ExactlyOnce, payloads, k, PublishAll(ExactlyOnce, payloads, k, inbox).0)
    decreases |payloads|, 1
  {
    var log := PublishAll(ExactlyOnce, payloads, k, inbox).0;
    var (rec, rest, result) := AwaitAccept(inbox);
    var later := Qos2Later(payloads, k, inbox);
    Qos2Shape(payloads, k, inbox);
    AwaitLogsOne(inbox);
    if result.Completed? {
      assert log[1] == rec[0] && log[2..] == later;
      assert log[1..][0] == log[1];
      assert log[3..] == later[1..] == AwaitAccept(rest).0 + Later(ExactlyOnce, payloads, k, rest);
      Qos2SecondCompletes(payloads, k, rest);
      assert |log| >= 4 ==> log[3..][0] == log[3] && log[3..][1..] == log[4..];
    } else {
      assert later == [] && (|log| > 1 ==> log[1] == rec[0]);
    }
  }

  // ---- at most one message unacknowledged ----

  /** At every moment of the conversation the broker owes at most one answer. */
  lemma {:induction false} AtMostOneOwed(qos: QoS, payloads: seq<seq<byte>>, k: nat, log: seq<Exchange>, n: nat)
    requires !qos.AtMostOnce? && InLockstep(qos, payloads, k, log) && n <= |log|
    ensures |OwedAfterAll(multiset{}, log[..n])| <= 1
    decreases |log|
  {
    if n > 0 {
      UnfoldOwed(multiset{}, log, n);
      if n > 1 {
        var owed := OwedAfter(multiset{}, log[0]);
        UnfoldOwed(owed, log[1..], n - 1);
        AtMostOneOwedLater(qos, payloads, k, log, n);
      }
    }
  }

  lemma UnfoldOwed(owed: multiset<Duty>, log: seq<Exchange>, n: nat)
    requires 0 < n <= |log|
    ensures OwedAfterAll(owed, log[..n]) == OwedAfterAll(OwedAfter(owed, log[0]), log[1..][..n - 1])
  {
    assert log[..n][1..] == log[1..][..n - 1];
  }

  /** Past the first answer of message k. */
  lemma AtMostOneOwedLater(qos: QoS, payloads: seq<seq<byte>>, k: nat, log: seq<Exchange>, n: nat)
    requires !qos.AtMostOnce? && InLockstep(qos, payloads, k, log) && 1 < n <= |log|
    ensures |OwedAfterAll(OwedAfter(multiset{}, log[0]), log[1..][..n - 1])| <= 1
    decreases |log|, 1
  {
    var owed := OwedAfter(multiset{}, log[0]);
    var tail := log[1..];
    assert tail[0] == log[1] && tail[1..] == log[2..];
    UnfoldOwed(owed, tail, n - 1);
    FirstAnswerDischarges(qos, payloads, k, log);
    if IsAck(log[1].packet) && !IsError(log[1].packet.code) {
      AtMostOneOwedAnswered(qos, payloads, k, log, n);
    } else {
      assert log[2..][..n - 2] == [];
    }
  }

  /** Message k is owed one answer once sent. */
  function FirstDuty(qos: QoS, k: nat): Duty {
    if qos.AtLeastOnce? then OwesPuback(IdOf(k)) else OwesPubrec(IdOf(k))
  }

  lemma SendingOwesOne(qos: QoS, payloads: seq<seq<byte>>, k: nat, log: seq<Exchange>)
    requires !qos.AtMostOnce? && InLockstep(qos, payloads, k, log) && |log| > 0
    ensures OwedAfter(multiset{}, log[0]) == multiset{FirstDuty(qos, k)}
  {
  }

  lemma FirstAnswerIsOwn(qos: QoS, payloads: seq<seq<byte>>, k: nat, log: seq<Exchange>)
    requires !qos.AtMostOnce? && InLockstep(qos, payloads, k, log) && |log| > 1
    ensures log[1].Got?
    ensures if IsAck(log[1].packet)
            then Discharged(log[1].packet) == Some(FirstDuty(qos, k)) && (IsError(log[1].packet.code) ==> |log| == 2)
            else |log| == 2 && Discharged(log[1].packet) == None
  {
    assert EndsBadly(log[1..]) ==> log[1..][0] == log[1];
  }

  lemma FirstAnswerDischarges(qos: QoS, payloads: seq<seq<byte>>, k: nat, log: seq<Exchange>)
    requires !qos.AtMostOnce? && InLockstep(qos, payloads, k, log) && |log| > 1
    ensures log[1].Got? && |OwedAfter(multiset{}, log[0])| == 1
    ensures if IsAck(log[1].packet)
            then OwedAfter(OwedAfter(multiset{}, log[0]), log[1]) == multiset{}
                 && (IsError(log[1].packet.code) ==> |log| == 2)
            else |log| == 2 && OwedAfter(OwedAfter(multiset{}, log[0]), log[1]) == OwedAfter(multiset{}, log[0])
  {
    SendingOwesOne(qos, payloads, k, log);
    FirstAnswerIsOwn(qos, payloads, k, log);
  }

  lemma AtMostOneOwedAnswered(qos: QoS, payloads: seq<seq<byte>>, k: nat, log: seq<Exchange>, n: nat)
    requires !qos.AtMostOnce? && InLockstep(qos, payloads, k, log) && 1 < n <= |log|
    requires IsAck(log[1].packet) && !IsError(log[1].packet.code)
    ensures |OwedAfterAll(multiset{}, log[2..][..n - 2])| <= 1
    decreases |log|, 0
  {
    if qos.AtLeastOnce? {
      AtMostOneOwed(qos, payloads[1..], k + 1, log[2..], n - 2);
    } else if n > 2 {
      UnfoldOwed(multiset{}, log[2..], n - 2);
      assert log[2..][1..] == log[3..];
      AtMostOneOwedReleased(qos, payloads, k, log[3..], n - 3);
    }
  }

  lemma AtMostOneOwedReleased(qos: QoS, payloads: seq<seq<byte>>, k: nat, log: seq<Exchange>, n: nat)
    requires !qos.AtMostOnce? && payloads != [] && Released(qos, payloads, k, log) && n <= |log|
    ensures |OwedAfterAll(multiset{} + multiset{OwesPubcomp(IdOf(k))}, log[..n])| <= 1
    decreases |log|
  {
    if n > 0 {
      UnfoldOwed(multiset{} + multiset{OwesPubcomp(IdOf(k))}, log, n);
      if !EndsBadly(log) {
        assert OwedAfter(multiset{} + multiset{OwesPubcomp(IdOf(k))}, log[0]) == multiset{};
        if !IsError(log[0].packet.code) {
          AtMostOneOwed(qos, payloads[1..], k + 1, log[1..], n - 1);
        }
      }
    }
  }

  // ---- the client object ----

  /** A conversation that continues one already logged. */
  function After(done: seq<Exchange>, next: (seq<Exchange>, seq<Inbound>, Result))
    : (seq<Exchange>, seq<Inbound>, Result)
  {
    (done + next.0, next.1, next.2)
  }

  lemma AfterNothing(next: (seq<Exchange>, seq<Inbound>, Result))
    ensures After([], next) == next
  {
    assert [] + next.0 == next.0;
  }

  /** One round of the line loop, from line i on. */
  lemma Unroll(qos: QoS, lines: seq<seq<byte>>, i: nat, k: nat, inbox: seq<Inbound>, done: seq<Exchange>)
    requires i < |lines|
    ensures var (logged, rest, result) := PublishOne(qos, lines[i], IdOf(k), inbox);
            After(done, PublishAll(qos, lines[i..], k, inbox))
            == if !result.Completed? then (done + logged, rest, result)
               else After(done + logged, PublishAll(qos, lines[i + 1..], if qos.AtMostOnce? then k else k + 1, rest))
  {
    var (logged, rest, result) := PublishOne(qos, lines[i], IdOf(k), inbox);
    assert lines[i..][0] == lines[i] && lines[i..][1..] == lines[i + 1..];
    var later := PublishAll(qos, lines[i + 1..], if qos.AtMostOnce? then k else k + 1, rest).0;
    assert done + (logged + later) == done + logged + later;
  }

  lemma NoMoreLines(qos: QoS, lines: seq<seq<byte>>, k: nat, inbox: seq<Inbound>, done: seq<Exchange>)
    ensures After(done, PublishAll(qos, lines[|lines|..], k, inbox)) == (done, inbox, Completed)
  {
    assert lines[|lines|..] == [] && done + [] == done;
  }

  class Client {
    var nextPacketId: PacketId
    var inbox: seq<Inbound>         // what will arrive, in order
    var log: seq<Exchange>
    ghost var issued: nat

    ghost predicate Valid()
      reads this
    {
      nextPacketId == LastId(issued)
    }

    constructor (inbox: seq<Inbound>)
      ensures Valid() && issued == 0 && this.inbox == inbox && log == []
    {
      nextPacketId, this.inbox, log, issued := 0, inbox, [], 0;
    }

    /** Cycles through 1..=65535; never 0. */
    method NextPacketId() returns (id: PacketId)
      requires Valid()
      modifies this`nextPacketId, this`issued
      ensures Valid() && issued == old(issued) + 1
      ensures id == IdOf(old(issued)) && id != 0
    {
      NextIdIsIdOf(issued);
      nextPacketId := (nextPacketId + 1) % 0x10000;
      if nextPacketId == 0 {
        nextPacketId := 1;
      }
      id := nextPacketId;
      issued := issued + 1;
    }

    method Send(p: Packet)
      modifies this`log
      ensures log == old(log) + [Sent(p)]
    {
      log := log + [Sent(p)];
    }

    method AwaitAck() returns (result: Result, code: ReasonCode)
      modifies this`inbox, this`log
      ensures var (logged, rest, res, c) := ExpectAck(old(inbox));
              log == old(log) + logged && inbox == rest && result == res && code == c
    {
      while inbox != []
        invariant ExpectAck(inbox) == ExpectAck(old(inbox)) && log == old(log)
        decreases |inbox|
      {
        var m := inbox[0];
        inbox := inbox[1..];
        if m.Lost? {
          assert log + [] == old(log);
          return ConnectionLost, SUCCESS;
        }
        var p := m.packet;
        if p.Pingresp? {
          continue;
        }
        log := log + [Got(p)];
        if IsAck(p) {
          return Completed, p.code;
        } else if p.Disconnect? {
          return Rejected(p.code), SUCCESS;
        } else {
          return ProtocolError, SUCCESS;
        }
      }
      assert old(log) + [] == old(log);
      result, code := Waiting, SUCCESS;
    }

    method AwaitAccepted() returns (result: Result)
      modifies this`inbox, this`log
      ensures var (logged, rest, res) := AwaitAccept(old(inbox));
              log == old(log) + logged && inbox == rest && result == res
    {
      var code;
      result, code := AwaitAck();
      if result.Completed? && IsError(code) {
        result := Rejected(code);
      }
    }

    method PublishMessage(qos: QoS, payload: seq<byte>) returns (result: Result)
      requires Valid()
      modifies this
      ensures Valid() && issued == old(issued) + if qos.AtMostOnce? then 0 else 1
      ensures var (logged, rest, res) := PublishOne(qos, payload, IdOf(old(issued)), old(inbox));
              log == old(log) + logged && inbox == rest && result == res
    {
      if qos.AtMostOnce? {
        Send(Publish(qos, None, payload));
        return Completed;
      }
      var id := NextPacketId();
      Send(Publish(qos, Some(id), payload));
      result := AwaitAccepted();
      if qos.ExactlyOnce? && result.Completed? {
        Send(Pubrel(id, SUCCESS));
        result := AwaitAccepted();
      }
    }

    /** One PUBLISH per line over one connection, stopping at the first failure. */
    method PublishLines(qos: QoS, lines: seq<seq<byte>>) returns (result: Result)
      requires Valid()
      modifies this
      ensures var (logged, rest, res) := PublishAll(qos, lines, old(issued), old(inbox));
              log == old(log) + logged && inbox == rest && result == res
    {
      ghost var target := PublishAll(qos, lines, issued, inbox);
      ghost var start := log;
      ghost var done: seq<Exchange> := [];
      result := Completed;
      assert lines[0..] == lines && start + done == start;
      AfterNothing(target);
      for i := 0 to |lines|
        invariant Valid() && log == start + done && result == Completed
        invariant After(done, PublishAll(qos, lines[i..], issued, inbox)) == target
      {
        result, done := PublishLine(qos, lines, i, start, done);
        if !result.Completed? {
          return;
        }
      }
      NoMoreLines(qos, lines, issued, inbox, done);
    }

    /** One round of the line loop; `done` is the conversation since it began. */
    method PublishLine(qos: QoS, lines: seq<seq<byte>>, i: nat, ghost start: seq<Exchange>, ghost done: seq<Exchange>)
      returns (result: Result, ghost done': seq<Exchange>)
      requires Valid() && i < |lines| && log == start + done
      modifies this
      ensures Valid() && log == start + done'
      ensures After(done, PublishAll(qos, lines[i..], old(issued), old(inbox)))
              == if result.Completed? then After(done', PublishAll(qos, lines[i + 1..], issued, inbox))
                 else (done', inbox, result)
    {
      ghost var logged := PublishOne(qos, lines[i], IdOf(issued), inbox).0;
      Unroll(qos, lines, i, issued, inbox, done);
      result := PublishMessage(qos, lines[i]);
      assert start + done + logged == start + (done + logged);
      done' := done + logged;
    }
  }
}
