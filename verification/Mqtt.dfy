/** The MQTT vocabulary shared by every module: packets, Reason Codes and the
    cyclic Packet Identifier allocator. */
module Mqtt {

  datatype Option<+T> = None | Some(value: T)

  type byte = b: int | 0 <= b < 0x100

  /** A 16-bit Packet Identifier. 0 is reserved by section 2.2.1 of MQTT v5.0. */
  type PacketId = id: int | 0 <= id <= 0xFFFF

  type ReasonCode = byte

  const SUCCESS: ReasonCode := 0

  predicate IsError(code: ReasonCode) {
    code >= 0x80
  }

  datatype QoS = AtMostOnce | AtLeastOnce | ExactlyOnce

  datatype Packet =
    | Publish(qos: QoS, packetId: Option<PacketId>, payload: seq<byte>)
    | Puback(id: PacketId, code: ReasonCode)
    | Pubrec(id: PacketId, code: ReasonCode)
    | Pubrel(id: PacketId, code: ReasonCode)
    | Pubcomp(id: PacketId, code: ReasonCode)
    | Pingresp
    | Disconnect(code: ReasonCode)
    | Other

  /** Identifiers usable for a message: 1..=65535. */
  const ID_COUNT: int := 0xFFFF

  /** One allocation: 16-bit wrapping increment, then 0 is skipped. */
  function NextId(last: PacketId): PacketId {
    var next := (last + 1) % 0x10000;
    if next == 0 then 1 else next
  }

  /** The identifier of the n-th allocation (from 0) on a fresh connection. */
  function IdOf(n: nat): (id: PacketId)
    ensures id != 0
  {
    n % ID_COUNT + 1
  }

  /** What the allocator's field holds after n allocations. */
  function LastId(n: nat): PacketId {
    if n == 0 then 0 else IdOf(n - 1)
  }

  lemma NextIdIsIdOf(n: nat)
    ensures NextId(LastId(n)) == IdOf(n) == LastId(n + 1)
  {
    if n > 0 {
      if (n - 1) % ID_COUNT == ID_COUNT - 1 {
        assert n == ((n - 1) / ID_COUNT + 1) * ID_COUNT;
      } else {
        assert n == (n - 1) / ID_COUNT * ID_COUNT + ((n - 1) % ID_COUNT + 1);
      }
    }
  }

  /** Two allocations share an identifier exactly when they lie a whole number
      of cycles apart; in particular never within one cycle. */
  lemma SameIdMeansWholeCycles(a: nat, b: nat)
    requires a <= b
    ensures IdOf(a) == IdOf(b) <==> (b - a) % ID_COUNT == 0
    ensures IdOf(a) == IdOf(b) && a < b ==> b - a >= ID_COUNT
    ensures b == a + ID_COUNT ==> IdOf(a) == IdOf(b)
  {
    var d := b - a;
    var q, r := d / ID_COUNT, d % ID_COUNT;
    var p, s := a / ID_COUNT, a % ID_COUNT;
    assert b == (p + q) * ID_COUNT + (s + r);
    if s + r < ID_COUNT {
      ModUnique(b, p + q, s + r);
    } else {
      ModUnique(b, p + q + 1, s + r - ID_COUNT);
    }
  }

  lemma ModUnique(n: int, q: int, r: int)
    requires n == q * ID_COUNT + r && 0 <= r < ID_COUNT
    ensures n % ID_COUNT == r
  {
    assert n / ID_COUNT == q;
  }
}
