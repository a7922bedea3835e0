/**
 * Byte-level building blocks of the MQTT 3.1.1 wire format as the endpoint uses them:
 * the big-endian two byte integer (section 1.5.2), packet identifiers (section 2.3.1),
 * the control packet type in the fixed header (section 2.2.1) and the PUBLISH
 * header flags (section 3.3.1).
 */
module Wire {

  /** One octet. The source reads bytes through `char`, which it masks with 0xff first. */
  type Byte = b: int | 0 <= b < 0x100

  /** A 16-bit unsigned integer (`std::uint16_t`). */
  type U16 = n: int | 0 <= n < 0x1_0000

  /** `make_uint16_t(b1, b2)`: b1 is the most significant byte. */
  function MakeUint16(b1: Byte, b2: Byte): (n: U16)
    ensures n / 0x100 == b1 && n % 0x100 == b2
  {
    b1 * 0x100 + b2
  }

  /** `make_packet_id`: the two bytes of an identifier, high byte first. */
  function MakePacketId(id: U16): (s: seq<Byte>)
    ensures |s| == 2
    ensures MakeUint16(s[0], s[1]) == id
  {
    [id / 0x100, id % 0x100]
  }

  /** `add_packet_id`: appends the two bytes of `id` to `buf`. */
  function AddPacketId(buf: seq<Byte>, id: U16): (r: seq<Byte>)
    ensures |r| == |buf| + 2
    ensures r[..|buf|] == buf
    ensures MakeUint16(r[|buf|], r[|buf| + 1]) == id
  {
    buf + MakePacketId(id)
  }

  /** Encoding the decoded value of any two bytes gives back those two bytes. */
  lemma PacketIdOfUint16(b1: Byte, b2: Byte)
    ensures MakePacketId(MakeUint16(b1, b2)) == [b1, b2]
  {
  }

  /** Two identifiers with the same encoding are equal: the encoding loses nothing. */
  lemma PacketIdInjective(a: U16, b: U16)
    requires MakePacketId(a) == MakePacketId(b)
    ensures a == b
  {
    assert MakeUint16(MakePacketId(a)[0], MakePacketId(a)[1]) == a;
  }

  /** The control packet types of section 2.2.1; `Reserved` stands for the codes 0 and 15. */
  datatype PacketType =
    | Connect | Connack | Publish | Puback | Pubrec | Pubrel | Pubcomp
    | Subscribe | Suback | Unsubscribe | Unsuback | Pingreq | Pingresp | Disconnect
    | Reserved

  /** The code of a packet type, as carried in bits 7-4 of the fixed header. */
  function TypeCode(t: PacketType): (c: nat)
    ensures c < 16
    ensures t == Reserved <==> c == 0
  {
    match t
    case Connect => 1
    case Connack => 2
    case Publish => 3
    case Puback => 4
    case Pubrec => 5
    case Pubrel => 6
    case Pubcomp => 7
    case Subscribe => 8
    case Suback => 9
    case Unsubscribe => 10
    case Unsuback => 11
    case Pingreq => 12
    case Pingresp => 13
    case Disconnect => 14
    case Reserved => 0
  }

  /** `get_control_packet_type`: the high nibble of the fixed header. */
  function ControlPacketType(fixedHeader: Byte): PacketType
  {
    match fixedHeader / 16
    case 1 => Connect
    case 2 => Connack
    case 3 => Publish
    case 4 => Puback
    case 5 => Pubrec
    case 6 => Pubrel
    case 7 => Pubcomp
    case 8 => Subscribe
    case 9 => Suback
    case 10 => Unsubscribe
    case 11 => Unsuback
    case 12 => Pingreq
    case 13 => Pingresp
    case 14 => Disconnect
    case _ => Reserved
  }

  /** A fixed header decodes to the packet type whose code stands in its high nibble, whatever the flags. */
  lemma ControlPacketTypeOfCode(t: PacketType, flags: nat)
    requires t != Reserved && flags < 16
    ensures ControlPacketType(TypeCode(t) * 16 + flags) == t
  {
    assert (TypeCode(t) * 16 + flags) / 16 == TypeCode(t);
  }

  /** `publish::get_qos`: bits 2-1 of a PUBLISH fixed header. */
  function PublishQos(fixedHeader: Byte): (q: nat)
    ensures q <= 3
  {
    (fixedHeader / 2) % 4
  }

  /** `publish::is_retain`: bit 0 of a PUBLISH fixed header. */
  predicate IsRetain(fixedHeader: Byte)
  {
    fixedHeader % 2 == 1
  }

  /** `publish::is_dup`: bit 3 of a PUBLISH fixed header. */
  predicate IsDup(fixedHeader: Byte)
  {
    (fixedHeader / 8) % 2 == 1
  }

  /** The fixed header of a PUBLISH packet with the given flags (section 3.3.1). */
  function PublishFixedHeader(dup: bool, qos: nat, retain: bool): (h: Byte)
    requires qos <= 3
    ensures ControlPacketType(h) == Publish
    ensures PublishQos(h) == qos && IsRetain(h) == retain && IsDup(h) == dup
  {
    0x30 + (if dup then 8 else 0) + qos * 2 + (if retain then 1 else 0)
  }
}
