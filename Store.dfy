/**
 * The endpoint's in-flight store (`store_` in include/mqtt/endpoint.hpp): the messages sent
 * with QoS 1 or 2, and the PUBREL messages, kept until the acknowledgement they wait for
 * arrives (section 4.3 of MQTT 3.1.1).
 *
 * The source keeps them in a multi-index container with three views: unique on
 * (packet identifier, expected acknowledgement), non-unique on the packet identifier, and
 * insertion order. Here the store is a sequence in insertion order whose keys are kept
 * unique; the two ordered views are the `EraseKey` and `EraseId` filters.
 */
module Store {
  import opened Results
  import opened Wire
  import opened RemainingLength
  import opened Parsers

  /** The packets the endpoint writes and stores, with the fields it sets on them. */
  datatype Packet =
    | ConnectPacket(keepAlive: U16, clientId: seq<Byte>, cleanSession: bool)
    | PublishPacket(topic: seq<Byte>, qos: nat, retain: bool, dup: bool, packetId: U16, payload: seq<Byte>)
    | PubackPacket(packetId: U16)
    | PubrecPacket(packetId: U16)
    | PubrelPacket(packetId: U16)
    | PubcompPacket(packetId: U16)
    | DisconnectPacket

  /** One stored message and the acknowledgement that will release it. */
  datatype StoreEntry = StoreEntry(packetId: U16, expected: PacketType, message: Packet)

  /** The acknowledgement an outgoing PUBLISH waits for: PUBACK at QoS 1, PUBREC otherwise. */
  function ExpectedAck(qos: nat): (t: PacketType)
    ensures t == Puback || t == Pubrec
    ensures t == Puback <==> qos == 1
  {
    if qos == 1 then Puback else Pubrec
  }

  predicate SameKey(e: StoreEntry, id: U16, kind: PacketType)
  {
    e.packetId == id && e.expected == kind
  }

  /** The ordered_unique index: no two entries share (packet identifier, expected type). */
  predicate UniqueKeys(s: seq<StoreEntry>)
  {
    forall i, j :: 0 <= i < j < |s| ==> !SameKey(s[j], s[i].packetId, s[i].expected)
  }

  predicate HasKey(s: seq<StoreEntry>, id: U16, kind: PacketType)
  {
    exists e :: e in s && SameKey(e, id, kind)
  }

  lemma UniqueKeysCons(e: StoreEntry, s: seq<StoreEntry>)
    ensures UniqueKeys([e] + s) <==> UniqueKeys(s) && !HasKey(s, e.packetId, e.expected)
  {
    var t := [e] + s;
    assert t[1..] == s;
    if UniqueKeys(t) {
      forall x | x in s ensures !SameKey(x, e.packetId, e.expected) {
        var j :| 0 <= j < |s| && s[j] == x;
        assert t[0] == e && t[j + 1] == x;
      }
      forall i, j | 0 <= i < j < |s| ensures !SameKey(s[j], s[i].packetId, s[i].expected) {
        assert t[i + 1] == s[i] && t[j + 1] == s[j];
      }
    }
    if UniqueKeys(s) && !HasKey(s, e.packetId, e.expected) {
      forall i, j | 0 <= i < j < |t| ensures !SameKey(t[j], t[i].packetId, t[i].expected) {
        if i == 0 {
          assert t[j] in s;
        } else {
          assert t[i] == s[i - 1] && t[j] == s[j - 1];
        }
      }
    }
  }

  lemma UniqueKeysSnoc(s: seq<StoreEntry>, e: StoreEntry)
    requires UniqueKeys(s) && !HasKey(s, e.packetId, e.expected)
    ensures UniqueKeys(s + [e])
  {
    var t := s + [e];
    forall i, j | 0 <= i < j < |t| ensures !SameKey(t[j], t[i].packetId, t[i].expected) {
      if j == |s| {
        assert t[i] in s;
      } else {
        assert t[i] == s[i] && t[j] == s[j];
      }
    }
  }

  /**
   * `store_.emplace(...)`: appended at the end of the insertion order, unless an entry with
   * the same key is already there, in which case the store is left as it is.
   */
  function Emplace(s: seq<StoreEntry>, e: StoreEntry): (r: seq<StoreEntry>)
    ensures UniqueKeys(s) ==> UniqueKeys(r)
    ensures HasKey(r, e.packetId, e.expected)
    ensures forall x :: x in s ==> x in r
    ensures forall x :: x in r ==> x in s || x == e
  {
    if HasKey(s, e.packetId, e.expected) then s
    else
      assert e in s + [e];
      if UniqueKeys(s) then UniqueKeysSnoc(s, e); s + [e] else s + [e]
  }

  /** Insertion order: a new key goes after every stored entry; a present key changes nothing. */
  lemma EmplaceOrder(s: seq<StoreEntry>, e: StoreEntry)
    ensures !HasKey(s, e.packetId, e.expected) ==> Emplace(s, e) == s + [e]
    ensures HasKey(s, e.packetId, e.expected) ==> Emplace(s, e) == s
  {
  }

  /** A second emplace of the same key changes nothing. */
  lemma EmplaceIdempotent(s: seq<StoreEntry>, e: StoreEntry, e': StoreEntry)
    requires SameKey(e', e.packetId, e.expected)
    ensures Emplace(Emplace(s, e), e') == Emplace(s, e)
  {
  }

  /** The entries of `s` that satisfy `keep`, in their order. */
  function Keep(s: seq<StoreEntry>, keep: StoreEntry -> bool): (r: seq<StoreEntry>)
    ensures |r| <= |s|
    ensures forall x :: x in r <==> x in s && keep(x)
    ensures UniqueKeys(s) ==> UniqueKeys(r)
  {
    if s == [] then []
    else
      var tail := Keep(s[1..], keep);
      assert s == [s[0]] + s[1..];
      UniqueKeysCons(s[0], s[1..]);
      if keep(s[0]) then
        UniqueKeysCons(s[0], tail);
        [s[0]] + tail
      else tail
  }

  /** Keeping entries that all pass leaves the sequence as it was. */
  lemma {:induction false} KeepAll(s: seq<StoreEntry>, keep: StoreEntry -> bool)
    requires forall x :: x in s ==> keep(x)
    ensures Keep(s, keep) == s
  {
    if s != [] {
      KeepAll(s[1..], keep);
      assert s == [s[0]] + s[1..];
    }
  }

  /** `equal_range` on the (packet identifier, type) index, then `erase`. */
  function EraseKey(s: seq<StoreEntry>, id: U16, kind: PacketType): (r: seq<StoreEntry>)
    ensures !HasKey(r, id, kind)
    ensures forall x :: x in r <==> x in s && !SameKey(x, id, kind)
    ensures UniqueKeys(s) ==> UniqueKeys(r)
  {
    Keep(s, (x: StoreEntry) => !SameKey(x, id, kind))
  }

  /** An acknowledgement that matches nothing leaves the store exactly as it was. */
  lemma EraseKeyAbsent(s: seq<StoreEntry>, id: U16, kind: PacketType)
    requires !HasKey(s, id, kind)
    ensures EraseKey(s, id, kind) == s
  {
    KeepAll(s, (x: StoreEntry) => !SameKey(x, id, kind));
  }

  /** Keeping from two runs one after the other is keeping from each. */
  lemma {:induction false} KeepAppend(a: seq<StoreEntry>, b: seq<StoreEntry>, keep: StoreEntry -> bool)
    ensures Keep(a + b, keep) == Keep(a, keep) + Keep(b, keep)
  {
    if a == [] {
      assert a + b == b;
    } else {
      var h := a[0];
      var t := a[1..];
      var rest := Keep(t, keep) + Keep(b, keep);
      calc {
        Keep(a + b, keep);
        { assert (a + b)[0] == h && (a + b)[1..] == t + b; }
        if keep(h) then [h] + Keep(t + b, keep) else Keep(t + b, keep);
        { KeepAppend(t, b, keep); }
        if keep(h) then [h] + rest else rest;
        { assert [h] + rest == ([h] + Keep(t, keep)) + Keep(b, keep); }
        Keep(a, keep) + Keep(b, keep);
      }
    }
  }

  /**
   * Acknowledging the message just stored under a new key gives back the store as it was
   * before the insertion.
   */
  lemma EraseKeyAfterEmplace(s: seq<StoreEntry>, e: StoreEntry)
    requires !HasKey(s, e.packetId, e.expected)
    ensures EraseKey(Emplace(s, e), e.packetId, e.expected) == s
  {
    var keep := (x: StoreEntry) => !SameKey(x, e.packetId, e.expected);
    KeepAppend(s, [e], keep);
    KeepAll(s, keep);
    assert [e][1..] == [];
  }

  /** `equal_range` on the packet identifier index, then `erase`. */
  function EraseId(s: seq<StoreEntry>, id: U16): (r: seq<StoreEntry>)
    ensures forall x :: x in r <==> x in s && x.packetId != id
    ensures UniqueKeys(s) ==> UniqueKeys(r)
  {
    Keep(s, (x: StoreEntry) => x.packetId != id)
  }

  /** The stored messages in insertion order: what a reconnect resends. */
  function Messages(s: seq<StoreEntry>): (m: seq<Packet>)
    ensures |m| == |s|
    ensures forall i :: 0 <= i < |s| ==> m[i] == s[i].message
  {
    if s == [] then [] else [s[0].message] + Messages(s[1..])
  }

  lemma MessagesSnoc(s: seq<StoreEntry>, e: StoreEntry)
    ensures Messages(s + [e]) == Messages(s) + [e.message]
  {
  }

  /** The entry a PUBLISH or PUBREL is stored under: its identifier and the reply it awaits. */
  function StoredEntry(m: Packet): (e: StoreEntry)
    requires m.PublishPacket? || m.PubrelPacket?
    ensures e.packetId == m.packetId && e.message == m
    ensures m.PublishPacket? ==> e.expected == ExpectedAck(m.qos)
    ensures m.PubrelPacket? ==> e.expected == Pubcomp
  {
    StoreEntry(m.packetId, if m.PublishPacket? then ExpectedAck(m.qos) else Pubcomp, m)
  }

  // ---------------------------------------------------------------------------------
  // Serialized messages, as handed to the serialize hooks and given back to
  // `restore_serialized_message`.

  /** The fixed header of a PUBREL (section 3.6.1): type 6, flags 0010. */
  const PubrelFixedHeader: Byte := 0x62

  /** The variable header and payload of a stored PUBLISH. */
  function PublishBodyOf(m: Packet): PublishBody
    requires m.PublishPacket?
  {
    PublishBody(m.topic, if CarriesPacketId(m.qos) then Some(m.packetId) else None, m.payload)
  }

  /** What can be written as bytes and read back: a PUBLISH whose sizes fit, or a PUBREL. */
  predicate Serializable(m: Packet)
  {
    || (m.PublishPacket? && m.qos <= 2 && |m.topic| < 0x1_0000
        && (m.qos == 0 ==> m.packetId == 0)
        && 2 + |m.topic| + 2 + |m.payload| < MaxMultiplier)
    || m.PubrelPacket?
  }

  /** The bytes of a stored message: fixed header, Remaining Length, then the body. */
  function Serialize(m: Packet): (bytes: seq<Byte>)
    requires Serializable(m)
    ensures |bytes| >= 2
  {
    if m.PublishPacket? then
      var body := EncodePublish(PublishBodyOf(m));
      [PublishFixedHeader(m.dup, m.qos, m.retain)] + EncodeLength(|body|) + body
    else
      [PubrelFixedHeader] + EncodeLength(2) + MakePacketId(m.packetId)
  }

  /**
   * Reading a serialized PUBLISH or PUBREL back. Any other packet type is a protocol error;
   * a length field that disagrees with the bytes is a message size error. A PUBLISH at QoS 0
   * has no identifier on the wire and reads back as identifier 0.
   */
  function DecodeStored(bytes: seq<Byte>): (r: Result<Packet, ParseError>)
    ensures r.Ok? ==> r.value.PublishPacket? || r.value.PubrelPacket?
    ensures |bytes| > 0 && ControlPacketType(bytes[0]) != Publish && ControlPacketType(bytes[0]) != Pubrel
            ==> r == Err(ProtocolError)
  {
    if bytes == [] then Err(MessageSize)
    else
      var h := bytes[0];
      var t := ControlPacketType(h);
      if t != Publish && t != Pubrel then Err(ProtocolError)
      else match DecodeLength(bytes[1..])
        case Decoded(n, k) =>
          if 1 + k + n != |bytes| then Err(MessageSize)
          else
            var body := bytes[1 + k..];
            if t == Publish then
              var qos := PublishQos(h);
              var p := ParsePublish(qos, body);
              if p.Err? then Err(p.error)
              else
                var id := if p.value.packetId.Some? then p.value.packetId.value else 0;
                Ok(PublishPacket(p.value.topic, qos, IsRetain(h), IsDup(h), id, p.value.contents))
            else if |body| != 2 then Err(MessageSize)
            else Ok(PubrelPacket(MakeUint16(body[0], body[1])))
        case _ => Err(MessageSize)
  }

  /** A fixed header byte, the Remaining Length of `body`, then `body`: the framing reads back. */
  lemma DecodeFramed(h: Byte, body: seq<Byte>) returns (bytes: seq<Byte>, k: nat)
    requires |body| < MaxMultiplier
    ensures bytes == [h] + EncodeLength(|body|) + body
    ensures bytes != [] && bytes[0] == h
    ensures DecodeLength(bytes[1..]) == Decoded(|body|, k)
    ensures 1 + k + |body| == |bytes| && bytes[1 + k..] == body
  {
    var len := EncodeLength(|body|);
    bytes := [h] + len + body;
    k := |len|;
    LengthRoundTrip(|body|, body);
    assert bytes[1..] == len + body;
    assert bytes[1 + k..] == body;
  }

  /** A stored PUBLISH reads back as itself. */
  lemma SerializePublishRoundTrip(m: Packet)
    requires Serializable(m) && m.PublishPacket?
    ensures DecodeStored(Serialize(m)) == Ok(m)
  {
    var b := PublishBodyOf(m);
    var body := EncodePublish(b);
    assert |body| == 2 + |m.topic| + (if CarriesPacketId(m.qos) then 2 else 0) + |m.payload|;
    var bytes, k := DecodeFramed(PublishFixedHeader(m.dup, m.qos, m.retain), body);
    assert bytes == Serialize(m);
    PublishRoundTrip(m.qos, b);
  }

  /** A stored PUBREL reads back as itself. */
  lemma SerializePubrelRoundTrip(m: Packet)
    requires m.PubrelPacket?
    ensures DecodeStored(Serialize(m)) == Ok(m)
  {
    var body := MakePacketId(m.packetId);
    var bytes, k := DecodeFramed(PubrelFixedHeader, body);
    assert bytes == Serialize(m);
    assert ControlPacketType(PubrelFixedHeader) == Pubrel;
  }

  /** What the serialize hooks are given can be restored as the same message. */
  lemma SerializeRoundTrip(m: Packet)
    requires Serializable(m)
    ensures DecodeStored(Serialize(m)) == Ok(m)
  {
    if m.PublishPacket? {
      SerializePublishRoundTrip(m);
    } else {
      SerializePubrelRoundTrip(m);
    }
  }
}
