/**
 * Whole exchanges on one endpoint, each a sequence of the endpoint's own operations with
 * what the sequence guarantees: the QoS 1 and QoS 2 flows of section 4.3 of MQTT 3.1.1 as
 * seen from the sender, QoS 2 deduplication on the receiver, the CONNECT/CONNACK pairing,
 * the choice between close and error, and restoring a stored message after a restart.
 */
module Exchanges {
  import opened Results
  import opened Wire
  import opened Parsers
  import opened PacketIds
  import opened Store
  import opened Endpoint

  /**
   * A QoS 1 PUBLISH and its PUBACK: while the PUBLISH waits its identifier is taken and the
   * message is stored; the PUBACK releases both.
   */
  method AtLeastOnceExchange(e: Endpoint, topic: seq<Byte>, payload: seq<Byte>, h: Handler)
    returns (r: Result<U16, AcquireError>)
    requires e.Valid()
    modifies e
    ensures e.Valid()
    ensures r.Err? <==> Exhausted(old(e.packetIds))
    ensures r.Err? ==> e.store == old(e.store) && e.sent == old(e.sent)
    ensures r.Ok? ==> r.value !in old(e.packetIds) && e.packetIds == old(e.packetIds)
    ensures r.Ok? ==> !HasKey(e.store, r.value, Puback)
    ensures r.Ok? ==> e.sent == old(e.sent) + (if old(e.connected) then [PublishPacket(topic, 1, false, false, r.value, payload)] else [])
    ensures r.Ok? && !HasKey(old(e.store), r.value, Puback) ==> e.store == old(e.store)
  {
    ghost var before := e.store;
    r := e.Publish(topic, payload, 1, false);
    if r.Err? {
      return;
    }
    var id := r.value;
    ghost var entry := StoredEntry(PublishPacket(topic, 1, false, true, id, payload));
    assert e.store == Emplace(before, entry);
    var ack := MakePacketId(id);
    assert MakeUint16(ack[0], ack[1]) == id;
    var keepReading := e.HandlePuback(ack, h);
    if !HasKey(before, id, Puback) {
      EraseKeyAfterEmplace(before, entry);
    }
  }

  /**
   * A QoS 2 PUBLISH, its PUBREC and the PUBCOMP for the PUBREL the endpoint answers with:
   * after PUBREC the identifier is still taken and the PUBREL waits in the store; after
   * PUBCOMP the identifier is free and nothing waits under it.
   */
  method ExactlyOnceExchange(e: Endpoint, topic: seq<Byte>, payload: seq<Byte>)
    returns (r: Result<U16, AcquireError>)
    requires e.Valid() && e.autoPubResponse
    modifies e
    ensures e.Valid()
    ensures r.Err? <==> Exhausted(old(e.packetIds))
    ensures r.Err? ==> e.store == old(e.store) && e.sent == old(e.sent)
    ensures r.Ok? ==> r.value !in old(e.packetIds) && e.packetIds == old(e.packetIds)
    ensures r.Ok? ==> !HasKey(e.store, r.value, Pubrec) && !HasKey(e.store, r.value, Pubcomp)
    ensures r.Ok? ==>
      e.sent == old(e.sent)
        + (if old(e.connected) then [PublishPacket(topic, 2, false, false, r.value, payload), PubrelPacket(r.value)] else [])
    ensures r.Ok? && !HasKey(old(e.store), r.value, Pubrec) && !HasKey(old(e.store), r.value, Pubcomp) ==>
      e.store == old(e.store)
  {
    ghost var before := e.store;
    r := e.Publish(topic, payload, 2, false);
    if r.Err? {
      return;
    }
    var id := r.value;
    ghost var entry := StoredEntry(PublishPacket(topic, 2, false, true, id, payload));
    ghost var published := e.store;
    assert published == Emplace(before, entry);
    if !HasKey(before, id, Pubcomp) {
      assert !HasKey(published, id, Pubcomp);
    }
    ReceiveRecAndComp(e, id);
    if !HasKey(before, id, Pubrec) && !HasKey(before, id, Pubcomp) {
      EraseKeyAfterEmplace(before, entry);
    }
  }

  /**
   * The sender's half of a QoS 2 exchange after the PUBLISH: PUBREC, answered with PUBREL,
   * then PUBCOMP. Afterwards the identifier is free and nothing waits under it; of the store
   * only what waited for the PUBREC is gone.
   */
  method ReceiveRecAndComp(e: Endpoint, id: U16)
    requires e.Valid() && e.autoPubResponse
    modifies e`store, e`sent, e`events, e`packetIds
    ensures e.Valid()
    ensures e.packetIds == old(e.packetIds) - {id}
    ensures !HasKey(e.store, id, Pubrec) && !HasKey(e.store, id, Pubcomp)
    ensures e.sent == old(e.sent) + (if e.connected then [PubrelPacket(id)] else [])
    ensures !HasKey(old(e.store), id, Pubcomp) ==> e.store == EraseKey(old(e.store), id, Pubrec)
  {
    ghost var released := EraseKey(e.store, id, Pubrec);
    ghost var pubrel := StoredEntry(PubrelPacket(id));
    if !HasKey(e.store, id, Pubcomp) {
      assert !HasKey(released, id, Pubcomp);
    }
    var ack := MakePacketId(id);
    assert MakeUint16(ack[0], ack[1]) == id;
    var keepReading := e.HandlePubrec(ack, NotSet);
    assert e.store == Emplace(released, pubrel);
    assert HasKey(e.store, id, Pubcomp) && !HasKey(e.store, id, Pubrec);
    keepReading := e.HandlePubcomp(ack, NotSet);
    if !HasKey(released, id, Pubcomp) {
      EraseKeyAfterEmplace(released, pubrel);
    }
  }

  /**
   * QoS 2 on the receiving side: the same PUBLISH delivered twice reaches the handler once,
   * and is answered with PUBREC both times; after the PUBREL the identifier is new again.
   */
  method RedeliveredExactlyOnce(e: Endpoint, fixedHeader: Byte, payload: seq<Byte>)
    returns (first: seq<Event>, second: seq<Event>, third: seq<Event>)
    requires PublishQos(fixedHeader) == 2 && ParsePublish(2, payload).Ok?
    requires ParsePublish(2, payload).value.packetId.value !in e.qos2Handled
    modifies e
    ensures |first| == 1 && first[0].PublishHandled?
    ensures second == []
    ensures |third| == 1 && third[0].PublishHandled?
  {
    var id := ParsePublish(2, payload).value.packetId.value;
    var accept := Returns(true);
    var before := e.events;
    var r := e.HandlePublish(fixedHeader, payload, accept);
    first := e.events[|before|..];
    assert id in e.qos2Handled;

    before := e.events;
    r := e.HandlePublish(fixedHeader, payload, accept);
    second := e.events[|before|..];

    var keepReading := e.HandlePubrel(MakePacketId(id), NotSet);
    assert id !in e.qos2Handled;

    before := e.events;
    r := e.HandlePublish(fixedHeader, payload, accept);
    third := e.events[|before|..];
  }

  /** CONNACK is taken once per CONNECT: a second one is a protocol error. */
  method ConnectThenConnack(e: Endpoint, keepAlive: U16, connack: seq<Byte>)
    returns (first: Result<bool, ParseError>, second: Result<bool, ParseError>)
    requires |connack| == 2 && e.Valid()
    modifies e
    ensures first == Ok(true) && e.mqttConnected
    ensures second == Err(ProtocolError)
  {
    e.Connect(keepAlive);
    first := e.HandleConnack(connack, NotSet);
    second := e.HandleConnack(connack, NotSet);
  }

  /**
   * The end of the stream after `disconnect` is a close; the same end of the stream without
   * a DISCONNECT of ours is an error.
   */
  method CloseAfterDisconnect(e: Endpoint) returns (ended: Event)
    modifies e
    ensures old(e.connected) && old(e.mqttConnected) ==> ended == CloseHandled
    ensures !old(e.disconnectRequested) && !(old(e.connected) && old(e.mqttConnected)) ==>
      ended == ErrorHandled(FromSocket(SocketError(true)))
    ensures !e.connected && !e.disconnectRequested && (old(e.connected) ==> !e.mqttConnected)
  {
    e.Disconnect();
    var handled := e.HandleCloseOrError(Some(SocketError(true)), Returns(true), Returns(true));
    ended := e.events[|e.events| - 1];
  }

  /**
   * A message handed to the serialize hooks, restored into a new endpoint, is stored under
   * the same key and takes the same identifier.
   */
  method RestoreAfterRestart(m: Packet) returns (e: Endpoint)
    requires Serializable(m)
    ensures e.store == [StoredEntry(m)]
    ensures e.packetIds == {m.packetId}
    ensures e.Valid()
  {
    e := new Endpoint(false);
    SerializeRoundTrip(m);
    var error := e.RestoreSerializedMessage(Serialize(m));
    assert !HasKey([], m.packetId, StoredEntry(m).expected);
  }

  /**
   * `publish` with the reserved QoS 3, which its QoS check lets through: an identifier is
   * taken and the PUBLISH is sent, but nothing is stored under the identifier, so no
   * acknowledgement ever releases it.
   */
  method ReservedQosKeepsId(e: Endpoint, topic: seq<Byte>, payload: seq<Byte>) returns (r: Result<U16, AcquireError>)
    requires e.Valid() && !Exhausted(e.packetIds)
    requires forall x :: x in e.store ==> x.packetId in e.packetIds
    modifies e
    ensures r.Ok? && r.value in e.packetIds
    ensures forall x :: x in e.store ==> x.packetId != r.value
  {
    r := e.Publish(topic, payload, 3, false);
  }
}
