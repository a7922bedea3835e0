/**
 * The MQTT endpoint of include/mqtt/endpoint.hpp as one single-threaded object: its session
 * flags, the packet identifier allocator, the in-flight store, the QoS 2 receive-side
 * deduplication set, the Remaining Length reader, and the handlers for each received packet.
 *
 * What the endpoint writes to the socket is the log `sent`; the user callbacks it invokes are
 * the log `events`. A user callback that answers whether to keep reading is a `Handler`
 * parameter: not installed, or installed and returning a verdict.
 */
module Endpoint {
  import opened Results
  import opened Wire
  import opened RemainingLength
  import opened Parsers
  import opened PacketIds
  import opened Store

  /** A user callback for one packet type. */
  datatype Handler = NotSet | Returns(verdict: bool)

  /** Whether the endpoint goes on reading: an absent handler lets it, a present one decides. */
  predicate Continues(h: Handler)
  {
    h.NotSet? || h.verdict
  }

  /** The user callbacks the endpoint invokes, with what it passes them. */
  datatype Event =
    | SerializePublish(message: Packet)
    | SerializePubrel(message: Packet)
    | SerializeRemove(packetId: U16)
    | PubResponseSent(packetId: U16)
    | ConnectHandled(request: ConnectRequest)
    | ConnackHandled(sessionPresent: bool, returnCode: Byte)
    | PublishHandled(fixedHeader: Byte, publishId: Option<U16>, topic: seq<Byte>, contents: seq<Byte>)
    | PubackHandled(packetId: U16)
    | PubrecHandled(packetId: U16)
    | PubrelHandled(packetId: U16)
    | PubcompHandled(packetId: U16)
    | SubscribeHandled(packetId: U16, entries: seq<SubscribeEntry>)
    | SubackHandled(packetId: U16, results: seq<Option<Byte>>)
    | UnsubscribeHandled(packetId: U16, topicFilters: seq<seq<Byte>>)
    | UnsubackHandled(packetId: U16)
    | PingreqHandled
    | PingrespHandled
    | DisconnectHandled
    | CloseHandled
    | ErrorHandled(code: ErrorCode)

  /** The event a handler call leaves: one when the handler is installed, none otherwise. */
  function Notify(h: Handler, e: Event): (es: seq<Event>)
    ensures es == [] <==> h.NotSet?
  {
    if h.Returns? then [e] else []
  }

  /** The handlers installed for each packet type the endpoint receives. */
  datatype Handlers = Handlers(
    connect: Handler, connack: Handler, publish: Handler, puback: Handler, pubrec: Handler,
    pubrel: Handler, pubcomp: Handler, subscribe: Handler, suback: Handler,
    unsubscribe: Handler, unsuback: Handler, pingreq: Handler, pingresp: Handler,
    disconnect: Handler)

  /** A failed or ended socket read; `cleanEof` covers end of file, reset, ws close, TLS short read. */
  datatype SocketError = SocketError(cleanEof: bool)

  /** What `handle_error` passes to the error handler: the socket's error or `message_size`. */
  datatype ErrorCode = FromSocket(error: SocketError) | BadMessageSize

  /** The exception of `acquire_unique_packet_id`. */
  datatype AcquireError = PacketIdExhausted

  /** Every field of the endpoint, for stating that an operation changes nothing. */
  datatype Snapshot = Snapshot(
    connected: bool, mqttConnected: bool, cleanSession: bool, connectRequested: bool,
    disconnectRequested: bool, autoPubResponse: bool, serializeHooks: bool, pubResSentHook: bool,
    packetIdMaster: U16, packetIds: set<U16>, store: seq<StoreEntry>, qos2Handled: set<U16>,
    clientId: seq<Byte>, remainingLength: nat, remainingLengthMultiplier: nat,
    sent: seq<Packet>, events: seq<Event>)

  /** Packet types `handle_payload` passes on only once the MQTT session is up. */
  predicate NeedsSession(t: PacketType)
  {
    t != Connect && t != Connack && t != Disconnect && t != Reserved
  }

  class Endpoint {
    var connected: bool            // connected_: the socket is open
    var mqttConnected: bool        // mqtt_connected_: CONNECT or CONNACK was handled
    var cleanSession: bool
    var connectRequested: bool
    var disconnectRequested: bool
    var autoPubResponse: bool
    var serializeHooks: bool       // h_serialize_publish_ / _pubrel_ / _remove_ installed
    var pubResSentHook: bool       // h_pub_res_sent_ installed
    var packetIdMaster: U16
    var packetIds: set<U16>
    var store: seq<StoreEntry>
    var qos2Handled: set<U16>      // qos2_publish_handled_
    var clientId: seq<Byte>
    var remainingLength: nat
    var remainingLengthMultiplier: nat
    var sent: seq<Packet>
    var events: seq<Event>

    ghost function State(): Snapshot
      reads this
    {
      Snapshot(connected, mqttConnected, cleanSession, connectRequested, disconnectRequested,
               autoPubResponse, serializeHooks, pubResSentHook, packetIdMaster, packetIds, store,
               qos2Handled, clientId, remainingLength, remainingLengthMultiplier, sent, events)
    }

    /** The store's unique index holds. */
    ghost predicate Valid()
      reads this
    {
      UniqueKeys(store)
    }

    /** The client constructor (no socket yet) or the server one (an accepted socket). */
    constructor (socketConnected: bool)
      ensures connected == socketConnected
      ensures !mqttConnected && !cleanSession && !connectRequested && !disconnectRequested
      ensures autoPubResponse && !serializeHooks && !pubResSentHook
      ensures packetIdMaster == 0 && packetIds == {} && store == [] && qos2Handled == {}
      ensures clientId == [] && sent == [] && events == []
      ensures Valid()
    {
      connected := socketConnected;
      mqttConnected := false;
      cleanSession := false;
      connectRequested := false;
      disconnectRequested := false;
      autoPubResponse := true;
      serializeHooks := false;
      pubResSentHook := false;
      packetIdMaster := 0;
      packetIds := {};
      store := [];
      qos2Handled := {};
      clientId := [];
      remainingLength := 0;
      remainingLengthMultiplier := 1;
      sent := [];
      events := [];
    }

    /** `do_sync_write`: the packet goes out only while the socket is connected. */
    method Write(p: Packet)
      modifies this`sent
      ensures sent == old(sent) + (if connected then [p] else [])
    {
      if connected {
        sent := sent + [p];
      }
    }

    // -------------------------------------------------------------------------------
    // Packet identifiers

    /**
     * `acquire_unique_packet_id`, with the exhaustion test corrected to refuse only when every
     * nonzero identifier is in use: counts on from the last identifier handed out, skipping 0,
     * to the first one not in use, and takes it.
     */
    method AcquireUniquePacketId() returns (r: Result<U16, AcquireError>)
      modifies this`packetIds, this`packetIdMaster
      ensures r.Err? <==> Exhausted(old(packetIds))
      ensures r.Err? <==> forall x: U16 :: x != 0 ==> x in old(packetIds)
      ensures r.Err? ==> packetIds == old(packetIds) && packetIdMaster == old(packetIdMaster)
      ensures r.Ok? ==> r.value != 0 && r.value !in old(packetIds)
      ensures r.Ok? ==> packetIds == old(packetIds) + {r.value} && packetIdMaster == r.value
      ensures r.Ok? ==> FirstFreeAfter(old(packetIds), old(packetIdMaster), r.value)
    {
      ExhaustedIffFull(packetIds);
      if |packetIds - {0}| >= IdCount {
        return Err(PacketIdExhausted);
      }
      ghost var free := FreeIdExists(packetIds - {0});
      ghost var start := Next(packetIdMaster);
      NextIsNonzeroSuccessor(packetIdMaster);
      packetIdMaster := Next(packetIdMaster);
      while packetIdMaster in packetIds
        invariant packetIds == old(packetIds)
        invariant packetIdMaster != 0
        invariant Distance(start, packetIdMaster) <= Distance(start, free)
        invariant forall x: U16 :: x != 0 && Distance(start, x) < Distance(start, packetIdMaster) ==> x in packetIds
        decreases Distance(start, free) - Distance(start, packetIdMaster)
      {
        DistanceInjective(start, packetIdMaster, free);
        forall x: U16 | x != 0 && Distance(start, x) == Distance(start, packetIdMaster)
          ensures x in packetIds
        {
          DistanceInjective(start, x, packetIdMaster);
        }
        DistanceNext(start, packetIdMaster);
        NextIsNonzeroSuccessor(packetIdMaster);
        packetIdMaster := Next(packetIdMaster);
      }
      packetIds := packetIds + {packetIdMaster};
      return Ok(packetIdMaster);
    }

    /** `register_packet_id`: 0 is refused; any other identifier is taken if it is free. */
    method RegisterPacketId(packetId: U16) returns (ok: bool)
      modifies this`packetIds
      ensures ok <==> packetId != 0 && packetId !in old(packetIds)
      ensures packetIds == if packetId == 0 then old(packetIds) else old(packetIds) + {packetId}
    {
      if packetId == 0 {
        return false;
      }
      ok := packetId !in packetIds;
      packetIds := packetIds + {packetId};
    }

    /** `release_packet_id`: reports whether the identifier was in use; it is free afterwards. */
    method ReleasePacketId(packetId: U16) returns (ok: bool)
      modifies this`packetIds
      ensures ok <==> packetId in old(packetIds)
      ensures packetIds == old(packetIds) - {packetId}
    {
      ok := packetId in packetIds;
      packetIds := packetIds - {packetId};
    }

    /** `clear_stored_publish`: every stored message with the identifier goes, and the identifier. */
    method ClearStoredPublish(packetId: U16)
      requires Valid()
      modifies this`store, this`packetIds
      ensures store == EraseId(old(store), packetId)
      ensures forall e :: e in store ==> e.packetId != packetId
      ensures packetIds == old(packetIds) - {packetId}
      ensures Valid()
    {
      store := EraseId(store, packetId);
      packetIds := packetIds - {packetId};
    }

    // -------------------------------------------------------------------------------
    // Filling the store

    /**
     * `send_publish`: writes the PUBLISH; at QoS 1 and 2 it also stores it, marked as a
     * duplicate for a resend, under the acknowledgement it waits for.
     */
    method SendPublish(topic: seq<Byte>, qos: nat, retain: bool, dup: bool, packetId: U16, payload: seq<Byte>)
      requires Valid()
      modifies this`sent, this`store, this`events
      ensures Valid()
      ensures sent == old(sent) + (if connected then [PublishPacket(topic, qos, retain, dup, packetId, payload)] else [])
      ensures !CarriesPacketId(qos) ==> store == old(store) && events == old(events)
      ensures CarriesPacketId(qos) ==>
        var stored := PublishPacket(topic, qos, retain, true, packetId, payload);
        && store == Emplace(old(store), StoredEntry(stored))
        && events == old(events) + (if serializeHooks then [SerializePublish(stored)] else [])
      ensures CarriesPacketId(qos) ==> HasKey(store, packetId, ExpectedAck(qos))
    {
      var message := PublishPacket(topic, qos, retain, dup, packetId, payload);
      Write(message);
      if qos == 1 || qos == 2 {
        var stored := message.(dup := true);
        store := Emplace(store, StoredEntry(stored));
        if serializeHooks {
          events := events + [SerializePublish(stored)];
        }
      }
    }

    /**
     * `publish(topic, contents, qos, retain)`: QoS 0 goes out with identifier 0; any other
     * QoS first acquires an identifier, and the exhaustion exception stops the send. The QoS
     * check in front of it is always true, so the reserved QoS 3 acquires an identifier too.
     */
    method Publish(topic: seq<Byte>, payload: seq<Byte>, qos: nat, retain: bool) returns (r: Result<U16, AcquireError>)
      requires Valid()
      modifies this`packetIds, this`packetIdMaster, this`sent, this`store, this`events
      ensures Valid()
      ensures qos == 0 ==> r == Ok(0) && packetIds == old(packetIds) && packetIdMaster == old(packetIdMaster)
      ensures qos != 0 ==> (r.Err? <==> Exhausted(old(packetIds)))
      ensures r.Err? ==>
        && sent == old(sent) && store == old(store) && events == old(events)
        && packetIds == old(packetIds) && packetIdMaster == old(packetIdMaster)
      ensures r.Ok? && qos != 0 ==>
        && r.value != 0 && r.value !in old(packetIds) && packetIds == old(packetIds) + {r.value}
        && packetIdMaster == r.value && FirstFreeAfter(old(packetIds), old(packetIdMaster), r.value)
      ensures r.Ok? ==> sent == old(sent) + (if connected then [PublishPacket(topic, qos, retain, false, r.value, payload)] else [])
      ensures r.Ok? && CarriesPacketId(qos) ==>
        var stored := PublishPacket(topic, qos, retain, true, r.value, payload);
        && store == Emplace(old(store), StoredEntry(stored))
        && events == old(events) + (if serializeHooks then [SerializePublish(stored)] else [])
      ensures r.Ok? && CarriesPacketId(qos) ==> HasKey(store, r.value, ExpectedAck(qos))
      ensures r.Ok? && !CarriesPacketId(qos) ==> store == old(store) && events == old(events)
    {
      var packetId: U16 := 0;
      if qos != 0 {
        r := AcquireUniquePacketId();
        if r.Err? {
          return;
        }
        packetId := r.value;
      }
      SendPublish(topic, qos, retain, false, packetId, payload);
      r := Ok(packetId);
    }

    /** `send_pubrel`: writes the PUBREL and stores it to wait for PUBCOMP. */
    method SendPubrel(packetId: U16)
      requires Valid()
      modifies this`sent, this`store, this`events
      ensures Valid()
      ensures sent == old(sent) + (if connected then [PubrelPacket(packetId)] else [])
      ensures store == Emplace(old(store), StoredEntry(PubrelPacket(packetId)))
      ensures events == old(events) + (if serializeHooks then [SerializePubrel(PubrelPacket(packetId))] else [])
    {
      Write(PubrelPacket(packetId));
      StorePubrel(packetId);
    }

    /** `store_pubrel`: stores the PUBREL to wait for PUBCOMP without writing it. */
    method StorePubrel(packetId: U16)
      requires Valid()
      modifies this`store, this`events
      ensures Valid()
      ensures store == Emplace(old(store), StoredEntry(PubrelPacket(packetId)))
      ensures HasKey(store, packetId, Pubcomp)
      ensures events == old(events) + (if serializeHooks then [SerializePubrel(PubrelPacket(packetId))] else [])
    {
      store := Emplace(store, StoredEntry(PubrelPacket(packetId)));
      if serializeHooks {
        events := events + [SerializePubrel(PubrelPacket(packetId))];
      }
    }

    /** `send_puback` and `send_pubcomp` report the response to the pub_res_sent hook. */
    method SendPuback(packetId: U16)
      modifies this`sent, this`events
      ensures sent == old(sent) + (if connected then [PubackPacket(packetId)] else [])
      ensures events == old(events) + (if pubResSentHook then [PubResponseSent(packetId)] else [])
    {
      Write(PubackPacket(packetId));
      if pubResSentHook {
        events := events + [PubResponseSent(packetId)];
      }
    }

    method SendPubrec(packetId: U16)
      modifies this`sent
      ensures sent == old(sent) + (if connected then [PubrecPacket(packetId)] else [])
    {
      Write(PubrecPacket(packetId));
    }

    method SendPubcomp(packetId: U16)
      modifies this`sent, this`events
      ensures sent == old(sent) + (if connected then [PubcompPacket(packetId)] else [])
      ensures events == old(events) + (if pubResSentHook then [PubResponseSent(packetId)] else [])
    {
      Write(PubcompPacket(packetId));
      if pubResSentHook {
        events := events + [PubResponseSent(packetId)];
      }
    }

    /**
     * `restore_serialized_message` for a decoded PUBLISH or PUBREL: stored only when its
     * identifier was free, and the identifier is then taken.
     */
    method RestoreMessage(m: Packet)
      requires Valid() && (m.PublishPacket? || m.PubrelPacket?)
      modifies this`packetIds, this`store
      ensures Valid()
      ensures m.packetId in old(packetIds) ==> packetIds == old(packetIds) && store == old(store)
      ensures m.packetId !in old(packetIds) ==>
        packetIds == old(packetIds) + {m.packetId} && store == Emplace(old(store), StoredEntry(m))
    {
      if m.packetId !in packetIds {
        packetIds := packetIds + {m.packetId};
        store := Emplace(store, StoredEntry(m));
      }
    }

    /**
     * `restore_serialized_message(packet_id, b, e)`: nothing for no bytes; a PUBLISH or a
     * PUBREL is restored; any other packet type is a protocol error.
     */
    method RestoreSerializedMessage(bytes: seq<Byte>) returns (error: Option<ParseError>)
      requires Valid()
      modifies this`packetIds, this`store
      ensures Valid()
      ensures bytes == [] ==> error.None? && packetIds == old(packetIds) && store == old(store)
      ensures bytes != [] && DecodeStored(bytes).Err? ==>
        error == Some(DecodeStored(bytes).error) && packetIds == old(packetIds) && store == old(store)
      ensures bytes != [] && DecodeStored(bytes).Ok? ==>
        var m := DecodeStored(bytes).value;
        && error.None?
        && (m.packetId in old(packetIds) ==> packetIds == old(packetIds) && store == old(store))
        && (m.packetId !in old(packetIds) ==>
              packetIds == old(packetIds) + {m.packetId} && store == Emplace(old(store), StoredEntry(m)))
    {
      if bytes == [] {
        return None;
      }
      var decoded := DecodeStored(bytes);
      if decoded.Err? {
        return Some(decoded.error);
      }
      RestoreMessage(decoded.value);
      return None;
    }

    // -------------------------------------------------------------------------------
    // Acknowledgements

    /** What `handle_puback` leaves: the QoS 1 exchange is over; its message and identifier are released. */
    twostate predicate PubackDone(payload: seq<Byte>, h: Handler)
      requires |payload| == 2
      reads this
    {
      var id := MakeUint16(payload[0], payload[1]);
      && store == EraseKey(old(store), id, Puback)
      && packetIds == old(packetIds) - {id}
      && events == old(events) + (if serializeHooks then [SerializeRemove(id)] else []) + Notify(h, PubackHandled(id))
    }

    method HandlePuback(payload: seq<Byte>, h: Handler) returns (keepReading: bool)
      requires |payload| == 2 && Valid()
      modifies this`store, this`packetIds, this`events
      ensures Valid()
      ensures PubackDone(payload, h)
      ensures keepReading == Continues(h)
    {
      var id := MakeUint16(payload[0], payload[1]);
      store := EraseKey(store, id, Puback);
      packetIds := packetIds - {id};
      if serializeHooks {
        events := events + [SerializeRemove(id)];
      }
      events := events + Notify(h, PubackHandled(id));
      keepReading := Continues(h);
    }

    /**
     * What `handle_pubrec` leaves: the PUBLISH waiting for PUBREC is released but its
     * identifier stays taken; when the handler lets it, a PUBREL is sent (or only stored
     * while disconnected).
     */
    twostate predicate PubrecDone(payload: seq<Byte>, h: Handler)
      requires |payload| == 2
      reads this
    {
      var id := MakeUint16(payload[0], payload[1]);
      var released := EraseKey(old(store), id, Pubrec);
      var respond := Continues(h) && autoPubResponse;
      && packetIds == old(packetIds)
      && store == (if respond then Emplace(released, StoredEntry(PubrelPacket(id))) else released)
      && sent == old(sent) + (if respond && connected then [PubrelPacket(id)] else [])
      && events == old(events) + Notify(h, PubrecHandled(id))
                   + (if respond && serializeHooks then [SerializePubrel(PubrelPacket(id))] else [])
    }

    method HandlePubrec(payload: seq<Byte>, h: Handler) returns (keepReading: bool)
      requires |payload| == 2 && Valid()
      modifies this`store, this`sent, this`events
      ensures Valid()
      ensures PubrecDone(payload, h)
      ensures keepReading == Continues(h)
    {
      var id := MakeUint16(payload[0], payload[1]);
      store := EraseKey(store, id, Pubrec);
      events := events + Notify(h, PubrecHandled(id));
      if Continues(h) && autoPubResponse {
        if connected {
          SendPubrel(id);
        } else {
          StorePubrel(id);
        }
      }
      keepReading := Continues(h);
    }

    /**
     * What `handle_pubrel` leaves: the identifier leaves the QoS 2 deduplication set, so a
     * later PUBLISH with it is a new message; when the handler lets it, PUBCOMP is sent.
     */
    twostate predicate PubrelDone(payload: seq<Byte>, h: Handler)
      requires |payload| == 2
      reads this
    {
      var id := MakeUint16(payload[0], payload[1]);
      var respond := Continues(h) && autoPubResponse && connected;
      && qos2Handled == old(qos2Handled) - {id}
      && sent == old(sent) + (if respond then [PubcompPacket(id)] else [])
      && events == old(events) + Notify(h, PubrelHandled(id))
                   + (if respond && pubResSentHook then [PubResponseSent(id)] else [])
    }

    method HandlePubrel(payload: seq<Byte>, h: Handler) returns (keepReading: bool)
      requires |payload| == 2
      modifies this`qos2Handled, this`sent, this`events
      ensures PubrelDone(payload, h)
      ensures keepReading == Continues(h)
    {
      var id := MakeUint16(payload[0], payload[1]);
      qos2Handled := qos2Handled - {id};
      events := events + Notify(h, PubrelHandled(id));
      if Continues(h) && autoPubResponse && connected {
        SendPubcomp(id);
      }
      keepReading := Continues(h);
    }

    /** What `handle_pubcomp` leaves: the QoS 2 exchange is over; the PUBREL and the identifier are released. */
    twostate predicate PubcompDone(payload: seq<Byte>, h: Handler)
      requires |payload| == 2
      reads this
    {
      var id := MakeUint16(payload[0], payload[1]);
      && store == EraseKey(old(store), id, Pubcomp)
      && packetIds == old(packetIds) - {id}
      && events == old(events) + (if serializeHooks then [SerializeRemove(id)] else []) + Notify(h, PubcompHandled(id))
    }

    method HandlePubcomp(payload: seq<Byte>, h: Handler) returns (keepReading: bool)
      requires |payload| == 2 && Valid()
      modifies this`store, this`packetIds, this`events
      ensures Valid()
      ensures PubcompDone(payload, h)
      ensures keepReading == Continues(h)
    {
      var id := MakeUint16(payload[0], payload[1]);
      store := EraseKey(store, id, Pubcomp);
      packetIds := packetIds - {id};
      if serializeHooks {
        events := events + [SerializeRemove(id)];
      }
      events := events + Notify(h, PubcompHandled(id));
      keepReading := Continues(h);
    }

    /** What `handle_suback` leaves: the SUBSCRIBE's identifier is released and the return codes reported. */
    twostate predicate SubackDone(payload: seq<Byte>, h: Handler, new r: Result<bool, ParseError>)
      reads this
    {
      && (|payload| < 2 ==> r == Err(MessageSize) && packetIds == old(packetIds) && events == old(events))
      && (|payload| >= 2 ==>
            var id := MakeUint16(payload[0], payload[1]);
            && r == Ok(Continues(h))
            && packetIds == old(packetIds) - {id}
            && events == old(events) + Notify(h, SubackHandled(id, SubackResults(payload))))
    }

    method HandleSuback(payload: seq<Byte>, h: Handler) returns (r: Result<bool, ParseError>)
      modifies this`packetIds, this`events
      ensures SubackDone(payload, h, r)
    {
      if |payload| < 2 {
        return Err(MessageSize);
      }
      var id := MakeUint16(payload[0], payload[1]);
      packetIds := packetIds - {id};
      var results := ParseSubackResults(payload);
      events := events + Notify(h, SubackHandled(id, results));
      return Ok(Continues(h));
    }

    /** What `handle_unsuback` leaves: the UNSUBSCRIBE's identifier is released. */
    twostate predicate UnsubackDone(payload: seq<Byte>, h: Handler)
      requires |payload| == 2
      reads this
    {
      var id := MakeUint16(payload[0], payload[1]);
      packetIds == old(packetIds) - {id} && events == old(events) + Notify(h, UnsubackHandled(id))
    }

    method HandleUnsuback(payload: seq<Byte>, h: Handler) returns (keepReading: bool)
      requires |payload| == 2
      modifies this`packetIds, this`events
      ensures UnsubackDone(payload, h)
      ensures keepReading == Continues(h)
    {
      var id := MakeUint16(payload[0], payload[1]);
      packetIds := packetIds - {id};
      events := events + Notify(h, UnsubackHandled(id));
      keepReading := Continues(h);
    }

    // -------------------------------------------------------------------------------
    // Received requests

    /**
     * What `handle_publish` leaves. QoS 0 only reaches the handler. QoS 1 answers PUBACK when the handler
     * accepts. QoS 2 calls the handler only for an identifier not yet in the deduplication
     * set, records the identifier when the handler accepts, and answers PUBREC for a new
     * accepted message and for a repeated one alike. The reserved QoS 3 is ignored.
     */
    twostate predicate PublishDone(fixedHeader: Byte, payload: seq<Byte>, h: Handler, new r: Result<bool, ParseError>)
      reads this
    {
      && (ParsePublish(PublishQos(fixedHeader), payload).Err? ==>
            r == Err(MessageSize) && qos2Handled == old(qos2Handled) && sent == old(sent) && events == old(events))
      && (ParsePublish(PublishQos(fixedHeader), payload).Ok? ==>
            var qos := PublishQos(fixedHeader);
            var b := ParsePublish(qos, payload).value;
            var call := PublishHandled(fixedHeader, b.packetId, b.topic, b.contents);
            && (qos == 0 ==> r == Ok(Continues(h)) && events == old(events) + Notify(h, call)
                             && sent == old(sent) && qos2Handled == old(qos2Handled))
            && (qos == 1 ==>
                  var respond := Continues(h) && autoPubResponse && connected;
                  && r == Ok(Continues(h)) && qos2Handled == old(qos2Handled)
                  && sent == old(sent) + (if respond then [PubackPacket(b.packetId.value)] else [])
                  && events == old(events) + Notify(h, call)
                               + (if respond && pubResSentHook then [PubResponseSent(b.packetId.value)] else []))
            && (qos == 2 ==>
                  var id := b.packetId.value;
                  var firstTime := h.Returns? && id !in old(qos2Handled);
                  && (firstTime ==> r == Ok(h.verdict) && events == old(events) + [call]
                                    && qos2Handled == (if h.verdict then old(qos2Handled) + {id} else old(qos2Handled)))
                  && (!firstTime ==> r == Ok(true) && events == old(events) && qos2Handled == old(qos2Handled))
                  && sent == old(sent) + (if r == Ok(true) && autoPubResponse && connected then [PubrecPacket(id)] else []))
            && (qos == 3 ==> r == Ok(true) && sent == old(sent) && events == old(events) && qos2Handled == old(qos2Handled)))
    }

    method HandlePublish(fixedHeader: Byte, payload: seq<Byte>, h: Handler) returns (r: Result<bool, ParseError>)
      modifies this`qos2Handled, this`sent, this`events
      ensures PublishDone(fixedHeader, payload, h, r)
    {
      var qos := PublishQos(fixedHeader);
      var parsed := ParsePublish(qos, payload);
      if parsed.Err? {
        return Err(parsed.error);
      }
      var b := parsed.value;
      var call := PublishHandled(fixedHeader, b.packetId, b.topic, b.contents);
      if qos == 0 {
        events := events + Notify(h, call);
        return Ok(Continues(h));
      } else if qos == 1 {
        var id := b.packetId.value;
        events := events + Notify(h, call);
        if !Continues(h) {
          return Ok(false);
        }
        if autoPubResponse && connected {
          SendPuback(id);
        }
        return Ok(true);
      } else if qos == 2 {
        var id := b.packetId.value;
        if h.Returns? && id !in qos2Handled {
          events := events + [call];
          if !h.verdict {
            return Ok(false);
          }
          qos2Handled := qos2Handled + {id};
        }
        if autoPubResponse && connected {
          SendPubrec(id);
        }
        return Ok(true);
      }
      return Ok(true);
    }

    /** What `handle_subscribe` leaves: the decoded entries are passed to the handler. */
    twostate predicate SubscribeDone(payload: seq<Byte>, h: Handler, new r: Result<bool, ParseError>)
      reads this
    {
      && (SubscribeSpec(payload).Err? ==> r == Err(SubscribeSpec(payload).error) && events == old(events))
      && (SubscribeSpec(payload).Ok? ==>
            var request := SubscribeSpec(payload).value;
            r == Ok(Continues(h)) && events == old(events) + Notify(h, SubscribeHandled(request.packetId, request.entries)))
    }

    method HandleSubscribe(payload: seq<Byte>, h: Handler) returns (r: Result<bool, ParseError>)
      modifies this`events
      ensures SubscribeDone(payload, h, r)
    {
      var parsed := ParseSubscribe(payload);
      if parsed.Err? {
        return Err(parsed.error);
      }
      events := events + Notify(h, SubscribeHandled(parsed.value.packetId, parsed.value.entries));
      return Ok(Continues(h));
    }

    /** What `handle_unsubscribe` leaves: the decoded topic filters are passed to the handler. */
    twostate predicate UnsubscribeDone(payload: seq<Byte>, h: Handler, new r: Result<bool, ParseError>)
      reads this
    {
      && (UnsubscribeSpec(payload).Err? ==> r == Err(UnsubscribeSpec(payload).error) && events == old(events))
      && (UnsubscribeSpec(payload).Ok? ==>
            var request := UnsubscribeSpec(payload).value;
            r == Ok(Continues(h))
            && events == old(events) + Notify(h, UnsubscribeHandled(request.packetId, request.topicFilters)))
    }

    method HandleUnsubscribe(payload: seq<Byte>, h: Handler) returns (r: Result<bool, ParseError>)
      modifies this`events
      ensures UnsubscribeDone(payload, h, r)
    {
      var parsed := ParseUnsubscribe(payload);
      if parsed.Err? {
        return Err(parsed.error);
      }
      events := events + Notify(h, UnsubscribeHandled(parsed.value.packetId, parsed.value.topicFilters));
      return Ok(Continues(h));
    }

    /**
     * What `handle_connect` leaves. The client identifier and the clean session flag are
     * recorded as soon as the client identifier has been read, before the optional fields;
     * the session is up only once the whole payload has been read.
     */
    twostate predicate ConnectDone(payload: seq<Byte>, h: Handler, new r: Result<bool, ParseError>)
      reads this
    {
      && (ParseConnectHeader(payload).Err? ==>
            r == Err(ParseConnectHeader(payload).error) && State() == old(State()))
      && (ParseConnectHeader(payload).Ok? ==>
            clientId == ParseConnectHeader(payload).value.clientId
            && cleanSession == HasCleanSession(ParseConnectHeader(payload).value.flags))
      && (ParseConnect(payload).Err? ==>
            r == Err(ParseConnect(payload).error) && mqttConnected == old(mqttConnected) && events == old(events))
      && (ParseConnect(payload).Ok? ==>
            r == Ok(Continues(h)) && mqttConnected
            && events == old(events) + Notify(h, ConnectHandled(ParseConnect(payload).value)))
    }

    method HandleConnect(payload: seq<Byte>, h: Handler) returns (r: Result<bool, ParseError>)
      modifies this`clientId, this`cleanSession, this`mqttConnected, this`events
      ensures ConnectDone(payload, h, r)
    {
      var header := ParseConnectHeader(payload);
      if header.Err? {
        return Err(header.error);
      }
      clientId := header.value.clientId;
      cleanSession := HasCleanSession(header.value.flags);
      var options := ParseConnectOptions(header.value.flags, header.value.rest);
      if options.Err? {
        return Err(options.error);
      }
      mqttConnected := true;
      var request := ConnectRequest(header.value.clientId, options.value.userName, options.value.password,
                                    options.value.will, cleanSession, header.value.keepAlive);
      events := events + Notify(h, ConnectHandled(request));
      return Ok(Continues(h));
    }

    /**
     * What `handle_connack` leaves: refused unless CONNECT was sent. When the broker accepts,
     * a clean session drops the stored messages and a resumed one resends them in the order
     * they were stored. The packet identifiers stay taken either way.
     */
    twostate predicate ConnackDone(payload: seq<Byte>, h: Handler, new r: Result<bool, ParseError>)
      requires |payload| == 2
      reads this
    {
      && packetIds == old(packetIds)
      && (!old(connectRequested) ==> r == Err(ProtocolError) && State() == old(State()))
      && (old(connectRequested) ==>
            var accepted := payload[1] == 0;
            && r == Ok(Continues(h)) && !connectRequested && mqttConnected
            && store == (if accepted && cleanSession then [] else old(store))
            && sent == old(sent) + (if accepted && !cleanSession && connected then Messages(old(store)) else [])
            && events == old(events) + Notify(h, ConnackHandled(payload[0] % 2 == 1, payload[1])))
    }

    method HandleConnack(payload: seq<Byte>, h: Handler) returns (r: Result<bool, ParseError>)
      requires |payload| == 2 && Valid()
      modifies this`connectRequested, this`store, this`sent, this`mqttConnected, this`events
      ensures Valid()
      ensures ConnackDone(payload, h, r)
    {
      if !connectRequested {
        return Err(ProtocolError);
      }
      connectRequested := false;
      if payload[1] == 0 {
        if cleanSession {
          store := [];
        } else {
          var i := 0;
          while i < |store|
            invariant 0 <= i <= |store|
            invariant store == old(store) && !connectRequested && events == old(events)
            invariant sent == old(sent) + (if connected then Messages(store[..i]) else [])
          {
            MessagesSnoc(store[..i], store[i]);
            assert store[..i + 1] == store[..i] + [store[i]];
            Write(store[i].message);
            i := i + 1;
          }
          assert store[..i] == store;
        }
      }
      mqttConnected := true;
      events := events + Notify(h, ConnackHandled(payload[0] % 2 == 1, payload[1]));
      return Ok(Continues(h));
    }

    method HandlePingreq(h: Handler) returns (keepReading: bool)
      modifies this`events
      ensures events == old(events) + Notify(h, PingreqHandled) && keepReading == Continues(h)
    {
      events := events + Notify(h, PingreqHandled);
      keepReading := Continues(h);
    }

    method HandlePingresp(h: Handler) returns (keepReading: bool)
      modifies this`events
      ensures events == old(events) + Notify(h, PingrespHandled) && keepReading == Continues(h)
    {
      events := events + Notify(h, PingrespHandled);
      keepReading := Continues(h);
    }

    // -------------------------------------------------------------------------------
    // Reading a packet

    /**
     * `handle_control_packet_type` and `handle_remaining_length` over the bytes that follow
     * the fixed header's first byte: each byte adds its low seven bits times the multiplier,
     * the multiplier grows by 128, and a multiplier past 128^4 is reported to the error handler
     * `onError` as `message_size`.
     */
    method ReadRemainingLength(bytes: seq<Byte>, onError: Handler) returns (outcome: LengthOutcome)
      modifies this`remainingLength, this`remainingLengthMultiplier, this`events
      ensures outcome == DecodeLength(bytes)
      ensures outcome.Decoded? ==> remainingLength == outcome.length
      ensures events == old(events) + (if outcome.TooLong? then Notify(onError, ErrorHandled(BadMessageSize)) else [])
    {
      remainingLength := 0;
      remainingLengthMultiplier := 1;
      var i := 0;
      while i < |bytes|
        invariant 0 <= i <= |bytes| && i <= 4
        invariant remainingLengthMultiplier == Pow128(i)
        invariant remainingLength == Weighted(bytes[..i])
        invariant forall j :: 0 <= j < i ==> bytes[j] >= 128
        invariant events == old(events)
      {
        var b := bytes[i];
        WeightedSnoc(bytes[..i], b);
        assert bytes[..i + 1] == bytes[..i] + [b];
        remainingLength := remainingLength + (b % 128) * remainingLengthMultiplier;
        remainingLengthMultiplier := remainingLengthMultiplier * 128;
        MultiplierExceeds(i);
        if remainingLengthMultiplier > MaxMultiplier {
          events := events + Notify(onError, ErrorHandled(BadMessageSize));
          return TooLong;
        }
        i := i + 1;
        if b < 128 {
          return Decoded(remainingLength, i);
        }
      }
      return Incomplete;
    }

    /**
     * The `check` of `handle_remaining_length` on the length just read, for a packet of type
     * `t`; a length the check refuses is reported to `onError` as `message_size`.
     */
    method CheckRemainingLength(t: PacketType, isValidLength: Option<(PacketType, nat) -> bool>, onError: Handler)
      returns (ok: bool)
      modifies this`events
      ensures IdOnlyPacket(t) ==> (ok <==> remainingLength == 2)
      ensures EmptyPacket(t) ==> (ok <==> remainingLength == 0)
      ensures VariablePacket(t) ==> (ok <==> isValidLength.None? || isValidLength.value(t, remainingLength))
      ensures t == Reserved ==> !ok
      ensures events == old(events) + (if ok then [] else Notify(onError, ErrorHandled(BadMessageSize)))
    {
      ok := CheckLength(t, remainingLength, isValidLength);
      if !ok {
        events := events + Notify(onError, ErrorHandled(BadMessageSize));
      }
    }

    /**
     * What the cases of `handle_payload` for the packets that need the session leave once the
     * session is up: each packet type goes to its own handler, and of the store, the
     * identifiers, the deduplication set and the two logs, what that handler does not touch
     * keeps its value.
     */
    twostate predicate SessionPacketDone(t: PacketType, fixedHeader: Byte, payload: seq<Byte>, hs: Handlers,
                                         new r: Result<bool, ParseError>)
      requires NeedsSession(t) && (IdOnlyPacket(t) ==> |payload| == 2)
      reads this
    {
      match t
      case Publish =>
        PublishDone(fixedHeader, payload, hs.publish, r)
        && store == old(store) && packetIds == old(packetIds)
      case Puback =>
        r == Ok(Continues(hs.puback)) && PubackDone(payload, hs.puback)
        && sent == old(sent) && qos2Handled == old(qos2Handled)
      case Pubrec =>
        r == Ok(Continues(hs.pubrec)) && PubrecDone(payload, hs.pubrec)
        && qos2Handled == old(qos2Handled)
      case Pubrel =>
        r == Ok(Continues(hs.pubrel)) && PubrelDone(payload, hs.pubrel)
        && store == old(store) && packetIds == old(packetIds)
      case Pubcomp =>
        r == Ok(Continues(hs.pubcomp)) && PubcompDone(payload, hs.pubcomp)
        && sent == old(sent) && qos2Handled == old(qos2Handled)
      case Subscribe =>
        SubscribeDone(payload, hs.subscribe, r)
        && store == old(store) && packetIds == old(packetIds) && sent == old(sent) && qos2Handled == old(qos2Handled)
      case Suback =>
        SubackDone(payload, hs.suback, r)
        && store == old(store) && sent == old(sent) && qos2Handled == old(qos2Handled)
      case Unsubscribe =>
        UnsubscribeDone(payload, hs.unsubscribe, r)
        && store == old(store) && packetIds == old(packetIds) && sent == old(sent) && qos2Handled == old(qos2Handled)
      case Unsuback =>
        r == Ok(Continues(hs.unsuback)) && UnsubackDone(payload, hs.unsuback)
        && store == old(store) && sent == old(sent) && qos2Handled == old(qos2Handled)
      case Pingreq =>
        r == Ok(Continues(hs.pingreq)) && events == old(events) + Notify(hs.pingreq, PingreqHandled)
        && store == old(store) && packetIds == old(packetIds) && sent == old(sent) && qos2Handled == old(qos2Handled)
      case Pingresp =>
        r == Ok(Continues(hs.pingresp)) && events == old(events) + Notify(hs.pingresp, PingrespHandled)
        && store == old(store) && packetIds == old(packetIds) && sent == old(sent) && qos2Handled == old(qos2Handled)
    }

    /** Within the frame of `handle_payload`, nothing but the callback log has changed. */
    twostate predicate KeepsAllButEvents()
      reads this
    {
      && store == old(store) && packetIds == old(packetIds) && qos2Handled == old(qos2Handled) && sent == old(sent)
      && connectRequested == old(connectRequested) && mqttConnected == old(mqttConnected)
      && clientId == old(clientId) && cleanSession == old(cleanSession)
    }

    /** The cases of `handle_payload` for the packets that need the session, once it is up. */
    method HandleSessionPacket(t: PacketType, fixedHeader: Byte, payload: seq<Byte>, hs: Handlers)
      returns (r: Result<bool, ParseError>)
      requires Valid()
      requires NeedsSession(t) && (IdOnlyPacket(t) ==> |payload| == 2)
      modifies this`store, this`packetIds, this`qos2Handled, this`sent, this`events
      ensures Valid()
      ensures SessionPacketDone(t, fixedHeader, payload, hs, r)
    {
      match t {
        case Publish =>
          r := HandlePublish(fixedHeader, payload, hs.publish);
        case Puback =>
          var keepReading := HandlePuback(payload, hs.puback);
          r := Ok(keepReading);
        case Pubrec =>
          var keepReading := HandlePubrec(payload, hs.pubrec);
          r := Ok(keepReading);
        case Pubrel =>
          var keepReading := HandlePubrel(payload, hs.pubrel);
          r := Ok(keepReading);
        case Pubcomp =>
          var keepReading := HandlePubcomp(payload, hs.pubcomp);
          r := Ok(keepReading);
        case Subscribe =>
          r := HandleSubscribe(payload, hs.subscribe);
        case Suback =>
          r := HandleSuback(payload, hs.suback);
        case Unsubscribe =>
          r := HandleUnsubscribe(payload, hs.unsubscribe);
        case Unsuback =>
          var keepReading := HandleUnsuback(payload, hs.unsuback);
          r := Ok(keepReading);
        case Pingreq =>
          var keepReading := HandlePingreq(hs.pingreq);
          r := Ok(keepReading);
        case Pingresp =>
          var keepReading := HandlePingresp(hs.pingresp);
          r := Ok(keepReading);
      }
    }

    /**
     * A case of `handle_payload` for a packet that needs the session: handled only once the
     * session is up; before that nothing changes and reading stops.
     */
    method HandleIfConnected(t: PacketType, fixedHeader: Byte, payload: seq<Byte>, hs: Handlers)
      returns (r: Result<bool, ParseError>)
      requires Valid()
      requires NeedsSession(t) && (IdOnlyPacket(t) ==> |payload| == 2)
      modifies this`store, this`packetIds, this`qos2Handled, this`sent, this`events
      ensures Valid()
      ensures !old(mqttConnected) ==> r == Ok(false) && events == old(events) && KeepsAllButEvents()
      ensures old(mqttConnected) ==> SessionPacketDone(t, fixedHeader, payload, hs, r)
    {
      if mqttConnected {
        r := HandleSessionPacket(t, fixedHeader, payload, hs);
      } else {
        r := Ok(false);
      }
    }

    /** `handle_disconnect`: the DISCONNECT handler is told; reading stops. */
    method HandleDisconnect(h: Handler)
      modifies this`events
      ensures events == old(events) + Notify(h, DisconnectHandled)
    {
      events := events + Notify(h, DisconnectHandled);
    }

    /**
     * The cases of `handle_payload` that do not depend on the session: CONNECT, CONNACK,
     * DISCONNECT and the reserved types.
     */
    method HandleUngated(t: PacketType, payload: seq<Byte>, hs: Handlers) returns (r: Result<bool, ParseError>)
      requires Valid()
      requires !NeedsSession(t) && (IdOnlyPacket(t) ==> |payload| == 2)
      modifies this`store, this`sent, this`events, this`connectRequested, this`mqttConnected, this`clientId, this`cleanSession
      ensures Valid()
      ensures t.Connect? ==>
        ConnectDone(payload, hs.connect, r) && connectRequested == old(connectRequested)
        && store == old(store) && sent == old(sent)
      ensures t.Connack? ==> ConnackDone(payload, hs.connack, r) && clientId == old(clientId) && cleanSession == old(cleanSession)
      ensures t.Disconnect? ==>
        r == Ok(false) && events == old(events) + Notify(hs.disconnect, DisconnectHandled) && KeepsAllButEvents()
      ensures t.Reserved? ==> r == Ok(false) && events == old(events) && KeepsAllButEvents()
    {
      match t {
        case Connect =>
          r := HandleConnect(payload, hs.connect);
        case Connack =>
          r := HandleConnack(payload, hs.connack);
        case Disconnect =>
          HandleDisconnect(hs.disconnect);
          r := Ok(false);
        case Reserved =>
          r := Ok(false);
      }
    }

    /**
     * `handle_payload`: the packet type is read from the fixed header. CONNECT, CONNACK and
     * DISCONNECT are always handled; every other known packet goes to its handler once the
     * MQTT session is up and changes nothing before; a reserved type changes nothing. Of the
     * fields in its frame, what the handler called does not touch keeps its value; the socket,
     * the identifier counter, the automatic responses, the hooks and the Remaining Length
     * reader are outside the frame. The result says whether to read the next packet.
     */
    method HandlePayload(fixedHeader: Byte, payload: seq<Byte>, hs: Handlers) returns (r: Result<bool, ParseError>)
      requires Valid()
      requires IdOnlyPacket(ControlPacketType(fixedHeader)) ==> |payload| == 2
      modifies this`store, this`packetIds, this`qos2Handled, this`sent, this`events
      modifies this`connectRequested, this`mqttConnected, this`clientId, this`cleanSession
      ensures Valid()
      ensures ControlPacketType(fixedHeader).Connect? ==>
        ConnectDone(payload, hs.connect, r) && connectRequested == old(connectRequested)
        && store == old(store) && packetIds == old(packetIds) && sent == old(sent) && qos2Handled == old(qos2Handled)
      ensures ControlPacketType(fixedHeader).Connack? ==>
        ConnackDone(payload, hs.connack, r)
        && clientId == old(clientId) && cleanSession == old(cleanSession) && qos2Handled == old(qos2Handled)
      ensures ControlPacketType(fixedHeader).Disconnect? ==>
        r == Ok(false) && events == old(events) + Notify(hs.disconnect, DisconnectHandled) && KeepsAllButEvents()
      ensures ControlPacketType(fixedHeader).Reserved? ==> r == Ok(false) && events == old(events) && KeepsAllButEvents()
      ensures NeedsSession(ControlPacketType(fixedHeader)) && !old(mqttConnected) ==>
        r == Ok(false) && events == old(events) && KeepsAllButEvents()
      ensures NeedsSession(ControlPacketType(fixedHeader)) && old(mqttConnected) ==>
        SessionPacketDone(ControlPacketType(fixedHeader), fixedHeader, payload, hs, r)
        && connectRequested == old(connectRequested) && mqttConnected && clientId == old(clientId)
        && cleanSession == old(cleanSession)
    {
      var t := ControlPacketType(fixedHeader);
      if NeedsSession(t) {
        r := HandleIfConnected(t, fixedHeader, payload, hs);
      } else {
        r := HandleUngated(t, payload, hs);
      }
    }

    // -------------------------------------------------------------------------------
    // Session flags

    /**
     * `handle_close_or_error`: no error, nothing to do. Otherwise the session is down; an
     * orderly end of the stream after our DISCONNECT goes to the close handler `onClose`,
     * anything else to the error handler `onError`. Neither returns a verdict, so only
     * whether each is installed matters.
     */
    method HandleCloseOrError(ec: Option<SocketError>, onClose: Handler, onError: Handler) returns (handled: bool)
      modifies this`connected, this`mqttConnected, this`connectRequested, this`disconnectRequested, this`events
      ensures ec.None? ==> !handled && State() == old(State())
      ensures ec.Some? ==> handled && !connected && !connectRequested && !disconnectRequested
      ensures ec.Some? && old(connected) ==> !mqttConnected
      ensures ec.Some? && !old(connected) ==> mqttConnected == old(mqttConnected)
      ensures ec.Some? ==>
        events == old(events)
          + if ec.value.cleanEof && old(disconnectRequested) then Notify(onClose, CloseHandled)
            else Notify(onError, ErrorHandled(FromSocket(ec.value)))
    {
      if ec.None? {
        return false;
      }
      if connected {
        connected := false;
        mqttConnected := false;
      }
      if ec.value.cleanEof && disconnectRequested {
        disconnectRequested := false;
        connectRequested := false;
        events := events + Notify(onClose, CloseHandled);
        return true;
      }
      disconnectRequested := false;
      connectRequested := false;
      events := events + Notify(onError, ErrorHandled(FromSocket(ec.value)));
      return true;
    }

    /** `disconnect`: only an established session sends DISCONNECT and expects the close. */
    method Disconnect()
      modifies this`disconnectRequested, this`sent
      ensures old(connected) && old(mqttConnected) ==> disconnectRequested && sent == old(sent) + [DisconnectPacket]
      ensures !(old(connected) && old(mqttConnected)) ==>
        disconnectRequested == old(disconnectRequested) && sent == old(sent)
    {
      if connected && mqttConnected {
        disconnectRequested := true;
        Write(DisconnectPacket);
      }
    }

    /** `connect`: CONNACK is expected from now on, and CONNECT is written. */
    method Connect(keepAlive: U16)
      modifies this`connectRequested, this`sent
      ensures connectRequested
      ensures sent == old(sent) + (if connected then [ConnectPacket(keepAlive, clientId, cleanSession)] else [])
    {
      connectRequested := true;
      Write(ConnectPacket(keepAlive, clientId, cleanSession));
    }
  }
}
