# mqtt_cpp endpoint and example broker, modelled in Dafny

This project models two parts of mqtt_cpp, an MQTT 3.1.1 client and server library.

The first is the protocol core of the endpoint class template, `include/mqtt/endpoint.hpp`:
- the packet identifier allocator;
- the in-flight message store;
- the QoS 2 receive-side deduplication set;
- the decoders of received control packets and the Remaining Length reader;
- the size calculators used when packets are encoded;
- the session flags the handlers and `disconnect`/`connect` change.

The second is the subscription registry of the example broker, `example/tls_ws_server.cpp`, and the handlers it installs on each endpoint.

Modules:
- `Results`: `Option` and `Result`.
- `Wire`: bytes, big-endian 16-bit integers, packet identifiers and fixed-header fields.
- `RemainingLength`: the variable-length integer of section 2.2.3 of MQTT 3.1.1 and the per-type length check.
- `Parsers`: the CONNECT, PUBLISH, SUBSCRIBE, UNSUBSCRIBE and SUBACK decoders. Each is paired with an encoder and a round-trip lemma, and with the matching `*_remaining_length` calculator.
- `PacketIds`: counting arguments behind the identifier allocator.
- `Store`: the in-flight store as a sequence in insertion order. Its (identifier, expected acknowledgement) key is unique.
- `Endpoint`: the class `Endpoint`, whose fields are the endpoint's member variables and whose methods are its handlers.
- `Exchanges`: whole QoS 1, QoS 2, connect and close exchanges on one endpoint.
- `Broker`: the class `Broker` with the connection set, the subscription registry and the log of what the broker writes. It also holds the pure functions that specify the registry.

The endpoint's writes to its socket are the log `sent`. The user callbacks it invokes are the log `events`. A callback that returns whether to keep reading is a `Handler` parameter: either not installed, or installed and returning a verdict.

The broker is modelled as the example is written. Subscriptions are matched by topic equality, with no wildcards. Repeated subscriptions are kept. UNSUBSCRIBE erases the subscriptions of every client to the listed topics. Section 3.10.4 of MQTT 3.1.1 limits this to the sender's own subscriptions; `Broker.UnsubscribeDropsOtherClients` shows the difference.

## Model

| member | source | states |
|---|---|---|
| Wire.MakeUint16 | include/mqtt/endpoint.hpp:5621-5625 | the first byte is the high byte and the second the low byte of the result |
| Wire.MakePacketId | include/mqtt/endpoint.hpp:4071-4076 | two bytes that `make_uint16_t` reads back as the identifier |
| Wire.AddPacketId | include/mqtt/endpoint.hpp:4083-4086 | appends exactly two bytes that read back as the identifier, keeping the buffer in front |
| Wire.PacketIdOfUint16 | include/mqtt/endpoint.hpp:4071-4076 | encoding a decoded pair of bytes gives the same two bytes back |
| Wire.PacketIdInjective | include/mqtt/endpoint.hpp:4071-4076 | distinct identifiers have distinct encodings |
| Wire.ControlPacketTypeOfCode | include/mqtt/endpoint.hpp:4583 | the packet type is read from the high nibble of the fixed header, whatever the flags |
| Wire.PublishQos | include/mqtt/endpoint.hpp:4836 | the QoS read from a PUBLISH header is at most 3, so it may be the reserved value 3 |
| Wire.PublishFixedHeader | include/mqtt/endpoint.hpp:4836 | a PUBLISH header built from dup, QoS and retain is read back as a PUBLISH with the same three fields |
| RemainingLength.FirstTerminator | include/mqtt/endpoint.hpp:4485-4514 | the position of the first byte without its continuation bit |
| RemainingLength.DecodedBounds | include/mqtt/endpoint.hpp:4485-4514 | a decoded length uses 1 to 4 bytes, is below 128 to the power of that count, and ends on a byte below 128 |
| RemainingLength.MultiplierExceeds | include/mqtt/endpoint.hpp:4488 | the multiplier passes 128^4 exactly at the fifth byte |
| RemainingLength.FifthByteRefused | include/mqtt/endpoint.hpp:4486-4492 | four continuation bytes followed by a fifth byte are a length error |
| RemainingLength.LengthRoundTrip | include/mqtt/endpoint.hpp:4485-4514 | every length below 128^4, encoded as section 2.2.3 of MQTT 3.1.1 says, decodes to itself using exactly the encoded bytes |
| RemainingLength.EncodeLengthAtMostFour | include/mqtt/endpoint.hpp:4485-4514 | every length the reader accepts fits in four bytes |
| RemainingLength.NonMinimalAccepted | include/mqtt/endpoint.hpp:4485-4514 | a non-minimal encoding such as 0x80 0x00 is accepted as length 0 |
| RemainingLength.CheckLength | include/mqtt/endpoint.hpp:4515-4549 | identifier-only packets need length 2; PINGREQ, PINGRESP and DISCONNECT need 0; other packets pass unless the user check refuses; the reserved type fails |
| RemainingLength.PacketClassesPartition | include/mqtt/endpoint.hpp:4515-4549 | each packet type falls in exactly one of the three length classes or is reserved |
| Parsers.ReadField | include/mqtt/endpoint.hpp:4668-4698 | a length-prefixed field fails exactly when the input is shorter than its two-byte prefix says; otherwise it splits the input into prefix, field and rest |
| Parsers.FieldRoundTrip | include/mqtt/endpoint.hpp:4668-4698 | a field below 65536 bytes, prefixed with its length, is read back with the rest untouched |
| Parsers.ParseConnectHeader | include/mqtt/endpoint.hpp:4668-4698 | a protocol error exactly when the payload is shorter than 10 bytes or does not start with the protocol name and level; a message-size error exactly when the length-prefixed client identifier overruns the payload; otherwise it yields the flags byte, the keep-alive, and a client identifier of the announced length followed by the rest |
| Parsers.ParseWill | include/mqtt/endpoint.hpp:4702-4737 | without the will flag nothing is read; with it, the will topic and message are read, with QoS and retain taken from the flags |
| Parsers.ParseConnectOptions | include/mqtt/endpoint.hpp:4701-4775 | each optional field is present exactly when its flag is set; a short payload is a message-size error |
| Parsers.ParseConnect | include/mqtt/endpoint.hpp:4666-4784 | a parsed CONNECT carries the client identifier and the clean-session flag of its header |
| Parsers.ConnectFlags | include/mqtt/endpoint.hpp:4701-4775 | the flags byte announces exactly the fields the request has |
| Parsers.ConnectRemainingLength | include/mqtt/endpoint.hpp:4017-4031 | equals the length of the CONNECT variable header and payload |
| Parsers.WillRoundTrip | include/mqtt/endpoint.hpp:4702-4737 | encoded will fields are read back as the same will, leaving the rest |
| Parsers.ConnectOptionsRoundTrip | include/mqtt/endpoint.hpp:4701-4775 | the encoded optional fields are read back as the same options |
| Parsers.ConnectRoundTrip | include/mqtt/endpoint.hpp:4666-4784 | every encodable CONNECT request decodes to itself |
| Parsers.ParsePublish | include/mqtt/endpoint.hpp:4819-4877 | an identifier is present exactly at QoS 1 and 2; topic, identifier and contents account for the whole payload; a short payload is a message-size error |
| Parsers.PublishRemainingLength | include/mqtt/endpoint.hpp:4033-4049 | equals the length of the encoded PUBLISH body, with two identifier bytes only at QoS 1 and 2 |
| Parsers.PublishRoundTrip | include/mqtt/endpoint.hpp:4819-4877 | every PUBLISH body whose identifier matches its QoS decodes to itself |
| Parsers.RequestedQos | include/mqtt/endpoint.hpp:5021 | the requested QoS of an entry is at most 3 and a byte that is already a QoS level is kept as it is |
| Parsers.SubscribeEntries | include/mqtt/endpoint.hpp:4993-5028 | every decoded entry has a QoS byte of at most 3 and a topic filter below 65536 bytes; failures are message-size errors |
| Parsers.ParseSubscribe | include/mqtt/endpoint.hpp:4993-5028 | the decoding loop computes the recursive SUBSCRIBE decoder |
| Parsers.SubscribeEntriesRoundTrip | include/mqtt/endpoint.hpp:4993-5028 | encoded entries decode to the same entries in the same order |
| Parsers.SubscribeRoundTrip | include/mqtt/endpoint.hpp:4993-5028 | every encodable SUBSCRIBE payload decodes to itself |
| Parsers.SubscribeRemainingLength | include/mqtt/endpoint.hpp:4051-4059 | the summing loop yields the length of the encoded SUBSCRIBE payload |
| Parsers.SubscribeEntriesReencode | include/mqtt/endpoint.hpp:4993-5028 | decoded entries re-encode to a sequence as long as the bytes they came from and equal to them at every position, except that a requested-QoS byte above 3 comes back as its low two bits |
| Parsers.UnsubscribeTopics | include/mqtt/endpoint.hpp:5056-5083 | every decoded topic filter is below 65536 bytes; failures are message-size errors |
| Parsers.ParseUnsubscribe | include/mqtt/endpoint.hpp:5056-5083 | the decoding loop computes the recursive UNSUBSCRIBE decoder |
| Parsers.UnsubscribeTopicsReencode | include/mqtt/endpoint.hpp:5056-5083 | a decodable UNSUBSCRIBE body is exactly a run of length-prefixed topic filters: the decoded filters re-encode to the very bytes they came from |
| Parsers.UnsubscribeTopicsRoundTrip | include/mqtt/endpoint.hpp:5056-5083 | encoded topic filters decode to the same filters in order |
| Parsers.UnsubscribeRoundTrip | include/mqtt/endpoint.hpp:5056-5083 | every encodable UNSUBSCRIBE payload decodes to itself |
| Parsers.UnsubscribeRemainingLength | include/mqtt/endpoint.hpp:4061-4069 | the summing loop yields the length of the encoded UNSUBSCRIBE payload |
| Parsers.SubackReturnCode | include/mqtt/endpoint.hpp:5044-5049 | a code of 0x80 or above is a failure; any other code is the granted QoS |
| Parsers.SubackResults | include/mqtt/endpoint.hpp:5030-5054 | one result per byte after the identifier, in order |
| Parsers.ParseSubackResults | include/mqtt/endpoint.hpp:5030-5054 | the decoding loop computes the SUBACK results |
| Parsers.SubackCodesRoundTrip | include/mqtt/endpoint.hpp:5030-5054 | granted levels and failures encoded as return codes decode to themselves |
| PacketIds.NextIsNonzeroSuccessor | include/mqtt/endpoint.hpp:3865 | the next candidate identifier is one more than the last, wrapping from 65535 to 1 and never 0 |
| PacketIds.FreeIdExists | include/mqtt/endpoint.hpp:3863-3866 | fewer than 65535 identifiers in use leave a nonzero free identifier |
| PacketIds.AsWrittenGuardMissesFullSet | include/mqtt/endpoint.hpp:3863 | with all 65535 nonzero identifiers in use the guard as written does not refuse, and every candidate is in use |
| PacketIds.AsWrittenGuardRefusesFreeId | include/mqtt/endpoint.hpp:3863 | with 1 to 65534 in use the guard as written refuses, though 65535 is still free |
| PacketIds.ExhaustedIffFull | include/mqtt/endpoint.hpp:3852-3863 | the corrected guard refuses exactly when every nonzero identifier is in use, as the function's documentation promises |
| PacketIds.NotExhaustedLeavesFreeId | include/mqtt/endpoint.hpp:3863-3866 | whenever the corrected guard lets the search start, a free nonzero identifier exists, so the search ends |
| Store.ExpectedAck | include/mqtt/endpoint.hpp:5164-5165 | a stored QoS 1 PUBLISH waits for PUBACK; any other waits for PUBREC |
| Store.Emplace | include/mqtt/endpoint.hpp:4430-4458 | keeps the key unique, holds the key afterwards, keeps every entry, and adds none but the new one |
| Store.EmplaceOrder | include/mqtt/endpoint.hpp:4430-4458 | a message under a new key is placed after every stored message, so the store keeps insertion order; under a key already present the store is unchanged |
| Store.EmplaceIdempotent | include/mqtt/endpoint.hpp:4430-4458 | a second insertion under a key already present changes nothing |
| Store.EraseKeyAfterEmplace | include/mqtt/endpoint.hpp:4911-4914 | erasing the key of a message just inserted under a new key gives back the store as it was |
| Store.EraseKey | include/mqtt/endpoint.hpp:4911-4914 | removes exactly the entries with that identifier and acknowledgement type, keeping the index unique |
| Store.EraseId | include/mqtt/endpoint.hpp:3815-3817 | removes exactly the entries with that identifier, of either type |
| Store.Messages | include/mqtt/endpoint.hpp:4798-4803 | the stored messages in store order |
| Store.StoredEntry | include/mqtt/endpoint.hpp:5160-5168 | a PUBLISH is keyed by its identifier and its QoS's acknowledgement; a PUBREL by its identifier and PUBCOMP |
| Store.DecodeStored | include/mqtt/endpoint.hpp:3902-3921 | only a PUBLISH or a PUBREL is restored; any other packet type is a protocol error |
| Store.SerializeRoundTrip | include/mqtt/endpoint.hpp:3902-3949 | a message handed to the serialize hooks is restored as the same message |
| Endpoint.Notify | include/mqtt/endpoint.hpp:4918-4919 | a callback is invoked exactly when it is installed |
| Endpoint.Endpoint.constructor | include/mqtt/endpoint.hpp:68-93 | a fresh endpoint: no identifiers in use, empty store and deduplication set, session not established, automatic responses on |
| Endpoint.Endpoint.Write | include/mqtt/endpoint.hpp:5309-5315 | a packet is written only while the socket is connected |
| Endpoint.Endpoint.AcquireUniquePacketId | include/mqtt/endpoint.hpp:3861-3868 | corrected guard: refuses exactly when every nonzero identifier is in use; otherwise takes the first free nonzero identifier after the last one handed out |
| Endpoint.Endpoint.RegisterPacketId | include/mqtt/endpoint.hpp:3877-3880 | succeeds exactly for a nonzero identifier not in use; any nonzero identifier is in use afterwards |
| Endpoint.Endpoint.ReleasePacketId | include/mqtt/endpoint.hpp:3890-3893 | reports whether the identifier was in use; it is free afterwards |
| Endpoint.Endpoint.ClearStoredPublish | include/mqtt/endpoint.hpp:3813-3819 | nothing remains stored under the identifier, and it is free |
| Endpoint.Endpoint.SendPublish | include/mqtt/endpoint.hpp:5132-5173 | writes the PUBLISH; at QoS 1 and 2 it stores a duplicate-flagged copy under the awaited acknowledgement and reports it to the serialize hook |
| Endpoint.Endpoint.Publish | include/mqtt/endpoint.hpp:836-845 | QoS 0 uses identifier 0 and leaves the identifiers alone; any other QoS takes the first free identifier after the last one handed out, or fails on exhaustion with nothing changed; the PUBLISH is written while connected; at QoS 1 and 2 exactly its duplicate-flagged copy is inserted into the store, with the serialize hook's event, and otherwise the store and the events are unchanged |
| Endpoint.Endpoint.SendPubrel | include/mqtt/endpoint.hpp:5184-5200 | writes the PUBREL and stores it to wait for PUBCOMP |
| Endpoint.Endpoint.StorePubrel | include/mqtt/endpoint.hpp:5202-5216 | stores the PUBREL to wait for PUBCOMP without writing it |
| Endpoint.Endpoint.SendPuback | include/mqtt/endpoint.hpp:5175-5178 | writes PUBACK and reports it to the response-sent hook |
| Endpoint.Endpoint.SendPubrec | include/mqtt/endpoint.hpp:5180-5182 | writes PUBREC |
| Endpoint.Endpoint.SendPubcomp | include/mqtt/endpoint.hpp:5218-5221 | writes PUBCOMP and reports it to the response-sent hook |
| Endpoint.Endpoint.RestoreMessage | include/mqtt/endpoint.hpp:3923-3949 | a restored message is stored, and its identifier taken, only if the identifier was free |
| Endpoint.Endpoint.RestoreSerializedMessage | include/mqtt/endpoint.hpp:3902-3921 | no bytes restore nothing; a stored PUBLISH or PUBREL is restored; other bytes are an error that changes nothing |
| Endpoint.Endpoint.HandlePuback | include/mqtt/endpoint.hpp:4908-4920 | the message waiting for this PUBACK leaves the store and its identifier is freed |
| Endpoint.Endpoint.HandlePubrec | include/mqtt/endpoint.hpp:4922-4953 | the PUBLISH waiting for PUBREC leaves the store while its identifier stays in use; when the handler allows, a PUBREL takes its place |
| Endpoint.Endpoint.HandlePubrel | include/mqtt/endpoint.hpp:4955-4977 | the identifier leaves the QoS 2 deduplication set; PUBCOMP is written when the handler allows |
| Endpoint.Endpoint.HandlePubcomp | include/mqtt/endpoint.hpp:4979-4991 | the PUBREL waiting for this PUBCOMP leaves the store and its identifier is freed |
| Endpoint.Endpoint.HandleSuback | include/mqtt/endpoint.hpp:5030-5054 | frees the SUBSCRIBE's identifier and reports one result per return code; a payload shorter than 2 bytes is an error that changes nothing |
| Endpoint.Endpoint.HandleUnsuback | include/mqtt/endpoint.hpp:5085-5093 | frees the UNSUBSCRIBE's identifier |
| Endpoint.Endpoint.HandlePublish | include/mqtt/endpoint.hpp:4819-4906 | QoS 1 is acknowledged when accepted; a QoS 2 identifier reaches the handler only once until PUBREL, and PUBREC answers both the first and the repeated delivery; QoS 3 is ignored; malformed input changes nothing |
| Endpoint.Endpoint.HandleSubscribe | include/mqtt/endpoint.hpp:4993-5028 | the handler receives the decoded entries, or the decoding error is returned with nothing changed |
| Endpoint.Endpoint.HandleUnsubscribe | include/mqtt/endpoint.hpp:5056-5083 | the handler receives the decoded topic filters, or the decoding error is returned with nothing changed |
| Endpoint.Endpoint.HandleConnect | include/mqtt/endpoint.hpp:4666-4784 | the client identifier and clean-session flag are recorded once the header parses, even if the optional fields then fail; the session is up only after a complete CONNECT |
| Endpoint.Endpoint.HandleConnack | include/mqtt/endpoint.hpp:4786-4809 | CONNACK without a pending CONNECT is a protocol error that changes nothing; an accepted clean session clears the store; an accepted resumed session resends every stored message in order; identifiers stay in use |
| Endpoint.Endpoint.HandlePingreq | include/mqtt/endpoint.hpp:5095-5098 | reports PINGREQ to its handler |
| Endpoint.Endpoint.HandlePingresp | include/mqtt/endpoint.hpp:5100-5103 | reports PINGRESP to its handler |
| Endpoint.Endpoint.ReadRemainingLength | include/mqtt/endpoint.hpp:4460-4514 | the byte-by-byte reader computes the declarative Remaining Length decoding; a length past four bytes is reported to the error handler, when installed, as `message_size`, and nothing else is reported |
| Endpoint.Endpoint.CheckRemainingLength | include/mqtt/endpoint.hpp:4515-4549 | identifier-only packets pass exactly at length 2, PINGREQ, PINGRESP and DISCONNECT exactly at 0, other packets unless the user check refuses, the reserved type never; a refused length is reported to the error handler, when installed, as `message_size` |
| Endpoint.Endpoint.HandlePayload | include/mqtt/endpoint.hpp:4582-4656 | per packet type: CONNECT and CONNACK are always handled as their handlers promise, DISCONNECT always reports and stops reading, a reserved type changes nothing and stops reading; every other type changes nothing before the session is up and, once it is up, runs its own handler with its stated effect while the session fields keep their values |
| Endpoint.Endpoint.HandleUngated | include/mqtt/endpoint.hpp:4582-4656 | CONNECT, CONNACK, DISCONNECT and reserved types are handled whatever the session state, each with its handler's effect |
| Endpoint.Endpoint.HandleIfConnected | include/mqtt/endpoint.hpp:4592-4646 | a session packet before the session is up changes nothing and stops reading; afterwards it is handled by its own handler |
| Endpoint.Endpoint.HandleSessionPacket | include/mqtt/endpoint.hpp:4592-4646 | each session packet type runs exactly its own handler: that handler's effect on the store, the identifiers, the QoS 2 set, the sent packets and the events, with the rest unchanged |
| Endpoint.Endpoint.HandleDisconnect | include/mqtt/endpoint.hpp:5105-5107 | reports DISCONNECT to its handler and changes nothing else |
| Endpoint.Endpoint.HandleCloseOrError | include/mqtt/endpoint.hpp:3977-4010 | an orderly end of stream after our DISCONNECT goes to the close handler, anything else to the error handler with the socket's error, each reported only when installed; the session flags are cleared either way |
| Endpoint.Endpoint.Disconnect | include/mqtt/endpoint.hpp:1032-1037 | DISCONNECT is sent, and the close expected, only when the session is established |
| Endpoint.Endpoint.Connect | include/mqtt/endpoint.hpp:1967-1970 | CONNACK is expected from now on and CONNECT is written |
| Exchanges.AtLeastOnceExchange | include/mqtt/endpoint.hpp:4908-4920 | after a QoS 1 PUBLISH and its PUBACK, the identifier set is as before, nothing waits under the identifier, the PUBLISH alone was written, and a store that held nothing under the identifier is as before |
| Exchanges.ExactlyOnceExchange | include/mqtt/endpoint.hpp:4922-4991 | after a QoS 2 PUBLISH, PUBREC and PUBCOMP, the identifier set is as before, nothing waits under the identifier, the PUBLISH and the automatic PUBREL were written, and a store that held nothing under the identifier is as before |
| Exchanges.ReceiveRecAndComp | include/mqtt/endpoint.hpp:4922-4991 | a PUBREC answered with PUBREL and then the PUBCOMP free the identifier and leave nothing waiting under it; the PUBREL is written while connected; when no PUBREL waited before, only the entries that waited for the PUBREC are gone |
| Exchanges.RedeliveredExactlyOnce | include/mqtt/endpoint.hpp:4888-4898 | a QoS 2 PUBLISH received twice reaches the handler once; after PUBREL the same identifier reaches it again |
| Exchanges.ConnectThenConnack | include/mqtt/endpoint.hpp:4786-4809 | one CONNACK is accepted per CONNECT; a second one is a protocol error |
| Exchanges.CloseAfterDisconnect | include/mqtt/endpoint.hpp:3977-4010 | the end of the stream after an established session's DISCONNECT is a close; without a DISCONNECT it is an error |
| Exchanges.RestoreAfterRestart | include/mqtt/endpoint.hpp:3902-3949 | a serialized message restored into a fresh endpoint is stored under the same key and takes the same identifier |
| Exchanges.ReservedQosKeepsId | include/mqtt/endpoint.hpp:836-845 | a publish at QoS 3 takes an identifier that nothing in the store will ever release |
| Broker.MinQos | example/tls_ws_server.cpp:190 | the smaller of the two QoS levels |
| Broker.Select | example/tls_ws_server.cpp:49-55 | keeps exactly the subscriptions that match the filter, in registry order |
| Broker.Registrations | example/tls_ws_server.cpp:203-209 | one subscription per entry, held by the subscribing connection, with the requested QoS |
| Broker.GrantedQos | example/tls_ws_server.cpp:201-210 | one return code per entry, in order, each equal to the requested QoS |
| Broker.DeliveriesMeaning | example/tls_ws_server.cpp:181-189 | every delivery carries the topic, contents and retain flag to a subscriber of the topic at no more than the published QoS, and every subscriber of the topic gets one |
| Broker.DeliveryPerSubscription | example/tls_ws_server.cpp:181-189 | exactly one delivery per matching subscription, in registry order, at the smaller of the two QoS levels |
| Broker.CloseIdempotent | example/tls_ws_server.cpp:49-55 | closing a connection twice removes nothing more |
| Broker.CloseKeepsOthers | example/tls_ws_server.cpp:49-55 | every other connection's subscriptions stay as they were, in order |
| Broker.ClosedReceivesNothing | example/tls_ws_server.cpp:49-55 | a closed connection receives no later PUBLISH |
| Broker.SubscribedReceives | example/tls_ws_server.cpp:196-213 | after SUBSCRIBE, a PUBLISH to each requested topic reaches the subscriber at the smaller QoS |
| Broker.RepeatedSubscriptionDeliversTwice | example/tls_ws_server.cpp:33-46 | the same subscription made twice receives each PUBLISH twice |
| Broker.UnsubscribeNothing | example/tls_ws_server.cpp:219-221 | an UNSUBSCRIBE without topics leaves the registry as it is |
| Broker.UnsubscribeStep | example/tls_ws_server.cpp:219-221 | erasing one more topic is the same as unsubscribing from the longer list |
| Broker.UnsubscribeKeepsOtherTopics | example/tls_ws_server.cpp:214-225 | subscriptions to topics not listed stay as they were, in order |
| Broker.UnsubscribeDeliveries | example/tls_ws_server.cpp:214-225 | afterwards a PUBLISH to a listed topic reaches nobody, and one to any other topic reaches exactly whom it reached before |
| Broker.UnsubscribeDropsOtherClients | example/tls_ws_server.cpp:220 | one client's UNSUBSCRIBE also removes another client's subscription to the same topic |
| Broker.Broker.constructor | example/tls_ws_server.cpp:90-91 | no connections and no subscriptions |
| Broker.Broker.CloseProc | example/tls_ws_server.cpp:49-55 | the connection and exactly its subscriptions are removed |
| Broker.Broker.OnClose | example/tls_ws_server.cpp:106-111 | a close runs `close_proc` for the connection |
| Broker.Broker.OnError | example/tls_ws_server.cpp:112-117 | an error runs `close_proc` for the connection |
| Broker.Broker.OnDisconnect | example/tls_ws_server.cpp:138-143 | DISCONNECT runs `close_proc` for the connection |
| Broker.Broker.OnConnect | example/tls_ws_server.cpp:120-137 | the connection is recorded and answered with CONNACK, no session present, accepted; reading goes on |
| Broker.Broker.OnSubscribe | example/tls_ws_server.cpp:196-213 | one subscription is appended per entry, and the SUBACK grants every requested QoS in order |
| Broker.Broker.OnUnsubscribe | example/tls_ws_server.cpp:214-225 | every subscription to a listed topic is removed, whoever holds it; UNSUBACK always follows |
| Broker.Broker.OnPublish | example/tls_ws_server.cpp:168-195 | forwards one delivery per subscription to the topic, in registry order, with the same topic, contents and retain flag at the smaller QoS |
| Broker.Broker.OnAck | example/tls_ws_server.cpp:144-167 | the PUBACK, PUBREC, PUBREL and PUBCOMP handlers go on reading |

## Left out

- Socket reads and writes, the asynchronous write queue, the `async_*` variants and their completion handlers. Asynchronous sends are treated like synchronous ones.
- Write errors inside `do_sync_write`: the model only keeps its rule that a packet is written while connected.
- Mutexes and `life_keeper` lifetimes: the model is single-threaded.
- How a transport error is classified as an orderly end of stream or an error. This is reduced to the flag `cleanEof`.
- The message encoders (`publish_message`, `connect_message`, `pubrel_message` and the rest) and the connect-flag and publish-header helpers: `remaining_bytes.hpp`, `connect_flags.hpp`, `publish.hpp` and `message.hpp` are not part of this model. Their formats follow MQTT 3.1.1.
- A socket read that delivers other than the one byte asked for while reading the Remaining Length is reported as `message_size` in the source (include/mqtt/endpoint.hpp:4476, 4506). `Endpoint.Endpoint.ReadRemainingLength` takes the bytes already read, so this case belongs to the socket reads left out above.
- The error callback `func`: a malformed packet returns the error instead of passing it to `func` and returning false.
- User callbacks and the serialize hooks appear only as logged events with the arguments passed.
- The pre-send hook (include/mqtt/endpoint.hpp:5312) is not modelled: `do_sync_write` calls it just before each write of a connected endpoint, which is exactly when `Endpoint.Endpoint.Write` adds a packet to `sent`, so it would add nothing that `sent` does not already record.
- `send_connect`: the will, user name and password fields of the written CONNECT are not modelled.
- The public wrappers around the send functions in lines 704-3800, apart from `publish`, `connect` and `disconnect`.
- Broker connections are numbers, not shared endpoint pointers. A delivery is logged, not passed to the subscriber endpoint's `publish`.
- The broker's logging and server setup.
- Topic wildcards: neither the library nor the example broker implements them.
- Endpoint.Endpoint.AcquireUniquePacketId: uses the corrected exhaustion test (refuse exactly when all 65535 nonzero identifiers are in use) in place of the written `size() == 0xffff - 1`; the written test is modelled by `PacketIds.ExhaustedAsWritten` (see Findings).

## Findings

| source | as written | input that shows it | evidently intended | confidence | as-written member | corrected member |
|---|---|---|---|---|---|---|
| include/mqtt/endpoint.hpp:3863 | `acquire_unique_packet_id` refuses only when exactly 65534 identifiers are in use; `register_packet_id` has no limit, so all 65535 nonzero identifiers can be in use, the test passes, and the search loop never ends | register all identifiers 1 to 65535 with `register_packet_id`, then call `acquire_unique_packet_id` | refuse exactly when all 65535 nonzero identifiers are in use, as the documentation at line 3854 says | not executed | PacketIds.AsWrittenGuardMissesFullSet | Endpoint.Endpoint.AcquireUniquePacketId |
| include/mqtt/endpoint.hpp:3863 | the same test refuses when identifiers 1 to 65534 are in use, although 65535 is still free | register identifiers 1 to 65534, then call `acquire_unique_packet_id` | refuse exactly when all 65535 nonzero identifiers are in use | not executed | PacketIds.AsWrittenGuardRefusesFreeId | Endpoint.Endpoint.AcquireUniquePacketId |
