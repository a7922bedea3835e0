/**
 * The payload decoders of the endpoint for CONNECT (section 3.1 of MQTT 3.1.1), PUBLISH
 * (3.3), SUBSCRIBE (3.8), SUBACK (3.9) and UNSUBSCRIBE (3.10), the `*_remaining_length`
 * size calculators, and reference encoders of the same layouts, against which the
 * decoders are proved.
 */
module Parsers {
  import opened Results
  import opened Wire

  /** The two error codes the decoders report to the completion handler. */
  datatype ParseError = ProtocolError | MessageSize

  // ---------------------------------------------------------------------------------
  // Length-prefixed fields (section 1.5.3): a two byte big-endian length, then the bytes.

  datatype Field = Field(value: seq<Byte>, rest: seq<Byte>)

  /** Reads one length-prefixed field from the front of `s`; a short input is MessageSize. */
  function ReadField(s: seq<Byte>): (r: Result<Field, ParseError>)
    ensures r.Err? <==> |s| < 2 || |s| < 2 + MakeUint16(s[0], s[1])
    ensures r.Ok? ==> |r.value.value| == MakeUint16(s[0], s[1])
    ensures r.Ok? ==> |r.value.rest| == |s| - 2 - |r.value.value|
  {
    if |s| < 2 then Err(MessageSize)
    else
      var n := MakeUint16(s[0], s[1]);
      if |s| < 2 + n then Err(MessageSize)
      else Ok(Field(s[2..2 + n], s[2 + n..]))
  }

  /** Reading a field at offset `i` of a payload, as the decoding loops do. */
  lemma ReadFieldAt(p: seq<Byte>, i: nat)
    requires i <= |p|
    ensures |p| < i + 2 ==> ReadField(p[i..]).Err?
    ensures |p| >= i + 2 ==>
      var n := MakeUint16(p[i], p[i + 1]);
      (|p| < i + 2 + n ==> ReadField(p[i..]).Err?)
      && (|p| >= i + 2 + n ==> ReadField(p[i..]) == Ok(Field(p[i + 2..i + 2 + n], p[i + 2 + n..])))
  {
    if |p| >= i + 2 {
      var s := p[i..];
      assert s[0] == p[i] && s[1] == p[i + 1];
      var n := MakeUint16(p[i], p[i + 1]);
      if |p| >= i + 2 + n {
        assert s[2..2 + n] == p[i + 2..i + 2 + n];
        assert s[2 + n..] == p[i + 2 + n..];
      }
    }
  }

  /** The encoding of a field: its length, then its bytes. */
  function LengthPrefixed(f: seq<Byte>): (s: seq<Byte>)
    requires |f| < 0x1_0000
    ensures |s| == 2 + |f|
  {
    MakePacketId(|f|) + f
  }

  lemma FieldRoundTrip(f: seq<Byte>, rest: seq<Byte>)
    requires |f| < 0x1_0000
    ensures ReadField(LengthPrefixed(f) + rest) == Ok(Field(f, rest))
  {
    var s := LengthPrefixed(f) + rest;
    assert s[0] == MakePacketId(|f|)[0] && s[1] == MakePacketId(|f|)[1];
    assert s[2..2 + |f|] == f;
    assert s[2 + |f|..] == rest;
  }

  // ---------------------------------------------------------------------------------
  // CONNECT

  /** Protocol Name "MQTT" with its length, and Protocol Level 4 (sections 3.1.2.1, 3.1.2.2). */
  const ProtocolHeader: seq<Byte> := [0x00, 0x04, 0x4d, 0x51, 0x54, 0x54, 0x04]

  /** The Connect Flags bits of section 3.1.2.3. */
  predicate HasUserNameFlag(flags: Byte) { (flags / 128) % 2 == 1 }
  predicate HasPasswordFlag(flags: Byte) { (flags / 64) % 2 == 1 }
  predicate HasWillRetain(flags: Byte) { (flags / 32) % 2 == 1 }
  function WillQos(flags: Byte): (q: nat) ensures q <= 3 { (flags / 8) % 4 }
  predicate HasWillFlag(flags: Byte) { (flags / 4) % 2 == 1 }
  predicate HasCleanSession(flags: Byte) { (flags / 2) % 2 == 1 }

  datatype Will = Will(topic: seq<Byte>, message: seq<Byte>, retain: bool, qos: nat)

  /** What the first stage of `handle_connect` reads: up to and including the client identifier. */
  datatype ConnectHeader = ConnectHeader(flags: Byte, keepAlive: U16, clientId: seq<Byte>, rest: seq<Byte>)

  /** What the second stage reads: the optional will, user name and password. */
  datatype ConnectOptions = ConnectOptions(will: Option<Will>, userName: Option<seq<Byte>>,
                                           password: Option<seq<Byte>>)

  /** A decoded CONNECT, as handed to the connect handler. */
  datatype ConnectRequest = ConnectRequest(
    clientId: seq<Byte>, userName: Option<seq<Byte>>, password: Option<seq<Byte>>,
    will: Option<Will>, cleanSession: bool, keepAlive: U16)

  /**
   * Stage one of `handle_connect`: fewer than ten bytes or a wrong protocol name or level
   * is a ProtocolError; a short client identifier is MessageSize.
   */
  function ParseConnectHeader(p: seq<Byte>): (r: Result<ConnectHeader, ParseError>)
    ensures r.Err? && r.error == ProtocolError <==> |p| < 10 || p[..7] != ProtocolHeader
    ensures r.Ok? ==> r.value.flags == p[7] && r.value.keepAlive == MakeUint16(p[8], p[9])
    ensures r == Err(MessageSize) <==> |p| >= 10 && p[..7] == ProtocolHeader && ReadField(p[10..]).Err?
    ensures r.Ok? ==> |p| >= 12 && |r.value.clientId| == MakeUint16(p[10], p[11])
    ensures r.Ok? ==> p == p[..12] + r.value.clientId + r.value.rest
  {
    if |p| < 10 || p[..7] != ProtocolHeader then Err(ProtocolError)
    else
      var f := ReadField(p[10..]);
      if f.Err? then Err(f.error)
      else
        assert p == p[..10] + p[10..];
        assert p[10..] == p[10..12] + f.value.value + f.value.rest;
        Ok(ConnectHeader(p[7], MakeUint16(p[8], p[9]), f.value.value, f.value.rest))
  }

  /** Reads a field only when `present`, as each optional part of CONNECT is read. */
  function ReadOptional(present: bool, s: seq<Byte>): (r: Result<(Option<seq<Byte>>, seq<Byte>), ParseError>)
    ensures !present ==> r == Ok((None, s))
    ensures present ==> (r.Ok? <==> ReadField(s).Ok?)
    ensures present && r.Ok? ==> r.value == (Some(ReadField(s).value.value), ReadField(s).value.rest)
  {
    if !present then Ok((None, s))
    else
      var f := ReadField(s);
      if f.Err? then Err(f.error) else Ok((Some(f.value.value), f.value.rest))
  }

  /** The will part of stage two: topic and message, present when the Will Flag is set. */
  function ParseWill(flags: Byte, s: seq<Byte>): (r: Result<(Option<Will>, seq<Byte>), ParseError>)
    ensures r.Err? ==> r.error == MessageSize
    ensures !HasWillFlag(flags) ==> r == Ok((None, s))
    ensures r.Ok? && HasWillFlag(flags) ==>
      r.value.0.Some? && r.value.0.value.retain == HasWillRetain(flags) && r.value.0.value.qos == WillQos(flags)
  {
    if !HasWillFlag(flags) then Ok((None, s))
    else
      var topic := ReadField(s);
      if topic.Err? then Err(topic.error)
      else
        var message := ReadField(topic.value.rest);
        if message.Err? then Err(message.error)
        else Ok((Some(Will(topic.value.value, message.value.value, HasWillRetain(flags), WillQos(flags))),
                 message.value.rest))
  }

  /** Stage two of `handle_connect`: will topic and message, user name, password, in that order. */
  function ParseConnectOptions(flags: Byte, s: seq<Byte>): (r: Result<ConnectOptions, ParseError>)
    ensures r.Err? ==> r.error == MessageSize
    ensures r.Ok? ==> (r.value.will.Some? <==> HasWillFlag(flags))
    ensures r.Ok? ==> (r.value.userName.Some? <==> HasUserNameFlag(flags))
    ensures r.Ok? ==> (r.value.password.Some? <==> HasPasswordFlag(flags))
    ensures r.Ok? && r.value.will.Some? ==>
      r.value.will.value.retain == HasWillRetain(flags) && r.value.will.value.qos == WillQos(flags)
  {
    var will := ParseWill(flags, s);
    if will.Err? then Err(will.error)
    else
      var user := ReadOptional(HasUserNameFlag(flags), will.value.1);
      if user.Err? then Err(user.error)
      else
        var password := ReadOptional(HasPasswordFlag(flags), user.value.1);
        if password.Err? then Err(password.error)
        else Ok(ConnectOptions(will.value.0, user.value.0, password.value.0))
  }

  /** The whole CONNECT decoder. Bytes after the last field it reads are ignored. */
  function ParseConnect(p: seq<Byte>): (r: Result<ConnectRequest, ParseError>)
    ensures r.Ok? ==> ParseConnectHeader(p).Ok?
    ensures r.Ok? ==> r.value.clientId == ParseConnectHeader(p).value.clientId
    ensures r.Ok? ==> r.value.cleanSession == HasCleanSession(p[7])
  {
    var h := ParseConnectHeader(p);
    if h.Err? then Err(h.error)
    else
      var o := ParseConnectOptions(h.value.flags, h.value.rest);
      if o.Err? then Err(o.error)
      else Ok(ConnectRequest(h.value.clientId, o.value.userName, o.value.password, o.value.will,
                             HasCleanSession(h.value.flags), h.value.keepAlive))
  }

  /** What a CONNECT encoder can carry: two byte field lengths and a two bit will QoS. */
  predicate EncodableConnect(c: ConnectRequest)
  {
    && |c.clientId| < 0x1_0000
    && (c.userName.Some? ==> |c.userName.value| < 0x1_0000)
    && (c.password.Some? ==> |c.password.value| < 0x1_0000)
    && (c.will.Some? ==> |c.will.value.topic| < 0x1_0000 && |c.will.value.message| < 0x1_0000
                         && c.will.value.qos <= 3)
  }

  lemma MulMono(a: int, b: int, m: int)
    requires a <= b && m >= 0
    ensures a * m <= b * m
  {
    var c := b - a;
    assert c * m >= 0;
    assert b * m == a * m + c * m;
  }

  /** Division by `m` recovers the quotient of any `q * m + lo` with `0 <= lo < m`. */
  lemma DivUnique(x: int, m: int, q: int, lo: int)
    requires m > 0 && 0 <= lo < m && x == q * m + lo
    ensures x / m == q
  {
    var d := x / m;
    assert x == d * m + x % m && 0 <= x % m < m;
    if d < q {
      assert (d + 1) * m == d * m + m;
      MulMono(d + 1, q, m);
    } else if d > q {
      assert (q + 1) * m == q * m + m;
      MulMono(q + 1, d, m);
    }
  }

  /** A digit of base `k` at place `m` is read back by dividing by `m` and taking the rest modulo `k`. */
  lemma DigitAt(x: nat, m: nat, k: nat, hi: nat, v: nat, lo: nat)
    requires m > 0 && v < k && lo < m
    requires x == (hi * k + v) * m + lo
    ensures (x / m) % k == v
  {
    DivUnique(x, m, hi * k + v, lo);
    var y := hi * k + v;
    assert y == (y / k) * k + y % k;
    DivUnique(y, k, hi, v);
  }

  /** The six fields of a Connect Flags byte are read back by the flag predicates. */
  lemma FlagDigits(u: nat, p: nat, r: nat, q: nat, w: nat, c: nat)
    requires u < 2 && p < 2 && r < 2 && q < 4 && w < 2 && c < 2
    ensures var x := u * 128 + p * 64 + r * 32 + q * 8 + w * 4 + c * 2;
      && x < 0x100
      && (x / 128) % 2 == u && (x / 64) % 2 == p && (x / 32) % 2 == r
      && (x / 8) % 4 == q && (x / 4) % 2 == w && (x / 2) % 2 == c
  {
    var x := u * 128 + p * 64 + r * 32 + q * 8 + w * 4 + c * 2;
    DigitAt(x, 128, 2, 0, u, p * 64 + r * 32 + q * 8 + w * 4 + c * 2);
    DigitAt(x, 64, 2, u, p, r * 32 + q * 8 + w * 4 + c * 2);
    DigitAt(x, 32, 2, u * 2 + p, r, q * 8 + w * 4 + c * 2);
    DigitAt(x, 8, 4, u * 4 + p * 2 + r, q, w * 4 + c * 2);
    DigitAt(x, 4, 2, u * 16 + p * 8 + r * 4 + q, w, c * 2);
    DigitAt(x, 2, 2, u * 32 + p * 16 + r * 8 + q * 2 + w, c, 0);
  }

  /** The Connect Flags byte of a request (section 3.1.2.3). */
  function ConnectFlags(c: ConnectRequest): (f: Byte)
    requires EncodableConnect(c)
    ensures HasUserNameFlag(f) == c.userName.Some? && HasPasswordFlag(f) == c.password.Some?
    ensures HasWillFlag(f) == c.will.Some? && HasCleanSession(f) == c.cleanSession
    ensures c.will.Some? ==> HasWillRetain(f) == c.will.value.retain && WillQos(f) == c.will.value.qos
  {
    var u := if c.userName.Some? then 1 else 0;
    var p := if c.password.Some? then 1 else 0;
    var r := if c.will.Some? && c.will.value.retain then 1 else 0;
    var q := if c.will.Some? then c.will.value.qos else 0;
    var w := if c.will.Some? then 1 else 0;
    var s := if c.cleanSession then 1 else 0;
    FlagDigits(u, p, r, q, w, s);
    u * 128 + p * 64 + r * 32 + q * 8 + w * 4 + s * 2
  }

  function OptionalField(f: Option<seq<Byte>>): seq<Byte>
    requires f.Some? ==> |f.value| < 0x1_0000
  {
    if f.Some? then LengthPrefixed(f.value) else []
  }

  function WillFields(w: Option<Will>): seq<Byte>
    requires w.Some? ==> |w.value.topic| < 0x1_0000 && |w.value.message| < 0x1_0000
  {
    if w.Some? then LengthPrefixed(w.value.topic) + LengthPrefixed(w.value.message) else []
  }

  /** The CONNECT variable header (section 3.1.2): name, level, flags, keep alive. */
  function ConnectVariableHeader(c: ConnectRequest): (s: seq<Byte>)
    requires EncodableConnect(c)
    ensures |s| == 10
  {
    ProtocolHeader + [ConnectFlags(c)] + MakePacketId(c.keepAlive)
  }

  /** The optional fields of the CONNECT payload (section 3.1.3), after the client identifier. */
  function ConnectOptionFields(c: ConnectRequest): seq<Byte>
    requires EncodableConnect(c)
  {
    WillFields(c.will) + (OptionalField(c.userName) + OptionalField(c.password))
  }

  /** A CONNECT variable header and payload laid out as in sections 3.1.2 and 3.1.3. */
  function EncodeConnect(c: ConnectRequest): seq<Byte>
    requires EncodableConnect(c)
  {
    ConnectVariableHeader(c) + (LengthPrefixed(c.clientId) + ConnectOptionFields(c))
  }

  /** `connect_remaining_length`: the size of the CONNECT variable header and payload. */
  function ConnectRemainingLength(c: ConnectRequest): (n: nat)
    requires EncodableConnect(c)
    ensures n == |EncodeConnect(c)|
  {
    var n0 := 10;
    var n1 := if c.userName.Some? then n0 + 2 + |c.userName.value| else n0;
    var n2 := if c.password.Some? then n1 + 2 + |c.password.value| else n1;
    var n3 := n2 + 2 + |c.clientId|;
    if c.will.Some? then n3 + 2 + |c.will.value.topic| + 2 + |c.will.value.message| else n3
  }

  lemma OptionalRoundTrip(f: Option<seq<Byte>>, rest: seq<Byte>)
    requires f.Some? ==> |f.value| < 0x1_0000
    ensures ReadOptional(f.Some?, OptionalField(f) + rest) == Ok((f, rest))
  {
    if f.Some? {
      FieldRoundTrip(f.value, rest);
    } else {
      assert OptionalField(f) + rest == rest;
    }
  }

  lemma WillRoundTrip(c: ConnectRequest, rest: seq<Byte>)
    requires EncodableConnect(c)
    ensures ParseWill(ConnectFlags(c), WillFields(c.will) + rest) == Ok((c.will, rest))
  {
    if c.will.Some? {
      var w := c.will.value;
      assert WillFields(c.will) + rest == LengthPrefixed(w.topic) + (LengthPrefixed(w.message) + rest);
      FieldRoundTrip(w.topic, LengthPrefixed(w.message) + rest);
      FieldRoundTrip(w.message, rest);
    } else {
      assert WillFields(c.will) + rest == rest;
    }
  }

  lemma ConnectOptionsRoundTrip(c: ConnectRequest)
    requires EncodableConnect(c)
    ensures ParseConnectOptions(ConnectFlags(c), ConnectOptionFields(c))
            == Ok(ConnectOptions(c.will, c.userName, c.password))
  {
    var tail := OptionalField(c.userName) + OptionalField(c.password);
    WillRoundTrip(c, tail);
    assert OptionalField(c.password) == OptionalField(c.password) + [];
    OptionalRoundTrip(c.userName, OptionalField(c.password));
    OptionalRoundTrip(c.password, []);
  }

  /** Decoding the encoding of any request gives the request back. */
  lemma ConnectRoundTrip(c: ConnectRequest)
    requires EncodableConnect(c)
    ensures ParseConnect(EncodeConnect(c)) == Ok(c)
  {
    var p := EncodeConnect(c);
    var head := ConnectVariableHeader(c);
    var tail := LengthPrefixed(c.clientId) + ConnectOptionFields(c);
    assert p[..7] == head[..7] == ProtocolHeader;
    assert p[7] == head[7] == ConnectFlags(c);
    assert p[8] == MakePacketId(c.keepAlive)[0] && p[9] == MakePacketId(c.keepAlive)[1];
    assert p[10..] == tail;
    FieldRoundTrip(c.clientId, ConnectOptionFields(c));
    ConnectOptionsRoundTrip(c);
  }

  // ---------------------------------------------------------------------------------
  // PUBLISH

  /** The variable header and payload of a received PUBLISH. */
  datatype PublishBody = PublishBody(topic: seq<Byte>, packetId: Option<U16>, contents: seq<Byte>)

  /** Whether a PUBLISH of this QoS carries a packet identifier (section 3.3.2.2). */
  predicate CarriesPacketId(qos: nat) { qos == 1 || qos == 2 }

  /**
   * The decoding part of `handle_publish`: the topic name, then, for QoS 1 and 2, the packet
   * identifier; everything after that is the message. Missing bytes are MessageSize.
   */
  function ParsePublish(qos: nat, p: seq<Byte>): (r: Result<PublishBody, ParseError>)
    ensures r.Err? ==> r.error == MessageSize
    ensures r.Ok? ==> (r.value.packetId.Some? <==> CarriesPacketId(qos))
    ensures r.Ok? ==> |p| == 2 + |r.value.topic| + (if CarriesPacketId(qos) then 2 else 0) + |r.value.contents|
  {
    var t := ReadField(p);
    if t.Err? then Err(t.error)
    else if !CarriesPacketId(qos) then Ok(PublishBody(t.value.value, None, t.value.rest))
    else
      var s := t.value.rest;
      if |s| < 2 then Err(MessageSize)
      else Ok(PublishBody(t.value.value, Some(MakeUint16(s[0], s[1])), s[2..]))
  }

  /** A PUBLISH variable header and payload laid out as in sections 3.3.2 and 3.3.3. */
  function EncodePublish(b: PublishBody): seq<Byte>
    requires |b.topic| < 0x1_0000
  {
    LengthPrefixed(b.topic) + (if b.packetId.Some? then MakePacketId(b.packetId.value) else []) + b.contents
  }

  /** `publish_remaining_length`: topic length, topic, a packet identifier for QoS 1 and 2, payload. */
  function PublishRemainingLength(topic: seq<Byte>, qos: nat, payload: seq<Byte>): (n: nat)
    requires |topic| < 0x1_0000
    ensures n == |EncodePublish(PublishBody(topic, if CarriesPacketId(qos) then Some(0) else None, payload))|
  {
    2 + |topic| + |payload| + (if qos == 1 || qos == 2 then 2 else 0)
  }

  /** A PUBLISH decodes to what was encoded when its identifier matches its QoS. */
  lemma PublishRoundTrip(qos: nat, b: PublishBody)
    requires |b.topic| < 0x1_0000
    requires b.packetId.Some? <==> CarriesPacketId(qos)
    ensures ParsePublish(qos, EncodePublish(b)) == Ok(b)
  {
    var idBytes: seq<Byte> := if b.packetId.Some? then MakePacketId(b.packetId.value) else [];
    var rest := idBytes + b.contents;
    assert EncodePublish(b) == LengthPrefixed(b.topic) + rest;
    FieldRoundTrip(b.topic, rest);
    if b.packetId.Some? {
      assert rest[2..] == b.contents;
      assert rest[0] == idBytes[0] && rest[1] == idBytes[1];
    }
  }

  // ---------------------------------------------------------------------------------
  // SUBSCRIBE

  datatype SubscribeEntry = SubscribeEntry(topicFilter: seq<Byte>, qos: nat)

  /** The requested QoS of a SUBSCRIBE entry: the low two bits of its byte. */
  function RequestedQos(b: Byte): (q: nat)
    ensures q <= 3
    ensures b <= 3 ==> q == b
  {
    b % 4
  }

  datatype SubscribeRequest = SubscribeRequest(packetId: U16, entries: seq<SubscribeEntry>)

  /** Prepends decoded entries to the outcome of decoding what follows them. */
  function PrependOk<T>(done: seq<T>, r: Result<seq<T>, ParseError>): (o: Result<seq<T>, ParseError>)
    ensures done == [] ==> o == r
  {
    if r.Ok? then
      assert [] + r.value == r.value;
      Ok(done + r.value)
    else r
  }

  lemma PrependOkTwice<T>(done: seq<T>, x: T, r: Result<seq<T>, ParseError>)
    ensures PrependOk(done, PrependOk([x], r)) == PrependOk(done + [x], r)
  {
    if r.Ok? {
      assert done + ([x] + r.value) == (done + [x]) + r.value;
    }
  }

  /**
   * The meaning of the SUBSCRIBE entry loop: `s` is a run of (topic filter, requested QoS)
   * groups that ends exactly at the end of `s`; the QoS is the low two bits of its byte.
   */
  function SubscribeEntries(s: seq<Byte>): (r: Result<seq<SubscribeEntry>, ParseError>)
    ensures r.Err? ==> r.error == MessageSize
    ensures r.Ok? ==> forall e | e in r.value :: e.qos <= 3 && |e.topicFilter| < 0x1_0000
    decreases |s|
  {
    if s == [] then Ok([])
    else
      var f := ReadField(s);
      if f.Err? then Err(f.error)
      else if |f.value.rest| < 1 then Err(MessageSize)
      else
        var e := SubscribeEntry(f.value.value, RequestedQos(f.value.rest[0]));
        PrependOk([e], SubscribeEntries(f.value.rest[1..]))
  }

  /** One turn of the SUBSCRIBE loop at offset `i`: a short entry fails, a whole one is decoded. */
  lemma SubscribeEntriesAt(p: seq<Byte>, i: nat)
    requires i < |p|
    ensures |p| < i + 2 ==> SubscribeEntries(p[i..]) == Err(MessageSize)
    ensures |p| >= i + 2 ==>
      var n := MakeUint16(p[i], p[i + 1]);
      && (|p| < i + 3 + n ==> SubscribeEntries(p[i..]) == Err(MessageSize))
      && (|p| >= i + 3 + n ==>
            SubscribeEntries(p[i..])
            == PrependOk([SubscribeEntry(p[i + 2..i + 2 + n], RequestedQos(p[i + 2 + n]))], SubscribeEntries(p[i + 3 + n..])))
  {
    ReadFieldAt(p, i);
    if |p| >= i + 2 {
      var n := MakeUint16(p[i], p[i + 1]);
      if |p| >= i + 3 + n {
        var rest := p[i + 2 + n..];
        assert rest[0] == p[i + 2 + n];
        assert rest[1..] == p[i + 3 + n..];
      }
    }
  }

  /** The SUBSCRIBE entries from offset `i` on, read in place as the decoding loop does. */
  function SubscribeFrom(p: seq<Byte>, i: nat): Result<seq<SubscribeEntry>, ParseError>
    requires i <= |p|
    decreases |p| - i
  {
    if i == |p| then Ok([])
    else if |p| < i + 2 then Err(MessageSize)
    else
      var n := MakeUint16(p[i], p[i + 1]);
      if |p| < i + 3 + n then Err(MessageSize)
      else PrependOk([SubscribeEntry(p[i + 2..i + 2 + n], RequestedQos(p[i + 2 + n]))], SubscribeFrom(p, i + 3 + n))
  }

  /** One turn of the in-place reading: a short entry fails, a whole one is decoded. */
  lemma SubscribeFromAt(p: seq<Byte>, i: nat)
    requires i < |p|
    ensures |p| < i + 2 ==> SubscribeFrom(p, i) == Err(MessageSize)
    ensures |p| >= i + 2 ==>
      var n := MakeUint16(p[i], p[i + 1]);
      && (|p| < i + 3 + n ==> SubscribeFrom(p, i) == Err(MessageSize))
      && (|p| >= i + 3 + n ==>
            SubscribeFrom(p, i)
            == PrependOk([SubscribeEntry(p[i + 2..i + 2 + n], RequestedQos(p[i + 2 + n]))], SubscribeFrom(p, i + 3 + n)))
  {
  }

  /** A whole entry at offset `i` with a topic filter of `n` bytes, ending at `j`, read in place. */
  lemma SubscribeFromWhole(p: seq<Byte>, i: nat, n: nat, j: nat)
    requires i + 2 <= |p| && n == MakeUint16(p[i], p[i + 1]) && j == i + 3 + n <= |p|
    ensures SubscribeFrom(p, i) == PrependOk([SubscribeEntry(p[i + 2..i + 2 + n], RequestedQos(p[i + 2 + n]))], SubscribeFrom(p, j))
  {
  }

  /** The same entry, decoded from the rest of the payload. */
  lemma SubscribeEntriesWhole(p: seq<Byte>, i: nat, n: nat, j: nat)
    requires i + 2 <= |p| && n == MakeUint16(p[i], p[i + 1]) && j == i + 3 + n <= |p|
    ensures SubscribeEntries(p[i..]) == PrependOk([SubscribeEntry(p[i + 2..i + 2 + n], RequestedQos(p[i + 2 + n]))], SubscribeEntries(p[j..]))
  {
    ReadFieldAt(p, i);
    var s := p[i..];
    var rest := p[i + 2 + n..];
    assert ReadField(s) == Ok(Field(p[i + 2..i + 2 + n], rest));
    assert rest[0] == p[i + 2 + n];
    assert rest[1..] == p[j..];
  }

  /** Reading in place from offset `i` is decoding the rest of the payload. */
  lemma {:induction false} SubscribeFromEntries(p: seq<Byte>, i: nat)
    requires i <= |p|
    ensures SubscribeFrom(p, i) == SubscribeEntries(p[i..])
    decreases |p| - i
  {
    if i == |p| {
      assert p[i..] == [];
    } else if |p| < i + 2 || |p| < i + 3 + MakeUint16(p[i], p[i + 1]) {
      SubscribeFromAt(p, i);
      SubscribeEntriesAt(p, i);
    } else {
      var n := MakeUint16(p[i], p[i + 1]);
      var j: nat := i + 3 + n;
      SubscribeFromWhole(p, i, n, j);
      SubscribeEntriesWhole(p, i, n, j);
      SubscribeFromEntries(p, j);
    }
  }

  /** The meaning of the whole SUBSCRIBE decoder: the packet identifier, then the entries. */
  function SubscribeSpec(p: seq<Byte>): Result<SubscribeRequest, ParseError>
  {
    if |p| < 2 then Err(MessageSize)
    else
      var es := SubscribeFrom(p, 2);
      if es.Err? then Err(es.error) else Ok(SubscribeRequest(MakeUint16(p[0], p[1]), es.value))
  }

  /** The decoding loop of `handle_subscribe`, advancing an index through the payload. */
  method ParseSubscribe(p: seq<Byte>) returns (r: Result<SubscribeRequest, ParseError>)
    ensures r == SubscribeSpec(p)
  {
    if |p| < 2 {
      return Err(MessageSize);
    }
    var packetId := MakeUint16(p[0], p[1]);
    var i := 2;
    var entries: seq<SubscribeEntry> := [];
    while i < |p|
      invariant 2 <= i <= |p|
      invariant SubscribeFrom(p, 2) == PrependOk(entries, SubscribeFrom(p, i))
      decreases |p| - i
    {
      SubscribeFromAt(p, i);
      if |p| < i + 2 {
        return Err(MessageSize);
      }
      var topicLength := MakeUint16(p[i], p[i + 1]);
      if |p| < i + 2 + topicLength {
        return Err(MessageSize);
      }
      var topicFilter := p[i + 2..i + 2 + topicLength];
      if |p| < i + 3 + topicLength {
        return Err(MessageSize);
      }
      var qos := RequestedQos(p[i + 2 + topicLength]);
      PrependOkTwice(entries, SubscribeEntry(topicFilter, qos), SubscribeFrom(p, i + 3 + topicLength));
      entries := entries + [SubscribeEntry(topicFilter, qos)];
      i := i + 3 + topicLength;
    }
    assert entries + [] == entries;
    return Ok(SubscribeRequest(packetId, entries));
  }

  function EncodeSubscribeEntries(es: seq<SubscribeEntry>): seq<Byte>
    requires forall e | e in es :: e.qos <= 3 && |e.topicFilter| < 0x1_0000
  {
    if es == [] then []
    else LengthPrefixed(es[0].topicFilter) + [es[0].qos] + EncodeSubscribeEntries(es[1..])
  }

  /** A SUBSCRIBE variable header and payload laid out as in sections 3.8.2 and 3.8.3. */
  function EncodeSubscribe(r: SubscribeRequest): seq<Byte>
    requires forall e | e in r.entries :: e.qos <= 3 && |e.topicFilter| < 0x1_0000
  {
    MakePacketId(r.packetId) + EncodeSubscribeEntries(r.entries)
  }

  /** Decoding an encoded entry in front of more bytes yields the entry, then what the bytes decode to. */
  lemma SubscribeEntryRoundTrip(e: SubscribeEntry, rest: seq<Byte>)
    requires e.qos <= 3 && |e.topicFilter| < 0x1_0000
    ensures SubscribeEntries(LengthPrefixed(e.topicFilter) + ([e.qos] + rest)) == PrependOk([e], SubscribeEntries(rest))
  {
    FieldRoundTrip(e.topicFilter, [e.qos] + rest);
    assert ([e.qos] + rest)[1..] == rest;
    assert RequestedQos(e.qos) == e.qos;
  }

  lemma {:induction false} SubscribeEntriesRoundTrip(es: seq<SubscribeEntry>)
    requires forall e | e in es :: e.qos <= 3 && |e.topicFilter| < 0x1_0000
    ensures SubscribeEntries(EncodeSubscribeEntries(es)) == Ok(es)
  {
    if es != [] {
      var e := es[0];
      var tail := es[1..];
      var rest := EncodeSubscribeEntries(tail);
      calc {
        SubscribeEntries(EncodeSubscribeEntries(es));
        { assert EncodeSubscribeEntries(es) == LengthPrefixed(e.topicFilter) + ([e.qos] + rest); }
        SubscribeEntries(LengthPrefixed(e.topicFilter) + ([e.qos] + rest));
        { SubscribeEntryRoundTrip(e, rest); }
        PrependOk([e], SubscribeEntries(rest));
        { SubscribeEntriesRoundTrip(tail); }
        PrependOk([e], Ok(tail));
        { assert [e] + tail == es; }
        Ok(es);
      }
    }
  }


  /** Every request the encoder can express decodes to itself. */
  lemma SubscribeRoundTrip(r: SubscribeRequest)
    requires forall e | e in r.entries :: e.qos <= 3 && |e.topicFilter| < 0x1_0000
    ensures SubscribeSpec(EncodeSubscribe(r)) == Ok(r)
  {
    var p := EncodeSubscribe(r);
    assert p[2..] == EncodeSubscribeEntries(r.entries);
    SubscribeEntriesRoundTrip(r.entries);
    SubscribeFromEntries(p, 2);
  }

  /** The size of the encoded entries, group by group. */
  lemma {:induction false} EncodeSubscribeEntriesAppend(es: seq<SubscribeEntry>, e: SubscribeEntry)
    requires forall x | x in es :: x.qos <= 3 && |x.topicFilter| < 0x1_0000
    requires e.qos <= 3 && |e.topicFilter| < 0x1_0000
    ensures |EncodeSubscribeEntries(es + [e])| == |EncodeSubscribeEntries(es)| + 2 + |e.topicFilter| + 1
  {
    if es != [] {
      assert (es + [e])[1..] == es[1..] + [e];
      EncodeSubscribeEntriesAppend(es[1..], e);
    } else {
      assert ([e])[1..] == [];
    }
  }

  /** `subscribe_remaining_length`: the size of the body the encoder produces for `params`. */
  method SubscribeRemainingLength(params: seq<SubscribeEntry>) returns (n: nat)
    requires forall e | e in params :: e.qos <= 3 && |e.topicFilter| < 0x1_0000
    ensures n == |EncodeSubscribe(SubscribeRequest(0, params))|
  {
    n := 2;
    for k := 0 to |params|
      invariant n == 2 + |EncodeSubscribeEntries(params[..k])|
    {
      EncodeSubscribeEntriesAppend(params[..k], params[k]);
      assert params[..k + 1] == params[..k] + [params[k]];
      n := n + 2 + |params[k].topicFilter| + 1;
    }
    assert params[..|params|] == params;
  }

  /** `t` equals `s` byte for byte, except where a byte of `s` above 3 became its requested QoS. */
  ghost predicate SameUpToQos(t: seq<Byte>, s: seq<Byte>)
  {
    |t| == |s| && forall i | 0 <= i < |s| :: t[i] == s[i] || (s[i] > 3 && t[i] == RequestedQos(s[i]))
  }

  lemma SameUpToQosConcat(t1: seq<Byte>, t2: seq<Byte>, s1: seq<Byte>, s2: seq<Byte>)
    requires SameUpToQos(t1, s1) && SameUpToQos(t2, s2)
    ensures SameUpToQos(t1 + t2, s1 + s2)
  {
    forall i | 0 <= i < |s1 + s2|
      ensures (t1 + t2)[i] == (s1 + s2)[i] || ((s1 + s2)[i] > 3 && (t1 + t2)[i] == RequestedQos((s1 + s2)[i]))
    {
      if i >= |s1| {
        assert (t1 + t2)[i] == t2[i - |s1|] && (s1 + s2)[i] == s2[i - |s1|];
      }
    }
  }

  lemma SameUpToQosEqual(t1: seq<Byte>, s1: seq<Byte>, t2: seq<Byte>, s2: seq<Byte>)
    requires SameUpToQos(t1, s1) && t1 == t2 && s1 == s2
    ensures SameUpToQos(t2, s2)
  {
  }

  /** Re-encoding one entry changes only its requested-QoS byte. */
  lemma SameUpToQosEntry(prefix: seq<Byte>, q: Byte)
    ensures SameUpToQos(prefix + [RequestedQos(q) as Byte], prefix + [q])
  {
    forall i | 0 <= i < |prefix| + 1
      ensures (prefix + [RequestedQos(q) as Byte])[i] == (prefix + [q])[i]
        || ((prefix + [q])[i] > 3 && (prefix + [RequestedQos(q) as Byte])[i] == RequestedQos((prefix + [q])[i]))
    {
    }
  }

  /** A byte run cut into two length bytes, `n` field bytes, one more byte and the rest. */
  lemma CutField(s: seq<Byte>, n: nat, k: nat)
    requires k == 2 + n && k < |s|
    ensures s == [s[0], s[1]] + s[2..k] + [s[k]] + s[k + 1..]
  {
    assert s == s[..2] + s[2..k] + s[k..];
    assert s[k..] == [s[k]] + s[k + 1..];
  }

  /** The first SUBSCRIBE entry of `s`: the topic filter, the QoS byte `q`, and what follows. */
  lemma SubscribeEntriesSplit(s: seq<Byte>) returns (topic: seq<Byte>, q: Byte, tail: seq<Byte>)
    requires s != [] && SubscribeEntries(s).Ok?
    ensures |s| >= 2 && |topic| == MakeUint16(s[0], s[1])
    ensures s == [s[0], s[1]] + topic + [q] + tail
    ensures SubscribeEntries(s) == PrependOk([SubscribeEntry(topic, RequestedQos(q))], SubscribeEntries(tail))
  {
    var n: nat := MakeUint16(s[0], s[1]);
    var k: nat := 2 + n;
    assert k < |s|;
    topic := s[2..k];
    q := s[k];
    tail := s[k + 1..];
    var rest := s[k..];
    assert ReadField(s) == Ok(Field(topic, rest));
    assert rest[0] == q && rest[1..] == tail;
    CutField(s, n, k);
  }

  /**
   * A decodable SUBSCRIBE body that is not empty: its first entry is `prefix` (length and
   * topic filter) and the QoS byte `q`, followed by the decodable `tail`.
   */
  lemma SubscribeEntriesFirst(s: seq<Byte>) returns (prefix: seq<Byte>, q: Byte, tail: seq<Byte>)
    requires s != [] && SubscribeEntries(s).Ok?
    ensures s == prefix + [q] + tail
    ensures SubscribeEntries(tail).Ok?
    ensures EncodeSubscribeEntries(SubscribeEntries(s).value)
      == prefix + [RequestedQos(q) as Byte] + EncodeSubscribeEntries(SubscribeEntries(tail).value)
  {
    var topic;
    topic, q, tail := SubscribeEntriesSplit(s);
    prefix := [s[0], s[1]] + topic;
    var es := SubscribeEntries(s).value;
    var e := SubscribeEntry(topic, RequestedQos(q));
    assert es == [e] + SubscribeEntries(tail).value;
    assert es[0] == e && es[1..] == SubscribeEntries(tail).value;
    assert LengthPrefixed(topic) == prefix by {
      PacketIdOfUint16(s[0], s[1]);
    }
  }

  /**
   * Decoded SUBSCRIBE entries re-encode to the bytes they came from, except that a
   * requested-QoS byte above 3 comes back as its low two bits.
   */
  lemma {:induction false} SubscribeEntriesReencode(s: seq<Byte>)
    requires SubscribeEntries(s).Ok?
    ensures SameUpToQos(EncodeSubscribeEntries(SubscribeEntries(s).value), s)
    decreases |s|
  {
    if s != [] {
      var prefix, q, tail := SubscribeEntriesFirst(s);
      SubscribeEntriesReencode(tail);
      var encTail := EncodeSubscribeEntries(SubscribeEntries(tail).value);
      SameUpToQosEntry(prefix, q);
      SameUpToQosConcat(prefix + [RequestedQos(q) as Byte], encTail, prefix + [q], tail);
      SameUpToQosEqual(prefix + [RequestedQos(q) as Byte] + encTail, prefix + [q] + tail, EncodeSubscribeEntries(SubscribeEntries(s).value), s);
    }
  }

  // ---------------------------------------------------------------------------------
  // UNSUBSCRIBE

  datatype UnsubscribeRequest = UnsubscribeRequest(packetId: U16, topicFilters: seq<seq<Byte>>)

  /** The meaning of the UNSUBSCRIBE loop: a run of topic filters that ends exactly at the end. */
  function UnsubscribeTopics(s: seq<Byte>): (r: Result<seq<seq<Byte>>, ParseError>)
    ensures r.Err? ==> r.error == MessageSize
    ensures r.Ok? ==> forall t | t in r.value :: |t| < 0x1_0000
    decreases |s|
  {
    if s == [] then Ok([])
    else
      var f := ReadField(s);
      if f.Err? then Err(f.error)
      else PrependOk([f.value.value], UnsubscribeTopics(f.value.rest))
  }

  /** The UNSUBSCRIBE topic filters from offset `i` on, read in place as the decoding loop does. */
  function UnsubscribeFrom(p: seq<Byte>, i: nat): Result<seq<seq<Byte>>, ParseError>
    requires i <= |p|
    decreases |p| - i
  {
    if i == |p| then Ok([])
    else if |p| < i + 2 then Err(MessageSize)
    else
      var n := MakeUint16(p[i], p[i + 1]);
      if |p| < i + 2 + n then Err(MessageSize)
      else PrependOk([p[i + 2..i + 2 + n]], UnsubscribeFrom(p, i + 2 + n))
  }

  lemma {:induction false} UnsubscribeFromTopics(p: seq<Byte>, i: nat)
    requires i <= |p|
    ensures UnsubscribeFrom(p, i) == UnsubscribeTopics(p[i..])
    decreases |p| - i
  {
    if i == |p| {
      assert p[i..] == [];
    } else {
      ReadFieldAt(p, i);
      if |p| < i + 2 {
        assert UnsubscribeFrom(p, i) == Err(MessageSize);
      } else {
        var n := MakeUint16(p[i], p[i + 1]);
        if |p| < i + 2 + n {
          assert UnsubscribeFrom(p, i) == Err(MessageSize);
        } else {
          assert UnsubscribeFrom(p, i) == PrependOk([p[i + 2..i + 2 + n]], UnsubscribeFrom(p, i + 2 + n));
          UnsubscribeFromTopics(p, i + 2 + n);
        }
      }
    }
  }

  /** The meaning of the whole UNSUBSCRIBE decoder: the packet identifier, then the topic filters. */
  function UnsubscribeSpec(p: seq<Byte>): Result<UnsubscribeRequest, ParseError>
  {
    if |p| < 2 then Err(MessageSize)
    else
      var ts := UnsubscribeFrom(p, 2);
      if ts.Err? then Err(ts.error) else Ok(UnsubscribeRequest(MakeUint16(p[0], p[1]), ts.value))
  }

  /** The decoding loop of `handle_unsubscribe`. */
  method ParseUnsubscribe(p: seq<Byte>) returns (r: Result<UnsubscribeRequest, ParseError>)
    ensures r == UnsubscribeSpec(p)
  {
    if |p| < 2 {
      return Err(MessageSize);
    }
    var packetId := MakeUint16(p[0], p[1]);
    var i := 2;
    var topicFilters: seq<seq<Byte>> := [];
    while i < |p|
      invariant 2 <= i <= |p|
      invariant UnsubscribeFrom(p, 2) == PrependOk(topicFilters, UnsubscribeFrom(p, i))
      decreases |p| - i
    {
      if |p| < i + 2 {
        return Err(MessageSize);
      }
      var topicLength := MakeUint16(p[i], p[i + 1]);
      if |p| < i + 2 + topicLength {
        return Err(MessageSize);
      }
      PrependOkTwice(topicFilters, p[i + 2..i + 2 + topicLength], UnsubscribeFrom(p, i + 2 + topicLength));
      topicFilters := topicFilters + [p[i + 2..i + 2 + topicLength]];
      i := i + 2 + topicLength;
    }
    assert topicFilters + [] == topicFilters;
    return Ok(UnsubscribeRequest(packetId, topicFilters));
  }

  function EncodeTopics(ts: seq<seq<Byte>>): seq<Byte>
    requires forall t | t in ts :: |t| < 0x1_0000
  {
    if ts == [] then [] else LengthPrefixed(ts[0]) + EncodeTopics(ts[1..])
  }

  /** An UNSUBSCRIBE variable header and payload laid out as in sections 3.10.2 and 3.10.3. */
  function EncodeUnsubscribe(r: UnsubscribeRequest): seq<Byte>
    requires forall t | t in r.topicFilters :: |t| < 0x1_0000
  {
    MakePacketId(r.packetId) + EncodeTopics(r.topicFilters)
  }

  lemma {:induction false} UnsubscribeTopicsRoundTrip(ts: seq<seq<Byte>>)
    requires forall t | t in ts :: |t| < 0x1_0000
    ensures UnsubscribeTopics(EncodeTopics(ts)) == Ok(ts)
  {
    if ts != [] {
      FieldRoundTrip(ts[0], EncodeTopics(ts[1..]));
      UnsubscribeTopicsRoundTrip(ts[1..]);
      assert [ts[0]] + ts[1..] == ts;
    }
  }

  /** A field that reads is its own length prefix and bytes, followed by the rest. */
  lemma FieldSplit(s: seq<Byte>) returns (v: seq<Byte>, rest: seq<Byte>)
    requires ReadField(s).Ok?
    ensures ReadField(s) == Ok(Field(v, rest)) && |v| < 0x1_0000
    ensures s == LengthPrefixed(v) + rest
  {
    v := ReadField(s).value.value;
    rest := ReadField(s).value.rest;
    var n := MakeUint16(s[0], s[1]);
    assert v == s[2..2 + n] && rest == s[2 + n..];
    PacketIdOfUint16(s[0], s[1]);
    assert s == s[..2] + v + rest;
  }

  /**
   * A decodable UNSUBSCRIBE body is exactly a run of length-prefixed topic filters: the
   * decoded filters re-encode to the very bytes they came from.
   */
  lemma {:induction false} UnsubscribeTopicsReencode(s: seq<Byte>)
    requires UnsubscribeTopics(s).Ok?
    ensures EncodeTopics(UnsubscribeTopics(s).value) == s
    decreases |s|
  {
    if s != [] {
      var v, rest := FieldSplit(s);
      UnsubscribeTopicsReencode(rest);
      var ts := UnsubscribeTopics(s).value;
      assert ts == [v] + UnsubscribeTopics(rest).value;
      assert ts[0] == v && ts[1..] == UnsubscribeTopics(rest).value;
    }
  }

  lemma UnsubscribeRoundTrip(r: UnsubscribeRequest)
    requires forall t | t in r.topicFilters :: |t| < 0x1_0000
    ensures UnsubscribeSpec(EncodeUnsubscribe(r)) == Ok(r)
  {
    var p := EncodeUnsubscribe(r);
    assert p[2..] == EncodeTopics(r.topicFilters);
    UnsubscribeTopicsRoundTrip(r.topicFilters);
    UnsubscribeFromTopics(p, 2);
  }

  lemma {:induction false} EncodeTopicsAppend(ts: seq<seq<Byte>>, t: seq<Byte>)
    requires forall x | x in ts :: |x| < 0x1_0000
    requires |t| < 0x1_0000
    ensures |EncodeTopics(ts + [t])| == |EncodeTopics(ts)| + 2 + |t|
  {
    if ts != [] {
      assert (ts + [t])[1..] == ts[1..] + [t];
      EncodeTopicsAppend(ts[1..], t);
    } else {
      assert ([t])[1..] == [];
    }
  }

  /** `unsubscribe_remaining_length`: the size of the body the encoder produces for `params`. */
  method UnsubscribeRemainingLength(params: seq<seq<Byte>>) returns (n: nat)
    requires forall t | t in params :: |t| < 0x1_0000
    ensures n == |EncodeUnsubscribe(UnsubscribeRequest(0, params))|
  {
    n := 2;
    for k := 0 to |params|
      invariant n == 2 + |EncodeTopics(params[..k])|
    {
      EncodeTopicsAppend(params[..k], params[k]);
      assert params[..k + 1] == params[..k] + [params[k]];
      n := n + 2 + |params[k]|;
    }
    assert params[..|params|] == params;
  }

  // ---------------------------------------------------------------------------------
  // SUBACK

  /** The SUBACK failure return code (section 3.9.3). */
  const SubackFailure: Byte := 0x80

  /** One SUBACK return code: any byte with bit 7 set is a failure, otherwise a granted QoS. */
  function SubackReturnCode(b: Byte): (r: Option<Byte>)
    ensures r.None? <==> b >= 0x80
    ensures r.Some? ==> r.value == b
  {
    if b >= 0x80 then None else Some(b)
  }

  /** The return codes of a SUBACK payload, one per byte after the packet identifier. */
  function SubackResults(p: seq<Byte>): (results: seq<Option<Byte>>)
    requires |p| >= 2
    ensures |results| == |p| - 2
    ensures forall k :: 0 <= k < |results| ==> results[k] == SubackReturnCode(p[k + 2])
  {
    seq(|p| - 2, k requires 0 <= k < |p| - 2 => SubackReturnCode(p[k + 2]))
  }

  /** The result loop of `handle_suback`, over the bytes after the packet identifier. */
  method ParseSubackResults(p: seq<Byte>) returns (results: seq<Option<Byte>>)
    requires |p| >= 2
    ensures results == SubackResults(p)
  {
    results := [];
    var i := 2;
    while i < |p|
      invariant 2 <= i <= |p|
      invariant |results| == i - 2
      invariant forall k :: 0 <= k < |results| ==> results[k] == SubackReturnCode(p[k + 2])
    {
      if p[i] >= 0x80 {
        results := results + [None];
      } else {
        results := results + [Some(p[i])];
      }
      i := i + 1;
    }
  }

  /** The return codes a broker sends for the given outcomes (section 3.9.3): a granted QoS or 0x80. */
  function EncodeSubackCodes(outcomes: seq<Option<Byte>>): (codes: seq<Byte>)
    requires forall k :: 0 <= k < |outcomes| ==> outcomes[k].Some? ==> outcomes[k].value <= 2
    ensures |codes| == |outcomes|
  {
    seq(|outcomes|, k requires 0 <= k < |outcomes| =>
      if outcomes[k].Some? then outcomes[k].value else SubackFailure)
  }

  /** Reading back the return codes of a SUBACK gives the outcomes the broker reported. */
  lemma SubackCodesRoundTrip(packetId: U16, outcomes: seq<Option<Byte>>)
    requires forall k :: 0 <= k < |outcomes| ==> outcomes[k].Some? ==> outcomes[k].value <= 2
    ensures SubackResults(MakePacketId(packetId) + EncodeSubackCodes(outcomes)) == outcomes
  {
    var p := MakePacketId(packetId) + EncodeSubackCodes(outcomes);
    assert forall k :: 0 <= k < |outcomes| ==> p[k + 2] == EncodeSubackCodes(outcomes)[k];
  }
}
