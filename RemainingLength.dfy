/**
 * The Remaining Length field of the fixed header (section 2.2.3 of MQTT 3.1.1) as the
 * endpoint decodes it, and the per-packet-type check the endpoint applies to the decoded
 * length before it reads the payload.
 */
module RemainingLength {
  import opened Results
  import opened Wire

  /** The largest multiplier the decoder tolerates: 128 to the power 4. */
  const MaxMultiplier: nat := 128 * 128 * 128 * 128

  /** What reading the Remaining Length bytes ends in. */
  datatype LengthOutcome =
    | Decoded(length: nat, consumed: nat)  // a value and how many bytes it took
    | TooLong                              // the multiplier passed 128^4: message_size error
    | Incomplete                           // the bytes ran out before a final byte arrived

  function Pow128(k: nat): (p: nat)
    ensures p >= 1
  {
    if k == 0 then 1 else 128 * Pow128(k - 1)
  }

  /** The number carried by `s`: seven bits per byte, least significant group first. */
  function Weighted(s: seq<Byte>): nat
  {
    if s == [] then 0 else s[0] % 128 + 128 * Weighted(s[1..])
  }

  /** The index of the first byte whose continuation bit (bit 7) is clear, or |s| if none is. */
  function FirstTerminator(s: seq<Byte>): (k: nat)
    ensures k <= |s|
    ensures forall j :: 0 <= j < k ==> s[j] >= 128
    ensures k < |s| ==> s[k] < 128
  {
    if s == [] then 0 else if s[0] < 128 then 0 else 1 + FirstTerminator(s[1..])
  }

  /**
   * The meaning of the decoder: the field is the bytes up to and including the first one
   * with bit 7 clear, provided that is among the first four; a fifth byte is an error once
   * it has been read; fewer bytes than that leave the field incomplete.
   */
  function DecodeLength(bytes: seq<Byte>): LengthOutcome
  {
    var k := FirstTerminator(bytes);
    if k < 4 && k < |bytes| then Decoded(Weighted(bytes[..k + 1]), k + 1)
    else if |bytes| > 4 then TooLong
    else Incomplete
  }

  lemma {:induction false} WeightedBound(s: seq<Byte>)
    ensures Weighted(s) < Pow128(|s|)
  {
    if s != [] {
      WeightedBound(s[1..]);
    }
  }

  /** Appending a byte adds its seven low bits at the next power of 128. */
  lemma {:induction false} WeightedSnoc(s: seq<Byte>, b: Byte)
    ensures Weighted(s + [b]) == Weighted(s) + (b % 128) * Pow128(|s|)
  {
    if s == [] {
      assert [b][1..] == [];
    } else {
      assert (s + [b])[1..] == s[1..] + [b];
      WeightedSnoc(s[1..], b);
      calc {
        Weighted(s + [b]);
        s[0] % 128 + 128 * Weighted(s[1..] + [b]);
        s[0] % 128 + 128 * (Weighted(s[1..]) + (b % 128) * Pow128(|s| - 1));
        s[0] % 128 + 128 * Weighted(s[1..]) + (b % 128) * (128 * Pow128(|s| - 1));
      }
    }
  }

  /** A decoded value took one to four bytes and lies below 128 to the power of that count. */
  lemma DecodedBounds(bytes: seq<Byte>)
    requires DecodeLength(bytes).Decoded?
    ensures 1 <= DecodeLength(bytes).consumed <= 4
    ensures DecodeLength(bytes).length < Pow128(DecodeLength(bytes).consumed)
    ensures DecodeLength(bytes).length < MaxMultiplier
    ensures bytes[DecodeLength(bytes).consumed - 1] < 128
  {
    var k := FirstTerminator(bytes);
    WeightedBound(bytes[..k + 1]);
    assert Pow128(4) == MaxMultiplier;
    PowMonotone(k + 1, 4);
  }

  lemma {:induction false} PowMonotone(i: nat, j: nat)
    requires i <= j
    ensures Pow128(i) <= Pow128(j)
  {
    if i < j {
      PowMonotone(i, j - 1);
    }
  }

  /** After the fifth byte, and only then, the multiplier has passed 128^4. */
  lemma MultiplierExceeds(i: nat)
    requires i <= 4
    ensures Pow128(i + 1) > MaxMultiplier <==> i == 4
  {
    assert Pow128(4) == MaxMultiplier;
    if i < 4 {
      PowMonotone(i + 1, 4);
    }
  }

  lemma PowStrictInverse(i: nat, j: nat)
    requires Pow128(i) < Pow128(j)
    ensures i < j
  {
    if i >= j {
      PowMonotone(j, i);
    }
  }

  /** The encoder of section 2.2.3: seven bits at a time, bit 7 set on every byte but the last. */
  function EncodeLength(n: nat): (s: seq<Byte>)
    decreases n
  {
    if n < 128 then [n] else [n % 128 + 128] + EncodeLength(n / 128)
  }

  lemma {:induction false} EncodeLengthShape(n: nat)
    ensures |EncodeLength(n)| >= 1
    ensures Weighted(EncodeLength(n)) == n
    ensures FirstTerminator(EncodeLength(n)) == |EncodeLength(n)| - 1
  {
    if n >= 128 {
      EncodeLengthShape(n / 128);
      var s := EncodeLength(n);
      assert s[1..] == EncodeLength(n / 128);
      assert s[0] % 128 == n % 128;
    }
  }

  /** A field of k bytes is only produced for lengths of at least 128^(k-1). */
  lemma {:induction false} EncodeLengthLowerBound(n: nat)
    ensures |EncodeLength(n)| > 1 ==> n >= Pow128(|EncodeLength(n)| - 1)
  {
    if n >= 128 {
      EncodeLengthLowerBound(n / 128);
      EncodeLengthShape(n / 128);
      assert |EncodeLength(n)| - 1 == |EncodeLength(n / 128)|;
      var k := |EncodeLength(n / 128)|;
      assert Pow128(k) == 128 * Pow128(k - 1);
      assert n / 128 >= Pow128(k - 1);
      assert 128 * (n / 128) >= 128 * Pow128(k - 1);
      assert n >= 128 * (n / 128);
      assert Pow128(|EncodeLength(n)| - 1) == Pow128(k);
    }
  }

  /** The terminator of a field is found before any byte that follows the field. */
  lemma {:induction false} FirstTerminatorOfPrefix(s: seq<Byte>, rest: seq<Byte>)
    requires FirstTerminator(s) == |s| - 1
    ensures FirstTerminator(s + rest) == |s| - 1
  {
    if s[0] >= 128 {
      assert (s + rest)[1..] == s[1..] + rest;
      FirstTerminatorOfPrefix(s[1..], rest);
    }
  }

  /** Encoding needs at most four bytes below 128^4. */
  lemma EncodeLengthAtMostFour(n: nat)
    requires n < MaxMultiplier
    ensures |EncodeLength(n)| <= 4
  {
    EncodeLengthLowerBound(n);
    assert Pow128(4) == MaxMultiplier;
    if |EncodeLength(n)| > 1 {
      PowStrictInverse(|EncodeLength(n)| - 1, 4);
    }
  }

  /** Every length below 128^4 decodes from its encoding, whatever bytes follow it. */
  lemma LengthRoundTrip(n: nat, rest: seq<Byte>)
    requires n < MaxMultiplier
    ensures DecodeLength(EncodeLength(n) + rest) == Decoded(n, |EncodeLength(n)|)
  {
    var s := EncodeLength(n);
    EncodeLengthShape(n);
    EncodeLengthAtMostFour(n);
    FirstTerminatorOfPrefix(s, rest);
    assert (s + rest)[..|s|] == s;
  }

  /** Five continuation-flagged bytes are refused, as soon as the fifth has been read. */
  lemma FifthByteRefused(bytes: seq<Byte>)
    requires |bytes| >= 5
    requires forall j :: 0 <= j < 4 ==> bytes[j] >= 128
    ensures DecodeLength(bytes) == TooLong
  {
  }

  /** The decoder also accepts encodings that are longer than needed: 0x80 0x00 is zero. */
  lemma NonMinimalAccepted()
    ensures DecodeLength([0x80, 0x00]) == Decoded(0, 2)
  {
    assert FirstTerminator([0x80, 0x00]) == 1 by {
      assert [0x80, 0x00][1..] == [0x00];
    }
    assert [0x80, 0x00][..2] == [0x80, 0x00];
    assert Weighted([0x80, 0x00]) == 0 by {
      assert [0x80, 0x00][1..] == [0x00];
      assert Weighted([0x00]) == 0;
    }
  }

  /** Packet types whose remaining length must be exactly two (the packet identifier). */
  predicate IdOnlyPacket(t: PacketType)
  {
    t == Connack || t == Puback || t == Pubrec || t == Pubrel || t == Pubcomp || t == Unsuback
  }

  /** Packet types that carry no variable header or payload. */
  predicate EmptyPacket(t: PacketType)
  {
    t == Pingreq || t == Pingresp || t == Disconnect
  }

  /** Packet types whose length only the optional user hook judges. */
  predicate VariablePacket(t: PacketType)
  {
    t == Connect || t == Publish || t == Subscribe || t == Suback || t == Unsubscribe
  }

  /**
   * The `check` applied once the remaining length is known. `isValidLength` is the user's
   * `is_valid_length` hook, when one is installed.
   */
  function CheckLength(t: PacketType, remainingLength: nat,
                       isValidLength: Option<(PacketType, nat) -> bool>): (ok: bool)
    ensures IdOnlyPacket(t) ==> (ok <==> remainingLength == 2)
    ensures EmptyPacket(t) ==> (ok <==> remainingLength == 0)
    ensures VariablePacket(t) && isValidLength.None? ==> ok
    ensures VariablePacket(t) && isValidLength.Some? ==> ok == isValidLength.value(t, remainingLength)
    ensures t == Reserved ==> !ok
  {
    match t
    case Connect | Publish | Subscribe | Suback | Unsubscribe =>
      if isValidLength.Some? then isValidLength.value(t, remainingLength) else true
    case Connack | Puback | Pubrec | Pubrel | Pubcomp | Unsuback => remainingLength == 2
    case Pingreq | Pingresp | Disconnect => remainingLength == 0
    case Reserved => false
  }

  /** Every packet type is in exactly one of the three classes, or is reserved. */
  lemma PacketClassesPartition(t: PacketType)
    ensures t == Reserved || IdOnlyPacket(t) || EmptyPacket(t) || VariablePacket(t)
    ensures !(IdOnlyPacket(t) && EmptyPacket(t)) && !(IdOnlyPacket(t) && VariablePacket(t))
    ensures !(EmptyPacket(t) && VariablePacket(t))
  {
  }
}
