/** The packet codec of the enforcement point (`packet.rs`). */
module PacketCodec {
  import opened Common

  datatype PacketType = KnkRequest | KnkResponse | SessionData | SessionTeardown | Heartbeat | Error

  datatype Packet = Packet(packetType: PacketType, payload: Bytes, sequence: Word)

  datatype Decoded = Ok(packet: Packet) | TooShort | UnknownType | Truncated

  const WORD_LIMIT := 0x1_0000_0000

  function Code(t: PacketType): Byte {
    match t
    case KnkRequest => 0x01
    case KnkResponse => 0x02
    case SessionData => 0x03
    case SessionTeardown => 0x04
    case Heartbeat => 0x05
    case Error => 0xFF
  }

  function TypeOf(code: Byte): Option<PacketType> {
    if code == 0x01 then Some(KnkRequest)
    else if code == 0x02 then Some(KnkResponse)
    else if code == 0x03 then Some(SessionData)
    else if code == 0x04 then Some(SessionTeardown)
    else if code == 0x05 then Some(Heartbeat)
    else if code == 0xFF then Some(Error)
    else None
  }

  // The payload length cut to 32 bits.
  function LengthWord(payload: Bytes): Word {
    (|payload| % WORD_LIMIT) as Word
  }

  function Header(p: Packet): (h: Bytes)
    ensures |h| == 9 && h[0] == Code(p.packetType) && h[1..5] == ToBe(p.sequence) && h[5..9] == ToBe(LengthWord(p.payload))
    ensures h[1] as int * 0x100_0000 + h[2] as int * 0x1_0000 + h[3] as int * 0x100 + h[4] as int == p.sequence as int
    ensures h[5] as int * 0x100_0000 + h[6] as int * 0x1_0000 + h[7] as int * 0x100 + h[8] as int == |p.payload| % 0x1_0000_0000
  {
    NetworkOrder(p.sequence);
    NetworkOrder(LengthWord(p.payload));
    [Code(p.packetType)] + ToBe(p.sequence) + ToBe(LengthWord(p.payload))
  }

  function Encode(p: Packet): Bytes {
    Header(p) + p.payload
  }

  /** `to_bytes`, pushing field after field onto a buffer. */
  method ToBytes(p: Packet) returns (buf: Bytes)
    ensures buf == Encode(p)
  {
    buf := [];
    buf := buf + [Code(p.packetType)];
    buf := buf + ToBe(p.sequence);
    buf := buf + ToBe(LengthWord(p.payload));
    buf := buf + p.payload;
  }

  /** `from_bytes`. */
  function Decode(data: Bytes): Decoded {
    if |data| < 9 then TooShort
    else if TypeOf(data[0]).None? then UnknownType
    else
      var sequence := FromBe(data[1..5]);
      var length := FromBe(data[5..9]) as int;
      if |data| < 9 + length then Truncated
      else Ok(Packet(TypeOf(data[0]).value, data[9..9 + length], sequence))
  }

  /** The type codes of the wire format. */
  predicate Coded(t: PacketType, code: int) {
    match t
    case KnkRequest => code == 0x01
    case KnkResponse => code == 0x02
    case SessionData => code == 0x03
    case SessionTeardown => code == 0x04
    case Heartbeat => code == 0x05
    case Error => code == 0xFF
  }

  /** The header byte by byte: type code, then sequence and payload length, highest byte first. */
  lemma WireFormat(p: Packet)
    ensures var b := Encode(p);
      && |b| == 9 + |p.payload| && Coded(p.packetType, b[0] as int) && b[9..] == p.payload
      && b[1] as int * 0x100_0000 + b[2] as int * 0x1_0000 + b[3] as int * 0x100 + b[4] as int == p.sequence as int
      && b[5] as int * 0x100_0000 + b[6] as int * 0x1_0000 + b[7] as int * 0x100 + b[8] as int == |p.payload| % 0x1_0000_0000
  {
    hide ToBe, LengthWord;
    assert forall i | 0 <= i < 9 :: Encode(p)[i] == Header(p)[i];
  }

  /** What decoding makes of the bytes, field by field, and exactly when it refuses them. */
  lemma DecodedByPosition(data: Bytes)
    ensures Decode(data) == TooShort <==> |data| < 9
    ensures Decode(data) == UnknownType <==> |data| >= 9 && data[0] as int !in {0x01, 0x02, 0x03, 0x04, 0x05, 0xFF}
    ensures |data| >= 9 && data[0] as int in {0x01, 0x02, 0x03, 0x04, 0x05, 0xFF} ==>
      var length := data[5] as int * 0x100_0000 + data[6] as int * 0x1_0000 + data[7] as int * 0x100 + data[8] as int;
      && (Decode(data) == Truncated <==> |data| < 9 + length)
      && (Decode(data).Ok? <==> |data| >= 9 + length)
    ensures Decode(data).Ok? ==>
      var p := Decode(data).packet;
      && Coded(p.packetType, data[0] as int) && data[9..9 + |p.payload|] == p.payload
      && p.sequence as int == data[1] as int * 0x100_0000 + data[2] as int * 0x1_0000 + data[3] as int * 0x100 + data[4] as int
      && |p.payload| == data[5] as int * 0x100_0000 + data[6] as int * 0x1_0000 + data[7] as int * 0x100 + data[8] as int
  {
    if |data| >= 9 {
      assert data[1..5][0] == data[1] && data[1..5][3] == data[4] && data[5..9][0] == data[5] && data[5..9][3] == data[8];
    }
  }

  /** Decoding an encoded packet followed by anything always succeeds and yields the packet with
      its payload cut to the length modulo 2^32. */
  lemma DecodeEncoded(p: Packet, suffix: Bytes)
    ensures Decode(Encode(p) + suffix) == Ok(p.(payload := p.payload[..LengthWord(p.payload) as int]))
  {
  }

  /** The round trip is the identity exactly for payloads under 2^32 bytes. */
  lemma RoundTripExactly(p: Packet, suffix: Bytes)
    ensures Decode(Encode(p) + suffix) == Ok(p) <==> |p.payload| < WORD_LIMIT
  {
  }

  /** What is decoded re-encodes to exactly the bytes consumed. */
  lemma EncodeDecoded(data: Bytes)
    requires Decode(data).Ok?
    ensures var p := Decode(data).packet;
      |p.payload| < WORD_LIMIT && |Encode(p)| == 9 + |p.payload| <= |data| && data[..|Encode(p)|] == Encode(p)
  {
    var p := Decode(data).packet;
    BeInverse(data[1..5]);
    BeInverse(data[5..9]);
    assert LengthWord(p.payload) == FromBe(data[5..9]);
    assert Code(p.packetType) == data[0];
    assert data[..9] == [data[0]] + data[1..5] + data[5..9];
    assert data[..9 + |p.payload|] == data[..9] + p.payload;
  }

  /** Decoding succeeds exactly on the encodings of packets under 2^32 bytes and what extends them. */
  lemma DecodesExactly(data: Bytes)
    ensures Decode(data).Ok? <==> exists p: Packet, suffix :: |p.payload| < WORD_LIMIT && data == Encode(p) + suffix
  {
    if Decode(data).Ok? {
      EncodeDecoded(data);
      var p := Decode(data).packet;
      assert data == Encode(p) + data[|Encode(p)|..];
    }
    if p: Packet, suffix :| |p.payload| < WORD_LIMIT && data == Encode(p) + suffix {
      RoundTripExactly(p, suffix);
    }
  }

  /** No encoding is a prefix of another packet's. */
  lemma PrefixFree(p: Packet, q: Packet)
    requires |p.payload| < WORD_LIMIT && |q.payload| < WORD_LIMIT && Encode(p) <= Encode(q)
    ensures p == q
  {
    RoundTripExactly(p, Encode(q)[|Encode(p)|..]);
    assert Encode(q) == Encode(p) + Encode(q)[|Encode(p)|..];
    RoundTripExactly(q, []);
    assert Encode(q) + [] == Encode(q);
  }

  // ----- streams of packets

  function EncodeAll(ps: seq<Packet>): Bytes {
    if ps == [] then [] else Encode(ps[0]) + EncodeAll(ps[1..])
  }

  /** Packets taken off the front until nothing is left; None if some packet does not decode. */
  function DecodeAll(data: Bytes): Option<seq<Packet>>
    decreases |data|
  {
    if data == [] then Some([])
    else
      match Decode(data)
      case Ok(p) =>
        var rest := DecodeAll(data[9 + |p.payload|..]);
        if rest.None? then None else Some([p] + rest.value)
      case _ => None
  }

  /** A concatenation of packets decodes back to those packets. */
  lemma {:induction false} StreamRoundTrip(ps: seq<Packet>)
    requires forall p | p in ps :: |p.payload| < WORD_LIMIT
    ensures DecodeAll(EncodeAll(ps)) == Some(ps)
  {
    if ps != [] {
      var p, rest := ps[0], EncodeAll(ps[1..]);
      StreamRoundTrip(ps[1..]);
      RoundTripExactly(p, rest);
      assert (Encode(p) + rest)[9 + |p.payload|..] == rest;
      assert ps == [p] + ps[1..];
    }
  }

  /** And only a concatenation of packets does: what decodes re-encodes to the whole input. */
  lemma {:induction false} StreamDecodesOnlyPackets(data: Bytes)
    requires DecodeAll(data).Some?
    ensures EncodeAll(DecodeAll(data).value) == data
    decreases |data|
  {
    if data != [] {
      var p := Decode(data).packet;
      var rest := data[9 + |p.payload|..];
      EncodeDecoded(data);
      StreamDecodesOnlyPackets(rest);
      var ps := DecodeAll(data).value;
      assert ps[0] == p && ps[1..] == DecodeAll(rest).value;
      assert data == Encode(p) + rest;
    }
  }
}
