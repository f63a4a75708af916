/** The HTTP/2 extension frame codec (`http2_frame.rs`), in the layout of section 4.1 of RFC 7540. */
module Http2Frame {
  import opened Common

  datatype Frame = Frame(payload: Bytes, streamId: Word)

  datatype Decoded = Ok(frame: Frame) | TooShort | WrongType | Truncated

  const FRAME_TYPE: Byte := 0x1A
  const LENGTH_LIMIT := 0x100_0000
  const WORD_LIMIT := 0x1_0000_0000
  const STREAM_LIMIT := 0x8000_0000

  // The low 24 bits of the payload length cut to 32 bits, highest first.
  function LengthBytes(payload: Bytes): (b: Bytes)
    ensures |b| == 3 && LengthOf(b[0], b[1], b[2]) == |payload| % LENGTH_LIMIT
  {
    var length := |payload| % WORD_LIMIT;
    Low24Bits(|payload|);
    [(length / 0x1_0000 % 0x100) as Byte, (length / 0x100 % 0x100) as Byte, (length % 0x100) as Byte]
  }

  lemma Low24Bits(n: nat)
    ensures var m := n % WORD_LIMIT;
      m / 0x1_0000 % 0x100 * 0x1_0000 + m / 0x100 % 0x100 * 0x100 + m % 0x100 == n % LENGTH_LIMIT
  {
    var m := n % WORD_LIMIT;
    var m1 := m / 0x100;
    var m2 := m1 / 0x100;
    var m3 := m2 / 0x100;
    assert m / 0x1_0000 == m2;
    assert n == (n / WORD_LIMIT * 0x100 + m3) * LENGTH_LIMIT + m2 % 0x100 * 0x1_0000 + m1 % 0x100 * 0x100 + m % 0x100;
    SameRemainder(n / WORD_LIMIT * 0x100 + m3, m2 % 0x100 * 0x1_0000 + m1 % 0x100 * 0x100 + m % 0x100, n);
  }

  lemma SameRemainder(k: nat, r: nat, n: nat)
    requires r < LENGTH_LIMIT && n == k * LENGTH_LIMIT + r
    ensures n % LENGTH_LIMIT == r
  {
  }

  function LengthOf(b0: Byte, b1: Byte, b2: Byte): nat {
    b0 as int * 0x1_0000 + b1 as int * 0x100 + b2 as int
  }

  // The stream identifier without its reserved top bit.
  function StreamBits(w: Word): Word {
    (w as int % STREAM_LIMIT) as Word
  }

  function Encode(f: Frame): Bytes {
    LengthBytes(f.payload) + [FRAME_TYPE, 0x00] + ToBe(StreamBits(f.streamId)) + f.payload
  }

  /** `to_bytes`, pushing field after field onto a vector. */
  method ToBytes(f: Frame) returns (frame: Bytes)
    ensures frame == Encode(f)
  {
    var length := |f.payload| % WORD_LIMIT;
    frame := [];
    frame := frame + [(length / 0x1_0000 % 0x100) as Byte];
    frame := frame + [(length / 0x100 % 0x100) as Byte];
    frame := frame + [(length % 0x100) as Byte];
    frame := frame + [FRAME_TYPE];
    frame := frame + [0x00];
    frame := frame + ToBe(StreamBits(f.streamId));
    frame := frame + f.payload;
  }

  /** `from_bytes`. */
  function Decode(data: Bytes): Decoded {
    if |data| < 9 then TooShort
    else
      var length := LengthOf(data[0], data[1], data[2]);
      if data[3] != FRAME_TYPE then WrongType
      else
        var streamId := StreamBits(FromBe(data[5..9]));
        if |data| < 9 + length then Truncated
        else Ok(Frame(data[9..9 + length], streamId))
  }

  lemma Fields(f: Frame, suffix: Bytes)
    ensures var data := Encode(f) + suffix;
      && |data| == 9 + |f.payload| + |suffix|
      && data[..3] == LengthBytes(f.payload) && data[3] == FRAME_TYPE && data[4] == 0x00
      && data[5..9] == ToBe(StreamBits(f.streamId)) && data[9..] == f.payload + suffix
  {
  }

  /** Where everything lies on the wire, byte by byte: 24-bit length, type 0x1A, no flags, 31-bit
      stream identifier, each number highest byte first, then the payload. */
  lemma Layout(f: Frame, suffix: Bytes)
    ensures var data := Encode(f) + suffix;
      && |data| == 9 + |f.payload| + |suffix|
      && data[..3] == LengthBytes(f.payload) && data[3] == FRAME_TYPE && data[4] == 0x00
      && data[5..9] == ToBe(StreamBits(f.streamId)) && data[9..] == f.payload + suffix
    ensures var b := Encode(f) + suffix;
      && b[3] as int == 0x1A
      && b[0] as int * 0x1_0000 + b[1] as int * 0x100 + b[2] as int == |f.payload| % 0x100_0000
      && b[5] as int * 0x100_0000 + b[6] as int * 0x1_0000 + b[7] as int * 0x100 + b[8] as int
        == f.streamId as int % 0x8000_0000
  {
    hide Encode, LengthBytes, ToBe, StreamBits;
    Fields(f, suffix);
    var b := Encode(f) + suffix;
    var l, w := b[..3], b[5..9];
    assert l[0] == b[0] && l[1] == b[1] && l[2] == b[2];
    assert w[0] == b[5] && w[1] == b[6] && w[2] == b[7] && w[3] == b[8];
    StreamBitsIs(f.streamId);
    NetworkOrder(StreamBits(f.streamId));
  }

  lemma StreamBitsIs(w: Word)
    ensures StreamBits(w) as int == w as int % 0x8000_0000
  {
  }

  /** What decoding makes of the bytes, field by field, and exactly when it refuses them. */
  lemma DecodedByPosition(data: Bytes)
    ensures Decode(data) == TooShort <==> |data| < 9
    ensures Decode(data) == WrongType <==> |data| >= 9 && data[3] as int != 0x1A
    ensures |data| >= 9 && data[3] as int == 0x1A ==>
      var length := data[0] as int * 0x1_0000 + data[1] as int * 0x100 + data[2] as int;
      && (Decode(data) == Truncated <==> |data| < 9 + length)
      && (Decode(data).Ok? <==> |data| >= 9 + length)
    ensures Decode(data).Ok? ==>
      var f := Decode(data).frame;
      && data[9..9 + |f.payload|] == f.payload
      && |f.payload| == data[0] as int * 0x1_0000 + data[1] as int * 0x100 + data[2] as int
      && f.streamId as int ==
        (data[5] as int * 0x100_0000 + data[6] as int * 0x1_0000 + data[7] as int * 0x100 + data[8] as int) % 0x8000_0000
  {
    if |data| >= 9 {
      var w := data[5..9];
      assert w[0] == data[5] && w[1] == data[6] && w[2] == data[7] && w[3] == data[8];
      StreamBitsIs(FromBe(w));
    }
  }

  lemma StreamBitsIdempotent(w: Word)
    ensures StreamBits(StreamBits(w)) == StreamBits(w)
    ensures StreamBits(w) == w <==> (w as int) < STREAM_LIMIT
  {
  }

  // `Decode`, field by field, of what it accepts.
  lemma DecodeFields(data: Bytes, n: nat, w: Word)
    requires |data| >= 9 + n && data[3] == FRAME_TYPE
    requires LengthOf(data[0], data[1], data[2]) == n && data[5..9] == ToBe(w)
    ensures Decode(data) == Ok(Frame(data[9..9 + n], StreamBits(w)))
  {
    hide ToBe, FromBe, LengthOf, StreamBits;
  }

  /** Decoding an encoded frame followed by anything always succeeds; it yields the first
      (length mod 2^24) payload bytes and the stream identifier mod 2^31. */
  lemma DecodeEncoded(f: Frame, suffix: Bytes)
    ensures Decode(Encode(f) + suffix) ==
      Ok(Frame(f.payload[..|f.payload| % LENGTH_LIMIT], StreamBits(f.streamId)))
  {
    hide Encode, Decode, LengthBytes, LengthOf, ToBe, FromBe, StreamBits;
    Fields(f, suffix);
    var data, n := Encode(f) + suffix, |f.payload| % LENGTH_LIMIT;
    assert data[0] == data[..3][0] && data[1] == data[..3][1] && data[2] == data[..3][2];
    assert data[9..9 + n] == data[9..][..n] == f.payload[..n];
    DecodeFields(data, n, StreamBits(f.streamId));
    StreamBitsIdempotent(f.streamId);
  }

  /** The round trip is the identity exactly for payloads under 2^24 bytes on stream identifiers
      under 2^31. */
  lemma RoundTripExactly(f: Frame, suffix: Bytes)
    ensures Decode(Encode(f) + suffix) == Ok(f) <==> |f.payload| < LENGTH_LIMIT && (f.streamId as int) < STREAM_LIMIT
  {
    hide Encode, Decode, LengthBytes, StreamBits;
    DecodeEncoded(f, suffix);
    StreamBitsIdempotent(f.streamId);
    var n := |f.payload| % LENGTH_LIMIT;
    if |f.payload| < LENGTH_LIMIT {
      assert f.payload[..n] == f.payload;
    } else {
      assert |f.payload[..n]| < LENGTH_LIMIT;
    }
  }

  lemma LowByte(q: nat, r: nat)
    requires r < 0x100
    ensures (q * 0x100 + r) / 0x100 == q && (q * 0x100 + r) % 0x100 == r
  {
  }

  lemma ThreeDigits(n: nat, b0: nat, b1: nat, b2: nat)
    requires b0 < 0x100 && b1 < 0x100 && b2 < 0x100 && n == b0 * 0x1_0000 + b1 * 0x100 + b2
    ensures n % WORD_LIMIT == n && n / 0x1_0000 % 0x100 == b0 && n / 0x100 % 0x100 == b1 && n % 0x100 == b2
  {
    var q := b0 * 0x100 + b1;
    assert n == q * 0x100 + b2;
    LowByte(q, b2);
    LowByte(b0, b1);
    assert n / 0x1_0000 == b0;
  }

  lemma LengthBytesInverse(payload: Bytes, b: Bytes)
    requires |b| == 3 && |payload| == LengthOf(b[0], b[1], b[2])
    ensures LengthBytes(payload) == b
  {
    ThreeDigits(|payload|, b[0] as int, b[1] as int, b[2] as int);
    var n := |payload|;
    assert LengthBytes(payload) == [(n / 0x1_0000 % 0x100) as Byte, (n / 0x100 % 0x100) as Byte, (n % 0x100) as Byte];
  }

  lemma TopByte(b: Bytes)
    requires |b| == 4
    ensures (FromBe(b) as int) < STREAM_LIMIT <==> (b[0] as int) < 0x80
  {
  }

  lemma TopBit(b: Bytes)
    requires |b| == 4
    ensures ToBe(StreamBits(FromBe(b))) == b <==> (b[0] as int) < 0x80
  {
    hide ToBe, FromBe, StreamBits;
    var w := FromBe(b);
    BeInverse(b);
    TopByte(b);
    StreamBitsIdempotent(w);
    assert FromBe(ToBe(StreamBits(w))) == StreamBits(w);
  }

  // Two byte strings with the same first three and from the ninth on agree exactly if the rest does.
  lemma SameMiddle(x: Bytes, y: Bytes)
    requires |x| == |y| >= 9 && x[..3] == y[..3] && x[3] == y[3] && x[9..] == y[9..]
    ensures x == y <==> x[4] == y[4] && x[5..9] == y[5..9]
  {
    assert x == x[..3] + [x[3], x[4]] + x[5..9] + x[9..];
    assert y == y[..3] + [y[3], y[4]] + y[5..9] + y[9..];
  }

  /** Re-encoding a decoded frame gives back the bytes consumed exactly when the flags byte and
      the reserved bit were zero. */
  lemma ReencodesExactly(data: Bytes)
    requires Decode(data).Ok?
    ensures var f := Decode(data).frame; var n := 9 + |f.payload|;
      n <= |data| && (Encode(f) == data[..n] <==> data[4] == 0x00 && (data[5] as int) < 0x80)
  {
    hide Encode, LengthBytes, ToBe, FromBe, StreamBits;
    var f := Decode(data).frame;
    var n := 9 + |f.payload|;
    LengthBytesInverse(f.payload, data[..3]);
    TopBit(data[5..9]);
    StreamBitsIdempotent(FromBe(data[5..9]));
    Fields(f, []);
    assert Encode(f) + [] == Encode(f);
    var used := data[..n];
    assert used[..3] == data[..3] && used[5..9] == data[5..9] && used[9..] == f.payload == Encode(f)[9..];
    SameMiddle(Encode(f), used);
  }
}
