/** Shared vocabulary: options, bytes and 32-bit words in network byte order. */
module Common {
  datatype Option<+T> = None | Some(value: T)

  newtype Byte = x: int | 0 <= x < 256

  type Bytes = seq<Byte>

  newtype Word = x: int | 0 <= x < 0x1_0000_0000

  // `to_be_bytes` and `from_be_bytes` of a 32-bit word.
  function ToBe(w: Word): (b: Bytes)
    ensures |b| == 4 && FromBe(b) == w
  {
    var n := w as int;
    var n1 := n / 0x100;
    var n2 := n1 / 0x100;
    var n3 := n2 / 0x100;
    [n3 as Byte, (n2 % 0x100) as Byte, (n1 % 0x100) as Byte, (n % 0x100) as Byte]
  }

  function FromBe(b: Bytes): Word
    requires |b| == 4
  {
    (b[0] as int * 0x100_0000 + b[1] as int * 0x1_0000 + b[2] as int * 0x100 + b[3] as int) as Word
  }

  /** The first byte is the highest. */
  lemma NetworkOrder(w: Word)
    ensures var b := ToBe(w);
      b[0] as int * 0x100_0000 + b[1] as int * 0x1_0000 + b[2] as int * 0x100 + b[3] as int == w as int
  {
  }

  lemma BeInverse(b: Bytes)
    requires |b| == 4
    ensures ToBe(FromBe(b)) == b
  {
    var n1 := FromBe(b) as int / 0x100;
    assert n1 == b[0] as int * 0x1_0000 + b[1] as int * 0x100 + b[2] as int;
    assert n1 / 0x100 == b[0] as int * 0x100 + b[1] as int;
  }
}
