/** Bytes and 32-bit machine words as bounded integers, with the wrap-around written out. */
module Words {
  type u8 = x: int | 0 <= x < 0x100
  type u32 = x: int | 0 <= x < 0x1_0000_0000

  const WORD_RANGE := 0x1_0000_0000

  /** What is left of an unbounded result when it is stored in 32 bits. */
  function Wrap(x: int): u32 {
    x % 0x1_0000_0000
  }

  /** The 32-bit address n bytes above a, or below it for a negative n. */
  function Plus(a: int, n: int): u32 {
    Wrap(a + n)
  }

  lemma PlusPlus(a: int, n: int, k: int)
    ensures Plus(Plus(a, n), k) == Plus(a, n + k)
  {
  }

  lemma LowBits(k: int, c: nat)
    ensures (0x20 * k + c) % 0x20 == c % 0x20
  {
  }

  lemma WrapDifference(b: u32, a: u32)
    ensures Wrap(b - a) == if a <= b then b - a else b - a + WORD_RANGE
  {
  }

  /** Little-endian bytes of a word, the order in which the target stores it. */
  function BytesOf(w: u32): (b: seq<u8>)
    ensures |b| == 4
  {
    [w % 0x100, w / 0x100 % 0x100, w / 0x1_0000 % 0x100, w / 0x100_0000]
  }

  function WordOf(b: seq<u8>): u32
    requires |b| == 4
  {
    var b0: int, b1: int, b2: int, b3: int := b[0], b[1], b[2], b[3];
    b0 + 0x100 * b1 + 0x1_0000 * b2 + 0x100_0000 * b3
  }

  lemma WordOfBytesOf(w: u32)
    ensures WordOf(BytesOf(w)) == w
  {
    var q := w / 0x100;
    assert w / 0x1_0000 == q / 0x100 && w / 0x100_0000 == q / 0x100 / 0x100;
  }

  lemma BytesOfWordOf(b: seq<u8>)
    requires |b| == 4
    ensures BytesOf(WordOf(b)) == b
  {
    var w := WordOf(b);
    var b1: int, b2: int, b3: int := b[1], b[2], b[3];
    assert w / 0x100 == b1 + 0x100 * b2 + 0x1_0000 * b3;
    assert w / 0x1_0000 == b2 + 0x100 * b3;
  }

  /** The byte with the lowest weight comes first. */
  lemma LittleEndian(w: u32)
    ensures var b0: int, b1: int, b2: int, b3: int := BytesOf(w)[0], BytesOf(w)[1], BytesOf(w)[2], BytesOf(w)[3];
            w == b0 + 0x100 * b1 + 0x1_0000 * b2 + 0x100_0000 * b3
  {
    hide BytesOf;
    WordOfBytesOf(w);
  }

  /** The bytes of a text in ASCII. */
  function Ascii(text: string): (b: seq<u8>)
    requires forall i :: 0 <= i < |text| ==> text[i] < 128 as char
    ensures |b| == |text| && forall i :: 0 <= i < |text| ==> b[i] == text[i] as int
  {
    seq<u8>(|text|, i requires 0 <= i < |text| => text[i] as int)
  }
}
