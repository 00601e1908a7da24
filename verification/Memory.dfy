/** The target's flat physical memory and the one way it changes: a run of bytes is overwritten. */
module Memory {
  import opened Words

  type Memory = m: seq<u8> | |m| == 0x1_0000_0000 witness seq(0x1_0000_0000, _ => 0)

  /** The n bytes that start at a; the address wraps like a 32-bit pointer. */
  function Read(m: Memory, a: u32, n: nat): (r: seq<u8>)
    ensures |r| == n
  {
    seq<u8>(n, k requires 0 <= k => m[Wrap(a + k)])
  }

  function Write(m: Memory, a: u32, data: seq<u8>): (r: Memory) {
    var byteAt: int --> u8 := b requires 0 <= b < 0x1_0000_0000 =>
      if Wrap(b - a) < |data| then data[Wrap(b - a)] else m[b];
    var r := seq<u8>(0x1_0000_0000, byteAt);
    assert |r| == 0x1_0000_0000;
    r
  }

  /** The ranges [a, a+n) and [b, b+k), taken modulo 2^32, share no byte. */
  predicate Disjoint(a: u32, n: nat, b: u32, k: nat) {
    n == 0 || k == 0 || (n <= Wrap(b - a) && k <= Wrap(a - b))
  }

  predicate InRange(a: u32, n: nat, b: u32) {
    Wrap(b - a) < n
  }

  /** The byte addresses of a range, modulo 2^32. */
  function Range(a: u32, n: nat): set<u32> {
    set b: u32 | InRange(a, n, b)
  }

  /** The aligned word that holds the byte at b. */
  function WordBase(b: u32): u32 {
    b - b % 4
  }

  function LoadWord(m: Memory, a: u32): u32 {
    WordOf(Read(m, a, 4))
  }

  function StoreWord(m: Memory, a: u32, w: u32): Memory {
    Write(m, a, BytesOf(w))
  }

  predicate SameBytes(m: Memory, m': Memory, lo: int, hi: int)
    requires 0 <= lo && hi <= WORD_RANGE
  {
    forall b :: lo <= b < hi ==> m[b] == m'[b]
  }

  lemma WrittenAt(m: Memory, a: u32, data: seq<u8>, b: u32)
    ensures Write(m, a, data)[b] == if Wrap(b - a) < |data| then data[Wrap(b - a)] else m[b]
  {
  }

  /** A write inside [lo, hi) leaves a byte outside it alone. */
  lemma WriteOutside(m: Memory, a: u32, data: seq<u8>, lo: int, hi: int, b: u32)
    requires lo <= a && a + |data| <= hi <= WORD_RANGE && !(lo <= b < hi)
    ensures Write(m, a, data)[b] == m[b]
  {
    WrapDifference(b, a);
    WrittenAt(m, a, data, b);
  }

  lemma ReadWritten(m: Memory, a: u32, data: seq<u8>)
    requires |data| <= WORD_RANGE
    ensures Read(Write(m, a, data), a, |data|) == data
  {
    forall k | 0 <= k < |data| ensures Read(Write(m, a, data), a, |data|)[k] == data[k] {
      assert Wrap(Wrap(a + k) - a) == k;
    }
  }

  lemma ReadElsewhere(m: Memory, a: u32, n: nat, b: u32, data: seq<u8>)
    requires Disjoint(a, n, b, |data|) && n <= WORD_RANGE && |data| <= WORD_RANGE
    ensures Read(Write(m, b, data), a, n) == Read(m, a, n)
  {
    forall k | 0 <= k < n ensures Read(Write(m, b, data), a, n)[k] == m[Wrap(a + k)] {
      if |data| > 0 {
        OutsideRange(a, n, b, |data|, k);
      }
      assert Read(Write(m, b, data), a, n)[k] == Write(m, b, data)[Wrap(a + k)];
      assert |data| <= Wrap(Wrap(a + k) - b);
      assert Write(m, b, data)[Wrap(a + k)] == m[Wrap(a + k)];
    }
  }

  /** A byte is found again from its offset. */
  lemma AtOffset(a: u32, x: u32)
    ensures Wrap(a + Wrap(x - a)) == x
  {
    WrapDifference(x, a);
  }

  /** A byte of one of two disjoint ranges lies outside the other. */
  lemma OutsideRange(a: u32, n: nat, b: u32, size: nat, k: nat)
    requires Disjoint(a, n, b, size) && k < n <= WORD_RANGE && 0 < size <= WORD_RANGE
    ensures size <= Wrap(Wrap(a + k) - b)
  {
    var d := Wrap(a - b);
    assert Wrap(b - a) == if d == 0 then 0 else WORD_RANGE - d;
    assert Wrap(Wrap(a + k) - b) == d + k;
  }

  /** Reading on where a read stopped. */
  lemma ReadChunk(m: Memory, a: u32, n: nat, k: nat)
    ensures Read(m, a, n) + Read(m, Wrap(a + n), k) == Read(m, a, n + k)
  {
    var parts := Read(m, a, n) + Read(m, Wrap(a + n), k);
    forall i | n <= i < n + k ensures parts[i] == Read(m, a, n + k)[i] {
      WrapTwice(a, n, i - n);
    }
  }

  lemma WrapTwice(a: int, n: int, k: int)
    ensures Wrap(Wrap(a + n) + k) == Wrap(a + n + k)
  {
  }

  lemma OffsetInside(a: u32, b: u32, i: nat)
    requires i < Wrap(b - a)
    ensures Wrap(b - Plus(a, i)) == Wrap(b - a) - i
    ensures Wrap(Plus(a, i) - b) == Wrap(a - b) + i
  {
    var p := Plus(a, i);
    assert p == if a + i < WORD_RANGE then a + i else a + i - WORD_RANGE;
    hide Wrap, Plus;
    WrapDifference(b, a);
    WrapDifference(a, b);
    WrapDifference(b, p);
    WrapDifference(p, b);
  }

  lemma DisjointPart(a: u32, n: nat, b: u32, k: nat, i: nat, n': nat)
    requires Disjoint(a, n, b, k) && n <= WORD_RANGE && k <= WORD_RANGE
    requires 0 < n' && i + n' <= n && 0 < k
    ensures Disjoint(Plus(a, i), n', b, k) && Disjoint(b, k, Plus(a, i), n')
  {
    hide Plus;
    OffsetInside(a, b, i);
  }

  /** Parts of disjoint ranges are disjoint. */
  lemma DisjointParts(a: u32, n: nat, b: u32, k: nat, i: nat, n': nat, j: nat, k': nat)
    requires Disjoint(a, n, b, k) && n <= WORD_RANGE && k <= WORD_RANGE
    requires 0 < n' && i + n' <= n && 0 < k' && j + k' <= k
    ensures Disjoint(Plus(a, i), n', Plus(b, j), k')
  {
    hide Disjoint, Plus;
    DisjointPart(a, n, b, k, i, n');
    DisjointPart(b, k, Plus(a, i), n', j, k');
  }

  /** Writing back what is there changes nothing. */
  lemma WriteBack(m: Memory, a: u32, n: nat)
    requires n <= WORD_RANGE
    ensures Write(m, a, Read(m, a, n)) == m
  {
    forall b | 0 <= b < WORD_RANGE ensures Write(m, a, Read(m, a, n))[b] == m[b] {
      assert Wrap(a + Wrap(b - a)) == b;
    }
  }

  lemma LoadStored(m: Memory, a: u32, w: u32)
    ensures LoadWord(StoreWord(m, a, w), a) == w
  {
    ReadWritten(m, a, BytesOf(w));
    WordOfBytesOf(w);
  }

  lemma LoadElsewhere(m: Memory, a: u32, b: u32, data: seq<u8>)
    requires Disjoint(a, 4, b, |data|) && |data| <= WORD_RANGE
    ensures LoadWord(Write(m, b, data), a) == LoadWord(m, a)
  {
    ReadElsewhere(m, a, 4, b, data);
  }

  /** A word inside a non-wrapping range, from the bytes of that range. */
  lemma FieldOfRead(m: Memory, a: u32, n: nat, off: nat)
    requires a + n <= WORD_RANGE && off + 4 <= n
    ensures LoadWord(m, a + off) == WordOf(Read(m, a, n)[off..off + 4])
  {
    assert Read(m, a + off, 4) == Read(m, a, n)[off..off + 4];
  }

  lemma LoadOutside(m: Memory, a: u32, b: u32, data: seq<u8>)
    requires a + 4 <= WORD_RANGE && b + |data| <= WORD_RANGE && (a + 4 <= b || b + |data| <= a)
    ensures LoadWord(Write(m, b, data), a) == LoadWord(m, a)
  {
    WrapDifference(b, a);
    WrapDifference(a, b);
    LoadElsewhere(m, a, b, data);
  }

  /** A word disjoint from a region is disjoint from everything inside it. */
  lemma LoadApart(m: Memory, a: u32, lo: u32, size: nat, b: u32, data: seq<u8>)
    requires Disjoint(a, 4, lo, size) && lo <= b && b + |data| <= lo + size <= WORD_RANGE
    ensures LoadWord(Write(m, b, data), a) == LoadWord(m, a)
  {
    WrapDifference(lo, a);
    WrapDifference(a, lo);
    WrapDifference(b, a);
    WrapDifference(a, b);
    LoadElsewhere(m, a, b, data);
  }

  /** Equal bytes load as equal words. */
  lemma LoadSame(m: Memory, m': Memory, a: u32)
    requires a <= 0xFFFF_FFFC && SameBytes(m, m', a, a + 4)
    ensures LoadWord(m, a) == LoadWord(m', a)
  {
    forall k | 0 <= k < 4 ensures Read(m, a, 4)[k] == Read(m', a, 4)[k] {
      assert Wrap(a + k) == a + k;
    }
    assert Read(m, a, 4) == Read(m', a, 4);
  }
}
