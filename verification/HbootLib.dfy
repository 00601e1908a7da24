/** The byte loops of hbootlib.c over the target's memory; pointers wrap at 2^32. */
module HbootLib {
  import opened Words
  import opened Memory

  /** A store: the bytes of data go to a, a + 1, ... in order. */
  method Poke(ram: array<u8>, a: u32, data: seq<u8>)
    requires ram.Length == WORD_RANGE && |data| <= WORD_RANGE
    modifies ram
    ensures ram[..] == Write(old(ram[..]), a, data)
  {
    var i := 0;
    while i < |data|
      invariant 0 <= i <= |data|
      invariant forall b: u32 :: ram[b] == if InRange(a, i, b) then data[Wrap(b - a)] else old(ram[b])
    {
      StepUp(a, i);
      ram[Wrap(a + i)] := data[i];
      i := i + 1;
    }
    Pointwise(old(ram[..]), a, data, ram[..]);
  }

  /** One more byte at the upper end of a range. */
  lemma StepUp(a: u32, i: nat)
    requires i < WORD_RANGE
    ensures Wrap(Wrap(a + i) - a) == i
    ensures forall b: u32 :: InRange(a, i + 1, b) <==> InRange(a, i, b) || b == Wrap(a + i)
  {
    var next := Wrap(a + i);
    assert next == if a + i < WORD_RANGE then a + i else a + i - WORD_RANGE;
    forall b: u32 ensures InRange(a, i + 1, b) <==> InRange(a, i, b) || b == next {
      WrapDifference(b, a);
    }
  }

  lemma Pointwise(m: Memory, a: u32, data: seq<u8>, m': Memory)
    requires forall b: u32 :: m'[b] == if InRange(a, |data|, b) then data[Wrap(b - a)] else m[b]
    ensures m' == Write(m, a, data)
  {
    forall b | 0 <= b < WORD_RANGE ensures m'[b] == Write(m, a, data)[b] {
      WrittenAt(m, a, data, b);
    }
  }

  /** The move in the direction that the pointer comparison picks never reads a byte it has already
      overwritten. */
  predicate Movable(dest: u32, src: u32, n: nat) {
    n <= WORD_RANGE && (if dest < src then n <= Wrap(dest - src) else dest > src ==> n <= Wrap(src - dest))
  }

  /** Two ranges that end inside the address space can always be moved, however they overlap. */
  lemma InBoundsMovable(dest: u32, src: u32, n: nat)
    requires dest + n <= WORD_RANGE && src + n <= WORD_RANGE
    ensures Movable(dest, src, n)
  {
    WrapDifference(dest, src);
    WrapDifference(src, dest);
  }

  /** memmove: upwards when dest < src, downwards when dest > src, nothing when they are equal. */
  method MemMove(ram: array<u8>, dest: u32, src: u32, n: nat)
    requires ram.Length == WORD_RANGE && Movable(dest, src, n)
    modifies ram
    ensures ram[..] == Write(old(ram[..]), dest, Read(old(ram[..]), src, n))
  {
    hide Write, Wrap;
    ghost var m: Memory := ram[..];
    ghost var data := Read(m, src, n);
    if dest < src {
      var i := 0;
      while i < n
        invariant 0 <= i <= n
        invariant forall b: u32 :: ram[b] == if InRange(dest, i, b) then data[Wrap(b - dest)] else m[b]
      {
        StepUp(dest, i);
        NotYet(dest, src, i);
        ram[Wrap(dest + i)] := ram[Wrap(src + i)];
        i := i + 1;
      }
    } else if dest > src {
      var i := n;
      while i > 0
        invariant 0 <= i <= n
        invariant forall b: u32 ::
          ram[b] == if InRange(dest, n, b) && !InRange(dest, i, b) then data[Wrap(b - dest)] else m[b]
      {
        StepUp(dest, i - 1);
        NotYetDown(dest, src, n, i - 1);
        ram[Wrap(dest + (i - 1))] := ram[Wrap(src + (i - 1))];
        i := i - 1;
      }
    } else {
      WriteBack(m, src, n);
      WholeRange(m, dest, data);
    }
    Pointwise(m, dest, data, ram[..]);
  }

  lemma WholeRange(m: Memory, a: u32, data: seq<u8>)
    requires Write(m, a, data) == m
    ensures forall b: u32 :: m[b] == if InRange(a, |data|, b) then data[Wrap(b - a)] else m[b]
  {
    forall b: u32 ensures m[b] == if InRange(a, |data|, b) then data[Wrap(b - a)] else m[b] {
      WrittenAt(m, a, data, b);
    }
  }

  /** Moving upwards, byte i of the source has not been overwritten after i steps. */
  lemma NotYet(dest: u32, src: u32, i: nat)
    requires i < Wrap(dest - src)
    ensures !InRange(dest, i, Wrap(src + i))
  {
    assert Wrap(Wrap(src + i) - dest) == i + WORD_RANGE - Wrap(dest - src);
  }

  /** Moving downwards, byte i of the source has not been overwritten when only 0..i remain. */
  lemma NotYetDown(dest: u32, src: u32, n: nat, i: nat)
    requires i < n <= Wrap(src - dest) && dest != src
    ensures InRange(dest, n, Wrap(src + i)) ==> InRange(dest, i + 1, Wrap(src + i))
  {
    var d := Wrap(src - dest);
    assert d + i < WORD_RANGE ==> Wrap(Wrap(src + i) - dest) == d + i;
    assert d + i >= WORD_RANGE ==> Wrap(Wrap(src + i) - dest) == d + i - WORD_RANGE;
  }

  method MemCpy(ram: array<u8>, dest: u32, src: u32, n: nat)
    requires ram.Length == WORD_RANGE && Movable(dest, src, n)
    modifies ram
    ensures ram[..] == Write(old(ram[..]), dest, Read(old(ram[..]), src, n))
  {
    MemMove(ram, dest, src, n);
  }

  /** memset: from the last byte down to the first. */
  method MemSet(ram: array<u8>, a: u32, c: u8, n: nat)
    requires ram.Length == WORD_RANGE && n <= WORD_RANGE
    modifies ram
    ensures ram[..] == Write(old(ram[..]), a, seq<u8>(n, _ => c))
  {
    ghost var data := seq<u8>(n, _ => c);
    var i := n;
    while i > 0
      invariant 0 <= i <= n
      invariant forall b: u32 :: ram[b] == if InRange(a, n, b) && !InRange(a, i, b) then c else old(ram[b])
    {
      i := i - 1;
      StepUp(a, i);
      ram[Wrap(a + i)] := c;
    }
    Pointwise(old(ram[..]), a, data, ram[..]);
  }

  /** strlen: the number of bytes before the first NUL. */
  method StrLen(text: seq<u8>) returns (n: nat)
    requires 0 in text
    ensures n < |text| && text[n] == 0 && 0 !in text[..n]
  {
    ghost var end :| 0 <= end < |text| && text[end] == 0;
    n := 0;
    while text[n] != 0
      invariant n <= end && 0 !in text[..n]
      decreases end - n
    {
      n := n + 1;
    }
  }
}
