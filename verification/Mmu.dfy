/** Section probing and cache-line maintenance (mmu.c). */
module Mmu {
  import opened Words
  import opened Memory

  const SECTION := 0x10_0000

  /** What the probes read from the MMU: the masked TTBR0 and the control register. */
  datatype MmuRegisters = MmuRegisters(ttbr: u32, control: u32)

  function Descriptor(m: Memory, mmu: MmuRegisters, section: nat): u32 {
    LoadWord(m, Wrap(mmu.ttbr / 0x4000 * 0x4000 + 4 * section))
  }

  /** Neither the S bit (8) nor the R bit (9) of the control register is set. */
  predicate Unprotected(mmu: MmuRegisters) {
    mmu.control / 0x100 % 4 == 0
  }

  predicate Mapped(desc: u32) { desc % 4 != 0 }

  predicate HasAccess(desc: u32) { desc / 0x400 % 4 != 0 }

  predicate Readable(m: Memory, mmu: MmuRegisters, section: nat) {
    var d := Descriptor(m, mmu, section);
    Mapped(d) && (Unprotected(mmu) ==> HasAccess(d))
  }

  predicate Writable(m: Memory, mmu: MmuRegisters, section: nat) {
    var d := Descriptor(m, mmu, section);
    Mapped(d) && HasAccess(d)
  }

  /** The section count both probes compute, on 32-bit words. */
  function SectionCount(addr: u32, length: u32): nat {
    var sectionEnd := Wrap(addr + SECTION) / SECTION * SECTION;
    var room := Wrap(sectionEnd - addr);
    var rest := if length > room then length - room else length;
    (if length > room then 1 else 0) + rest / SECTION + (if rest % SECTION != 0 then 1 else 0)
  }

  predicate ProbeRead(m: Memory, mmu: MmuRegisters, addr: u32, length: u32) {
    forall sec: nat :: addr / SECTION <= sec < addr / SECTION + SectionCount(addr, length) ==> Readable(m, mmu, sec)
  }

  predicate ProbeWrite(m: Memory, mmu: MmuRegisters, addr: u32, length: u32) {
    forall sec: nat :: addr / SECTION <= sec < addr / SECTION + SectionCount(addr, length) ==> Writable(m, mmu, sec)
  }

  method MmuProbeRead(ram: array<u8>, mmu: MmuRegisters, addr: u32, length: u32) returns (ok: bool)
    requires ram.Length == WORD_RANGE
    ensures ok <==> ProbeRead(ram[..], mmu, addr, length)
  {
    hide LoadWord;
    var sectionEnd := Wrap(addr + SECTION) / SECTION * SECTION;
    var sections: nat, rest := 0, length;
    if rest > Wrap(sectionEnd - addr) {
      sections := sections + 1;
      rest := rest - Wrap(sectionEnd - addr);
    }
    sections := sections + rest / SECTION;
    if rest - rest / SECTION * SECTION != 0 {
      sections := sections + 1;
    }
    assert sections == SectionCount(addr, length);
    var i := 0;
    while i < sections
      invariant 0 <= i <= sections
      invariant forall sec: nat :: addr / SECTION <= sec < addr / SECTION + i ==> Readable(ram[..], mmu, sec)
    {
      var d := LoadWord(ram[..], Wrap(mmu.ttbr / 0x4000 * 0x4000 + 4 * (addr / SECTION + i)));
      if !Mapped(d) {
        assert !Readable(ram[..], mmu, addr / SECTION + i);
        return false;
      }
      if Unprotected(mmu) {
        if !HasAccess(d) {
          assert !Readable(ram[..], mmu, addr / SECTION + i);
          return false;
        }
      }
      assert Readable(ram[..], mmu, addr / SECTION + i);
      i := i + 1;
    }
    ok := true;
  }

  method MmuProbeWrite(ram: array<u8>, mmu: MmuRegisters, addr: u32, length: u32) returns (ok: bool)
    requires ram.Length == WORD_RANGE
    ensures ok <==> ProbeWrite(ram[..], mmu, addr, length)
  {
    hide LoadWord;
    var sectionEnd := Wrap(addr + SECTION) / SECTION * SECTION;
    var sections: nat, rest := 0, length;
    if rest > Wrap(sectionEnd - addr) {
      sections := sections + 1;
      rest := rest - Wrap(sectionEnd - addr);
    }
    sections := sections + rest / SECTION;
    if rest - rest / SECTION * SECTION != 0 {
      sections := sections + 1;
    }
    assert sections == SectionCount(addr, length);
    var i := 0;
    while i < sections
      invariant 0 <= i <= sections
      invariant forall sec: nat :: addr / SECTION <= sec < addr / SECTION + i ==> Writable(ram[..], mmu, sec)
    {
      var d := LoadWord(ram[..], Wrap(mmu.ttbr / 0x4000 * 0x4000 + 4 * (addr / SECTION + i)));
      if !Mapped(d) {
        assert !Writable(ram[..], mmu, addr / SECTION + i);
        return false;
      }
      if !HasAccess(d) {
        assert !Writable(ram[..], mmu, addr / SECTION + i);
        return false;
      }
      assert Writable(ram[..], mmu, addr / SECTION + i);
      i := i + 1;
    }
    ok := true;
  }

  /** The visited sections are exactly those that hold a byte of the range, the last one included. */
  lemma SectionsVisited(addr: u32, length: u32, section: nat)
    requires addr + length <= WORD_RANGE
    ensures addr / SECTION <= section < addr / SECTION + SectionCount(addr, length)
       <==> exists b :: addr <= b < addr + length && b / SECTION == section
  {
    var first, n := addr / SECTION, SectionCount(addr, length);
    var room := SECTION - addr % SECTION;
    assert Wrap(Wrap(addr + SECTION) / SECTION * SECTION - addr) == room;
    assert length > 0 ==> n == (addr + length - 1) / SECTION - first + 1;
    if first <= section < first + n {
      var b := if section == first then addr else section * SECTION;
      assert addr <= b < addr + length && b / SECTION == section;
    }
  }

  /** A read probe succeeds iff every byte of the range is readable. */
  lemma ProbeReadExact(m: Memory, mmu: MmuRegisters, addr: u32, length: u32)
    requires addr + length <= WORD_RANGE
    ensures ProbeRead(m, mmu, addr, length)
       <==> forall b :: addr <= b < addr + length ==> Readable(m, mmu, b / SECTION)
  {
    hide SectionCount, Readable, Writable;
    var first, n := addr / SECTION, SectionCount(addr, length);
    if ProbeRead(m, mmu, addr, length) {
      forall b | addr <= b < addr + length ensures Readable(m, mmu, b / SECTION) {
        SectionsVisited(addr, length, b / SECTION);
      }
    }
    if forall b :: addr <= b < addr + length ==> Readable(m, mmu, b / SECTION) {
      forall sec: nat | first <= sec < first + n ensures Readable(m, mmu, sec) {
        SectionsVisited(addr, length, sec);
      }
    }
  }

  lemma ProbeWriteExact(m: Memory, mmu: MmuRegisters, addr: u32, length: u32)
    requires addr + length <= WORD_RANGE
    ensures ProbeWrite(m, mmu, addr, length)
       <==> forall b :: addr <= b < addr + length ==> Writable(m, mmu, b / SECTION)
  {
    hide SectionCount, Readable, Writable;
    var first, n := addr / SECTION, SectionCount(addr, length);
    if ProbeWrite(m, mmu, addr, length) {
      forall b | addr <= b < addr + length ensures Writable(m, mmu, b / SECTION) {
        SectionsVisited(addr, length, b / SECTION);
      }
    }
    if forall b :: addr <= b < addr + length ==> Writable(m, mmu, b / SECTION) {
      forall sec: nat | first <= sec < first + n ensures Writable(m, mmu, sec) {
        SectionsVisited(addr, length, sec);
      }
    }
  }

  /** A probe of a concatenated range is the conjunction of the probes of its parts. */
  lemma ProbeReadSplits(m: Memory, mmu: MmuRegisters, addr: u32, first: u32, second: u32)
    requires first + second < WORD_RANGE && addr + first < WORD_RANGE && addr + first + second <= WORD_RANGE
    ensures ProbeRead(m, mmu, addr, first + second)
       <==> ProbeRead(m, mmu, addr, first) && ProbeRead(m, mmu, addr + first, second)
  {
    ProbeReadExact(m, mmu, addr, first + second);
    ProbeReadExact(m, mmu, addr, first);
    ProbeReadExact(m, mmu, addr + first, second);
  }

  lemma WriteProbeImpliesRead(m: Memory, mmu: MmuRegisters, addr: u32, length: u32)
    requires ProbeWrite(m, mmu, addr, length)
    ensures ProbeRead(m, mmu, addr, length)
  {
    hide SectionCount, Descriptor;
    var first := addr / SECTION;
    forall sec: nat | first <= sec < first + SectionCount(addr, length) ensures Readable(m, mmu, sec) {
      assert Writable(m, mmu, sec);
    }
  }

  lemma SameProbes(m: Memory, mmu: MmuRegisters, addr: u32, length: u32)
    requires Unprotected(mmu)
    ensures ProbeRead(m, mmu, addr, length) <==> ProbeWrite(m, mmu, addr, length)
  {
    hide SectionCount, Descriptor, Mapped, HasAccess;
    var first, n := addr / SECTION, SectionCount(addr, length);
    if ProbeRead(m, mmu, addr, length) {
      forall sec: nat | first <= sec < first + n ensures Writable(m, mmu, sec) {
        assert Readable(m, mmu, sec);
      }
    }
    if ProbeWrite(m, mmu, addr, length) {
      WriteProbeImpliesRead(m, mmu, addr, length);
    }
  }

  /** Every section mapped, none accessible: 0x02020202 is a section without access permission. */
  function NoAccess(): Memory {
    seq<u8>(WORD_RANGE, _ => 2)
  }

  lemma Everywhere(a: u32)
    ensures NoAccess()[a] == 2
  {
  }

  lemma NoAccessDescriptor(mmu: MmuRegisters, section: nat)
    ensures Descriptor(NoAccess(), mmu, section) == 0x0202_0202
    ensures !Writable(NoAccess(), mmu, section) && (!Unprotected(mmu) ==> Readable(NoAccess(), mmu, section))
  {
    var a := Wrap(mmu.ttbr / 0x4000 * 0x4000 + 4 * section);
    var r, twos: seq<u8> := Read(NoAccess(), a, 4), [2, 2, 2, 2];
    forall k | 0 <= k < 4 ensures r[k] == twos[k] {
      Everywhere(Wrap(a + k));
    }
    assert r == twos;
  }

  lemma FirstByteProbed()
    ensures SectionCount(0, 1) == 1
  {
  }

  /** A read probe that passes is enough for a write, whatever the translation table and the range,
      iff the system and ROM protection bits are both clear. */
  lemma ReadProbeSufficesForWrite(mmu: MmuRegisters)
    ensures (forall m: Memory, addr: u32, length: u32 ::
               ProbeRead(m, mmu, addr, length) ==> ProbeWrite(m, mmu, addr, length))
       <==> Unprotected(mmu)
  {
    if Unprotected(mmu) {
      forall m: Memory, addr: u32, length: u32 | ProbeRead(m, mmu, addr, length)
        ensures ProbeWrite(m, mmu, addr, length)
      {
        SameProbes(m, mmu, addr, length);
      }
    } else {
      hide Readable, Writable, SectionCount, Unprotected;
      NoAccessDescriptor(mmu, 0);
      FirstByteProbed();
      assert ProbeRead(NoAccess(), mmu, 0, 1) && !ProbeWrite(NoAccess(), mmu, 0, 1);
    }
  }

  // ---- The probes by the fields of the descriptors

  /** mmu_section_descriptor, from the lowest bit up. */
  datatype Section = Section(kind: int, b: int, c: int, xn: int, domain: int, imp: int, ap: int, tex: int, apx: int,
                             s: int, ng: int, supersection: int, sbz: int, base: int)

  predicate ValidSection(f: Section) {
    && 0 <= f.kind < 4 && 0 <= f.b < 2 && 0 <= f.c < 2 && 0 <= f.xn < 2 && 0 <= f.domain < 16 && 0 <= f.imp < 2
    && 0 <= f.ap < 4 && 0 <= f.tex < 8 && 0 <= f.apx < 2 && 0 <= f.s < 2 && 0 <= f.ng < 2 && 0 <= f.supersection < 2
    && 0 <= f.sbz < 2 && 0 <= f.base < 0x1000
  }

  /** The word in which the compiler lays the fields out. */
  function SectionWord(f: Section): (w: int)
    requires ValidSection(f)
    ensures 0 <= w < WORD_RANGE
  {
    f.kind + f.b * 4 + f.c * 8 + f.xn * 0x10 + f.domain * 0x20 + f.imp * 0x200 + f.ap * 0x400 + f.tex * 0x1000 +
    f.apx * 0x8000 + f.s * 0x1_0000 + f.ng * 0x2_0000 + f.supersection * 0x4_0000 + f.sbz * 0x8_0000 +
    f.base * 0x10_0000
  }

  /** A section is mapped unless its type is 0, and accessible unless its AP bits are 0. */
  lemma DescriptorBits(f: Section)
    requires ValidSection(f)
    ensures Mapped(SectionWord(f)) <==> f.kind != 0
    ensures HasAccess(SectionWord(f)) <==> f.ap != 0
  {
    var low := f.b + f.c * 2 + f.xn * 4 + f.domain * 8 + f.imp * 0x80;
    var high := f.tex + f.apx * 8 + f.s * 0x10 + f.ng * 0x20 + f.supersection * 0x40 + f.sbz * 0x80 + f.base * 0x100;
    assert 0 <= low < 0x100 && SectionWord(f) == f.kind + 4 * low + 0x400 * f.ap + 0x1000 * high;
    BitsOfDescriptor(f.kind, low, f.ap, high);
  }

  lemma BitsOfDescriptor(kind: int, low: int, ap: int, high: int)
    requires 0 <= kind < 4 && 0 <= low < 0x100 && 0 <= ap < 4 && 0 <= high
    requires kind + 4 * low + 0x400 * ap + 0x1000 * high < WORD_RANGE
    ensures var d := kind + 4 * low + 0x400 * ap + 0x1000 * high;
            (Mapped(d) <==> kind != 0) && (HasAccess(d) <==> ap != 0)
  {
    var d := kind + 4 * low + 0x400 * ap + 0x1000 * high;
    assert d % 4 == kind;
    assert d / 0x400 == ap + 4 * high;
  }

  /** The protection bits are bits 8 and 9 of the control register. */
  lemma ControlBits(mmu: MmuRegisters, low: int, system: int, rom: int, high: int)
    requires 0 <= low < 0x100 && 0 <= system < 2 && 0 <= rom < 2 && 0 <= high
    requires mmu.control == low + system * 0x100 + rom * 0x200 + high * 0x400
    ensures Unprotected(mmu) <==> system == 0 && rom == 0
  {
    assert mmu.control / 0x100 == system + 2 * rom + 4 * high;
  }

  lemma ProtectionBits(mmu: MmuRegisters)
    ensures Unprotected(mmu) <==> mmu.control / 0x100 % 2 == 0 && mmu.control / 0x200 % 2 == 0
  {
    var c := mmu.control;
    assert c / 0x200 == c / 0x100 / 2 && c / 0x400 == c / 0x200 / 2;
    ControlBits(mmu, c % 0x100, c / 0x100 % 2, c / 0x200 % 2, c / 0x400);
  }

  /** Descriptor k of the table at the 16 KB boundary below TTBR0 is its k-th word. */
  ghost predicate TableHolds(m: Memory, mmu: MmuRegisters, sections: seq<Section>) {
    && |sections| == 0x1000 && (forall k :: 0 <= k < 0x1000 ==> ValidSection(sections[k]))
    && forall k :: 0 <= k < 0x1000 ==>
         Read(m, Wrap(mmu.ttbr - mmu.ttbr % 0x4000 + 4 * k), 4) == BytesOf(SectionWord(sections[k]))
  }

  lemma DescriptorOfTable(m: Memory, mmu: MmuRegisters, sections: seq<Section>, k: nat)
    requires TableHolds(m, mmu, sections) && k < 0x1000
    ensures Descriptor(m, mmu, k) == SectionWord(sections[k])
  {
    assert mmu.ttbr - mmu.ttbr % 0x4000 == mmu.ttbr / 0x4000 * 0x4000;
    hide Read, SectionWord, BytesOf, WordOf, Wrap;
    WordOfBytesOf(SectionWord(sections[k]));
  }

  /** A range may be read iff every section it meets is mapped and has AP bits or one of the two
      protection bits is set. */
  lemma ProbeReadByFields(m: Memory, mmu: MmuRegisters, sections: seq<Section>, addr: u32, length: u32)
    requires TableHolds(m, mmu, sections) && addr + length <= WORD_RANGE
    ensures ProbeRead(m, mmu, addr, length) <==>
            forall b :: addr <= b < addr + length ==>
                          sections[b / SECTION].kind != 0 &&
                          (sections[b / SECTION].ap != 0 || mmu.control / 0x100 % 2 == 1 || mmu.control / 0x200 % 2 == 1)
  {
    assert |sections| == 0x1000;
    ProtectionBits(mmu);
    hide ProbeRead, TableHolds, Descriptor, Mapped, HasAccess, Unprotected;
    ProbeReadExact(m, mmu, addr, length);
    forall b | addr <= b < addr + length
      ensures 0 <= b / SECTION < 0x1000
      ensures Readable(m, mmu, b / SECTION) <==>
              (sections[b / SECTION].kind != 0 && (sections[b / SECTION].ap != 0 || !Unprotected(mmu)))
    {
      SectionOfByte(m, mmu, sections, b);
    }
  }

  /** It may be written iff every section it meets is mapped and has AP bits. */
  lemma ProbeWriteByFields(m: Memory, mmu: MmuRegisters, sections: seq<Section>, addr: u32, length: u32)
    requires TableHolds(m, mmu, sections) && addr + length <= WORD_RANGE
    ensures ProbeWrite(m, mmu, addr, length) <==>
            forall b :: addr <= b < addr + length ==> sections[b / SECTION].kind != 0 && sections[b / SECTION].ap != 0
  {
    assert |sections| == 0x1000;
    hide ProbeWrite, TableHolds, Descriptor, Mapped, HasAccess;
    ProbeWriteExact(m, mmu, addr, length);
    forall b | addr <= b < addr + length
      ensures 0 <= b / SECTION < 0x1000
      ensures Writable(m, mmu, b / SECTION) <==> (sections[b / SECTION].kind != 0 && sections[b / SECTION].ap != 0)
    {
      SectionOfByte(m, mmu, sections, b);
    }
  }

  lemma SectionOfByte(m: Memory, mmu: MmuRegisters, sections: seq<Section>, b: u32)
    requires TableHolds(m, mmu, sections)
    ensures |sections| == 0x1000 && 0 <= b / SECTION < 0x1000
    ensures var d := Descriptor(m, mmu, b / SECTION);
            (Mapped(d) <==> sections[b / SECTION].kind != 0) && (HasAccess(d) <==> sections[b / SECTION].ap != 0)
  {
    hide Read, SectionWord, Descriptor;
    DescriptorOfTable(m, mmu, sections, b / SECTION);
    DescriptorBits(sections[b / SECTION]);
  }

  // ---- Cache lines

  /** 1 << (len + 3), for the two-bit length field of the cache type register. */
  predicate IsLineSize(size: int) {
    size == 8 || size == 16 || size == 32 || size == 64
  }

  function LineOf(a: u32, lineSize: int): u32
    requires IsLineSize(lineSize)
  {
    a - a % lineSize
  }

  /** The loop of both range invalidations stops: the line after the last one still has an address. */
  predicate LoopStops(addr: u32, size: u32, lineSize: int)
    requires IsLineSize(lineSize)
  {
    Wrap(addr + size) <= WORD_RANGE - lineSize
  }

  /** mmu_invalidate_dcache_range and mmu_invalidate_icache_range, which differ only in the cache
      whose line size they use; `lines` lists the lines given to the coprocessor, in order. */
  method InvalidateRange(addr: u32, size: u32, lineSize: int) returns (lines: seq<u32>)
    requires IsLineSize(lineSize) && LoopStops(addr, size, lineSize)
    ensures forall k :: 0 <= k < |lines| ==> lines[k] == LineOf(addr, lineSize) + k * lineSize
    ensures addr + size < WORD_RANGE && size > 0 ==>
      forall a: u32 :: a in lines <==> exists b :: addr <= b < addr + size && LineOf(b, lineSize) == a
  {
    lines := [];
    var end := Wrap(addr + size);
    var line := LineOf(addr, lineSize);
    while line < end
      invariant line == LineOf(addr, lineSize) + |lines| * lineSize
      invariant forall k :: 0 <= k < |lines| ==> lines[k] == LineOf(addr, lineSize) + k * lineSize
      invariant forall k :: 0 <= k < |lines| ==> lines[k] < end
      decreases end - line
    {
      lines := lines + [line];
      line := Wrap(line + lineSize);
    }
    if addr + size < WORD_RANGE && size > 0 {
      LinesCover(addr, size, lineSize, lines);
    }
  }

  lemma LinesCover(addr: u32, size: u32, lineSize: int, lines: seq<u32>)
    requires IsLineSize(lineSize) && addr + size < WORD_RANGE && size > 0
    requires forall k :: 0 <= k < |lines| ==> lines[k] == LineOf(addr, lineSize) + k * lineSize
    requires forall k :: 0 <= k < |lines| ==> lines[k] < addr + size
    requires addr + size <= LineOf(addr, lineSize) + |lines| * lineSize
    ensures forall a: u32 :: a in lines <==> exists b :: addr <= b < addr + size && LineOf(b, lineSize) == a
  {
    var start := LineOf(addr, lineSize);
    forall a: u32 | a in lines ensures exists b :: addr <= b < addr + size && LineOf(b, lineSize) == a {
      var k :| 0 <= k < |lines| && lines[k] == a;
      LineOfMultiple(addr, k, lineSize);
      var b := if k == 0 then addr else a;
      assert LineOf(b, lineSize) == a;
    }
    forall b | addr <= b < addr + size ensures LineOf(b, lineSize) in lines {
      var k := b / lineSize - addr / lineSize;
      LineIndex(addr, b, lineSize);
      assert lines[k] == LineOf(b, lineSize);
    }
  }

  lemma LineIsMultiple(a: u32, lineSize: int)
    requires IsLineSize(lineSize)
    ensures LineOf(a, lineSize) == a / lineSize * lineSize
  {
    if lineSize == 8 {
    } else if lineSize == 16 {
    } else if lineSize == 32 {
    } else {
    }
  }

  lemma MultiplesOf(n: int)
    ensures n * 8 % 8 == 0 && n * 16 % 16 == 0 && n * 32 % 32 == 0 && n * 64 % 64 == 0
  {
  }

  lemma MultipleIsLine(n: int, lineSize: int)
    requires IsLineSize(lineSize)
    ensures n * lineSize % lineSize == 0
  {
    MultiplesOf(n);
    if lineSize == 8 {
      assert n * lineSize == n * 8;
    } else if lineSize == 16 {
      assert n * lineSize == n * 16;
    } else if lineSize == 32 {
      assert n * lineSize == n * 32;
    } else {
      assert n * lineSize == n * 64;
    }
  }

  lemma Distribute(n: int, k: int, lineSize: int)
    ensures (n + k) * lineSize == n * lineSize + k * lineSize
  {
  }

  lemma LineOfMultiple(addr: u32, k: nat, lineSize: int)
    requires IsLineSize(lineSize) && LineOf(addr, lineSize) + k * lineSize < WORD_RANGE
    ensures LineOf(LineOf(addr, lineSize) + k * lineSize, lineSize) == LineOf(addr, lineSize) + k * lineSize
  {
    LineIsMultiple(addr, lineSize);
    Distribute(addr / lineSize, k, lineSize);
    MultipleIsLine(addr / lineSize + k, lineSize);
  }

  lemma LineIndex(addr: u32, b: u32, lineSize: int)
    requires IsLineSize(lineSize) && addr <= b
    ensures var k := b / lineSize - addr / lineSize;
            k >= 0 && LineOf(b, lineSize) == LineOf(addr, lineSize) + k * lineSize
  {
    LineIsMultiple(addr, lineSize);
    LineIsMultiple(b, lineSize);
    Distribute(addr / lineSize, b / lineSize - addr / lineSize, lineSize);
    LinesOrdered(addr, b, lineSize);
    hide LineOf;
  }

  lemma LinesOrdered(addr: u32, b: u32, lineSize: int)
    requires IsLineSize(lineSize) && addr <= b
    ensures addr / lineSize <= b / lineSize
  {
    if lineSize == 8 {
    } else if lineSize == 16 {
    } else if lineSize == 32 {
    } else {
    }
  }

  /** The line pointer after k rounds of the loop, as the 32-bit pointer it is. */
  function LineAfter(addr: u32, k: nat, lineSize: int): u32
    requires IsLineSize(lineSize)
  {
    Wrap(LineOf(addr, lineSize) + k * lineSize)
  }

  /** For a non-empty range below the top of memory the loop ends iff the end is not in the last line. */
  lemma LoopStopsExactly(addr: u32, size: u32, lineSize: int)
    requires IsLineSize(lineSize) && addr + size < WORD_RANGE
    ensures LoopStops(addr, size, lineSize) <==> exists k: nat :: LineAfter(addr, k, lineSize) >= addr + size
  {
    if LoopStops(addr, size, lineSize) {
      LoopReaches(addr, size, lineSize);
    } else {
      forall k: nat ensures LineAfter(addr, k, lineSize) < addr + size {
        LineAligned(addr, k, lineSize);
      }
    }
  }

  lemma LoopReaches(addr: u32, size: u32, lineSize: int)
    requires IsLineSize(lineSize) && addr + size <= WORD_RANGE - lineSize
    ensures exists k: nat :: LineAfter(addr, k, lineSize) >= addr + size
  {
    var start := LineOf(addr, lineSize);
    assert start % lineSize == 0 by {
      LineIsMultiple(addr, lineSize);
      MultipleIsLine(addr / lineSize, lineSize);
    }
    LastLine(start, lineSize);
    var k: nat := Rounds(start, lineSize);
    hide LineOf, Rounds;
    assert LineAfter(addr, k, lineSize) == WORD_RANGE - lineSize;
  }

  /** How many lines lie between start and the last line of memory. */
  function Rounds(start: u32, lineSize: int): int
    requires IsLineSize(lineSize)
  {
    (WORD_RANGE - lineSize - start) / lineSize
  }

  lemma LastLine(start: u32, lineSize: int)
    requires IsLineSize(lineSize) && start % lineSize == 0
    ensures start <= WORD_RANGE - lineSize && Rounds(start, lineSize) >= 0
    ensures start + Rounds(start, lineSize) * lineSize == WORD_RANGE - lineSize
  {
    if lineSize == 8 {
      LastLine8(start);
    } else if lineSize == 16 {
      LastLine16(start);
    } else if lineSize == 32 {
      LastLine32(start);
    } else {
      LastLine64(start);
    }
  }

  lemma LastLine8(start: u32)
    requires start % 8 == 0
    ensures start <= WORD_RANGE - 8 && Rounds(start, 8) >= 0 && start + Rounds(start, 8) * 8 == WORD_RANGE - 8
  {
  }

  lemma LastLine16(start: u32)
    requires start % 16 == 0
    ensures start <= WORD_RANGE - 16 && Rounds(start, 16) >= 0 && start + Rounds(start, 16) * 16 == WORD_RANGE - 16
  {
  }

  lemma LastLine32(start: u32)
    requires start % 32 == 0
    ensures start <= WORD_RANGE - 32 && Rounds(start, 32) >= 0 && start + Rounds(start, 32) * 32 == WORD_RANGE - 32
  {
  }

  lemma LastLine64(start: u32)
    requires start % 64 == 0
    ensures start <= WORD_RANGE - 64 && Rounds(start, 64) >= 0 && start + Rounds(start, 64) * 64 == WORD_RANGE - 64
  {
  }

  lemma LineAligned(addr: u32, k: nat, lineSize: int)
    requires IsLineSize(lineSize)
    ensures LineAfter(addr, k, lineSize) <= WORD_RANGE - lineSize
  {
    LineIsMultiple(addr, lineSize);
    Distribute(addr / lineSize, k, lineSize);
    hide LineOf;
    WrappedMultiple(addr / lineSize + k, lineSize);
  }

  lemma WrappedMultiple(n: int, lineSize: int)
    requires IsLineSize(lineSize)
    ensures Wrap(n * lineSize) <= WORD_RANGE - lineSize
  {
    hide Wrap;
    if lineSize == 8 {
      Wrapped8(n);
    } else if lineSize == 16 {
      Wrapped16(n);
    } else if lineSize == 32 {
      Wrapped32(n);
    } else {
      Wrapped64(n);
    }
  }

  lemma Wrapped8(n: int)
    ensures Wrap(n * 8) <= WORD_RANGE - 8
  {
    assert Wrap(n * 8) == 8 * (n % (WORD_RANGE / 8));
  }

  lemma Wrapped16(n: int)
    ensures Wrap(n * 16) <= WORD_RANGE - 16
  {
    assert Wrap(n * 16) == 16 * (n % (WORD_RANGE / 16));
  }

  lemma Wrapped32(n: int)
    ensures Wrap(n * 32) <= WORD_RANGE - 32
  {
    assert Wrap(n * 32) == 32 * (n % (WORD_RANGE / 32));
  }

  lemma Wrapped64(n: int)
    ensures Wrap(n * 64) <= WORD_RANGE - 64
  {
    assert Wrap(n * 64) == 64 * (n % (WORD_RANGE / 64));
  }
}
