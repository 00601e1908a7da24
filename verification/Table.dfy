/** The breakpoint table as it lies in memory, and what each debugger routine does to memory.

    `status` is one static struct of 1292 bytes: the flag byte at 0, sixty-four 20-byte slots from
    4 on, `bp_size` at 1284 and `continue_address` at 1288. A slot holds the type byte at 0, the
    patched address at 4, the overwritten word at 8, the branch back at 12 and the enabled byte
    at 16. The two words at 8 and 12 are code: execution resumes there. */
module Table {
  import opened Words
  import opened Memory
  import opened Branch

  const NBR_POINTS := 64
  const STATUS_SIZE := 1292
  const ARM_BKPT: u32 := 0xe120_0070

  datatype ErrorCode = Success | UnknownCmd | BreakpointAlreadyExists | NoBreakpoint | NoMemoryAvailable | UnmappedMemory

  function ErrorByte(e: ErrorCode): u8 {
    match e
    case Success => 0
    case UnknownCmd => 1
    case BreakpointAlreadyExists => 4
    case NoBreakpoint => 5
    case NoMemoryAvailable => 6
    case UnmappedMemory => 7
  }

  datatype Entry = Entry(kind: u8, address: u32, saved: u32, back: u32, enabled: u8)

  predicate ValidStatus(s: u32) {
    s % 4 == 0 && s + STATUS_SIZE <= WORD_RANGE
  }

  predicate InStatus(s: u32, b: u32) {
    s <= b < s + STATUS_SIZE
  }

  function SlotAt(s: u32, i: nat): u32
    requires ValidStatus(s) && i < NBR_POINTS
  {
    s + 4 + 20 * i
  }

  function BpSize(m: Memory, s: u32): u32
    requires ValidStatus(s)
  {
    LoadWord(m, s + 1284)
  }

  function ContinueAddress(m: Memory, s: u32): u32
    requires ValidStatus(s)
  {
    LoadWord(m, s + 1288)
  }

  function EntryAt(m: Memory, s: u32, i: nat): Entry
    requires ValidStatus(s) && i < NBR_POINTS
  {
    var a := SlotAt(s, i);
    Entry(m[a], LoadWord(m, a + 4), LoadWord(m, a + 8), LoadWord(m, a + 12), m[a + 16])
  }

  predicate TableOk(m: Memory, s: u32) {
    ValidStatus(s) && BpSize(m, s) <= NBR_POINTS
  }

  /** The live entries, in slot order. */
  function Entries(m: Memory, s: u32): (es: seq<Entry>)
    requires TableOk(m, s)
    ensures |es| == BpSize(m, s)
  {
    seq(BpSize(m, s), i requires 0 <= i < BpSize(m, s) => EntryAt(m, s, i))
  }

  /** The first entry that patches address a, or |es|. */
  function IndexOf(es: seq<Entry>, a: u32): (k: nat)
    ensures k <= |es|
    ensures k < |es| ==> es[k].address == a
    ensures forall j :: 0 <= j < k ==> es[j].address != a
  {
    if es == [] || es[0].address == a then 0 else 1 + IndexOf(es[1..], a)
  }

  predicate Distinct(es: seq<Entry>) {
    forall i, j :: 0 <= i < j < |es| ==> es[i].address != es[j].address
  }

  /** No live patch lies on the table itself and no address is patched twice. */
  predicate WellFormed(m: Memory, s: u32) {
    && TableOk(m, s)
    && Distinct(Entries(m, s))
    && forall i :: 0 <= i < BpSize(m, s) ==> Disjoint(Entries(m, s)[i].address, 4, s, STATUS_SIZE)
  }

  // ---- What the routines do to memory

  /** The stores of insert_breakpoint into the fields of the slot at a, in program order. The word
      at addr is read after the first three of them. */
  function FillFields(m: Memory, a: u32, addr: u32, kind: u8): Memory
    requires a + 20 <= WORD_RANGE
  {
    var m2 := Write(m, a, [kind]);
    var m3 := StoreWord(m2, a + 4, addr);
    var m4 := Write(m3, a + 16, [1]);
    var m5 := StoreWord(m4, a + 8, LoadWord(m4, addr));
    StoreWord(m5, a + 12, GetBranch(a + 12, Wrap(addr + 4)))
  }

  /** alloc_breakpoint takes slot n, then the slot is filled. */
  function FillSlot(m: Memory, s: u32, n: nat, addr: u32, kind: u8): Memory
    requires ValidStatus(s) && n < NBR_POINTS
  {
    FillFields(StoreWord(m, s + 1284, n + 1), SlotAt(s, n), addr, kind)
  }

  function Insert(m: Memory, s: u32, addr: u32, kind: u8): (Memory, ErrorCode)
    requires TableOk(m, s)
  {
    var n := BpSize(m, s);
    if IndexOf(Entries(m, s), addr) < n then (m, BreakpointAlreadyExists)
    else if n >= NBR_POINTS then (m, NoMemoryAvailable)
    else (StoreWord(FillSlot(m, s, n, addr, kind), addr, ARM_BKPT), Success)
  }

  /** free_breakpoint(&bp[k]): the last slot is copied over the first slot with the same address. */
  function Free(m: Memory, s: u32, k: nat): Memory
    requires TableOk(m, s) && k < BpSize(m, s)
  {
    var n := BpSize(m, s);
    var j := IndexOf(Entries(m, s), EntryAt(m, s, k).address);
    if j < n then
      var m1 := Write(m, SlotAt(s, j), Read(m, SlotAt(s, n - 1), 20));
      StoreWord(m1, s + 1284, n - 1)
    else m
  }

  function Remove(m: Memory, s: u32, addr: u32): (Memory, ErrorCode)
    requires WellFormed(m, s)
  {
    var k := IndexOf(Entries(m, s), addr);
    if k == BpSize(m, s) then (m, NoBreakpoint)
    else
      var m1 := StoreWord(m, addr, EntryAt(m, s, k).saved);
      TableUntouched(m, s, addr, BytesOf(EntryAt(m, s, k).saved));
      (Free(m1, s, k), Success)
  }

  /** dbg_init: the whole struct is set to zero. */
  function Clear(m: Memory, s: u32): Memory
    requires ValidStatus(s)
  {
    Write(m, s, seq<u8>(STATUS_SIZE, _ => 0))
  }

  // ---- Their effect on the table

  lemma EntrySame(m: Memory, m': Memory, s: u32, i: nat)
    requires ValidStatus(s) && i < NBR_POINTS
    requires SameBytes(m, m', SlotAt(s, i), SlotAt(s, i) + 20)
    ensures EntryAt(m, s, i) == EntryAt(m', s, i)
  {
    var a := SlotAt(s, i);
    LoadSame(m, m', a + 4);
    LoadSame(m, m', a + 8);
    LoadSame(m, m', a + 12);
  }

  /** A write that misses the struct leaves every field of it alone. */
  lemma TableUntouched(m: Memory, s: u32, a: u32, data: seq<u8>)
    requires ValidStatus(s) && Disjoint(a, |data|, s, STATUS_SIZE) && |data| <= WORD_RANGE
    ensures BpSize(Write(m, a, data), s) == BpSize(m, s)
    ensures ContinueAddress(Write(m, a, data), s) == ContinueAddress(m, s)
    ensures forall i :: 0 <= i < NBR_POINTS ==> EntryAt(Write(m, a, data), s, i) == EntryAt(m, s, i)
    ensures TableOk(m, s) ==> Entries(Write(m, a, data), s) == Entries(m, s)
  {
    hide Write, LoadWord, Wrap;
    var m' := Write(m, a, data);
    forall b | s <= b < s + STATUS_SIZE ensures m[b] == m'[b] {
      if |data| > 0 {
        OutsideRange(s, STATUS_SIZE, a, |data|, b - s);
        WrapDifference(b, 0);
      }
      WrittenAt(m, a, data, b);
    }
    LoadSame(m, m', s + 1284);
    LoadSame(m, m', s + 1288);
    forall i | 0 <= i < NBR_POINTS ensures EntryAt(m', s, i) == EntryAt(m, s, i) {
      EntrySame(m, m', s, i);
    }
  }

  lemma FillSlotOutside(m: Memory, s: u32, n: nat, addr: u32, kind: u8, b: u32)
    requires ValidStatus(s) && n < NBR_POINTS
    requires !(SlotAt(s, n) <= b < SlotAt(s, n) + 20) && !(s + 1284 <= b < s + 1288)
    ensures FillSlot(m, s, n, addr, kind)[b] == m[b]
  {
    hide Write, LoadWord, GetBranch, BytesOf, Wrap;
    var a := SlotAt(s, n);
    var m1 := StoreWord(m, s + 1284, n + 1);
    var m2 := Write(m1, a, [kind]);
    var m3 := StoreWord(m2, a + 4, addr);
    var m4 := Write(m3, a + 16, [1]);
    var w := LoadWord(m4, addr);
    var m5 := StoreWord(m4, a + 8, w);
    var back := GetBranch(a + 12, Wrap(addr + 4));
    WriteOutside(m, s + 1284, BytesOf(n + 1), s + 1284, s + 1288, b);
    WriteOutside(m1, a, [kind], a, a + 20, b);
    WriteOutside(m2, a + 4, BytesOf(addr), a, a + 20, b);
    WriteOutside(m3, a + 16, [1], a, a + 20, b);
    WriteOutside(m4, a + 8, BytesOf(w), a, a + 20, b);
    WriteOutside(m5, a + 12, BytesOf(back), a, a + 20, b);
  }

  lemma FillSlotInside(m: Memory, s: u32, n: nat, addr: u32, kind: u8)
    requires ValidStatus(s) && n < NBR_POINTS && Disjoint(addr, 4, s, STATUS_SIZE)
    ensures var m' := FillSlot(m, s, n, addr, kind);
            && BpSize(m', s) == n + 1
            && EntryAt(m', s, n) == Entry(kind, addr, LoadWord(m, addr), GetBranch(SlotAt(s, n) + 12, Wrap(addr + 4)), 1)
  {
    hide Write, LoadWord, GetBranch, BytesOf, Wrap;
    var a := SlotAt(s, n);
    var m1 := StoreWord(m, s + 1284, n + 1);
    var m2 := Write(m1, a, [kind]);
    var m3 := StoreWord(m2, a + 4, addr);
    var m4 := Write(m3, a + 16, [1]);
    var w := LoadWord(m4, addr);
    var m5 := StoreWord(m4, a + 8, w);
    var back := GetBranch(a + 12, Wrap(addr + 4));
    var m6 := StoreWord(m5, a + 12, back);
    assert w == LoadWord(m, addr) by {
      LoadApart(m, addr, s, STATUS_SIZE, s + 1284, BytesOf(n + 1));
      LoadApart(m1, addr, s, STATUS_SIZE, a, [kind]);
      LoadApart(m2, addr, s, STATUS_SIZE, a + 4, BytesOf(addr));
      LoadApart(m3, addr, s, STATUS_SIZE, a + 16, [1]);
    }
    assert LoadWord(m6, s + 1284) == n + 1 by {
      LoadStored(m, s + 1284, n + 1);
      LoadOutside(m1, s + 1284, a, [kind]);
      LoadOutside(m2, s + 1284, a + 4, BytesOf(addr));
      LoadOutside(m3, s + 1284, a + 16, [1]);
      LoadOutside(m4, s + 1284, a + 8, BytesOf(w));
      LoadOutside(m5, s + 1284, a + 12, BytesOf(back));
    }
    assert LoadWord(m6, a + 4) == addr by {
      LoadStored(m2, a + 4, addr);
      LoadOutside(m3, a + 4, a + 16, [1]);
      LoadOutside(m4, a + 4, a + 8, BytesOf(w));
      LoadOutside(m5, a + 4, a + 12, BytesOf(back));
    }
    assert LoadWord(m6, a + 8) == w by {
      LoadStored(m4, a + 8, w);
      LoadOutside(m5, a + 8, a + 12, BytesOf(back));
    }
    LoadStored(m5, a + 12, back);
    assert m6[a] == kind && m6[a + 16] == 1 by {
      WrittenAt(m1, a, [kind], a);
      WriteOutside(m2, a + 4, BytesOf(addr), a + 4, a + 8, a);
      WriteOutside(m3, a + 16, [1], a + 16, a + 20, a);
      WriteOutside(m4, a + 8, BytesOf(w), a + 8, a + 12, a);
      WriteOutside(m5, a + 12, BytesOf(back), a + 12, a + 16, a);
      WrittenAt(m3, a + 16, [1], a + 16);
      WriteOutside(m4, a + 8, BytesOf(w), a + 8, a + 12, a + 16);
      WriteOutside(m5, a + 12, BytesOf(back), a + 12, a + 16, a + 16);
      assert Wrap(a - a) == 0 && Wrap(a + 16 - (a + 16)) == 0 by { WrapDifference(a, a); }
    }
  }

  /** What changed between m and m' lies in the struct or in the word at addr. */
  ghost predicate OnlyTableAnd(m: Memory, m': Memory, s: u32, addr: u32) {
    forall b: u32 :: !InStatus(s, b) && !InRange(addr, 4, b) ==> m'[b] == m[b]
  }

  lemma StoreAround(m: Memory, addr: u32, w: u32)
    ensures forall b: u32 :: !InRange(addr, 4, b) ==> StoreWord(m, addr, w)[b] == m[b]
  {
  }

  /** A successful insertion appends one complete entry and patches one word. */
  lemma InsertEffect(m: Memory, s: u32, addr: u32, kind: u8)
    requires TableOk(m, s) && Disjoint(addr, 4, s, STATUS_SIZE) && Insert(m, s, addr, kind).1 == Success
    ensures var (m', n) := (Insert(m, s, addr, kind).0, BpSize(m, s));
            && n < NBR_POINTS && TableOk(m', s)
            && Entries(m', s) == Entries(m, s)
                 + [Entry(kind, addr, LoadWord(m, addr), GetBranch(SlotAt(s, n) + 12, Wrap(addr + 4)), 1)]
            && LoadWord(m', addr) == ARM_BKPT
            && ContinueAddress(m', s) == ContinueAddress(m, s)
            && OnlyTableAnd(m, m', s, addr)
            && (forall i :: 0 <= i < NBR_POINTS && i != n ==> EntryAt(m', s, i) == EntryAt(m, s, i))
  {
    hide Write, LoadWord, GetBranch, BytesOf, FillSlot, Wrap, Disjoint;
    var n := BpSize(m, s);
    var f := FillSlot(m, s, n, addr, kind);
    var m' := StoreWord(f, addr, ARM_BKPT);
    FillSlotInside(m, s, n, addr, kind);
    TableUntouched(f, s, addr, BytesOf(ARM_BKPT));
    LoadStored(f, addr, ARM_BKPT);
    StoreAround(f, addr, ARM_BKPT);
    forall i | 0 <= i < NBR_POINTS && i != n ensures EntryAt(f, s, i) == EntryAt(m, s, i) {
      forall b | SlotAt(s, i) <= b < SlotAt(s, i) + 20 ensures m[b] == f[b] {
        FillSlotOutside(m, s, n, addr, kind, b);
      }
      EntrySame(m, f, s, i);
    }
    assert ContinueAddress(f, s) == ContinueAddress(m, s) by {
      forall b | s + 1288 <= b < s + 1292 ensures m[b] == f[b] {
        FillSlotOutside(m, s, n, addr, kind, b);
      }
      LoadSame(m, f, s + 1288);
    }
    forall b: u32 | !InStatus(s, b) && !InRange(addr, 4, b) ensures m'[b] == m[b] {
      FillSlotOutside(m, s, n, addr, kind, b);
    }
  }

  /** Slot `dst` after the last slot has been copied over it and bp_size decremented. */
  lemma FreeEffect(m: Memory, s: u32, k: nat)
    requires TableOk(m, s) && k < BpSize(m, s) && Distinct(Entries(m, s))
    ensures var (m', es) := (Free(m, s, k), Entries(m, s));
            && TableOk(m', s)
            && Entries(m', s) == es[k := es[|es| - 1]][..|es| - 1]
            && ContinueAddress(m', s) == ContinueAddress(m, s)
            && (forall b: u32 :: !InStatus(s, b) ==> m'[b] == m[b])
            && EntryAt(m', s, k) == es[|es| - 1]
            && (forall i :: 0 <= i < NBR_POINTS && i != k ==> EntryAt(m', s, i) == EntryAt(m, s, i))
  {
    hide Write, Read, LoadWord, BytesOf, Wrap;
    var es := Entries(m, s);
    var n := |es|;
    IndexOfEntry(es, k);
    var dst, src := SlotAt(s, k), SlotAt(s, n - 1);
    var m1 := Write(m, dst, Read(m, src, 20));
    var m' := StoreWord(m1, s + 1284, n - 1);
    CopySlot(m, s, k, n - 1);
    LoadStored(m1, s + 1284, n - 1);
    LoadOutside(m1, s + 1288, s + 1284, BytesOf(n - 1));
    forall i | 0 <= i < NBR_POINTS ensures EntryAt(m', s, i) == EntryAt(m1, s, i) {
      forall b | SlotAt(s, i) <= b < SlotAt(s, i) + 20 ensures m1[b] == m'[b] {
        WriteOutside(m1, s + 1284, BytesOf(n - 1), s + 1284, s + 1288, b);
      }
      EntrySame(m1, m', s, i);
    }
    forall b: u32 | !InStatus(s, b) ensures m'[b] == m[b] {
      WriteOutside(m1, s + 1284, BytesOf(n - 1), s, s + STATUS_SIZE, b);
    }
  }

  lemma IndexOfEntry(es: seq<Entry>, k: nat)
    requires Distinct(es) && k < |es|
    ensures IndexOf(es, es[k].address) == k
  {
  }

  /** A slot copy duplicates every field and touches nothing outside the destination slot. */
  lemma CopySlot(m: Memory, s: u32, dst: nat, src: nat)
    requires ValidStatus(s) && dst < NBR_POINTS && src < NBR_POINTS
    ensures var m' := Write(m, SlotAt(s, dst), Read(m, SlotAt(s, src), 20));
            && EntryAt(m', s, dst) == EntryAt(m, s, src)
            && (forall i :: 0 <= i < NBR_POINTS && i != dst ==> EntryAt(m', s, i) == EntryAt(m, s, i))
            && ContinueAddress(m', s) == ContinueAddress(m, s)
            && (forall b: u32 :: !InStatus(s, b) ==> m'[b] == m[b])
  {
    hide Write, LoadWord, Wrap;
    var (a, c) := (SlotAt(s, dst), SlotAt(s, src));
    var data := Read(m, c, 20);
    var m' := Write(m, a, data);
    ReadWritten(m, a, data);
    SlotOfBytes(m', s, dst);
    SlotOfBytes(m, s, src);
    forall i | 0 <= i < NBR_POINTS && i != dst ensures EntryAt(m', s, i) == EntryAt(m, s, i) {
      forall b | SlotAt(s, i) <= b < SlotAt(s, i) + 20 ensures m[b] == m'[b] {
        WriteOutside(m, a, data, a, a + 20, b);
      }
      EntrySame(m, m', s, i);
    }
    LoadOutside(m, s + 1288, a, data);
    forall b: u32 | !InStatus(s, b) ensures m'[b] == m[b] {
      WriteOutside(m, a, data, s, s + STATUS_SIZE, b);
    }
  }

  /** The fields of a slot as parts of its twenty bytes. */
  lemma SlotOfBytes(m: Memory, s: u32, i: nat)
    requires ValidStatus(s) && i < NBR_POINTS
    ensures var b := Read(m, SlotAt(s, i), 20);
            EntryAt(m, s, i) == Entry(b[0], WordOf(b[4..8]), WordOf(b[8..12]), WordOf(b[12..16]), b[16])
  {
    hide LoadWord, WordOf;
    var a := SlotAt(s, i);
    FieldOfRead(m, a, 20, 4);
    FieldOfRead(m, a, 20, 8);
    FieldOfRead(m, a, 20, 12);
    assert Wrap(a + 0) == a && Wrap(a + 16) == a + 16;
  }

  /** A removal restores the saved word and moves the last entry into the freed place. */
  lemma RemoveEffect(m: Memory, s: u32, addr: u32)
    requires WellFormed(m, s) && Remove(m, s, addr).1 == Success
    ensures var (m', es, k) := (Remove(m, s, addr).0, Entries(m, s), IndexOf(Entries(m, s), addr));
            && k < |es| && TableOk(m', s)
            && Entries(m', s) == es[k := es[|es| - 1]][..|es| - 1]
            && LoadWord(m', addr) == es[k].saved
            && ContinueAddress(m', s) == ContinueAddress(m, s)
            && OnlyTableAnd(m, m', s, addr)
            && EntryAt(m', s, k) == es[|es| - 1]
            && (forall i :: 0 <= i < NBR_POINTS && i != k ==> EntryAt(m', s, i) == EntryAt(m, s, i))
  {
    hide Write, Read, LoadWord, BytesOf, Wrap, Free;
    var es := Entries(m, s);
    var k := IndexOf(es, addr);
    var m1 := StoreWord(m, addr, es[k].saved);
    TableUntouched(m, s, addr, BytesOf(es[k].saved));
    StoreAround(m, addr, es[k].saved);
    LoadStored(m, addr, es[k].saved);
    FreeEffect(m1, s, k);
    SameWordOutside(m1, Free(m1, s, k), s, addr);
  }

  lemma SameWordOutside(m: Memory, m': Memory, s: u32, a: u32)
    requires ValidStatus(s) && Disjoint(a, 4, s, STATUS_SIZE)
    requires forall b: u32 :: !InStatus(s, b) ==> m'[b] == m[b]
    ensures LoadWord(m', a) == LoadWord(m, a)
  {
    forall k | 0 <= k < 4 ensures Read(m', a, 4)[k] == Read(m, a, 4)[k] {
      WordByteOutside(s, a, k);
    }
    assert Read(m', a, 4) == Read(m, a, 4);
  }

  lemma WordByteOutside(s: u32, a: u32, k: nat)
    requires ValidStatus(s) && Disjoint(a, 4, s, STATUS_SIZE) && k < 4
    ensures !InStatus(s, Wrap(a + k))
  {
    OutsideRange(a, 4, s, STATUS_SIZE, k);
    WrapDifference(Wrap(a + k), s);
  }

  /** Clearing the struct empties the table and leaves the rest of memory alone. */
  lemma ClearEffect(m: Memory, s: u32)
    requires ValidStatus(s)
    ensures BpSize(Clear(m, s), s) == 0 && ContinueAddress(Clear(m, s), s) == 0
    ensures forall b: u32 :: !InStatus(s, b) ==> Clear(m, s)[b] == m[b]
  {
    var zeros := seq<u8>(STATUS_SIZE, _ => 0);
    forall b: u32 | !InStatus(s, b) ensures Clear(m, s)[b] == m[b] {
      WriteOutside(m, s, zeros, s, s + STATUS_SIZE, b);
    }
    ZeroField(m, s, 1284);
    ZeroField(m, s, 1288);
  }

  lemma ZeroField(m: Memory, s: u32, off: nat)
    requires ValidStatus(s) && off + 4 <= STATUS_SIZE
    ensures LoadWord(Clear(m, s), s + off) == 0
  {
    hide Write;
    var zeros := seq<u8>(STATUS_SIZE, _ => 0);
    var m' := Clear(m, s);
    ReadWritten(m, s, zeros);
    FieldOfRead(m', s, STATUS_SIZE, off);
    assert zeros[off..off + 4] == [0, 0, 0, 0];
  }
}
