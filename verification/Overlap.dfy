/** Two breakpoints whose words overlap: the order of removal decides whether the code comes back. */
module Overlap {
  import opened Words
  import opened Memory
  import opened Branch
  import opened Table
  import opened Overlay

  /** What a byte outside the table becomes when the word at a is set to w. */
  function Over(m: Memory, a: u32, w: u32, x: u32): u8 {
    if InRange(a, 4, x) then BytesOf(w)[Wrap(x - a)] else m[x]
  }

  lemma InsertByte(m: Memory, s: u32, a: u32, kind: u8, x: u32)
    requires TableOk(m, s) && Insert(m, s, a, kind).1 == Success && !InStatus(s, x)
    ensures Insert(m, s, a, kind).0[x] == Over(m, a, ARM_BKPT, x)
  {
    hide LoadWord, BytesOf, Write, FillSlot;
    var f := FillSlot(m, s, BpSize(m, s), a, kind);
    WrittenAt(f, a, BytesOf(ARM_BKPT), x);
    FillSlotOutside(m, s, BpSize(m, s), a, kind, x);
  }

  lemma RemoveByte(m: Memory, s: u32, a: u32, x: u32)
    requires WellFormed(m, s) && Remove(m, s, a).1 == Success && !InStatus(s, x)
    ensures Remove(m, s, a).0[x] == Over(m, a, Entries(m, s)[IndexOf(Entries(m, s), a)].saved, x)
  {
    hide LoadWord, BytesOf, Write, Free, Disjoint;
    var k := IndexOf(Entries(m, s), a);
    var saved := Entries(m, s)[k].saved;
    TableUntouched(m, s, a, BytesOf(saved));
    FreeEffect(StoreWord(m, a, saved), s, k);
    WrittenAt(m, a, BytesOf(saved), x);
  }

  lemma SavedByte(m: Memory, a: u32, x: u32)
    requires InRange(a, 4, x)
    ensures BytesOf(LoadWord(m, a))[Wrap(x - a)] == m[x]
  {
    hide BytesOf, WordOf;
    BytesOfWordOf(Read(m, a, 4));
    assert Wrap(a + Wrap(x - a)) == x;
  }

  /** Two fresh breakpoints at any two different addresses, aligned or not. */
  predicate BothFit(m: Memory, s: u32, a: u32, b: u32) {
    && WellFormed(m, s) && BpSize(m, s) <= 62 && a != b
    && Disjoint(a, 4, s, STATUS_SIZE) && Disjoint(b, 4, s, STATUS_SIZE)
    && a !in Patches(Entries(m, s)) && b !in Patches(Entries(m, s))
  }

  /** What two insertions leave behind: both entries, each with the word it found. */
  lemma InsertBoth(m: Memory, s: u32, a: u32, b: u32, kind: u8) returns (m1: Memory, m2: Memory)
    requires BothFit(m, s, a, b)
    ensures Insert(m, s, a, kind) == (m1, Success)
    ensures WellFormed(m1, s) && Insert(m1, s, b, kind) == (m2, Success)
    ensures WellFormed(m2, s)
    ensures Patches(Entries(m2, s)) == Patches(Entries(m, s))[a := LoadWord(m, a)][b := LoadWord(m1, b)]
    ensures forall x: u32 :: !InStatus(s, x) ==> m1[x] == Over(m, a, ARM_BKPT, x)
    ensures forall x: u32 :: !InStatus(s, x) ==> m2[x] == Over(m1, b, ARM_BKPT, x)
  {
    hide LoadWord, Insert, Remove, Disjoint, Patches, Over;
    PatchesCount(Entries(m, s));
    TableRefinesMap(m, s, a, kind);
    m1 := Insert(m, s, a, kind).0;
    TableRefinesMap(m1, s, b, kind);
    m2 := Insert(m1, s, b, kind).0;
    forall x: u32 | !InStatus(s, x)
      ensures m1[x] == Over(m, a, ARM_BKPT, x) && m2[x] == Over(m1, b, ARM_BKPT, x)
    {
      InsertByte(m, s, a, kind, x);
      InsertByte(m1, s, b, kind, x);
    }
  }

  /** A removal as seen from outside the table, with what it leaves in the table. */
  lemma RemovePatch(m: Memory, s: u32, a: u32) returns (m': Memory)
    requires WellFormed(m, s) && a in Patches(Entries(m, s))
    ensures Remove(m, s, a) == (m', Success) && WellFormed(m', s)
    ensures Patches(Entries(m', s)) == Patches(Entries(m, s)) - {a}
    ensures forall x: u32 :: !InStatus(s, x) ==> m'[x] == Over(m, a, Patches(Entries(m, s))[a], x)
  {
    hide LoadWord, Insert, Remove, Disjoint, Patches, Over;
    PatchDisjoint(m, s, a);
    InPatches(Entries(m, s), a);
    TableRefinesMap(m, s, a, 0);
    m' := Remove(m, s, a).0;
    forall x: u32 | !InStatus(s, x) ensures m'[x] == Over(m, a, Patches(Entries(m, s))[a], x) {
      RemoveByte(m, s, a, x);
    }
  }

  /** Memory after inserting a then b, and after taking them out again in either order. */
  datatype Steps = Steps(m1: Memory, m2: Memory, afterB: Memory, opposite: Memory, afterA: Memory, same: Memory)

  ghost predicate AreSteps(m: Memory, s: u32, a: u32, b: u32, kind: u8, t: Steps) {
    && TableOk(m, s) && Insert(m, s, a, kind) == (t.m1, Success)
    && TableOk(t.m1, s) && Insert(t.m1, s, b, kind) == (t.m2, Success)
    && WellFormed(t.m2, s)
    && Remove(t.m2, s, b) == (t.afterB, Success) && WellFormed(t.afterB, s)
    && Remove(t.afterB, s, a) == (t.opposite, Success)
    && Remove(t.m2, s, a) == (t.afterA, Success) && WellFormed(t.afterA, s)
    && Remove(t.afterA, s, b) == (t.same, Success)
  }

  /** Inserted a then b: taking them out in the opposite order always restores every byte; taking
      them out in the same order does iff every byte the two words share already was the byte a's
      BKPT put there. */
  lemma RemovalOrder(m: Memory, s: u32, a: u32, b: u32, kind: u8) returns (t: Steps)
    requires BothFit(m, s, a, b)
    ensures AreSteps(m, s, a, b, kind, t)
    ensures forall x: u32 :: !InStatus(s, x) ==> t.opposite[x] == m[x]
    ensures (forall x: u32 :: !InStatus(s, x) ==> t.same[x] == m[x]) <==>
            (forall x: u32 :: InRange(a, 4, x) && InRange(b, 4, x) ==> m[x] == BytesOf(ARM_BKPT)[Wrap(x - a)])
  {
    hide LoadWord, Insert, Remove, Disjoint, Patches, BytesOf, Over, InRange, Kept;
    var m1, m2 := InsertBoth(m, s, a, b, kind);
    var afterB := RemovePatch(m2, s, b);
    var opposite := RemovePatch(afterB, s, a);
    var afterA := RemovePatch(m2, s, a);
    var same := RemovePatch(afterA, s, b);
    t := Steps(m1, m2, afterB, opposite, afterA, same);
    forall x: u32 | !InStatus(s, x) ensures opposite[x] == m[x] && same[x] == Kept(m, a, b, x) {
      OrderByte(m, m1, m2, afterB, opposite, afterA, same, a, b, x);
    }
    SharedBytes(m, s, a, b, same);
  }

  /** What removal in insertion order leaves at x: a's BKPT byte where the words overlap. */
  function Kept(m: Memory, a: u32, b: u32, x: u32): u8 {
    if InRange(a, 4, x) && InRange(b, 4, x) then BytesOf(ARM_BKPT)[Wrap(x - a)] else m[x]
  }

  lemma SharedBytes(m: Memory, s: u32, a: u32, b: u32, same: Memory)
    requires ValidStatus(s) && Disjoint(a, 4, s, STATUS_SIZE)
    requires forall x: u32 :: !InStatus(s, x) ==> same[x] == Kept(m, a, b, x)
    ensures (forall x: u32 :: !InStatus(s, x) ==> same[x] == m[x]) <==>
            (forall x: u32 :: InRange(a, 4, x) && InRange(b, 4, x) ==> m[x] == BytesOf(ARM_BKPT)[Wrap(x - a)])
  {
    hide BytesOf;
    forall x: u32 | InRange(a, 4, x) ensures !InStatus(s, x) {
      RangeOutside(s, a, x);
    }
  }

  lemma OrderByte(m: Memory, m1: Memory, m2: Memory, afterB: Memory, opposite: Memory,
                  afterA: Memory, same: Memory, a: u32, b: u32, x: u32)
    requires m1[x] == Over(m, a, ARM_BKPT, x) && m2[x] == Over(m1, b, ARM_BKPT, x)
    requires afterB[x] == Over(m2, b, LoadWord(m1, b), x)
    requires opposite[x] == Over(afterB, a, LoadWord(m, a), x)
    requires afterA[x] == Over(m2, a, LoadWord(m, a), x)
    requires same[x] == Over(afterA, b, LoadWord(m1, b), x)
    ensures opposite[x] == m[x] && same[x] == Kept(m, a, b, x)
  {
    hide LoadWord, BytesOf, InRange;
    if InRange(a, 4, x) { SavedByte(m, a, x); }
    if InRange(b, 4, x) { SavedByte(m1, b, x); }
  }

  lemma RangeOutside(s: u32, a: u32, x: u32)
    requires ValidStatus(s) && Disjoint(a, 4, s, STATUS_SIZE) && InRange(a, 4, x)
    ensures !InStatus(s, x)
  {
    WordByteOutside(s, a, Wrap(x - a));
    assert Wrap(a + Wrap(x - a)) == x;
  }
}
