/** Over every run, memory with the patches undone is the memory of a debuggee without debugger. */
module Overlay {
  import opened Words
  import opened Memory
  import opened Branch
  import opened Table
  import opened Mmu
  import opened Commands
  import opened Session

  // ---- The table as a map

  function Addresses(es: seq<Entry>): set<u32> {
    set i | 0 <= i < |es| :: es[i].address
  }

  /** The saved word of every patched address. */
  function Patches(es: seq<Entry>): map<u32, u32> {
    map a | a in Addresses(es) :: es[IndexOf(es, a)].saved
  }

  lemma PatchAt(es: seq<Entry>, k: nat)
    requires Distinct(es) && k < |es|
    ensures es[k].address in Patches(es) && Patches(es)[es[k].address] == es[k].saved
  {
    IndexOfEntry(es, k);
  }

  lemma InPatches(es: seq<Entry>, a: u32)
    ensures a in Patches(es) <==> IndexOf(es, a) < |es|
    ensures IndexOf(es, a) < |es| ==> Patches(es)[a] == es[IndexOf(es, a)].saved
  {
    if IndexOf(es, a) < |es| {
      assert es[IndexOf(es, a)].address == a;
    }
  }

  /** A map with exactly the entries' addresses and saved words is their patch map. */
  lemma PatchesAre(es: seq<Entry>, t: map<u32, u32>)
    requires Distinct(es)
    requires forall i :: 0 <= i < |es| ==> es[i].address in t && t[es[i].address] == es[i].saved
    requires forall a :: a in t ==> IndexOf(es, a) < |es|
    ensures Patches(es) == t
  {
    forall a: u32 ensures a in Patches(es) <==> a in t {
      InPatches(es, a);
    }
    forall a | a in t ensures Patches(es)[a] == t[a] {
      InPatches(es, a);
    }
  }

  lemma Found(es: seq<Entry>, k: nat)
    requires k < |es|
    ensures IndexOf(es, es[k].address) < |es|
  {
  }

  lemma PatchesAppend(es: seq<Entry>, e: Entry)
    requires Distinct(es) && IndexOf(es, e.address) == |es|
    ensures Distinct(es + [e])
    ensures Patches(es + [e]) == Patches(es)[e.address := e.saved]
  {
    hide Patches, IndexOf;
    var es' := es + [e];
    var t := Patches(es)[e.address := e.saved];
    forall i | 0 <= i < |es'| ensures es'[i].address in t && t[es'[i].address] == es'[i].saved {
      if i < |es| {
        PatchAt(es, i);
      }
    }
    forall a | a in t ensures IndexOf(es', a) < |es'| {
      InPatches(es, a);
      Found(es', if a == e.address then |es| else IndexOf(es, a));
    }
    PatchesAre(es', t);
  }

  /** Removing entry k by moving the last entry into its place removes one key and nothing else. */
  lemma PatchesRemove(es: seq<Entry>, k: nat)
    requires Distinct(es) && k < |es|
    ensures var es' := es[k := es[|es| - 1]][..|es| - 1];
            Distinct(es') && Patches(es') == Patches(es) - {es[k].address}
  {
    hide Patches, IndexOf;
    var last := |es| - 1;
    var es' := es[k := es[last]][..last];
    var t := Patches(es) - {es[k].address};
    forall i | 0 <= i < |es'| ensures es'[i].address in t && t[es'[i].address] == es'[i].saved {
      PatchAt(es, if i == k then last else i);
    }
    forall a | a in t ensures IndexOf(es', a) < |es'| {
      InPatches(es, a);
      var j := IndexOf(es, a);
      Found(es', if j == last then k else j);
    }
    PatchesAre(es', t);
  }

  lemma {:induction false} PatchesCount(es: seq<Entry>)
    requires Distinct(es)
    ensures |Patches(es)| == |es|
  {
    hide Patches;
    if es == [] {
      PatchesAre(es, map[]);
    } else {
      var last := |es| - 1;
      PatchesCount(es[..last]);
      PatchesRemove(es, last);
      PatchAt(es, last);
      var a := es[last].address;
      assert es[last := es[last]][..last] == es[..last];
      assert Patches(es) == Patches(es[..last])[a := es[last].saved];
    }
  }

  /** insert_breakpoint and remove_breakpoint on the table seen as a map of at most 64 patches:
      which error comes when, and what a success does. */
  lemma TableRefinesMap(m: Memory, s: u32, addr: u32, kind: u8)
    requires WellFormed(m, s) && Disjoint(addr, 4, s, STATUS_SIZE)
    ensures var t := Patches(Entries(m, s));
      var (mi, ei) := Insert(m, s, addr, kind);
      var (mr, er) := Remove(m, s, addr);
      && |t| <= 64
      && ei == (if addr in t then BreakpointAlreadyExists else if |t| == 64 then NoMemoryAvailable else Success)
      && (ei == Success ==> WellFormed(mi, s) && Patches(Entries(mi, s)) == t[addr := LoadWord(m, addr)])
      && (ei != Success ==> mi == m)
      && er == (if addr in t then Success else NoBreakpoint)
      && (er == Success ==> WellFormed(mr, s) && Patches(Entries(mr, s)) == t - {addr} && LoadWord(mr, addr) == t[addr])
      && (er != Success ==> mr == m)
  {
    hide LoadWord, Disjoint, GetBranch, Free, FillSlot, StoreWord, Patches, IndexOf, Wrap;
    var es := Entries(m, s);
    PatchesCount(es);
    InPatches(es, addr);
    var (mi, ei) := Insert(m, s, addr, kind);
    if ei == Success {
      InsertEffect(m, s, addr, kind);
      PatchesAppend(es, Entries(mi, s)[|es|]);
    }
    var (mr, er) := Remove(m, s, addr);
    if er == Success {
      RemoveEffect(m, s, addr);
      PatchesRemove(es, IndexOf(es, addr));
    }
  }

  // ---- The invariant

  /** The byte at b with the patches undone. */
  function Unpatched(m: Memory, s: u32, b: u32): u8
    requires TableOk(m, s)
  {
    var t, a := Patches(Entries(m, s)), WordBase(b);
    if a in t then BytesOf(t[a])[b % 4] else m[b]
  }

  /** A live patch: aligned, in place, and on no saved frame. */
  ghost predicate Live(m: Memory, a: u32, scratch: set<u32>) {
    a % 4 == 0 && LoadWord(m, a) == ARM_BKPT && Range(a, 4) !! scratch
  }

  ghost predicate Tracks(m: Memory, s: u32, bare: Memory, scratch: set<u32>)
    requires TableOk(m, s)
  {
    forall b: u32 :: !InStatus(s, b) && b !in scratch ==> bare[b] == Unpatched(m, s, b)
  }

  ghost predicate Conserved(env: Env, w: World) {
    var m, s := w.st.mem, env.status;
    && WellFormed(m, s)
    && (forall a :: a in Patches(Entries(m, s)) ==> Live(m, a, w.scratch))
    && Tracks(m, s, w.bare, w.scratch)
    && (w.st.ctx != 0 ==> Range(w.st.ctx, CONTEXT_SIZE) <= w.scratch)
    && (forall b :: b in w.scratch ==> !InStatus(s, b))
  }

  // ---- Each kind of change keeps it

  /** The four bytes of an aligned word. */
  lemma AlignedWord(m: Memory, a: u32)
    requires a % 4 == 0
    ensures forall b: u32 :: WordBase(b) == a <==> InRange(a, 4, b)
    ensures forall b: u32 :: WordBase(b) == a ==> BytesOf(LoadWord(m, a))[b % 4] == m[b]
  {
    forall b: u32 ensures WordBase(b) == a <==> InRange(a, 4, b) {
      WrapDifference(b, a);
    }
    forall b: u32 | WordBase(b) == a ensures BytesOf(LoadWord(m, a))[b % 4] == m[b] {
      ByteOfWord(m, a, b % 4);
    }
  }

  lemma ByteOfWord(m: Memory, a: u32, k: nat)
    requires a % 4 == 0 && k < 4
    ensures a + k < WORD_RANGE && BytesOf(LoadWord(m, a))[k] == m[a + k]
  {
    hide BytesOf, WordOf;
    BytesOfWordOf(Read(m, a, 4));
    assert Read(m, a, 4)[k] == m[Wrap(a + k)];
  }

  lemma LoadAligned(m: Memory, m': Memory, a: u32)
    requires a % 4 == 0 && forall b: u32 :: WordBase(b) == a ==> m'[b] == m[b]
    ensures LoadWord(m', a) == LoadWord(m, a)
  {
    forall k | 0 <= k < 4 ensures Read(m', a, 4)[k] == Read(m, a, 4)[k] {
      assert Wrap(a + k) == a + k;
    }
    assert Read(m', a, 4) == Read(m, a, 4);
  }

  lemma PatchOutsideTable(m: Memory, s: u32, a: u32)
    requires WellFormed(m, s) && a in Patches(Entries(m, s)) && a % 4 == 0
    ensures forall b: u32 :: WordBase(b) == a ==> !InStatus(s, b)
  {
    hide Patches, Entries, Disjoint, Wrap, IndexOf, WordBase, InStatus;
    var es := Entries(m, s);
    InPatches(es, a);
    assert Disjoint(es[IndexOf(es, a)].address, 4, s, STATUS_SIZE);
    forall b: u32 | WordBase(b) == a ensures !InStatus(s, b) {
      ByteInWord(a, b);
      WordByteOutside(s, a, b % 4);
    }
  }

  lemma ByteInWord(a: u32, b: u32)
    requires WordBase(b) == a
    ensures Wrap(a + b % 4) == b
  {
  }

  lemma InsertConserves(m: Memory, s: u32, bare: Memory, scratch: set<u32>, addr: u32, kind: u8)
    requires WellFormed(m, s) && Tracks(m, s, bare, scratch)
    requires forall a :: a in Patches(Entries(m, s)) ==> Live(m, a, scratch)
    requires addr % 4 == 0 && Disjoint(addr, 4, s, STATUS_SIZE) && Range(addr, 4) !! scratch
    ensures var m' := Insert(m, s, addr, kind).0;
            && WellFormed(m', s) && Tracks(m', s, bare, scratch)
            && forall a :: a in Patches(Entries(m', s)) ==> Live(m', a, scratch)
  {
    hide LoadWord, BytesOf, WordBase, InRange, Patches, Disjoint, Range, Insert, Remove, GetBranch, IndexOf;
    TableRefinesMap(m, s, addr, kind);
    var (m', e) := Insert(m, s, addr, kind);
    if e == Success {
      InsertEffect(m, s, addr, kind);
      AlignedWord(m, addr);
      var t, t' := Patches(Entries(m, s)), Patches(Entries(m', s));
      forall a | a in t' ensures Live(m', a, scratch) {
        if a != addr {
          PatchOutsideTable(m, s, a);
          LoadAligned(m, m', a);
        }
      }
      forall b: u32 | !InStatus(s, b) && b !in scratch ensures bare[b] == Unpatched(m', s, b) {
        assert bare[b] == Unpatched(m, s, b);
      }
    }
  }

  lemma RemoveConserves(m: Memory, s: u32, bare: Memory, scratch: set<u32>, addr: u32)
    requires WellFormed(m, s) && Tracks(m, s, bare, scratch)
    requires forall a :: a in Patches(Entries(m, s)) ==> Live(m, a, scratch)
    ensures var m' := Remove(m, s, addr).0;
            && WellFormed(m', s) && Tracks(m', s, bare, scratch)
            && forall a :: a in Patches(Entries(m', s)) ==> Live(m', a, scratch)
  {
    hide LoadWord, BytesOf, WordBase, InRange, Patches, Disjoint, Range, Free, GetBranch, IndexOf;
    var es := Entries(m, s);
    var (m', e) := Remove(m, s, addr);
    if e == Success {
      RemoveEffect(m, s, addr);
      var k := IndexOf(es, addr);
      PatchesRemove(es, k);
      PatchAt(es, k);
      assert Live(m, addr, scratch);
      AlignedWord(m', addr);
      var t, t' := Patches(es), Patches(Entries(m', s));
      forall a | a in t' ensures Live(m', a, scratch) {
        assert Live(m, a, scratch);
        PatchOutsideTable(m, s, a);
        LoadAligned(m, m', a);
      }
      forall b: u32 | !InStatus(s, b) && b !in scratch ensures bare[b] == Unpatched(m', s, b) {
        assert bare[b] == Unpatched(m, s, b);
      }
    }
  }

  /** A store that misses table and patches goes through to the debuggee's memory. */
  lemma StoreConserves(m: Memory, s: u32, bare: Memory, scratch: set<u32>, addr: u32, data: seq<u8>)
    requires WellFormed(m, s) && Tracks(m, s, bare, scratch)
    requires |data| < WORD_RANGE && Untouching(m, s, addr, |data|)
    requires forall a :: a in Patches(Entries(m, s)) ==> Live(m, a, scratch)
    ensures var m' := Write(m, addr, data);
            && WellFormed(m', s) && Entries(m', s) == Entries(m, s)
            && Tracks(m', s, Write(bare, addr, data), scratch - Range(addr, |data|))
            && Tracks(m', s, bare, scratch + Range(addr, |data|))
            && forall a :: a in Patches(Entries(m, s)) ==>
                 LoadWord(m', a) == ARM_BKPT && Range(a, 4) !! Range(addr, |data|)
  {
    hide LoadWord, BytesOf, Patches, IndexOf, Write, WordBase, Disjoint;
    var m', t := Write(m, addr, data), Patches(Entries(m, s));
    TableUntouched(m, s, addr, data);
    forall a | a in t ensures LoadWord(m', a) == ARM_BKPT && Range(a, 4) !! Range(addr, |data|) {
      InPatches(Entries(m, s), a);
      assert Disjoint(addr, |data|, Entries(m, s)[IndexOf(Entries(m, s), a)].address, 4);
      LoadElsewhereSym(m, a, addr, data);
      RangesApart(a, 4, addr, |data|);
    }
    forall b: u32 | !InStatus(s, b)
      ensures b !in scratch && !InRange(addr, |data|, b) ==> bare[b] == Unpatched(m', s, b)
      ensures b !in scratch - Range(addr, |data|) ==> Write(bare, addr, data)[b] == Unpatched(m', s, b)
    {
      WrittenAt(m, addr, data, b);
      WrittenAt(bare, addr, data, b);
      var a := WordBase(b);
      if a in t {
        AlignedWord(m, a);
        assert b in Range(a, 4) && Range(a, 4) !! Range(addr, |data|);
        assert !InRange(addr, |data|, b);
      }
      assert b !in scratch ==> bare[b] == Unpatched(m, s, b);
    }
  }

  lemma LoadElsewhereSym(m: Memory, a: u32, b: u32, data: seq<u8>)
    requires Disjoint(b, |data|, a, 4) && |data| <= WORD_RANGE
    ensures LoadWord(Write(m, b, data), a) == LoadWord(m, a)
  {
    LoadElsewhere(m, a, b, data);
  }

  lemma DisjointBack(b: u32, k: nat, a: u32, n: nat)
    requires Disjoint(b, k, a, n)
    ensures Disjoint(a, n, b, k)
  {
    hide Wrap;
  }

  lemma RangesApart(a: u32, n: nat, b: u32, k: nat)
    requires Disjoint(b, k, a, n) && n <= WORD_RANGE && k <= WORD_RANGE
    ensures Range(a, n) !! Range(b, k)
  {
    hide Wrap, Disjoint;
    assert Disjoint(a, n, b, k) by { DisjointBack(b, k, a, n); }
    forall x: u32 | InRange(a, n, x) ensures !InRange(b, k, x) {
      if k > 0 {
        OutsideRange(a, n, b, k, Wrap(x - a));
        AtOffset(a, x);
      }
    }
  }

  /** Changing bytes that are not claimed, and no patch, keeps the claim on the others. */
  lemma TracksFrame(m: Memory, m': Memory, s: u32, bare: Memory, scratch: set<u32>)
    requires TableOk(m, s) && TableOk(m', s) && Entries(m', s) == Entries(m, s)
    requires forall b: u32 :: !InStatus(s, b) && b !in scratch ==> m'[b] == m[b]
    requires Tracks(m, s, bare, scratch)
    ensures Tracks(m', s, bare, scratch)
  {
    hide Patches, Entries;
    forall b: u32 | !InStatus(s, b) && b !in scratch ensures bare[b] == Unpatched(m', s, b) {
      assert bare[b] == Unpatched(m, s, b);
    }
  }

  /** Storing the continue address changes nothing but that field. */
  lemma CacheContinueEffect(m: Memory, s: u32, pc: u32)
    requires WellFormed(m, s)
    ensures var m' := CacheContinue(m, s, pc);
            && WellFormed(m', s) && Entries(m', s) == Entries(m, s)
            && (forall i :: 0 <= i < NBR_POINTS ==> EntryAt(m', s, i) == EntryAt(m, s, i))
            && (forall b: u32 :: !InStatus(s, b) ==> m'[b] == m[b])
            && ContinueAddress(m', s) ==
                 (var k := IndexOf(Entries(m, s), pc);
                  if k == BpSize(m, s) then Wrap(pc + 4) else SlotAt(s, k) + 8)
  {
    hide Write, LoadWord, BytesOf, Wrap, Disjoint;
    var k := IndexOf(Entries(m, s), pc);
    var to := if k == BpSize(m, s) then Wrap(pc + 4) else SlotAt(s, k) + 8;
    var m' := CacheContinue(m, s, pc);
    LoadStored(m, s + 1288, to);
    LoadOutside(m, s + 1284, s + 1288, BytesOf(to));
    forall i | 0 <= i < NBR_POINTS ensures EntryAt(m', s, i) == EntryAt(m, s, i) {
      forall b | SlotAt(s, i) <= b < SlotAt(s, i) + 20 ensures m[b] == m'[b] {
        WriteOutside(m, s + 1288, BytesOf(to), s + 1288, s + 1292, b);
      }
      EntrySame(m, m', s, i);
    }
    forall b: u32 | !InStatus(s, b) ensures m'[b] == m[b] {
      WriteOutside(m, s + 1288, BytesOf(to), s + 1288, s + 1292, b);
    }
    assert Entries(m', s) == Entries(m, s);
  }

  /** The two pushes of a halt, seen from the table and the patches. */
  lemma HaltPushes(env: Env, w: World, h: Stop)
    requires Conserved(env, w) && Admissible(env, w, Halt(h))
    ensures var (m, s) := (w.st.mem, env.status);
            var m2 := Write(Write(m, h.stack, h.spill), h.ctx, h.frame);
            var scratch' := w.scratch + Range(h.stack, SPILL_SIZE) + Range(h.ctx, CONTEXT_SIZE);
            && WellFormed(m2, s) && Entries(m2, s) == Entries(m, s)
            && (forall i :: 0 <= i < NBR_POINTS ==> EntryAt(m2, s, i) == EntryAt(m, s, i))
            && Tracks(m2, s, w.bare, scratch')
            && (forall a :: a in Patches(Entries(m, s)) ==> Live(m2, a, scratch'))
            && (forall b :: b in scratch' ==> !InStatus(s, b))
  {
    hide LoadWord, BytesOf, Wrap, Patches, Disjoint, Write, IndexOf;
    var m, s := w.st.mem, env.status;
    var m1 := Write(m, h.stack, h.spill);
    var scratch1 := w.scratch + Range(h.stack, SPILL_SIZE);
    StoreConserves(m, s, w.bare, w.scratch, h.stack, h.spill);
    TableUntouched(m, s, h.stack, h.spill);
    forall a | a in Patches(Entries(m1, s)) ensures Live(m1, a, scratch1) {
      assert Live(m, a, w.scratch);
    }
    StoreConserves(m1, s, w.bare, scratch1, h.ctx, h.frame);
    TableUntouched(m1, s, h.ctx, h.frame);
    RangeOffTable(s, h.stack, SPILL_SIZE);
    RangeOffTable(s, h.ctx, CONTEXT_SIZE);
  }

  lemma HaltConserves(env: Env, w: World, h: Stop)
    requires Conserved(env, w) && Admissible(env, w, Halt(h))
    ensures Conserved(env, Next(env, w, Halt(h)))
  {
    hide LoadWord, BytesOf, Wrap, Patches, Disjoint, Write, CacheContinue, IndexOf, Untouching;
    var m, s := w.st.mem, env.status;
    var m2 := Write(Write(m, h.stack, h.spill), h.ctx, h.frame);
    var scratch' := w.scratch + Range(h.stack, SPILL_SIZE) + Range(h.ctx, CONTEXT_SIZE);
    HaltPushes(env, w, h);
    var pc := LoadWord(m2, Wrap(h.ctx + PC_OFFSET));
    CacheContinueEffect(m2, s, pc);
    var m3 := CacheContinue(m2, s, pc);
    TracksFrame(m2, m3, s, w.bare, scratch');
    forall a | a in Patches(Entries(m3, s)) ensures Live(m3, a, scratch') {
      assert Live(m2, a, scratch');
      PatchOutsideTable(m2, s, a);
      LoadAligned(m2, m3, a);
    }
  }

  lemma RangeOffTable(s: u32, a: u32, n: nat)
    requires ValidStatus(s) && Disjoint(a, n, s, STATUS_SIZE) && n <= WORD_RANGE
    ensures forall b :: b in Range(a, n) ==> !InStatus(s, b)
  {
    hide Range;
    RangesApart(s, STATUS_SIZE, a, n);
    forall b: u32 | b in Range(a, n) ensures !InStatus(s, b) {
      StatusRange(s, b);
    }
  }

  lemma StatusRange(s: u32, b: u32)
    requires ValidStatus(s)
    ensures InStatus(s, b) <==> b in Range(s, STATUS_SIZE)
  {
    WrapDifference(b, s);
    assert b in Range(s, STATUS_SIZE) <==> InRange(s, STATUS_SIZE, b);
  }

  /** Writing the saved pc touches only a frame. */
  lemma ContinueConserves(env: Env, w: World)
    requires Conserved(env, w) && w.st.ctx != 0
    ensures Conserved(env, Next(env, w, Host(Continue)))
  {
    hide LoadWord, BytesOf, Patches, Disjoint, Write, IndexOf;
    var m, s, a := w.st.mem, env.status, Wrap(w.st.ctx + PC_OFFSET);
    var to := ContinueAddress(m, s);
    var m' := StoreWord(m, a, to);
    forall b: u32 | InRange(a, 4, b) ensures b in w.scratch {
      PcInFrame(w.st.ctx, b);
    }
    forall b: u32 | b !in w.scratch ensures m'[b] == m[b] {
      WrittenAt(m, a, BytesOf(to), b);
    }
    ScratchApart(s, a, w.scratch);
    TableUntouched(m, s, a, BytesOf(to));
    TracksFrame(m, m', s, w.bare, w.scratch);
    forall p | p in Patches(Entries(m', s)) ensures Live(m', p, w.scratch) {
      assert Live(m, p, w.scratch);
      AlignedWord(m, p);
      forall b: u32 | WordBase(b) == p ensures m'[b] == m[b] {
        assert b in Range(p, 4);
      }
      LoadAligned(m, m', p);
    }
  }

  lemma PcInFrame(ctx: u32, b: u32)
    requires InRange(Wrap(ctx + PC_OFFSET), 4, b)
    ensures b in Range(ctx, CONTEXT_SIZE)
  {
    assert Wrap(b - ctx) == Wrap(b - Wrap(ctx + PC_OFFSET)) + PC_OFFSET;
    assert InRange(ctx, CONTEXT_SIZE, b);
  }

  lemma ScratchApart(s: u32, a: u32, scratch: set<u32>)
    requires ValidStatus(s) && forall b :: b in scratch ==> !InStatus(s, b)
    requires forall b: u32 :: InRange(a, 4, b) ==> b in scratch
    ensures Disjoint(a, 4, s, STATUS_SIZE)
  {
    if Wrap(s - a) < 4 {
      assert InRange(a, 4, s);
    } else if Wrap(a - s) < STATUS_SIZE {
      assert InRange(a, 4, a);
      WrapDifference(a, s);
    }
  }

  lemma AttachConserves(env: Env, w: World)
    requires Conserved(env, w) && Admissible(env, w, Host(Attach))
    ensures Conserved(env, Next(env, w, Host(Attach)))
  {
    hide LoadWord, BytesOf, Wrap, Patches, Disjoint, Write, Clear, IndexOf, GetBranch;
    var m, s := w.st.mem, env.status;
    var m1, m' := Clear(m, s), AttachMemory(env, m);
    var branch := GetBranch(PREFETCH_VECTOR, env.handler % 0x100_0000);
    ClearEffect(m, s);
    TableUntouched(m1, s, PREFETCH_VECTOR, BytesOf(branch));
    assert Entries(m, s) == [] && Entries(m', s) == [];
    PatchesAre([], map[]);
    forall b: u32 | !InStatus(s, b) && b !in w.scratch
      ensures StoreWord(w.bare, PREFETCH_VECTOR, branch)[b] == Unpatched(m', s, b)
    {
      assert w.bare[b] == Unpatched(m, s, b);
      WrittenAt(w.bare, PREFETCH_VECTOR, BytesOf(branch), b);
      WrittenAt(m1, PREFETCH_VECTOR, BytesOf(branch), b);
    }
  }

  /** Every admissible event keeps the invariant. */
  lemma NextConserves(env: Env, w: World, e: Event)
    requires Conserved(env, w) && Admissible(env, w, e)
    ensures Conserved(env, Next(env, w, e))
  {
    hide LoadWord, BytesOf, Wrap, Patches, Disjoint, Write, Clear, IndexOf, GetBranch, Range, Insert, Remove, Read,
         ProbeRead;
    var m, s := w.st.mem, env.status;
    match e
    case Halt(h) => HaltConserves(env, w, h);
    case Store(addr, data) => StoreConserves(m, s, w.bare, w.scratch, addr, data);
    case Host(c) =>
      match c
      case Attach => AttachConserves(env, w);
      case Continue => if w.st.ctx != 0 { ContinueConserves(env, w); }
      case InsertBreakpoint(addr, kind) => InsertConserves(m, s, w.bare, w.scratch, addr, kind);
      case RemoveBreakpoint(addr, _) => RemoveConserves(m, s, w.bare, w.scratch, addr);
      case WriteMemory(addr, data) => StoreConserves(m, s, w.bare, w.scratch, addr, data);
      case _ =>
  }

  /** The overlay theorem: over every admissible run, undoing the patches gives the memory that the
      debuggee's own stores, the host's writes and the vector of each attach make of the initial one,
      except in the table and on the saved frames. */
  lemma {:induction false} RunConserves(env: Env, w: World, events: seq<Event>)
    requires Conserved(env, w) && AdmissibleRun(env, w, events)
    ensures Conserved(env, Run(env, w, events))
    decreases |events|
  {
    if events != [] {
      NextConserves(env, w, events[0]);
      RunConserves(env, Next(env, w, events[0]), events[1..]);
    }
  }

  // ---- Consequences

  /** A table with no entries, as it is when the image is loaded, starts a conserved session. */
  lemma FreshSessionConserved(env: Env, m: Memory)
    requires ValidStatus(env.status) && BpSize(m, env.status) == 0
    ensures Conserved(env, World(State(m, 0, []), m, {}, []))
  {
    hide LoadWord;
    assert Entries(m, env.status) == [];
    PatchesAre([], map[]);
  }

  predicate NoRepeats(order: seq<u32>) {
    forall i, j :: 0 <= i < j < |order| ==> order[i] != order[j]
  }

  function Removals(order: seq<u32>, kind: u8): seq<Event> {
    seq(|order|, i requires 0 <= i < |order| => Host(RemoveBreakpoint(order[i], kind)))
  }

  /** Removing every breakpoint, in whatever order, succeeds each time and gives back the original
      code. */
  lemma {:induction false} RemoveAllRestores(env: Env, w: World, order: seq<u32>, kind: u8)
    requires Conserved(env, w) && NoRepeats(order)
    requires (set a | a in order) == Patches(Entries(w.st.mem, env.status)).Keys
    ensures AdmissibleRun(env, w, Removals(order, kind))
    ensures var w' := Run(env, w, Removals(order, kind));
            && WellFormed(w'.st.mem, env.status) && BpSize(w'.st.mem, env.status) == 0
            && w'.st.sent == w.st.sent + Replies(|order|)
            && forall b: u32 :: !InStatus(env.status, b) && b !in w.scratch ==> w'.st.mem[b] == w.bare[b]
    decreases |order|
  {
    hide LoadWord, Patches, Next, Tracks, Entries, BpSize, InStatus, Live;
    if order == [] {
      NothingPatched(env, w);
    } else {
      var a, rest := order[0], order[1..];
      assert a in order;
      RemoveOne(env, w, a, kind);
      assert forall x :: x in rest <==> x in order && x != a by { RestOf(order); }
      assert Patches(Entries(Next(env, w, Host(RemoveBreakpoint(a, kind))).st.mem, env.status)).Keys == set x | x in rest;
      RemoveAllRestores(env, Next(env, w, Host(RemoveBreakpoint(a, kind))), rest, kind);
      assert Removals(order, kind)[1..] == Removals(rest, kind);
    }
  }

  lemma RestOf(order: seq<u32>)
    requires order != [] && NoRepeats(order)
    ensures forall x :: x in order[1..] <==> x in order && x != order[0]
  {
    forall x | x in order && x != order[0] ensures x in order[1..] {
      var i :| 0 <= i < |order| && order[i] == x;
      assert order[1..][i - 1] == x;
    }
  }

  /** A session with no patch shows the debuggee's own memory. */
  lemma NothingPatched(env: Env, w: World)
    requires Conserved(env, w) && Patches(Entries(w.st.mem, env.status)).Keys == {}
    ensures BpSize(w.st.mem, env.status) == 0
    ensures forall b: u32 :: !InStatus(env.status, b) && b !in w.scratch ==> w.st.mem[b] == w.bare[b]
  {
    hide LoadWord, Patches;
    var m, s := w.st.mem, env.status;
    PatchesCount(Entries(m, s));
    forall b: u32 | !InStatus(s, b) && b !in w.scratch ensures m[b] == w.bare[b] {
      assert w.bare[b] == Unpatched(m, s, b);
    }
  }

  lemma RemoveOne(env: Env, w: World, a: u32, kind: u8)
    requires Conserved(env, w) && a in Patches(Entries(w.st.mem, env.status))
    ensures var w1 := Next(env, w, Host(RemoveBreakpoint(a, kind)));
            && Conserved(env, w1)
            && Patches(Entries(w1.st.mem, env.status)).Keys == Patches(Entries(w.st.mem, env.status)).Keys - {a}
            && w1.st.sent == w.st.sent + [6, 0] && w1.scratch == w.scratch && w1.bare == w.bare
  {
    hide LoadWord, Patches, Remove, Insert, Disjoint, IndexOf, Tracks, Live;
    NextConserves(env, w, Host(RemoveBreakpoint(a, kind)));
    PatchDisjoint(w.st.mem, env.status, a);
    TableRefinesMap(w.st.mem, env.status, a, kind);
  }

  lemma PatchDisjoint(m: Memory, s: u32, a: u32)
    requires WellFormed(m, s) && a in Patches(Entries(m, s))
    ensures Disjoint(a, 4, s, STATUS_SIZE)
  {
    hide Patches, Disjoint;
    var es := Entries(m, s);
    InPatches(es, a);
    assert Disjoint(es[IndexOf(es, a)].address, 4, s, STATUS_SIZE);
  }

  /** The responses of n successful removals. */
  function Replies(n: nat): seq<u8> {
    if n == 0 then [] else [6, 0] + Replies(n - 1)
  }

  /** cmd_attach forgets the table without restoring memory: the overlay survives an attach iff
      every live entry lies on the vector being overwritten or had saved a BKPT anyway. */
  lemma AttachWhileLive(env: Env, w: World)
    requires Conserved(env, w) && Disjoint(PREFETCH_VECTOR, 4, env.status, STATUS_SIZE)
    ensures var t := Patches(Entries(w.st.mem, env.status));
            var m' := Dispatch(env, w.st, Attach).mem;
            && TableOk(m', env.status) && BpSize(m', env.status) == 0
            && (Tracks(m', env.status, BareAfter(env, w, Host(Attach)), w.scratch) <==>
                forall a :: a in t ==> a == PREFETCH_VECTOR || t[a] == ARM_BKPT)
  {
    hide LoadWord, BytesOf, Wrap, Patches, Disjoint, Write, Clear, IndexOf, GetBranch, WordBase;
    var m, s := w.st.mem, env.status;
    var m1, m' := Clear(m, s), AttachMemory(env, m);
    var branch := GetBranch(PREFETCH_VECTOR, env.handler % 0x100_0000);
    ClearEffect(m, s);
    TableUntouched(m1, s, PREFETCH_VECTOR, BytesOf(branch));
    assert Entries(m', s) == [];
    PatchesAre([], map[]);
    forall b: u32 | !InStatus(s, b) && b !in w.scratch
      ensures BareAfter(env, w, Host(Attach))[b] == m'[b] <==> ForgottenByte(m, s, b)
    {
      AttachedByte(env, w, b);
    }
    if forall b: u32 :: !InStatus(s, b) && b !in w.scratch ==> ForgottenByte(m, s, b) {
      ForgottenWords(env, w);
    }
  }

  /** After an attach the byte at b is still right: unpatched, overwritten by the vector, or saved
      from a BKPT. */
  predicate ForgottenByte(m: Memory, s: u32, b: u32)
    requires TableOk(m, s)
  {
    var t, a := Patches(Entries(m, s)), WordBase(b);
    a in t && a != PREFETCH_VECTOR ==> BytesOf(t[a])[b % 4] == BytesOf(ARM_BKPT)[b % 4]
  }

  lemma AttachedByte(env: Env, w: World, b: u32)
    requires Conserved(env, w) && !InStatus(env.status, b) && b !in w.scratch
    ensures BareAfter(env, w, Host(Attach))[b] == AttachMemory(env, w.st.mem)[b]
       <==> ForgottenByte(w.st.mem, env.status, b)
  {
    hide LoadWord, BytesOf, Wrap, Patches, Disjoint, Write, Clear, IndexOf, GetBranch, WordBase;
    var m, s := w.st.mem, env.status;
    var branch := GetBranch(PREFETCH_VECTOR, env.handler % 0x100_0000);
    assert w.bare[b] == Unpatched(m, s, b);
    ClearEffect(m, s);
    WrittenAt(w.bare, PREFETCH_VECTOR, BytesOf(branch), b);
    WrittenAt(Clear(m, s), PREFETCH_VECTOR, BytesOf(branch), b);
    AlignedWord(m, PREFETCH_VECTOR);
    if WordBase(b) in Patches(Entries(m, s)) {
      assert Live(m, WordBase(b), w.scratch);
      AlignedWord(m, WordBase(b));
    }
  }

  lemma ForgottenWords(env: Env, w: World)
    requires Conserved(env, w)
    requires forall b: u32 :: !InStatus(env.status, b) && b !in w.scratch ==> ForgottenByte(w.st.mem, env.status, b)
    ensures var t := Patches(Entries(w.st.mem, env.status));
            forall a :: a in t ==> a == PREFETCH_VECTOR || t[a] == ARM_BKPT
  {
    hide LoadWord, BytesOf, Patches, IndexOf;
    var m, s := w.st.mem, env.status;
    var t := Patches(Entries(m, s));
    forall a | a in t && a != PREFETCH_VECTOR ensures t[a] == ARM_BKPT {
      assert Live(m, a, w.scratch);
      PatchOutsideTable(m, s, a);
      AlignedWord(m, a);
      forall k | 0 <= k < 4 ensures BytesOf(t[a])[k] == BytesOf(ARM_BKPT)[k] {
        assert WordBase(a + k) == a && a + k in Range(a, 4);
        assert ForgottenByte(m, s, a + k);
      }
      assert BytesOf(t[a]) == BytesOf(ARM_BKPT);
      WordOfBytesOf(t[a]);
      WordOfBytesOf(ARM_BKPT);
    }
  }
}
