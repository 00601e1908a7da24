/** Where the branch at the end of a slot leads, over every run. */
module Trampoline {
  import opened Words
  import opened Memory
  import opened Branch
  import opened Table
  import opened Commands
  import opened Session
  import opened Overlay

  /** The branch that insert_breakpoint encodes for an entry whose slot is `home`. */
  function BackFrom(s: u32, home: nat, address: u32): u32
    requires ValidStatus(s) && home < NBR_POINTS
  {
    GetBranch(SlotAt(s, home) + 12, Wrap(address + 4))
  }

  ghost predicate HomesOk(env: Env, w: World)
    requires TableOk(w.st.mem, env.status)
  {
    var es := Entries(w.st.mem, env.status);
    && |w.homes| == |es|
    && forall i :: 0 <= i < |es| ==>
         w.homes[i] < NBR_POINTS && es[i].back == BackFrom(env.status, w.homes[i], es[i].address)
  }

  /** Every event keeps the branch of every live entry the one encoded for its home. */
  lemma NextKeepsHomes(env: Env, w: World, e: Event)
    requires Conserved(env, w) && HomesOk(env, w) && Admissible(env, w, e)
    ensures WellFormed(Next(env, w, e).st.mem, env.status) && HomesOk(env, Next(env, w, e))
  {
    hide LoadWord, BytesOf, Wrap, Disjoint, Write, Clear, GetBranch, Range, Insert, Remove, Patches, IndexOf;
    NextConserves(env, w, e);
    var m, s := w.st.mem, env.status;
    match e
    case Halt(h) =>
      HaltPushes(env, w, h);
      var m2 := Write(Write(m, h.stack, h.spill), h.ctx, h.frame);
      CacheContinueEffect(m2, s, LoadWord(m2, Wrap(h.ctx + PC_OFFSET)));
    case Store(addr, data) => TableUntouched(m, s, addr, data);
    case Host(c) =>
      match c
      case Attach => AttachEmpties(env, m);
      case Continue => if w.st.ctx != 0 { PcApart(env, w); }
      case InsertBreakpoint(addr, kind) => InsertKeepsHomes(env, w, addr, kind);
      case RemoveBreakpoint(addr, kind) => RemoveKeepsHomes(env, w, addr, kind);
      case WriteMemory(addr, data) => TableUntouched(m, s, addr, data);
      case _ =>
  }

  lemma AttachEmpties(env: Env, m: Memory)
    requires ValidStatus(env.status) && Disjoint(PREFETCH_VECTOR, 4, env.status, STATUS_SIZE)
    ensures BpSize(AttachMemory(env, m), env.status) == 0
  {
    hide LoadWord, BytesOf, Clear, Write;
    ClearEffect(m, env.status);
    var branch := GetBranch(PREFETCH_VECTOR, env.handler % 0x100_0000);
    TableUntouched(Clear(m, env.status), env.status, PREFETCH_VECTOR, BytesOf(branch));
  }

  lemma InsertKeepsHomes(env: Env, w: World, addr: u32, kind: u8)
    requires WellFormed(w.st.mem, env.status) && HomesOk(env, w) && Disjoint(addr, 4, env.status, STATUS_SIZE)
    ensures var m' := Insert(w.st.mem, env.status, addr, kind).0;
            TableOk(m', env.status) &&
            HomesOk(env, w.(st := w.st.(mem := m'), homes := HomesAfter(env, w, Host(InsertBreakpoint(addr, kind)))))
  {
    hide LoadWord, BytesOf, Wrap, Disjoint, GetBranch, FillSlot, StoreWord, IndexOf;
    if Insert(w.st.mem, env.status, addr, kind).1 == Success {
      InsertEffect(w.st.mem, env.status, addr, kind);
    }
  }

  lemma RemoveKeepsHomes(env: Env, w: World, addr: u32, kind: u8)
    requires WellFormed(w.st.mem, env.status) && HomesOk(env, w)
    ensures var m' := Remove(w.st.mem, env.status, addr).0;
            TableOk(m', env.status) &&
            HomesOk(env, w.(st := w.st.(mem := m'), homes := HomesAfter(env, w, Host(RemoveBreakpoint(addr, kind)))))
  {
    hide LoadWord, BytesOf, Wrap, Disjoint, GetBranch, Free, StoreWord, IndexOf;
    if Remove(w.st.mem, env.status, addr).1 == Success {
      RemoveEffect(w.st.mem, env.status, addr);
    }
  }

  /** Writing the saved pc of a frame does not reach the table. */
  lemma PcApart(env: Env, w: World)
    requires Conserved(env, w) && w.st.ctx != 0
    ensures var (m, s, a) := (w.st.mem, env.status, Wrap(w.st.ctx + PC_OFFSET));
            var m' := StoreWord(m, a, ContinueAddress(m, s));
            && TableOk(m', s) && Entries(m', s) == Entries(m, s)
            && forall i :: 0 <= i < NBR_POINTS ==> EntryAt(m', s, i) == EntryAt(m, s, i)
  {
    hide LoadWord, BytesOf, Write;
    var m, s, a := w.st.mem, env.status, Wrap(w.st.ctx + PC_OFFSET);
    forall b: u32 | InRange(a, 4, b) ensures b in w.scratch {
      PcInFrame(w.st.ctx, b);
    }
    ScratchApart(s, a, w.scratch);
    TableUntouched(m, s, a, BytesOf(ContinueAddress(m, s)));
  }

  lemma {:induction false} RunKeepsHomes(env: Env, w: World, events: seq<Event>)
    requires Conserved(env, w) && HomesOk(env, w) && AdmissibleRun(env, w, events)
    ensures WellFormed(Run(env, w, events).st.mem, env.status) && HomesOk(env, Run(env, w, events))
    decreases |events|
  {
    if events != [] {
      NextConserves(env, w, events[0]);
      NextKeepsHomes(env, w, events[0]);
      RunKeepsHomes(env, Next(env, w, events[0]), events[1..]);
    }
  }

  /** A live entry that now sits in slot i and was inserted in slot h, from where its return lay in
      reach, branches to address + 4 + 20 * (i - h); so it returns to the instruction after the
      patch iff it still sits in its home slot. */
  ghost predicate Returns(env: Env, w: World, i: nat) {
    var m, s := w.st.mem, env.status;
    && TableOk(m, s) && |w.homes| == BpSize(m, s)
    && (i < |w.homes| ==>
          var entry, h := Entries(m, s)[i], w.homes[i];
          h < NBR_POINTS && entry.address % 4 == 0 &&
          (InReach(SlotAt(s, h) + 12, Wrap(entry.address + 4)) ==>
             var target := BranchTarget(entry.back, SlotAt(s, i) + 12);
             target == Wrap(entry.address + 4 + 20 * (i - h)) &&
             (target == Wrap(entry.address + 4) <==> i == h)))
  }

  /** The trampoline theorem, for every run and every slot. */
  lemma ReturnTarget(env: Env, w: World, events: seq<Event>, i: nat)
    requires Conserved(env, w) && HomesOk(env, w) && AdmissibleRun(env, w, events)
    ensures Returns(env, Run(env, w, events), i)
  {
    RunConserves(env, w, events);
    RunKeepsHomes(env, w, events);
    EntryReturns(env, Run(env, w, events), i);
  }

  lemma EntryReturns(env: Env, w: World, i: nat)
    requires Conserved(env, w) && HomesOk(env, w)
    ensures Returns(env, w, i)
  {
    hide LoadWord, GetBranch, Patches, InReach, BranchTarget;
    var s := env.status;
    if i < |w.homes| {
      var es := Entries(w.st.mem, s);
      PatchAt(es, i);
      assert Live(w.st.mem, es[i].address, w.scratch);
      if InReach(SlotAt(s, w.homes[i]) + 12, Wrap(es[i].address + 4)) {
        ReturnFrom(s, w.homes[i], i, es[i].address);
      }
    }
  }

  lemma ReturnFrom(s: u32, h: nat, i: nat, address: u32)
    requires ValidStatus(s) && h < NBR_POINTS && i < NBR_POINTS && address % 4 == 0
    requires InReach(SlotAt(s, h) + 12, Wrap(address + 4))
    ensures var target := BranchTarget(BackFrom(s, h, address), SlotAt(s, i) + 12);
            target == Wrap(address + 4 + 20 * (i - h)) && (target == Wrap(address + 4) <==> i == h)
  {
    hide GetBranch, InReach, BranchTarget;
    var to := Wrap(address + 4);
    assert to % 4 == 0;
    BranchMoved(SlotAt(s, h) + 12, to, 20 * (i - h));
    assert Wrap(to + 20 * (i - h)) == Wrap(address + 4 + 20 * (i - h));
  }

  // ---- Runs that free only the last slot

  /** The removal, if any, hits the last live entry. */
  ghost predicate RemovesOnlyLast(m: Memory, s: u32, e: Event)
    requires TableOk(m, s)
  {
    e.Host? && e.c.RemoveBreakpoint? ==> IndexOf(Entries(m, s), e.c.addr) + 1 >= BpSize(m, s)
  }

  ghost predicate LastOnlyRun(env: Env, w: World, events: seq<Event>)
    requires AdmissibleRun(env, w, events)
    decreases |events|
  {
    events == [] ||
    (RemovesOnlyLast(w.st.mem, env.status, events[0]) && LastOnlyRun(env, Next(env, w, events[0]), events[1..]))
  }

  ghost predicate AtHome(homes: seq<nat>) {
    forall i :: 0 <= i < |homes| ==> homes[i] == i
  }

  /** If only last entries are removed, nothing ever moves. */
  lemma {:induction false} LastOnlyStaysHome(env: Env, w: World, events: seq<Event>)
    requires Conserved(env, w) && HomesOk(env, w) && AtHome(w.homes)
    requires AdmissibleRun(env, w, events) && LastOnlyRun(env, w, events)
    ensures AtHome(Run(env, w, events).homes)
    decreases |events|
  {
    hide LoadWord, Insert, Remove, StateAfter, BareAfter, ScratchAfter, Conserved;
    if events != [] {
      assert WellFormed(w.st.mem, env.status);
      NextConserves(env, w, events[0]);
      NextKeepsHomes(env, w, events[0]);
      StaysHome(env, w, events[0]);
      LastOnlyStaysHome(env, Next(env, w, events[0]), events[1..]);
    }
  }

  /** From a table at home, one event keeps it so iff it removes no other entry than the last. */
  lemma StaysHome(env: Env, w: World, e: Event)
    requires WellFormed(w.st.mem, env.status) && HomesOk(env, w) && AtHome(w.homes)
    ensures AtHome(HomesAfter(env, w, e)) <==> RemovesOnlyLast(w.st.mem, env.status, e)
  {
    hide LoadWord, Insert, Remove;
    if !RemovesOnlyLast(w.st.mem, env.status, e) {
      var k := IndexOf(Entries(w.st.mem, env.status), e.c.addr);
      assert HomesAfter(env, w, e)[k] == |w.homes| - 1 != k;
    }
  }

  // ---- A run in which an entry leaves its home

  lemma FreshTable(env: Env, m: Memory)
    requires ValidStatus(env.status) && BpSize(m, env.status) == 0
    ensures Conserved(env, Fresh(m)) && HomesOk(env, Fresh(m)) && Entries(m, env.status) == []
    ensures Patches(Entries(m, env.status)) == map[]
  {
    hide LoadWord;
    FreshSessionConserved(env, m);
    assert Entries(m, env.status) == [];
    PatchesAre([], map[]);
  }

  /** A first insertion of an address appends its entry at the end, at home there. */
  lemma InsertionStep(env: Env, w: World, addr: u32, kind: u8) returns (w': World)
    requires Conserved(env, w) && HomesOk(env, w) && Admissible(env, w, Host(InsertBreakpoint(addr, kind)))
    requires BpSize(w.st.mem, env.status) < NBR_POINTS
    requires IndexOf(Entries(w.st.mem, env.status), addr) == BpSize(w.st.mem, env.status)
    ensures w' == Next(env, w, Host(InsertBreakpoint(addr, kind))) && Conserved(env, w') && HomesOk(env, w')
    ensures w'.scratch == w.scratch && w'.homes == w.homes + [|w.homes|]
    ensures |Entries(w'.st.mem, env.status)| == |Entries(w.st.mem, env.status)| + 1
    ensures Entries(w'.st.mem, env.status)[..|w.homes|] == Entries(w.st.mem, env.status)
    ensures Entries(w'.st.mem, env.status)[|w.homes|].address == addr
  {
    hide LoadWord, Patches, Tracks, Live, GetBranch, FillSlot, StoreWord, Disjoint, IndexOf, Range, Wrap;
    w' := Next(env, w, Host(InsertBreakpoint(addr, kind)));
    NextConserves(env, w, Host(InsertBreakpoint(addr, kind)));
    NextKeepsHomes(env, w, Host(InsertBreakpoint(addr, kind)));
    InsertEffect(w.st.mem, env.status, addr, kind);
  }

  /** Removing the first of two entries moves the second, home and all, into slot 0. */
  lemma RemovalStep(env: Env, w: World, addr: u32, kind: u8) returns (w': World)
    requires Conserved(env, w) && HomesOk(env, w) && |w.homes| == 2 && Entries(w.st.mem, env.status)[0].address == addr
    ensures w' == Next(env, w, Host(RemoveBreakpoint(addr, kind))) && Conserved(env, w') && HomesOk(env, w')
    ensures w'.homes == [w.homes[1]] && Entries(w'.st.mem, env.status) == [Entries(w.st.mem, env.status)[1]]
  {
    hide LoadWord, Patches, Tracks, Live, GetBranch, Free, StoreWord, Disjoint, Range, Wrap;
    w' := Next(env, w, Host(RemoveBreakpoint(addr, kind)));
    NextConserves(env, w, Host(RemoveBreakpoint(addr, kind)));
    NextKeepsHomes(env, w, Host(RemoveBreakpoint(addr, kind)));
    RemoveEffect(w.st.mem, env.status, addr);
  }

  /** Insert a, insert b, remove a: the entry of b has moved from slot 1 to slot 0, and its branch
      now goes to b - 16 instead of b + 4. */
  lemma EntryLeavesHome(env: Env, m: Memory, a: u32, b: u32, kind: u8)
    requires ValidStatus(env.status) && BpSize(m, env.status) == 0 && a != b && a % 4 == 0 && b % 4 == 0
    requires Disjoint(a, 4, env.status, STATUS_SIZE) && Disjoint(b, 4, env.status, STATUS_SIZE)
    requires InReach(SlotAt(env.status, 1) + 12, Wrap(b + 4))
    ensures var events :=
        [Host(InsertBreakpoint(a, kind)), Host(InsertBreakpoint(b, kind)), Host(RemoveBreakpoint(a, kind))];
      AdmissibleRun(env, Fresh(m), events) &&
      var w := Run(env, Fresh(m), events);
      && WellFormed(w.st.mem, env.status) && BpSize(w.st.mem, env.status) == 1 && w.homes == [1]
      && var entry := Entries(w.st.mem, env.status)[0];
      && entry.address == b
      && BranchTarget(entry.back, SlotAt(env.status, 0) + 12) == Wrap(b - 16) != Wrap(b + 4)
  {
    hide LoadWord, Patches, Tracks, Live, GetBranch, Insert, Remove, Disjoint, InReach, BranchTarget, Next;
    var s := env.status;
    FreshTable(env, m);
    var e1, e2, e3 := Host(InsertBreakpoint(a, kind)), Host(InsertBreakpoint(b, kind)), Host(RemoveBreakpoint(a, kind));
    var w1 := InsertionStep(env, Fresh(m), a, kind);
    assert Entries(w1.st.mem, s) == [Entries(w1.st.mem, s)[0]];
    var w2 := InsertionStep(env, w1, b, kind);
    assert Entries(w2.st.mem, s)[0] == Entries(w2.st.mem, s)[..1][0] == Entries(w1.st.mem, s)[0];
    var w3 := RemovalStep(env, w2, a, kind);
    ThreeEvents(env, Fresh(m), e1, e2, e3);
    EntryReturns(env, w3, 0);
    SixteenBelow(b);
  }

  lemma SixteenBelow(b: u32)
    ensures Wrap(b + 4 + 20 * (0 - 1)) == Wrap(b - 16)
  {
  }

  // ---- A variant that encodes the branch again when it moves a slot

  /** free_breakpoint as it would have to be: the moved slot's branch is encoded for its new place. */
  function FreeAndEncode(m: Memory, s: u32, k: nat): Memory
    requires TableOk(m, s) && k < BpSize(m, s)
  {
    var address := EntryAt(m, s, BpSize(m, s) - 1).address;
    StoreWord(Free(m, s, k), SlotAt(s, k) + 12, BackFrom(s, k, address))
  }

  function RemoveAndEncode(m: Memory, s: u32, addr: u32): Memory
    requires WellFormed(m, s)
  {
    var k := IndexOf(Entries(m, s), addr);
    if k == BpSize(m, s) then m
    else
      var m1 := StoreWord(m, addr, EntryAt(m, s, k).saved);
      TableUntouched(m, s, addr, BytesOf(EntryAt(m, s, k).saved));
      FreeAndEncode(m1, s, k)
  }

  datatype TableOp = Put(addr: u32, kind: u8) | Take(addr: u32)

  function ApplyEncoding(m: Memory, s: u32, op: TableOp): Memory
    requires WellFormed(m, s)
  {
    match op
    case Put(addr, kind) => Insert(m, s, addr, kind).0
    case Take(addr) => RemoveAndEncode(m, s, addr)
  }

  ghost predicate ReturnsHome(m: Memory, s: u32) {
    && WellFormed(m, s)
    && forall i :: 0 <= i < BpSize(m, s) ==> Entries(m, s)[i].back == BackFrom(s, i, Entries(m, s)[i].address)
  }

  lemma EncodingStep(m: Memory, s: u32, op: TableOp)
    requires ReturnsHome(m, s) && (op.Put? ==> Disjoint(op.addr, 4, s, STATUS_SIZE))
    ensures ReturnsHome(ApplyEncoding(m, s, op), s)
  {
    hide LoadWord, BytesOf, Wrap, Disjoint, GetBranch, FillSlot, Free, StoreWord, IndexOf, Insert, Patches;
    match op
    case Put(addr, kind) =>
      TableRefinesMap(m, s, addr, kind);
      if Insert(m, s, addr, kind).1 == Success {
        InsertEffect(m, s, addr, kind);
      }
    case Take(addr) => if IndexOf(Entries(m, s), addr) < BpSize(m, s) { TakeStep(m, s, addr); }
  }

  lemma TakeStep(m: Memory, s: u32, addr: u32)
    requires ReturnsHome(m, s) && IndexOf(Entries(m, s), addr) < BpSize(m, s)
    ensures ReturnsHome(RemoveAndEncode(m, s, addr), s)
  {
    hide LoadWord, BytesOf, Wrap, Disjoint, GetBranch, Free, Write, IndexOf, Patches;
    var es := Entries(m, s);
    var k, last := IndexOf(es, addr), |es| - 1;
    var m1 := StoreWord(m, addr, es[k].saved);
    TableUntouched(m, s, addr, BytesOf(es[k].saved));
    FreeEffect(m1, s, k);
    PatchesRemove(es, k);
    var m2 := Free(m1, s, k);
    EncodeBack(m2, s, k, BackFrom(s, k, es[last].address));
    var m3 := RemoveAndEncode(m, s, addr);
    assert m3 == StoreWord(m2, SlotAt(s, k) + 12, BackFrom(s, k, es[last].address));
    forall i | 0 <= i < last
      ensures Entries(m3, s)[i] == (if i == k then es[last].(back := BackFrom(s, k, es[last].address)) else es[i])
    {
      assert Entries(m2, s)[i] == EntryAt(m2, s, i);
    }
  }

  /** Storing a slot's branch changes that field of that slot only. */
  lemma EncodeBack(m: Memory, s: u32, k: nat, back: u32)
    requires TableOk(m, s) && k < NBR_POINTS
    ensures var m' := StoreWord(m, SlotAt(s, k) + 12, back);
            && BpSize(m', s) == BpSize(m, s) && TableOk(m', s)
            && EntryAt(m', s, k) == EntryAt(m, s, k).(back := back)
            && forall i :: 0 <= i < NBR_POINTS && i != k ==> EntryAt(m', s, i) == EntryAt(m, s, i)
  {
    hide LoadWord, BytesOf, Wrap, Write;
    var a := SlotAt(s, k);
    var m' := StoreWord(m, a + 12, back);
    LoadStored(m, a + 12, back);
    LoadOutside(m, a + 4, a + 12, BytesOf(back));
    LoadOutside(m, a + 8, a + 12, BytesOf(back));
    WriteOutside(m, a + 12, BytesOf(back), a + 12, a + 16, a);
    WriteOutside(m, a + 12, BytesOf(back), a + 12, a + 16, a + 16);
    LoadOutside(m, s + 1284, a + 12, BytesOf(back));
    forall i | 0 <= i < NBR_POINTS && i != k ensures EntryAt(m', s, i) == EntryAt(m, s, i) {
      forall b | SlotAt(s, i) <= b < SlotAt(s, i) + 20 ensures m[b] == m'[b] {
        WriteOutside(m, a + 12, BytesOf(back), a + 12, a + 16, b);
      }
      EntrySame(m, m', s, i);
    }
  }

  /** The table after a run of the variant. */
  ghost function AfterEncoding(m: Memory, s: u32, ops: seq<TableOp>): Memory
    requires WellFormed(m, s)
    decreases |ops|
  {
    if ops == [] then m
    else
      var m' := ApplyEncoding(m, s, ops[0]);
      if WellFormed(m', s) then AfterEncoding(m', s, ops[1..]) else m'
  }

  /** With the branch encoded again on every move, every live entry in reach returns to the
      instruction after its patch, whatever was inserted and removed in whatever order. */
  lemma {:induction false} EncodingKeepsTargets(m: Memory, s: u32, ops: seq<TableOp>, i: nat)
    requires ReturnsHome(m, s)
    requires forall j :: 0 <= j < |ops| && ops[j].Put? ==> Disjoint(ops[j].addr, 4, s, STATUS_SIZE) && ops[j].addr % 4 == 0
    ensures var m' := AfterEncoding(m, s, ops);
            ReturnsHome(m', s) &&
            (i < BpSize(m', s) ==>
               var entry := Entries(m', s)[i];
               entry.address % 4 == 0 && InReach(SlotAt(s, i) + 12, Wrap(entry.address + 4)) ==>
                 BranchTarget(entry.back, SlotAt(s, i) + 12) == Wrap(entry.address + 4))
    decreases |ops|
  {
    hide LoadWord, GetBranch, InReach, BranchTarget, Disjoint, ApplyEncoding;
    if ops == [] {
      if i < BpSize(m, s) {
        var address: int := Entries(m, s)[i].address;
        if address % 4 == 0 && InReach(SlotAt(s, i) + 12, Wrap(address + 4)) {
          ReturnFrom(s, i, i, address);
        }
      }
    } else {
      EncodingStep(m, s, ops[0]);
      EncodingKeepsTargets(ApplyEncoding(m, s, ops[0]), s, ops[1..], i);
    }
  }

  /** The session with that variant: a removal encodes the moved branch again, so that every entry is
      at home where it is. */
  function NextEncoding(env: Env, w: World, e: Event): World
    requires WellFormed(w.st.mem, env.status) && Admissible(env, w, e)
  {
    var w' := Next(env, w, e);
    if e.Host? && e.c.RemoveBreakpoint? then
      World(w'.st.(mem := RemoveAndEncode(w.st.mem, env.status, e.c.addr)), w'.bare, w'.scratch,
            seq(|w'.homes|, i => i))
    else w'
  }

  ghost predicate AdmissibleEncodingRun(env: Env, w: World, events: seq<Event>)
    decreases |events|
  {
    events == [] ||
    (WellFormed(w.st.mem, env.status) && Admissible(env, w, events[0]) &&
     AdmissibleEncodingRun(env, NextEncoding(env, w, events[0]), events[1..]))
  }

  ghost function RunEncoding(env: Env, w: World, events: seq<Event>): World
    requires AdmissibleEncodingRun(env, w, events)
    decreases |events|
  {
    if events == [] then w else RunEncoding(env, NextEncoding(env, w, events[0]), events[1..])
  }

  /** Entries that differ in their branches only patch the same words. */
  lemma SamePatches(es: seq<Entry>, es': seq<Entry>)
    requires Distinct(es) && |es'| == |es|
    requires forall i :: 0 <= i < |es| ==> es'[i].address == es[i].address && es'[i].saved == es[i].saved
    ensures Distinct(es') && Patches(es') == Patches(es)
  {
    hide Patches, IndexOf;
    forall i | 0 <= i < |es'| ensures es'[i].address in Patches(es) && Patches(es)[es'[i].address] == es'[i].saved {
      PatchAt(es, i);
    }
    forall a | a in Patches(es) ensures IndexOf(es', a) < |es'| {
      InPatches(es, a);
      Found(es', IndexOf(es, a));
    }
    PatchesAre(es', Patches(es));
  }

  /** The overlay does not see the branches of the slots. */
  lemma BackUnseen(env: Env, w: World, k: nat, back: u32)
    requires Conserved(env, w) && k < NBR_POINTS
    ensures Conserved(env, w.(st := w.st.(mem := StoreWord(w.st.mem, SlotAt(env.status, k) + 12, back))))
  {
    hide LoadWord, BytesOf, Wrap, Write, Patches, Disjoint, IndexOf, Range;
    var m, s := w.st.mem, env.status;
    var m' := StoreWord(m, SlotAt(s, k) + 12, back);
    EncodeBack(m, s, k, back);
    SamePatches(Entries(m, s), Entries(m', s));
    forall b: u32 | !InStatus(s, b) ensures m'[b] == m[b] {
      WriteOutside(m, SlotAt(s, k) + 12, BytesOf(back), s, s + STATUS_SIZE, b);
    }
    var t := Patches(Entries(m, s));
    forall a | a in t ensures Live(m', a, w.scratch) {
      assert Live(m, a, w.scratch);
      PatchOutsideTable(m, s, a);
      LoadAligned(m, m', a);
    }
    forall b: u32 | !InStatus(s, b) && b !in w.scratch ensures w.bare[b] == Unpatched(m', s, b) {
      assert w.bare[b] == Unpatched(m, s, b);
    }
  }

  ghost predicate Homed(env: Env, w: World) {
    Conserved(env, w) && HomesOk(env, w) && AtHome(w.homes)
  }

  /** Every event of the variant keeps every entry at home, and the overlay. */
  lemma NextEncodingKeepsHome(env: Env, w: World, e: Event)
    requires Homed(env, w) && Admissible(env, w, e)
    ensures Homed(env, NextEncoding(env, w, e))
  {
    hide LoadWord, Patches, Tracks, Live, Next, RemoveAndEncode, Admissible, HomesOk, AtHome;
    NextConserves(env, w, e);
    NextKeepsHomes(env, w, e);
    if e.Host? && e.c.RemoveBreakpoint? {
      RemovalKeepsHome(env, w, e.c.addr, e.c.kind);
    } else {
      StaysHome(env, w, e);
      HomesOfNext(env, w, e);
    }
  }

  lemma HomesOfNext(env: Env, w: World, e: Event)
    requires WellFormed(w.st.mem, env.status) && Admissible(env, w, e)
    ensures Next(env, w, e).homes == HomesAfter(env, w, e)
  {
    hide LoadWord, StateAfter, BareAfter, ScratchAfter, HomesAfter;
  }

  lemma HomesFromReturns(env: Env, w: World)
    requires ReturnsHome(w.st.mem, env.status) && |w.homes| == BpSize(w.st.mem, env.status) && AtHome(w.homes)
    ensures HomesOk(env, w)
  {
    hide LoadWord, GetBranch;
  }

  lemma RemovalKeepsHome(env: Env, w: World, addr: u32, kind: u8)
    requires Homed(env, w)
    ensures Admissible(env, w, Host(RemoveBreakpoint(addr, kind)))
    ensures Homed(env, NextEncoding(env, w, Host(RemoveBreakpoint(addr, kind))))
  {
    hide LoadWord, Patches, Tracks, Live, BytesOf, Wrap, GetBranch, Free, Write, IndexOf, Disjoint;
    var m, s := w.st.mem, env.status;
    var e := Host(RemoveBreakpoint(addr, kind));
    var w' := Next(env, w, e);
    NextConserves(env, w, e);
    NextKeepsHomes(env, w, e);
    var k := IndexOf(Entries(m, s), addr);
    if k < BpSize(m, s) {
      TakeStep(m, s, addr);
      EncodedAfterRemove(m, s, addr);
      var back := BackFrom(s, k, Entries(m, s)[BpSize(m, s) - 1].address);
      BackUnseen(env, w', k, back);
      EncodeBack(w'.st.mem, s, k, back);
      var n := NextEncoding(env, w, e);
      assert n.st.mem == RemoveAndEncode(m, s, addr) && BpSize(n.st.mem, s) == |w'.homes| == |n.homes|;
      HomesFromReturns(env, n);
    } else {
      assert seq(|w'.homes|, i => i) == w'.homes;
    }
  }

  /** The variant's removal is the removal and then one store into the slot. */
  lemma EncodedAfterRemove(m: Memory, s: u32, addr: u32)
    requires WellFormed(m, s) && IndexOf(Entries(m, s), addr) < BpSize(m, s)
    ensures var k := IndexOf(Entries(m, s), addr);
      RemoveAndEncode(m, s, addr) ==
        StoreWord(Remove(m, s, addr).0, SlotAt(s, k) + 12, BackFrom(s, k, Entries(m, s)[BpSize(m, s) - 1].address))
  {
    hide LoadWord, BytesOf, Wrap, GetBranch, Free, Write, IndexOf, Disjoint;
    var k := IndexOf(Entries(m, s), addr);
    TableUntouched(m, s, addr, BytesOf(EntryAt(m, s, k).saved));
  }

  /** The same over whole sessions: with the branch encoded again on every move, after any run of
      commands, halts and stores every live entry in reach returns to the instruction after its
      patch, and the overlay holds. */
  lemma {:induction false} EncodingRunKeepsTargets(env: Env, w: World, events: seq<Event>, i: nat)
    requires Homed(env, w) && AdmissibleEncodingRun(env, w, events)
    ensures var w' := RunEncoding(env, w, events);
      && Homed(env, w')
      && (i < BpSize(w'.st.mem, env.status) ==>
            var entry := Entries(w'.st.mem, env.status)[i];
            InReach(SlotAt(env.status, i) + 12, Wrap(entry.address + 4)) ==>
              BranchTarget(entry.back, SlotAt(env.status, i) + 12) == Wrap(entry.address + 4))
    decreases |events|
  {
    hide LoadWord, NextEncoding, Admissible, InReach, BranchTarget, GetBranch, Patches, Tracks, Live;
    if events == [] {
      EntryReturns(env, w, i);
    } else {
      NextEncodingKeepsHome(env, w, events[0]);
      EncodingRunKeepsTargets(env, NextEncoding(env, w, events[0]), events[1..], i);
    }
  }
}
