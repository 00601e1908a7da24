/**
 * A word stands for one instruction only: whatever is correct for a word in the sense of
 * Armv7Encode.Correct is the same darm_t, label and members alike.
 */
module Armv7Unique {
  import opened Words
  import opened Armv7Tables
  import opened Armv7
  import opened Armv7Encode
  import opened Armv7Forms
  import opened Armv7Members

  predicate Alike(d: Darm, e: Darm, p: Word) {
    && ValidWord(p) && InRange(d) && InRange(e) && Settled(d) && Settled(e)
    && d.w == e.w && d.cond == p.cond && e.cond == p.cond
  }

  lemma SameShift(d: Darm, e: Darm)
    requires Shifted(d) && Shifted(e) && Settled(d) && Settled(e) && ShiftType(d) == ShiftType(e)
    requires d.rs == e.rs && (d.rs == NO_REG ==> d.shift == e.shift)
    ensures d.shiftType == e.shiftType
  {
  }

  lemma SameWidth(v: int, w: int, c: int)
    requires 0 <= v < 0x1_0000_0000 && 0 <= w < 0x1_0000_0000 && (v + c) % 0x1_0000_0000 == (w + c) % 0x1_0000_0000
    ensures v == w
  {
  }

  lemma UniqueMul(d: Darm, e: Darm, p: Word)
    requires Alike(d, e, p) && ReadsMul(d, p) && ReadsMul(e, p)
    ensures d == e
  {
    MulLabels(d.instr, e.instr);
  }

  lemma UniqueStack1(d: Darm, e: Darm, p: Word)
    requires Alike(d, e, p) && ReadsStack1(d, p) && ReadsStack1(e, p)
    ensures d == e
  {
    HalfFields(d, 1, p);
    HalfFields(e, 1, p);
    HalfLabels(d.instr, e.instr);
    hide EncodeHalf, Digits, HalfCode;
  }

  lemma UniqueStack2(d: Darm, e: Darm, p: Word)
    requires Alike(d, e, p) && ReadsStack2(d, p) && ReadsStack2(e, p)
    ensures d == e
  {
    HalfFields(d, d.wBit, p);
    HalfFields(e, e.wBit, p);
    HalfLabels(d.instr, e.instr);
    hide EncodeHalf, Digits, HalfCode;
  }

  lemma UniqueSync(d: Darm, e: Darm, p: Word)
    requires Alike(d, e, p) && ReadsSync(d, p) && ReadsSync(e, p)
    ensures d == e
  {
    SyncLabels(d.instr, e.instr);
    hide SyncCode;
  }

  lemma UniqueStack0(d: Darm, e: Darm, p: Word)
    requires Alike(d, e, p) && ReadsStack0(d, p) && ReadsStack0(e, p)
    ensures d == e
  {
    hide EncodeStack0, Digits, TransferCode, Low12, ShiftType, ShiftHigh, ShiftLow;
    Stack0Fields(d, p);
    Stack0Fields(e, p);
    if d.iBit == NO_BIT {
      SameShift(d, e);
    }
    Stack0Labels(d, e, p);
  }

  lemma UniqueSat(d: Darm, e: Darm, p: Word)
    requires Alike(d, e, p) && ReadsSat(d, p) && ReadsSat(e, p)
    ensures d == e
  {
    SatLabels(d.instr, e.instr);
  }

  lemma UniquePusr(d: Darm, e: Darm, p: Word)
    requires Alike(d, e, p) && ReadsPusr(d, p) && ReadsPusr(e, p)
    ensures d == e
  {
    hide EncodePusr, Digits, ExtendCode, ExtendAdds, ShiftType, Op, Nibble4;
    PusrLabels(d, p);
    PusrLabels(e, p);
    NoExtend(d.instr);
    NoExtend(e.instr);
    if Nibble4(p) == 7 {
      ExtendFields(d, p);
      ExtendFields(e, p);
      ExtendLabels(d.instr, e.instr);
    } else if Nibble4(p) == 3 {
      SaturateHalvesFields(d, p);
      SaturateHalvesFields(e, p);
    } else {
      SaturateFields(d, p);
      SaturateFields(e, p);
      SameShift(d, e);
    }
  }

  lemma UniqueArithShift(d: Darm, e: Darm, p: Word)
    requires Alike(d, e, p) && ReadsArithShift(d, p) && ReadsArithShift(e, p)
    ensures d == e
  {
    ComputesLabels(d.instr, e.instr);
    hide ArithCode, Computes;
  }

  lemma UniqueArithImm(d: Darm, e: Darm, p: Word)
    requires Alike(d, e, p) && ReadsArithImm(d, p) && ReadsArithImm(e, p)
    ensures d == e
  {
    hide EncodeArithImm, Digits, ArithCode, Computes, Low12, ExpandImm, Op;
    ArithImmFields(d, p);
    ArithImmFields(e, p);
    if !d.instr.Adr? {
      ComputesLabels(d.instr, e.instr);
    }
  }

  lemma UniqueBits(d: Darm, e: Darm, p: Word)
    requires Alike(d, e, p) && ReadsBits(d, p) && ReadsBits(e, p)
    ensures d == e
  {
    hide EncodeBits, Digits, Op;
    FieldKind(d, p);
    FieldKind(e, p);
    FieldSize(d, p);
    FieldSize(e, p);
    if d.instr.Bfi? || d.instr.Bfc? {
      SameWidth(d.width, e.width, d.lsb - 1);
    }
  }

  lemma UniqueBranch(d: Darm, e: Darm, p: Word)
    requires Alike(d, e, p) && ReadsBranch(d, p) && ReadsBranch(e, p) && BranchExact(d, p) && BranchExact(e, p)
    ensures d == e
  {
    hide EncodeBranch, Digits, Op, Low24, SignExtended;
    BranchKind(d, p);
    BranchKind(e, p);
    if d.instr.Svc? {
      SvcField(d, p);
      SvcField(e, p);
    }
  }

  lemma UniqueBranchMisc(d: Darm, e: Darm, p: Word)
    requires Alike(d, e, p) && ReadsBranchMisc(d, p) && ReadsBranchMisc(e, p)
    ensures d == e
  {
    hide EncodeBranchMisc, Digits, Nibble4, Op, Low12;
    BranchMiscKind(d, p);
    BranchMiscKind(e, p);
  }

  lemma UniqueMovImm(d: Darm, e: Darm, p: Word)
    requires Alike(d, e, p) && ReadsMovImm(d, p) && ReadsMovImm(e, p)
    ensures d == e
  {
    hide EncodeMovImm, Digits, Low12, ExpandImm, Op;
    MovImmFields(d, p);
    MovImmFields(e, p);
  }

  lemma UniqueCmpOp(d: Darm, e: Darm, p: Word)
    requires Alike(d, e, p) && ReadsCmpOp(d, p) && ReadsCmpOp(e, p)
    ensures d == e
  {
    ComparesLabels(d.instr, e.instr);
    hide ArithCode, Compares;
  }

  lemma UniqueCmpImm(d: Darm, e: Darm, p: Word)
    requires Alike(d, e, p) && ReadsCmpImm(d, p) && ReadsCmpImm(e, p)
    ensures d == e
  {
    ComparesLabels(d.instr, e.instr);
    hide ArithCode, Compares;
  }

  lemma UniqueOpless(d: Darm, e: Darm, p: Word)
    requires Alike(d, e, p) && ReadsOpless(d, p) && ReadsOpless(e, p)
    ensures d == e
  {
    HintLabels(d.instr, e.instr);
  }

  lemma UniqueDstSrc(d: Darm, e: Darm, p: Word)
    requires Alike(d, e, p) && ReadsDstSrc(d, p) && ReadsDstSrc(e, p)
    ensures d == e
  {
    hide EncodeDstSrc, Digits, ShiftCode, ShiftType, Op, Nibble4;
    DstSrcFields(d, p);
    DstSrcFields(e, p);
    DstSrcLabels(d.instr);
    DstSrcLabels(e.instr);
    SameShift(d, e);
  }

  lemma UniqueLdstregs(d: Darm, e: Darm, p: Word)
    requires Alike(d, e, p) && ReadsLdstregs(d, p) && ReadsLdstregs(e, p)
    ensures d == e
  {
    hide EncodeLdstregs, Digits, BlockCode, Low16, Op;
    BlockFields(d, p);
    BlockFields(e, p);
    BlockList(d.instr);
    BlockList(e.instr);
  }

  lemma UniqueBitrev(d: Darm, e: Darm, p: Word)
    requires Alike(d, e, p) && ReadsBitrev(d, p) && ReadsBitrev(e, p)
    ensures d == e
  {
  }

  lemma UniqueMisc(d: Darm, e: Darm, p: Word)
    requires Alike(d, e, p) && ReadsMisc(d, p) && ReadsMisc(e, p)
    ensures d == e
  {
    hide EncodeMisc, Digits, Op, Nibble4, ShiftType, ShiftHigh, ShiftLow;
    MiscKind(d, p);
    MiscKind(e, p);
    if d.instr.Mvn? {
      MvnFields(d, p);
      MvnFields(e, p);
      SameShift(d, e);
    } else if d.instr.Pkh? {
      PkhFields(d, p);
      PkhFields(e, p);
      SameShift(d, e);
    } else {
      OtherMiscFields(d, p);
      OtherMiscFields(e, p);
    }
  }

  lemma UniqueSm(d: Darm, e: Darm, p: Word)
    requires Alike(d, e, p) && ReadsSm(d, p) && ReadsSm(e, p)
    ensures d == e
  {
    hide EncodeSm, Digits, Op, Nibble4;
    SmKind(d, p);
    SmKind(e, p);
    SmFields(d, p);
    SmFields(e, p);
  }

  lemma UniquePas(d: Darm, e: Darm, p: Word)
    requires Alike(d, e, p) && ReadsPas(d, p) && ReadsPas(e, p)
    ensures d == e
  {
    ParallelLabels(d.instr, e.instr);
  }

  lemma UniqueMvcr(d: Darm, e: Darm, p: Word)
    requires Alike(d, e, p) && ReadsMvcr(d, p) && ReadsMvcr(e, p)
    ensures d == e
  {
    hide EncodeMvcr, Digits, Op, Nibble4;
    CoprocessorFields(d, p);
    CoprocessorFields(e, p);
  }

  lemma UniqueUdf(d: Darm, e: Darm, p: Word)
    requires Alike(d, e, p) && ReadsUdf(d, p) && ReadsUdf(e, p)
    ensures d == e
  {
    hide EncodeUdf, Digits;
    UdfField(d, p);
    UdfField(e, p);
  }

  lemma UniqueUncond(d: Darm, e: Darm, p: Word)
    requires Alike(d, e, p) && ReadsUncond(d, p) && ReadsUncond(e, p)
    ensures d == e
  {
    hide ReadsUncond, BarrierWord;
    UncondKind(d, p);
    UncondKind(e, p);
    UniqueBarrier(d, e, p);
    UniquePreload(d, e, p);
    UniqueOtherUncond(d, e, p);
  }

  lemma UniqueBarrier(d: Darm, e: Darm, p: Word)
    requires Alike(d, e, p) && ReadsUncond(d, p) && ReadsUncond(e, p)
    ensures IsBarrier(d.instr) && IsBarrier(e.instr) ==> d == e
  {
    if IsBarrier(d.instr) && IsBarrier(e.instr) {
      hide EncodeUncond, BarrierWord, Digits;
      BarrierFields(d, p);
      BarrierFields(e, p);
    }
  }

  lemma UniquePreload(d: Darm, e: Darm, p: Word)
    requires Alike(d, e, p) && ReadsUncond(d, p) && ReadsUncond(e, p)
    ensures IsPreload(d.instr) && IsPreload(e.instr) ==> d == e
  {
    if IsPreload(d.instr) && IsPreload(e.instr) {
      hide EncodeUncond, BarrierWord, Digits, ShiftType, Low12;
      PreloadFields(d, p);
      PreloadFields(e, p);
      if d.iBit == NO_BIT {
        SameShift(d, e);
      }
    }
  }

  lemma UniqueOtherUncond(d: Darm, e: Darm, p: Word)
    requires Alike(d, e, p) && ReadsUncond(d, p) && ReadsUncond(e, p)
    ensures d.instr.Setend? && e.instr.Setend? ==> d == e
    ensures d.instr.Blx? && e.instr.Blx? ==> d == e
    ensures IsCoprocessor2(d.instr) && IsCoprocessor2(e.instr) ==> d == e
  {
    hide EncodeUncond, BarrierWord, Digits, Low24, SignExtended;
    if d.instr.Setend? && e.instr.Setend? {
      SetendFields(d, p);
      SetendFields(e, p);
    } else if d.instr.Blx? && e.instr.Blx? {
      BlxFields(d, p);
      BlxFields(e, p);
    } else if IsCoprocessor2(d.instr) && IsCoprocessor2(e.instr) {
      Coprocessor2Fields(d, p);
      Coprocessor2Fields(e, p);
    }
  }

  // Which encoding a conditional word belongs to.

  /** By bits 20 to 27 and 4 to 7. */
  function RowOf(op: int, n: int): Encoding
    requires 0 <= op < 256 && 0 <= n < 16
  {
    if op < 32 && (n == 9 || n == 11 || n == 13 || n == 15) then
      if op < 16 && n == 9 then ArmMul
      else if op < 16 && op / 2 % 2 == 1 then ArmStack1
      else if n != 9 then ArmStack2
      else if op == 16 || op == 20 || op >= 24 then ArmSync
      else EncodingAt(op)
    else if 64 <= op < 96 || (96 <= op < 128 && n % 2 == 0) then ArmStack0
    else if (op == 16 || op == 18 || op == 20 || op == 22) && n == 5 then ArmSat
    else if 104 <= op < 112 && SaturatesOrExtends(op, n) then ArmPusr
    else if op == 22 && n >= 8 && n % 2 == 0 then ArmSm
    else EncodingAt(op)
  }

  predicate SaturatesOrExtends(op: int, n: int) {
    || (n == 7 && op != 105 && op != 109)
    || (n % 4 == 1 && (op == 106 || op == 107 || op == 110 || op == 111))
    || (n == 3 && (op == 106 || op == 110))
  }

  predicate Decoded(d: Darm, p: Word) {
    ValidWord(p) && InRange(d) && d.cond == p.cond
  }

  lemma OpRange(p: Word)
    requires ValidWord(p)
    ensures 0 <= Op(p) < 256 && 0 <= Nibble4(p) < 16
  {
  }

  lemma WideRows(op: int, n: int)
    requires 128 <= op < 256 && 0 <= n < 16
    ensures 224 <= op < 240 ==> RowOf(op, n).ArmMvcr?
    ensures 160 <= op < 192 || 240 <= op ==> RowOf(op, n).ArmBrnchsc?
    ensures op < 132 || 136 <= op < 140 || 144 <= op < 148 || 152 <= op < 156 ==> RowOf(op, n).ArmLdstregs?
  {
  }

  lemma OtherRows(op: int, n: int)
    requires 0 <= op < 256 && 0 <= n < 16
    ensures op < 16 && n == 9 ==> RowOf(op, n).ArmMul?
    ensures (op == 16 || op == 20 || 24 <= op < 32) && n == 9 ==> RowOf(op, n).ArmSync?
    ensures 64 <= op < 96 || (96 <= op < 128 && n % 2 == 0) ==> RowOf(op, n).ArmStack0?
    ensures (op == 16 || op == 18 || op == 20 || op == 22) && n == 5 ==> RowOf(op, n).ArmSat?
    ensures 104 <= op < 112 && SaturatesOrExtends(op, n) ==> RowOf(op, n).ArmPusr?
    ensures 122 <= op < 127 && n % 2 == 1 ==> RowOf(op, n).ArmBits?
    ensures op == 18 && (n < 4 || n == 7) ==> RowOf(op, n).ArmBrnchmisc?
    ensures op == 48 || op == 52 || 58 <= op < 60 || 62 <= op < 64 ==> RowOf(op, n).ArmMovImm?
    ensures op == 50 ==> RowOf(op, n).ArmOpless?
    ensures (op == 107 || op == 111) && (n == 3 || n == 11 || n == 15) ==> RowOf(op, n).ArmBitrev?
    ensures (30 <= op < 32 && (n < 8 || n % 2 == 0)) || (op == 22 && (n == 1 || n == 7)) ==> RowOf(op, n).ArmMisc?
    ensures op == 104 && n % 2 == 1 && n != 7 ==> RowOf(op, n).ArmMisc?
    ensures (op == 22 && n >= 8 && n % 2 == 0) || ((op == 16 || op == 20) && (n < 8 || n % 2 == 0) && n != 5) ==>
              RowOf(op, n).ArmSm?
    ensures (op == 112 || op == 116 || op == 117) && n % 2 == 1 ==> RowOf(op, n).ArmSm?
    ensures (97 <= op < 100 || 101 <= op < 104) && n % 2 == 1 ==> RowOf(op, n).ArmPas?
    ensures op == 127 && n % 2 == 1 ==> RowOf(op, n).ArmUdf?
  {
  }

  lemma SyncRange(i: Instr)
    ensures var c := SyncCode(i); c == -1 || c == 0 || c == 4 || 8 <= c < 16
  {
  }

  lemma ParallelRange(i: Instr)
    ensures var c := ParallelHigh(i); c == -1 || 1 <= c < 4 || 5 <= c < 8
    ensures 0 <= ParallelLow(i) < 8
  {
  }

  lemma DataRows(op: int, n: int)
    requires 0 <= op < 64 && 0 <= n < 16
    ensures (op < 16 || 24 <= op < 26 || 28 <= op < 30) && (n < 8 || n % 2 == 0) ==> RowOf(op, n).ArmArithShift?
    ensures 32 <= op < 48 || 56 <= op < 58 || 60 <= op < 62 ==> RowOf(op, n).ArmArithImm?
    ensures (op == 17 || op == 19 || op == 21 || op == 23) && (n < 8 || n % 2 == 0 || n == 9) ==> RowOf(op, n).ArmCmpOp?
    ensures op == 49 || op == 51 || op == 53 || op == 55 ==> RowOf(op, n).ArmCmpImm?
    ensures (op == 26 || op == 27) && (n < 8 || n % 2 == 0) ==> RowOf(op, n).ArmDstSrc?
  {
  }

  lemma ComparesRange(i: Instr)
    requires Compares(i)
    ensures 8 <= ArithCode(i) < 12
  {
  }

  lemma MulRange(i: Instr)
    ensures -1 <= MulCode(i) < 8
  {
  }

  lemma Stack0Row(d: Darm, p: Word)
    requires Decoded(d, p) && ReadsStack0(d, p)
    ensures 64 <= Op(p) < 96 || (96 <= Op(p) < 128 && Nibble4(p) % 2 == 0)
  {
    hide Op, Nibble4;
    if TransferCode(d.instr) >= 0 {
      TransferCodes(d.instr);
    }
  }

  lemma PusrRow(d: Darm, p: Word)
    requires Decoded(d, p) && ReadsPusr(d, p)
    ensures 104 <= Op(p) < 112 && SaturatesOrExtends(Op(p), Nibble4(p))
  {
    hide Op;
    PusrLabels(d, p);
    NoExtend(d.instr);
    ExtendRange(d.instr);
  }

  lemma ExtendRange(i: Instr)
    ensures ExtendCode(i) != 1 && ExtendCode(i) != 5
  {
  }

  lemma ComputesRange(i: Instr)
    requires Computes(i)
    ensures var c := ArithCode(i); 0 <= c < 8 || c == 12 || c == 14
  {
  }

  lemma MulOps(d: Darm, p: Word)
    requires Decoded(d, p) && ReadsMul(d, p)
    ensures Op(p) < 16 && Nibble4(p) == 9
  {
    MulRange(d.instr);
    hide FormMul, Op, Nibble4, MulCode;
  }

  lemma RowMul(d: Darm, p: Word)
    requires Decoded(d, p) && ReadsMul(d, p)
    ensures 0 <= Op(p) < 256 && 0 <= Nibble4(p) < 16 && RowOf(Op(p), Nibble4(p)).ArmMul?
  {
    OpRange(p);
    MulOps(d, p);
    hide RowOf, ReadsMul, Op, Nibble4;
    OtherRows(Op(p), Nibble4(p));
  }

  lemma HalfOps(d: Darm, wBit: int, p: Word)
    requires Decoded(d, p) && EncodeHalf(d, wBit, p) == Digits(p) && Bit(d.pBit) && Bit(d.uBit) && Bit(wBit)
    requires d.iBit == 1 || d.iBit == NO_BIT
    ensures Op(p) < 32 && (Op(p) < 16 <==> d.pBit == 0) && Op(p) / 2 % 2 == wBit
    ensures Nibble4(p) == 11 || Nibble4(p) == 13 || Nibble4(p) == 15
  {
    HalfCodes(d.instr);
    hide HalfCode, Op, Nibble4;
  }

  lemma HalfRows(op: int, n: int)
    requires 0 <= op < 32 && (n == 11 || n == 13 || n == 15)
    ensures op < 16 && op / 2 % 2 == 1 ==> RowOf(op, n).ArmStack1?
    ensures op >= 16 || op / 2 % 2 == 0 ==> RowOf(op, n).ArmStack2?
  {
  }

  lemma RowStack1(d: Darm, p: Word)
    requires Decoded(d, p) && ReadsStack1(d, p)
    ensures 0 <= Op(p) < 256 && 0 <= Nibble4(p) < 16 && RowOf(Op(p), Nibble4(p)).ArmStack1?
  {
    OpRange(p);
    HalfOps(d, 1, p);
    hide RowOf, ReadsStack1, Op, Nibble4;
    HalfRows(Op(p), Nibble4(p));
  }

  lemma RowStack2(d: Darm, p: Word)
    requires Decoded(d, p) && ReadsStack2(d, p)
    ensures 0 <= Op(p) < 256 && 0 <= Nibble4(p) < 16 && RowOf(Op(p), Nibble4(p)).ArmStack2?
  {
    OpRange(p);
    HalfOps(d, d.wBit, p);
    hide RowOf, ReadsStack2, Op, Nibble4;
    HalfRows(Op(p), Nibble4(p));
  }

  lemma SyncOps(d: Darm, p: Word)
    requires Decoded(d, p) && ReadsSync(d, p)
    ensures (Op(p) == 16 || Op(p) == 20 || 24 <= Op(p) < 32) && Nibble4(p) == 9
  {
    SyncRange(d.instr);
    hide FormSync, Op, Nibble4, SyncCode;
  }

  lemma RowSync(d: Darm, p: Word)
    requires Decoded(d, p) && ReadsSync(d, p)
    ensures 0 <= Op(p) < 256 && 0 <= Nibble4(p) < 16 && RowOf(Op(p), Nibble4(p)).ArmSync?
  {
    OpRange(p);
    SyncOps(d, p);
    hide RowOf, ReadsSync, Op, Nibble4;
    OtherRows(Op(p), Nibble4(p));
  }

  lemma RowStack0(d: Darm, p: Word)
    requires Decoded(d, p) && ReadsStack0(d, p)
    ensures 0 <= Op(p) < 256 && 0 <= Nibble4(p) < 16 && RowOf(Op(p), Nibble4(p)).ArmStack0?
  {
    OpRange(p);
    Stack0Row(d, p);
    hide RowOf, ReadsStack0, Op, Nibble4;
    OtherRows(Op(p), Nibble4(p));
  }

  lemma SatOps(d: Darm, p: Word)
    requires Decoded(d, p) && ReadsSat(d, p)
    ensures (Op(p) == 16 || Op(p) == 18 || Op(p) == 20 || Op(p) == 22) && Nibble4(p) == 5
  {
    hide FormThree, Op, Nibble4;
  }

  lemma RowSat(d: Darm, p: Word)
    requires Decoded(d, p) && ReadsSat(d, p)
    ensures 0 <= Op(p) < 256 && 0 <= Nibble4(p) < 16 && RowOf(Op(p), Nibble4(p)).ArmSat?
  {
    OpRange(p);
    SatOps(d, p);
    hide RowOf, ReadsSat, Op, Nibble4;
    OtherRows(Op(p), Nibble4(p));
  }

  lemma RowPusr(d: Darm, p: Word)
    requires Decoded(d, p) && ReadsPusr(d, p)
    ensures 0 <= Op(p) < 256 && 0 <= Nibble4(p) < 16 && RowOf(Op(p), Nibble4(p)).ArmPusr?
  {
    OpRange(p);
    PusrRow(d, p);
    hide RowOf, ReadsPusr, Op, Nibble4, SaturatesOrExtends;
    OtherRows(Op(p), Nibble4(p));
  }

  lemma ArithShiftOps(d: Darm, p: Word)
    requires Decoded(d, p) && ReadsArithShift(d, p)
    ensures (Op(p) < 16 || 24 <= Op(p) < 26 || 28 <= Op(p) < 30) && (p.b7 == 0 || p.b4 == 0)
  {
    hide FormArithShift, Op, Nibble4, ArithCode, Computes, ShiftType, ShiftHigh, ShiftLow;
    ComputesRange(d.instr);
    ShiftFields(d, p);
  }

  lemma RowArithShift(d: Darm, p: Word)
    requires Decoded(d, p) && ReadsArithShift(d, p)
    ensures 0 <= Op(p) < 256 && 0 <= Nibble4(p) < 16 && RowOf(Op(p), Nibble4(p)).ArmArithShift?
  {
    OpRange(p);
    ArithShiftOps(d, p);
    hide RowOf, ReadsArithShift, Op;
    DataRows(Op(p), Nibble4(p));
  }

  lemma ArithImmOps(d: Darm, p: Word)
    requires Decoded(d, p) && ReadsArithImm(d, p)
    ensures (32 <= Op(p) < 48 || 56 <= Op(p) < 58 || 60 <= Op(p) < 62)
  {
    hide EncodeArithImm, Digits, ArithCode, Computes, Low12, ExpandImm, Op;
    ArithImmFields(d, p);
    if !d.instr.Adr? {
      ComputesRange(d.instr);
    }
  }

  lemma RowArithImm(d: Darm, p: Word)
    requires Decoded(d, p) && ReadsArithImm(d, p)
    ensures 0 <= Op(p) < 256 && 0 <= Nibble4(p) < 16 && RowOf(Op(p), Nibble4(p)).ArmArithImm?
  {
    OpRange(p);
    ArithImmOps(d, p);
    hide RowOf, ReadsArithImm, Op;
    DataRows(Op(p), Nibble4(p));
  }

  lemma BitsOps(d: Darm, p: Word)
    requires Decoded(d, p) && ReadsBits(d, p)
    ensures 122 <= Op(p) < 127 && Nibble4(p) % 2 == 1
  {
    hide FormBits, Op, Nibble4;
  }

  lemma RowBits(d: Darm, p: Word)
    requires Decoded(d, p) && ReadsBits(d, p)
    ensures 0 <= Op(p) < 256 && 0 <= Nibble4(p) < 16 && RowOf(Op(p), Nibble4(p)).ArmBits?
  {
    OpRange(p);
    BitsOps(d, p);
    hide RowOf, ReadsBits, Op, Nibble4;
    OtherRows(Op(p), Nibble4(p));
  }

  lemma BranchOps(d: Darm, p: Word)
    requires Decoded(d, p) && ReadsBranch(d, p)
    ensures (160 <= Op(p) < 192 || 240 <= Op(p) < 256)
  {
    OpRange(p);
    BranchKind(d, p);
    hide FormBranch, Op, Nibble4;
    var f := d.imm / 4 % 0x100_0000;
    assert 0 <= f / 0x10_0000 < 16 && d.imm / 0x10_0000 >= 0;
  }

  lemma RowBranch(d: Darm, p: Word)
    requires Decoded(d, p) && ReadsBranch(d, p)
    ensures 0 <= Op(p) < 256 && 0 <= Nibble4(p) < 16 && RowOf(Op(p), Nibble4(p)).ArmBrnchsc?
  {
    OpRange(p);
    BranchOps(d, p);
    hide RowOf, ReadsBranch, Op, Nibble4;
    WideRows(Op(p), Nibble4(p));
  }

  lemma BranchMiscOps(d: Darm, p: Word)
    requires Decoded(d, p) && ReadsBranchMisc(d, p)
    ensures Op(p) == 18 && (Nibble4(p) < 4 || Nibble4(p) == 7)
  {
    hide FormBranchMisc, Op, Nibble4;
  }

  lemma RowBranchMisc(d: Darm, p: Word)
    requires Decoded(d, p) && ReadsBranchMisc(d, p)
    ensures 0 <= Op(p) < 256 && 0 <= Nibble4(p) < 16 && RowOf(Op(p), Nibble4(p)).ArmBrnchmisc?
  {
    OpRange(p);
    BranchMiscOps(d, p);
    hide RowOf, ReadsBranchMisc, Op, Nibble4;
    OtherRows(Op(p), Nibble4(p));
  }

  lemma MovImmOps(d: Darm, p: Word)
    requires Decoded(d, p) && ReadsMovImm(d, p)
    ensures (Op(p) == 48 || Op(p) == 52 || 58 <= Op(p) < 60 || 62 <= Op(p) < 64)
  {
    hide EncodeMovImm, Digits, Low12, ExpandImm, Op;
    MovImmFields(d, p);
  }

  lemma RowMovImm(d: Darm, p: Word)
    requires Decoded(d, p) && ReadsMovImm(d, p)
    ensures 0 <= Op(p) < 256 && 0 <= Nibble4(p) < 16 && RowOf(Op(p), Nibble4(p)).ArmMovImm?
  {
    OpRange(p);
    MovImmOps(d, p);
    hide RowOf, ReadsMovImm, Op, Nibble4;
    OtherRows(Op(p), Nibble4(p));
  }

  lemma CmpOpOps(d: Darm, p: Word)
    requires Decoded(d, p) && ReadsCmpOp(d, p)
    ensures Op(p) == 17 || Op(p) == 19 || Op(p) == 21 || Op(p) == 23
    ensures p.b7 == 1 && p.b4 == 1 ==> p.b6 == 0 && p.b5 == 0
  {
    hide FormCmpOp, Op, Nibble4, ArithCode, Compares;
    ComparesRange(d.instr);
  }

  lemma RowCmpOp(d: Darm, p: Word)
    requires Decoded(d, p) && ReadsCmpOp(d, p)
    ensures 0 <= Op(p) < 256 && 0 <= Nibble4(p) < 16 && RowOf(Op(p), Nibble4(p)).ArmCmpOp?
  {
    OpRange(p);
    CmpOpOps(d, p);
    hide RowOf, ReadsCmpOp, Op;
    DataRows(Op(p), Nibble4(p));
  }

  lemma CmpImmOps(d: Darm, p: Word)
    requires Decoded(d, p) && ReadsCmpImm(d, p)
    ensures Op(p) == 49 || Op(p) == 51 || Op(p) == 53 || Op(p) == 55
  {
    hide FormCmpImm, Op, Nibble4, ArithCode, Compares, Low12, ExpandImm;
    ComparesRange(d.instr);
  }

  lemma RowCmpImm(d: Darm, p: Word)
    requires Decoded(d, p) && ReadsCmpImm(d, p)
    ensures 0 <= Op(p) < 256 && 0 <= Nibble4(p) < 16 && RowOf(Op(p), Nibble4(p)).ArmCmpImm?
  {
    OpRange(p);
    CmpImmOps(d, p);
    hide RowOf, ReadsCmpImm, Op;
    DataRows(Op(p), Nibble4(p));
  }

  lemma OplessOps(d: Darm, p: Word)
    requires Decoded(d, p) && ReadsOpless(d, p)
    ensures Op(p) == 50
  {
    hide Blank, Op, Nibble4, HintCode;
  }

  lemma RowOpless(d: Darm, p: Word)
    requires Decoded(d, p) && ReadsOpless(d, p)
    ensures 0 <= Op(p) < 256 && 0 <= Nibble4(p) < 16 && RowOf(Op(p), Nibble4(p)).ArmOpless?
  {
    OpRange(p);
    OplessOps(d, p);
    hide RowOf, ReadsOpless, Op, Nibble4;
    OtherRows(Op(p), Nibble4(p));
  }

  lemma DstSrcOps(d: Darm, p: Word)
    requires Decoded(d, p) && ReadsDstSrc(d, p)
    ensures (Op(p) == 26 || Op(p) == 27) && (p.b7 == 0 || p.b4 == 0)
  {
    hide EncodeDstSrc, Digits, ShiftCode, ShiftType, Op, Nibble4;
    DstSrcFields(d, p);
  }

  lemma RowDstSrc(d: Darm, p: Word)
    requires Decoded(d, p) && ReadsDstSrc(d, p)
    ensures 0 <= Op(p) < 256 && 0 <= Nibble4(p) < 16 && RowOf(Op(p), Nibble4(p)).ArmDstSrc?
  {
    OpRange(p);
    DstSrcOps(d, p);
    hide RowOf, ReadsDstSrc, Op;
    DataRows(Op(p), Nibble4(p));
  }

  lemma LdstregsOps(d: Darm, p: Word)
    requires Decoded(d, p) && ReadsLdstregs(d, p)
    ensures Op(p) < 132 || 136 <= Op(p) < 140 || 144 <= Op(p) < 148 || 152 <= Op(p) < 156
    ensures Op(p) >= 128
  {
    hide FormLdstregs, Op, Nibble4, BlockCode;
    if BlockCode(d.instr) >= 0 {
      BlockList(d.instr);
    }
  }

  lemma RowLdstregs(d: Darm, p: Word)
    requires Decoded(d, p) && ReadsLdstregs(d, p)
    ensures 0 <= Op(p) < 256 && 0 <= Nibble4(p) < 16 && RowOf(Op(p), Nibble4(p)).ArmLdstregs?
  {
    OpRange(p);
    LdstregsOps(d, p);
    hide RowOf, ReadsLdstregs, Op, Nibble4;
    WideRows(Op(p), Nibble4(p));
  }

  lemma BitrevOps(d: Darm, p: Word)
    requires Decoded(d, p) && ReadsBitrev(d, p)
    ensures (Op(p) == 107 || Op(p) == 111) && (Nibble4(p) == 3 || Nibble4(p) == 11 || Nibble4(p) == 15)
  {
    hide FormBitrev, Op, Nibble4;
  }

  lemma RowBitrev(d: Darm, p: Word)
    requires Decoded(d, p) && ReadsBitrev(d, p)
    ensures 0 <= Op(p) < 256 && 0 <= Nibble4(p) < 16 && RowOf(Op(p), Nibble4(p)).ArmBitrev?
  {
    OpRange(p);
    BitrevOps(d, p);
    hide RowOf, ReadsBitrev, Op, Nibble4;
    OtherRows(Op(p), Nibble4(p));
  }

  lemma MiscOps(d: Darm, p: Word)
    requires Decoded(d, p) && ReadsMisc(d, p)
    ensures (30 <= Op(p) < 32 && (p.b7 == 0 || p.b4 == 0)) || (Op(p) == 22 && (Nibble4(p) == 1 || Nibble4(p) == 7)) ||
            (Op(p) == 104 && p.b4 == 1 && Nibble4(p) != 7)
  {
    hide FormMisc, Op, ShiftType, Nibble4;
    MiscKind(d, p);
    if d.instr.Mvn? {
      ShiftFields(d, p);
    } else if d.instr.Pkh? {
      NibbleBits(p, d.shift % 2, d.tBit, 0, 1);
    } else if d.instr.Sel? {
      NibbleBits(p, p.b7, p.b6, 1, 1);
    }
  }

  lemma RowMisc(d: Darm, p: Word)
    requires Decoded(d, p) && ReadsMisc(d, p)
    ensures 0 <= Op(p) < 256 && 0 <= Nibble4(p) < 16 && RowOf(Op(p), Nibble4(p)).ArmMisc?
  {
    OpRange(p);
    MiscOps(d, p);
    hide RowOf, ReadsMisc, Op;
    OtherRows(Op(p), Nibble4(p));
  }

  lemma SmOps(d: Darm, p: Word)
    requires Decoded(d, p) && ReadsSm(d, p)
    ensures (Op(p) == 22 && Nibble4(p) >= 8 && Nibble4(p) % 2 == 0) ||
            ((Op(p) == 16 || Op(p) == 20) && !(p.b7 == 1 && p.b4 == 1) && Nibble4(p) != 5) ||
            (112 <= Op(p) < 118 && Op(p) != 113 && Op(p) != 114 && Op(p) != 115 && p.b4 == 1)
  {
    hide FormSm, Op, Nibble4;
    SmKind(d, p);
  }

  lemma RowSm(d: Darm, p: Word)
    requires Decoded(d, p) && ReadsSm(d, p)
    ensures 0 <= Op(p) < 256 && 0 <= Nibble4(p) < 16 && RowOf(Op(p), Nibble4(p)).ArmSm?
  {
    OpRange(p);
    SmOps(d, p);
    hide RowOf, ReadsSm, Op;
    OtherRows(Op(p), Nibble4(p));
  }

  lemma PasOps(d: Darm, p: Word)
    requires Decoded(d, p) && ReadsPas(d, p)
    ensures (97 <= Op(p) < 100 || 101 <= Op(p) < 104) && Nibble4(p) % 2 == 1
  {
    ParallelRange(d.instr);
    hide FormThree, Op, Nibble4, ParallelHigh, ParallelLow;
  }

  lemma RowPas(d: Darm, p: Word)
    requires Decoded(d, p) && ReadsPas(d, p)
    ensures 0 <= Op(p) < 256 && 0 <= Nibble4(p) < 16 && RowOf(Op(p), Nibble4(p)).ArmPas?
  {
    OpRange(p);
    PasOps(d, p);
    hide RowOf, ReadsPas, Op, Nibble4;
    OtherRows(Op(p), Nibble4(p));
  }

  lemma MvcrOps(d: Darm, p: Word)
    requires Decoded(d, p) && ReadsMvcr(d, p)
    ensures 224 <= Op(p) < 240
  {
    hide FormMvcr, Op, Nibble4;
  }

  lemma RowMvcr(d: Darm, p: Word)
    requires Decoded(d, p) && ReadsMvcr(d, p)
    ensures 0 <= Op(p) < 256 && 0 <= Nibble4(p) < 16 && RowOf(Op(p), Nibble4(p)).ArmMvcr?
  {
    OpRange(p);
    MvcrOps(d, p);
    hide RowOf, ReadsMvcr, Op, Nibble4;
    WideRows(Op(p), Nibble4(p));
  }

  lemma UdfOps(d: Darm, p: Word)
    requires Decoded(d, p) && ReadsUdf(d, p)
    ensures Op(p) == 127 && Nibble4(p) % 2 == 1
  {
    assert Nibble4(p) == 2 * (p.b7 * 4 + p.b6 * 2 + p.b5) + p.b4;
    hide FormUdf, Op, Nibble4;
  }

  lemma RowUdf(d: Darm, p: Word)
    requires Decoded(d, p) && ReadsUdf(d, p)
    ensures 0 <= Op(p) < 256 && 0 <= Nibble4(p) < 16 && RowOf(Op(p), Nibble4(p)).ArmUdf?
  {
    OpRange(p);
    UdfOps(d, p);
    hide RowOf, ReadsUdf, Op, Nibble4;
    OtherRows(Op(p), Nibble4(p));
  }

  lemma Encodings(d: Darm, p: Word)
    requires ValidWord(p)
    ensures ReadsMul(d, p) ==> d.encoding.ArmMul?
    ensures ReadsStack1(d, p) ==> d.encoding.ArmStack1?
    ensures ReadsStack2(d, p) ==> d.encoding.ArmStack2?
    ensures ReadsSync(d, p) ==> d.encoding.ArmSync?
    ensures ReadsStack0(d, p) ==> d.encoding.ArmStack0?
    ensures ReadsSat(d, p) ==> d.encoding.ArmSat?
    ensures ReadsPusr(d, p) ==> d.encoding.ArmPusr?
    ensures ReadsArithShift(d, p) ==> d.encoding.ArmArithShift?
    ensures ReadsArithImm(d, p) ==> d.encoding.ArmArithImm?
    ensures ReadsBits(d, p) ==> d.encoding.ArmBits?
    ensures ReadsBranch(d, p) ==> d.encoding.ArmBrnchsc?
    ensures ReadsBranchMisc(d, p) ==> d.encoding.ArmBrnchmisc?
    ensures ReadsMovImm(d, p) ==> d.encoding.ArmMovImm?
    ensures ReadsCmpOp(d, p) ==> d.encoding.ArmCmpOp?
    ensures ReadsCmpImm(d, p) ==> d.encoding.ArmCmpImm?
    ensures ReadsOpless(d, p) ==> d.encoding.ArmOpless?
    ensures ReadsDstSrc(d, p) ==> d.encoding.ArmDstSrc?
    ensures ReadsLdstregs(d, p) ==> d.encoding.ArmLdstregs?
    ensures ReadsBitrev(d, p) ==> d.encoding.ArmBitrev?
    ensures ReadsMisc(d, p) ==> d.encoding.ArmMisc?
    ensures ReadsSm(d, p) ==> d.encoding.ArmSm?
    ensures ReadsPas(d, p) ==> d.encoding.ArmPas?
    ensures ReadsMvcr(d, p) ==> d.encoding.ArmMvcr?
    ensures ReadsUdf(d, p) ==> d.encoding.ArmUdf?
  {
    hide EncodeMul, EncodeHalf, EncodeSync, EncodeStack0, EncodeSat, EncodePusr, EncodeArithShift, EncodeArithImm,
         EncodeBits, EncodeBranch, EncodeBranchMisc, EncodeMovImm, EncodeCmpOp, EncodeCmpImm, EncodeOpless,
         EncodeDstSrc, EncodeLdstregs, EncodeBitrev, EncodeMisc, EncodeSm, EncodePas, EncodeMvcr, EncodeUdf, Digits,
         ExpandImm, Low12, ShiftType, ShiftCode, Nibble4, ExtendCode, ExtendAdds, FormMul, FormStack1, FormStack2,
         FormSync, FormStack0, FormThree, FormPusr, FormArithShift, FormArithImm, FormBits, FormBranch,
         FormBranchMisc, FormMovImm, FormCmpOp, FormCmpImm, Blank, FormDstSrc, FormLdstregs, FormBitrev, FormMisc,
         FormSm, FormMvcr, FormUdf;
  }

  /** The encoding of whatever a conditional word represents is that of its row. */
  lemma EncodingOf(d: Darm, p: Word)
    requires Decoded(d, p) && p.cond != UNCONDITIONAL && Represents(d, p)
    ensures 0 <= Op(p) < 256 && 0 <= Nibble4(p) < 16 && d.encoding == RowOf(Op(p), Nibble4(p))
  {
    Encodings(d, p);
    OpRange(p);
    hide ReadsMul, ReadsStack1, ReadsStack2, ReadsSync, ReadsStack0, ReadsSat, ReadsPusr, ReadsArithShift,
         ReadsArithImm, ReadsBits, ReadsBranch, ReadsBranchMisc, ReadsMovImm, ReadsCmpOp, ReadsCmpImm, ReadsOpless,
         ReadsDstSrc, ReadsLdstregs, ReadsBitrev, ReadsMisc, ReadsSm, ReadsPas, ReadsMvcr, ReadsUdf, RowOf, Op,
         Nibble4, Decoded, ReadsUncond;
    if ReadsMul(d, p) {
      RowMul(d, p);
    } else if ReadsStack1(d, p) {
      RowStack1(d, p);
    } else if ReadsStack2(d, p) {
      RowStack2(d, p);
    } else if ReadsSync(d, p) {
      RowSync(d, p);
    } else if ReadsStack0(d, p) {
      RowStack0(d, p);
    } else if ReadsSat(d, p) {
      RowSat(d, p);
    } else if ReadsPusr(d, p) {
      RowPusr(d, p);
    } else if ReadsArithShift(d, p) {
      RowArithShift(d, p);
    } else if ReadsArithImm(d, p) {
      RowArithImm(d, p);
    } else if ReadsBits(d, p) {
      RowBits(d, p);
    } else if ReadsBranch(d, p) {
      RowBranch(d, p);
    } else if ReadsBranchMisc(d, p) {
      RowBranchMisc(d, p);
    } else if ReadsMovImm(d, p) {
      RowMovImm(d, p);
    } else if ReadsCmpOp(d, p) {
      RowCmpOp(d, p);
    } else if ReadsCmpImm(d, p) {
      RowCmpImm(d, p);
    } else if ReadsOpless(d, p) {
      RowOpless(d, p);
    } else if ReadsDstSrc(d, p) {
      RowDstSrc(d, p);
    } else if ReadsLdstregs(d, p) {
      RowLdstregs(d, p);
    } else if ReadsBitrev(d, p) {
      RowBitrev(d, p);
    } else if ReadsMisc(d, p) {
      RowMisc(d, p);
    } else if ReadsSm(d, p) {
      RowSm(d, p);
    } else if ReadsPas(d, p) {
      RowPas(d, p);
    } else if ReadsMvcr(d, p) {
      RowMvcr(d, p);
    } else {
      RowUdf(d, p);
    }
  }

  lemma UniqueFirst(d: Darm, e: Darm, p: Word)
    requires Alike(d, e, p) && d.encoding == e.encoding && p.cond != UNCONDITIONAL
    requires Represents(e, p) && BranchExact(d, p) && BranchExact(e, p)
    requires ReadsMul(d, p) || ReadsStack1(d, p) || ReadsStack2(d, p) || ReadsSync(d, p) || ReadsStack0(d, p) ||
             ReadsSat(d, p) || ReadsPusr(d, p) || ReadsArithShift(d, p) || ReadsArithImm(d, p) || ReadsBits(d, p) ||
             ReadsBranch(d, p) || ReadsBranchMisc(d, p)
    ensures d == e
  {
    Encodings(d, p);
    Encodings(e, p);
    hide ReadsMul, ReadsStack1, ReadsStack2, ReadsSync, ReadsStack0, ReadsSat, ReadsPusr, ReadsArithShift,
         ReadsArithImm, ReadsBits, ReadsBranch, ReadsBranchMisc, ReadsMovImm, ReadsCmpOp, ReadsCmpImm, ReadsOpless,
         ReadsDstSrc, ReadsLdstregs, ReadsBitrev, ReadsMisc, ReadsSm, ReadsPas, ReadsMvcr, ReadsUdf, Alike,
         BranchExact;
    if ReadsMul(d, p) {
      UniqueMul(d, e, p);
    } else if ReadsStack1(d, p) {
      UniqueStack1(d, e, p);
    } else if ReadsStack2(d, p) {
      UniqueStack2(d, e, p);
    } else if ReadsSync(d, p) {
      UniqueSync(d, e, p);
    } else if ReadsStack0(d, p) {
      UniqueStack0(d, e, p);
    } else if ReadsSat(d, p) {
      UniqueSat(d, e, p);
    } else if ReadsPusr(d, p) {
      UniquePusr(d, e, p);
    } else if ReadsArithShift(d, p) {
      UniqueArithShift(d, e, p);
    } else if ReadsArithImm(d, p) {
      UniqueArithImm(d, e, p);
    } else if ReadsBits(d, p) {
      UniqueBits(d, e, p);
    } else if ReadsBranch(d, p) {
      UniqueBranch(d, e, p);
    } else {
      UniqueBranchMisc(d, e, p);
    }
  }

  lemma UniqueSecond(d: Darm, e: Darm, p: Word)
    requires Alike(d, e, p) && d.encoding == e.encoding && p.cond != UNCONDITIONAL
    requires Represents(e, p) && BranchExact(d, p) && BranchExact(e, p)
    requires ReadsMovImm(d, p) || ReadsCmpOp(d, p) || ReadsCmpImm(d, p) || ReadsOpless(d, p) || ReadsDstSrc(d, p) ||
             ReadsLdstregs(d, p) || ReadsBitrev(d, p) || ReadsMisc(d, p) || ReadsSm(d, p) || ReadsPas(d, p) ||
             ReadsMvcr(d, p) || ReadsUdf(d, p)
    ensures d == e
  {
    Encodings(d, p);
    Encodings(e, p);
    hide ReadsMul, ReadsStack1, ReadsStack2, ReadsSync, ReadsStack0, ReadsSat, ReadsPusr, ReadsArithShift,
         ReadsArithImm, ReadsBits, ReadsBranch, ReadsBranchMisc, ReadsMovImm, ReadsCmpOp, ReadsCmpImm, ReadsOpless,
         ReadsDstSrc, ReadsLdstregs, ReadsBitrev, ReadsMisc, ReadsSm, ReadsPas, ReadsMvcr, ReadsUdf, Alike,
         BranchExact;
    if ReadsMovImm(d, p) {
      UniqueMovImm(d, e, p);
    } else if ReadsCmpOp(d, p) {
      UniqueCmpOp(d, e, p);
    } else if ReadsCmpImm(d, p) {
      UniqueCmpImm(d, e, p);
    } else if ReadsOpless(d, p) {
      UniqueOpless(d, e, p);
    } else if ReadsDstSrc(d, p) {
      UniqueDstSrc(d, e, p);
    } else if ReadsLdstregs(d, p) {
      UniqueLdstregs(d, e, p);
    } else if ReadsBitrev(d, p) {
      UniqueBitrev(d, e, p);
    } else if ReadsMisc(d, p) {
      UniqueMisc(d, e, p);
    } else if ReadsSm(d, p) {
      UniqueSm(d, e, p);
    } else if ReadsPas(d, p) {
      UniquePas(d, e, p);
    } else if ReadsMvcr(d, p) {
      UniqueMvcr(d, e, p);
    } else {
      UniqueUdf(d, e, p);
    }
  }

  /** A word stands for one instruction only. */
  lemma Determined(d: Darm, e: Darm, p: Word)
    requires ValidWord(p) && Correct(d, p) && Correct(e, p) && Settled(d) && Settled(e) && d.w == e.w
    ensures d == e
  {
    assert Alike(d, e, p) && Decoded(d, p) && Decoded(e, p);
    hide ReadsMul, ReadsStack1, ReadsStack2, ReadsSync, ReadsStack0, ReadsSat, ReadsPusr, ReadsArithShift,
         ReadsArithImm, ReadsBits, ReadsBranch, ReadsBranchMisc, ReadsMovImm, ReadsCmpOp, ReadsCmpImm, ReadsOpless,
         ReadsDstSrc, ReadsLdstregs, ReadsBitrev, ReadsMisc, ReadsSm, ReadsPas, ReadsMvcr, ReadsUdf, RowOf, Op,
         Nibble4, Decoded, ReadsUncond, Alike, BranchExact, Sound;
    if p.cond == UNCONDITIONAL {
      UniqueUncond(d, e, p);
    } else {
      EncodingOf(d, p);
      EncodingOf(e, p);
      if ReadsMul(d, p) || ReadsStack1(d, p) || ReadsStack2(d, p) || ReadsSync(d, p) || ReadsStack0(d, p) ||
         ReadsSat(d, p) || ReadsPusr(d, p) || ReadsArithShift(d, p) || ReadsArithImm(d, p) || ReadsBits(d, p) ||
         ReadsBranch(d, p) || ReadsBranchMisc(d, p) {
        UniqueFirst(d, e, p);
      } else {
        UniqueSecond(d, e, p);
      }
    }
  }
}
