/** The second half of the ARM disassembler (armv7.c:451-854): the switch on the table of encodings. */
module Armv7Lookup {
  import opened Words
  import opened Armv7Tables
  import opened Armv7
  import opened Armv7Encode

  /** Encoding and label are those of the tables; only an earlier check that gave up may have set Rn. */
  predicate Looked(d: Darm, p: Word) {
    && ValidWord(p) && p.cond != UNCONDITIONAL && d.cond == p.cond
    && d == Init(d.w).(rn := d.rn, instr := LabelAt(Op(p)), encoding := EncodingAt(Op(p)))
  }

  predicate LookedFresh(d: Darm, p: Word) {
    Looked(d, p) && d.rn == NO_REG
  }

  lemma ArithShiftLabels(op: int)
    requires 0 <= op < 256 && EncodingAt(op).ArmArithShift?
    ensures var l := LabelAt(op);
            Computes(l) && (ArithCode(l) * 2 == op || ArithCode(l) * 2 + 1 == op)
  {
  }

  /** A 5-bit shift count lies across bits 8 to 11 and bit 7. */
  lemma ShiftHalves(p: Word)
    requires ValidWord(p)
    ensures (p.a8 * 2 + p.b7) / 2 == p.a8 && (p.a8 * 2 + p.b7) % 2 == p.b7 && 0 <= p.a8 * 2 + p.b7 <= 31
  {
  }

  /** Bit 20 is the low bit of bits 20 to 27. */
  lemma LowOpBit(p: Word, c: int)
    requires ValidWord(p) && (Op(p) == 2 * c || Op(p) == 2 * c + 1)
    ensures Op(p) == 2 * c + p.b20
  {
    assert Op(p) == 2 * (p.b27 * 64 + p.b26 * 32 + p.b25 * 16 + p.b24 * 8 + p.b23 * 4 + p.b22 * 2 + p.b21) + p.b20;
  }

  method ArithShift(d0: Darm, p: Word) returns (d: Darm)
    requires LookedFresh(d0, p) && d0.encoding.ArmArithShift? && (p.b7 == 0 || p.b4 == 0)
    ensures ReadsArithShift(d, p) && Plain(d, p) && d.w == d0.w
  {
    hide LabelAt, EncodingAt, ArithCode, EncodeArithShift, Digits;
    ArithShiftLabels(Op(p));
    LowOpBit(p, ArithCode(LabelAt(Op(p))));
    hide Op, Nibble4;
    d := d0.(sBit := p.b20, rd := p.a12, rn := p.a16, rm := p.a0);
    d := d.(shiftType := p.b6 * 2 + p.b5);
    if p.b4 == 1 {
      d := d.(rs := p.a8);
    } else {
      d := d.(shift := p.a8 * 2 + p.b7);
    }
    ArithShiftEncodes(d, p);
  }

  lemma ArithShiftEncodes(d: Darm, p: Word)
    requires ValidWord(p) && (p.b7 == 0 || p.b4 == 0) && d.cond == p.cond
    requires Computes(d.instr) && Op(p) == ArithCode(d.instr) * 2 + d.sBit
    requires d.rd == p.a12 && d.rn == p.a16 && d.rm == p.a0 && d.shiftType == p.b6 * 2 + p.b5
    requires if p.b4 == 1 then d.rs == p.a8 else d.rs == NO_REG && d.shift == p.a8 * 2 + p.b7
    ensures EncodeArithShift(d) == Digits(p)
  {
    hide Op, ArithCode, Computes;
    OperandEncodes(d, p);
  }

  /** A register operand stands for bits 4 to 11, but for bit 7 when it is shifted by Rs. */
  lemma OperandEncodes(d: Darm, p: Word)
    requires ValidWord(p) && d.shiftType == p.b6 * 2 + p.b5
    requires if p.b4 == 1 then d.rs == p.a8 else d.rs == NO_REG && d.shift == p.a8 * 2 + p.b7
    ensures ShiftHigh(d) == p.a8 && ShiftLow(d) + (if p.b4 == 1 then p.b7 * 8 else 0) == Nibble4(p)
    ensures 0 <= p.a8 * 2 + p.b7 <= 31
  {
    ShiftHalves(p);
  }

  lemma ArithImmLabels(op: int)
    requires 0 <= op < 256 && EncodingAt(op).ArmArithImm?
    ensures var l := LabelAt(op);
            Computes(l) && 32 <= op < 64 &&
            (32 + ArithCode(l) * 2 == op || 33 + ArithCode(l) * 2 == op) &&
            (l.Add? ==> ArithCode(l) == 4) && (l.Sub? ==> ArithCode(l) == 2)
    ensures ArithCode(Add) == 4 && ArithCode(Sub) == 2
  {
  }

  /** A data-processing instruction with a modified immediate; adr is the one on pc. */
  method ArithImm(d0: Darm, p: Word) returns (d: Darm)
    requires LookedFresh(d0, p) && d0.encoding.ArmArithImm?
    ensures ReadsArithImm(d, p) && Plain(d, p) && d.w == d0.w
  {
    hide LabelAt, EncodingAt, ArithCode, Low12, ExpandImm, RotateSteps, With12;
    ArithImmLabels(Op(p));
    LowOpBit(p, 16 + ArithCode(LabelAt(Op(p))));
    DigitsOf12(p);
    ExpandImmRotates(Low12(p));
    assert (Op(p) == 40 ==> p.b23 == 1) && (Op(p) == 36 ==> p.b23 == 0);
    hide Op;
    d := d0.(sBit := p.b20, rd := p.a12, rn := p.a16);
    d := d.(imm := ExpandImm(Low12(p)));
    d := d.(iBit := 1);
    if (d.instr.Add? || d.instr.Sub?) && d.sBit == 0 && d.rn == PC {
      d := d.(instr := Adr, rn := NO_REG);
      d := d.(uBit := p.b23);
    }
  }

  lemma BitFieldLabels(op: int)
    requires 0 <= op < 256 && EncodingAt(op).ArmBits?
    ensures 122 <= op <= 126
  {
  }

  /** The top bit of a field is found again from its width, even when that has wrapped. */
  lemma FieldWidth(b20: int, a16: int, lsb: int)
    requires Bit(b20) && Digit(a16) && 0 <= lsb < 32
    ensures var width := (b20 * 16 + a16 - lsb + 1) % 0x1_0000_0000;
            0 <= width < 0x1_0000_0000 && (width + lsb - 1) % 0x1_0000_0000 == b20 * 16 + a16
    ensures (b20 * 16 + a16) / 16 == b20 && (b20 * 16 + a16) % 16 == a16
  {
  }

  /** BFI and BFC. */
  method InsertField(d0: Darm, p: Word) returns (d: Darm)
    requires ValidWord(p) && d0.cond == p.cond && p.b4 == 1 && Op(p) == 124 + p.b20
    requires d0 == Init(d0.w).(instr := Bfi, encoding := ArmBits, rd := p.a12, rn := p.a0, lsb := p.a8 * 2 + p.b7)
    ensures ReadsBits(d, p) && Plain(d, p) && d.w == d0.w
  {
    hide Op, EncodeBits, Digits;
    FieldWidth(p.b20, p.a16, d0.lsb);
    d := d0.(width := (p.b20 * 16 + p.a16 - d0.lsb + 1) % 0x1_0000_0000);
    if d.rn == 15 {
      d := d.(rn := NO_REG);
      d := d.(instr := Bfc);
    }
    FieldEncodes(d, p);
  }

  lemma FieldEncodes(d: Darm, p: Word)
    requires ValidWord(p) && d.cond == p.cond && p.b4 == 1 && Op(p) == 124 + p.b20
    requires (d.instr.Bfi? && d.rn == p.a0) || (d.instr.Bfc? && p.a0 == 15)
    requires d.rd == p.a12 && d.lsb == p.a8 * 2 + p.b7
    requires d.width == (p.b20 * 16 + p.a16 - d.lsb + 1) % 0x1_0000_0000
    ensures EncodeBits(d, p) == Digits(p)
  {
    hide Op;
    FieldWidth(p.b20, p.a16, d.lsb);
    ShiftHalves(p);
  }

  /** SBFX, UBFX, BFI and BFC. */
  method BitField(d0: Darm, p: Word) returns (d: Darm)
    requires LookedFresh(d0, p) && d0.encoding.ArmBits? && p.b4 == 1
    ensures ReadsBits(d, p) && Plain(d, p) && d.w == d0.w
  {
    hide LabelAt, EncodingAt, EncodeBits, Digits;
    BitFieldLabels(Op(p));
    assert Op(p) == 120 + p.b22 * 4 + p.b21 * 2 + p.b20 && p.b22 + p.b21 >= 1 && (p.b22 + p.b21 == 2 ==> p.b20 == 0);
    hide Op;
    d := d0.(instr := BitsLabel(p.b22 * 2 + p.b21));
    d := d.(rd := p.a12, rn := p.a0, lsb := p.a8 * 2 + p.b7);
    if d.instr.Bfi? {
      d := InsertField(d, p);
    } else {
      d := d.(width := p.b20 * 16 + p.a16 + 1);
      ExtractEncodes(d, p);
    }
  }

  lemma ExtractEncodes(d: Darm, p: Word)
    requires ValidWord(p) && d.cond == p.cond && p.b4 == 1
    requires (d.instr.Sbfx? && Op(p) == 122 + p.b20) || (d.instr.Ubfx? && Op(p) == 126 && p.b20 == 0)
    requires d.rd == p.a12 && d.rn == p.a0 && d.lsb == p.a8 * 2 + p.b7 && d.width == p.b20 * 16 + p.a16 + 1
    ensures EncodeBits(d, p) == Digits(p)
  {
    hide Op;
    FieldWidth(p.b20, p.a16, 0);
    ShiftHalves(p);
  }

  lemma BranchLabels(op: int)
    requires 0 <= op < 256 && EncodingAt(op).ArmBrnchsc?
    ensures var l := LabelAt(op);
            (160 <= op < 176 && l.B?) || (176 <= op < 192 && l.Bl?) || (240 <= op < 256 && l.Svc?)
  {
  }

  lemma SignExtendedField(f: int)
    requires 0 <= f < 0x100_0000
    ensures SignExtended(f) / 4 % 0x100_0000 == f && 0 <= SignExtended(f) < 0x1_0000_0000
  {
    if f >= 0x80_0000 {
      assert SignExtended(f) == 0xfc00_0000 + f * 4;
      assert SignExtended(f) / 4 == 0x3f00_0000 + f;
    }
  }

  /** Sign-extend a 24-bit field and multiply it by four. */
  method ExtendField(f: int) returns (imm: int)
    requires 0 <= f < 0x100_0000
    ensures imm == SignExtended(f)
  {
    imm := f;
    if imm / 0x80_0000 % 2 == 1 {
      imm := (imm + 0xff00_0000) * 4 % 0x1_0000_0000;
    } else {
      imm := imm * 4;
    }
  }

  /** B, BL and SVC. */
  method BranchOrCall(d0: Darm, p: Word) returns (d: Darm)
    requires LookedFresh(d0, p) && d0.encoding.ArmBrnchsc?
    ensures ReadsBranch(d, p) && Sound(d, p) && d.w == d0.w
    ensures d.instr.B? <==> 160 <= Op(p) < 176
    ensures d.instr.Bl? <==> 176 <= Op(p) < 192
    ensures !d.instr.Svc? ==> d.imm == SignExtended(Low24(p))
  {
    hide LabelAt, EncodingAt, Low24, With24, Nibble4, SignExtended;
    BranchLabels(Op(p));
    DigitsOf24(p);
    SignExtendedField(Low24(p));
    var high := p.b27 * 8 + p.b26 * 4 + p.b25 * 2 + p.b24;
    assert 16 * high <= Op(p) < 16 * high + 16;
    hide Op;
    d := d0.(imm := Low24(p));
    d := d.(iBit := 1);
    if !d.instr.Svc? {
      var imm := ExtendField(d.imm);
      d := d.(imm := imm);
    }
  }

  lemma BranchMiscLabels(op: int)
    requires 0 <= op < 256 && EncodingAt(op).ArmBrnchmisc?
    ensures op == 18
  {
  }

  /** BKPT, BX, BXJ, BLX and MSR. */
  method BranchMisc(d0: Darm, p: Word) returns (ok: bool, d: Darm)
    requires Looked(d0, p) && d0.encoding.ArmBrnchmisc? && (d0.rn == NO_REG || Nibble4(p) == 9)
    ensures ok <==> Nibble4(p) < 4 || Nibble4(p) == 7
    ensures ok ==> ReadsBranchMisc(d, p) && Plain(d, p) && d.w == d0.w
  {
    hide LabelAt, EncodingAt;
    BranchMiscLabels(Op(p));
    d := d0.(instr := BranchMiscLabel(Nibble4(p)));
    if d.instr.Bkpt? {
      d := d.(imm := (p.a16 * 0x100 + p.a12 * 16 + p.a8) * 16 + p.a0);
      d := d.(iBit := 1);
      Quotients(0, p.a16, p.a12, p.a8, p.a0, d.imm);
      ok := true;
    } else if d.instr.Bx? || d.instr.Bxj? || d.instr.Blx? {
      d := d.(rm := p.a0);
      ok := true;
    } else if d.instr.Msr? {
      d := d.(rn := p.a0);
      d := d.(imm := p.a16 / 4);
      d := d.(iBit := 1);
      ok := true;
    } else {
      ok := false;
    }
  }

  lemma MovImmLabels(op: int)
    requires 0 <= op < 256 && EncodingAt(op).ArmMovImm?
    ensures var l := LabelAt(op);
            !l.Invld? && !l.B? && !l.Bl? && ArithCode(Mov) == 13 && ArithCode(Mvn) == 15 &&
            ((l.Movw? && op == 48) || (l.Movt? && op == 52) || (l.Mov? && 58 <= op < 60) || (l.Mvn? && 62 <= op < 64))
  {
  }

  /** MOV, MVN, MOVW and MOVT of an immediate. */
  method MovImm(d0: Darm, p: Word) returns (d: Darm)
    requires LookedFresh(d0, p) && d0.encoding.ArmMovImm?
    ensures ReadsMovImm(d, p) && Plain(d, p) && d.w == d0.w
  {
    hide LabelAt, EncodingAt, ArithCode, Low12, ExpandImm, RotateSteps, With12;
    MovImmLabels(Op(p));
    DigitsOf12(p);
    ExpandImmRotates(Low12(p));
    d := d0.(rd := p.a12);
    d := d.(imm := Low12(p));
    d := d.(iBit := 1);
    if d.instr.Mov? || d.instr.Mvn? {
      d := d.(sBit := p.b20);
      d := d.(imm := ExpandImm(d.imm));
    } else {
      d := d.(imm := d.imm + p.a16 * 0x1000);
      assert d.imm / 0x1000 == p.a16 && d.imm % 0x1000 == Low12(p);
    }
  }

  lemma CmpLabels(op: int)
    requires 0 <= op < 256 && (EncodingAt(op).ArmCmpOp? || EncodingAt(op).ArmCmpImm?)
    ensures var l := LabelAt(op);
            Compares(l) && op == (if EncodingAt(op).ArmCmpOp? then 0 else 32) + ArithCode(l) * 2 + 1
  {
  }

  /** TST, TEQ, CMP and CMN of a register. */
  method CmpOp(d0: Darm, p: Word) returns (d: Darm)
    requires Looked(d0, p) && d0.encoding.ArmCmpOp? && (p.b7 == 1 && p.b4 == 1 ==> p.b6 == 0 && p.b5 == 0)
    ensures ReadsCmpOp(d, p) && Plain(d, p) && d.w == d0.w
  {
    hide LabelAt, EncodingAt, ArithCode, EncodeCmpOp, Digits;
    CmpLabels(Op(p));
    hide Op;
    d := d0.(rn := p.a16, rm := p.a0);
    d := d.(shiftType := p.b6 * 2 + p.b5);
    if p.b4 == 1 {
      d := d.(rs := p.a8);
    } else {
      d := d.(shift := p.a8 * 2 + p.b7);
    }
    CmpEncodes(d, p);
  }

  lemma CmpEncodes(d: Darm, p: Word)
    requires ValidWord(p) && d.cond == p.cond && Compares(d.instr) && Op(p) == ArithCode(d.instr) * 2 + 1
    requires d.rn == p.a16 && d.rm == p.a0 && d.shiftType == p.b6 * 2 + p.b5
    requires if p.b4 == 1 then d.rs == p.a8 else d.rs == NO_REG && d.shift == p.a8 * 2 + p.b7
    ensures EncodeCmpOp(d, p) == Digits(p) && 0 <= d.shiftType <= 3 && 0 <= p.a8 * 2 + p.b7 <= 31
  {
    hide Op, ArithCode, Compares;
    OperandEncodes(d, p);
  }

  method CmpImm(d0: Darm, p: Word) returns (d: Darm)
    requires LookedFresh(d0, p) && d0.encoding.ArmCmpImm?
    ensures ReadsCmpImm(d, p) && Plain(d, p) && d.w == d0.w
  {
    hide LabelAt, EncodingAt, ArithCode, Low12, ExpandImm, RotateSteps;
    CmpLabels(Op(p));
    DigitsOf12(p);
    ExpandImmRotates(Low12(p));
    d := d0.(rn := p.a16);
    d := d.(imm := ExpandImm(Low12(p)));
    d := d.(iBit := 1);
  }

  lemma OplessLabels(op: int)
    requires 0 <= op < 256 && EncodingAt(op).ArmOpless?
    ensures op == 50
  {
  }

  /** The hints. */
  method Opless(d0: Darm, p: Word) returns (ok: bool, d: Darm)
    requires LookedFresh(d0, p) && d0.encoding.ArmOpless?
    ensures ok <==> p.a0 % 8 < 5
    ensures ok ==> ReadsOpless(d, p) && Plain(d, p) && d.w == d0.w
  {
    hide LabelAt, EncodingAt;
    OplessLabels(Op(p));
    d := d0.(instr := OplessLabel(p.a0 % 8));
    ok := !d.instr.Invld?;
  }

  lemma DstSrcOps(op: int)
    requires 0 <= op < 256 && EncodingAt(op).ArmDstSrc?
    ensures op == 26 || op == 27
  {
  }

  lemma ShiftLabels(nibble: int)
    requires 0 <= nibble < 16 && (nibble < 8 || nibble % 2 == 0)
    ensures var l := ShiftLabel(nibble);
            !l.Invld? && !l.B? && !l.Bl? && !l.Mov? && !l.Nop? && !l.Rrx? && ShiftCode(l) == nibble / 2 % 4
    ensures ShiftCode(Mov) == 0 && ShiftCode(Nop) == 0 && ShiftCode(Lsl) == 0 && ShiftCode(Rrx) == 3 && ShiftCode(Ror) == 3
  {
  }

  /** A shift by an immediate; mov is lsl by zero, nop is mov r0, r0, and rrx is ror by zero. */
  method ShiftByImmediate(d0: Darm, p: Word) returns (d: Darm)
    requires ValidWord(p) && d0.cond == p.cond && p.b4 == 0 && Op(p) == 26 + p.b20
    requires d0 == Init(d0.w).(instr := ShiftLabel(Nibble4(p)), encoding := ArmDstSrc, sBit := p.b20, rd := p.a12,
                               shiftType := p.b6 * 2 + p.b5)
    ensures ReadsDstSrc(d, p) && Plain(d, p) && d.w == d0.w
  {
    hide EncodingAt, ShiftLabel, ShiftCode, Op, EncodeDstSrc, Digits;
    ShiftLabels(Nibble4(p));
    assert Nibble4(p) / 2 % 4 == p.b6 * 2 + p.b5;
    d := d0.(rm := p.a0, shift := p.a8 * 2 + p.b7);
    if d.instr.Lsl? && d.shiftType == 0 && d.shift == 0 {
      d := d.(instr := Mov);
      if d.rd == 0 && d.rm == 0 {
        d := d.(instr := Nop);
        d := d.(rd := NO_REG, rm := NO_REG);
      }
    } else if d.instr.Ror? && d.shiftType == 3 && d.shift == 0 {
      d := d.(instr := Rrx);
    }
    ShiftEncodes(d, p);
  }

  lemma ShiftEncodes(d: Darm, p: Word)
    requires ValidWord(p) && d.cond == p.cond && p.b4 == 0 && Op(p) == 26 + p.b20 && d.sBit == p.b20 && d.rn == NO_REG
    requires ShiftCode(d.instr) == p.b6 * 2 + p.b5 && d.shift == p.a8 * 2 + p.b7
    requires if d.instr.Nop? then ShiftCode(d.instr) == 0 && p.a12 == 0 && p.a0 == 0 && d.shift == 0
             else d.rd == p.a12 && d.rm == p.a0
    ensures EncodeDstSrc(d, p) == Digits(p)
  {
    hide Op, ShiftCode;
    ShiftHalves(p);
  }

  /** Shifts by a register or an immediate. */
  method DstSrc(d0: Darm, p: Word) returns (ok: bool, d: Darm)
    requires LookedFresh(d0, p) && d0.encoding.ArmDstSrc? && (p.b7 == 0 || p.b4 == 0)
    ensures ok && ReadsDstSrc(d, p) && Plain(d, p) && d.w == d0.w
  {
    hide LabelAt, EncodingAt, ShiftLabel, ShiftCode;
    DstSrcOps(Op(p));
    ShiftLabels(Nibble4(p));
    assert Nibble4(p) / 2 % 4 == p.b6 * 2 + p.b5 && Op(p) == 26 + p.b20;
    hide Op;
    d := d0.(instr := ShiftLabel(Nibble4(p)));
    if d.instr.Invld? {
      return false, d;
    }
    d := d.(sBit := p.b20, rd := p.a12, shiftType := p.b6 * 2 + p.b5);
    if p.b4 == 1 {
      d := d.(rm := p.a8, rn := p.a0);
    } else {
      d := ShiftByImmediate(d, p);
    }
    ok := true;
  }

  lemma BlockLabels(op: int)
    requires 0 <= op < 256 && EncodingAt(op).ArmLdstregs?
    ensures var l := LabelAt(op);
            BlockCode(l) >= 0 && !l.Invld? && !l.B? && !l.Bl? && !l.Push? && BlockCode(Push) == 16 && BlockCode(Pop) == 9 &&
            (128 + BlockCode(l) == op || 130 + BlockCode(l) == op) && BlockCode(l) / 2 % 2 == 0 &&
            (l.Pop? ==> op == 139) && (l.Ldm? ==> op == 137 && BlockCode(l) == 9) &&
            (l.Stmdb? ==> BlockCode(l) == 16)
  {
  }

  lemma BlockBit(code: int, p: Word)
    requires ValidWord(p) && code / 2 % 2 == 0 && (128 + code == Op(p) || 130 + code == Op(p))
    ensures Op(p) == 128 + code + p.b21 * 2
  {
    var high := p.b27 * 32 + p.b26 * 16 + p.b25 * 8 + p.b24 * 4 + p.b23 * 2 + p.b22;
    assert Op(p) == 4 * high + p.b21 * 2 + p.b20;
    assert code == 4 * (code / 4) + code % 2;
  }

  lemma BlockRow(p: Word)
    requires ValidWord(p) && EncodingAt(Op(p)).ArmLdstregs?
    ensures var l := LabelAt(Op(p));
            BlockCode(l) >= 0 && !l.Invld? && !l.B? && !l.Bl? && !l.Push? && Op(p) == 128 + BlockCode(l) + p.b21 * 2 &&
            (l.Pop? ==> p.b21 == 1) && (l.Ldm? ==> p.b21 == 0) && (l.Stmdb? ==> BlockCode(l) == BlockCode(Push))
    ensures 0 <= Low16(p) < 0x1_0000
  {
    hide LabelAt, EncodingAt, BlockCode;
    BlockLabels(Op(p));
    BlockBit(BlockCode(LabelAt(Op(p))), p);
    DigitsOf16(p);
  }

  /** Loads and stores of several registers. */
  method LoadStoreMultiple(d0: Darm, p: Word) returns (d: Darm)
    requires LookedFresh(d0, p) && d0.encoding.ArmLdstregs?
    ensures ReadsLdstregs(d, p) && Plain(d, p) && d.w == d0.w
  {
    hide LabelAt, EncodingAt, BlockCode, EncodeLdstregs, Digits, Low16, Op;
    BlockRow(p);
    d := d0.(wBit := p.b21, rn := p.a16);
    d := d.(reglist := Low16(p));
    if d.instr.Ldm? && d.wBit == 1 && d.rn == SP {
      d := d.(instr := Pop);
    } else if d.instr.Stmdb? && d.wBit == 1 && d.rn == SP {
      d := d.(instr := Push);
    }
    BlockEncodes(d, p);
  }

  lemma BlockEncodes(d: Darm, p: Word)
    requires ValidWord(p) && d.cond == p.cond && BlockCode(d.instr) >= 0
    requires Op(p) == 128 + BlockCode(d.instr) + d.wBit * 2 && d.rn == p.a16 && d.reglist == Low16(p)
    ensures EncodeLdstregs(d) == Digits(p)
  {
    DigitsOf16(p);
    hide Op, BlockCode, With16, Low16, Nibble4;
  }

  lemma BitrevLabels(op: int)
    requires 0 <= op < 256 && EncodingAt(op).ArmBitrev?
    ensures (op == 107 && LabelAt(op).Rev16?) || (op == 111 && LabelAt(op).Revsh?)
  {
  }

  /** REV, REV16, RBIT and REVSH. */
  method ByteReverse(d0: Darm, p: Word) returns (d: Darm)
    requires LookedFresh(d0, p) && d0.encoding.ArmBitrev? && p.b4 == 1 && !PackUnpacks(p)
    ensures ReadsBitrev(d, p) && Plain(d, p) && d.w == d0.w
  {
    hide LabelAt, EncodingAt;
    BitrevLabels(Op(p));
    assert p.b21 == 1 && p.b20 == 1;
    d := d0.(rd := p.a12, rm := p.a0);
    if d.instr.Rev16? && Nibble4(p) == 3 {
      d := d.(instr := Rev);
    } else if d.instr.Revsh? && Nibble4(p) == 3 {
      d := d.(instr := Rbit);
    }
  }

  lemma MiscLabels(op: int)
    requires 0 <= op < 256 && EncodingAt(op).ArmMisc?
    ensures (30 <= op < 32 && LabelAt(op).Mvn?) || (op == 22 && LabelAt(op).Smc?) || (op == 104 && LabelAt(op).Sel?)
  {
  }

  /** MVN of a register. */
  method MvnRegister(d0: Darm, p: Word) returns (d: Darm)
    requires LookedFresh(d0, p) && d0.encoding.ArmMisc? && d0.instr.Mvn? && (p.b7 == 0 || p.b4 == 0)
    ensures ReadsMisc(d, p) && Plain(d, p) && d.w == d0.w
  {
    hide LabelAt, EncodingAt;
    MiscLabels(Op(p));
    d := d0.(sBit := p.b20, rd := p.a12, shiftType := p.b6 * 2 + p.b5);
    d := d.(rm := p.a0);
    if p.b4 == 0 {
      d := d.(shift := p.a8 * 2 + p.b7);
    } else {
      d := d.(rs := p.a8);
    }
  }

  /** SMUL, SMC and CLZ, told apart by bits 4 to 7. */
  method SecureMonitor(d0: Darm, p: Word) returns (ok: bool, d: Darm)
    requires Looked(d0, p) && d0.encoding.ArmMisc? && d0.instr.Smc? && (d0.rn == NO_REG || Nibble4(p) == 9)
    ensures ok <==> (p.b7 == 1 && p.b4 == 0) || Nibble4(p) == 7 || Nibble4(p) == 1
    ensures ok ==> (ReadsMisc(d, p) || ReadsSm(d, p)) && Plain(d, p) && d.w == d0.w
  {
    hide LabelAt, EncodingAt;
    MiscLabels(Op(p));
    if p.b7 == 1 && p.b4 == 0 {
      d := d0.(instr := Smul);
      d := d.(encoding := ArmSm);
      d := d.(rd := p.a16, rm := p.a8, mBit := p.b6, nBit := p.b5, rn := p.a0);
      assert ReadsSm(d, p);
      ok := true;
    } else if Nibble4(p) == 7 {
      d := d0.(imm := p.a0);
      d := d.(iBit := 1);
      ok := true;
    } else if Nibble4(p) == 1 {
      d := d0.(instr := Clz);
      d := d.(rm := p.a0, rd := p.a12);
      ok := true;
    } else {
      return false, d0;
    }
  }

  /** SEL and PKH. */
  method SelectOrPack(d0: Darm, p: Word) returns (d: Darm)
    requires LookedFresh(d0, p) && d0.encoding.ArmMisc? && d0.instr.Sel? && p.b4 == 1 && Nibble4(p) != 7
    ensures ReadsMisc(d, p) && Plain(d, p) && d.w == d0.w
  {
    hide LabelAt, EncodingAt;
    MiscLabels(Op(p));
    d := d0.(rd := p.a12, rn := p.a16, rm := p.a0);
    if p.b5 == 0 {
      d := d.(instr := Pkh);
      d := d.(shiftType := p.b6 * 2, shift := p.a8 * 2 + p.b7, tBit := p.b6);
    }
  }

  lemma SmLabels(op: int)
    requires 0 <= op < 256 && EncodingAt(op).ArmSm?
    ensures var l := LabelAt(op);
            (op == 16 && l.Smla?) || (op == 20 && l.Smlal?) || (op == 112 && l.Smusd?) || (op == 116 && l.Smlsld?) ||
            (op == 117 && l.Smmul?)
  {
  }

  /** SMMUL, SMMLA and SMMLS. */
  method MostSignificant(d0: Darm, p: Word) returns (d: Darm)
    requires LookedFresh(d0, p) && d0.encoding.ArmSm? && d0.instr.Smmul? && p.b4 == 1
    ensures ReadsSm(d, p) && Plain(d, p) && d.w == d0.w
  {
    hide LabelAt, EncodingAt;
    SmLabels(Op(p));
    hide Op;
    d := d0.(rd := p.a16, ra := p.a12, rm := p.a8, rBit := p.b5, rn := p.a0);
    if p.b6 == 1 {
      d := d.(instr := Smmls);
    } else if d.ra != 15 {
      d := d.(instr := Smmla);
    }
  }

  /** SMUSD, SMLSD, SMUAD and SMLAD. */
  method DualMultiply(d0: Darm, p: Word) returns (d: Darm)
    requires LookedFresh(d0, p) && d0.encoding.ArmSm? && d0.instr.Smusd? && p.b4 == 1
    ensures ReadsSm(d, p) && Plain(d, p) && d.w == d0.w
  {
    hide LabelAt, EncodingAt;
    SmLabels(Op(p));
    hide Op;
    d := d0.(rd := p.a16, ra := p.a12, rm := p.a8, mBit := p.b5, rn := p.a0);
    if p.b6 == 1 && d.rn != 15 {
      d := d.(instr := Smlsd);
    } else if p.b6 == 0 {
      d := d.(instr := if d.ra == 15 then Smuad else Smlad);
    }
  }

  /** SMLSLD and SMLALD. */
  method LongDualMultiply(d0: Darm, p: Word) returns (d: Darm)
    requires LookedFresh(d0, p) && d0.encoding.ArmSm? && d0.instr.Smlsld? && p.b4 == 1
    ensures ReadsSm(d, p) && Plain(d, p) && d.w == d0.w
  {
    hide LabelAt, EncodingAt;
    SmLabels(Op(p));
    hide Op;
    d := d0.(rdHi := p.a16, rdLo := p.a12, rm := p.a8, mBit := p.b5, rn := p.a0);
    if p.b6 == 0 {
      d := d.(instr := Smlald);
    }
  }

  /** The signed multiplications. */
  method SignedMultiply(d0: Darm, p: Word) returns (d: Darm)
    requires LookedFresh(d0, p) && d0.encoding.ArmSm?
    requires if Op(p) < 32 then !(p.b7 == 1 && p.b4 == 1) && Nibble4(p) != 5 else p.b4 == 1
    ensures ReadsSm(d, p) && Plain(d, p) && d.w == d0.w
  {
    hide LabelAt, EncodingAt;
    SmLabels(Op(p));
    if d0.instr.Smmul? {
      d := MostSignificant(d0, p);
    } else if d0.instr.Smusd? {
      d := DualMultiply(d0, p);
    } else if d0.instr.Smlsld? {
      d := LongDualMultiply(d0, p);
    } else if d0.instr.Smla? {
      hide Op;
      d := d0.(rd := p.a16, ra := p.a12, rm := p.a8, mBit := p.b6, nBit := p.b5, rn := p.a0);
    } else {
      hide Op;
      d := d0.(rdHi := p.a16, rdLo := p.a12, rm := p.a8, mBit := p.b6, nBit := p.b5, rn := p.a0);
    }
  }

  lemma PasOps(op: int)
    requires 0 <= op < 256 && EncodingAt(op).ArmPas?
    ensures 97 <= op <= 99 || 101 <= op <= 103
  {
  }

  lemma PasLabels(high: int, low: int)
    requires 1 <= high < 8 && high != 4 && 0 <= low < 8
    ensures var l := PasLabel(high * 8 + low);
            !l.B? && !l.Bl? &&
            if low == 5 || low == 6 then l.Invld? else !l.Invld? && ParallelHigh(l) == high && ParallelLow(l) == low
  {
    if high == 1 {} else if high == 2 {} else if high == 3 {} else if high == 5 {} else if high == 6 {} else {}
  }

  /** Parallel addition and subtraction. */
  method Parallel(d0: Darm, p: Word) returns (ok: bool, d: Darm)
    requires LookedFresh(d0, p) && d0.encoding.ArmPas? && p.b4 == 1
    ensures ok <==> p.b7 == 0 || p.b6 == p.b5
    ensures ok ==> ReadsPas(d, p) && Plain(d, p) && d.w == d0.w
  {
    hide LabelAt, EncodingAt, PasLabel, ParallelHigh, ParallelLow;
    PasOps(Op(p));
    var high, low := p.b22 * 4 + p.b21 * 2 + p.b20, p.b7 * 4 + p.b6 * 2 + p.b5;
    PasLabels(high, low);
    assert Op(p) == 96 + high;
    hide Op;
    d := d0.(instr := PasLabel(high * 8 + low));
    if d.instr.Invld? {
      return false, d;
    }
    d := d.(rn := p.a16, rd := p.a12, rm := p.a0);
    ok := true;
  }

  lemma MvcrLabels(op: int)
    requires 0 <= op < 256 && EncodingAt(op).ArmMvcr?
    ensures 224 <= op < 240 && if op % 2 == 0 then LabelAt(op).Mcr? else LabelAt(op).Mrc?
  {
  }

  /** CDP, MCR and MRC. */
  method Coprocessor(d0: Darm, p: Word) returns (d: Darm)
    requires LookedFresh(d0, p) && d0.encoding.ArmMvcr?
    ensures ReadsMvcr(d, p) && Plain(d, p) && d.w == d0.w
  {
    hide LabelAt, EncodingAt;
    MvcrLabels(Op(p));
    assert Op(p) == 224 + p.b23 * 8 + p.b22 * 4 + p.b21 * 2 + p.b20;
    hide Op;
    d := d0.(crn := p.a16, coproc := p.a8, opc2 := p.b7 * 4 + p.b6 * 2 + p.b5, crm := p.a0);
    if p.b4 == 0 {
      d := d.(instr := Cdp);
      d := d.(opc1 := p.b23 * 8 + p.b22 * 4 + p.b21 * 2 + p.b20, crd := p.a12);
    } else {
      d := d.(opc1 := p.b23 * 4 + p.b22 * 2 + p.b21, rt := p.a12);
    }
  }

  lemma UdfLabels(op: int)
    requires 0 <= op < 256 && EncodingAt(op).ArmUdf?
    ensures op == 127 && LabelAt(op).Udf?
  {
  }

  method Undefined(d0: Darm, p: Word) returns (d: Darm)
    requires LookedFresh(d0, p) && d0.encoding.ArmUdf? && p.b4 == 1
    ensures ReadsUdf(d, p) && Plain(d, p) && d.w == d0.w
  {
    hide LabelAt, EncodingAt, EncodeUdf, Digits;
    UdfLabels(Op(p));
    hide Op;
    d := d0.(iBit := 1);
    d := d.(imm := p.a0 + (p.a16 * 0x100 + p.a12 * 16 + p.a8) * 16);
    UdfEncodes(d, p);
  }

  lemma UdfEncodes(d: Darm, p: Word)
    requires ValidWord(p) && d.cond == p.cond && d.instr.Udf? && Op(p) == 127
    requires d.imm == p.a0 + (p.a16 * 0x100 + p.a12 * 16 + p.a8) * 16
    ensures EncodeUdf(d, p) == Digits(p) && 0 <= d.imm < 0x1_0000
  {
    hide Op, Nibble4;
    Quotients(0, p.a16, p.a12, p.a8, p.a0, d.imm);
  }

  /** The words that an earlier check has not already answered for. */
  predicate LeftForTable(p: Word) {
    && (Op(p) < 32 && p.b7 == 1 && p.b4 == 1 ==>
         Nibble4(p) == 9 && (17 <= Op(p) <= 19 || 21 <= Op(p) <= 23))
    && (64 <= Op(p) < 128 ==> p.b25 == 1 && p.b4 == 1)
    && !(16 <= Op(p) < 24 && p.b20 == 0 && Nibble4(p) == 5)
    && (104 <= Op(p) < 112 ==> !PackUnpacks(p))
  }

  /** Which words with bits 23 to 27 at 01101 and bit 4 set the extend and saturate cases take. */
  predicate PackUnpacks(p: Word) {
    || (Nibble4(p) == 7 && !(p.b21 == 0 && p.b20 == 1))
    || (p.b5 == 0 && p.b21 == 1)
    || (Nibble4(p) == 3 && p.b21 == 1 && p.b20 == 0)
  }

  /** What the rows of several encodings need to know of the words left for them. */
  lemma LeftInRow(p: Word)
    requires ValidWord(p) && LeftForTable(p)
    ensures var e := EncodingAt(Op(p));
            && (e.ArmSm? ==> if Op(p) < 32 then !(p.b7 == 1 && p.b4 == 1) && Nibble4(p) != 5 else p.b4 == 1)
            && (e.ArmCmpOp? && p.b7 == 1 && p.b4 == 1 ==> p.b6 == 0 && p.b5 == 0)
            && (e.ArmBitrev? ==> p.b4 == 1 && !PackUnpacks(p))
            && (e.ArmUdf? ==> p.b4 == 1)
            && (e.ArmMisc? && LabelAt(Op(p)).Sel? ==> p.b4 == 1 && Nibble4(p) != 7)
  {
    hide EncodingAt, LabelAt;
    RowsLeft(Op(p));
    assert Op(p) == 104 ==> p.b21 == 0 && p.b20 == 0;
  }

  lemma RowsLeft(op: int)
    requires 0 <= op < 256
    ensures var e := EncodingAt(op);
            && (e.ArmSm? ==> op == 16 || op == 20 || 64 <= op < 128)
            && (e.ArmCmpOp? ==> op < 32)
            && (e.ArmBitrev? ==> op == 107 || op == 111)
            && (e.ArmUdf? ==> op == 127)
            && (e.ArmMisc? && LabelAt(op).Sel? ==> op == 104)
  {
  }

  /** MVN, then the instructions that share a line of the table with SMC and with SEL. */
  method Miscellaneous(d0: Darm, p: Word) returns (ok: bool, d: Darm)
    requires Looked(d0, p) && d0.encoding.ArmMisc? && LeftForTable(p)
    requires d0.rn == NO_REG || (17 <= Op(p) <= 23 && Nibble4(p) == 9)
    ensures ok <==> !(Op(p) == 22 && !((p.b7 == 1 && p.b4 == 0) || Nibble4(p) == 7 || Nibble4(p) == 1))
    ensures ok ==> (ReadsMisc(d, p) || ReadsSm(d, p)) && Plain(d, p) && d.w == d0.w
  {
    hide LabelAt, EncodingAt, ReadsMisc, ReadsSm, Plain;
    MiscLabels(Op(p));
    LeftInRow(p);
    if d0.instr.Mvn? {
      d := MvnRegister(d0, p);
      ok := true;
    } else if d0.instr.Smc? {
      ok, d := SecureMonitor(d0, p);
    } else {
      d := SelectOrPack(d0, p);
      ok := true;
    }
  }

  /** Outside the two rows of b and bl, any other label is right. */
  lemma NotABranch(d: Darm, p: Word)
    requires Plain(d, p) && !(160 <= Op(p) < 192)
    ensures Sound(d, p) && BranchExact(d, p)
  {
    hide InRange, Op;
  }

  /** The rows of a few encodings. */
  lemma EncodingRows(op: int)
    requires 0 <= op < 256
    ensures EncodingAt(op).ArmArithShift? || EncodingAt(op).ArmDstSrc? ==> op < 16 || 24 <= op < 30
    ensures EncodingAt(op).ArmBrnchmisc? ==> op == 18
    ensures EncodingAt(op).ArmOpless? ==> op == 50
    ensures EncodingAt(op).ArmMisc? ==> op == 22 || op == 104 || 30 <= op < 32
    ensures EncodingAt(op).ArmPas? ==> 97 <= op <= 99 || 101 <= op <= 103
  {
  }

  /** The rows whose every word is decoded. */
  predicate FullRow(op: int) {
    || 0 <= op <= 17 || 19 <= op <= 21 || 23 <= op <= 49 || 51 <= op <= 53 || 55 <= op < 64 || op == 107
    || 111 <= op <= 112 || 116 <= op <= 117 || 122 <= op <= 131 || 136 <= op <= 139 || 144 <= op <= 147
    || 152 <= op <= 155 || 160 <= op < 192 || 224 <= op
  }

  lemma FullRows(op: int)
    requires 0 <= op < 256
    requires var e := EncodingAt(op);
             e.ArmArithShift? || e.ArmArithImm? || e.ArmMovImm? || e.ArmCmpOp? || e.ArmCmpImm? || e.ArmDstSrc? ||
             e.ArmBits? || e.ArmLdstregs? || e.ArmBitrev? || e.ArmSm? || e.ArmMvcr? || e.ArmUdf? || e.ArmBrnchsc?
    ensures FullRow(op)
  {
  }

  lemma FullNotRefused(op: int, nibble: int, a0: int)
    requires FullRow(op) && (op < 16 ==> nibble != 9 && nibble != 13 && nibble != 15)
    ensures !Refused(op, nibble, a0)
  {
  }

  lemma NoExceptionLeft(p: Word)
    requires ValidWord(p) && LeftForTable(p) && Op(p) < 16
    ensures Nibble4(p) != 9 && Nibble4(p) != 13 && Nibble4(p) != 15
  {
  }

  /** A word that no earlier check answered for and whose row is full is not refused. */
  lemma RowNotRefused(p: Word)
    requires ValidWord(p) && LeftForTable(p)
    requires var e := EncodingAt(Op(p));
             e.ArmArithShift? || e.ArmArithImm? || e.ArmMovImm? || e.ArmCmpOp? || e.ArmCmpImm? || e.ArmDstSrc? ||
             e.ArmBits? || e.ArmLdstregs? || e.ArmBitrev? || e.ArmSm? || e.ArmMvcr? || e.ArmUdf? || e.ArmBrnchsc?
    ensures !Refused(Op(p), Nibble4(p), p.a0)
  {
    hide EncodingAt, Nibble4, LeftForTable, Refused, FullRow;
    assert 0 <= Op(p) < 256;
    hide Op;
    FullRows(Op(p));
    if Op(p) < 16 {
      NoExceptionLeft(p);
    }
    FullNotRefused(Op(p), Nibble4(p), p.a0);
  }

  /** The rows without an encoding, 64 to 95 aside, for which no word gets here. */
  predicate EmptyRow(op: int) {
    || op == 54 || op == 96 || op == 100 || op == 105 || op == 106 || 108 <= op <= 110 || 113 <= op <= 115
    || 118 <= op <= 121 || 132 <= op <= 135 || 140 <= op <= 143 || 148 <= op <= 151 || 156 <= op <= 159
    || 192 <= op <= 223
  }

  lemma EmptyRows(op: int)
    requires 0 <= op < 256 && EncodingAt(op).NoEncoding?
    ensures EmptyRow(op) || 64 <= op < 96
  {
  }

  /** What LeftForTable leaves of the media rows without an encoding. */
  predicate MediaGap(op: int, nibble: int) {
    && op >= 96 && nibble % 2 == 1
    && (op == 106 || op == 110 ==> nibble == 11 || nibble == 15)
    && (op == 108 ==> nibble != 7)
  }

  lemma MediaGaps(p: Word)
    requires ValidWord(p) && LeftForTable(p) && 64 <= Op(p) < 128
    ensures MediaGap(Op(p), Nibble4(p))
  {
    assert Nibble4(p) == 2 * (p.b7 * 4 + p.b6 * 2 + p.b5) + 1;
    assert 104 <= Op(p) < 112 ==> Op(p) == 104 + p.b22 * 4 + p.b21 * 2 + p.b20;
  }

  lemma GapRefused(op: int, nibble: int, a0: int)
    requires EmptyRow(op) && (64 <= op < 128 ==> MediaGap(op, nibble))
    ensures Refused(op, nibble, a0)
  {
  }

  lemma EmptyRowRefused(p: Word)
    requires ValidWord(p) && LeftForTable(p) && EncodingAt(Op(p)).NoEncoding?
    ensures Refused(Op(p), Nibble4(p), p.a0)
  {
    hide EncodingAt, Nibble4, LeftForTable, Refused, EmptyRow;
    assert 0 <= Op(p) < 256;
    hide Op;
    EmptyRows(Op(p));
    if 64 <= Op(p) < 128 {
      MediaGaps(p);
    }
    GapRefused(Op(p), Nibble4(p), p.a0);
  }

  lemma RowRefused(p: Word)
    requires ValidWord(p) && LeftForTable(p)
    ensures var e := EncodingAt(Op(p));
            && (e.ArmBrnchmisc? ==> (Refused(Op(p), Nibble4(p), p.a0) <==> !(Nibble4(p) < 4 || Nibble4(p) == 7)))
            && (e.ArmOpless? ==> (Refused(Op(p), Nibble4(p), p.a0) <==> p.a0 % 8 >= 5))
            && (e.ArmPas? ==> (Refused(Op(p), Nibble4(p), p.a0) <==> !(p.b7 == 0 || p.b6 == p.b5)))
            && (e.ArmMisc? ==> (Refused(Op(p), Nibble4(p), p.a0) <==>
                Op(p) == 22 && !((p.b7 == 1 && p.b4 == 0) || Nibble4(p) == 7 || Nibble4(p) == 1)))
  {
    hide EncodingAt;
    EncodingRows(Op(p));
  }

  /** The data-processing rows. */
  method LookUpData(d0: Darm, p: Word) returns (ok: bool, d: Darm)
    requires Looked(d0, p) && LeftForTable(p) && (d0.rn != NO_REG ==> EncodingAt(Op(p)).ArmCmpOp?)
    requires var e := d0.encoding;
             e.ArmArithShift? || e.ArmArithImm? || e.ArmMovImm? || e.ArmCmpOp? || e.ArmCmpImm? || e.ArmDstSrc?
    ensures ok && Plain(d, p) && Represents(d, p) && d.w == d0.w
  {
    hide LabelAt, EncodingAt, Plain, ReadsArithShift, ReadsArithImm, ReadsMovImm, ReadsCmpOp, ReadsCmpImm, ReadsDstSrc;
    EncodingRows(Op(p));
    LeftInRow(p);
    ok := true;
    if d0.encoding.ArmArithShift? {
      d := ArithShift(d0, p);
    } else if d0.encoding.ArmArithImm? {
      d := ArithImm(d0, p);
    } else if d0.encoding.ArmMovImm? {
      d := MovImm(d0, p);
    } else if d0.encoding.ArmCmpOp? {
      d := CmpOp(d0, p);
    } else if d0.encoding.ArmCmpImm? {
      d := CmpImm(d0, p);
    } else {
      ok, d := DstSrc(d0, p);
    }
  }

  lemma OtherEncodings(op: int)
    requires 0 <= op < 256
    ensures var e := EncodingAt(op);
            !e.ArmMul? && !e.ArmStack0? && !e.ArmStack1? && !e.ArmStack2? && !e.ArmSync? && !e.ArmSat? && !e.ArmPusr? &&
            !e.ArmUncond?
  {
  }

  lemma MediaRows(op: int)
    requires 0 <= op < 256 && (EncodingAt(op).ArmBits? || EncodingAt(op).ArmPas?)
    ensures 64 <= op < 128
  {
  }

  /** The rows of hints, branches and several registers, and the coprocessor and media rows. */
  method LookUpOther(d0: Darm, p: Word) returns (ok: bool, d: Darm)
    requires Looked(d0, p) && LeftForTable(p)
    requires d0.rn == NO_REG || ((d0.encoding.ArmBrnchmisc? || d0.encoding.ArmMisc?) && 17 <= Op(p) <= 23 && Nibble4(p) == 9)
    requires var e := d0.encoding;
             !e.ArmBrnchsc? && !e.ArmArithShift? && !e.ArmArithImm? && !e.ArmMovImm? && !e.ArmCmpOp? && !e.ArmCmpImm? &&
             !e.ArmDstSrc?
    ensures ok <==> !Refused(Op(p), Nibble4(p), p.a0)
    ensures ok ==> Plain(d, p) && Represents(d, p) && d.w == d0.w
  {
    hide LabelAt, EncodingAt, Plain, Refused, PackUnpacks, ReadsBits, ReadsBranchMisc, ReadsOpless, ReadsLdstregs,
         ReadsBitrev, ReadsMisc, ReadsSm, ReadsPas, ReadsMvcr, ReadsUdf;
    assert d0.encoding == EncodingAt(Op(p));
    RowRefused(p);
    LeftInRow(p);
    ok := true;
    if d0.encoding.ArmBits? {
      MediaRows(Op(p));
      d := BitField(d0, p);
    } else if d0.encoding.ArmBrnchmisc? {
      ok, d := BranchMisc(d0, p);
    } else if d0.encoding.ArmOpless? {
      ok, d := Opless(d0, p);
    } else if d0.encoding.ArmLdstregs? {
      d := LoadStoreMultiple(d0, p);
    } else if d0.encoding.ArmBitrev? {
      d := ByteReverse(d0, p);
    } else if d0.encoding.ArmMisc? {
      ok, d := Miscellaneous(d0, p);
    } else if d0.encoding.ArmSm? {
      d := SignedMultiply(d0, p);
    } else if d0.encoding.ArmPas? {
      MediaRows(Op(p));
      ok, d := Parallel(d0, p);
    } else if d0.encoding.ArmMvcr? {
      d := Coprocessor(d0, p);
    } else if d0.encoding.ArmUdf? {
      d := Undefined(d0, p);
    } else {
      OtherEncodings(Op(p));
      EmptyRowRefused(p);
      return false, d0;
    }
    if !(d0.encoding.ArmBrnchmisc? || d0.encoding.ArmOpless? || d0.encoding.ArmMisc? || d0.encoding.ArmPas?) {
      RowNotRefused(p);
    }
  }

  lemma RowsOfBranches(op: int)
    requires 0 <= op < 256
    ensures EncodingAt(op).ArmBrnchsc? <==> 160 <= op < 192 || 240 <= op
    ensures 17 <= op <= 19 || 21 <= op <= 23 ==>
              EncodingAt(op).ArmCmpOp? || EncodingAt(op).ArmBrnchmisc? || EncodingAt(op).ArmMisc?
  {
  }

  /** The switch on the encoding that the table gives for bits 20 to 27. */
  method LookUp(d0: Darm, p: Word) returns (ok: bool, d: Darm)
    requires ValidWord(p) && p.cond != UNCONDITIONAL && d0.cond == p.cond && LeftForTable(p)
    requires d0.(instr := Invld, encoding := NoEncoding) == Init(d0.w).(rn := d0.rn)
    requires d0.rn == NO_REG || (Nibble4(p) == 9 && (17 <= Op(p) <= 19 || 21 <= Op(p) <= 23))
    ensures ok <==> !Refused(Op(p), Nibble4(p), p.a0)
    ensures ok ==> Correct(d, p) && d.w == d0.w
  {
    hide LabelAt, EncodingAt, Plain, Refused, PackUnpacks, Represents, Sound, BranchExact;
    assert 0 <= Op(p) < 256;
    RowsOfBranches(Op(p));
    d := d0.(instr := LabelAt(Op(p)));
    d := d.(encoding := EncodingAt(Op(p)));
    assert Looked(d, p);
    if d.encoding.ArmBrnchsc? {
      RowNotRefused(p);
      d := BranchOrCall(d, p);
      BranchIsExact(d, p);
      ok := true;
    } else {
      var e := d.encoding;
      if e.ArmArithShift? || e.ArmArithImm? || e.ArmMovImm? || e.ArmCmpOp? || e.ArmCmpImm? || e.ArmDstSrc? {
        RowNotRefused(p);
        ok, d := LookUpData(d, p);
      } else {
        ok, d := LookUpOther(d, p);
      }
      if ok {
        NotABranch(d, p);
      }
    }
  }

  lemma BranchIsExact(d: Darm, p: Word)
    requires ValidWord(p) && p.cond != UNCONDITIONAL && ReadsBranch(d, p) && (d.instr.B? <==> 160 <= Op(p) < 176)
    requires (d.instr.Bl? <==> 176 <= Op(p) < 192) && (!d.instr.Svc? ==> d.imm == SignExtended(Low24(p)))
    ensures Represents(d, p) && BranchExact(d, p)
  {
    hide ReadsBranch, Op, Low24, SignExtended;
  }
}
