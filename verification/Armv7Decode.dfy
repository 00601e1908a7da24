/** The ARM disassembler (armv7.c): its methods fill a darm_t step by step and are proved against Armv7Encode. */
module Armv7Decode {
  import opened Words
  import opened Armv7Tables
  import opened Armv7
  import opened Armv7Encode
  import opened Armv7Lookup

  /** d is as darm_armv7_disasm hands it on, for the word p. */
  predicate Started(d: Darm, p: Word) {
    ValidWord(p) && d == Init(d.w) && d.cond == p.cond
  }

  predicate Conditional(d: Darm, p: Word) {
    Started(d, p) && p.cond != UNCONDITIONAL
  }

  predicate Bits2725(p: Word, b27: int, b26: int, b25: int) {
    p.b27 == b27 && p.b26 == b26 && p.b25 == b25
  }

  predicate Bits74(p: Word, b7: int, b6: int, b5: int, b4: int) {
    p.b7 == b7 && p.b6 == b6 && p.b5 == b5 && p.b4 == b4
  }

  /** The variants of MUL. */
  method Multiply(d0: Darm, p: Word) returns (ok: bool, d: Darm)
    requires Conditional(d0, p) && Bits2725(p, 0, 0, 0) && p.b24 == 0 && Bits74(p, 1, 0, 0, 1)
    ensures ok <==> !(p.b23 == 0 && p.b22 == 1 && p.b20 == 1)
    ensures ok ==> ReadsMul(d, p) && Plain(d, p) && d.w == d0.w
  {
    d := d0.(instr := MulLabel(p.b23 * 4 + p.b22 * 2 + p.b21), encoding := ArmMul);
    d := d.(sBit := p.b20);
    d := d.(rm := p.a8, rn := p.a0);
    if (d.instr.Umaal? || d.instr.Mls?) && d.sBit != 0 {
      return false, d;
    }
    if d.instr.Mla? || d.instr.Mls? {
      d := d.(ra := p.a12);
      d := d.(rd := p.a16);
    } else if d.instr.Mul? {
      d := d.(rd := p.a16);
    } else if d.instr.Umaal? || d.instr.Umull? || d.instr.Umlal? || d.instr.Smull? || d.instr.Smlal? {
      d := d.(rdHi := p.a16);
      d := d.(rdLo := p.a12);
    }
    ok := true;
  }

  /** The tables of half-word transfers hold each label at its own code. */
  lemma HalfLabels(i: int)
    requires 0 <= i < 8
    ensures var l := Stack2Label(i);
            !l.B? && !l.Bl? && !l.Strht? && !l.Ldrht? && !l.Ldrsbt? && !l.Ldrsht? &&
            (i >= 2 ==> HalfCode(l) == i && !l.Invld?)
    ensures var l := Stack1Label(i);
            !l.B? && !l.Bl? &&
            if i == 2 || i == 3 || i == 5 || i == 7
            then HalfCode(l) == i && (l.Strht? || l.Ldrht? || l.Ldrsbt? || l.Ldrsht?)
            else l.Invld?
  {
  }

  lemma HalfEncodes(d: Darm, wBit: int, p: Word)
    requires ValidWord(p) && Bits2725(p, 0, 0, 0) && p.b7 == 1 && p.b4 == 1 && d.cond == p.cond && wBit == p.b21
    requires HalfCode(d.instr) == p.b6 * 4 + p.b5 * 2 + p.b20 && d.pBit == p.b24 && d.uBit == p.b23
    requires d.rn == p.a16 && d.rt == p.a12
    requires if p.b22 == 0 then d.iBit == NO_BIT && d.rm == p.a0 else d.iBit == 1 && d.imm == p.a8 * 16 + p.a0
    ensures EncodeHalf(d, wBit, p) == Digits(p)
  {
    hide HalfCode;
  }

  /** STRHT, LDRHT, LDRSBT and LDRSHT. */
  method Unprivileged(d0: Darm, p: Word) returns (ok: bool, d: Darm)
    requires Conditional(d0, p) && Bits2725(p, 0, 0, 0) && p.b24 == 0 && p.b21 == 1 && p.b7 == 1 && p.b4 == 1
    requires p.b6 == 1 || p.b5 == 1
    ensures ok <==> p.b6 == 0 || p.b20 == 1
    ensures ok ==> ReadsStack1(d, p) && Plain(d, p) && d.w == d0.w
  {
    var index := p.b6 * 4 + p.b5 * 2 + p.b20;
    HalfLabels(index);
    hide Stack1Label, HalfCode, EncodeHalf, Digits;
    d := d0.(instr := Stack1Label(index));
    if d.instr.Invld? {
      return false, d;
    }
    d := d.(encoding := ArmStack1);
    d := d.(rn := p.a16, rt := p.a12, pBit := p.b24, uBit := p.b23);
    if p.b22 == 0 {
      d := d.(rm := p.a0);
    } else {
      d := d.(imm := p.a8 * 16 + p.a0);
      d := d.(iBit := 1);
    }
    HalfEncodes(d, p.b21, p);
    ok := true;
  }

  /** STRH, LDRH, LDRD, LDRSB, STRD and LDRSH. */
  method ExtraTransfer(d0: Darm, p: Word) returns (ok: bool, d: Darm)
    requires Conditional(d0, p) && Bits2725(p, 0, 0, 0) && (p.b24 == 1 || p.b21 == 0) && p.b7 == 1 && p.b4 == 1
    requires p.b6 == 1 || p.b5 == 1
    ensures ok && ReadsStack2(d, p) && Plain(d, p) && d.w == d0.w
  {
    var index := p.b6 * 4 + p.b5 * 2 + p.b20;
    HalfLabels(index);
    hide Stack2Label, HalfCode, EncodeHalf, Digits;
    d := d0.(instr := Stack2Label(index));
    if d.instr.Invld? {
      return false, d;
    }
    d := d.(encoding := ArmStack2);
    d := d.(rn := p.a16, rt := p.a12, pBit := p.b24, uBit := p.b23, wBit := p.b21);
    if p.b22 == 0 {
      d := d.(rm := p.a0);
    } else {
      d := d.(imm := p.a8 * 16 + p.a0);
      d := d.(iBit := 1);
    }
    HalfEncodes(d, p.b21, p);
    ok := true;
  }

  /** Synchronization primitives; a word that is none of them goes on to the later checks. */
  method Synchronization(d0: Darm, p: Word) returns (ok: bool, d: Darm)
    requires Conditional(d0, p) && Bits2725(p, 0, 0, 0) && p.b24 == 1 && Bits74(p, 1, 0, 0, 1)
    ensures ok <==> p.b23 == 1 || (p.b21 == 0 && p.b20 == 0)
    ensures ok ==> ReadsSync(d, p) && Plain(d, p) && d.w == d0.w
    ensures !ok ==> d == d0.(instr := Invld, encoding := ArmSync, rn := p.a16)
  {
    d := d0.(instr := SyncLabel(p.b23 * 8 + p.b22 * 4 + p.b21 * 2 + p.b20), encoding := ArmSync);
    d := d.(rn := p.a16);
    if d.instr.Swp? || d.instr.Swpb? {
      d := d.(bBit := p.b22);
      d := d.(rt := p.a12, rt2 := p.a0);
      ok := true;
    } else if d.instr.Ldrex? || d.instr.Ldrexd? || d.instr.Ldrexb? || d.instr.Ldrexh? {
      d := d.(rt := p.a12);
      ok := true;
    } else if d.instr.Strex? || d.instr.Strexd? || d.instr.Strexb? || d.instr.Strexh? {
      d := d.(rd := p.a12, rt := p.a0);
      ok := true;
    } else {
      ok := false;
    }
  }

  lemma TransferLabels(b24: int, b23: int, b22: int, b21: int, b20: int)
    requires Bit(b24) && Bit(b23) && Bit(b22) && Bit(b21) && Bit(b20)
    ensures var l := Stack0Label(b24 * 16 + b23 * 8 + b22 * 4 + b21 * 2 + b20);
            !l.B? && !l.Bl? && !l.Invld? && !l.Push? && !l.Pop? && TransferCode(l) == b22 * 4 + b20 &&
            (l.Strt? || l.Ldrt? || l.Strbt? || l.Ldrbt? <==> b24 == 0 && b21 == 1)
    ensures TransferCode(Push) == TransferCode(Str) && TransferCode(Pop) == TransferCode(Ldr)
  {
  }

  /** STR, LDR and their byte and unprivileged variants. */
  method SingleTransfer(d0: Darm, p: Word) returns (d: Darm)
    requires Conditional(d0, p) && p.b27 == 0 && p.b26 == 1 && !(p.b25 == 1 && p.b4 == 1)
    ensures ReadsStack0(d, p) && Plain(d, p) && d.w == d0.w
  {
    hide Stack0Label, Low12, With12, EncodeStack0, Digits, TransferCode, Nibble4, Op, ShiftType;
    DigitsOf12(p);
    TransferLabels(p.b24, p.b23, p.b22, p.b21, p.b20);
    d := d0.(instr := Stack0Label(p.b24 * 16 + p.b23 * 8 + p.b22 * 4 + p.b21 * 2 + p.b20), encoding := ArmStack0);
    d := d.(rn := p.a16, rt := p.a12);
    d := d.(pBit := p.b24, uBit := p.b23, wBit := p.b21);
    if p.b25 == 0 {
      d := d.(imm := Low12(p));
      d := d.(iBit := 1);
    } else {
      d := d.(shiftType := p.b6 * 2 + p.b5, shift := p.a8 * 2 + p.b7, rm := p.a0);
    }
    if d.instr.Str? && d.rn == SP && d.pBit == 1 && d.uBit == 0 && d.wBit == 1 && d.imm == 4 {
      d := d.(instr := Push);
    } else if d.instr.Ldr? && d.rn == SP && d.pBit == 0 && d.uBit == 1 && d.wBit == 0 && d.imm == 4 {
      d := d.(instr := Pop);
    }
    TransferEncodes(d, p);
  }

  lemma TransferEncodes(d: Darm, p: Word)
    requires ValidWord(p) && p.b27 == 0 && p.b26 == 1 && !(p.b25 == 1 && p.b4 == 1) && d.cond == p.cond
    requires TransferCode(d.instr) == p.b22 * 4 + p.b20 && d.pBit == p.b24 && d.uBit == p.b23 && d.wBit == p.b21
    requires d.rn == p.a16 && d.rt == p.a12
    requires p.b25 == 0 ==> d.iBit == 1 && d.imm == Low12(p)
    requires p.b25 == 1 ==> d.iBit == NO_BIT && d.rs == NO_REG && d.rm == p.a0 && d.shiftType == p.b6 * 2 + p.b5 &&
                            d.shift == p.a8 * 2 + p.b7
    ensures EncodeStack0(d) == Digits(p)
  {
    DigitsOf12(p);
    ShiftHalves(p);
    hide TransferCode, Low12, With12;
  }

  /** Saturating addition and subtraction. */
  method Saturating(d0: Darm, p: Word) returns (d: Darm)
    requires Conditional(d0, p) && Bits2725(p, 0, 0, 0) && p.b24 == 1 && p.b23 == 0 && p.b20 == 0
    requires Bits74(p, 0, 1, 0, 1)
    ensures ReadsSat(d, p) && Plain(d, p) && d.w == d0.w
  {
    d := d0.(instr := SatLabel(p.b22 * 2 + p.b21), encoding := ArmSat);
    d := d.(rn := p.a16, rd := p.a12, rm := p.a0);
  }

  predicate Bits2723(p: Word, b27: int, b26: int, b25: int, b24: int, b23: int) {
    Bits2725(p, b27, b26, b25) && p.b24 == b24 && p.b23 == b23
  }

  lemma ExtendLabels(op1: int, a: bool)
    requires 0 <= op1 < 8
    ensures var l := PusrLabel(op1 * 2 + if a then 1 else 0);
            !l.B? && !l.Bl? && !l.Ssat? && !l.Usat? && !l.Ssat16? && !l.Usat16? &&
            if op1 == 1 || op1 == 5 then l.Invld? else !l.Invld? && ExtendCode(l) == op1 && ExtendAdds(l) == !a
  {
  }

  /** The sign and zero extensions, whose label is indexed by bits 20 to 22 and whether Rn is missing. */
  method Extend(d0: Darm, p: Word) returns (ok: bool, d: Darm)
    requires Conditional(d0.(encoding := NoEncoding), p) && d0.encoding.ArmPusr? && Bits2723(p, 0, 1, 1, 0, 1)
    requires Bits74(p, 0, 1, 1, 1)
    ensures ok <==> !(p.b21 == 0 && p.b20 == 1)
    ensures ok ==> ReadsPusr(d, p) && Plain(d, p) && d.w == d0.w
    ensures !ok ==> d == d0
  {
    var op1, a := p.b22 * 4 + p.b21 * 2 + p.b20, p.a16;
    hide PusrLabel, ExtendCode, ExtendAdds, EncodePusr, Digits, Shifted, ShiftType;
    ExtendLabels(op1, a == 15);
    assert p.a8 / 4 * 8 % 8 == 0 && 0 <= p.a8 / 4 * 8 <= 24;
    d := d0.(instr := PusrLabel(op1 * 2 + if a == 15 then 1 else 0));
    if !d.instr.Invld? {
      d := d.(rd := p.a12, rm := p.a0);
      d := d.(rotate := p.a8 / 4 * 8);
      if a != 15 {
        d := d.(rn := a);
      }
      ExtendEncodes(d, p);
      return true, d;
    }
    ok := false;
  }

  lemma ExtendEncodes(d: Darm, p: Word)
    requires ValidWord(p) && Bits2723(p, 0, 1, 1, 0, 1) && Bits74(p, 0, 1, 1, 1) && d.cond == p.cond
    requires !d.instr.Ssat? && !d.instr.Usat? && !d.instr.Ssat16? && !d.instr.Usat16?
    requires ExtendCode(d.instr) == p.b22 * 4 + p.b21 * 2 + p.b20 && ExtendAdds(d.instr) == (p.a16 != 15)
    requires p.a16 != 15 ==> d.rn == p.a16
    requires d.rd == p.a12 && d.rm == p.a0 && d.rotate == p.a8 / 4 * 8
    ensures EncodePusr(d, p) == Digits(p)
  {
    hide ExtendCode, ExtendAdds;
  }

  lemma NotExtending()
    ensures ExtendCode(Ssat) < 0 && ExtendCode(Usat) < 0 && ExtendCode(Ssat16) < 0 && ExtendCode(Usat16) < 0
  {
  }

  /** SSAT and USAT. */
  method SaturateWord(d0: Darm, p: Word) returns (d: Darm)
    requires Conditional(d0.(encoding := NoEncoding), p) && d0.encoding.ArmPusr? && Bits2723(p, 0, 1, 1, 0, 1) && p.b21 == 1
    requires p.b5 == 0 && p.b4 == 1
    ensures ReadsPusr(d, p) && Plain(d, p) && d.w == d0.w
  {
    hide ExtendCode;
    NotExtending();
    d := d0.(instr := if p.b22 != 0 then Usat else Ssat);
    d := d.(imm := p.b20 * 16 + p.a16);
    d := d.(iBit := 1);
    if d.instr.Ssat? {
      d := d.(imm := d.imm + 1);
    }
    d := d.(rd := p.a12, shift := p.a8 * 2 + p.b7, shiftType := p.b6 * 2 + p.b5, rn := p.a0);
  }

  /** SSAT16 and USAT16. */
  method SaturateHalves(d0: Darm, p: Word) returns (d: Darm)
    requires Conditional(d0.(encoding := NoEncoding), p) && d0.encoding.ArmPusr? && Bits2723(p, 0, 1, 1, 0, 1)
    requires p.b21 == 1 && p.b20 == 0 && Bits74(p, 0, 0, 1, 1)
    ensures ReadsPusr(d, p) && Plain(d, p) && d.w == d0.w
  {
    hide ExtendCode;
    NotExtending();
    d := d0.(instr := if p.b22 == 0 then Ssat16 else Usat16);
    d := d.(imm := p.a16);
    d := d.(iBit := 1);
    if d.instr.Ssat16? {
      d := d.(imm := d.imm + 1);
    }
    d := d.(rd := p.a12, rn := p.a0);
  }

  /** Extension, saturation of a word and of half-words; other words go on to the table. */
  method PackUnpack(d0: Darm, p: Word) returns (ok: bool, d: Darm)
    requires Conditional(d0, p) && Bits2723(p, 0, 1, 1, 0, 1) && p.b4 == 1
    ensures ok <==> PackUnpacks(p)
    ensures ok ==> ReadsPusr(d, p) && Plain(d, p) && d.w == d0.w
    ensures !ok ==> d == d0.(encoding := ArmPusr)
  {
    hide ReadsPusr, Plain;
    d := d0.(encoding := ArmPusr);
    assert d.(encoding := NoEncoding) == d0;
    if Bits74(p, 0, 1, 1, 1) {
      ok, d := Extend(d, p);
      if ok {
        return;
      }
    }
    if p.b21 == 1 && p.b5 == 0 {
      d := SaturateWord(d, p);
      ok := true;
    } else if p.b21 == 1 && p.b20 == 0 && Bits74(p, 0, 0, 1, 1) {
      d := SaturateHalves(d, p);
      ok := true;
    } else {
      ok := false;
    }
  }

  /** PLD, PLDW and PLI. */
  method Preload(d0: Darm, p: Word) returns (d: Darm)
    requires ValidWord(p) && p.cond == UNCONDITIONAL && d0.cond == p.cond && p.b27 == 0 && p.b26 == 1
    requires !BarrierWord(p)
    requires d0.(instr := Invld) == Init(d0.w).(encoding := ArmUncond)
    ensures ReadsUncond(d, p) && Plain(d, p) && d.w == d0.w
  {
    hide With12, Low12, EncodePreload, EncodeUncond, Digits, BarrierWord, Nibble4, Op, ShiftType;
    DigitsOf12(p);
    d := d0.(instr := if p.b24 == 1 then Pld else Pli);
    d := d.(rn := p.a16);
    d := d.(uBit := p.b23);
    if p.b25 == 1 {
      d := d.(rm := p.a0);
      d := d.(shiftType := p.b6 * 2 + p.b5, shift := p.a8 * 2 + p.b7);
    } else {
      d := d.(iBit := 1);
      d := d.(imm := Low12(p));
    }
    if d.instr.Pld? && p.b22 == 0 {
      d := d.(instr := Pldw);
    }
    PreloadEncodes(d, p);
    UncondIsPreload(d, p);
  }

  lemma UncondIsPreload(d: Darm, p: Word)
    requires d.instr.Pld? || d.instr.Pldw? || d.instr.Pli?
    ensures EncodeUncond(d, p) == EncodePreload(d, p)
  {
    hide EncodePreload;
  }

  lemma PreloadEncodes(d: Darm, p: Word)
    requires ValidWord(p) && p.b27 == 0 && p.b26 == 1 && d.cond == p.cond && d.rn == p.a16 && d.uBit == p.b23
    requires if p.b24 == 0 then d.instr.Pli? else if p.b22 == 1 then d.instr.Pld? else d.instr.Pldw?
    requires if p.b25 == 0 then d.iBit == 1 && d.imm == Low12(p)
             else d.iBit == NO_BIT && d.rm == p.a0 && d.shiftType == p.b6 * 2 + p.b5 && d.shift == p.a8 * 2 + p.b7
    ensures EncodePreload(d, p) == Digits(p)
  {
    DigitsOf12(p);
    ShiftHalves(p);
    hide With12, Low12;
  }

  lemma SignExtendedHalf(f: int, h: int)
    requires 0 <= f < 0x100_0000 && Bit(h)
    ensures (SignExtended(f) + 2 * h) / 4 % 0x100_0000 == f && 0 <= SignExtended(f) + 2 * h < 0x1_0000_0000
  {
    if f >= 0x80_0000 {
      assert SignExtended(f) == 0xfc00_0000 + f * 4;
      assert (SignExtended(f) + 2 * h) / 4 == 0x3f00_0000 + f;
    }
  }

  lemma BlxEncodes(d: Darm, p: Word)
    requires ValidWord(p) && Bits2725(p, 1, 0, 1) && d.instr.Blx? && d.cond == p.cond && d.hBit == p.b24
    requires d.imm == SignExtended(Low24(p)) + 2 * d.hBit
    ensures EncodeUncond(d, p) == Digits(p) && 0 <= d.imm < 0x1_0000_0000
  {
    DigitsOf24(p);
    SignExtendedHalf(Low24(p), p.b24);
    hide With24, Low24, SignExtended, Digits, EncodePreload;
  }

  /** BLX with an immediate, whose H bit is bit 1 of the offset. */
  method BranchExchange(d0: Darm, p: Word) returns (d: Darm)
    requires ValidWord(p) && p.cond == UNCONDITIONAL && d0.cond == p.cond && Bits2725(p, 1, 0, 1)
    requires d0 == Init(d0.w).(encoding := ArmUncond)
    ensures ReadsUncond(d, p) && Plain(d, p) && d.w == d0.w
  {
    DigitsOf24(p);
    hide With24, Low24, SignExtended, Digits, EncodeUncond;
    d := d0.(instr := Blx);
    d := d.(hBit := p.b24);
    d := d.(iBit := 1);
    var imm := ExtendField(Low24(p));
    d := d.(imm := imm);
    d := d.(imm := d.imm + d.hBit * 2);
    BlxEncodes(d, p);
  }

  /** CDP2, MRC2 and MCR2. */
  method Coprocessor2(d0: Darm, p: Word) returns (d: Darm)
    requires ValidWord(p) && p.cond == UNCONDITIONAL && d0.cond == p.cond && Bits2725(p, 1, 1, 1)
    requires d0 == Init(d0.w).(encoding := ArmUncond)
    ensures ReadsUncond(d, p) && Plain(d, p) && d.w == d0.w
  {
    d := d0.(crn := p.a16, coproc := p.a8, opc2 := p.b7 * 4 + p.b6 * 2 + p.b5, crm := p.a0);
    if p.b4 == 0 {
      d := d.(instr := Cdp2);
      d := d.(crd := p.a12);
      d := d.(opc1 := p.b23 * 8 + p.b22 * 4 + p.b21 * 2 + p.b20);
    } else {
      d := d.(instr := if p.b20 == 1 then Mrc2 else Mcr2);
      d := d.(opc1 := p.b23 * 4 + p.b22 * 2 + p.b21);
      d := d.(rt := p.a12);
    }
  }

  /** CLREX, DSB, DMB and ISB; any other word is left to the preloads. */
  method Barrier(d0: Darm, p: Word) returns (ok: bool, d: Darm)
    requires ValidWord(p) && p.cond == UNCONDITIONAL && d0.cond == p.cond && Bits2725(p, 0, 1, 0) && p.b21 == 1
    requires d0 == Init(d0.w).(encoding := ArmUncond)
    ensures ok <==> BarrierWord(p)
    ensures ok ==> ReadsUncond(d, p) && Plain(d, p) && d.w == d0.w
    ensures !ok ==> d.(instr := Invld) == Init(d0.w).(encoding := ArmUncond) && d.cond == p.cond
  {
    d := d0.(instr := Uncond2Label(p.b6 * 4 + p.b5 * 2 + p.b4));
    if !d.instr.Invld? {
      if !d.instr.Clrex? {
        d := d.(option := p.a0);
      }
      return true, d;
    }
    ok := false;
  }

  /** armv7_disas_uncond: the words whose condition is 1111. */
  method DisasmUnconditional(d0: Darm, p: Word) returns (ok: bool, d: Darm)
    requires Started(d0, p) && p.cond == UNCONDITIONAL
    ensures ok <==> !Undecodable(p)
    ensures ok ==> Correct(d, p) && d.w == d0.w
  {
    hide Plain, ReadsUncond, Refused, Correct;
    d := d0.(encoding := ArmUncond);
    if Bits2725(p, 0, 0, 0) {
      d := SetEndian(d, p);
    } else if Bits2725(p, 0, 1, 0) || Bits2725(p, 0, 1, 1) {
      ok := false;
      if p.b25 == 0 && p.b21 == 1 {
        ok, d := Barrier(d, p);
      }
      if !ok {
        d := Preload(d, p);
      }
    } else if Bits2725(p, 1, 0, 1) {
      d := BranchExchange(d, p);
    } else if Bits2725(p, 1, 1, 1) {
      d := Coprocessor2(d, p);
    } else {
      return false, d;
    }
    ok := true;
    UnconditionalIsExact(d, p);
  }

  method SetEndian(d0: Darm, p: Word) returns (d: Darm)
    requires ValidWord(p) && p.cond == UNCONDITIONAL && d0.cond == p.cond && Bits2725(p, 0, 0, 0)
    requires d0 == Init(d0.w).(encoding := ArmUncond)
    ensures ReadsUncond(d, p) && Plain(d, p) && d.w == d0.w
  {
    hide EncodeUncond, Digits;
    d := d0.(instr := Setend);
    d := d.(eBit := p.a8 / 2 % 2);
    SetendEncodes(d, p);
  }

  lemma SetendEncodes(d: Darm, p: Word)
    requires ValidWord(p) && Bits2725(p, 0, 0, 0) && d.cond == p.cond && d.instr.Setend? && d.eBit == p.a8 / 2 % 2
    ensures EncodeUncond(d, p) == Digits(p)
  {
    SecondBit(p.a8);
    hide EncodePreload, With24;
  }

  lemma SecondBit(x: int)
    requires Digit(x)
    ensures x / 4 * 4 + x / 2 % 2 * 2 + x % 2 == x
  {
    assert x / 4 == x / 2 / 2;
  }

  lemma UnconditionalIsExact(d: Darm, p: Word)
    requires ValidWord(p) && p.cond == UNCONDITIONAL && Plain(d, p) && ReadsUncond(d, p)
    ensures Correct(d, p)
  {
    hide InRange, ReadsUncond;
  }

  // What the refused words are among those that the checks before the table answer for.

  lemma MultiplyRefused(p: Word)
    requires ValidWord(p) && Bits2725(p, 0, 0, 0) && p.b24 == 0 && Bits74(p, 1, 0, 0, 1)
    ensures Refused(Op(p), Nibble4(p), p.a0) <==> p.b23 == 0 && p.b22 == 1 && p.b20 == 1
    ensures Op(p) < 16
  {
  }

  lemma UnprivilegedRefused(p: Word)
    requires ValidWord(p) && Bits2725(p, 0, 0, 0) && p.b24 == 0 && p.b21 == 1 && p.b7 == 1 && p.b4 == 1
    requires p.b6 == 1 || p.b5 == 1
    ensures Refused(Op(p), Nibble4(p), p.a0) <==> !(p.b6 == 0 || p.b20 == 1)
    ensures Op(p) < 16
  {
  }

  lemma ExtraNotRefused(p: Word)
    requires ValidWord(p) && Bits2725(p, 0, 0, 0) && (p.b24 == 1 || p.b21 == 0) && p.b7 == 1 && p.b4 == 1
    requires p.b6 == 1 || p.b5 == 1
    ensures !Refused(Op(p), Nibble4(p), p.a0) && Op(p) < 32
  {
  }

  lemma SynchronizationRows(p: Word)
    requires ValidWord(p) && Bits2725(p, 0, 0, 0) && p.b24 == 1 && Bits74(p, 1, 0, 0, 1)
    ensures p.b23 == 1 || (p.b21 == 0 && p.b20 == 0) ==> !Refused(Op(p), Nibble4(p), p.a0)
    ensures !(p.b23 == 1 || (p.b21 == 0 && p.b20 == 0)) ==> 17 <= Op(p) <= 19 || 21 <= Op(p) <= 23
    ensures Op(p) < 32 && Nibble4(p) == 9
  {
  }

  lemma SingleNotRefused(p: Word)
    requires ValidWord(p) && p.b27 == 0 && p.b26 == 1 && !(p.b25 == 1 && p.b4 == 1)
    ensures !Refused(Op(p), Nibble4(p), p.a0) && 64 <= Op(p) < 128
  {
    assert Nibble4(p) == 2 * (p.b7 * 4 + p.b6 * 2 + p.b5) + p.b4;
    assert Op(p) >= 96 ==> p.b25 == 1;
  }

  lemma SaturatingNotRefused(p: Word)
    requires ValidWord(p) && Bits2723(p, 0, 0, 0, 1, 0) && p.b20 == 0 && Bits74(p, 0, 1, 0, 1)
    ensures !Refused(Op(p), Nibble4(p), p.a0) && Op(p) < 32
  {
  }

  lemma PackNotRefused(p: Word)
    requires ValidWord(p) && Bits2723(p, 0, 1, 1, 0, 1) && p.b4 == 1 && PackUnpacks(p)
    ensures !Refused(Op(p), Nibble4(p), p.a0) && 64 <= Op(p) < 128
  {
    assert Op(p) == 104 + p.b22 * 4 + p.b21 * 2 + p.b20;
  }

  /** The checks before the table that look at bits 4 and 7. */
  method DisasmExceptions(d0: Darm, p: Word) returns (done: bool, ok: bool, d: Darm)
    requires Conditional(d0, p) && Bits2725(p, 0, 0, 0) && p.b7 == 1 && p.b4 == 1
    ensures done ==> (ok <==> !Refused(Op(p), Nibble4(p), p.a0))
    ensures done && ok ==> Represents(d, p) && Plain(d, p) && d.w == d0.w
    ensures !done ==> d == d0.(instr := Invld, encoding := ArmSync, rn := p.a16) && p.b24 == 1 && Nibble4(p) == 9 &&
                      (17 <= Op(p) <= 19 || 21 <= Op(p) <= 23)
  {
    hide Plain, ReadsMul, ReadsStack1, ReadsStack2, ReadsSync, Refused, Op;
    done := true;
    if p.b24 == 0 && p.b6 == 0 && p.b5 == 0 {
      MultiplyRefused(p);
      ok, d := Multiply(d0, p);
    } else if p.b24 == 0 && (p.b6 == 1 || p.b5 == 1) && p.b21 == 1 {
      UnprivilegedRefused(p);
      ok, d := Unprivileged(d0, p);
    } else if (p.b6 == 1 || p.b5 == 1) && !(p.b24 == 0 && p.b21 == 1) {
      ExtraNotRefused(p);
      ok, d := ExtraTransfer(d0, p);
    } else {
      SynchronizationRows(p);
      ok, d := Synchronization(d0, p);
      done := ok;
    }
  }

  lemma LeftAfter(p: Word)
    requires ValidWord(p)
    requires Bits2725(p, 0, 0, 0) && p.b7 == 1 && p.b4 == 1 ==>
               Nibble4(p) == 9 && (17 <= Op(p) <= 19 || 21 <= Op(p) <= 23)
    requires p.b27 == 0 && p.b26 == 1 ==> p.b25 == 1 && p.b4 == 1
    requires !(Bits2723(p, 0, 0, 0, 1, 0) && p.b20 == 0 && Bits74(p, 0, 1, 0, 1))
    requires Bits2723(p, 0, 1, 1, 0, 1) && p.b4 == 1 ==> !PackUnpacks(p)
    ensures LeftForTable(p)
  {
    assert Op(p) < 32 ==> Bits2725(p, 0, 0, 0);
    assert 64 <= Op(p) < 128 ==> p.b27 == 0 && p.b26 == 1;
    assert 16 <= Op(p) < 24 ==> Bits2723(p, 0, 0, 0, 1, 0);
    assert Nibble4(p) == 5 ==> Bits74(p, 0, 1, 0, 1);
    assert 104 <= Op(p) < 112 ==> Bits2723(p, 0, 1, 1, 0, 1);
  }

  /** armv7_disas_cond */
  method DisasmConditional(d0: Darm, p: Word) returns (ok: bool, d: Darm)
    requires Conditional(d0, p)
    ensures ok <==> !Undecodable(p)
    ensures ok ==> Correct(d, p) && d.w == d0.w
  {
    hide Plain, Refused, Represents, Sound, BranchExact, PackUnpacks, Op, Nibble4, LeftForTable, ReadsStack0, ReadsSat,
         ReadsPusr;
    d := d0;
    if Bits2725(p, 0, 0, 0) && p.b7 == 1 && p.b4 == 1 {
      var done;
      done, ok, d := DisasmExceptions(d0, p);
      if done {
        if ok {
          LowOp(p);
          NotABranch(d, p);
        }
        return;
      }
    } else if p.b27 == 0 && p.b26 == 1 && !(p.b25 == 1 && p.b4 == 1) {
      d := SingleTransfer(d0, p);
      SingleNotRefused(p);
      ByStack0(d, p);
      return true, d;
    }
    if Bits2723(p, 0, 0, 0, 1, 0) && p.b20 == 0 && Bits74(p, 0, 1, 0, 1) {
      d := Saturating(d0, p);
      SaturatingNotRefused(p);
      BySat(d, p);
      return true, d;
    }
    if Bits2723(p, 0, 1, 1, 0, 1) && p.b4 == 1 {
      ok, d := PackUnpack(d0, p);
      if ok {
        PackNotRefused(p);
        ByPusr(d, p);
        return true, d;
      }
    }
    LeftAfter(p);
    ok, d := LookUp(d, p);
  }

  lemma LowOp(p: Word)
    requires ValidWord(p) && Bits2725(p, 0, 0, 0)
    ensures Op(p) < 32
  {
  }

  lemma ByStack0(d: Darm, p: Word)
    requires p.cond != UNCONDITIONAL
    requires ValidWord(p) && ReadsStack0(d, p) && Plain(d, p) && !(160 <= Op(p) < 192)
    ensures Correct(d, p)
  {
    hide ReadsStack0, Plain, Sound, BranchExact, Op;
    NotABranch(d, p);
  }

  lemma BySat(d: Darm, p: Word)
    requires p.cond != UNCONDITIONAL
    requires ValidWord(p) && ReadsSat(d, p) && Plain(d, p) && !(160 <= Op(p) < 192)
    ensures Correct(d, p)
  {
    hide ReadsSat, Plain, Sound, BranchExact, Op;
    NotABranch(d, p);
  }

  lemma ByPusr(d: Darm, p: Word)
    requires p.cond != UNCONDITIONAL
    requires ValidWord(p) && ReadsPusr(d, p) && Plain(d, p) && !(160 <= Op(p) < 192)
    ensures Correct(d, p)
  {
    hide ReadsPusr, Plain, Sound, BranchExact, Op;
    NotABranch(d, p);
  }

  /** Blanking the type of a shift by nothing changes neither what d stands for nor which label it has. */
  lemma NoShift(d: Darm, p: Word)
    requires ValidWord(p) && Correct(d, p) && d.shiftType == 0 && d.rs == NO_REG && d.shift == 0
    ensures Correct(d.(shiftType := NO_SHIFT), p)
  {
    var e := d.(shiftType := NO_SHIFT);
    hide Represents;
    SameMeaning(d, e, p);
  }

  // Every encoding reads the shift type through ShiftType, or not at all.

  predicate Unshifted(d: Darm, e: Darm) {
    e == d.(shiftType := NO_SHIFT) && d.shiftType == 0 && d.rs == NO_REG && d.shift == 0
  }

  lemma SamePreload(d: Darm, e: Darm, p: Word)
    requires ValidWord(p) && Unshifted(d, e)
    ensures EncodePreload(e, p) == EncodePreload(d, p)
  {
  }

  lemma SameUnconditional(d: Darm, e: Darm, p: Word)
    requires ValidWord(p) && Unshifted(d, e)
    ensures ReadsUncond(d, p) ==> ReadsUncond(e, p)
  {
    SamePreload(d, e, p);
    hide EncodePreload, With24;
  }

  lemma SameTransfers(d: Darm, e: Darm, p: Word)
    requires ValidWord(p) && Unshifted(d, e)
    ensures ReadsMul(d, p) ==> ReadsMul(e, p)
    ensures ReadsStack1(d, p) ==> ReadsStack1(e, p)
    ensures ReadsStack2(d, p) ==> ReadsStack2(e, p)
    ensures ReadsSync(d, p) ==> ReadsSync(e, p)
  {
    hide Digits, With24, With16, With12, ExpandImm, Low12;
  }

  lemma SameSingle(d: Darm, e: Darm, p: Word)
    requires ValidWord(p) && Unshifted(d, e)
    ensures ReadsStack0(d, p) ==> ReadsStack0(e, p)
    ensures ReadsSat(d, p) ==> ReadsSat(e, p)
    ensures ReadsPusr(d, p) ==> ReadsPusr(e, p)
  {
    hide Digits, With24, With16, With12, ExpandImm, Low12;
  }

  lemma SameData(d: Darm, e: Darm, p: Word)
    requires ValidWord(p) && Unshifted(d, e)
    ensures ReadsArithShift(d, p) ==> ReadsArithShift(e, p)
    ensures ReadsArithImm(d, p) ==> ReadsArithImm(e, p)
    ensures ReadsCmpImm(d, p) ==> ReadsCmpImm(e, p)
    ensures ReadsCmpOp(d, p) ==> ReadsCmpOp(e, p)
  {
    hide Digits, With24, With16, With12, ExpandImm, Low12;
  }

  lemma SameFields(d: Darm, e: Darm, p: Word)
    requires ValidWord(p) && Unshifted(d, e)
    ensures ReadsBits(d, p) ==> ReadsBits(e, p)
  {
    hide Digits, With24, With16, With12, ExpandImm, Low12;
  }

  lemma SameBranches(d: Darm, e: Darm, p: Word)
    requires ValidWord(p) && Unshifted(d, e)
    ensures ReadsBranch(d, p) ==> ReadsBranch(e, p)
    ensures ReadsBranchMisc(d, p) ==> ReadsBranchMisc(e, p)
    ensures ReadsMovImm(d, p) ==> ReadsMovImm(e, p)
  {
    hide Digits, With24, With16, With12, ExpandImm, Low12;
  }

  lemma SameBlocks(d: Darm, e: Darm, p: Word)
    requires ValidWord(p) && Unshifted(d, e)
    ensures ReadsOpless(d, p) ==> ReadsOpless(e, p)
    ensures ReadsDstSrc(d, p) ==> ReadsDstSrc(e, p)
    ensures ReadsLdstregs(d, p) ==> ReadsLdstregs(e, p)
    ensures ReadsBitrev(d, p) ==> ReadsBitrev(e, p)
  {
    hide Digits, With24, With16, With12, ExpandImm, Low12;
  }

  lemma SameMedia(d: Darm, e: Darm, p: Word)
    requires ValidWord(p) && Unshifted(d, e)
    ensures ReadsMisc(d, p) ==> ReadsMisc(e, p)
    ensures ReadsSm(d, p) ==> ReadsSm(e, p)
    ensures ReadsPas(d, p) ==> ReadsPas(e, p)
  {
    hide Digits, With24, With16, With12, ExpandImm, Low12;
  }

  lemma SameOthers(d: Darm, e: Darm, p: Word)
    requires ValidWord(p) && Unshifted(d, e)
    ensures ReadsMvcr(d, p) ==> ReadsMvcr(e, p)
    ensures ReadsUdf(d, p) ==> ReadsUdf(e, p)
  {
    hide Digits, With24, With16, With12, ExpandImm, Low12;
  }

  lemma SameMeaning(d: Darm, e: Darm, p: Word)
    requires ValidWord(p) && Represents(d, p) && Unshifted(d, e)
    ensures Represents(e, p)
  {
    hide ReadsUncond, ReadsMul, ReadsStack1, ReadsStack2, ReadsSync, ReadsStack0, ReadsSat, ReadsPusr,
         ReadsArithShift, ReadsArithImm, ReadsBits, ReadsBranch, ReadsBranchMisc, ReadsMovImm, ReadsCmpOp, ReadsCmpImm,
         ReadsOpless, ReadsDstSrc, ReadsLdstregs, ReadsBitrev, ReadsMisc, ReadsSm, ReadsPas, ReadsMvcr, ReadsUdf;
    SameUnconditional(d, e, p);
    SameTransfers(d, e, p);
    SameSingle(d, e, p);
    SameData(d, e, p);
    SameFields(d, e, p);
    SameBranches(d, e, p);
    SameBlocks(d, e, p);
    SameMedia(d, e, p);
    SameOthers(d, e, p);
  }

  /** darm_armv7_disasm */
  method Disasm(w: u32) returns (ok: bool, d: Darm)
    ensures ok <==> !Undecodable(WordAt(w))
    ensures ok ==> ValidWord(WordAt(w)) && Correct(d, WordAt(w)) && d.w == w
    ensures ok ==> Settled(d)
  {
    hide Correct, Undecodable;
    var p := WordAt(w);
    WholeOfWord(w);
    d := Init(w);
    if d.cond == UNCONDITIONAL {
      ok, d := DisasmUnconditional(d, p);
    } else {
      ok, d := DisasmConditional(d, p);
    }
    if !ok {
      return;
    }
    if d.shiftType == 0 && d.rs == NO_REG && d.shift == 0 {
      NoShift(d, p);
      d := d.(shiftType := NO_SHIFT);
    }
  }

  /** Encodings whose instructions read every bit of the word. */
  predicate ReadsAll(d: Darm) {
    d.encoding.ArmStack0? || d.encoding.ArmArithShift? || d.encoding.ArmBrnchsc? || d.encoding.ArmLdstregs? ||
    d.encoding.ArmMvcr?
  }

  function FullEncode(d: Darm): Parts {
    if d.encoding.ArmStack0? then EncodeStack0(d)
    else if d.encoding.ArmArithShift? then EncodeArithShift(d)
    else if d.encoding.ArmBrnchsc? then EncodeBranch(d)
    else if d.encoding.ArmLdstregs? then EncodeLdstregs(d)
    else EncodeMvcr(d)
  }

  lemma FullyEncoded(d: Darm, p: Word)
    requires ValidWord(p) && Represents(d, p) && ReadsAll(d)
    ensures Digits(p) == FullEncode(d)
  {
    hide EncodeMul, EncodeHalf, EncodeSync, EncodeStack0, EncodeSat, EncodePusr, EncodeArithShift, EncodeArithImm,
         EncodeBits, EncodeBranch, EncodeBranchMisc, EncodeMovImm, EncodeCmpOp, EncodeCmpImm, EncodeOpless, EncodeDstSrc,
         EncodeLdstregs, EncodeBitrev, EncodeMisc, EncodeSm, EncodePas, EncodeMvcr, EncodeUdf, EncodeUncond, Digits,
         ExpandImm, Low12, ShiftType, ShiftCode, EncodePreload;
  }

  lemma WholeByDigits(p: Word, q: Word)
    requires Digits(p) == Digits(q)
    ensures Whole(p) == Whole(q)
  {
    hide Op, Nibble4;
  }

  /** Two words are never taken for the same instruction of such an encoding. */
  lemma Distinguishes(d: Darm, v: u32, w: u32)
    requires ValidWord(WordAt(v)) && Correct(d, WordAt(v)) && ValidWord(WordAt(w)) && Correct(d, WordAt(w)) && ReadsAll(d)
    ensures v == w
  {
    hide WordAt, Represents, Sound, BranchExact, ReadsAll, FullEncode, Digits, Whole;
    WholeOfWord(v);
    WholeOfWord(w);
    FullyEncoded(d, WordAt(v));
    FullyEncoded(d, WordAt(w));
    WholeByDigits(WordAt(v), WordAt(w));
  }
}
