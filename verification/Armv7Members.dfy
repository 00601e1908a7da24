/**
 * What each member of a decoded instruction is in terms of the bits of its word, and which label
 * each word of an encoding has: the predicates of Armv7Encode, read forwards.
 */
module Armv7Members {
  import opened Words
  import opened Armv7Tables
  import opened Armv7
  import opened Armv7Encode
  import opened Armv7Forms

  // The codes tell the labels apart.

  lemma ComputesLabels(i: Instr, j: Instr)
    requires Computes(i) && Computes(j) && ArithCode(i) == ArithCode(j)
    ensures i == j
  {
  }

  lemma ComparesLabels(i: Instr, j: Instr)
    requires Compares(i) && Compares(j) && ArithCode(i) == ArithCode(j)
    ensures i == j
  {
  }

  lemma MulLabels(i: Instr, j: Instr)
    requires MulCode(i) == MulCode(j) >= 0
    ensures i == j
  {
    hide MulCode;
    MulCodes(i);
    MulCodes(j);
    SomeMul(i);
    SomeMul(j);
  }

  lemma MulCodes(i: Instr)
    ensures var c := MulCode(i);
            && (i.Mul? ==> c == 0) && (i.Mla? ==> c == 1) && (i.Umaal? ==> c == 2) && (i.Mls? ==> c == 3)
            && (i.Umull? ==> c == 4) && (i.Umlal? ==> c == 5) && (i.Smull? ==> c == 6) && (i.Smlal? ==> c == 7)
  {
  }

  lemma SomeMul(i: Instr)
    requires MulCode(i) >= 0
    ensures i.Mul? || i.Mla? || i.Umaal? || i.Mls? || i.Umull? || i.Umlal? || i.Smull? || i.Smlal?
  {
  }

  lemma SyncLabels(i: Instr, j: Instr)
    requires SyncCode(i) == SyncCode(j) >= 0
    ensures i == j
  {
    hide SyncCode;
    SyncCodes(i);
    SyncCodes(j);
    SomeSync(i);
    SomeSync(j);
  }

  lemma SyncCodes(i: Instr)
    ensures var c := SyncCode(i);
            && (i.Swp? ==> c == 0) && (i.Swpb? ==> c == 4) && (i.Strex? ==> c == 8) && (i.Ldrex? ==> c == 9)
            && (i.Strexd? ==> c == 10) && (i.Ldrexd? ==> c == 11) && (i.Strexb? ==> c == 12)
            && (i.Ldrexb? ==> c == 13) && (i.Strexh? ==> c == 14) && (i.Ldrexh? ==> c == 15)
  {
  }

  lemma SomeSync(i: Instr)
    requires SyncCode(i) >= 0
    ensures i.Swp? || i.Swpb? || i.Strex? || i.Ldrex? || i.Strexd? || i.Ldrexd? || i.Strexb? || i.Ldrexb? ||
            i.Strexh? || i.Ldrexh?
  {
  }

  lemma ParallelLabels(i: Instr, j: Instr)
    requires ParallelHigh(i) == ParallelHigh(j) >= 0 && ParallelLow(i) == ParallelLow(j)
    ensures i == j
  {
    ParallelGroups(i);
    hide ParallelHigh, ParallelLow;
    if ParallelHigh(i) == 1 {
      SignedLabels(i, j);
    } else if ParallelHigh(i) == 2 {
      SaturatingLabels(i, j);
    } else if ParallelHigh(i) == 3 {
      SignedHalvingLabels(i, j);
    } else if ParallelHigh(i) == 5 {
      UnsignedLabels(i, j);
    } else if ParallelHigh(i) == 6 {
      UnsignedSaturatingLabels(i, j);
    } else {
      UnsignedHalvingLabels(i, j);
    }
  }

  lemma ParallelGroups(i: Instr)
    requires ParallelHigh(i) >= 0
    ensures var c := ParallelHigh(i); c == 1 || c == 2 || c == 3 || c == 5 || c == 6 || c == 7
  {
  }

  lemma SignedLabels(i: Instr, j: Instr)
    requires ParallelHigh(i) == 1 && ParallelHigh(j) == 1 && ParallelLow(i) == ParallelLow(j)
    ensures i == j
  {
  }

  lemma SaturatingLabels(i: Instr, j: Instr)
    requires ParallelHigh(i) == 2 && ParallelHigh(j) == 2 && ParallelLow(i) == ParallelLow(j)
    ensures i == j
  {
  }

  lemma SignedHalvingLabels(i: Instr, j: Instr)
    requires ParallelHigh(i) == 3 && ParallelHigh(j) == 3 && ParallelLow(i) == ParallelLow(j)
    ensures i == j
  {
  }

  lemma UnsignedLabels(i: Instr, j: Instr)
    requires ParallelHigh(i) == 5 && ParallelHigh(j) == 5 && ParallelLow(i) == ParallelLow(j)
    ensures i == j
  {
  }

  lemma UnsignedSaturatingLabels(i: Instr, j: Instr)
    requires ParallelHigh(i) == 6 && ParallelHigh(j) == 6 && ParallelLow(i) == ParallelLow(j)
    ensures i == j
  {
  }

  lemma UnsignedHalvingLabels(i: Instr, j: Instr)
    requires ParallelHigh(i) == 7 && ParallelHigh(j) == 7 && ParallelLow(i) == ParallelLow(j)
    ensures i == j
  {
  }

  lemma ExtendLabels(i: Instr, j: Instr)
    requires ExtendCode(i) == ExtendCode(j) >= 0 && ExtendAdds(i) == ExtendAdds(j)
    ensures i == j
  {
    hide ExtendCode, ExtendAdds;
    if ExtendAdds(i) {
      AddingLabels(i, j);
    } else {
      PlainLabels(i, j);
    }
  }

  lemma AddingLabels(i: Instr, j: Instr)
    requires ExtendAdds(i) && ExtendAdds(j) && ExtendCode(i) == ExtendCode(j)
    ensures i == j
  {
    hide ExtendCode, ExtendAdds;
    AddingCodes(i);
    AddingCodes(j);
  }

  lemma PlainLabels(i: Instr, j: Instr)
    requires !ExtendAdds(i) && !ExtendAdds(j) && ExtendCode(i) == ExtendCode(j) >= 0
    ensures i == j
  {
    hide ExtendCode, ExtendAdds;
    PlainCodes(i);
    PlainCodes(j);
  }

  lemma AddingCodes(i: Instr)
    requires ExtendAdds(i)
    ensures i.Sxtab16? || i.Sxtab? || i.Sxtah? || i.Uxtab16? || i.Uxtab? || i.Uxtah?
    ensures var c := ExtendCode(i);
            && (i.Sxtab16? ==> c == 0) && (i.Sxtab? ==> c == 2) && (i.Sxtah? ==> c == 3)
            && (i.Uxtab16? ==> c == 4) && (i.Uxtab? ==> c == 6) && (i.Uxtah? ==> c == 7)
  {
  }

  lemma PlainCodes(i: Instr)
    requires !ExtendAdds(i) && ExtendCode(i) >= 0
    ensures i.Sxtb16? || i.Sxtb? || i.Sxth? || i.Uxtb16? || i.Uxtb? || i.Uxth?
    ensures var c := ExtendCode(i);
            && (i.Sxtb16? ==> c == 0) && (i.Sxtb? ==> c == 2) && (i.Sxth? ==> c == 3)
            && (i.Uxtb16? ==> c == 4) && (i.Uxtb? ==> c == 6) && (i.Uxth? ==> c == 7)
  {
  }

  // What the members are, in terms of the bits of the word.

  /** Sums of bits determine the bits. */
  lemma OpBits(p: Word, x7: int, x6: int, x5: int, x4: int, x3: int, x2: int, x1: int, x0: int)
    requires ValidWord(p) && Bit(x7) && Bit(x6) && Bit(x5) && Bit(x4) && Bit(x3) && Bit(x2) && Bit(x1) && Bit(x0)
    requires Op(p) == x7 * 128 + x6 * 64 + x5 * 32 + x4 * 16 + x3 * 8 + x2 * 4 + x1 * 2 + x0
    ensures p.b27 == x7 && p.b26 == x6 && p.b25 == x5 && p.b24 == x4 && p.b23 == x3 && p.b22 == x2 && p.b21 == x1
    ensures p.b20 == x0
  {
    SameDigit(p.b27 * 8 + p.b26 * 4 + p.b25 * 2 + p.b24, x7 * 8 + x6 * 4 + x5 * 2 + x4,
              p.b23 * 8 + p.b22 * 4 + p.b21 * 2 + p.b20, x3 * 8 + x2 * 4 + x1 * 2 + x0);
    hide Op;
    SameBits(p.b27, p.b26, p.b25, p.b24, x7, x6, x5, x4);
    SameBits(p.b23, p.b22, p.b21, p.b20, x3, x2, x1, x0);
  }

  lemma SameDigit(h: int, k: int, l: int, m: int)
    requires Digit(l) && Digit(m) && 16 * h + l == 16 * k + m
    ensures h == k && l == m
  {
  }

  lemma SameBits(a3: int, a2: int, a1: int, a0: int, x3: int, x2: int, x1: int, x0: int)
    requires Bit(a3) && Bit(a2) && Bit(a1) && Bit(a0) && Bit(x3) && Bit(x2) && Bit(x1) && Bit(x0)
    requires a3 * 8 + a2 * 4 + a1 * 2 + a0 == x3 * 8 + x2 * 4 + x1 * 2 + x0
    ensures a3 == x3 && a2 == x2 && a1 == x1 && a0 == x0
  {
  }

  lemma NibbleBits(p: Word, x3: int, x2: int, x1: int, x0: int)
    requires ValidWord(p) && Bit(x3) && Bit(x2) && Bit(x1) && Bit(x0)
    requires Nibble4(p) == x3 * 8 + x2 * 4 + x1 * 2 + x0
    ensures p.b7 == x3 && p.b6 == x2 && p.b5 == x1 && p.b4 == x0
  {
  }

  lemma HalfFields(d: Darm, wBit: int, p: Word)
    requires ValidWord(p) && InRange(d) && EncodeHalf(d, wBit, p) == Digits(p)
    requires Bit(d.pBit) && Bit(d.uBit) && Bit(wBit) && (d.iBit == 1 || d.iBit == NO_BIT)
    ensures HalfCode(d.instr) == p.b6 * 4 + p.b5 * 2 + p.b20
    ensures d.pBit == p.b24 && d.uBit == p.b23 && wBit == p.b21 && (d.iBit == 1 <==> p.b22 == 1)
    ensures d.rn == p.a16 && d.rt == p.a12
    ensures if d.iBit == 1 then d.imm == p.a8 * 16 + p.a0 else d.rm == p.a0
  {
    var h := HalfCode(d.instr);
    HalfCodes(d.instr);
    hide HalfCode, Op, Nibble4;
    if h >= 0 {
      NibbleBits(p, 1, h / 4, h / 2 % 2, 1);
      OpBits(p, 0, 0, 0, d.pBit, d.uBit, if d.iBit == 1 then 1 else 0, wBit, h % 2);
    }
  }

  lemma Join12(p: Word, f: int)
    requires ValidWord(p) && 0 <= f && f / 0x100 == p.a8 && f / 16 % 16 == Nibble4(p) && f % 16 == p.a0
    ensures f == Low12(p)
  {
    hide Nibble4;
    assert f / 0x100 == f / 16 / 16;
  }

  lemma Join16(p: Word, f: int)
    requires ValidWord(p) && 0 <= f && f / 0x1000 == p.a12 && f / 0x100 % 16 == p.a8 && f / 16 % 16 == Nibble4(p)
    requires f % 16 == p.a0
    ensures f == Low16(p)
  {
    hide Nibble4;
    assert f / 0x100 == f / 16 / 16 && f / 0x1000 == f / 0x100 / 16;
  }

  lemma Join24(p: Word, high: int, f: int)
    requires ValidWord(p) && 0 <= f && high == 15 && With24(p.cond, high, f) == Digits(p)
    ensures f == Low24(p)
  {
    var y := f / 0x10_0000;
    assert Op(p) == 16 * (p.b27 * 8 + p.b26 * 4 + p.b25 * 2 + p.b24) + (p.b23 * 8 + p.b22 * 4 + p.b21 * 2 + p.b20);
    hide Op, Nibble4;
    SameDigit(p.b27 * 8 + p.b26 * 4 + p.b25 * 2 + p.b24, high, p.b23 * 8 + p.b22 * 4 + p.b21 * 2 + p.b20, y);
    assert f / 0x100 == f / 16 / 16 && f / 0x1000 == f / 0x100 / 16 && f / 0x1_0000 == f / 0x1000 / 16;
    assert y == f / 0x1_0000 / 16;
  }

  /** A shift by an immediate or by Rs, read back from bits 4 to 11. */
  lemma ShiftFields(d: Darm, p: Word)
    requires ValidWord(p) && InRange(d) && ShiftHigh(d) == p.a8 && ShiftLow(d) == Nibble4(p)
    ensures ShiftType(d) == p.b6 * 2 + p.b5 && (d.rs != NO_REG <==> p.b4 == 1)
    ensures if p.b4 == 1 then d.rs == p.a8 && p.b7 == 0 else d.shift == p.a8 * 2 + p.b7
  {
    var t := ShiftType(d);
    assert 0 <= t < 4 && t == t / 2 * 2 + t % 2;
    hide ShiftType, Nibble4;
    if d.rs != NO_REG {
      NibbleBits(p, 0, t / 2, t % 2, 1);
    } else {
      NibbleBits(p, d.shift % 2, t / 2, t % 2, 0);
    }
  }

  lemma TransferCodes(i: Instr)
    requires TransferCode(i) >= 0
    ensures var c := TransferCode(i);
            (c == 0 || c == 1 || c == 4 || c == 5) && c == c / 4 * 4 + c % 2 && Bit(c / 4) && Bit(c % 2)
  {
  }

  lemma Stack0Fields(d: Darm, p: Word)
    requires ValidWord(p) && InRange(d) && EncodeStack0(d) == Digits(p)
    requires Bit(d.pBit) && Bit(d.uBit) && Bit(d.wBit) && (d.iBit == 1 || d.iBit == NO_BIT) && d.rs == NO_REG
    ensures TransferCode(d.instr) == p.b22 * 4 + p.b20
    ensures d.pBit == p.b24 && d.uBit == p.b23 && d.wBit == p.b21 && (d.iBit == 1 <==> p.b25 == 0)
    ensures d.rn == p.a16 && d.rt == p.a12
    ensures if d.iBit == 1 then d.imm == Low12(p)
            else d.rm == p.a0 && ShiftType(d) == p.b6 * 2 + p.b5 && d.shift == p.a8 * 2 + p.b7
  {
    var c := TransferCode(d.instr);
    hide TransferCode, Op, Nibble4, ShiftType, ShiftHigh, ShiftLow, Low12;
    if c >= 0 {
      TransferCodes(d.instr);
      OpBits(p, 0, 1, if d.iBit == 1 then 0 else 1, d.pBit, d.uBit, c / 4, d.wBit, c % 2);
      if d.iBit == 1 {
        Join12(p, d.imm);
      } else {
        ShiftFields(d, p);
      }
    }
  }

  lemma TransferList(i: Instr)
    requires TransferCode(i) >= 0
    ensures TransferCode(i) == 0 ==> i.Str? || i.Strt? || i.Push?
    ensures TransferCode(i) == 1 ==> i.Ldr? || i.Ldrt? || i.Pop?
    ensures TransferCode(i) == 4 ==> i.Strb? || i.Strbt?
    ensures TransferCode(i) == 5 ==> i.Ldrb? || i.Ldrbt?
  {
  }

  lemma Stack0Labels(d: Darm, e: Darm, p: Word)
    requires ReadsStack0(d, p) && ReadsStack0(e, p) && TransferCode(d.instr) == TransferCode(e.instr) >= 0
    requires d.rn == e.rn && d.pBit == e.pBit && d.uBit == e.uBit && d.wBit == e.wBit && d.imm == e.imm
    ensures d.instr == e.instr
  {
    hide TransferCode, FormStack0, EncodeStack0, Digits;
    TransferCodes(d.instr);
    TransferList(d.instr);
    TransferList(e.instr);
  }

  lemma HalfCodes(i: Instr)
    ensures var h := HalfCode(i);
            h == -1 || (2 <= h < 8 && h == h / 4 * 4 + h / 2 % 2 * 2 + h % 2 && h / 2 == h / 4 * 2 + h / 2 % 2)
  {
    HalfRange(i);
    hide HalfCode;
  }

  lemma HalfLabels(i: Instr, j: Instr)
    requires HalfCode(i) == HalfCode(j) >= 0
    requires (i.Strht? || i.Ldrht? || i.Ldrsbt? || i.Ldrsht?) <==> (j.Strht? || j.Ldrht? || j.Ldrsbt? || j.Ldrsht?)
    ensures i == j
  {
    hide HalfCode;
    HalfList(i);
    HalfList(j);
  }

  lemma HalfList(i: Instr)
    requires HalfCode(i) >= 0
    ensures var c := HalfCode(i);
            && (c == 2 ==> i.Strh? || i.Strht?) && (c == 3 ==> i.Ldrh? || i.Ldrht?) && (c == 4 ==> i.Ldrd?)
            && (c == 5 ==> i.Ldrsb? || i.Ldrsbt?) && (c == 6 ==> i.Strd?) && (c == 7 ==> i.Ldrsh? || i.Ldrsht?)
            && (c == 2 || c == 3 || c == 4 || c == 5 || c == 6 || c == 7)
  {
  }

  lemma SatLabels(i: Instr, j: Instr)
    requires SatCode(i) == SatCode(j) >= 0
    ensures i == j
  {
  }

  lemma HintLabels(i: Instr, j: Instr)
    requires HintCode(i) == HintCode(j) >= 0
    ensures i == j
  {
  }

  /** Which of the extensions and saturations a word is. */
  lemma PusrLabels(d: Darm, p: Word)
    requires ValidWord(p) && InRange(d) && ReadsPusr(d, p)
    ensures d.instr.Ssat? <==> p.b5 == 0 && Op(p) < 108
    ensures d.instr.Usat? <==> p.b5 == 0 && Op(p) >= 108
    ensures d.instr.Ssat16? <==> Nibble4(p) == 3 && Op(p) < 108
    ensures d.instr.Usat16? <==> Nibble4(p) == 3 && Op(p) >= 108
    ensures ExtendCode(d.instr) >= 0 <==> Nibble4(p) == 7
    ensures p.b5 == 0 || Nibble4(p) == 3 || Nibble4(p) == 7
  {
    hide ExtendCode, ExtendAdds, Op;
    NoExtend(d.instr);
    if d.instr.Ssat? || d.instr.Usat? {
      var t := ShiftType(d);
      assert 0 <= t < 4;
      NibbleBits(p, d.shift % 2, t / 2, 0, 1);
    }
  }

  lemma NoExtend(i: Instr)
    ensures i.Ssat? || i.Usat? || i.Ssat16? || i.Usat16? ==> ExtendCode(i) < 0
    ensures ExtendCode(i) < 8
  {
  }

  lemma SaturateFields(d: Darm, p: Word)
    requires ValidWord(p) && InRange(d) && ReadsPusr(d, p) && (d.instr.Ssat? || d.instr.Usat?)
    ensures d.rd == p.a12 && d.rn == p.a0 && ShiftType(d) == p.b6 * 2 + p.b5 && d.shift == p.a8 * 2 + p.b7
    ensures d.imm == if d.instr.Ssat? then (Op(p) - 106) * 16 + p.a16 + 1 else (Op(p) - 110) * 16 + p.a16
  {
    hide ExtendCode, ExtendAdds, Op;
    var t := ShiftType(d);
    assert 0 <= t < 4;
    NibbleBits(p, d.shift % 2, t / 2, 0, 1);
  }

  lemma SaturateHalvesFields(d: Darm, p: Word)
    requires ValidWord(p) && InRange(d) && ReadsPusr(d, p) && (d.instr.Ssat16? || d.instr.Usat16?)
    ensures d.rd == p.a12 && d.rn == p.a0 && d.imm == p.a16 + if d.instr.Ssat16? then 1 else 0
  {
    hide ExtendCode, ExtendAdds, Op, Nibble4;
  }

  lemma ExtendFields(d: Darm, p: Word)
    requires ValidWord(p) && InRange(d) && ReadsPusr(d, p) && ExtendCode(d.instr) >= 0
    ensures d.rd == p.a12 && d.rm == p.a0 && d.rotate == p.a8 / 4 * 8 && ExtendCode(d.instr) == Op(p) - 104
    ensures (ExtendAdds(d.instr) <==> p.a16 != 15) && d.rn == if p.a16 != 15 then p.a16 else NO_REG
  {
    hide ExtendCode, ExtendAdds, Op, Nibble4;
    NoExtend(d.instr);
  }

  // The bit fields.

  lemma FieldKind(d: Darm, p: Word)
    requires ValidWord(p) && InRange(d) && ReadsBits(d, p)
    ensures d.instr.Sbfx? <==> Op(p) < 124
    ensures d.instr.Ubfx? <==> Op(p) == 126
    ensures d.instr.Bfc? <==> 124 <= Op(p) < 126 && p.a0 == 15
    ensures d.instr.Bfi? <==> 124 <= Op(p) < 126 && p.a0 != 15
    ensures d.rd == p.a12 && d.lsb == p.a8 * 2 + p.b7 && (d.rn == if d.instr.Bfc? then NO_REG else p.a0)
  {
    hide Op;
    NibbleBits(p, d.lsb % 2, p.b6, p.b5, 1);
  }

  lemma FieldSize(d: Darm, p: Word)
    requires ValidWord(p) && InRange(d) && ReadsBits(d, p)
    ensures d.instr.Sbfx? ==> d.width == (Op(p) - 122) * 16 + p.a16 + 1
    ensures d.instr.Ubfx? ==> d.width == p.a16 + 1
    ensures d.instr.Bfi? || d.instr.Bfc? ==> (d.width + d.lsb - 1) % 0x1_0000_0000 == (Op(p) - 124) * 16 + p.a16
  {
    hide Op, Nibble4, FormBits;
  }

  /** adr is the addition or subtraction of pc that leaves the flags alone. */
  lemma ArithImmFields(d: Darm, p: Word)
    requires ValidWord(p) && InRange(d) && ReadsArithImm(d, p)
    ensures d.instr.Adr? <==> p.a16 == PC && (Op(p) == 40 || Op(p) == 36)
    ensures d.instr.Adr? ==> d.uBit == if Op(p) == 40 then 1 else 0
    ensures !d.instr.Adr? ==> Computes(d.instr) && Op(p) == 32 + ArithCode(d.instr) * 2 + d.sBit && d.rn == p.a16
    ensures d.rd == p.a12
  {
    hide FormArithImm, Op, Low12, ExpandImm, Nibble4;
    assert ArithCode(Add) == 4 && ArithCode(Sub) == 2;
    if !d.instr.Adr? {
      AddOrSub(d.instr);
    }
    hide ArithCode, Computes;
  }

  lemma AddOrSub(i: Instr)
    requires Computes(i)
    ensures (i.Add? <==> ArithCode(i) == 4) && (i.Sub? <==> ArithCode(i) == 2)
  {
  }

  lemma BranchKind(d: Darm, p: Word)
    requires ValidWord(p) && ReadsBranch(d, p)
    ensures d.instr.B? || d.instr.Bl? || d.instr.Svc?
  {
    hide With24, Digits;
  }

  lemma SvcField(d: Darm, p: Word)
    requires ValidWord(p) && InRange(d) && ReadsBranch(d, p) && d.instr.Svc?
    ensures d.imm == Low24(p)
  {
    hide Nibble4, Op, FormBranch, Low24;
    Join24(p, 15, d.imm);
  }

  lemma BranchMiscKind(d: Darm, p: Word)
    requires ValidWord(p) && InRange(d) && ReadsBranchMisc(d, p)
    ensures d.instr.Bkpt? <==> Nibble4(p) == 7
    ensures d.instr.Msr? <==> Nibble4(p) == 0
    ensures d.instr.Bx? <==> Nibble4(p) == 1
    ensures d.instr.Bxj? <==> Nibble4(p) == 2
    ensures d.instr.Blx? <==> Nibble4(p) == 3
    ensures d.instr.Bkpt? || d.instr.Msr? || d.instr.Bx? || d.instr.Bxj? || d.instr.Blx?
    ensures d.instr.Bkpt? ==> d.imm == p.a16 * 0x1000 + p.a12 * 0x100 + p.a8 * 16 + p.a0
    ensures d.instr.Msr? ==> d.imm == p.a16 / 4 && d.rn == p.a0
    ensures d.instr.Bx? || d.instr.Bxj? || d.instr.Blx? ==> d.rm == p.a0
  {
    hide FormBranchMisc, Nibble4, Op;
    if d.instr.Bkpt? {
      var f := d.imm;
      assert f / 0x100 == f / 16 / 16 && f / 0x1000 == f / 0x100 / 16;
    }
  }

  lemma MovImmFields(d: Darm, p: Word)
    requires ValidWord(p) && InRange(d) && ReadsMovImm(d, p)
    ensures d.instr.Movw? <==> Op(p) == 48
    ensures d.instr.Movt? <==> Op(p) == 52
    ensures d.instr.Mov? <==> 58 <= Op(p) < 60
    ensures d.instr.Mvn? <==> 62 <= Op(p) < 64
    ensures d.instr.Movw? || d.instr.Movt? || d.instr.Mov? || d.instr.Mvn?
    ensures d.rd == p.a12
    ensures if d.instr.Mov? || d.instr.Mvn? then d.sBit == Op(p) % 2 else d.imm == p.a16 * 0x1000 + Low12(p)
  {
    hide FormMovImm, Op, ExpandImm, Nibble4, Low12;
    if d.instr.Movw? || d.instr.Movt? {
      Join12(p, d.imm % 0x1000);
    }
  }

  lemma DstSrcLabels(i: Instr)
    requires ShiftCode(i) >= 0
    ensures var c := ShiftCode(i);
            && (c == 0 <==> i.Lsl? || i.Mov? || i.Nop?) && (c == 1 <==> i.Lsr?) && (c == 2 <==> i.Asr?)
            && (c == 3 <==> i.Ror? || i.Rrx?) && c <= 3
  {
  }

  lemma DstSrcFields(d: Darm, p: Word)
    requires ValidWord(p) && InRange(d) && ReadsDstSrc(d, p)
    ensures ShiftCode(d.instr) == p.b6 * 2 + p.b5 && ShiftType(d) == p.b6 * 2 + p.b5 && d.sBit == Op(p) - 26
    ensures d.rs == NO_REG && (d.rn != NO_REG <==> p.b4 == 1)
    ensures if p.b4 == 1 then d.rm == p.a8 && d.rn == p.a0 && d.shift == 0 && p.b7 == 0 else d.shift == p.a8 * 2 + p.b7
    ensures d.instr.Nop? ==> p.b4 == 0 && p.a12 == 0 && p.a0 == 0
    ensures !d.instr.Nop? ==> d.rd == p.a12 && (p.b4 == 0 ==> d.rm == p.a0)
  {
    hide Op, Nibble4, ShiftCode, ShiftType;
    var c := ShiftCode(d.instr);
    if c >= 0 {
      DstSrcLabels(d.instr);
      assert c == c / 2 * 2 + c % 2;
      if d.instr.Nop? {
        NibbleBits(p, 0, 0, 0, 0);
      } else if d.rn != NO_REG {
        NibbleBits(p, 0, c / 2, c % 2, 1);
      } else {
        NibbleBits(p, d.shift % 2, c / 2, c % 2, 0);
      }
    }
  }

  lemma BlockCodes(i: Instr)
    requires BlockCode(i) >= 0
    ensures var c := BlockCode(i);
            c == c / 16 * 16 + c / 8 % 2 * 8 + c % 2 && Bit(c / 16) && Bit(c / 8 % 2) && Bit(c % 2)
  {
    hide BlockCode;
    BlockList(i);
  }

  lemma BlockFields(d: Darm, p: Word)
    requires ValidWord(p) && InRange(d) && ReadsLdstregs(d, p)
    ensures BlockCode(d.instr) == p.b24 * 16 + p.b23 * 8 + p.b20
    ensures d.wBit == p.b21 && d.rn == p.a16 && d.reglist == Low16(p)
  {
    hide BlockCode, Op, Nibble4, FormLdstregs, Low16;
    var c := BlockCode(d.instr);
    if c >= 0 {
      BlockCodes(d.instr);
      OpBits(p, 1, 0, 0, c / 16, c / 8 % 2, 0, d.wBit, c % 2);
      Join16(p, d.reglist);
    }
  }

  lemma BlockList(i: Instr)
    requires BlockCode(i) >= 0
    ensures var c := BlockCode(i);
            && (c == 0 ==> i.Stmda?) && (c == 1 ==> i.Ldmda?) && (c == 8 ==> i.Stm?) && (c == 9 ==> i.Ldm? || i.Pop?)
            && (c == 16 ==> i.Stmdb? || i.Push?) && (c == 17 ==> i.Ldmdb?) && (c == 24 ==> i.Stmib?)
            && (c == 25 ==> i.Ldmib?)
            && (c == 0 || c == 1 || c == 8 || c == 9 || c == 16 || c == 17 || c == 24 || c == 25)
  {
  }

  lemma MiscKind(d: Darm, p: Word)
    requires ValidWord(p) && InRange(d) && ReadsMisc(d, p)
    ensures d.instr.Mvn? <==> 30 <= Op(p) < 32
    ensures d.instr.Smc? <==> Op(p) == 22 && Nibble4(p) == 7
    ensures d.instr.Clz? <==> Op(p) == 22 && Nibble4(p) == 1
    ensures d.instr.Pkh? <==> Op(p) == 104 && p.b5 == 0
    ensures d.instr.Sel? <==> Op(p) == 104 && p.b5 == 1
    ensures d.instr.Mvn? || d.instr.Smc? || d.instr.Clz? || d.instr.Pkh? || d.instr.Sel?
  {
    hide FormMisc, Op, ShiftType, ShiftHigh, ShiftLow;
    if d.instr.Pkh? {
      NibbleBits(p, d.shift % 2, d.tBit, 0, 1);
    } else if d.instr.Sel? {
      NibbleBits(p, p.b7, p.b6, 1, 1);
    }
  }

  lemma MvnFields(d: Darm, p: Word)
    requires ValidWord(p) && InRange(d) && ReadsMisc(d, p) && d.instr.Mvn?
    ensures d.sBit == Op(p) - 30 && d.rd == p.a12 && d.rm == p.a0 && ShiftType(d) == p.b6 * 2 + p.b5
    ensures if p.b4 == 1 then d.rs == p.a8 else d.rs == NO_REG && d.shift == p.a8 * 2 + p.b7
  {
    hide FormMisc, Op, Nibble4, ShiftType, ShiftHigh, ShiftLow;
    ShiftFields(d, p);
  }

  lemma PkhFields(d: Darm, p: Word)
    requires ValidWord(p) && InRange(d) && ReadsMisc(d, p) && d.instr.Pkh?
    ensures d.rn == p.a16 && d.rd == p.a12 && d.rm == p.a0 && d.tBit == p.b6 && d.shift == p.a8 * 2 + p.b7
    ensures ShiftType(d) == 2 * p.b6
  {
    hide FormMisc, Op, Nibble4, ShiftType, ShiftHigh, ShiftLow;
    NibbleBits(p, d.shift % 2, d.tBit, 0, 1);
  }

  lemma OtherMiscFields(d: Darm, p: Word)
    requires ValidWord(p) && InRange(d) && ReadsMisc(d, p) && (d.instr.Smc? || d.instr.Clz? || d.instr.Sel?)
    ensures d.instr.Smc? ==> d.imm == p.a0
    ensures d.instr.Clz? ==> d.rd == p.a12 && d.rm == p.a0
    ensures d.instr.Sel? ==> d.rn == p.a16 && d.rd == p.a12 && d.rm == p.a0
  {
    hide FormMisc, Op, Nibble4, ShiftType, ShiftHigh, ShiftLow;
  }

  predicate Halves(i: Instr) {
    i.Smul? || i.Smla? || i.Smlal?
  }

  predicate Dual(i: Instr) {
    i.Smuad? || i.Smlad? || i.Smusd? || i.Smlsd?
  }

  lemma SmKind(d: Darm, p: Word)
    requires ValidWord(p) && InRange(d) && ReadsSm(d, p)
    ensures d.instr.Smul? <==> Op(p) == 22
    ensures d.instr.Smla? <==> Op(p) == 16
    ensures d.instr.Smlal? <==> Op(p) == 20
    ensures d.instr.Smmul? || d.instr.Smmla? || d.instr.Smmls? <==> Op(p) == 117
    ensures Dual(d.instr) <==> Op(p) == 112
    ensures d.instr.Smlald? || d.instr.Smlsld? <==> Op(p) == 116
    ensures Halves(d.instr) || d.instr.Smmul? || d.instr.Smmla? || d.instr.Smmls? || Dual(d.instr) || d.instr.Smlald? ||
            d.instr.Smlsld?
  {
    hide FormSm, Op, Nibble4;
  }

  lemma SmFields(d: Darm, p: Word)
    requires ValidWord(p) && InRange(d) && ReadsSm(d, p)
    ensures d.rm == p.a8 && d.rn == p.a0
    ensures Halves(d.instr) ==> d.mBit == p.b6 && d.nBit == p.b5
    ensures d.instr.Smmul? || d.instr.Smmla? || d.instr.Smmls? ==> d.rBit == p.b5 && (d.instr.Smmls? <==> p.b6 == 1)
    ensures Dual(d.instr) ==> d.mBit == p.b5 && (d.instr.Smusd? || d.instr.Smlsd? <==> p.b6 == 1)
    ensures d.instr.Smlald? || d.instr.Smlsld? ==> d.mBit == p.b5 && (d.instr.Smlsld? <==> p.b6 == 1)
    ensures d.instr.Smlal? || d.instr.Smlald? || d.instr.Smlsld? ==> d.rdHi == p.a16 && d.rdLo == p.a12
    ensures !d.instr.Smlal? && !d.instr.Smlald? && !d.instr.Smlsld? ==> d.rd == p.a16
    ensures d.instr.Smla? || d.instr.Smmul? || d.instr.Smmla? || d.instr.Smmls? || Dual(d.instr) ==> d.ra == p.a12
  {
    hide FormSm, Op;
  }

  lemma CoprocessorFields(d: Darm, p: Word)
    requires ValidWord(p) && InRange(d) && ReadsMvcr(d, p)
    ensures d.crn == p.a16 && d.coproc == p.a8 && d.opc2 == Nibble4(p) / 2 && d.crm == p.a0
    ensures d.instr.Cdp? <==> Nibble4(p) % 2 == 0
    ensures d.instr.Mcr? <==> Nibble4(p) % 2 == 1 && Op(p) % 2 == 0
    ensures d.instr.Mrc? <==> Nibble4(p) % 2 == 1 && Op(p) % 2 == 1
    ensures d.instr.Cdp? || d.instr.Mcr? || d.instr.Mrc?
    ensures if d.instr.Cdp? then d.opc1 == Op(p) - 224 && d.crd == p.a12
            else d.opc1 == (Op(p) - 224) / 2 && d.rt == p.a12
  {
    hide FormMvcr, Op, Nibble4;
  }

  lemma UdfField(d: Darm, p: Word)
    requires ValidWord(p) && InRange(d) && ReadsUdf(d, p)
    ensures d.instr.Udf? && d.imm == p.a16 * 0x1000 + p.a12 * 0x100 + p.a8 * 16 + p.a0
  {
    hide FormUdf, Nibble4, Op;
    var f := d.imm;
    assert f / 0x100 == f / 16 / 16 && f / 0x1000 == f / 0x100 / 16;
  }

  predicate IsBarrier(i: Instr) {
    i.Clrex? || i.Dsb? || i.Dmb? || i.Isb?
  }

  predicate IsPreload(i: Instr) {
    i.Pld? || i.Pldw? || i.Pli?
  }

  predicate IsCoprocessor2(i: Instr) {
    i.Cdp2? || i.Mcr2? || i.Mrc2?
  }

  lemma BarrierFields(d: Darm, p: Word)
    requires ValidWord(p) && InRange(d) && ReadsUncond(d, p) && IsBarrier(d.instr)
    ensures BarrierWord(p) && p.b27 == 0 && p.b26 == 1 && p.b6 * 4 + p.b5 * 2 + p.b4 == BarrierCode(d.instr)
    ensures !d.instr.Clrex? ==> d.option == p.a0
  {
    hide Op, Nibble4, FormUncond, EncodePreload;
    var c := BarrierCode(d.instr);
    OpBits(p, 0, 1, 0, p.b24, p.b23, p.b22, 1, p.b20);
    NibbleBits(p, p.b7, c / 4, c / 2 % 2, c % 2);
  }

  lemma PreloadFields(d: Darm, p: Word)
    requires ValidWord(p) && InRange(d) && ReadsUncond(d, p) && IsPreload(d.instr)
    ensures !BarrierWord(p) && p.b27 == 0 && p.b26 == 1
    ensures d.instr.Pli? <==> p.b24 == 0
    ensures d.instr.Pld? <==> p.b24 == 1 && p.b22 == 1
    ensures d.uBit == p.b23 && d.rn == p.a16 && (d.iBit == 1 <==> p.b25 == 0)
    ensures if d.iBit == 1 then d.imm == Low12(p)
            else d.iBit == NO_BIT && d.rs == NO_REG && d.rm == p.a0 && ShiftType(d) == p.b6 * 2 + p.b5 &&
                 d.shift == p.a8 * 2 + p.b7
  {
    hide Op, Nibble4, BarrierWord, Low12;
    var h, k := if d.instr.Pli? then 0 else 1, if d.instr.Pli? then p.b22 else if d.instr.Pld? then 1 else 0;
    OpBits(p, 0, 1, if d.iBit == 1 then 0 else 1, h, d.uBit, k, p.b21, p.b20);
    if d.iBit == 1 {
      Join12(p, d.imm);
    } else {
      var t := ShiftType(d);
      assert 0 <= t < 4;
      hide ShiftType;
      NibbleBits(p, d.shift % 2, t / 2, t % 2, p.b4);
    }
  }

  lemma BlxFields(d: Darm, p: Word)
    requires ValidWord(p) && InRange(d) && ReadsUncond(d, p) && d.instr.Blx?
    ensures p.b27 == 1 && p.b26 == 0 && d.hBit == p.b24 && d.imm == SignExtended(Low24(p)) + 2 * p.b24
  {
    hide Nibble4, Low24, SignExtended, FormUncond, EncodePreload;
    var f := d.imm / 4 % 0x100_0000;
    assert 0 <= f / 0x10_0000 < 16;
    SameDigit(p.b27 * 8 + p.b26 * 4 + p.b25 * 2 + p.b24, 10 + d.hBit, p.b23 * 8 + p.b22 * 4 + p.b21 * 2 + p.b20,
              f / 0x10_0000);
    SameBits(p.b27, p.b26, p.b25, p.b24, 1, 0, 1, d.hBit);
  }

  lemma SetendFields(d: Darm, p: Word)
    requires ValidWord(p) && InRange(d) && ReadsUncond(d, p) && d.instr.Setend?
    ensures p.b27 == 0 && p.b26 == 0 && d.eBit == p.a8 / 2 % 2
  {
    hide Nibble4, Op, FormUncond, EncodePreload;
    OpBits(p, 0, 0, 0, p.b24, p.b23, p.b22, p.b21, p.b20);
    assert p.a8 / 4 == p.a8 / 2 / 2;
  }

  lemma Coprocessor2Fields(d: Darm, p: Word)
    requires ValidWord(p) && InRange(d) && ReadsUncond(d, p) && IsCoprocessor2(d.instr)
    ensures p.b27 == 1 && p.b26 == 1
    ensures d.instr.Cdp2? <==> p.b4 == 0
    ensures d.instr.Mrc2? <==> p.b4 == 1 && p.b20 == 1
    ensures d.crn == p.a16 && d.coproc == p.a8 && d.opc2 == p.b7 * 4 + p.b6 * 2 + p.b5 && d.crm == p.a0
    ensures if d.instr.Cdp2? then d.opc1 == p.b23 * 8 + p.b22 * 4 + p.b21 * 2 + p.b20 && d.crd == p.a12
            else d.opc1 == p.b23 * 4 + p.b22 * 2 + p.b21 && d.rt == p.a12
  {
    hide ReadsUncond;
    if d.instr.Cdp2? {
      Cdp2Fields(d, p);
    } else {
      Mcr2Fields(d, p);
    }
  }

  lemma FourBits(x: int)
    requires Digit(x)
    ensures x == x / 8 * 8 + x / 4 % 2 * 4 + x / 2 % 2 * 2 + x % 2
    ensures Bit(x / 8) && Bit(x / 4 % 2) && Bit(x / 2 % 2) && Bit(x % 2) && (x < 8 ==> x / 8 == 0 && x / 4 % 2 == x / 4)
  {
  }

  lemma Cdp2Fields(d: Darm, p: Word)
    requires ValidWord(p) && InRange(d) && ReadsUncond(d, p) && d.instr.Cdp2?
    ensures p.b27 == 1 && p.b26 == 1 && p.b4 == 0
    ensures d.crn == p.a16 && d.coproc == p.a8 && d.opc2 == p.b7 * 4 + p.b6 * 2 + p.b5 && d.crm == p.a0
    ensures d.opc1 == p.b23 * 8 + p.b22 * 4 + p.b21 * 2 + p.b20 && d.crd == p.a12
  {
    var o, l := d.opc1, d.opc2;
    FourBits(o);
    FourBits(l);
    hide FormUncond, EncodePreload, Op, Nibble4;
    NibbleBits(p, l / 4, l / 2 % 2, l % 2, 0);
    OpBits(p, 1, 1, 1, p.b24, o / 8, o / 4 % 2, o / 2 % 2, o % 2);
  }

  lemma Mcr2Fields(d: Darm, p: Word)
    requires ValidWord(p) && InRange(d) && ReadsUncond(d, p) && (d.instr.Mcr2? || d.instr.Mrc2?)
    ensures p.b27 == 1 && p.b26 == 1 && p.b4 == 1 && (d.instr.Mrc2? <==> p.b20 == 1)
    ensures d.crn == p.a16 && d.coproc == p.a8 && d.opc2 == p.b7 * 4 + p.b6 * 2 + p.b5 && d.crm == p.a0
    ensures d.opc1 == p.b23 * 4 + p.b22 * 2 + p.b21 && d.rt == p.a12
  {
    hide FormUncond, EncodePreload, Op, Nibble4;
    CoprocessorBits(p, d.opc1, d.opc2, if d.instr.Mrc2? then 1 else 0);
  }

  lemma CoprocessorBits(p: Word, o: int, l: int, load: int)
    requires ValidWord(p) && 0 <= o < 8 && 0 <= l < 8 && Bit(load)
    requires Op(p) == 224 + p.b24 * 16 + o * 2 + load && Nibble4(p) == l * 2 + 1
    ensures p.b27 == 1 && p.b26 == 1 && p.b20 == load && o == p.b23 * 4 + p.b22 * 2 + p.b21
    ensures p.b4 == 1 && l == p.b7 * 4 + p.b6 * 2 + p.b5
  {
    hide Op, Nibble4;
    FourBits(o);
    FourBits(l);
    NibbleBits(p, l / 4, l / 2 % 2, l % 2, 1);
    OpBits(p, 1, 1, 1, p.b24, o / 4, o / 2 % 2, o % 2, load);
  }

  lemma UncondKind(d: Darm, p: Word)
    requires ValidWord(p) && InRange(d) && ReadsUncond(d, p)
    ensures d.instr.Setend? <==> p.b27 == 0 && p.b26 == 0
    ensures IsBarrier(d.instr) <==> p.b27 == 0 && p.b26 == 1 && BarrierWord(p)
    ensures IsPreload(d.instr) <==> p.b27 == 0 && p.b26 == 1 && !BarrierWord(p)
    ensures d.instr.Blx? <==> p.b27 == 1 && p.b26 == 0
    ensures IsCoprocessor2(d.instr) <==> p.b27 == 1 && p.b26 == 1
  {
    UncondLabels(d, p);
    hide ReadsUncond, BarrierWord;
    if d.instr.Setend? {
      SetendFields(d, p);
    } else if IsBarrier(d.instr) {
      BarrierFields(d, p);
    } else if IsPreload(d.instr) {
      PreloadFields(d, p);
    } else if d.instr.Blx? {
      BlxFields(d, p);
    } else {
      Coprocessor2Fields(d, p);
    }
  }

  lemma UncondLabels(d: Darm, p: Word)
    requires ValidWord(p) && ReadsUncond(d, p)
    ensures d.instr.Setend? || IsBarrier(d.instr) || IsPreload(d.instr) || d.instr.Blx? || IsCoprocessor2(d.instr)
  {
    hide Op, Nibble4, FormUncond, With24, With12;
  }

  // The members of the encodings whose fields lie at fixed places.

  lemma MulFields(d: Darm, p: Word)
    requires ValidWord(p) && InRange(d) && ReadsMul(d, p)
    ensures MulCode(d.instr) == Op(p) / 2 && d.sBit == Op(p) % 2 && d.rm == p.a8 && d.rn == p.a0
    ensures d.instr.Mul? || d.instr.Mla? || d.instr.Mls? ==> d.rd == p.a16
    ensures d.instr.Mla? || d.instr.Mls? ==> d.ra == p.a12
    ensures !(d.instr.Mul? || d.instr.Mla? || d.instr.Mls?) ==> d.rdHi == p.a16 && d.rdLo == p.a12
  {
    hide Op, Nibble4, FormMul;
  }

  lemma SyncFields(d: Darm, p: Word)
    requires ValidWord(p) && InRange(d) && ReadsSync(d, p)
    ensures SyncCode(d.instr) == Op(p) - 16 && d.rn == p.a16
    ensures d.instr.Swp? || d.instr.Swpb? ==> d.rt == p.a12 && d.rt2 == p.a0
    ensures d.instr.Ldrex? || d.instr.Ldrexd? || d.instr.Ldrexb? || d.instr.Ldrexh? ==> d.rt == p.a12
    ensures d.instr.Strex? || d.instr.Strexd? || d.instr.Strexb? || d.instr.Strexh? ==> d.rd == p.a12 && d.rt == p.a0
  {
    hide Op, Nibble4, FormSync;
  }

  lemma SatFields(d: Darm, p: Word)
    requires ValidWord(p) && InRange(d) && ReadsSat(d, p)
    ensures SatCode(d.instr) == (Op(p) - 16) / 2 && d.rn == p.a16 && d.rd == p.a12 && d.rm == p.a0
  {
    hide Op, Nibble4, FormThree;
  }

  lemma DataFields(d: Darm, p: Word)
    requires ValidWord(p) && InRange(d) && ReadsArithShift(d, p)
    ensures ArithCode(d.instr) == Op(p) / 2 && d.sBit == Op(p) % 2 && d.rn == p.a16 && d.rd == p.a12 && d.rm == p.a0
    ensures ShiftType(d) == p.b6 * 2 + p.b5
    ensures if p.b4 == 1 then d.rs == p.a8 else d.rs == NO_REG && d.shift == p.a8 * 2 + p.b7
  {
    hide Op, Nibble4, FormArithShift, ArithCode, Computes, ShiftType, ShiftHigh, ShiftLow;
    ShiftFields(d, p);
  }

  lemma CompareFields(d: Darm, p: Word)
    requires ValidWord(p) && InRange(d)
    ensures ReadsCmpOp(d, p) ==> ArithCode(d.instr) == Op(p) / 2 && d.rn == p.a16 && d.rm == p.a0
    ensures ReadsCmpImm(d, p) ==> ArithCode(d.instr) == (Op(p) - 32) / 2 && d.rn == p.a16
  {
    hide Op, Nibble4, FormCmpOp, FormCmpImm, ArithCode, Compares, Low12, ExpandImm;
  }

  lemma ReverseFields(d: Darm, p: Word)
    requires ValidWord(p) && InRange(d) && ReadsBitrev(d, p)
    ensures d.rd == p.a12 && d.rm == p.a0
    ensures d.instr.Rev? <==> Op(p) == 107 && Nibble4(p) == 3
    ensures d.instr.Rev16? <==> Op(p) == 107 && Nibble4(p) != 3
    ensures d.instr.Rbit? <==> Op(p) == 111 && Nibble4(p) == 3
    ensures d.instr.Revsh? <==> Op(p) == 111 && Nibble4(p) != 3
  {
    hide Op, Nibble4, FormBitrev;
  }

  lemma ParallelFields(d: Darm, p: Word)
    requires ValidWord(p) && InRange(d) && ReadsPas(d, p)
    ensures ParallelHigh(d.instr) == Op(p) - 96 && ParallelLow(d.instr) == Nibble4(p) / 2
    ensures d.rn == p.a16 && d.rd == p.a12 && d.rm == p.a0
  {
    hide Op, Nibble4, FormThree, ParallelHigh, ParallelLow;
  }

  lemma HintFields(d: Darm, p: Word)
    requires ValidWord(p) && InRange(d) && ReadsOpless(d, p)
    ensures HintCode(d.instr) == p.a0 % 8
  {
    hide Op, Nibble4, Blank;
    HintRange(d.instr);
  }

  lemma HalfRange(i: Instr)
    ensures HalfCode(i) == -1 || 2 <= HalfCode(i) < 8
  {
  }

  lemma HintRange(i: Instr)
    ensures -1 <= HintCode(i) < 5
  {
  }
}
