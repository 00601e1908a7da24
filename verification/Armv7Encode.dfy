/**
 * The word that a decoded ARM instruction stands for: the encodings of section A5 and A8 of the
 * ARMv7-A/R Architecture Reference Manual, read from the operands back to the bits. `Encode...`
 * shares nothing with the decoder but the meaning of the labels and members; the bits that an
 * instruction leaves unread are taken from a second argument, so `EncodeMul(d, p) == Digits(p)`
 * says that d accounts for every other bit of p.
 */
module Armv7Encode {
  import opened Armv7Tables
  import opened Armv7
  import opened Armv7Forms

  /** The digits of a word: bits 28-31, 20-27, 16-19, 12-15, 8-11, 4-7 and 0-3. */
  datatype Parts = Parts(cond: int, op: int, a16: int, a12: int, a8: int, a4: int, a0: int)

  /** What no word looks like: the encoding of a label that has none. */
  const NO_WORD := Parts(-1, -1, -1, -1, -1, -1, -1)

  function Digits(p: Word): Parts {
    Parts(p.cond, Op(p), p.a16, p.a12, p.a8, Nibble4(p), p.a0)
  }

  /** Words whose last 24, 16 or 12 bits are one number. */
  function With24(cond: int, high: int, f: int): Parts {
    Parts(cond, high * 16 + f / 0x10_0000, f / 0x1_0000 % 16, f / 0x1000 % 16, f / 0x100 % 16, f / 16 % 16, f % 16)
  }

  function With16(cond: int, op: int, a16: int, f: int): Parts {
    Parts(cond, op, a16, f / 0x1000, f / 0x100 % 16, f / 16 % 16, f % 16)
  }

  function With12(cond: int, op: int, a16: int, a12: int, f: int): Parts {
    Parts(cond, op, a16, a12, f / 0x100, f / 16 % 16, f % 16)
  }

  lemma Quotients(x: int, a: int, b: int, c: int, e: int, f: int)
    requires 0 <= x && Digit(a) && Digit(b) && Digit(c) && Digit(e)
    requires f == x * 0x1_0000 + a * 0x1000 + b * 0x100 + c * 16 + e
    ensures f / 16 == x * 0x1000 + a * 0x100 + b * 16 + c && f / 0x100 == x * 0x100 + a * 16 + b
    ensures f / 0x1000 == x * 16 + a && f / 0x1_0000 == x && f / 0x10_0000 == x / 16
    ensures f % 16 == e && f / 16 % 16 == c && f / 0x100 % 16 == b && f / 0x1000 % 16 == a
  {
    assert f / 16 == x * 0x1000 + a * 0x100 + b * 16 + c;
    assert f / 0x100 == f / 16 / 16 && f / 0x1000 == f / 0x100 / 16 && f / 0x1_0000 == f / 0x1000 / 16;
  }

  lemma DigitsOf12(p: Word)
    requires ValidWord(p)
    ensures With12(p.cond, Op(p), p.a16, p.a12, Low12(p)) == Digits(p) && 0 <= Low12(p) < 4096
  {
    assert Digit(Nibble4(p));
    hide Nibble4, Op;
    Quotients(0, 0, p.a8, Nibble4(p), p.a0, Low12(p));
  }

  lemma DigitsOf16(p: Word)
    requires ValidWord(p)
    ensures With16(p.cond, Op(p), p.a16, Low16(p)) == Digits(p) && 0 <= Low16(p) < 0x1_0000
  {
    assert Digit(Nibble4(p));
    hide Nibble4, Op;
    Quotients(0, p.a12, p.a8, Nibble4(p), p.a0, Low16(p));
  }

  lemma DigitsOf24(p: Word)
    requires ValidWord(p)
    ensures With24(p.cond, p.b27 * 8 + p.b26 * 4 + p.b25 * 2 + p.b24, Low24(p)) == Digits(p)
    ensures 0 <= Low24(p) < 0x100_0000
  {
    var y := p.b23 * 8 + p.b22 * 4 + p.b21 * 2 + p.b20;
    assert Digit(Nibble4(p)) && Digit(y) && Op(p) == (p.b27 * 8 + p.b26 * 4 + p.b25 * 2 + p.b24) * 16 + y;
    hide Nibble4, Op;
    var x := y * 16 + p.a16;
    assert Low24(p) == x * 0x1_0000 + Low16(p);
    Quotients(x, p.a12, p.a8, Nibble4(p), p.a0, Low24(p));
    assert x / 16 == y && x % 16 == p.a16;
  }

  /** The shift type, which the decoder blanks when there is no shift. */
  function ShiftType(d: Darm): int {
    if d.shiftType == NO_SHIFT then 0 else d.shiftType
  }

  /** Bits 8 to 11 and 4 to 7 of a register operand shifted by an immediate or by Rs. */
  function ShiftHigh(d: Darm): int {
    if d.rs != NO_REG then d.rs else d.shift / 2
  }

  function ShiftLow(d: Darm): int {
    if d.rs != NO_REG then ShiftType(d) * 2 + 1 else d.shift % 2 * 8 + ShiftType(d) * 2
  }

  /** The 4-bit opcode of a data-processing instruction. */
  function ArithCode(i: Instr): int {
    if i.And? then 0
    else if i.Eor? then 1
    else if i.Sub? then 2
    else if i.Rsb? then 3
    else if i.Add? then 4
    else if i.Adc? then 5
    else if i.Sbc? then 6
    else if i.Rsc? then 7
    else if i.Tst? then 8
    else if i.Teq? then 9
    else if i.Cmp? then 10
    else if i.Cmn? then 11
    else if i.Orr? then 12
    else if i.Mov? then 13
    else if i.Bic? then 14
    else if i.Mvn? then 15
    else -1
  }

  function MulCode(i: Instr): int {
    if i.Mul? then 0
    else if i.Mla? then 1
    else if i.Umaal? then 2
    else if i.Mls? then 3
    else if i.Umull? then 4
    else if i.Umlal? then 5
    else if i.Smull? then 6
    else if i.Smlal? then 7
    else -1
  }

  function EncodeMul(d: Darm, p: Word): Parts {
    var op := MulCode(d.instr) * 2 + d.sBit;
    if MulCode(d.instr) < 0 then NO_WORD
    else if d.instr.Mul? then Parts(d.cond, op, d.rd, p.a12, d.rm, 9, d.rn)
    else if d.instr.Mla? || d.instr.Mls? then Parts(d.cond, op, d.rd, d.ra, d.rm, 9, d.rn)
    else Parts(d.cond, op, d.rdHi, d.rdLo, d.rm, 9, d.rn)
  }

  /** Bits 6, 5 and 20 of a load or store of a halfword, doubleword or signed byte. */
  function HalfCode(i: Instr): int {
    if i.Strh? || i.Strht? then 2
    else if i.Ldrh? || i.Ldrht? then 3
    else if i.Ldrd? then 4
    else if i.Ldrsb? || i.Ldrsbt? then 5
    else if i.Strd? then 6
    else if i.Ldrsh? || i.Ldrsht? then 7
    else -1
  }

  function EncodeHalf(d: Darm, wBit: int, p: Word): Parts {
    var op := d.pBit * 16 + d.uBit * 8 + wBit * 2 + HalfCode(d.instr) % 2;
    var a4 := 9 + HalfCode(d.instr) / 2 * 2;
    if HalfCode(d.instr) < 0 then NO_WORD
    else if d.iBit == 1 then Parts(d.cond, op + 4, d.rn, d.rt, d.imm / 16, a4, d.imm % 16)
    else Parts(d.cond, op, d.rn, d.rt, p.a8, a4, d.rm)
  }

  function SyncCode(i: Instr): int {
    if i.Swp? then 0
    else if i.Swpb? then 4
    else if i.Strex? then 8
    else if i.Ldrex? then 9
    else if i.Strexd? then 10
    else if i.Ldrexd? then 11
    else if i.Strexb? then 12
    else if i.Ldrexb? then 13
    else if i.Strexh? then 14
    else if i.Ldrexh? then 15
    else -1
  }

  function EncodeSync(d: Darm, p: Word): Parts {
    var op := 16 + SyncCode(d.instr);
    if SyncCode(d.instr) < 0 then NO_WORD
    else if d.instr.Swp? || d.instr.Swpb? then Parts(d.cond, op, d.rn, d.rt, p.a8, 9, d.rt2)
    else if d.instr.Ldrex? || d.instr.Ldrexd? || d.instr.Ldrexb? || d.instr.Ldrexh? then
      Parts(d.cond, op, d.rn, d.rt, p.a8, 9, p.a0)
    else Parts(d.cond, op, d.rn, d.rd, p.a8, 9, d.rt)
  }

  /** Bits 22 and 20 of a load or store of a word or byte. */
  function TransferCode(i: Instr): int {
    if i.Str? || i.Strt? || i.Push? then 0
    else if i.Ldr? || i.Ldrt? || i.Pop? then 1
    else if i.Strb? || i.Strbt? then 4
    else if i.Ldrb? || i.Ldrbt? then 5
    else -1
  }

  function EncodeStack0(d: Darm): Parts {
    var op := 64 + d.pBit * 16 + d.uBit * 8 + d.wBit * 2 + TransferCode(d.instr);
    if TransferCode(d.instr) < 0 then NO_WORD
    else if d.iBit == 1 then With12(d.cond, op, d.rn, d.rt, d.imm)
    else Parts(d.cond, op + 32, d.rn, d.rt, ShiftHigh(d), ShiftLow(d), d.rm)
  }

  function SatCode(i: Instr): int {
    if i.Qadd? then 0
    else if i.Qsub? then 1
    else if i.Qdadd? then 2
    else if i.Qdsub? then 3
    else -1
  }

  function EncodeSat(d: Darm, p: Word): Parts {
    if SatCode(d.instr) < 0 then NO_WORD else Parts(d.cond, 16 + 2 * SatCode(d.instr), d.rn, d.rd, p.a8, 5, d.rm)
  }

  /** Bits 20 to 22 of an extend instruction, and whether it adds. */
  function ExtendCode(i: Instr): int {
    if i.Sxtab16? || i.Sxtb16? then 0
    else if i.Sxtab? || i.Sxtb? then 2
    else if i.Sxtah? || i.Sxth? then 3
    else if i.Uxtab16? || i.Uxtb16? then 4
    else if i.Uxtab? || i.Uxtb? then 6
    else if i.Uxtah? || i.Uxth? then 7
    else -1
  }

  predicate ExtendAdds(i: Instr) {
    i.Sxtab16? || i.Sxtab? || i.Sxtah? || i.Uxtab16? || i.Uxtab? || i.Uxtah?
  }

  function EncodePusr(d: Darm, p: Word): Parts {
    if d.instr.Ssat? then
      Parts(d.cond, 106 + (d.imm - 1) / 16, (d.imm - 1) % 16, d.rd, ShiftHigh(d), ShiftLow(d) + 1, d.rn)
    else if d.instr.Usat? then Parts(d.cond, 110 + d.imm / 16, d.imm % 16, d.rd, ShiftHigh(d), ShiftLow(d) + 1, d.rn)
    else if d.instr.Ssat16? then Parts(d.cond, 106, d.imm - 1, d.rd, p.a8, 3, d.rn)
    else if d.instr.Usat16? then Parts(d.cond, 110, d.imm, d.rd, p.a8, 3, d.rn)
    else if ExtendCode(d.instr) >= 0 then
      Parts(d.cond, 104 + ExtendCode(d.instr), if ExtendAdds(d.instr) then d.rn else 15, d.rd,
            d.rotate / 2 + p.a8 % 4, 7, d.rm)
    else NO_WORD
  }

  /** The data-processing instructions of two operands with a result, and those that only compare. */
  predicate Computes(i: Instr) {
    i.And? || i.Eor? || i.Sub? || i.Rsb? || i.Add? || i.Adc? || i.Sbc? || i.Rsc? || i.Orr? || i.Bic?
  }

  predicate Compares(i: Instr) {
    i.Tst? || i.Teq? || i.Cmp? || i.Cmn?
  }

  function EncodeArithShift(d: Darm): Parts {
    if !Computes(d.instr) then NO_WORD
    else Parts(d.cond, ArithCode(d.instr) * 2 + d.sBit, d.rn, d.rd, ShiftHigh(d), ShiftLow(d), d.rm)
  }

  /** The modified immediate is not read back: see ExpandImm. */
  function EncodeArithImm(d: Darm, p: Word): Parts {
    if d.instr.Adr? then
      Parts(d.cond, 32 + ArithCode(if d.uBit == 1 then Add else Sub) * 2, PC, d.rd, p.a8, Nibble4(p), p.a0)
    else if Computes(d.instr) then
      Parts(d.cond, 32 + ArithCode(d.instr) * 2 + d.sBit, d.rn, d.rd, p.a8, Nibble4(p), p.a0)
    else NO_WORD
  }

  /** The row of ubfx holds only the widths up to 16: wider ones lie in the row of udf and are decoded as that. */
  function EncodeBits(d: Darm, p: Word): Parts {
    var high, a4 := d.lsb / 2, d.lsb % 2 * 8 + p.b6 * 4 + p.b5 * 2 + 1;
    var msb := (d.width + d.lsb - 1) % 0x1_0000_0000;
    if d.instr.Sbfx? then Parts(d.cond, 122 + (d.width - 1) / 16, (d.width - 1) % 16, d.rd, high, a4, d.rn)
    else if d.instr.Ubfx? then Parts(d.cond, 126, d.width - 1, d.rd, high, a4, d.rn)
    else if d.instr.Bfc? then Parts(d.cond, 124 + msb / 16, msb % 16, d.rd, high, a4, 15)
    else if d.instr.Bfi? then Parts(d.cond, 124 + msb / 16, msb % 16, d.rd, high, a4, d.rn)
    else NO_WORD
  }

  function EncodeBranch(d: Darm): Parts {
    if d.instr.B? then With24(d.cond, 10, d.imm / 4 % 0x100_0000)
    else if d.instr.Bl? then With24(d.cond, 11, d.imm / 4 % 0x100_0000)
    else if d.instr.Svc? then With24(d.cond, 15, d.imm)
    else NO_WORD
  }

  function EncodeBranchMisc(d: Darm, p: Word): Parts {
    if d.instr.Bkpt? then Parts(d.cond, 18, d.imm / 0x1000, d.imm / 0x100 % 16, d.imm / 16 % 16, 7, d.imm % 16)
    else if d.instr.Msr? then Parts(d.cond, 18, d.imm * 4 + p.a16 % 4, p.a12, p.a8, 0, d.rn)
    else if d.instr.Bx? then Parts(d.cond, 18, p.a16, p.a12, p.a8, 1, d.rm)
    else if d.instr.Bxj? then Parts(d.cond, 18, p.a16, p.a12, p.a8, 2, d.rm)
    else if d.instr.Blx? then Parts(d.cond, 18, p.a16, p.a12, p.a8, 3, d.rm)
    else NO_WORD
  }

  function EncodeMovImm(d: Darm, p: Word): Parts {
    if d.instr.Movw? then With12(d.cond, 48, d.imm / 0x1000, d.rd, d.imm % 0x1000)
    else if d.instr.Movt? then With12(d.cond, 52, d.imm / 0x1000, d.rd, d.imm % 0x1000)
    else if d.instr.Mov? || d.instr.Mvn? then
      Parts(d.cond, 32 + ArithCode(d.instr) * 2 + d.sBit, p.a16, d.rd, p.a8, Nibble4(p), p.a0)
    else NO_WORD
  }

  /** With a shift by Rs the decoder does not look at bit 7. */
  function EncodeCmpOp(d: Darm, p: Word): Parts {
    if !Compares(d.instr) then NO_WORD
    else
      Parts(d.cond, ArithCode(d.instr) * 2 + 1, d.rn, p.a12, ShiftHigh(d),
            ShiftLow(d) + (if d.rs != NO_REG then p.b7 * 8 else 0), d.rm)
  }

  function EncodeCmpImm(d: Darm, p: Word): Parts {
    if !Compares(d.instr) then NO_WORD
    else Parts(d.cond, 32 + ArithCode(d.instr) * 2 + 1, d.rn, p.a12, p.a8, Nibble4(p), p.a0)
  }

  function HintCode(i: Instr): int {
    if i.Nop? then 0
    else if i.Yield? then 1
    else if i.Wfe? then 2
    else if i.Wfi? then 3
    else if i.Sev? then 4
    else -1
  }

  function EncodeOpless(d: Darm, p: Word): Parts {
    if HintCode(d.instr) < 0 then NO_WORD
    else Parts(d.cond, 50, p.a16, p.a12, p.a8, Nibble4(p), p.a0 / 8 * 8 + HintCode(d.instr))
  }

  function ShiftCode(i: Instr): int {
    if i.Lsl? || i.Mov? || i.Nop? then 0
    else if i.Lsr? then 1
    else if i.Asr? then 2
    else if i.Ror? || i.Rrx? then 3
    else -1
  }

  function EncodeDstSrc(d: Darm, p: Word): Parts {
    var code := ShiftCode(d.instr) * 2;
    if code < 0 then NO_WORD
    else if d.instr.Nop? then Parts(d.cond, 26 + d.sBit, p.a16, 0, 0, 0, 0)
    else if d.rn != NO_REG then Parts(d.cond, 26 + d.sBit, p.a16, d.rd, d.rm, code + 1, d.rn)
    else Parts(d.cond, 26 + d.sBit, p.a16, d.rd, d.shift / 2, d.shift % 2 * 8 + code, d.rm)
  }

  /** Bits 24, 23 and 20 of a load or store of several registers. */
  function BlockCode(i: Instr): int {
    if i.Stmda? then 0
    else if i.Ldmda? then 1
    else if i.Stm? then 8
    else if i.Ldm? || i.Pop? then 9
    else if i.Stmdb? || i.Push? then 16
    else if i.Ldmdb? then 17
    else if i.Stmib? then 24
    else if i.Ldmib? then 25
    else -1
  }

  function EncodeLdstregs(d: Darm): Parts {
    if BlockCode(d.instr) < 0 then NO_WORD
    else With16(d.cond, 128 + BlockCode(d.instr) + d.wBit * 2, d.rn, d.reglist)
  }

  function EncodeBitrev(d: Darm, p: Word): Parts {
    if d.instr.Rev? then Parts(d.cond, 107, p.a16, d.rd, p.a8, 3, d.rm)
    else if d.instr.Rev16? then Parts(d.cond, 107, p.a16, d.rd, p.a8, Nibble4(p), d.rm)
    else if d.instr.Rbit? then Parts(d.cond, 111, p.a16, d.rd, p.a8, 3, d.rm)
    else if d.instr.Revsh? then Parts(d.cond, 111, p.a16, d.rd, p.a8, Nibble4(p), d.rm)
    else NO_WORD
  }

  function EncodeMisc(d: Darm, p: Word): Parts {
    if d.instr.Mvn? then Parts(d.cond, 30 + d.sBit, p.a16, d.rd, ShiftHigh(d), ShiftLow(d), d.rm)
    else if d.instr.Smc? then Parts(d.cond, 22, p.a16, p.a12, p.a8, 7, d.imm)
    else if d.instr.Clz? then Parts(d.cond, 22, p.a16, d.rd, p.a8, 1, d.rm)
    else if d.instr.Pkh? then Parts(d.cond, 104, d.rn, d.rd, d.shift / 2, d.shift % 2 * 8 + d.tBit * 4 + 1, d.rm)
    else if d.instr.Sel? then Parts(d.cond, 104, d.rn, d.rd, p.a8, p.b7 * 8 + p.b6 * 4 + 3, d.rm)
    else NO_WORD
  }

  /** Bits 4 and 7 of the signed multiplications are not looked at. */
  function EncodeSm(d: Darm, p: Word): Parts {
    var outer := p.b7 * 8 + p.b4;
    if d.instr.Smul? then Parts(d.cond, 22, d.rd, p.a12, d.rm, 8 + d.mBit * 4 + d.nBit * 2, d.rn)
    else if d.instr.Smla? then Parts(d.cond, 16, d.rd, d.ra, d.rm, outer + d.mBit * 4 + d.nBit * 2, d.rn)
    else if d.instr.Smlal? then Parts(d.cond, 20, d.rdHi, d.rdLo, d.rm, outer + d.mBit * 4 + d.nBit * 2, d.rn)
    else if d.instr.Smmul? || d.instr.Smmla? then Parts(d.cond, 117, d.rd, d.ra, d.rm, outer + d.rBit * 2, d.rn)
    else if d.instr.Smmls? then Parts(d.cond, 117, d.rd, d.ra, d.rm, outer + 4 + d.rBit * 2, d.rn)
    else if d.instr.Smuad? || d.instr.Smlad? then Parts(d.cond, 112, d.rd, d.ra, d.rm, outer + d.mBit * 2, d.rn)
    else if d.instr.Smusd? || d.instr.Smlsd? then Parts(d.cond, 112, d.rd, d.ra, d.rm, outer + 4 + d.mBit * 2, d.rn)
    else if d.instr.Smlald? then Parts(d.cond, 116, d.rdHi, d.rdLo, d.rm, outer + d.mBit * 2, d.rn)
    else if d.instr.Smlsld? then Parts(d.cond, 116, d.rdHi, d.rdLo, d.rm, outer + 4 + d.mBit * 2, d.rn)
    else NO_WORD
  }

  /** Bits 20 to 22 of a parallel addition or subtraction say how it rounds. */
  function ParallelHigh(i: Instr): int {
    if i.Sadd16? || i.Sasx? || i.Ssax? || i.Ssub16? || i.Sadd8? || i.Ssub8? then 1
    else if i.Qadd16? || i.Qasx? || i.Qsax? || i.Qsub16? || i.Qadd8? || i.Qsub8? then 2
    else if i.Shadd16? || i.Shasx? || i.Shsax? || i.Shsub16? || i.Shadd8? || i.Shsub8? then 3
    else if i.Uadd16? || i.Uasx? || i.Usax? || i.Usub16? || i.Uadd8? || i.Usub8? then 5
    else if i.Uqadd16? || i.Uqasx? || i.Uqsax? || i.Uqsub16? || i.Uqadd8? || i.Uqsub8? then 6
    else if i.Uhadd16? || i.Uhasx? || i.Uhsax? || i.Uhsub16? || i.Uhadd8? || i.Uhsub8? then 7
    else -1
  }

  /** Bits 5 to 7 say what it does. */
  function ParallelLow(i: Instr): int {
    if i.Sadd16? || i.Qadd16? || i.Shadd16? || i.Uadd16? || i.Uqadd16? || i.Uhadd16? then 0
    else if i.Sasx? || i.Qasx? || i.Shasx? || i.Uasx? || i.Uqasx? || i.Uhasx? then 1
    else if i.Ssax? || i.Qsax? || i.Shsax? || i.Usax? || i.Uqsax? || i.Uhsax? then 2
    else if i.Ssub16? || i.Qsub16? || i.Shsub16? || i.Usub16? || i.Uqsub16? || i.Uhsub16? then 3
    else if i.Sadd8? || i.Qadd8? || i.Shadd8? || i.Uadd8? || i.Uqadd8? || i.Uhadd8? then 4
    else 7
  }

  function EncodePas(d: Darm, p: Word): Parts {
    if ParallelHigh(d.instr) < 0 then NO_WORD
    else Parts(d.cond, 96 + ParallelHigh(d.instr), d.rn, d.rd, p.a8, ParallelLow(d.instr) * 2 + 1, d.rm)
  }

  function EncodeMvcr(d: Darm): Parts {
    if d.instr.Cdp? then Parts(d.cond, 224 + d.opc1, d.crn, d.crd, d.coproc, d.opc2 * 2, d.crm)
    else if d.instr.Mcr? then Parts(d.cond, 224 + d.opc1 * 2, d.crn, d.rt, d.coproc, d.opc2 * 2 + 1, d.crm)
    else if d.instr.Mrc? then Parts(d.cond, 225 + d.opc1 * 2, d.crn, d.rt, d.coproc, d.opc2 * 2 + 1, d.crm)
    else NO_WORD
  }

  function EncodeUdf(d: Darm, p: Word): Parts {
    if !d.instr.Udf? then NO_WORD
    else Parts(d.cond, 127, d.imm / 0x1000, d.imm / 0x100 % 16, d.imm / 16 % 16, Nibble4(p), d.imm % 16)
  }

  function EncodePreload(d: Darm, p: Word): Parts {
    var kind := if d.instr.Pli? then p.b22 * 4 else if d.instr.Pld? then 20 else 16;
    var op := 64 + kind + d.uBit * 8 + p.b21 * 2 + p.b20;
    if !(d.instr.Pli? || d.instr.Pld? || d.instr.Pldw?) then NO_WORD
    else if d.iBit == 1 then With12(d.cond, op, d.rn, p.a12, d.imm)
    else Parts(d.cond, op + 32, d.rn, p.a12, d.shift / 2, d.shift % 2 * 8 + ShiftType(d) * 2 + p.b4, d.rm)
  }

  function BarrierCode(i: Instr): int {
    if i.Clrex? then 1
    else if i.Dsb? then 4
    else if i.Dmb? then 5
    else if i.Isb? then 6
    else -1
  }

  function EncodeUncond(d: Darm, p: Word): Parts {
    if d.instr.Setend? then
      Parts(d.cond, p.b24 * 16 + p.b23 * 8 + p.b22 * 4 + p.b21 * 2 + p.b20, p.a16, p.a12,
            p.a8 / 4 * 4 + d.eBit * 2 + p.a8 % 2, Nibble4(p), p.a0)
    else if d.instr.Clrex? then
      Parts(d.cond, 66 + p.b24 * 16 + p.b23 * 8 + p.b22 * 4 + p.b20, p.a16, p.a12, p.a8, p.b7 * 8 + 1, p.a0)
    else if d.instr.Dsb? || d.instr.Dmb? || d.instr.Isb? then
      Parts(d.cond, 66 + p.b24 * 16 + p.b23 * 8 + p.b22 * 4 + p.b20, p.a16, p.a12, p.a8,
            p.b7 * 8 + BarrierCode(d.instr), d.option)
    else if d.instr.Blx? then With24(d.cond, 10 + d.hBit, d.imm / 4 % 0x100_0000)
    else if d.instr.Cdp2? then
      Parts(d.cond, 224 + p.b24 * 16 + d.opc1, d.crn, d.crd, d.coproc, d.opc2 * 2, d.crm)
    else if d.instr.Mcr2? then
      Parts(d.cond, 224 + p.b24 * 16 + d.opc1 * 2, d.crn, d.rt, d.coproc, d.opc2 * 2 + 1, d.crm)
    else if d.instr.Mrc2? then
      Parts(d.cond, 224 + p.b24 * 16 + d.opc1 * 2 + 1, d.crn, d.rt, d.coproc, d.opc2 * 2 + 1, d.crm)
    else EncodePreload(d, p)
  }

  // Each predicate below says that d is an instruction of one encoding, that it has one of the labels
  // of the encoding and stands for p, that the members it does not use are blank and the single bits
  // are bits, and, where several labels or encodings share a row, that this one's condition holds.

  /** A blank shift type is one of no shift. */
  predicate Shifted(d: Darm) {
    d.shiftType == NO_SHIFT ==> d.rs == NO_REG && d.shift == 0
  }

  /** A barrier's word is not a preload's. */
  predicate BarrierWord(p: Word) {
    && p.b25 == 0 && p.b21 == 1
    && (Bits64(p, 0, 0, 1) || Bits64(p, 1, 0, 0) || Bits64(p, 1, 0, 1) || Bits64(p, 1, 1, 0))
  }

  predicate Bits64(p: Word, b6: int, b5: int, b4: int) {
    p.b6 == b6 && p.b5 == b5 && p.b4 == b4
  }

  predicate ReadsUncond(d: Darm, p: Word) {
    && d.encoding.ArmUncond? && EncodeUncond(d, p) == Digits(p) && d == FormUncond(d) && Shifted(d)
    && (d.instr.Blx? ==> Bit(d.hBit) && d.imm == SignExtended(Low24(p)) + 2 * d.hBit)
    && (d.instr.Pld? || d.instr.Pldw? || d.instr.Pli? ==> Bit(d.uBit) && !BarrierWord(p))
    && (d.instr.Mcr2? || d.instr.Mrc2? ==> d.opc1 < 8)
  }

  predicate ReadsMul(d: Darm, p: Word) {
    d.encoding.ArmMul? && EncodeMul(d, p) == Digits(p) && d == FormMul(d) && Bit(d.sBit)
  }

  predicate ReadsStack1(d: Darm, p: Word) {
    && d.encoding.ArmStack1? && EncodeHalf(d, 1, p) == Digits(p) && d == FormStack1(d)
    && d.pBit == 0 && Bit(d.uBit) && (d.instr.Strht? || d.instr.Ldrht? || d.instr.Ldrsbt? || d.instr.Ldrsht?)
  }

  predicate ReadsStack2(d: Darm, p: Word) {
    && d.encoding.ArmStack2? && EncodeHalf(d, d.wBit, p) == Digits(p) && d == FormStack2(d)
    && Bit(d.pBit) && Bit(d.uBit) && Bit(d.wBit) && (d.pBit == 0 ==> d.wBit == 0)
    && !(d.instr.Strht? || d.instr.Ldrht? || d.instr.Ldrsbt? || d.instr.Ldrsht?)
  }

  predicate ReadsSync(d: Darm, p: Word) {
    && d.encoding.ArmSync? && EncodeSync(d, p) == Digits(p) && d == FormSync(d)
    && (d.instr.Swp? ==> d.bBit == 0) && (d.instr.Swpb? ==> d.bBit == 1)
  }

  /** push and pop are the word transfers by four through sp. */
  predicate ReadsStack0(d: Darm, p: Word) {
    && d.encoding.ArmStack0? && EncodeStack0(d) == Digits(p) && d == FormStack0(d) && Shifted(d)
    && Bit(d.pBit) && Bit(d.uBit) && Bit(d.wBit)
    && (d.instr.Strt? || d.instr.Ldrt? || d.instr.Strbt? || d.instr.Ldrbt? <==> d.pBit == 0 && d.wBit == 1)
    && (d.instr.Str? ==> !(d.rn == SP && d.pBit == 1 && d.uBit == 0 && d.wBit == 1 && d.imm == 4))
    && (d.instr.Push? ==> d.rn == SP && d.pBit == 1 && d.uBit == 0 && d.wBit == 1 && d.imm == 4)
    && (d.instr.Ldr? ==> !(d.rn == SP && d.pBit == 0 && d.uBit == 1 && d.wBit == 0 && d.imm == 4))
    && (d.instr.Pop? ==> d.rn == SP && d.pBit == 0 && d.uBit == 1 && d.wBit == 0 && d.imm == 4)
  }

  predicate ReadsSat(d: Darm, p: Word) {
    d.encoding.ArmSat? && EncodeSat(d, p) == Digits(p) && d == FormThree(d, ArmSat)
  }

  /** An extension that adds has a register other than pc to add to. */
  predicate ReadsPusr(d: Darm, p: Word) {
    && d.encoding.ArmPusr? && EncodePusr(d, p) == Digits(p) && d == FormPusr(d)
    && (d.instr.Ssat? ==> 1 <= d.imm <= 32) && (d.instr.Usat? ==> d.imm < 32)
    && (d.instr.Ssat? || d.instr.Usat? ==> Shifted(d) && ShiftType(d) % 2 == 0)
    && (ExtendCode(d.instr) >= 0 ==> if ExtendAdds(d.instr) then d.rn != 15 else d.rn == NO_REG)
  }

  predicate ReadsArithShift(d: Darm, p: Word) {
    && d.encoding.ArmArithShift? && EncodeArithShift(d) == Digits(p) && d == FormArithShift(d) && Shifted(d)
    && Bit(d.sBit)
  }

  /** adr is add or sub of pc without setting the flags. */
  predicate ReadsArithImm(d: Darm, p: Word)
    requires ValidWord(p)
  {
    && d.encoding.ArmArithImm? && EncodeArithImm(d, p) == Digits(p) && d == FormArithImm(d)
    && d.imm == ExpandImm(Low12(p)) && Bit(d.sBit)
    && (d.instr.Adr? ==> d.rn == NO_REG && d.sBit == 0 && Bit(d.uBit))
    && (d.instr.Add? || d.instr.Sub? ==> d.rn != PC || d.sBit == 1)
  }

  predicate ReadsBits(d: Darm, p: Word) {
    && d.encoding.ArmBits? && EncodeBits(d, p) == Digits(p) && d == FormBits(d)
    && (d.instr.Sbfx? ==> 1 <= d.width <= 32) && (d.instr.Bfi? ==> d.rn != 15)
    && (d.instr.Bfi? || d.instr.Bfc? ==> (d.width + d.lsb - 1) % 0x1_0000_0000 < 32)
  }

  predicate ReadsBranch(d: Darm, p: Word) {
    d.encoding.ArmBrnchsc? && EncodeBranch(d) == Digits(p) && d == FormBranch(d)
  }

  predicate ReadsBranchMisc(d: Darm, p: Word) {
    d.encoding.ArmBrnchmisc? && EncodeBranchMisc(d, p) == Digits(p) && d == FormBranchMisc(d)
  }

  predicate ReadsMovImm(d: Darm, p: Word)
    requires ValidWord(p)
  {
    && d.encoding.ArmMovImm? && EncodeMovImm(d, p) == Digits(p) && d == FormMovImm(d)
    && (d.instr.Mov? || d.instr.Mvn? ==> d.imm == ExpandImm(Low12(p)) && Bit(d.sBit))
  }

  /** A shift by Rs with bit 7 set is left over only where no synchronization primitive is. */
  predicate ReadsCmpOp(d: Darm, p: Word) {
    && d.encoding.ArmCmpOp? && EncodeCmpOp(d, p) == Digits(p) && d == FormCmpOp(d) && Shifted(d)
    && (p.b7 == 1 && p.b4 == 1 ==> p.b6 == 0 && p.b5 == 0)
  }

  predicate ReadsCmpImm(d: Darm, p: Word)
    requires ValidWord(p)
  {
    && d.encoding.ArmCmpImm? && EncodeCmpImm(d, p) == Digits(p) && d == FormCmpImm(d)
    && d.imm == ExpandImm(Low12(p))
  }

  predicate ReadsOpless(d: Darm, p: Word) {
    d.encoding.ArmOpless? && EncodeOpless(d, p) == Digits(p) && d == Blank(d, ArmOpless)
  }

  /** mov is lsl by zero, nop is mov r0, r0, and rrx is ror by zero. */
  predicate ReadsDstSrc(d: Darm, p: Word) {
    && d.encoding.ArmDstSrc? && EncodeDstSrc(d, p) == Digits(p) && d == FormDstSrc(d) && Shifted(d)
    && ShiftType(d) == ShiftCode(d.instr) && Bit(d.sBit)
    && (d.instr.Nop? || d.instr.Mov? || d.instr.Rrx? ==> d.rn == NO_REG && d.shift == 0)
    && (d.instr.Lsl? || d.instr.Ror? ==> d.rn != NO_REG || d.shift != 0)
    && (d.instr.Nop? ==> d.rd == NO_REG && d.rm == NO_REG)
    && (d.instr.Mov? ==> d.rd != 0 || d.rm != 0)
  }

  /**
   * push is stmdb of sp with write-back. pop is ldm with write-back, whatever the base: the table
   * of labels holds pop for all of them.
   */
  predicate ReadsLdstregs(d: Darm, p: Word) {
    && d.encoding.ArmLdstregs? && EncodeLdstregs(d) == Digits(p) && d == FormLdstregs(d) && Bit(d.wBit)
    && (d.instr.Push? ==> d.wBit == 1 && d.rn == SP)
    && (d.instr.Stmdb? ==> d.wBit == 0 || d.rn != SP)
    && (d.instr.Pop? ==> d.wBit == 1)
    && (d.instr.Ldm? ==> d.wBit == 0)
  }

  /** What is left of the two rows beside the extensions and saturations. */
  predicate ReadsBitrev(d: Darm, p: Word) {
    && d.encoding.ArmBitrev? && EncodeBitrev(d, p) == Digits(p) && d == FormBitrev(d)
    && (d.instr.Rev16? || d.instr.Revsh? ==> Nibble4(p) == 11 || Nibble4(p) == 15)
  }

  predicate ReadsMisc(d: Darm, p: Word) {
    && d.encoding.ArmMisc? && EncodeMisc(d, p) == Digits(p) && d == FormMisc(d) && Shifted(d)
    && (d.instr.Mvn? ==> Bit(d.sBit)) && (d.instr.Pkh? ==> ShiftType(d) == 2 * d.tBit && Bit(d.tBit))
    && (d.instr.Sel? ==> Nibble4(p) != 7)
  }

  /** smlsd is told from smusd by Rn, where the source's own comment and the manual say Ra. */
  predicate ReadsSm(d: Darm, p: Word) {
    && d.encoding.ArmSm? && EncodeSm(d, p) == Digits(p) && d == FormSm(d)
    && (d.instr.Smul? || d.instr.Smla? || d.instr.Smlal? ==> Bit(d.mBit) && Bit(d.nBit))
    && (d.instr.Smla? || d.instr.Smlal? ==> !(p.b7 == 1 && p.b4 == 1) && Nibble4(p) != 5)
    && (d.instr.Smmul? || d.instr.Smmla? || d.instr.Smmls? ==> Bit(d.rBit))
    && (d.instr.Smusd? || d.instr.Smlsd? || d.instr.Smuad? || d.instr.Smlad? || d.instr.Smlsld? || d.instr.Smlald? ==>
         Bit(d.mBit))
    && (!(d.instr.Smul? || d.instr.Smla? || d.instr.Smlal?) ==> p.b4 == 1)
    && (d.instr.Smmul? || d.instr.Smuad? ==> d.ra == 15) && (d.instr.Smmla? || d.instr.Smlad? ==> d.ra != 15)
    && (d.instr.Smlsd? ==> d.rn != 15) && (d.instr.Smusd? ==> d.rn == 15)
  }

  predicate ReadsPas(d: Darm, p: Word) {
    d.encoding.ArmPas? && EncodePas(d, p) == Digits(p) && d == FormThree(d, ArmPas)
  }

  predicate ReadsMvcr(d: Darm, p: Word) {
    && d.encoding.ArmMvcr? && EncodeMvcr(d) == Digits(p) && d == FormMvcr(d)
    && (d.instr.Mcr? || d.instr.Mrc? ==> d.opc1 < 8)
  }

  predicate ReadsUdf(d: Darm, p: Word) {
    d.encoding.ArmUdf? && EncodeUdf(d, p) == Digits(p) && d == FormUdf(d) && p.b4 == 1
  }

  /** d accounts for every bit of p that its instruction reads. */
  predicate Represents(d: Darm, p: Word)
    requires ValidWord(p)
  {
    if p.cond == UNCONDITIONAL then ReadsUncond(d, p)
    else
      || ReadsMul(d, p) || ReadsStack1(d, p) || ReadsStack2(d, p) || ReadsSync(d, p) || ReadsStack0(d, p)
      || ReadsSat(d, p) || ReadsPusr(d, p) || ReadsArithShift(d, p) || ReadsArithImm(d, p) || ReadsBits(d, p)
      || ReadsBranch(d, p) || ReadsBranchMisc(d, p) || ReadsMovImm(d, p) || ReadsCmpOp(d, p) || ReadsCmpImm(d, p)
      || ReadsOpless(d, p) || ReadsDstSrc(d, p) || ReadsLdstregs(d, p) || ReadsBitrev(d, p) || ReadsMisc(d, p)
      || ReadsSm(d, p) || ReadsPas(d, p) || ReadsMvcr(d, p) || ReadsUdf(d, p)
  }

  /** A valid instruction with the condition of the word and every member in range. */
  predicate Sound(d: Darm, p: Word) {
    !d.instr.Invld? && d.cond == p.cond && InRange(d)
  }

  /** An instruction that is neither b nor bl. */
  predicate Plain(d: Darm, p: Word) {
    Sound(d, p) && !d.instr.B? && !d.instr.Bl?
  }

  /** A 24-bit number sign-extended to 30 bits and multiplied by four. */
  function SignExtended(f: int): int {
    if f >= 0x80_0000 then (0xff00_0000 + f) * 4 % 0x1_0000_0000 else f * 4
  }

  /** The labels b and bl belong to exactly the conditional words whose bits 24 to 27 are 1010 and 1011. */
  predicate BranchExact(d: Darm, p: Word) {
    && (d.instr.B? <==> p.cond != UNCONDITIONAL && 160 <= Op(p) < 176)
    && (d.instr.Bl? <==> p.cond != UNCONDITIONAL && 176 <= Op(p) < 192)
    && (d.instr.B? || d.instr.Bl? ==> d.imm == SignExtended(Low24(p)))
  }

  /** The type of a shift by nothing is blank. */
  predicate Settled(d: Darm) {
    !(d.shiftType == 0 && d.rs == NO_REG && d.shift == 0)
  }

  /** What a successful decoding of p promises. */
  predicate Correct(d: Darm, p: Word)
    requires ValidWord(p)
  {
    Sound(d, p) && Represents(d, p) && BranchExact(d, p)
  }

  /**
   * The words that the decoder refuses, by bits 20 to 27, bits 4 to 7 and the last digit:
   * encodings that its tables leave empty.
   */
  predicate Refused(op: int, nibble: int, a0: int) {
    || (nibble == 9 && (op == 5 || op == 7))                              // umaal and mls with the S bit
    || (nibble == 13 && (op == 2 || op == 6 || op == 10 || op == 14))     // no signed unprivileged store
    || (nibble == 15 && (op == 2 || op == 6 || op == 10 || op == 14))
    || (op == 18 && (nibble == 4 || nibble == 6 || nibble == 8 || nibble == 9 || nibble == 10 || nibble == 12 ||
                     nibble == 14))
    || (op == 22 && (nibble == 0 || nibble == 2 || nibble == 3 || nibble == 4 || nibble == 6 || nibble == 9))
    || (op == 50 && a0 % 8 >= 5) || op == 54
    || ((op == 96 || op == 100 || 113 <= op <= 115 || 118 <= op <= 121) && nibble % 2 == 1)
    || ((97 <= op <= 99 || 101 <= op <= 103) && (nibble == 11 || nibble == 13))
    || ((op == 105 || op == 109) && nibble % 2 == 1)
    || (op == 108 && nibble % 2 == 1 && nibble != 7)
    || ((op == 106 || op == 110) && (nibble == 11 || nibble == 15))
    || 132 <= op <= 135 || 140 <= op <= 143 || 148 <= op <= 151 || 156 <= op <= 159 || 192 <= op <= 223
  }

  predicate Undecodable(p: Word) {
    if p.cond == UNCONDITIONAL then 32 <= Op(p) < 64 || 128 <= Op(p) < 160 || 192 <= Op(p) < 224
    else Refused(Op(p), Nibble4(p), p.a0)
  }
}
