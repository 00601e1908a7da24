/** The lookup tables of the ARMv7 disassembler (armv7-tbl.c), as functions of the index. */
module Armv7Tables {
  /** The instruction labels that the ARM tables and the decoder use. */
  datatype Instr =
    | Invld | Adc | Add | Adr | And | Asr | B | Bfc | Bfi | Bic | Bkpt | Bl | Blx | Bx | Bxj | Cdp | Cdp2
    | Clrex | Clz | Cmn | Cmp | Dbg | Dmb | Dsb | Eor | Isb | Ldm | Ldmda | Ldmdb | Ldmib | Ldr | Ldrb | Ldrbt
    | Ldrd | Ldrex | Ldrexb | Ldrexd | Ldrexh | Ldrh | Ldrht | Ldrsb | Ldrsbt | Ldrsh | Ldrsht | Ldrt | Lsl |
    Lsr | Mcr | Mcr2 | Mla | Mls | Mov | Movt | Movw | Mrc | Mrc2 | Msr | Mul | Mvn | Nop | Orr | Pkh | Pld |
    Pldw | Pli | Pop | Push | Qadd | Qadd16 | Qadd8 | Qasx | Qdadd | Qdsub | Qsax | Qsub | Qsub16 | Qsub8 |
    Rbit | Rev | Rev16 | Revsh | Ror | Rrx | Rsb | Rsc | Sadd16 | Sadd8 | Sasx | Sbc | Sbfx | Sel | Setend |
    Sev | Shadd16 | Shadd8 | Shasx | Shsax | Shsub16 | Shsub8 | Smc | Smla | Smlad | Smlal | Smlald | Smlaw |
    Smlsd | Smlsld | Smmla | Smmls | Smmul | Smuad | Smul | Smull | Smulw | Smusd | Ssat | Ssat16 | Ssax |
    Ssub16 | Ssub8 | Stm | Stmda | Stmdb | Stmib | Str | Strb | Strbt | Strd | Strex | Strexb | Strexd |
    Strexh | Strh | Strht | Strt | Sub | Svc | Swp | Swpb | Sxtab | Sxtab16 | Sxtah | Sxtb | Sxtb16 | Sxth |
    Teq | Tst | Uadd16 | Uadd8 | Uasx | Ubfx | Udf | Uhadd16 | Uhadd8 | Uhasx | Uhsax | Uhsub16 | Uhsub8 |
    Umaal | Umlal | Umull | Uqadd16 | Uqadd8 | Uqasx | Uqsax | Uqsub16 | Uqsub8 | Usat | Usat16 | Usax |
    Usub16 | Usub8 | Uxtab | Uxtab16 | Uxtah | Uxtb | Uxtb16 | Uxth | Wfe | Wfi | Yield

  datatype Encoding =
    | NoEncoding | ArmArithImm | ArmArithShift | ArmBitrev | ArmBits | ArmBrnchmisc | ArmBrnchsc | ArmCmpImm |
    ArmCmpOp | ArmDstSrc | ArmLdstregs | ArmMisc | ArmMovImm | ArmMul | ArmMvcr | ArmOpless | ArmPas | ArmPusr
    | ArmSat | ArmSm | ArmStack0 | ArmStack1 | ArmStack2 | ArmSync | ArmUdf | ArmUncond

  /** armv7_instr_types, by bits 20 to 27 */
  function EncodingAt(i: int): Encoding
    requires 0 <= i < 256
  {
    if 0 <= i <= 15 || 24 <= i <= 25 || 28 <= i <= 29 then ArmArithShift
    else if i == 16 || i == 20 || i == 112 || 116 <= i <= 117 then ArmSm
    else if i == 17 || i == 19 || i == 21 || i == 23 then ArmCmpOp
    else if i == 18 then ArmBrnchmisc
    else if i == 22 || 30 <= i <= 31 || i == 104 then ArmMisc
    else if 26 <= i <= 27 then ArmDstSrc
    else if 32 <= i <= 47 || 56 <= i <= 57 || 60 <= i <= 61 then ArmArithImm
    else if i == 48 || i == 52 || 58 <= i <= 59 || 62 <= i <= 63 then ArmMovImm
    else if i == 49 || i == 51 || i == 53 || i == 55 then ArmCmpImm
    else if i == 50 then ArmOpless
    else if 97 <= i <= 99 || 101 <= i <= 103 then ArmPas
    else if i == 107 || i == 111 then ArmBitrev
    else if 122 <= i <= 126 then ArmBits
    else if i == 127 then ArmUdf
    else if 128 <= i <= 131 || 136 <= i <= 139 || 144 <= i <= 147 || 152 <= i <= 155 then ArmLdstregs
    else if 160 <= i <= 191 || 240 <= i <= 255 then ArmBrnchsc
    else if 224 <= i <= 239 then ArmMvcr
    else NoEncoding
  }

  /** armv7_instr_labels, by bits 20 to 27 */
  function LabelAt(i: int): Instr
    requires 0 <= i < 256
  {
    if 0 <= i <= 1 || 32 <= i <= 33 then And
    else if 2 <= i <= 3 || 34 <= i <= 35 then Eor
    else if 4 <= i <= 5 || 36 <= i <= 37 then Sub
    else if 6 <= i <= 7 || 38 <= i <= 39 then Rsb
    else if 8 <= i <= 9 || 40 <= i <= 41 then Add
    else if 10 <= i <= 11 || 42 <= i <= 43 then Adc
    else if 12 <= i <= 13 || 44 <= i <= 45 then Sbc
    else if 14 <= i <= 15 || 46 <= i <= 47 then Rsc
    else if i == 16 then Smla
    else if i == 17 || i == 49 then Tst
    else if i == 18 then Smulw
    else if i == 19 || i == 51 then Teq
    else if i == 20 then Smlal
    else if i == 21 || i == 53 then Cmp
    else if i == 22 then Smc
    else if i == 23 || i == 55 then Cmn
    else if 24 <= i <= 25 || 56 <= i <= 57 then Orr
    else if i == 26 then Strexd
    else if i == 27 then Rrx
    else if 28 <= i <= 29 || 60 <= i <= 61 then Bic
    else if 30 <= i <= 31 || 62 <= i <= 63 then Mvn
    else if i == 48 then Movw
    else if i == 50 then Yield
    else if i == 52 then Movt
    else if 58 <= i <= 59 then Mov
    else if i == 97 then Ssub8
    else if i == 98 then Qsub8
    else if i == 99 then Shsub8
    else if i == 101 then Usub8
    else if i == 102 then Uqsub8
    else if i == 103 then Uhsub8
    else if i == 104 then Sel
    else if i == 107 then Rev16
    else if i == 111 then Revsh
    else if i == 112 then Smusd
    else if i == 116 then Smlsld
    else if i == 117 then Smmul
    else if 122 <= i <= 123 then Sbfx
    else if 124 <= i <= 125 then Bfi
    else if i == 126 then Ubfx
    else if i == 127 then Udf
    else if i == 128 || i == 130 then Stmda
    else if i == 129 || i == 131 then Ldmda
    else if i == 136 || i == 138 then Stm
    else if i == 137 then Ldm
    else if i == 139 then Pop
    else if i == 144 || i == 146 then Stmdb
    else if i == 145 || i == 147 then Ldmdb
    else if i == 152 || i == 154 then Stmib
    else if i == 153 || i == 155 then Ldmib
    else if 160 <= i <= 175 then B
    else if 176 <= i <= 191 then Bl
    else if i == 224 || i == 226 || i == 228 || i == 230 || i == 232 || i == 234 || i == 236 || i == 238 then Mcr
    else if i == 225 || i == 227 || i == 229 || i == 231 || i == 233 || i == 235 || i == 237 || i == 239 then Mrc
    else if 240 <= i <= 255 then Svc
    else Invld
  }

  /** type_shift_instr_lookup */
  function ShiftLabel(i: int): Instr
    requires 0 <= i < 16
  {
    if 0 <= i <= 1 || i == 8 then Lsl
    else if 2 <= i <= 3 || i == 10 then Lsr
    else if 4 <= i <= 5 || i == 12 then Asr
    else if 6 <= i <= 7 || i == 14 then Ror
    else Invld
  }

  /** type_brnchmisc_instr_lookup */
  function BranchMiscLabel(i: int): Instr
    requires 0 <= i < 16
  {
    if i == 0 then Msr
    else if i == 1 then Bx
    else if i == 2 then Bxj
    else if i == 3 then Blx
    else if i == 5 then Qsub
    else if i == 7 then Bkpt
    else if i == 8 || i == 12 then Smlaw
    else if i == 10 || i == 14 then Smulw
    else Invld
  }

  /** type_opless_instr_lookup */
  function OplessLabel(i: int): Instr
    requires 0 <= i < 8
  {
    if i == 0 then Nop
    else if i == 1 then Yield
    else if i == 2 then Wfe
    else if i == 3 then Wfi
    else if i == 4 then Sev
    else Invld
  }

  /** type_uncond2_instr_lookup */
  function Uncond2Label(i: int): Instr
    requires 0 <= i < 8
  {
    if i == 1 then Clrex
    else if i == 4 then Dsb
    else if i == 5 then Dmb
    else if i == 6 then Isb
    else Invld
  }

  /** type_mul_instr_lookup */
  function MulLabel(i: int): Instr
    requires 0 <= i < 8
  {
    if i == 0 then Mul
    else if i == 1 then Mla
    else if i == 2 then Umaal
    else if i == 3 then Mls
    else if i == 4 then Umull
    else if i == 5 then Umlal
    else if i == 6 then Smull
    else Smlal
  }

  /** type_stack0_instr_lookup */
  function Stack0Label(i: int): Instr
    requires 0 <= i < 32
  {
    if i == 0 || i == 8 || i == 16 || i == 18 || i == 24 || i == 26 then Str
    else if i == 1 || i == 9 || i == 17 || i == 19 || i == 25 || i == 27 then Ldr
    else if i == 2 || i == 10 then Strt
    else if i == 3 || i == 11 then Ldrt
    else if i == 4 || i == 12 || i == 20 || i == 22 || i == 28 || i == 30 then Strb
    else if i == 6 || i == 14 then Strbt
    else if i == 7 || i == 15 then Ldrbt
    else Ldrb
  }

  /** type_stack1_instr_lookup */
  function Stack1Label(i: int): Instr
    requires 0 <= i < 8
  {
    if i == 2 then Strht
    else if i == 3 then Ldrht
    else if i == 5 then Ldrsbt
    else if i == 7 then Ldrsht
    else Invld
  }

  /** type_stack2_instr_lookup */
  function Stack2Label(i: int): Instr
    requires 0 <= i < 8
  {
    if i == 2 then Strh
    else if i == 3 then Ldrh
    else if i == 4 then Ldrd
    else if i == 5 then Ldrsb
    else if i == 6 then Strd
    else if i == 7 then Ldrsh
    else Invld
  }

  /** type_bits_instr_lookup */
  function BitsLabel(i: int): Instr
    requires 0 <= i < 4
  {
    if i == 1 then Sbfx
    else if i == 2 then Bfi
    else if i == 3 then Ubfx
    else Invld
  }

  /** type_pas_instr_lookup */
  function PasLabel(i: int): Instr
    requires 0 <= i < 64
  {
    if i == 8 then Sadd16
    else if i == 9 then Sasx
    else if i == 10 then Ssax
    else if i == 11 then Ssub16
    else if i == 12 then Sadd8
    else if i == 15 then Ssub8
    else if i == 16 then Qadd16
    else if i == 17 then Qasx
    else if i == 18 then Qsax
    else if i == 19 then Qsub16
    else if i == 20 then Qadd8
    else if i == 23 then Qsub8
    else if i == 24 then Shadd16
    else if i == 25 then Shasx
    else if i == 26 then Shsax
    else if i == 27 then Shsub16
    else if i == 28 then Shadd8
    else if i == 31 then Shsub8
    else if i == 40 then Uadd16
    else if i == 41 then Uasx
    else if i == 42 then Usax
    else if i == 43 then Usub16
    else if i == 44 then Uadd8
    else if i == 47 then Usub8
    else if i == 48 then Uqadd16
    else if i == 49 then Uqasx
    else if i == 50 then Uqsax
    else if i == 51 then Uqsub16
    else if i == 52 then Uqadd8
    else if i == 55 then Uqsub8
    else if i == 56 then Uhadd16
    else if i == 57 then Uhasx
    else if i == 58 then Uhsax
    else if i == 59 then Uhsub16
    else if i == 60 then Uhadd8
    else if i == 63 then Uhsub8
    else Invld
  }

  /** type_sat_instr_lookup */
  function SatLabel(i: int): Instr
    requires 0 <= i < 4
  {
    if i == 0 then Qadd
    else if i == 1 then Qsub
    else if i == 2 then Qdadd
    else Qdsub
  }

  /** type_sync_instr_lookup */
  function SyncLabel(i: int): Instr
    requires 0 <= i < 16
  {
    if i == 0 then Swp
    else if i == 4 then Swpb
    else if i == 8 then Strex
    else if i == 9 then Ldrex
    else if i == 10 then Strexd
    else if i == 11 then Ldrexd
    else if i == 12 then Strexb
    else if i == 13 then Ldrexb
    else if i == 14 then Strexh
    else if i == 15 then Ldrexh
    else Invld
  }

  /** type_pusr_instr_lookup */
  function PusrLabel(i: int): Instr
    requires 0 <= i < 16
  {
    if i == 0 then Sxtab16
    else if i == 1 then Sxtb16
    else if i == 4 then Sxtab
    else if i == 5 then Sxtb
    else if i == 6 then Sxtah
    else if i == 7 then Sxth
    else if i == 8 then Uxtab16
    else if i == 9 then Uxtb16
    else if i == 12 then Uxtab
    else if i == 13 then Uxtb
    else if i == 14 then Uxtah
    else if i == 15 then Uxth
    else Invld
  }
}
