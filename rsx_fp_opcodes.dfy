/**
 * The RSX fragment-program opcode numbers, and which of them fit the 6-bit
 * `opcode` field of instruction word 0.
 */
module RsxFpOpcodes {
  import RsxFp

  /** The `RSX_FP_OPCODE_*` constants. */
  const NOP: bv32 := 0x00
  const MOV: bv32 := 0x01
  const MUL: bv32 := 0x02
  const ADD: bv32 := 0x03
  const MAD: bv32 := 0x04
  const DP3: bv32 := 0x05
  const DP4: bv32 := 0x06
  const DST: bv32 := 0x07
  const MIN: bv32 := 0x08
  const MAX: bv32 := 0x09
  const SLT: bv32 := 0x0A
  const SGE: bv32 := 0x0B
  const SLE: bv32 := 0x0C
  const SGT: bv32 := 0x0D
  const SNE: bv32 := 0x0E
  const SEQ: bv32 := 0x0F
  const FRC: bv32 := 0x10
  const FLR: bv32 := 0x11
  const KIL: bv32 := 0x12
  const PK4: bv32 := 0x13
  const UP4: bv32 := 0x14
  const DDX: bv32 := 0x15
  const DDY: bv32 := 0x16
  const TEX: bv32 := 0x17
  const TXP: bv32 := 0x18
  const TXD: bv32 := 0x19
  const RCP: bv32 := 0x1A
  const RSQ: bv32 := 0x1B
  const EX2: bv32 := 0x1C
  const LG2: bv32 := 0x1D
  const LIT: bv32 := 0x1E
  const LRP: bv32 := 0x1F
  const STR: bv32 := 0x20
  const SFL: bv32 := 0x21
  const COS: bv32 := 0x22
  const SIN: bv32 := 0x23
  const PK2: bv32 := 0x24
  const UP2: bv32 := 0x25
  const POW: bv32 := 0x26
  const PKB: bv32 := 0x27
  const UPB: bv32 := 0x28
  const PK16: bv32 := 0x29
  const UP16: bv32 := 0x2A
  const BEM: bv32 := 0x2B
  const PKG: bv32 := 0x2C
  const UPG: bv32 := 0x2D
  const DP2A: bv32 := 0x2E
  const TXL: bv32 := 0x2F
  const TXB: bv32 := 0x31
  const TEXBEM: bv32 := 0x33
  const TXPBEM: bv32 := 0x34
  const BEMLUM: bv32 := 0x35
  const REFL: bv32 := 0x36
  const TIMESWTEX: bv32 := 0x37
  const DP2: bv32 := 0x38
  const NRM: bv32 := 0x39
  const DIV: bv32 := 0x3A
  const DIVSQ: bv32 := 0x3B
  const LIF: bv32 := 0x3C
  const FENCT: bv32 := 0x3D
  const FENCB: bv32 := 0x3E
  const BRK: bv32 := 0x40
  const CAL: bv32 := 0x41
  const IFE: bv32 := 0x42
  const LOOP: bv32 := 0x43
  const REP: bv32 := 0x44
  const RET: bv32 := 0x45

  /**
   * The opcodes strictly increase in declaration order, so no two of them
   * share a value; 0x30, 0x32 and 0x3F are skipped.
   */
  lemma OpcodesAscending()
    ensures NOP < MOV < MUL < ADD < MAD < DP3 < DP4 < DST
         < MIN < MAX < SLT < SGE < SLE < SGT < SNE < SEQ
         < FRC < FLR < KIL < PK4 < UP4 < DDX < DDY < TEX
         < TXP < TXD < RCP < RSQ < EX2 < LG2 < LIT < LRP
         < STR < SFL < COS < SIN < PK2 < UP2 < POW < PKB
         < UPB < PK16 < UP16 < BEM < PKG < UPG < DP2A < TXL
         < TXB < TEXBEM < TXPBEM < BEMLUM < REFL < TIMESWTEX < DP2 < NRM
         < DIV < DIVSQ < LIF < FENCT < FENCB < BRK < CAL < IFE
         < LOOP < REP < RET
  {
  }

  /** Every opcode up to FENCB (0x3E) fits the 6-bit `opcode` field and reads back unchanged. */
  lemma OpcodeFits(i: RsxFp.Instruction, op: bv32)
    requires op <= FENCB
    ensures RsxFp.Opcode(RsxFp.SetOpcode(i, op)) == op
  {
    RsxFp.OpcodeFieldRoundTrip(i, op);
  }

  /**
   * The flow-control opcodes BRK, CAL, IFE, LOOP, REP and RET (0x40 to 0x45)
   * do not fit the field: stored there, they read back as NOP, MOV, MUL,
   * ADD, MAD and DP3.
   */
  lemma FlowControlDoesNotFit(i: RsxFp.Instruction)
    ensures RsxFp.Opcode(RsxFp.SetOpcode(i, BRK)) == NOP
    ensures RsxFp.Opcode(RsxFp.SetOpcode(i, CAL)) == MOV
    ensures RsxFp.Opcode(RsxFp.SetOpcode(i, IFE)) == MUL
    ensures RsxFp.Opcode(RsxFp.SetOpcode(i, LOOP)) == ADD
    ensures RsxFp.Opcode(RsxFp.SetOpcode(i, REP)) == MAD
    ensures RsxFp.Opcode(RsxFp.SetOpcode(i, RET)) == DP3
  {
    RsxFp.OpcodeFieldRoundTrip(i, BRK);
    RsxFp.OpcodeFieldRoundTrip(i, CAL);
    RsxFp.OpcodeFieldRoundTrip(i, IFE);
    RsxFp.OpcodeFieldRoundTrip(i, LOOP);
    RsxFp.OpcodeFieldRoundTrip(i, REP);
    RsxFp.OpcodeFieldRoundTrip(i, RET);
  }
}
