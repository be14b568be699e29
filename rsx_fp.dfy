/**
 * The RSX fragment-program instruction layout: the `FIELD(from, to)` bit
 * fields of the four instruction words, the source-operand word, the
 * byte/half-word remap a word needs before its fields can be read, and how
 * opcode values fare in the 6-bit `opcode` field.
 *
 * `FIELD(from, to, type)` is a struct of three unnamed bit fields: `32-to-1`
 * padding bits, the named field of `to-from+1` bits, then `from` padding
 * bits. Bit fields are allocated from the least significant bit, so the
 * named field occupies bits `31-to` to `31-from` of the word, counted from
 * the least significant bit: `from` and `to` number the bits from the most
 * significant end.
 */
module RsxFp {

  // ---------------------------------------------------------------------
  // The FIELD macro
  // ---------------------------------------------------------------------

  /** The three parts of `FIELD(from, to)`, from the least significant bit up. */
  datatype FieldLayout = FieldLayout(padBelow: nat, width: nat, padAbove: nat)

  function Layout(from: nat, to: nat): (l: FieldLayout)
    requires from <= to < 32
    ensures l.padBelow + l.width + l.padAbove == 32
    ensures l.width >= 1 && l.padBelow == 31 - to && l.padBelow + l.width - 1 == 31 - from
  {
    FieldLayout(32 - to - 1, to - from + 1, from)
  }

  /** The low `width` bits set. */
  function Ones(width: bv32): bv32
    requires width <= 32
  {
    !(0xFFFF_FFFF << width)
  }

  /** Reading a `width`-bit field stored `offset` bits above the least significant bit. */
  function Extract(w: bv32, offset: bv32, width: bv32): bv32
    requires offset <= 32 && width <= 32 - offset
  {
    (w >> offset) & Ones(width)
  }

  /** Writing the low `width` bits of `v` into that field, leaving every other bit of `w`. */
  function Insert(w: bv32, offset: bv32, width: bv32, v: bv32): bv32
    requires offset <= 32 && width <= 32 - offset
  {
    (w & !(Ones(width) << offset)) | ((v & Ones(width)) << offset)
  }

  /**
   * The value `FIELD(from, to)` reads from a word: the `to - from + 1` bits
   * that sit above a padding of `31 - to` bits, as `Layout` lays them out.
   */
  function FieldValue(w: bv32, from: bv32, to: bv32): bv32
    requires from <= to < 32
  {
    Extract(w, 31 - to, to - from + 1)
  }

  // ---------------------------------------------------------------------
  // rsx_fp_instruction_t
  // ---------------------------------------------------------------------

  /** The four words of one fragment-program instruction (`word[4]`). */
  datatype Instruction = Instruction(word0: bv32, word1: bv32, word2: bv32, word3: bv32)

  /** `saturate`: `FIELD(0, 0)` of word 0, bit 31. */
  function Saturate(i: Instruction): bv32
  {
    Extract(i.word0, 31, 1)
  }

  /** `opcode`: `FIELD(2, 7)` of word 0, bits 24 to 29. */
  function Opcode(i: Instruction): bv32
  {
    Extract(i.word0, 24, 6)
  }

  /** Assigning `opcode`. */
  function SetOpcode(i: Instruction, v: bv32): Instruction
  {
    i.(word0 := Insert(i.word0, 24, 6, v))
  }

  /** `tex`: `FIELD(10, 13)` of word 0, bits 18 to 21. */
  function Tex(i: Instruction): bv32
  {
    Extract(i.word0, 18, 4)
  }

  /** `input_index`: `FIELD(15, 18)` of word 0, bits 13 to 16, the input attribute register index. */
  function InputIndex(i: Instruction): bv32
  {
    Extract(i.word0, 13, 4)
  }

  /** `dst_mask`: `FIELD(19, 22)` of word 0, bits 9 to 12. */
  function DstMask(i: Instruction): bv32
  {
    Extract(i.word0, 9, 4)
  }

  /** `dst_half`: `FIELD(24, 24)` of word 0, bit 7, the half-precision flag. */
  function DstHalf(i: Instruction): bv32
  {
    Extract(i.word0, 7, 1)
  }

  /** `dst_index`: `FIELD(25, 30)` of word 0, bits 1 to 6, the destination register index. */
  function DstIndex(i: Instruction): bv32
  {
    Extract(i.word0, 1, 6)
  }

  /** `end`: `FIELD(31, 31)` of word 0, bit 0, the last-instruction flag. */
  function End(i: Instruction): bv32
  {
    Extract(i.word0, 0, 1)
  }

  /**
   * Each word-0 getter reads the field its `FIELD(from, to)` declaration lays
   * out: the offset is the padding below the field and the width its own
   * bits, and reading that span is masking word 0 with the field's bits and
   * shifting them down.
   */
  lemma Word0Layouts(i: Instruction)
    ensures Layout(0, 0) == FieldLayout(31, 1, 0)
    ensures Saturate(i) == FieldValue(i.word0, 0, 0) == (i.word0 & SaturateBits) >> 31
    ensures Layout(2, 7) == FieldLayout(24, 6, 2)
    ensures Opcode(i) == FieldValue(i.word0, 2, 7) == (i.word0 & OpcodeBits) >> 24
    ensures Layout(10, 13) == FieldLayout(18, 4, 10)
    ensures Tex(i) == FieldValue(i.word0, 10, 13) == (i.word0 & TexBits) >> 18
    ensures Layout(15, 18) == FieldLayout(13, 4, 15)
    ensures InputIndex(i) == FieldValue(i.word0, 15, 18) == (i.word0 & InputIndexBits) >> 13
    ensures Layout(19, 22) == FieldLayout(9, 4, 19)
    ensures DstMask(i) == FieldValue(i.word0, 19, 22) == (i.word0 & DstMaskBits) >> 9
    ensures Layout(24, 24) == FieldLayout(7, 1, 24)
    ensures DstHalf(i) == FieldValue(i.word0, 24, 24) == (i.word0 & DstHalfBits) >> 7
    ensures Layout(25, 30) == FieldLayout(1, 6, 25)
    ensures DstIndex(i) == FieldValue(i.word0, 25, 30) == (i.word0 & DstIndexBits) >> 1
    ensures Layout(31, 31) == FieldLayout(0, 1, 31)
    ensures End(i) == FieldValue(i.word0, 31, 31) == (i.word0 & EndBits) >> 0
  {
    SaturateField(i);
    OpcodeField(i);
    TexField(i);
    InputIndexField(i);
    DstMaskField(i);
    DstHalfField(i);
    DstIndexField(i);
    EndField(i);
  }

  lemma SaturateField(i: Instruction)
    ensures Saturate(i) == FieldValue(i.word0, 0, 0) == (i.word0 & SaturateBits) >> 31
  {
  }

  lemma OpcodeField(i: Instruction)
    ensures Opcode(i) == FieldValue(i.word0, 2, 7) == (i.word0 & OpcodeBits) >> 24
  {
  }

  lemma TexField(i: Instruction)
    ensures Tex(i) == FieldValue(i.word0, 10, 13) == (i.word0 & TexBits) >> 18
  {
  }

  lemma InputIndexField(i: Instruction)
    ensures InputIndex(i) == FieldValue(i.word0, 15, 18) == (i.word0 & InputIndexBits) >> 13
  {
  }

  lemma DstMaskField(i: Instruction)
    ensures DstMask(i) == FieldValue(i.word0, 19, 22) == (i.word0 & DstMaskBits) >> 9
  {
  }

  lemma DstHalfField(i: Instruction)
    ensures DstHalf(i) == FieldValue(i.word0, 24, 24) == (i.word0 & DstHalfBits) >> 7
  {
  }

  lemma DstIndexField(i: Instruction)
    ensures DstIndex(i) == FieldValue(i.word0, 25, 30) == (i.word0 & DstIndexBits) >> 1
  {
  }

  lemma EndField(i: Instruction)
    ensures End(i) == FieldValue(i.word0, 31, 31) == (i.word0 & EndBits) >> 0
  {
  }

  /** Each field reads a value its width can hold. */
  lemma Word0Bounds(i: Instruction)
    ensures Saturate(i) <= 0x1
    ensures Opcode(i) <= 0x3F
    ensures Tex(i) <= 0xF
    ensures InputIndex(i) <= 0xF
    ensures DstMask(i) <= 0xF
    ensures DstHalf(i) <= 0x1
    ensures DstIndex(i) <= 0x3F
    ensures End(i) <= 0x1
  {
  }

  /**
   * Bits 30, 23, 22, 17 and 8 of word 0 lie between the fields: whatever
   * they hold, every field reads the same.
   */
  lemma Word0Gaps(i: Instruction, x: bv32)
    ensures var j := i.(word0 := (i.word0 & !0x40C2_0100) | (x & 0x40C2_0100));
      Saturate(j) == Saturate(i) &&
      Opcode(j) == Opcode(i) &&
      Tex(j) == Tex(i) &&
      InputIndex(j) == InputIndex(i) &&
      DstMask(j) == DstMask(i) &&
      DstHalf(j) == DstHalf(i) &&
      DstIndex(j) == DstIndex(i) &&
      End(j) == End(i)
  {
  }

  /** The bits of word 0 each field occupies. */
  const SaturateBits: bv32 := 0x8000_0000
  const OpcodeBits: bv32 := 0x3F00_0000
  const TexBits: bv32 := 0x003C_0000
  const InputIndexBits: bv32 := 0x0001_E000
  const DstMaskBits: bv32 := 0x0000_1E00
  const DstHalfBits: bv32 := 0x0000_0080
  const DstIndexBits: bv32 := 0x0000_007E
  const EndBits: bv32 := 0x0000_0001

  /** Each field's bits are the `width` bits from its offset up. */
  lemma Word0Masks()
    ensures SaturateBits == Ones(1) << 31
    ensures OpcodeBits == Ones(6) << 24
    ensures TexBits == Ones(4) << 18
    ensures InputIndexBits == Ones(4) << 13
    ensures DstMaskBits == Ones(4) << 9
    ensures DstHalfBits == Ones(1) << 7
    ensures DstIndexBits == Ones(6) << 1
    ensures EndBits == Ones(1) << 0
  {
  }

  /** No two word-0 fields share a bit. */
  lemma Word0Disjoint()
    ensures SaturateBits & OpcodeBits == 0 && SaturateBits & TexBits == 0 &&
      SaturateBits & InputIndexBits == 0 && SaturateBits & DstMaskBits == 0 &&
      SaturateBits & DstHalfBits == 0 && SaturateBits & DstIndexBits == 0 &&
      SaturateBits & EndBits == 0
    ensures OpcodeBits & TexBits == 0 && OpcodeBits & InputIndexBits == 0 &&
      OpcodeBits & DstMaskBits == 0 && OpcodeBits & DstHalfBits == 0 &&
      OpcodeBits & DstIndexBits == 0 && OpcodeBits & EndBits == 0
    ensures TexBits & InputIndexBits == 0 && TexBits & DstMaskBits == 0 &&
      TexBits & DstHalfBits == 0 && TexBits & DstIndexBits == 0 && TexBits & EndBits == 0
    ensures InputIndexBits & DstMaskBits == 0 && InputIndexBits & DstHalfBits == 0 &&
      InputIndexBits & DstIndexBits == 0 && InputIndexBits & EndBits == 0
    ensures DstMaskBits & DstHalfBits == 0 && DstMaskBits & DstIndexBits == 0 &&
      DstMaskBits & EndBits == 0
    ensures DstHalfBits & DstIndexBits == 0 && DstHalfBits & EndBits == 0
    ensures DstIndexBits & EndBits == 0
  {
  }

  /** Every word-0 bit but 30, 23, 22, 17 and 8 belongs to a field. */
  lemma Word0Coverage()
    ensures SaturateBits | OpcodeBits | TexBits | InputIndexBits | DstMaskBits
      | DstHalfBits | DstIndexBits | EndBits == !0x40C2_0100
  {
  }

  /**
   * Assigning `opcode` stores the value's low 6 bits, which read back, and
   * changes no bit of word 0 outside the field.
   */
  lemma SetOpcodeEffect(i: Instruction, v: bv32)
    ensures Opcode(SetOpcode(i, v)) == v & 0x3F
    ensures SetOpcode(i, v).word0 & !OpcodeBits == i.word0 & !OpcodeBits
  {
  }

  /** `word1`: `FIELD(0, 31)` of word 1, the whole word. */
  function Word1(i: Instruction): bv32
  {
    Extract(i.word1, 0, 32)
  }

  /** `type`: `FIELD(29, 31)` of word 2, its three low bits. */
  function ProgramType(i: Instruction): bv32
  {
    Extract(i.word2, 0, 3)
  }

  /** `end_offset`: `FIELD(0, 31)` of word 3, the whole word. */
  function EndOffset(i: Instruction): bv32
  {
    Extract(i.word3, 0, 32)
  }

  /**
   * `FIELD(0, 31)` is the whole word, so `word1` and `end_offset` read their
   * word unchanged; `FIELD(29, 31)` is the low three bits, so `type` reads
   * the low three bits of word 2.
   */
  lemma OtherWordFields(i: Instruction)
    ensures Layout(0, 31) == FieldLayout(0, 32, 0) && Layout(29, 31) == FieldLayout(0, 3, 29)
    ensures Word1(i) == i.word1 && EndOffset(i) == i.word3
    ensures ProgramType(i) == i.word2 & 0x7 && ProgramType(i) < 8
  {
  }

  // ---------------------------------------------------------------------
  // The byte remap of the NOTE on rsx_fp_instruction_t
  // ---------------------------------------------------------------------

  /** [A,B,C,D] -> [D,C,B,A] */
  function ReverseBytes(b: seq<bv8>): (r: seq<bv8>)
    requires |b| == 4
    ensures |r| == 4 && forall k :: 0 <= k < 4 ==> r[k] == b[3 - k]
  {
    [b[3], b[2], b[1], b[0]]
  }

  /** Exchanging the two half-words: [P,Q,R,S] -> [R,S,P,Q]. */
  function SwapHalfWords(b: seq<bv8>): (r: seq<bv8>)
    requires |b| == 4
    ensures |r| == 4 && forall k :: 0 <= k < 4 ==> r[k] == b[(k + 2) % 4]
  {
    b[2..] + b[..2]
  }

  /** The remap as documented: reverse the bytes, then swap the half-words. */
  function Remap(b: seq<bv8>): (r: seq<bv8>)
    requires |b| == 4
    ensures |r| == 4
  {
    SwapHalfWords(ReverseBytes(b))
  }

  /** Swapping the two bytes inside each half-word: [A,B,C,D] -> [B,A,D,C]. */
  function SwapWithinHalfWords(b: seq<bv8>): (r: seq<bv8>)
    requires |b| == 4
    ensures |r| == 4
  {
    [b[1], b[0], b[3], b[2]]
  }

  /** The documented two-step remap is the swap within half-words. */
  lemma RemapSwapsWithinHalfWords(b: seq<bv8>)
    requires |b| == 4
    ensures Remap(b) == SwapWithinHalfWords(b)
  {
    var r := Remap(b);
    assert r[0] == b[1] && r[1] == b[0] && r[2] == b[3] && r[3] == b[2];
  }

  /** Remapping twice restores the bytes. */
  lemma RemapInvolution(b: seq<bv8>)
    requires |b| == 4
    ensures Remap(Remap(b)) == b
  {
    RemapSwapsWithinHalfWords(b);
    RemapSwapsWithinHalfWords(Remap(b));
  }

  /** The same remap on a whole 32-bit word: reverse its bytes, then exchange its half-words. */
  function RemapWord(w: bv32): bv32
  {
    var reversed := (w << 24) | ((w & 0xFF00) << 8) | ((w >> 8) & 0xFF00) | (w >> 24);
    (reversed << 16) | (reversed >> 16)
  }

  /** Swapping the two bytes inside each half-word of a 32-bit word. */
  function SwapBytesInHalfWords(w: bv32): bv32
  {
    ((w & 0x00FF_00FF) << 8) | ((w >> 8) & 0x00FF_00FF)
  }

  /** On words too the documented remap is the swap within half-words, and it is an involution. */
  lemma RemapWordSwapsWithinHalfWords(w: bv32)
    ensures RemapWord(w) == SwapBytesInHalfWords(w)
    ensures RemapWord(RemapWord(w)) == w
  {
  }

  /** The byte at position k of the word, most significant byte first. */
  function ByteOf(w: bv32, k: nat): bv8
    requires k < 4
  {
    (if k == 0 then w >> 24 else if k == 1 then (w >> 16) & 0xFF
     else if k == 2 then (w >> 8) & 0xFF else w & 0xFF) as bv8
  }

  function BytesOf(w: bv32): (b: seq<bv8>)
    ensures |b| == 4
  {
    [ByteOf(w, 0), ByteOf(w, 1), ByteOf(w, 2), ByteOf(w, 3)]
  }

  /** Where each byte of the word lands under the swap within half-words. */
  lemma SwapBytesInHalfWordsMovesBytes(w: bv32)
    ensures ByteOf(SwapBytesInHalfWords(w), 0) == ByteOf(w, 1) && ByteOf(SwapBytesInHalfWords(w), 1) == ByteOf(w, 0)
    ensures ByteOf(SwapBytesInHalfWords(w), 2) == ByteOf(w, 3) && ByteOf(SwapBytesInHalfWords(w), 3) == ByteOf(w, 2)
  {
  }

  /** The word remap moves the bytes of the word as the byte-sequence remap does. */
  lemma RemapWordMovesBytes(w: bv32)
    ensures BytesOf(RemapWord(w)) == Remap(BytesOf(w))
  {
    RemapWordSwapsWithinHalfWords(w);
    SwapBytesInHalfWordsMovesBytes(w);
    RemapSwapsWithinHalfWords(BytesOf(w));
    calc {
      BytesOf(RemapWord(w));
      [ByteOf(w, 1), ByteOf(w, 0), ByteOf(w, 3), ByteOf(w, 2)];
      SwapWithinHalfWords(BytesOf(w));
    }
  }

  // ---------------------------------------------------------------------
  // rsx_fp_instruction_source_t
  // ---------------------------------------------------------------------

  /** The bit fields of a source-operand word, each below 2^width. */
  datatype Source = Source(regType: bv32, index: bv32, half: bv32,
                           swizzleX: bv32, swizzleY: bv32, swizzleZ: bv32, swizzleW: bv32, neg: bv32)
  {
    predicate Valid()
    {
      regType < 4 && index < 64 && half < 2 &&
      swizzleX < 4 && swizzleY < 4 && swizzleZ < 4 && swizzleW < 4 && neg < 2
    }
  }

  /** The 18 low bits the fields occupy. */
  const SourceBits: bv32 := 0x3_FFFF

  /** Reading the bit fields of `value`, allocated from the least significant bit. */
  function DecodeSource(value: bv32): (s: Source)
    ensures s.Valid()
  {
    Source(value & 0x3, (value >> 2) & 0x3F, (value >> 8) & 0x1,
           (value >> 9) & 0x3, (value >> 11) & 0x3, (value >> 13) & 0x3, (value >> 15) & 0x3,
           (value >> 17) & 0x1)
  }

  /** Packing the fields into a word whose bits above the 18th are zero. */
  function EncodeSource(s: Source): (value: bv32)
    requires s.Valid()
    ensures value & !SourceBits == 0
  {
    s.regType | (s.index << 2) | (s.half << 8) |
    (s.swizzleX << 9) | (s.swizzleY << 11) | (s.swizzleZ << 13) | (s.swizzleW << 15) |
    (s.neg << 17)
  }

  /** Packing in-range fields and reading them back gives the same fields. */
  lemma DecodeEncodeSource(s: Source)
    requires s.Valid()
    ensures DecodeSource(EncodeSource(s)) == s
  {
  }

  /** Reading the fields and packing them again gives the word's low 18 bits. */
  lemma EncodeDecodeSource(value: bv32)
    ensures EncodeSource(DecodeSource(value)) == value & SourceBits
  {
  }

  // ---------------------------------------------------------------------
  // The opcode field
  // ---------------------------------------------------------------------

  /** Keeping the six low bits of a value below 0x80 drops exactly the 0x40 bit. */
  lemma LowSixBits(v: bv32)
    requires v < 0x80
    ensures v & 0x3F == v <==> v < 0x40
    ensures v >= 0x40 ==> v & 0x3F == v - 0x40
  {
  }

  /**
   * A value below 0x80 survives being stored in the 6-bit `opcode` field
   * exactly when it is below 0x40; otherwise it reads back less 0x40.
   */
  lemma OpcodeFieldRoundTrip(i: Instruction, v: bv32)
    requires v < 0x80
    ensures Opcode(SetOpcode(i, v)) == v <==> v < 0x40
    ensures v >= 0x40 ==> Opcode(SetOpcode(i, v)) == v - 0x40
  {
    SetOpcodeEffect(i, v);
    LowSixBits(v);
  }
}
