/**
 * The memory-access instructions of the PPU recompiler: for each PowerPC
 * load and store, the effect of the code the recompiler emits on the register
 * file and on guest memory.
 *
 * Every implemented instruction does the same four things: it computes an
 * effective address (EA), reads or writes memory, extends a loaded value
 * (zero, sign or not at all), and in its update forms writes the EA back to
 * ra. `LoadOp` and `StoreOp` describe one instruction's choices; `LoadOf` and
 * `StoreOf` give the choices the emitted code makes; `LoadSpec`,
 * `StoreRegisters` and `StoreMemory` say what the emitted code does; and each
 * method of `Recompiler` performs one instruction step by step against them.
 */
module RecompilerMemory {
  import opened Guest

  /**
   * The fields of a decoded instruction word that loads and stores read.
   * `rs`, `frd` and `frs` are other names of the `rd` field (bits 6-10).
   * `d` is the signed 16-bit displacement in bits 16-31 and `ds` the signed
   * 14-bit displacement in bits 16-29, so `ds` is `d` without its two low bits.
   */
  datatype Instruction = Instruction(rd: nat, ra: nat, rb: nat, d: int, ds: int)
  {
    predicate Valid()
    {
      rd < 32 && ra < 32 && rb < 32 && -0x8000 <= d < 0x8000 && ds == d / 4
    }

    function Rs(): nat { rd }
    function Frd(): nat { rd }
    function Frs(): nat { rd }
  }

  /** Addressing forms. */
  datatype Form =
    | Base           // (ra|0) + displacement
    | Update         // ra + displacement, then ra := EA
    | Indexed        // ra + rb
    | IndexedUpdate  // ra + rb, then ra := EA
  {
    predicate WritesBack()
    {
      this == Update || this == IndexedUpdate
    }

    predicate IsIndexed()
    {
      this == Indexed || this == IndexedUpdate
    }
  }

  /** The immediate a displacement is built from: `code.d`, or `code.ds << 2`. */
  datatype Displacement = DField | DSField

  datatype Extension = ZeroExt | SignExt | NoExt

  /** The register bank that receives a loaded value. */
  datatype Bank = GprBank | FprBank

  /** The choices one load instruction makes. Indexed forms ignore `disp`. */
  datatype LoadOp = LoadOp(form: Form, disp: Displacement, bytes: nat, ext: Extension, dest: Bank)
  {
    predicate Valid()
    {
      (bytes == 1 || bytes == 2 || bytes == 4 || bytes == 8) && (ext == SignExt ==> bytes < 8)
    }
  }

  /** A store's value: a GPR, an FPR's bit pattern, or an FPR rounded to single precision. */
  datatype StoreSource = Integer | DoubleBits | SingleBits

  /** The choices one store instruction makes; `bytes` is the width written to memory. */
  datatype StoreOp = StoreOp(form: Form, disp: Displacement, source: StoreSource, bytes: nat)
  {
    predicate Valid()
    {
      bytes == 1 || bytes == 2 || bytes == 4 || bytes == 8
    }
  }

  datatype LoadMnemonic =
    LBZ | LBZU | LBZUX | LBZX | LD | LDU | LDUX | LDX | LFD | LFDU | LFDUX | LFDX | LFS | LFSU | LFSUX | LFSX | LHA | LHAU | LHAUX | LHAX | LHZ | LHZU | LHZUX | LHZX | LWA | LWAUX | LWAX | LWZ | LWZU | LWZUX | LWZX

  datatype StoreMnemonic =
    STB | STBU | STBUX | STBX | STD | STDU | STDUX | STDX | STFD | STFDU | STFDUX | STFDX | STFS | STFSU | STFSUX | STFSX | STH | STHU | STHUX | STHX | STW | STWU | STWUX | STWX

  /** The load instructions as the recompiler emits them. */
  function LoadOf(m: LoadMnemonic): (op: LoadOp)
    ensures op.Valid()
  {
    match m
    case LBZ => LoadOp(Base, DSField, 1, ZeroExt, GprBank)
    case LBZU => LoadOp(Update, DSField, 1, ZeroExt, GprBank)
    case LBZUX => LoadOp(IndexedUpdate, DField, 1, ZeroExt, GprBank)
    case LBZX => LoadOp(Indexed, DField, 1, ZeroExt, GprBank)
    case LD => LoadOp(Base, DSField, 8, NoExt, GprBank)
    case LDU => LoadOp(Update, DSField, 8, NoExt, GprBank)
    case LDUX => LoadOp(IndexedUpdate, DField, 8, NoExt, GprBank)
    case LDX => LoadOp(Indexed, DField, 8, NoExt, GprBank)
    case LFD => LoadOp(Base, DField, 8, NoExt, GprBank)
    case LFDU => LoadOp(Update, DField, 8, NoExt, GprBank)
    case LFDUX => LoadOp(IndexedUpdate, DField, 8, NoExt, GprBank)
    case LFDX => LoadOp(Indexed, DField, 8, NoExt, FprBank)
    case LFS => LoadOp(Base, DField, 4, NoExt, GprBank)
    case LFSU => LoadOp(Update, DField, 4, NoExt, GprBank)
    case LFSUX => LoadOp(IndexedUpdate, DField, 4, NoExt, GprBank)
    case LFSX => LoadOp(Indexed, DField, 4, NoExt, FprBank)
    case LHA => LoadOp(Base, DSField, 2, SignExt, GprBank)
    case LHAU => LoadOp(Update, DSField, 2, SignExt, GprBank)
    case LHAUX => LoadOp(IndexedUpdate, DField, 2, SignExt, GprBank)
    case LHAX => LoadOp(Indexed, DField, 2, SignExt, GprBank)
    case LHZ => LoadOp(Base, DSField, 2, ZeroExt, GprBank)
    case LHZU => LoadOp(Update, DSField, 2, ZeroExt, GprBank)
    case LHZUX => LoadOp(IndexedUpdate, DField, 2, ZeroExt, GprBank)
    case LHZX => LoadOp(Indexed, DField, 2, ZeroExt, GprBank)
    case LWA => LoadOp(Base, DSField, 4, SignExt, GprBank)
    case LWAUX => LoadOp(IndexedUpdate, DField, 4, SignExt, GprBank)
    case LWAX => LoadOp(Indexed, DField, 4, SignExt, GprBank)
    case LWZ => LoadOp(Base, DSField, 4, ZeroExt, GprBank)
    case LWZU => LoadOp(Update, DSField, 4, ZeroExt, GprBank)
    case LWZUX => LoadOp(IndexedUpdate, DField, 4, ZeroExt, GprBank)
    case LWZX => LoadOp(Indexed, DField, 4, ZeroExt, GprBank)
  }

  /** The store instructions as the recompiler emits them: integer stores write the whole 64-bit register. */
  function StoreOf(m: StoreMnemonic): (op: StoreOp)
    ensures op.Valid()
  {
    match m
    case STB => StoreOp(Base, DField, Integer, 8)
    case STBU => StoreOp(Update, DSField, Integer, 8)
    case STBUX => StoreOp(IndexedUpdate, DField, Integer, 8)
    case STBX => StoreOp(Indexed, DField, Integer, 8)
    case STD => StoreOp(Base, DField, Integer, 8)
    case STDU => StoreOp(Update, DSField, Integer, 8)
    case STDUX => StoreOp(IndexedUpdate, DField, Integer, 8)
    case STDX => StoreOp(Indexed, DField, Integer, 8)
    case STFD => StoreOp(Base, DField, DoubleBits, 8)
    case STFDU => StoreOp(Update, DField, DoubleBits, 8)
    case STFDUX => StoreOp(IndexedUpdate, DField, DoubleBits, 8)
    case STFDX => StoreOp(Indexed, DField, DoubleBits, 8)
    case STFS => StoreOp(Base, DField, SingleBits, 4)
    case STFSU => StoreOp(Update, DField, SingleBits, 4)
    case STFSUX => StoreOp(IndexedUpdate, DField, SingleBits, 4)
    case STFSX => StoreOp(Indexed, DField, SingleBits, 4)
    case STH => StoreOp(Base, DField, Integer, 8)
    case STHU => StoreOp(Update, DSField, Integer, 8)
    case STHUX => StoreOp(IndexedUpdate, DField, Integer, 8)
    case STHX => StoreOp(Indexed, DField, Integer, 8)
    case STW => StoreOp(Base, DField, Integer, 8)
    case STWU => StoreOp(Update, DSField, Integer, 8)
    case STWUX => StoreOp(IndexedUpdate, DField, Integer, 8)
    case STWX => StoreOp(Indexed, DField, Integer, 8)
  }

  /** The D-form loads whose emitted code builds the displacement from `ds`. */
  predicate DFormWithDs(m: LoadMnemonic)
  {
    m in {LBZ, LBZU, LHA, LHAU, LHZ, LHZU, LWZ, LWZU}
  }

  predicate FloatLoad(m: LoadMnemonic)
  {
    m in {LFD, LFDU, LFDUX, LFDX, LFS, LFSU, LFSUX, LFSX}
  }

  /** The D-form stores whose emitted code builds the displacement from `ds`. */
  predicate DFormStoreWithDs(m: StoreMnemonic)
  {
    m in {STBU, STHU, STWU}
  }

  /** The width the PowerPC architecture gives each store. */
  function ArchitecturalStoreWidth(m: StoreMnemonic): nat
  {
    if m in {STB, STBU, STBUX, STBX} then 1
    else if m in {STH, STHU, STHUX, STHX} then 2
    else if m in {STW, STWU, STWUX, STWX, STFS, STFSU, STFSUX, STFSX} then 4
    else 8
  }

  /**
   * The displacement the architecture defines for a non-indexed load: the
   * DS-form loads (ld, ldu, lwa) use ds || 0b00, every other one the D field.
   */
  function ArchitecturalLoadDisplacement(m: LoadMnemonic, code: Instruction): int
  {
    if m in {LD, LDU, LWA} then code.ds * 4 else code.d
  }

  /**
   * The displacement the architecture defines for a non-indexed store: stdu is
   * DS-form; std is DS-form too, but its extended-opcode bits are 0, so its D
   * field already equals ds || 0b00.
   */
  function ArchitecturalStoreDisplacement(m: StoreMnemonic, code: Instruction): int
  {
    if m == STDU then code.ds * 4 else code.d
  }

  /**
   * Corrected load table: D-form loads use the whole D field, and
   * floating-point loads write the FPR bank, as lfdx and lfsx already do.
   */
  function IntendedLoadOf(m: LoadMnemonic): (op: LoadOp)
    ensures op.Valid()
    ensures op.dest == GprBank <==> !FloatLoad(m)
  {
    var op := LoadOf(m);
    if DFormWithDs(m) then op.(disp := DField)
    else if FloatLoad(m) then op.(dest := FprBank)
    else op
  }

  /** Corrected store table: D-form stores use the whole D field and each store writes its own width. */
  function IntendedStoreOf(m: StoreMnemonic): (op: StoreOp)
    ensures op.Valid() && op.bytes == ArchitecturalStoreWidth(m)
  {
    var op := StoreOf(m);
    op.(disp := if DFormStoreWithDs(m) then DField else op.disp, bytes := ArchitecturalStoreWidth(m))
  }

  /** The signed displacement an instruction's emitted code adds. */
  function SignedDisplacement(disp: Displacement, code: Instruction): int
  {
    match disp
    case DField => code.d
    case DSField => code.ds * 4
  }

  /** (ra|0): register ra, or 0 when ra is register 0. */
  function BaseRegister(code: Instruction, gpr: seq<u64>): u64
    requires code.Valid() && |gpr| == 32
  {
    if code.ra == 0 then 0 else gpr[code.ra]
  }

  /** The effective address the emitted code computes. */
  function EffectiveAddress(form: Form, disp: Displacement, code: Instruction, gpr: seq<u64>): u64
    requires code.Valid() && |gpr| == 32
  {
    var offset := ToU64(SignedDisplacement(disp, code));
    match form
    case Base => if code.ra != 0 then Add64(offset, gpr[code.ra]) else offset
    case Update => Add64(offset, gpr[code.ra])
    case Indexed => Add64(gpr[code.ra], gpr[code.rb])
    case IndexedUpdate => Add64(gpr[code.ra], gpr[code.rb])
  }

  lemma ModAddLeft(x: int, y: int)
    ensures (x % TWO64 + y) % TWO64 == (x + y) % TWO64
  {
    var a := x % TWO64 + y;
    var t, r := a / TWO64, a % TWO64;
    assert a == TWO64 * t + r;
    assert x == TWO64 * (x / TWO64) + x % TWO64;
    assert x + y == TWO64 * (t + x / TWO64) + r;
    DivModUnique(x + y, TWO64, t + x / TWO64, r);
  }

  /** Base form: EA is the signed displacement plus (ra|0), modulo 2^64. */
  lemma BaseFormAddress(disp: Displacement, code: Instruction, gpr: seq<u64>)
    requires code.Valid() && |gpr| == 32
    ensures EffectiveAddress(Base, disp, code, gpr) ==
      (SignedDisplacement(disp, code) + BaseRegister(code, gpr)) % TWO64
    ensures code.ra == 0 ==> EffectiveAddress(Base, disp, code, gpr) == SignedDisplacement(disp, code) % TWO64
  {
    ModAddLeft(SignedDisplacement(disp, code), BaseRegister(code, gpr));
  }

  /** Update form: EA is the signed displacement plus register ra, even when ra is 0. */
  lemma UpdateFormAddress(disp: Displacement, code: Instruction, gpr: seq<u64>)
    requires code.Valid() && |gpr| == 32
    ensures EffectiveAddress(Update, disp, code, gpr) == (SignedDisplacement(disp, code) + gpr[code.ra]) % TWO64
  {
    ModAddLeft(SignedDisplacement(disp, code), gpr[code.ra]);
  }

  /** Indexed forms: EA is ra + rb with no special case for register 0, and no displacement. */
  lemma IndexedFormAddress(form: Form, disp: Displacement, code: Instruction, gpr: seq<u64>)
    requires code.Valid() && |gpr| == 32 && form.IsIndexed()
    ensures EffectiveAddress(form, disp, code, gpr) == (gpr[code.ra] + gpr[code.rb]) % TWO64
    ensures EffectiveAddress(form, disp, code, gpr) == EffectiveAddress(form, DField, code.(d := 0, ds := 0), gpr)
  {
  }

  /** The loaded value extended to 64 bits. */
  function Extend(ext: Extension, v: nat, n: nat): u64
    requires (n == 1 || n == 2 || n == 4 || n == 8) && v < Pow256(n) && (ext == SignExt ==> n < 8)
  {
    match ext
    case ZeroExt => ZeroExtend(v, n)
    case SignExt => SignExtend(v, n)
    case NoExt => PowBelow(n); v
  }

  /** The EA an instruction accesses. */
  function LoadAddress(op: LoadOp, code: Instruction, regs: Registers): u64
    requires code.Valid() && regs.Valid()
  {
    EffectiveAddress(op.form, op.disp, code, regs.gpr)
  }

  /** The value a load delivers to its target register. */
  function LoadedValue(op: LoadOp, code: Instruction, regs: Registers, mem: Memory): u64
    requires op.Valid() && code.Valid() && regs.Valid()
  {
    Extend(op.ext, Load(mem, LoadAddress(op, code, regs), op.bytes), op.bytes)
  }

  /**
   * The register file after a load: in update forms ra := EA first, then the
   * target register of the target bank receives the loaded value.
   */
  function LoadSpec(op: LoadOp, code: Instruction, regs: Registers, mem: Memory): (r: Registers)
    requires op.Valid() && code.Valid() && regs.Valid()
    ensures r.Valid()
  {
    var ea := LoadAddress(op, code, regs);
    var value := LoadedValue(op, code, regs, mem);
    var gpr := if op.form.WritesBack() then regs.gpr[code.ra := ea] else regs.gpr;
    match op.dest
    case GprBank => regs.(gpr := gpr[code.rd := value])
    case FprBank => regs.(gpr := gpr, fpr := regs.fpr[code.rd := value])
  }

  /**
   * A load changes only its target register and, in update forms, ra; when
   * ra == rd the loaded value wins; pc, cr and the time base are untouched.
   */
  lemma LoadEffect(op: LoadOp, code: Instruction, regs: Registers, mem: Memory)
    requires op.Valid() && code.Valid() && regs.Valid()
    ensures var r := LoadSpec(op, code, regs, mem);
      var ea, v := LoadAddress(op, code, regs), LoadedValue(op, code, regs, mem);
      r.pc == regs.pc && r.cr == regs.cr && r.tbl == regs.tbl && r.tbu == regs.tbu &&
      (forall i :: 0 <= i < 32 ==>
        r.gpr[i] == (if op.dest == GprBank && i == code.rd then v
                     else if op.form.WritesBack() && i == code.ra then ea
                     else regs.gpr[i])) &&
      (forall i :: 0 <= i < 32 ==>
        r.fpr[i] == (if op.dest == FprBank && i == code.rd then v else regs.fpr[i]))
  {
  }

  /** Update loads with ra == rd leave the loaded value in the register, not the EA. */
  lemma UpdateLoadKeepsLoadedValue(op: LoadOp, code: Instruction, regs: Registers, mem: Memory)
    requires op.Valid() && code.Valid() && regs.Valid()
    requires op.form.WritesBack() && op.dest == GprBank && code.ra == code.rd
    ensures LoadSpec(op, code, regs, mem).gpr[code.ra] == LoadedValue(op, code, regs, mem)
  {
    LoadEffect(op, code, regs, mem);
  }

  /**
   * Extension by width: zero-extending loads keep the value and leave the
   * upper bytes 0; algebraic loads keep the low bytes and the signed value and
   * fill the upper bytes with copies of the sign bit; the rest keep the value.
   */
  lemma LoadExtension(op: LoadOp, code: Instruction, regs: Registers, mem: Memory)
    requires op.Valid() && code.Valid() && regs.Valid()
    ensures var raw := Load(mem, LoadAddress(op, code, regs), op.bytes);
      var v, p := LoadedValue(op, code, regs, mem), Pow256(op.bytes);
      (op.ext == ZeroExt ==> v == raw && v / p == 0) &&
      (op.ext == SignExt ==>
        v % p == raw && Signed(v, 8) == Signed(raw, op.bytes) &&
        v / p == (if raw >= p / 2 then TWO64 / p - 1 else 0)) &&
      (op.ext == NoExt ==> v == raw)
  {
  }

  /**
   * Floating-point loads: only lfdx and lfsx write the FPR bank; lfd, lfdu,
   * lfdux, lfs, lfsu and lfsux put the loaded bits in the GPR numbered frd and
   * leave the FPRs alone.
   */
  lemma FloatLoadRouting(m: LoadMnemonic, code: Instruction, regs: Registers, mem: Memory)
    requires FloatLoad(m) && code.Valid() && regs.Valid()
    ensures var r, v := LoadSpec(LoadOf(m), code, regs, mem), LoadedValue(LoadOf(m), code, regs, mem);
      if m == LFDX || m == LFSX then r.fpr[code.Frd()] == v && r.gpr == regs.gpr
      else r.fpr == regs.fpr && r.gpr[code.Frd()] == v
  {
  }

  /** The value a store takes from the register file, before any write-back. */
  function StoredValue(op: StoreOp, code: Instruction, regs: Registers, toSingle: u64 -> u32): nat
    requires code.Valid() && regs.Valid()
  {
    match op.source
    case Integer => regs.gpr[code.Rs()]
    case DoubleBits => regs.fpr[code.Frs()]
    case SingleBits => toSingle(regs.fpr[code.Frs()])
  }

  function StoreAddress(op: StoreOp, code: Instruction, regs: Registers): u64
    requires code.Valid() && regs.Valid()
  {
    EffectiveAddress(op.form, op.disp, code, regs.gpr)
  }

  /** Guest memory after a store. */
  function StoreMemory(op: StoreOp, code: Instruction, regs: Registers, mem: Memory, toSingle: u64 -> u32): Memory
    requires code.Valid() && regs.Valid()
  {
    Store(mem, StoreAddress(op, code, regs), StoredValue(op, code, regs, toSingle), op.bytes)
  }

  /** The register file after a store: update forms write the EA to ra. */
  function StoreRegisters(op: StoreOp, code: Instruction, regs: Registers): (r: Registers)
    requires code.Valid() && regs.Valid()
    ensures r.Valid()
  {
    if op.form.WritesBack() then regs.(gpr := regs.gpr[code.ra := StoreAddress(op, code, regs)]) else regs
  }

  /**
   * A store: reading back the written width at EA gives the stored value
   * (truncated to that width), every byte outside the written range is
   * unchanged, and no register but ra in update forms changes.
   */
  lemma StoreEffect(op: StoreOp, code: Instruction, regs: Registers, mem: Memory, toSingle: u64 -> u32)
    requires op.Valid() && code.Valid() && regs.Valid()
    ensures var ea, m' := StoreAddress(op, code, regs), StoreMemory(op, code, regs, mem, toSingle);
      Load(m', ea, op.bytes) == StoredValue(op, code, regs, toSingle) % Pow256(op.bytes) &&
      forall x :: !Within(ea, op.bytes, x) ==> m'(x) == mem(x)
    ensures var r, ea := StoreRegisters(op, code, regs), StoreAddress(op, code, regs);
      r.pc == regs.pc && r.fpr == regs.fpr && r.cr == regs.cr && r.tbl == regs.tbl && r.tbu == regs.tbu &&
      forall i :: 0 <= i < 32 ==> r.gpr[i] == if op.form.WritesBack() && i == code.ra then ea else regs.gpr[i]
  {
    var ea, v := StoreAddress(op, code, regs), StoredValue(op, code, regs, toSingle);
    LoadStore(mem, ea, v, op.bytes);
    forall x | !Within(ea, op.bytes, x)
      ensures StoreMemory(op, code, regs, mem, toSingle)(x) == mem(x)
    {
      StoreFrame(mem, ea, v, op.bytes, x);
    }
  }

  /** An update-form store whose source is ra stores ra's old value, and ra then holds the EA. */
  lemma StoreReadsSourceBeforeWriteBack(op: StoreOp, code: Instruction, regs: Registers, mem: Memory,
                                        toSingle: u64 -> u32)
    requires op.Valid() && code.Valid() && regs.Valid()
    requires op.form.WritesBack() && op.source == Integer && code.Rs() == code.ra
    ensures var ea := StoreAddress(op, code, regs);
      Load(StoreMemory(op, code, regs, mem, toSingle), ea, op.bytes) == regs.gpr[code.ra] % Pow256(op.bytes) &&
      StoreRegisters(op, code, regs).gpr[code.ra] == ea
  {
    StoreEffect(op, code, regs, mem, toSingle);
  }

  /** stfd, stfdu, stfdux and stfdx store the FPR's 64-bit pattern unchanged. */
  lemma DoubleStoreKeepsBits(m: StoreMnemonic, code: Instruction, regs: Registers, mem: Memory,
                             toSingle: u64 -> u32)
    requires m in {STFD, STFDU, STFDUX, STFDX} && code.Valid() && regs.Valid()
    ensures Load(StoreMemory(StoreOf(m), code, regs, mem, toSingle), StoreAddress(StoreOf(m), code, regs), 8) ==
      regs.fpr[code.Frs()]
  {
    var op := StoreOf(m);
    DoubleStoreShape(m);
    var ea, v := StoreAddress(op, code, regs), regs.fpr[code.Frs()];
    assert StoreMemory(op, code, regs, mem, toSingle) == Store(mem, ea, v, 8);
    LoadStore(mem, ea, v, 8);
    PowWords();
    DivModUnique(v, TWO64, 0, v);
  }

  lemma DoubleStoreShape(m: StoreMnemonic)
    requires m in {STFD, STFDU, STFDUX, STFDX}
    ensures StoreOf(m).source == DoubleBits && StoreOf(m).bytes == 8
  {
  }

  /** The non-indexed EA as a signed sum: displacement plus (ra|0) in base form, plus ra in update form. */
  function DisplacedAddress(form: Form, displacement: int, code: Instruction, gpr: seq<u64>): int
    requires code.Valid() && |gpr| == 32
  {
    (displacement + if form == Base then BaseRegister(code, gpr) else gpr[code.ra]) % TWO64
  }

  /**
   * As written: the non-indexed loads add the architectural displacement,
   * except that the D-form loads built from `ds << 2` lose its two low bits.
   */
  lemma LoadAddressAsWritten(m: LoadMnemonic, code: Instruction, gpr: seq<u64>)
    requires code.Valid() && |gpr| == 32 && !LoadOf(m).form.IsIndexed()
    ensures var op := LoadOf(m);
      EffectiveAddress(op.form, op.disp, code, gpr) ==
        DisplacedAddress(op.form, ArchitecturalLoadDisplacement(m, code) - (if DFormWithDs(m) then code.d % 4 else 0), code, gpr)
  {
    var op := LoadOf(m);
    if op.form == Base {
      BaseFormAddress(op.disp, code, gpr);
    } else {
      UpdateFormAddress(op.disp, code, gpr);
    }
  }

  /** Corrected: every non-indexed load adds exactly the architectural displacement. */
  lemma IntendedLoadAddress(m: LoadMnemonic, code: Instruction, gpr: seq<u64>)
    requires code.Valid() && |gpr| == 32 && !LoadOf(m).form.IsIndexed()
    ensures var op := IntendedLoadOf(m);
      EffectiveAddress(op.form, op.disp, code, gpr) ==
        DisplacedAddress(op.form, ArchitecturalLoadDisplacement(m, code), code, gpr)
  {
    var op := IntendedLoadOf(m);
    if op.form == Base {
      BaseFormAddress(op.disp, code, gpr);
    } else {
      UpdateFormAddress(op.disp, code, gpr);
    }
  }

  /** As written: stbu, sthu and stwu lose the two low bits of the displacement. */
  lemma StoreAddressAsWritten(m: StoreMnemonic, code: Instruction, gpr: seq<u64>)
    requires code.Valid() && |gpr| == 32 && !StoreOf(m).form.IsIndexed()
    ensures var op := StoreOf(m);
      EffectiveAddress(op.form, op.disp, code, gpr) ==
        DisplacedAddress(op.form, ArchitecturalStoreDisplacement(m, code) - (if DFormStoreWithDs(m) then code.d % 4 else 0), code, gpr)
  {
    var op := StoreOf(m);
    if op.form == Base {
      BaseFormAddress(op.disp, code, gpr);
    } else {
      UpdateFormAddress(op.disp, code, gpr);
    }
  }

  /** Corrected: every non-indexed store adds exactly the architectural displacement. */
  lemma IntendedStoreAddress(m: StoreMnemonic, code: Instruction, gpr: seq<u64>)
    requires code.Valid() && |gpr| == 32 && !StoreOf(m).form.IsIndexed()
    ensures var op := IntendedStoreOf(m);
      EffectiveAddress(op.form, op.disp, code, gpr) ==
        DisplacedAddress(op.form, ArchitecturalStoreDisplacement(m, code), code, gpr)
  {
    var op := IntendedStoreOf(m);
    if op.form == Base {
      BaseFormAddress(op.disp, code, gpr);
    } else {
      UpdateFormAddress(op.disp, code, gpr);
    }
  }

  /** A concrete instance: `lbz r3, 5(0)` reads address 4, where the architecture reads address 5. */
  lemma LbzDisplacementFive(gpr: seq<u64>)
    requires |gpr| == 32
    ensures var code := Instruction(3, 0, 0, 5, 1);
      EffectiveAddress(LoadOf(LBZ).form, LoadOf(LBZ).disp, code, gpr) == 4 &&
      EffectiveAddress(IntendedLoadOf(LBZ).form, IntendedLoadOf(LBZ).disp, code, gpr) == 5
  {
  }

  /**
   * A concrete instance: `stb r3, 0x1000(0)` with r3 == 0x41 writes eight
   * bytes, so address 0x1000 receives 0 and 0x41 lands at 0x1007.
   */
  lemma StbWritesEightBytes(regs: Registers, mem: Memory, toSingle: u64 -> u32)
    requires regs.Valid() && regs.gpr[3] == 0x41
    ensures var code := Instruction(3, 0, 0, 0x1000, 0x400);
      var m' := StoreMemory(StoreOf(STB), code, regs, mem, toSingle);
      m'(0x1000) == 0 && m'(0x1007) == 0x41
  {
  }

  /** Corrected: `stb r3, 0x1000(0)` writes exactly the low byte of r3 at 0x1000 and nothing else. */
  lemma IntendedStbWritesOneByte(regs: Registers, mem: Memory, toSingle: u64 -> u32)
    requires regs.Valid()
    ensures var code := Instruction(3, 0, 0, 0x1000, 0x400);
      var m' := StoreMemory(IntendedStoreOf(STB), code, regs, mem, toSingle);
      m'(0x1000) == regs.gpr[3] % 0x100 && forall x :: x != 0x1000 ==> m'(x) == mem(x)
  {
    var code := Instruction(3, 0, 0, 0x1000, 0x400);
    var op := IntendedStoreOf(STB);
    assert op.bytes == 1 && op.form == Base && op.disp == DField;
    assert StoreAddress(op, code, regs) == 0x1000;
    assert Addr(0x1000, 0) == 0x1000;
    StoreEffect(op, code, regs, mem, toSingle);
    var m' := StoreMemory(op, code, regs, mem, toSingle);
    assert Load(m', 0x1000, 1) == m'(0x1000);
    forall x | x != 0x1000
      ensures m'(x) == mem(x)
    {
      assert !Within(0x1000, 1, x);
    }
  }

  /**
   * Corrected: every store writes exactly its architectural width at EA, the
   * low bytes of its value, and no byte beyond.
   */
  lemma IntendedStoreWidth(m: StoreMnemonic, code: Instruction, regs: Registers, mem: Memory, toSingle: u64 -> u32)
    requires code.Valid() && regs.Valid()
    ensures var op := IntendedStoreOf(m);
      var ea, m' := StoreAddress(op, code, regs), StoreMemory(op, code, regs, mem, toSingle);
      Load(m', ea, ArchitecturalStoreWidth(m)) ==
        StoredValue(op, code, regs, toSingle) % Pow256(ArchitecturalStoreWidth(m)) &&
      forall x :: !Within(ea, ArchitecturalStoreWidth(m), x) ==> m'(x) == mem(x)
  {
    StoreEffect(IntendedStoreOf(m), code, regs, mem, toSingle);
  }

  /**
   * Corrected: a floating-point load writes the loaded bits to FPR frd and
   * changes no GPR other than ra in update forms.
   */
  lemma IntendedFloatLoad(m: LoadMnemonic, code: Instruction, regs: Registers, mem: Memory)
    requires FloatLoad(m) && code.Valid() && regs.Valid()
    ensures var op := IntendedLoadOf(m);
      var r, v := LoadSpec(op, code, regs, mem), LoadedValue(op, code, regs, mem);
      r.fpr[code.Frd()] == v &&
      forall i :: 0 <= i < 32 && !(op.form.WritesBack() && i == code.ra) ==> r.gpr[i] == regs.gpr[i]
  {
    LoadEffect(IntendedLoadOf(m), code, regs, mem);
  }

  /**
   * The recompiler's view of one PPU thread: the register file and guest
   * memory its emitted code works on. `toSingle` is the bit pattern of an
   * FPR rounded to single precision (`CreateFPTrunc` then a bit cast), which
   * this model takes as given.
   */
  class Recompiler {
    const state: State
    const memory: GuestMemory
    const toSingle: u64 -> u32

    ghost predicate Valid()
      reads this, state
    {
      state.Valid()
    }

    constructor (state: State, memory: GuestMemory, toSingle: u64 -> u32)
      requires state.Valid()
      ensures Valid() && this.state == state && this.memory == memory && this.toSingle == toSingle
    {
      this.state := state;
      this.memory := memory;
      this.toSingle := toSingle;
    }

    /** lbz: load byte and zero. */
    method Lbz(code: Instruction)
      requires Valid() && code.Valid()
      modifies state.gpr
      ensures state.Snapshot() == LoadSpec(LoadOf(LBZ), code, old(state.Snapshot()), memory.bytes)
    {
      ghost var regs := state.Snapshot();
      var addr := ToU64(code.ds * 4);
      if code.ra != 0 {
        addr := Add64(addr, state.gpr[code.ra]);
      }
      assert addr == LoadAddress(LoadOf(LBZ), code, regs);
      var rd := memory.Read(addr, 8);
      rd := ZeroExtend(rd, 1);
      assert rd == LoadedValue(LoadOf(LBZ), code, regs, memory.bytes);
      state.SetGPR(code.rd, rd);
    }

    /** lbzu: load byte and zero with update. */
    method Lbzu(code: Instruction)
      requires Valid() && code.Valid()
      modifies state.gpr
      ensures state.Snapshot() == LoadSpec(LoadOf(LBZU), code, old(state.Snapshot()), memory.bytes)
    {
      ghost var regs := state.Snapshot();
      var addr := ToU64(code.ds * 4);
      addr := Add64(addr, state.gpr[code.ra]);
      assert addr == LoadAddress(LoadOf(LBZU), code, regs);
      var rd := memory.Read(addr, 8);
      rd := ZeroExtend(rd, 1);
      assert rd == LoadedValue(LoadOf(LBZU), code, regs, memory.bytes);
      state.SetGPR(code.ra, addr);
      state.SetGPR(code.rd, rd);
    }

    /** lbzux: load byte and zero with update indexed. */
    method Lbzux(code: Instruction)
      requires Valid() && code.Valid()
      modifies state.gpr
      ensures state.Snapshot() == LoadSpec(LoadOf(LBZUX), code, old(state.Snapshot()), memory.bytes)
    {
      ghost var regs := state.Snapshot();
      var addr := Add64(state.gpr[code.ra], state.gpr[code.rb]);
      assert addr == LoadAddress(LoadOf(LBZUX), code, regs);
      var rd := memory.Read(addr, 8);
      rd := ZeroExtend(rd, 1);
      assert rd == LoadedValue(LoadOf(LBZUX), code, regs, memory.bytes);
      state.SetGPR(code.ra, addr);
      state.SetGPR(code.rd, rd);
    }

    /** lbzx: load byte and zero indexed. */
    method Lbzx(code: Instruction)
      requires Valid() && code.Valid()
      modifies state.gpr
      ensures state.Snapshot() == LoadSpec(LoadOf(LBZX), code, old(state.Snapshot()), memory.bytes)
    {
      ghost var regs := state.Snapshot();
      var addr := Add64(state.gpr[code.ra], state.gpr[code.rb]);
      assert addr == LoadAddress(LoadOf(LBZX), code, regs);
      var rd := memory.Read(addr, 8);
      rd := ZeroExtend(rd, 1);
      assert rd == LoadedValue(LoadOf(LBZX), code, regs, memory.bytes);
      state.SetGPR(code.rd, rd);
    }

    /** ld: load doubleword. */
    method Ld(code: Instruction)
      requires Valid() && code.Valid()
      modifies state.gpr
      ensures state.Snapshot() == LoadSpec(LoadOf(LD), code, old(state.Snapshot()), memory.bytes)
    {
      ghost var regs := state.Snapshot();
      var addr := ToU64(code.ds * 4);
      if code.ra != 0 {
        addr := Add64(addr, state.gpr[code.ra]);
      }
      assert addr == LoadAddress(LoadOf(LD), code, regs);
      var rd := memory.Read(addr, 64);
      assert rd == LoadedValue(LoadOf(LD), code, regs, memory.bytes);
      state.SetGPR(code.rd, rd);
    }

    /** ldu: load doubleword with update. */
    method Ldu(code: Instruction)
      requires Valid() && code.Valid()
      modifies state.gpr
      ensures state.Snapshot() == LoadSpec(LoadOf(LDU), code, old(state.Snapshot()), memory.bytes)
    {
      ghost var regs := state.Snapshot();
      var addr := ToU64(code.ds * 4);
      addr := Add64(addr, state.gpr[code.ra]);
      assert addr == LoadAddress(LoadOf(LDU), code, regs);
      var rd := memory.Read(addr, 64);
      assert rd == LoadedValue(LoadOf(LDU), code, regs, memory.bytes);
      state.SetGPR(code.ra, addr);
      state.SetGPR(code.rd, rd);
    }

    /** ldux: load doubleword with update indexed. */
    method Ldux(code: Instruction)
      requires Valid() && code.Valid()
      modifies state.gpr
      ensures state.Snapshot() == LoadSpec(LoadOf(LDUX), code, old(state.Snapshot()), memory.bytes)
    {
      ghost var regs := state.Snapshot();
      var addr := Add64(state.gpr[code.ra], state.gpr[code.rb]);
      assert addr == LoadAddress(LoadOf(LDUX), code, regs);
      var rd := memory.Read(addr, 64);
      assert rd == LoadedValue(LoadOf(LDUX), code, regs, memory.bytes);
      state.SetGPR(code.ra, addr);
      state.SetGPR(code.rd, rd);
    }

    /** ldx: load doubleword indexed. */
    method Ldx(code: Instruction)
      requires Valid() && code.Valid()
      modifies state.gpr
      ensures state.Snapshot() == LoadSpec(LoadOf(LDX), code, old(state.Snapshot()), memory.bytes)
    {
      ghost var regs := state.Snapshot();
      var addr := Add64(state.gpr[code.ra], state.gpr[code.rb]);
      assert addr == LoadAddress(LoadOf(LDX), code, regs);
      var rd := memory.Read(addr, 64);
      assert rd == LoadedValue(LoadOf(LDX), code, regs, memory.bytes);
      state.SetGPR(code.rd, rd);
    }

    /** lfd: load floating-point double. */
    method Lfd(code: Instruction)
      requires Valid() && code.Valid()
      modifies state.gpr
      ensures state.Snapshot() == LoadSpec(LoadOf(LFD), code, old(state.Snapshot()), memory.bytes)
    {
      ghost var regs := state.Snapshot();
      var addr := ToU64(code.d);
      if code.ra != 0 {
        addr := Add64(addr, state.gpr[code.ra]);
      }
      assert addr == LoadAddress(LoadOf(LFD), code, regs);
      var frd := memory.Read(addr, 64);
      assert frd == LoadedValue(LoadOf(LFD), code, regs, memory.bytes);
      state.SetGPR(code.Frd(), frd);
    }

    /** lfdu: load floating-point double with update. */
    method Lfdu(code: Instruction)
      requires Valid() && code.Valid()
      modifies state.gpr
      ensures state.Snapshot() == LoadSpec(LoadOf(LFDU), code, old(state.Snapshot()), memory.bytes)
    {
      ghost var regs := state.Snapshot();
      var addr := ToU64(code.d);
      addr := Add64(addr, state.gpr[code.ra]);
      assert addr == LoadAddress(LoadOf(LFDU), code, regs);
      var frd := memory.Read(addr, 64);
      assert frd == LoadedValue(LoadOf(LFDU), code, regs, memory.bytes);
      state.SetGPR(code.ra, addr);
      state.SetGPR(code.Frd(), frd);
    }

    /** lfdux: load floating-point double with update indexed. */
    method Lfdux(code: Instruction)
      requires Valid() && code.Valid()
      modifies state.gpr
      ensures state.Snapshot() == LoadSpec(LoadOf(LFDUX), code, old(state.Snapshot()), memory.bytes)
    {
      ghost var regs := state.Snapshot();
      var addr := Add64(state.gpr[code.ra], state.gpr[code.rb]);
      assert addr == LoadAddress(LoadOf(LFDUX), code, regs);
      var frd := memory.Read(addr, 64);
      assert frd == LoadedValue(LoadOf(LFDUX), code, regs, memory.bytes);
      state.SetGPR(code.ra, addr);
      state.SetGPR(code.Frd(), frd);
    }

    /** lfdx: load floating-point double indexed. */
    method Lfdx(code: Instruction)
      requires Valid() && code.Valid()
      modifies state.fpr
      ensures state.Snapshot() == LoadSpec(LoadOf(LFDX), code, old(state.Snapshot()), memory.bytes)
    {
      ghost var regs := state.Snapshot();
      var addr := Add64(state.gpr[code.ra], state.gpr[code.rb]);
      assert addr == LoadAddress(LoadOf(LFDX), code, regs);
      var frd := memory.Read(addr, 64);
      assert frd == LoadedValue(LoadOf(LFDX), code, regs, memory.bytes);
      state.SetFPR(code.Frd(), frd);
    }

    /** lfs: load floating-point single. */
    method Lfs(code: Instruction)
      requires Valid() && code.Valid()
      modifies state.gpr
      ensures state.Snapshot() == LoadSpec(LoadOf(LFS), code, old(state.Snapshot()), memory.bytes)
    {
      ghost var regs := state.Snapshot();
      var addr := ToU64(code.d);
      if code.ra != 0 {
        addr := Add64(addr, state.gpr[code.ra]);
      }
      assert addr == LoadAddress(LoadOf(LFS), code, regs);
      var frd := memory.Read(addr, 32);
      assert frd == LoadedValue(LoadOf(LFS), code, regs, memory.bytes);
      state.SetGPR(code.Frd(), frd);
    }

    /** lfsu: load floating-point single with update. */
    method Lfsu(code: Instruction)
      requires Valid() && code.Valid()
      modifies state.gpr
      ensures state.Snapshot() == LoadSpec(LoadOf(LFSU), code, old(state.Snapshot()), memory.bytes)
    {
      ghost var regs := state.Snapshot();
      var addr := ToU64(code.d);
      addr := Add64(addr, state.gpr[code.ra]);
      assert addr == LoadAddress(LoadOf(LFSU), code, regs);
      var frd := memory.Read(addr, 32);
      assert frd == LoadedValue(LoadOf(LFSU), code, regs, memory.bytes);
      state.SetGPR(code.ra, addr);
      state.SetGPR(code.Frd(), frd);
    }

    /** lfsux: load floating-point single with update indexed. */
    method Lfsux(code: Instruction)
      requires Valid() && code.Valid()
      modifies state.gpr
      ensures state.Snapshot() == LoadSpec(LoadOf(LFSUX), code, old(state.Snapshot()), memory.bytes)
    {
      ghost var regs := state.Snapshot();
      var addr := Add64(state.gpr[code.ra], state.gpr[code.rb]);
      assert addr == LoadAddress(LoadOf(LFSUX), code, regs);
      var frd := memory.Read(addr, 32);
      assert frd == LoadedValue(LoadOf(LFSUX), code, regs, memory.bytes);
      state.SetGPR(code.ra, addr);
      state.SetGPR(code.Frd(), frd);
    }

    /** lfsx: load floating-point single indexed. */
    method Lfsx(code: Instruction)
      requires Valid() && code.Valid()
      modifies state.fpr
      ensures state.Snapshot() == LoadSpec(LoadOf(LFSX), code, old(state.Snapshot()), memory.bytes)
    {
      ghost var regs := state.Snapshot();
      var addr := Add64(state.gpr[code.ra], state.gpr[code.rb]);
      assert addr == LoadAddress(LoadOf(LFSX), code, regs);
      var frd := memory.Read(addr, 32);
      assert frd == LoadedValue(LoadOf(LFSX), code, regs, memory.bytes);
      state.SetFPR(code.Frd(), frd);
    }

    /** lha: load half-word algebraic. */
    method Lha(code: Instruction)
      requires Valid() && code.Valid()
      modifies state.gpr
      ensures state.Snapshot() == LoadSpec(LoadOf(LHA), code, old(state.Snapshot()), memory.bytes)
    {
      ghost var regs := state.Snapshot();
      var addr := ToU64(code.ds * 4);
      if code.ra != 0 {
        addr := Add64(addr, state.gpr[code.ra]);
      }
      assert addr == LoadAddress(LoadOf(LHA), code, regs);
      var rd := memory.Read(addr, 16);
      rd := SignExtend(rd, 2);
      assert rd == LoadedValue(LoadOf(LHA), code, regs, memory.bytes);
      state.SetGPR(code.rd, rd);
    }

    /** lhau: load half-word algebraic with update. */
    method Lhau(code: Instruction)
      requires Valid() && code.Valid()
      modifies state.gpr
      ensures state.Snapshot() == LoadSpec(LoadOf(LHAU), code, old(state.Snapshot()), memory.bytes)
    {
      ghost var regs := state.Snapshot();
      var addr := ToU64(code.ds * 4);
      addr := Add64(addr, state.gpr[code.ra]);
      assert addr == LoadAddress(LoadOf(LHAU), code, regs);
      var rd := memory.Read(addr, 16);
      rd := SignExtend(rd, 2);
      assert rd == LoadedValue(LoadOf(LHAU), code, regs, memory.bytes);
      state.SetGPR(code.ra, addr);
      state.SetGPR(code.rd, rd);
    }

    /** lhaux: load half-word algebraic with update indexed. */
    method Lhaux(code: Instruction)
      requires Valid() && code.Valid()
      modifies state.gpr
      ensures state.Snapshot() == LoadSpec(LoadOf(LHAUX), code, old(state.Snapshot()), memory.bytes)
    {
      ghost var regs := state.Snapshot();
      var addr := Add64(state.gpr[code.ra], state.gpr[code.rb]);
      assert addr == LoadAddress(LoadOf(LHAUX), code, regs);
      var rd := memory.Read(addr, 16);
      rd := SignExtend(rd, 2);
      assert rd == LoadedValue(LoadOf(LHAUX), code, regs, memory.bytes);
      state.SetGPR(code.ra, addr);
      state.SetGPR(code.rd, rd);
    }

    /** lhax: load half-word algebraic indexed. */
    method Lhax(code: Instruction)
      requires Valid() && code.Valid()
      modifies state.gpr
      ensures state.Snapshot() == LoadSpec(LoadOf(LHAX), code, old(state.Snapshot()), memory.bytes)
    {
      ghost var regs := state.Snapshot();
      var addr := Add64(state.gpr[code.ra], state.gpr[code.rb]);
      assert addr == LoadAddress(LoadOf(LHAX), code, regs);
      var rd := memory.Read(addr, 16);
      rd := SignExtend(rd, 2);
      assert rd == LoadedValue(LoadOf(LHAX), code, regs, memory.bytes);
      state.SetGPR(code.rd, rd);
    }

    /** lhz: load half-word and zero. */
    method Lhz(code: Instruction)
      requires Valid() && code.Valid()
      modifies state.gpr
      ensures state.Snapshot() == LoadSpec(LoadOf(LHZ), code, old(state.Snapshot()), memory.bytes)
    {
      ghost var regs := state.Snapshot();
      var addr := ToU64(code.ds * 4);
      if code.ra != 0 {
        addr := Add64(addr, state.gpr[code.ra]);
      }
      assert addr == LoadAddress(LoadOf(LHZ), code, regs);
      var rd := memory.Read(addr, 16);
      rd := ZeroExtend(rd, 2);
      assert rd == LoadedValue(LoadOf(LHZ), code, regs, memory.bytes);
      state.SetGPR(code.rd, rd);
    }

    /** lhzu: load half-word and zero with update. */
    method Lhzu(code: Instruction)
      requires Valid() && code.Valid()
      modifies state.gpr
      ensures state.Snapshot() == LoadSpec(LoadOf(LHZU), code, old(state.Snapshot()), memory.bytes)
    {
      ghost var regs := state.Snapshot();
      var addr := ToU64(code.ds * 4);
      addr := Add64(addr, state.gpr[code.ra]);
      assert addr == LoadAddress(LoadOf(LHZU), code, regs);
      var rd := memory.Read(addr, 16);
      rd := ZeroExtend(rd, 2);
      assert rd == LoadedValue(LoadOf(LHZU), code, regs, memory.bytes);
      state.SetGPR(code.ra, addr);
      state.SetGPR(code.rd, rd);
    }

    /** lhzux: load half-word and zero with update indexed. */
    method Lhzux(code: Instruction)
      requires Valid() && code.Valid()
      modifies state.gpr
      ensures state.Snapshot() == LoadSpec(LoadOf(LHZUX), code, old(state.Snapshot()), memory.bytes)
    {
      ghost var regs := state.Snapshot();
      var addr := Add64(state.gpr[code.ra], state.gpr[code.rb]);
      assert addr == LoadAddress(LoadOf(LHZUX), code, regs);
      var rd := memory.Read(addr, 16);
      rd := ZeroExtend(rd, 2);
      assert rd == LoadedValue(LoadOf(LHZUX), code, regs, memory.bytes);
      state.SetGPR(code.ra, addr);
      state.SetGPR(code.rd, rd);
    }

    /** lhzx: load half-word and zero indexed. */
    method Lhzx(code: Instruction)
      requires Valid() && code.Valid()
      modifies state.gpr
      ensures state.Snapshot() == LoadSpec(LoadOf(LHZX), code, old(state.Snapshot()), memory.bytes)
    {
      ghost var regs := state.Snapshot();
      var addr := Add64(state.gpr[code.ra], state.gpr[code.rb]);
      assert addr == LoadAddress(LoadOf(LHZX), code, regs);
      var rd := memory.Read(addr, 16);
      rd := ZeroExtend(rd, 2);
      assert rd == LoadedValue(LoadOf(LHZX), code, regs, memory.bytes);
      state.SetGPR(code.rd, rd);
    }

    /** lwa: load word algebraic. */
    method Lwa(code: Instruction)
      requires Valid() && code.Valid()
      modifies state.gpr
      ensures state.Snapshot() == LoadSpec(LoadOf(LWA), code, old(state.Snapshot()), memory.bytes)
    {
      ghost var regs := state.Snapshot();
      var addr := ToU64(code.ds * 4);
      if code.ra != 0 {
        addr := Add64(addr, state.gpr[code.ra]);
      }
      assert addr == LoadAddress(LoadOf(LWA), code, regs);
      var rd := memory.Read(addr, 32);
      rd := SignExtend(rd, 4);
      assert rd == LoadedValue(LoadOf(LWA), code, regs, memory.bytes);
      state.SetGPR(code.rd, rd);
    }

    /** lwaux: load word algebraic with update indexed. */
    method Lwaux(code: Instruction)
      requires Valid() && code.Valid()
      modifies state.gpr
      ensures state.Snapshot() == LoadSpec(LoadOf(LWAUX), code, old(state.Snapshot()), memory.bytes)
    {
      ghost var regs := state.Snapshot();
      var addr := Add64(state.gpr[code.ra], state.gpr[code.rb]);
      assert addr == LoadAddress(LoadOf(LWAUX), code, regs);
      var rd := memory.Read(addr, 32);
      rd := SignExtend(rd, 4);
      assert rd == LoadedValue(LoadOf(LWAUX), code, regs, memory.bytes);
      state.SetGPR(code.ra, addr);
      state.SetGPR(code.rd, rd);
    }

    /** lwax: load word algebraic indexed. */
    method Lwax(code: Instruction)
      requires Valid() && code.Valid()
      modifies state.gpr
      ensures state.Snapshot() == LoadSpec(LoadOf(LWAX), code, old(state.Snapshot()), memory.bytes)
    {
      ghost var regs := state.Snapshot();
      var addr := Add64(state.gpr[code.ra], state.gpr[code.rb]);
      assert addr == LoadAddress(LoadOf(LWAX), code, regs);
      var rd := memory.Read(addr, 32);
      rd := SignExtend(rd, 4);
      assert rd == LoadedValue(LoadOf(LWAX), code, regs, memory.bytes);
      state.SetGPR(code.rd, rd);
    }

    /** lwz: load word and zero. */
    method Lwz(code: Instruction)
      requires Valid() && code.Valid()
      modifies state.gpr
      ensures state.Snapshot() == LoadSpec(LoadOf(LWZ), code, old(state.Snapshot()), memory.bytes)
    {
      ghost var regs := state.Snapshot();
      var addr := ToU64(code.ds * 4);
      if code.ra != 0 {
        addr := Add64(addr, state.gpr[code.ra]);
      }
      assert addr == LoadAddress(LoadOf(LWZ), code, regs);
      var rd := memory.Read(addr, 32);
      rd := ZeroExtend(rd, 4);
      assert rd == LoadedValue(LoadOf(LWZ), code, regs, memory.bytes);
      state.SetGPR(code.rd, rd);
    }

    /** lwzu: load word and zero with update. */
    method Lwzu(code: Instruction)
      requires Valid() && code.Valid()
      modifies state.gpr
      ensures state.Snapshot() == LoadSpec(LoadOf(LWZU), code, old(state.Snapshot()), memory.bytes)
    {
      ghost var regs := state.Snapshot();
      var addr := ToU64(code.ds * 4);
      addr := Add64(addr, state.gpr[code.ra]);
      assert addr == LoadAddress(LoadOf(LWZU), code, regs);
      var rd := memory.Read(addr, 32);
      rd := ZeroExtend(rd, 4);
      assert rd == LoadedValue(LoadOf(LWZU), code, regs, memory.bytes);
      state.SetGPR(code.ra, addr);
      state.SetGPR(code.rd, rd);
    }

    /** lwzux: load word and zero with update indexed. */
    method Lwzux(code: Instruction)
      requires Valid() && code.Valid()
      modifies state.gpr
      ensures state.Snapshot() == LoadSpec(LoadOf(LWZUX), code, old(state.Snapshot()), memory.bytes)
    {
      ghost var regs := state.Snapshot();
      var addr := Add64(state.gpr[code.ra], state.gpr[code.rb]);
      assert addr == LoadAddress(LoadOf(LWZUX), code, regs);
      var rd := memory.Read(addr, 32);
      rd := ZeroExtend(rd, 4);
      assert rd == LoadedValue(LoadOf(LWZUX), code, regs, memory.bytes);
      state.SetGPR(code.ra, addr);
      state.SetGPR(code.rd, rd);
    }

    /** lwzx: load word and zero indexed. */
    method Lwzx(code: Instruction)
      requires Valid() && code.Valid()
      modifies state.gpr
      ensures state.Snapshot() == LoadSpec(LoadOf(LWZX), code, old(state.Snapshot()), memory.bytes)
    {
      ghost var regs := state.Snapshot();
      var addr := Add64(state.gpr[code.ra], state.gpr[code.rb]);
      assert addr == LoadAddress(LoadOf(LWZX), code, regs);
      var rd := memory.Read(addr, 32);
      rd := ZeroExtend(rd, 4);
      assert rd == LoadedValue(LoadOf(LWZX), code, regs, memory.bytes);
      state.SetGPR(code.rd, rd);
    }

    /** stb: store byte. */
    method Stb(code: Instruction)
      requires Valid() && code.Valid()
      modifies memory
      ensures memory.bytes == StoreMemory(StoreOf(STB), code, old(state.Snapshot()), old(memory.bytes), toSingle)
      ensures state.Snapshot() == StoreRegisters(StoreOf(STB), code, old(state.Snapshot()))
    {
      var addr := ToU64(code.d);
      var rs := state.gpr[code.Rs()];
      if code.ra != 0 {
        addr := Add64(addr, state.gpr[code.ra]);
      }
      memory.Write(addr, rs, 8);
    }

    /** stbu: store byte with update. */
    method Stbu(code: Instruction)
      requires Valid() && code.Valid()
      modifies memory, state.gpr
      ensures memory.bytes == StoreMemory(StoreOf(STBU), code, old(state.Snapshot()), old(memory.bytes), toSingle)
      ensures state.Snapshot() == StoreRegisters(StoreOf(STBU), code, old(state.Snapshot()))
    {
      var addr := ToU64(code.ds * 4);
      var rs := state.gpr[code.Rs()];
      addr := Add64(addr, state.gpr[code.ra]);
      memory.Write(addr, rs, 8);
      state.SetGPR(code.ra, addr);
    }

    /** stbux: store byte with update indexed. */
    method Stbux(code: Instruction)
      requires Valid() && code.Valid()
      modifies memory, state.gpr
      ensures memory.bytes == StoreMemory(StoreOf(STBUX), code, old(state.Snapshot()), old(memory.bytes), toSingle)
      ensures state.Snapshot() == StoreRegisters(StoreOf(STBUX), code, old(state.Snapshot()))
    {
      var addr;
      var rs := state.gpr[code.Rs()];
      addr := Add64(state.gpr[code.ra], state.gpr[code.rb]);
      memory.Write(addr, rs, 8);
      state.SetGPR(code.ra, addr);
    }

    /** stbx: store byte indexed. */
    method Stbx(code: Instruction)
      requires Valid() && code.Valid()
      modifies memory
      ensures memory.bytes == StoreMemory(StoreOf(STBX), code, old(state.Snapshot()), old(memory.bytes), toSingle)
      ensures state.Snapshot() == StoreRegisters(StoreOf(STBX), code, old(state.Snapshot()))
    {
      var addr;
      var rs := state.gpr[code.Rs()];
      addr := Add64(state.gpr[code.ra], state.gpr[code.rb]);
      memory.Write(addr, rs, 8);
    }

    /** std: store doubleword. */
    method Std(code: Instruction)
      requires Valid() && code.Valid()
      modifies memory
      ensures memory.bytes == StoreMemory(StoreOf(STD), code, old(state.Snapshot()), old(memory.bytes), toSingle)
      ensures state.Snapshot() == StoreRegisters(StoreOf(STD), code, old(state.Snapshot()))
    {
      var addr := ToU64(code.d);
      var rs := state.gpr[code.Rs()];
      if code.ra != 0 {
        addr := Add64(addr, state.gpr[code.ra]);
      }
      memory.Write(addr, rs, 8);
    }

    /** stdu: store doubleword with update. */
    method Stdu(code: Instruction)
      requires Valid() && code.Valid()
      modifies memory, state.gpr
      ensures memory.bytes == StoreMemory(StoreOf(STDU), code, old(state.Snapshot()), old(memory.bytes), toSingle)
      ensures state.Snapshot() == StoreRegisters(StoreOf(STDU), code, old(state.Snapshot()))
    {
      var addr := ToU64(code.ds * 4);
      var rs := state.gpr[code.Rs()];
      addr := Add64(addr, state.gpr[code.ra]);
      memory.Write(addr, rs, 8);
      state.SetGPR(code.ra, addr);
    }

    /** stdux: store doubleword with update indexed. */
    method Stdux(code: Instruction)
      requires Valid() && code.Valid()
      modifies memory, state.gpr
      ensures memory.bytes == StoreMemory(StoreOf(STDUX), code, old(state.Snapshot()), old(memory.bytes), toSingle)
      ensures state.Snapshot() == StoreRegisters(StoreOf(STDUX), code, old(state.Snapshot()))
    {
      var addr;
      var rs := state.gpr[code.Rs()];
      addr := Add64(state.gpr[code.ra], state.gpr[code.rb]);
      memory.Write(addr, rs, 8);
      state.SetGPR(code.ra, addr);
    }

    /** stdx: store doubleword indexed. */
    method Stdx(code: Instruction)
      requires Valid() && code.Valid()
      modifies memory
      ensures memory.bytes == StoreMemory(StoreOf(STDX), code, old(state.Snapshot()), old(memory.bytes), toSingle)
      ensures state.Snapshot() == StoreRegisters(StoreOf(STDX), code, old(state.Snapshot()))
    {
      var addr;
      var rs := state.gpr[code.Rs()];
      addr := Add64(state.gpr[code.ra], state.gpr[code.rb]);
      memory.Write(addr, rs, 8);
    }

    /** stfd: store floating-point double. */
    method Stfd(code: Instruction)
      requires Valid() && code.Valid()
      modifies memory
      ensures memory.bytes == StoreMemory(StoreOf(STFD), code, old(state.Snapshot()), old(memory.bytes), toSingle)
      ensures state.Snapshot() == StoreRegisters(StoreOf(STFD), code, old(state.Snapshot()))
    {
      var addr := ToU64(code.d);
      var frs := state.fpr[code.Frs()];
      if code.ra != 0 {
        addr := Add64(addr, state.gpr[code.ra]);
      }
      memory.Write(addr, frs, 8);
    }

    /** stfdu: store floating-point double with update. */
    method Stfdu(code: Instruction)
      requires Valid() && code.Valid()
      modifies memory, state.gpr
      ensures memory.bytes == StoreMemory(StoreOf(STFDU), code, old(state.Snapshot()), old(memory.bytes), toSingle)
      ensures state.Snapshot() == StoreRegisters(StoreOf(STFDU), code, old(state.Snapshot()))
    {
      var addr := ToU64(code.d);
      var frs := state.fpr[code.Frs()];
      addr := Add64(addr, state.gpr[code.ra]);
      memory.Write(addr, frs, 8);
      state.SetGPR(code.ra, addr);
    }

    /** stfdux: store floating-point double with update indexed. */
    method Stfdux(code: Instruction)
      requires Valid() && code.Valid()
      modifies memory, state.gpr
      ensures memory.bytes == StoreMemory(StoreOf(STFDUX), code, old(state.Snapshot()), old(memory.bytes), toSingle)
      ensures state.Snapshot() == StoreRegisters(StoreOf(STFDUX), code, old(state.Snapshot()))
    {
      var addr;
      var frs := state.fpr[code.Frs()];
      addr := Add64(state.gpr[code.ra], state.gpr[code.rb]);
      memory.Write(addr, frs, 8);
      state.SetGPR(code.ra, addr);
    }

    /** stfdx: store floating-point double indexed. */
    method Stfdx(code: Instruction)
      requires Valid() && code.Valid()
      modifies memory
      ensures memory.bytes == StoreMemory(StoreOf(STFDX), code, old(state.Snapshot()), old(memory.bytes), toSingle)
      ensures state.Snapshot() == StoreRegisters(StoreOf(STFDX), code, old(state.Snapshot()))
    {
      var addr;
      var frs := state.fpr[code.Frs()];
      addr := Add64(state.gpr[code.ra], state.gpr[code.rb]);
      memory.Write(addr, frs, 8);
    }

    /** stfs: store floating-point single. */
    method Stfs(code: Instruction)
      requires Valid() && code.Valid()
      modifies memory
      ensures memory.bytes == StoreMemory(StoreOf(STFS), code, old(state.Snapshot()), old(memory.bytes), toSingle)
      ensures state.Snapshot() == StoreRegisters(StoreOf(STFS), code, old(state.Snapshot()))
    {
      var addr := ToU64(code.d);
      var frs := state.fpr[code.Frs()];
      if code.ra != 0 {
        addr := Add64(addr, state.gpr[code.ra]);
      }
      var single := toSingle(frs);
      memory.Write(addr, single, 4);
    }

    /** stfsu: store floating-point single with update. */
    method Stfsu(code: Instruction)
      requires Valid() && code.Valid()
      modifies memory, state.gpr
      ensures memory.bytes == StoreMemory(StoreOf(STFSU), code, old(state.Snapshot()), old(memory.bytes), toSingle)
      ensures state.Snapshot() == StoreRegisters(StoreOf(STFSU), code, old(state.Snapshot()))
    {
      var addr := ToU64(code.d);
      var frs := state.fpr[code.Frs()];
      addr := Add64(addr, state.gpr[code.ra]);
      var single := toSingle(frs);
      memory.Write(addr, single, 4);
      state.SetGPR(code.ra, addr);
    }

    /** stfsux: store floating-point single with update indexed. */
    method Stfsux(code: Instruction)
      requires Valid() && code.Valid()
      modifies memory, state.gpr
      ensures memory.bytes == StoreMemory(StoreOf(STFSUX), code, old(state.Snapshot()), old(memory.bytes), toSingle)
      ensures state.Snapshot() == StoreRegisters(StoreOf(STFSUX), code, old(state.Snapshot()))
    {
      var addr;
      var frs := state.fpr[code.Frs()];
      addr := Add64(state.gpr[code.ra], state.gpr[code.rb]);
      var single := toSingle(frs);
      memory.Write(addr, single, 4);
      state.SetGPR(code.ra, addr);
    }

    /** stfsx: store floating-point single indexed. */
    method Stfsx(code: Instruction)
      requires Valid() && code.Valid()
      modifies memory
      ensures memory.bytes == StoreMemory(StoreOf(STFSX), code, old(state.Snapshot()), old(memory.bytes), toSingle)
      ensures state.Snapshot() == StoreRegisters(StoreOf(STFSX), code, old(state.Snapshot()))
    {
      var addr;
      var frs := state.fpr[code.Frs()];
      addr := Add64(state.gpr[code.ra], state.gpr[code.rb]);
      var single := toSingle(frs);
      memory.Write(addr, single, 4);
    }

    /** sth: store half-word. */
    method Sth(code: Instruction)
      requires Valid() && code.Valid()
      modifies memory
      ensures memory.bytes == StoreMemory(StoreOf(STH), code, old(state.Snapshot()), old(memory.bytes), toSingle)
      ensures state.Snapshot() == StoreRegisters(StoreOf(STH), code, old(state.Snapshot()))
    {
      var addr := ToU64(code.d);
      var rs := state.gpr[code.Rs()];
      if code.ra != 0 {
        addr := Add64(addr, state.gpr[code.ra]);
      }
      memory.Write(addr, rs, 8);
    }

    /** sthu: store half-word with update. */
    method Sthu(code: Instruction)
      requires Valid() && code.Valid()
      modifies memory, state.gpr
      ensures memory.bytes == StoreMemory(StoreOf(STHU), code, old(state.Snapshot()), old(memory.bytes), toSingle)
      ensures state.Snapshot() == StoreRegisters(StoreOf(STHU), code, old(state.Snapshot()))
    {
      var addr := ToU64(code.ds * 4);
      var rs := state.gpr[code.Rs()];
      addr := Add64(addr, state.gpr[code.ra]);
      memory.Write(addr, rs, 8);
      state.SetGPR(code.ra, addr);
    }

    /** sthux: store half-word with update indexed. */
    method Sthux(code: Instruction)
      requires Valid() && code.Valid()
      modifies memory, state.gpr
      ensures memory.bytes == StoreMemory(StoreOf(STHUX), code, old(state.Snapshot()), old(memory.bytes), toSingle)
      ensures state.Snapshot() == StoreRegisters(StoreOf(STHUX), code, old(state.Snapshot()))
    {
      var addr;
      var rs := state.gpr[code.Rs()];
      addr := Add64(state.gpr[code.ra], state.gpr[code.rb]);
      memory.Write(addr, rs, 8);
      state.SetGPR(code.ra, addr);
    }

    /** sthx: store half-word indexed. */
    method Sthx(code: Instruction)
      requires Valid() && code.Valid()
      modifies memory
      ensures memory.bytes == StoreMemory(StoreOf(STHX), code, old(state.Snapshot()), old(memory.bytes), toSingle)
      ensures state.Snapshot() == StoreRegisters(StoreOf(STHX), code, old(state.Snapshot()))
    {
      var addr;
      var rs := state.gpr[code.Rs()];
      addr := Add64(state.gpr[code.ra], state.gpr[code.rb]);
      memory.Write(addr, rs, 8);
    }

    /** stw: store word. */
    method Stw(code: Instruction)
      requires Valid() && code.Valid()
      modifies memory
      ensures memory.bytes == StoreMemory(StoreOf(STW), code, old(state.Snapshot()), old(memory.bytes), toSingle)
      ensures state.Snapshot() == StoreRegisters(StoreOf(STW), code, old(state.Snapshot()))
    {
      var addr := ToU64(code.d);
      var rs := state.gpr[code.Rs()];
      if code.ra != 0 {
        addr := Add64(addr, state.gpr[code.ra]);
      }
      memory.Write(addr, rs, 8);
    }

    /** stwu: store word with update. */
    method Stwu(code: Instruction)
      requires Valid() && code.Valid()
      modifies memory, state.gpr
      ensures memory.bytes == StoreMemory(StoreOf(STWU), code, old(state.Snapshot()), old(memory.bytes), toSingle)
      ensures state.Snapshot() == StoreRegisters(StoreOf(STWU), code, old(state.Snapshot()))
    {
      var addr := ToU64(code.ds * 4);
      var rs := state.gpr[code.Rs()];
      addr := Add64(addr, state.gpr[code.ra]);
      memory.Write(addr, rs, 8);
      state.SetGPR(code.ra, addr);
    }

    /** stwux: store word with update indexed. */
    method Stwux(code: Instruction)
      requires Valid() && code.Valid()
      modifies memory, state.gpr
      ensures memory.bytes == StoreMemory(StoreOf(STWUX), code, old(state.Snapshot()), old(memory.bytes), toSingle)
      ensures state.Snapshot() == StoreRegisters(StoreOf(STWUX), code, old(state.Snapshot()))
    {
      var addr;
      var rs := state.gpr[code.Rs()];
      addr := Add64(state.gpr[code.ra], state.gpr[code.rb]);
      memory.Write(addr, rs, 8);
      state.SetGPR(code.ra, addr);
    }

    /** stwx: store word indexed. */
    method Stwx(code: Instruction)
      requires Valid() && code.Valid()
      modifies memory
      ensures memory.bytes == StoreMemory(StoreOf(STWX), code, old(state.Snapshot()), old(memory.bytes), toSingle)
      ensures state.Snapshot() == StoreRegisters(StoreOf(STWX), code, old(state.Snapshot()))
    {
      var addr;
      var rs := state.gpr[code.Rs()];
      addr := Add64(state.gpr[code.ra], state.gpr[code.rb]);
      memory.Write(addr, rs, 8);
    }

    /** ldarx: load doubleword and reserve indexed; not implemented, so it emits no code. */
    method Ldarx(code: Instruction)
      ensures state.Snapshot() == old(state.Snapshot()) && memory.bytes == old(memory.bytes)
    {
    }

    /** ldbrx: load doubleword byte-reverse indexed; not implemented, so it emits no code. */
    method Ldbrx(code: Instruction)
      ensures state.Snapshot() == old(state.Snapshot()) && memory.bytes == old(memory.bytes)
    {
    }

    /** lhbrx: load half-word byte-reverse indexed; not implemented, so it emits no code. */
    method Lhbrx(code: Instruction)
      ensures state.Snapshot() == old(state.Snapshot()) && memory.bytes == old(memory.bytes)
    {
    }

    /** lmw: load multiple word; not implemented, so it emits no code. */
    method Lmw(code: Instruction)
      ensures state.Snapshot() == old(state.Snapshot()) && memory.bytes == old(memory.bytes)
    {
    }

    /** lswi: load string word immediate; not implemented, so it emits no code. */
    method Lswi(code: Instruction)
      ensures state.Snapshot() == old(state.Snapshot()) && memory.bytes == old(memory.bytes)
    {
    }

    /** lswx: load string word indexed; not implemented, so it emits no code. */
    method Lswx(code: Instruction)
      ensures state.Snapshot() == old(state.Snapshot()) && memory.bytes == old(memory.bytes)
    {
    }

    /** lwarx: load word and reserve indexed; not implemented, so it emits no code. */
    method Lwarx(code: Instruction)
      ensures state.Snapshot() == old(state.Snapshot()) && memory.bytes == old(memory.bytes)
    {
    }

    /** lwbrx: load word byte-reverse indexed; not implemented, so it emits no code. */
    method Lwbrx(code: Instruction)
      ensures state.Snapshot() == old(state.Snapshot()) && memory.bytes == old(memory.bytes)
    {
    }

    /** stdcx: store doubleword conditional indexed; not implemented, so it emits no code. */
    method Stdcx_(code: Instruction)
      ensures state.Snapshot() == old(state.Snapshot()) && memory.bytes == old(memory.bytes)
    {
    }

    /** stfiwx: store floating-point as integer word indexed; not implemented, so it emits no code. */
    method Stfiwx(code: Instruction)
      ensures state.Snapshot() == old(state.Snapshot()) && memory.bytes == old(memory.bytes)
    {
    }

    /** sthbrx: store half-word byte-reverse indexed; not implemented, so it emits no code. */
    method Sthbrx(code: Instruction)
      ensures state.Snapshot() == old(state.Snapshot()) && memory.bytes == old(memory.bytes)
    {
    }

    /** stmw: store multiple word; not implemented, so it emits no code. */
    method Stmw(code: Instruction)
      ensures state.Snapshot() == old(state.Snapshot()) && memory.bytes == old(memory.bytes)
    {
    }

    /** stswi: store string word immediate; not implemented, so it emits no code. */
    method Stswi(code: Instruction)
      ensures state.Snapshot() == old(state.Snapshot()) && memory.bytes == old(memory.bytes)
    {
    }

    /** stswx: store string word indexed; not implemented, so it emits no code. */
    method Stswx(code: Instruction)
      ensures state.Snapshot() == old(state.Snapshot()) && memory.bytes == old(memory.bytes)
    {
    }

    /** stwbrx: store word byte-reverse indexed; not implemented, so it emits no code. */
    method Stwbrx(code: Instruction)
      ensures state.Snapshot() == old(state.Snapshot()) && memory.bytes == old(memory.bytes)
    {
    }

    /** stwcx: store word conditional indexed; not implemented, so it emits no code. */
    method Stwcx_(code: Instruction)
      ensures state.Snapshot() == old(state.Snapshot()) && memory.bytes == old(memory.bytes)
    {
    }

    /** eieio: enforce in-order execution of I/O; not implemented, so it emits no code. */
    method Eieio(code: Instruction)
      ensures state.Snapshot() == old(state.Snapshot()) && memory.bytes == old(memory.bytes)
    {
    }

    /** sync: synchronize; not implemented, so it emits no code. */
    method Sync(code: Instruction)
      ensures state.Snapshot() == old(state.Snapshot()) && memory.bytes == old(memory.bytes)
    {
    }

    /** isync: instruction synchronize; not implemented, so it emits no code. */
    method Isync(code: Instruction)
      ensures state.Snapshot() == old(state.Snapshot()) && memory.bytes == old(memory.bytes)
    {
    }

  }
}
