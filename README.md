# nucleus PPU memory access, PPU thread and RSX fragment-program layout in Dafny

This project models three parts of the nucleus PlayStation 3 emulator.

- **PPU recompiler, memory instructions** (`RecompilerMemory`, on top of `Guest`). For each
  PowerPC load and store, the recompiler emits LLVM code. The model states what that code does
  to the PPU register file and to big-endian guest memory. It covers the effective address
  (EA) of every addressing form, the width read or written, zero or sign extension, the
  register bank that receives a loaded value, and the write-back of the EA to `ra` in update
  forms. The class `Recompiler` holds the register file (`State`, with `gpr`/`fpr` arrays) and
  guest memory (`GuestMemory`). It has one method per instruction, each proved against a
  specification function: `LoadSpec` for loads, and `StoreMemory` with `StoreRegisters` for
  stores. The empty methods of unimplemented instructions are proved to change nothing.
- **PPU thread** (`PpuThread`). This part covers:
  - the constructor's register and stack set-up;
  - the destructor freeing the stack block;
  - the controller calls `run`, `pause` and `stop`, and `start`;
  - `task` in both translator modes. The interpreter mode is an event loop that ends on STOP
    or when pc reaches 0. The recompiler mode dispatches to the recompiled function at pc of
    every segment that contains pc. It marshals the arguments from `gpr[3+i]`/`fpr[1+i]` and
    writes the result back.

  `Thread` is a class whose `event` and `status` fields the methods update. The loop and the
  dispatch are proved against the functions `InterpreterLoop` and `Dispatch`.
- **RSX fragment-program instruction layout** (`RsxFp`, `RsxFpOpcodes`). This part covers:
  - the `FIELD(from, to)` bit fields of the four instruction words, on `bv32`;
  - the source-operand word and its round trip;
  - the byte remap that the header documents;
  - the opcode constants, and which of them fit the 6-bit `opcode` field.

`LoadSpec`, `StoreMemory`, `StoreRegisters`, `InitialRegisters`, `InterpreterLoop`, `WriteBack`
and `Dispatch` are specification functions. The methods that are tied to them and the lemmas
about them are listed below.

Where the system's design description and the code disagree, the model follows the code:

- The recompiler dispatch calls the function at pc of *every* segment that contains pc, in
  order. There is no "first match wins". A function is always looked up, and there is no
  "absent, skip" case.
- After an integer result, `fpr[1]` is also overwritten. The `switch` has no `break` there, so
  more than one result register is written.
- When LV2 is not yet initialised, the started host thread initialises it and does *not*
  enter `task`. `Start` returns whether `task` is entered.
- The indexed forms add `gpr[ra]` even when `ra` is 0. Only the non-indexed, non-update forms
  test `ra`.

## Model

| member | source | states |
|---|---|---|
| Guest.ZeroExtend | nucleus/cpu/ppu/recompiler/ppu_recompiler_memory.cpp:28 | the zero-extended value keeps the n-byte value in its low bytes, and every byte above them is 0 |
| Guest.SignExtend | nucleus/cpu/ppu/recompiler/ppu_recompiler_memory.cpp:232 | the sign-extended value keeps the low n bytes and the signed value. The bytes above are all ones exactly when the sign bit of the n-byte value is set, and otherwise 0 |
| Guest.Load | nucleus/cpu/ppu/recompiler/ppu_recompiler_memory.cpp:27 | an n-byte big-endian read is below 256^n |
| Guest.LoadStore | nucleus/cpu/ppu/recompiler/ppu_recompiler_memory.cpp:450 | reading back the width just written, at the same address, gives the stored value modulo 256^n |
| Guest.StoreFrame | nucleus/cpu/ppu/recompiler/ppu_recompiler_memory.cpp:450 | a write leaves every byte outside its n-byte range unchanged |
| Guest.GuestMemory.Read | nucleus/cpu/ppu/recompiler/ppu_recompiler_memory.cpp:27 | `readMemory(addr, bits)` delivers a value that fits in bits/8 bytes |
| Guest.GuestMemory.Write | nucleus/cpu/ppu/recompiler/ppu_recompiler_memory.cpp:450 | `writeMemory` leaves guest memory as the old memory with the value stored big-endian at the address |
| Guest.State.constructor | nucleus/cpu/ppu/ppu_thread.cpp:28 | a fresh register file has every register 0, and separate GPR and FPR arrays |
| Guest.State.SetGPR | nucleus/cpu/ppu/recompiler/ppu_recompiler_memory.cpp:29 | `setGPR(i, v)` changes gpr[i] to v and nothing else |
| Guest.State.SetFPR | nucleus/cpu/ppu/recompiler/ppu_recompiler_memory.cpp:171 | `setFPR(i, v)` changes fpr[i] to v and nothing else |
| Guest.State.Restore | nucleus/cpu/ppu/ppu_thread.cpp:114 | after an interpreter step, the register file is exactly the step's result |
| RecompilerMemory.LoadOf | nucleus/cpu/ppu/recompiler/ppu_recompiler_memory.cpp:18-439 | every load the recompiler emits reads 1, 2, 4 or 8 bytes, and sign-extends only values narrower than 8 bytes |
| RecompilerMemory.StoreOf | nucleus/cpu/ppu/recompiler/ppu_recompiler_memory.cpp:441-741 | every store the recompiler emits writes 1, 2, 4 or 8 bytes |
| RecompilerMemory.BaseFormAddress | nucleus/cpu/ppu/recompiler/ppu_recompiler_memory.cpp:20-25 | the base-form EA is displacement + (ra or 0) modulo 2^64; with ra = 0 it is the displacement alone |
| RecompilerMemory.UpdateFormAddress | nucleus/cpu/ppu/recompiler/ppu_recompiler_memory.cpp:34-37 | the update-form EA is displacement + gpr[ra] modulo 2^64, with no special case for ra = 0 |
| RecompilerMemory.IndexedFormAddress | nucleus/cpu/ppu/recompiler/ppu_recompiler_memory.cpp:47-50 | the indexed EA is gpr[ra] + gpr[rb] modulo 2^64, and does not depend on the displacement fields |
| RecompilerMemory.LoadEffect | nucleus/cpu/ppu/recompiler/ppu_recompiler_memory.cpp:18-439 | a load changes only its target register and, in update forms, ra. When ra == rd the loaded value wins. pc, CR and the time base are kept |
| RecompilerMemory.UpdateLoadKeepsLoadedValue | nucleus/cpu/ppu/recompiler/ppu_recompiler_memory.cpp:41-42 | in an update load with ra == rd, the register ends up holding the loaded value, not the EA |
| RecompilerMemory.LoadExtension | nucleus/cpu/ppu/recompiler/ppu_recompiler_memory.cpp:222-234 | zero-extending loads keep the value with 0 above it. Algebraic loads keep the low bytes and the signed value, and fill the upper bytes from the sign bit. The other loads keep the value |
| RecompilerMemory.FloatLoadRouting | nucleus/cpu/ppu/recompiler/ppu_recompiler_memory.cpp:126-220 | lfdx and lfsx write the loaded bits to fpr[frd] and change no GPR. lfd, lfdu, lfdux, lfs, lfsu and lfsux write gpr[frd] and change no FPR |
| RecompilerMemory.StoreEffect | nucleus/cpu/ppu/recompiler/ppu_recompiler_memory.cpp:441-741 | a store reads back its value (truncated to the width written) at EA, changes no byte outside that range, and changes no register except ra in update forms |
| RecompilerMemory.StoreReadsSourceBeforeWriteBack | nucleus/cpu/ppu/recompiler/ppu_recompiler_memory.cpp:453-462 | an update store with rs == ra stores ra's old value, and ra then holds the EA |
| RecompilerMemory.DoubleStoreKeepsBits | nucleus/cpu/ppu/recompiler/ppu_recompiler_memory.cpp:531-576 | stfd, stfdu, stfdux and stfdx store the FPR's 64-bit pattern unchanged: reading 8 bytes back at EA gives fpr[frs] |
| RecompilerMemory.DoubleStoreShape | nucleus/cpu/ppu/recompiler/ppu_recompiler_memory.cpp:531-576 | the double stores take the FPR's bit pattern and write 8 bytes |
| RecompilerMemory.LoadAddressAsWritten | nucleus/cpu/ppu/recompiler/ppu_recompiler_memory.cpp:20 | a non-indexed load's EA is the architectural displacement plus (ra or 0) or ra. The exception is lbz, lbzu, lha, lhau, lhz, lhzu, lwz and lwzu, which lose `d % 4` |
| RecompilerMemory.IntendedLoadOf | nucleus/cpu/ppu/recompiler/ppu_recompiler_memory.cpp:18-439 | the corrected load table sends a load's value to the GPR bank exactly when it is not a floating-point load |
| RecompilerMemory.IntendedLoadAddress | nucleus/cpu/ppu/recompiler/ppu_recompiler_memory.cpp:20 | with the corrected table, every non-indexed load adds exactly the architectural displacement |
| RecompilerMemory.StoreAddressAsWritten | nucleus/cpu/ppu/recompiler/ppu_recompiler_memory.cpp:455 | a non-indexed store's EA is the architectural displacement plus (ra or 0) or ra. The exception is stbu, sthu and stwu, which lose `d % 4` |
| RecompilerMemory.IntendedStoreOf | nucleus/cpu/ppu/recompiler/ppu_recompiler_memory.cpp:441-741 | the corrected store table writes each store's architectural width (1, 2, 4 or 8 bytes) |
| RecompilerMemory.IntendedStoreAddress | nucleus/cpu/ppu/recompiler/ppu_recompiler_memory.cpp:455 | with the corrected table, every non-indexed store adds exactly the architectural displacement |
| RecompilerMemory.LbzDisplacementFive | nucleus/cpu/ppu/recompiler/ppu_recompiler_memory.cpp:18-30 | `lbz r3, 5(0)` reads address 4 as written; the corrected table reads 5 |
| RecompilerMemory.StbWritesEightBytes | nucleus/cpu/ppu/recompiler/ppu_recompiler_memory.cpp:441-451 | `stb r3, 0x1000(0)` with r3 = 0x41 writes 0 at 0x1000 and 0x41 at 0x1007 |
| RecompilerMemory.IntendedStbWritesOneByte | nucleus/cpu/ppu/recompiler/ppu_recompiler_memory.cpp:441-451 | the corrected stb writes the low byte of r3 at 0x1000 and leaves every other byte alone |
| RecompilerMemory.IntendedStoreWidth | nucleus/cpu/ppu/recompiler/ppu_recompiler_memory.cpp:441-741 | every corrected store reads back its value, truncated to its architectural width, and writes no byte beyond that width |
| RecompilerMemory.IntendedFloatLoad | nucleus/cpu/ppu/recompiler/ppu_recompiler_memory.cpp:126-220 | a corrected floating-point load writes fpr[frd] and changes no GPR except ra in update forms |
| RecompilerMemory.Recompiler.Lbz | nucleus/cpu/ppu/recompiler/ppu_recompiler_memory.cpp:18-30 | the register file becomes `LoadSpec` of lbz: EA = (ra or 0) + `ds << 2`, a byte read big-endian, zero-extended, into gpr[rd]; nothing else changes |
| RecompilerMemory.Recompiler.Lbzu | nucleus/cpu/ppu/recompiler/ppu_recompiler_memory.cpp:32-43 | the register file becomes `LoadSpec` of lbzu: EA = ra + `ds << 2`, a byte read big-endian, zero-extended, into gpr[rd]; ra := EA before the target is written; nothing else changes |
| RecompilerMemory.Recompiler.Lbzux | nucleus/cpu/ppu/recompiler/ppu_recompiler_memory.cpp:45-56 | the register file becomes `LoadSpec` of lbzux: EA = ra + rb, a byte read big-endian, zero-extended, into gpr[rd]; ra := EA before the target is written; nothing else changes |
| RecompilerMemory.Recompiler.Lbzx | nucleus/cpu/ppu/recompiler/ppu_recompiler_memory.cpp:58-68 | the register file becomes `LoadSpec` of lbzx: EA = ra + rb, a byte read big-endian, zero-extended, into gpr[rd]; nothing else changes |
| RecompilerMemory.Recompiler.Ld | nucleus/cpu/ppu/recompiler/ppu_recompiler_memory.cpp:70-81 | the register file becomes `LoadSpec` of ld: EA = (ra or 0) + `ds << 2`, a doubleword read big-endian, unextended, into gpr[rd]; nothing else changes |
| RecompilerMemory.Recompiler.Ldu | nucleus/cpu/ppu/recompiler/ppu_recompiler_memory.cpp:91-101 | the register file becomes `LoadSpec` of ldu: EA = ra + `ds << 2`, a doubleword read big-endian, unextended, into gpr[rd]; ra := EA before the target is written; nothing else changes |
| RecompilerMemory.Recompiler.Ldux | nucleus/cpu/ppu/recompiler/ppu_recompiler_memory.cpp:103-113 | the register file becomes `LoadSpec` of ldux: EA = ra + rb, a doubleword read big-endian, unextended, into gpr[rd]; ra := EA before the target is written; nothing else changes |
| RecompilerMemory.Recompiler.Ldx | nucleus/cpu/ppu/recompiler/ppu_recompiler_memory.cpp:115-124 | the register file becomes `LoadSpec` of ldx: EA = ra + rb, a doubleword read big-endian, unextended, into gpr[rd]; nothing else changes |
| RecompilerMemory.Recompiler.Lfd | nucleus/cpu/ppu/recompiler/ppu_recompiler_memory.cpp:126-137 | the register file becomes `LoadSpec` of lfd: EA = (ra or 0) + `d`, a doubleword read big-endian, unextended, into gpr[frd]; nothing else changes |
| RecompilerMemory.Recompiler.Lfdu | nucleus/cpu/ppu/recompiler/ppu_recompiler_memory.cpp:139-149 | the register file becomes `LoadSpec` of lfdu: EA = ra + `d`, a doubleword read big-endian, unextended, into gpr[frd]; ra := EA before the target is written; nothing else changes |
| RecompilerMemory.Recompiler.Lfdux | nucleus/cpu/ppu/recompiler/ppu_recompiler_memory.cpp:151-161 | the register file becomes `LoadSpec` of lfdux: EA = ra + rb, a doubleword read big-endian, unextended, into gpr[frd]; ra := EA before the target is written; nothing else changes |
| RecompilerMemory.Recompiler.Lfdx | nucleus/cpu/ppu/recompiler/ppu_recompiler_memory.cpp:163-172 | the register file becomes `LoadSpec` of lfdx: EA = ra + rb, a doubleword read big-endian, unextended, into fpr[frd]; nothing else changes |
| RecompilerMemory.Recompiler.Lfs | nucleus/cpu/ppu/recompiler/ppu_recompiler_memory.cpp:174-185 | the register file becomes `LoadSpec` of lfs: EA = (ra or 0) + `d`, a word read big-endian, unextended, into gpr[frd]; nothing else changes |
| RecompilerMemory.Recompiler.Lfsu | nucleus/cpu/ppu/recompiler/ppu_recompiler_memory.cpp:187-197 | the register file becomes `LoadSpec` of lfsu: EA = ra + `d`, a word read big-endian, unextended, into gpr[frd]; ra := EA before the target is written; nothing else changes |
| RecompilerMemory.Recompiler.Lfsux | nucleus/cpu/ppu/recompiler/ppu_recompiler_memory.cpp:199-209 | the register file becomes `LoadSpec` of lfsux: EA = ra + rb, a word read big-endian, unextended, into gpr[frd]; ra := EA before the target is written; nothing else changes |
| RecompilerMemory.Recompiler.Lfsx | nucleus/cpu/ppu/recompiler/ppu_recompiler_memory.cpp:211-220 | the register file becomes `LoadSpec` of lfsx: EA = ra + rb, a word read big-endian, unextended, into fpr[frd]; nothing else changes |
| RecompilerMemory.Recompiler.Lha | nucleus/cpu/ppu/recompiler/ppu_recompiler_memory.cpp:222-234 | the register file becomes `LoadSpec` of lha: EA = (ra or 0) + `ds << 2`, a half-word read big-endian, sign-extended, into gpr[rd]; nothing else changes |
| RecompilerMemory.Recompiler.Lhau | nucleus/cpu/ppu/recompiler/ppu_recompiler_memory.cpp:236-247 | the register file becomes `LoadSpec` of lhau: EA = ra + `ds << 2`, a half-word read big-endian, sign-extended, into gpr[rd]; ra := EA before the target is written; nothing else changes |
| RecompilerMemory.Recompiler.Lhaux | nucleus/cpu/ppu/recompiler/ppu_recompiler_memory.cpp:249-260 | the register file becomes `LoadSpec` of lhaux: EA = ra + rb, a half-word read big-endian, sign-extended, into gpr[rd]; ra := EA before the target is written; nothing else changes |
| RecompilerMemory.Recompiler.Lhax | nucleus/cpu/ppu/recompiler/ppu_recompiler_memory.cpp:262-272 | the register file becomes `LoadSpec` of lhax: EA = ra + rb, a half-word read big-endian, sign-extended, into gpr[rd]; nothing else changes |
| RecompilerMemory.Recompiler.Lhz | nucleus/cpu/ppu/recompiler/ppu_recompiler_memory.cpp:278-290 | the register file becomes `LoadSpec` of lhz: EA = (ra or 0) + `ds << 2`, a half-word read big-endian, zero-extended, into gpr[rd]; nothing else changes |
| RecompilerMemory.Recompiler.Lhzu | nucleus/cpu/ppu/recompiler/ppu_recompiler_memory.cpp:292-303 | the register file becomes `LoadSpec` of lhzu: EA = ra + `ds << 2`, a half-word read big-endian, zero-extended, into gpr[rd]; ra := EA before the target is written; nothing else changes |
| RecompilerMemory.Recompiler.Lhzux | nucleus/cpu/ppu/recompiler/ppu_recompiler_memory.cpp:305-316 | the register file becomes `LoadSpec` of lhzux: EA = ra + rb, a half-word read big-endian, zero-extended, into gpr[rd]; ra := EA before the target is written; nothing else changes |
| RecompilerMemory.Recompiler.Lhzx | nucleus/cpu/ppu/recompiler/ppu_recompiler_memory.cpp:318-328 | the register file becomes `LoadSpec` of lhzx: EA = ra + rb, a half-word read big-endian, zero-extended, into gpr[rd]; nothing else changes |
| RecompilerMemory.Recompiler.Lwa | nucleus/cpu/ppu/recompiler/ppu_recompiler_memory.cpp:342-354 | the register file becomes `LoadSpec` of lwa: EA = (ra or 0) + `ds << 2`, a word read big-endian, sign-extended, into gpr[rd]; nothing else changes |
| RecompilerMemory.Recompiler.Lwaux | nucleus/cpu/ppu/recompiler/ppu_recompiler_memory.cpp:360-371 | the register file becomes `LoadSpec` of lwaux: EA = ra + rb, a word read big-endian, sign-extended, into gpr[rd]; ra := EA before the target is written; nothing else changes |
| RecompilerMemory.Recompiler.Lwax | nucleus/cpu/ppu/recompiler/ppu_recompiler_memory.cpp:373-383 | the register file becomes `LoadSpec` of lwax: EA = ra + rb, a word read big-endian, sign-extended, into gpr[rd]; nothing else changes |
| RecompilerMemory.Recompiler.Lwz | nucleus/cpu/ppu/recompiler/ppu_recompiler_memory.cpp:389-401 | the register file becomes `LoadSpec` of lwz: EA = (ra or 0) + `ds << 2`, a word read big-endian, zero-extended, into gpr[rd]; nothing else changes |
| RecompilerMemory.Recompiler.Lwzu | nucleus/cpu/ppu/recompiler/ppu_recompiler_memory.cpp:403-414 | the register file becomes `LoadSpec` of lwzu: EA = ra + `ds << 2`, a word read big-endian, zero-extended, into gpr[rd]; ra := EA before the target is written; nothing else changes |
| RecompilerMemory.Recompiler.Lwzux | nucleus/cpu/ppu/recompiler/ppu_recompiler_memory.cpp:416-427 | the register file becomes `LoadSpec` of lwzux: EA = ra + rb, a word read big-endian, zero-extended, into gpr[rd]; ra := EA before the target is written; nothing else changes |
| RecompilerMemory.Recompiler.Lwzx | nucleus/cpu/ppu/recompiler/ppu_recompiler_memory.cpp:429-439 | the register file becomes `LoadSpec` of lwzx: EA = ra + rb, a word read big-endian, zero-extended, into gpr[rd]; nothing else changes |
| RecompilerMemory.Recompiler.Stb | nucleus/cpu/ppu/recompiler/ppu_recompiler_memory.cpp:441-451 | memory becomes `StoreMemory` of stb: gpr[rs] written as 8 big-endian bytes at EA = (ra or 0) + `d`; no register changes |
| RecompilerMemory.Recompiler.Stbu | nucleus/cpu/ppu/recompiler/ppu_recompiler_memory.cpp:453-462 | memory becomes `StoreMemory` of stbu: gpr[rs] written as 8 big-endian bytes at EA = ra + `ds << 2`; ra := EA afterwards, the stored value being read first |
| RecompilerMemory.Recompiler.Stbux | nucleus/cpu/ppu/recompiler/ppu_recompiler_memory.cpp:464-473 | memory becomes `StoreMemory` of stbux: gpr[rs] written as 8 big-endian bytes at EA = ra + rb; ra := EA afterwards, the stored value being read first |
| RecompilerMemory.Recompiler.Stbx | nucleus/cpu/ppu/recompiler/ppu_recompiler_memory.cpp:475-482 | memory becomes `StoreMemory` of stbx: gpr[rs] written as 8 big-endian bytes at EA = ra + rb; no register changes |
| RecompilerMemory.Recompiler.Std | nucleus/cpu/ppu/recompiler/ppu_recompiler_memory.cpp:484-494 | memory becomes `StoreMemory` of std: gpr[rs] written as 8 big-endian bytes at EA = (ra or 0) + `d`; no register changes |
| RecompilerMemory.Recompiler.Stdu | nucleus/cpu/ppu/recompiler/ppu_recompiler_memory.cpp:500-509 | memory becomes `StoreMemory` of stdu: gpr[rs] written as 8 big-endian bytes at EA = ra + `ds << 2`; ra := EA afterwards, the stored value being read first |
| RecompilerMemory.Recompiler.Stdux | nucleus/cpu/ppu/recompiler/ppu_recompiler_memory.cpp:511-520 | memory becomes `StoreMemory` of stdux: gpr[rs] written as 8 big-endian bytes at EA = ra + rb; ra := EA afterwards, the stored value being read first |
| RecompilerMemory.Recompiler.Stdx | nucleus/cpu/ppu/recompiler/ppu_recompiler_memory.cpp:522-529 | memory becomes `StoreMemory` of stdx: gpr[rs] written as 8 big-endian bytes at EA = ra + rb; no register changes |
| RecompilerMemory.Recompiler.Stfd | nucleus/cpu/ppu/recompiler/ppu_recompiler_memory.cpp:531-542 | memory becomes `StoreMemory` of stfd: the 64-bit pattern of fpr[frs] written as 8 big-endian bytes at EA = (ra or 0) + `d`; no register changes |
| RecompilerMemory.Recompiler.Stfdu | nucleus/cpu/ppu/recompiler/ppu_recompiler_memory.cpp:544-554 | memory becomes `StoreMemory` of stfdu: the 64-bit pattern of fpr[frs] written as 8 big-endian bytes at EA = ra + `d`; ra := EA afterwards, the stored value being read first |
| RecompilerMemory.Recompiler.Stfdux | nucleus/cpu/ppu/recompiler/ppu_recompiler_memory.cpp:556-566 | memory becomes `StoreMemory` of stfdux: the 64-bit pattern of fpr[frs] written as 8 big-endian bytes at EA = ra + rb; ra := EA afterwards, the stored value being read first |
| RecompilerMemory.Recompiler.Stfdx | nucleus/cpu/ppu/recompiler/ppu_recompiler_memory.cpp:568-576 | memory becomes `StoreMemory` of stfdx: the 64-bit pattern of fpr[frs] written as 8 big-endian bytes at EA = ra + rb; no register changes |
| RecompilerMemory.Recompiler.Stfs | nucleus/cpu/ppu/recompiler/ppu_recompiler_memory.cpp:582-594 | memory becomes `StoreMemory` of stfs: fpr[frs] rounded to single written as 4 big-endian bytes at EA = (ra or 0) + `d`; no register changes |
| RecompilerMemory.Recompiler.Stfsu | nucleus/cpu/ppu/recompiler/ppu_recompiler_memory.cpp:596-607 | memory becomes `StoreMemory` of stfsu: fpr[frs] rounded to single written as 4 big-endian bytes at EA = ra + `d`; ra := EA afterwards, the stored value being read first |
| RecompilerMemory.Recompiler.Stfsux | nucleus/cpu/ppu/recompiler/ppu_recompiler_memory.cpp:609-620 | memory becomes `StoreMemory` of stfsux: fpr[frs] rounded to single written as 4 big-endian bytes at EA = ra + rb; ra := EA afterwards, the stored value being read first |
| RecompilerMemory.Recompiler.Stfsx | nucleus/cpu/ppu/recompiler/ppu_recompiler_memory.cpp:622-631 | memory becomes `StoreMemory` of stfsx: fpr[frs] rounded to single written as 4 big-endian bytes at EA = ra + rb; no register changes |
| RecompilerMemory.Recompiler.Sth | nucleus/cpu/ppu/recompiler/ppu_recompiler_memory.cpp:633-643 | memory becomes `StoreMemory` of sth: gpr[rs] written as 8 big-endian bytes at EA = (ra or 0) + `d`; no register changes |
| RecompilerMemory.Recompiler.Sthu | nucleus/cpu/ppu/recompiler/ppu_recompiler_memory.cpp:649-658 | memory becomes `StoreMemory` of sthu: gpr[rs] written as 8 big-endian bytes at EA = ra + `ds << 2`; ra := EA afterwards, the stored value being read first |
| RecompilerMemory.Recompiler.Sthux | nucleus/cpu/ppu/recompiler/ppu_recompiler_memory.cpp:660-669 | memory becomes `StoreMemory` of sthux: gpr[rs] written as 8 big-endian bytes at EA = ra + rb; ra := EA afterwards, the stored value being read first |
| RecompilerMemory.Recompiler.Sthx | nucleus/cpu/ppu/recompiler/ppu_recompiler_memory.cpp:671-678 | memory becomes `StoreMemory` of sthx: gpr[rs] written as 8 big-endian bytes at EA = ra + rb; no register changes |
| RecompilerMemory.Recompiler.Stw | nucleus/cpu/ppu/recompiler/ppu_recompiler_memory.cpp:692-702 | memory becomes `StoreMemory` of stw: gpr[rs] written as 8 big-endian bytes at EA = (ra or 0) + `d`; no register changes |
| RecompilerMemory.Recompiler.Stwu | nucleus/cpu/ppu/recompiler/ppu_recompiler_memory.cpp:712-721 | memory becomes `StoreMemory` of stwu: gpr[rs] written as 8 big-endian bytes at EA = ra + `ds << 2`; ra := EA afterwards, the stored value being read first |
| RecompilerMemory.Recompiler.Stwux | nucleus/cpu/ppu/recompiler/ppu_recompiler_memory.cpp:723-732 | memory becomes `StoreMemory` of stwux: gpr[rs] written as 8 big-endian bytes at EA = ra + rb; ra := EA afterwards, the stored value being read first |
| RecompilerMemory.Recompiler.Stwx | nucleus/cpu/ppu/recompiler/ppu_recompiler_memory.cpp:734-741 | memory becomes `StoreMemory` of stwx: gpr[rs] written as 8 big-endian bytes at EA = ra + rb; no register changes |
| RecompilerMemory.Recompiler.Ldarx | nucleus/cpu/ppu/recompiler/ppu_recompiler_memory.cpp:83-85 | emits nothing: the register file and guest memory are unchanged |
| RecompilerMemory.Recompiler.Ldbrx | nucleus/cpu/ppu/recompiler/ppu_recompiler_memory.cpp:87-89 | emits nothing: the register file and guest memory are unchanged |
| RecompilerMemory.Recompiler.Lhbrx | nucleus/cpu/ppu/recompiler/ppu_recompiler_memory.cpp:274-276 | emits nothing: the register file and guest memory are unchanged |
| RecompilerMemory.Recompiler.Lmw | nucleus/cpu/ppu/recompiler/ppu_recompiler_memory.cpp:330-332 | emits nothing: the register file and guest memory are unchanged |
| RecompilerMemory.Recompiler.Lswi | nucleus/cpu/ppu/recompiler/ppu_recompiler_memory.cpp:334-336 | emits nothing: the register file and guest memory are unchanged |
| RecompilerMemory.Recompiler.Lswx | nucleus/cpu/ppu/recompiler/ppu_recompiler_memory.cpp:338-340 | emits nothing: the register file and guest memory are unchanged |
| RecompilerMemory.Recompiler.Lwarx | nucleus/cpu/ppu/recompiler/ppu_recompiler_memory.cpp:356-358 | emits nothing: the register file and guest memory are unchanged |
| RecompilerMemory.Recompiler.Lwbrx | nucleus/cpu/ppu/recompiler/ppu_recompiler_memory.cpp:385-387 | emits nothing: the register file and guest memory are unchanged |
| RecompilerMemory.Recompiler.Stdcx_ | nucleus/cpu/ppu/recompiler/ppu_recompiler_memory.cpp:496-498 | emits nothing: the register file and guest memory are unchanged |
| RecompilerMemory.Recompiler.Stfiwx | nucleus/cpu/ppu/recompiler/ppu_recompiler_memory.cpp:578-580 | emits nothing: the register file and guest memory are unchanged |
| RecompilerMemory.Recompiler.Sthbrx | nucleus/cpu/ppu/recompiler/ppu_recompiler_memory.cpp:645-647 | emits nothing: the register file and guest memory are unchanged |
| RecompilerMemory.Recompiler.Stmw | nucleus/cpu/ppu/recompiler/ppu_recompiler_memory.cpp:680-682 | emits nothing: the register file and guest memory are unchanged |
| RecompilerMemory.Recompiler.Stswi | nucleus/cpu/ppu/recompiler/ppu_recompiler_memory.cpp:684-686 | emits nothing: the register file and guest memory are unchanged |
| RecompilerMemory.Recompiler.Stswx | nucleus/cpu/ppu/recompiler/ppu_recompiler_memory.cpp:688-690 | emits nothing: the register file and guest memory are unchanged |
| RecompilerMemory.Recompiler.Stwbrx | nucleus/cpu/ppu/recompiler/ppu_recompiler_memory.cpp:704-706 | emits nothing: the register file and guest memory are unchanged |
| RecompilerMemory.Recompiler.Stwcx_ | nucleus/cpu/ppu/recompiler/ppu_recompiler_memory.cpp:708-710 | emits nothing: the register file and guest memory are unchanged |
| RecompilerMemory.Recompiler.Eieio | nucleus/cpu/ppu/recompiler/ppu_recompiler_memory.cpp:743-745 | emits nothing: the register file and guest memory are unchanged |
| RecompilerMemory.Recompiler.Sync | nucleus/cpu/ppu/recompiler/ppu_recompiler_memory.cpp:747-749 | emits nothing: the register file and guest memory are unchanged |
| RecompilerMemory.Recompiler.Isync | nucleus/cpu/ppu/recompiler/ppu_recompiler_memory.cpp:751-753 | emits nothing: the register file and guest memory are unchanged |
| PpuThread.InitialRegisterValues | nucleus/cpu/ppu/ppu_thread.cpp:31-55 | the registers the constructor sets up: pc = r0 = the descriptor's code word, r2 = the TOC word, r3 = r7 = r8 = r9 = 0, r10 = 0x90, r11 = the descriptor address, r12 = the page size, r13 = user-memory base + 0x7060, CR = 0x22000082, TBL = TBU = 1 |
| PpuThread.InitialStackPointers | nucleus/cpu/ppu/ppu_thread.cpp:19-43 | for an aligned block that does not wrap, the stack pointer is its end. r1 = sp - 0x200, r4 = sp - 0x80 and r5 = r4 + 0x10 lie inside the block, in that order, and are 16-byte aligned |
| PpuThread.AlignedStackTop | nucleus/cpu/ppu/ppu_thread.cpp:19-20 | the stack top is block + 0x10000 without wrap-around, and the three stack registers are 16-byte aligned |
| PpuThread.NeverStepsAtZero | nucleus/cpu/ppu/ppu_thread.cpp:111-114 | the interpreter never steps an instruction at pc 0 |
| PpuThread.LoopExit | nucleus/cpu/ppu/ppu_thread.cpp:96-115 | the loop stops exactly when STOP is pending, and the event stays STOP. Every other exit leaves the event NONE. A return leaves pc at 0. No more steps are taken than the fuel allows |
| PpuThread.StopBoundsSteps | nucleus/cpu/ppu/ppu_thread.cpp:105-107 | a STOP arriving at boundary k lets at most k instructions run. At boundary 0 nothing runs and the registers are kept |
| PpuThread.PendingStopEndsLoop | nucleus/cpu/ppu/ppu_thread.cpp:98-107 | a pending STOP ends the loop before any instruction |
| PpuThread.PauseThenResume | nucleus/cpu/ppu/ppu_thread.cpp:100-104 | a paused thread, once RUN arrives, continues exactly as if it had never been paused |
| PpuThread.IntegerResultClobbersFpr1 | nucleus/cpu/ppu/ppu_thread.cpp:146-154 | as written, an integer result sets gpr[3] and also overwrites fpr[1] |
| PpuThread.IntendedWriteBackEffect | nucleus/cpu/ppu/ppu_thread.cpp:146-154 | the corrected write-back puts an integer result in gpr[3] only and a float result in fpr[1] only, and changes no other register |
| PpuThread.NoSegmentNoCall | nucleus/cpu/ppu/ppu_thread.cpp:118-121 | when no segment contains pc, nothing is called and the registers are unchanged |
| PpuThread.CallsEveryContainingSegment | nucleus/cpu/ppu/ppu_thread.cpp:118-144 | when the called code keeps pc, exactly one call is made per segment containing pc, and the functions called are the functions at pc of those segments, in segment order |
| PpuThread.DispatchFrame | nucleus/cpu/ppu/ppu_thread.cpp:118-155 | apart from what the called code writes, dispatch changes no register except gpr[3] and fpr[1]: any other GPR or FPR that no callee writes keeps its value, and so do pc, CR and the time base when no callee writes them |
| PpuThread.InitialiseRegisters | nucleus/cpu/ppu/ppu_thread.cpp:31-55 | starting from a zero register file, the constructor's assignments produce `InitialRegisters` |
| PpuThread.InitialiseStackRegisters | nucleus/cpu/ppu/ppu_thread.cpp:34-43 | pc, r0 to r5 are set as the constructor sets them, and nothing else changes |
| PpuThread.InitialiseProcessRegisters | nucleus/cpu/ppu/ppu_thread.cpp:44-55 | r7 to r13, CR and the time base are set as the constructor sets them, and nothing else changes |
| PpuThread.Thread.constructor | nucleus/cpu/ppu/ppu_thread.cpp:16-56 | the stack block is allocated and the stack pointer is its end. The register file is `InitialRegisters`. The event is NONE and the thread is idle and not started |
| PpuThread.Thread.Destroy | nucleus/cpu/ppu/ppu_thread.cpp:58-70 | the destructor frees exactly the thread's stack block |
| PpuThread.Thread.Run | nucleus/cpu/ppu/ppu_thread.cpp:159-164 | `run` sets the event to RUN and changes nothing else |
| PpuThread.Thread.Pause | nucleus/cpu/ppu/ppu_thread.cpp:166-170 | `pause` sets the event to PAUSE and changes nothing else, so a second call has no further effect |
| PpuThread.Thread.Stop | nucleus/cpu/ppu/ppu_thread.cpp:172-176 | `stop` sets the event to STOP and changes nothing else |
| PpuThread.Thread.Start | nucleus/cpu/ppu/ppu_thread.cpp:72-91 | a thread that was already started gets STOP first. The thread is then started and RUNNING, and enters `task` exactly when LV2 is already initialised |
| PpuThread.Thread.HandleEvent | nucleus/cpu/ppu/ppu_thread.cpp:97-109 | one boundary's event handling: PAUSE parks the thread until RUN arrives, STOP stays pending and ends the loop, and any other event is reset to NONE |
| PpuThread.Thread.RunInterpreter | nucleus/cpu/ppu/ppu_thread.cpp:95-116 | the loop's exit, its trace of stepped pcs, the final registers, the event and the status are those of `InterpreterLoop` |
| PpuThread.Thread.MarshalArguments | nucleus/cpu/ppu/ppu_thread.cpp:126-141 | argument i of an integer kind is gpr[3+i], of a float kind fpr[1+i], and a vector argument is left at its default |
| PpuThread.Thread.WriteResult | nucleus/cpu/ppu/ppu_thread.cpp:146-154 | the register file becomes `WriteBack`, with the integer case falling through into the float case |
| PpuThread.Thread.RunRecompiled | nucleus/cpu/ppu/ppu_thread.cpp:117-156 | the registers and the calls made are those of `Dispatch` over the segments, in order: each call runs on the live register file, and its result is written back over the registers the call left |
| RsxFp.Layout | nucleus/gpu/rsx_fp.h:97 | the three parts of `FIELD(from, to)` total 32 bits. The field is to-from+1 bits wide, from bit 31-to up to bit 31-from |
| RsxFp.Word0Layouts | nucleus/gpu/rsx_fp.h:97-113 | each `FIELD(from, to)` of word 0 lays out the offset and width listed, each getter reads exactly the value `FIELD(from, to)` reads, and that value is word 0 masked with the field's bits and shifted down by the offset |
| RsxFp.Word0Bounds | nucleus/gpu/rsx_fp.h:106-113 | each word-0 field reads a value its width can hold |
| RsxFp.Word0Gaps | nucleus/gpu/rsx_fp.h:105-114 | bits 30, 23, 22, 17 and 8 lie between the fields: whatever they hold, every field reads the same |
| RsxFp.Word0Masks | nucleus/gpu/rsx_fp.h:106-113 | each field's mask is `width` ones shifted to its offset |
| RsxFp.Word0Disjoint | nucleus/gpu/rsx_fp.h:105-114 | no two word-0 fields share a bit |
| RsxFp.Word0Coverage | nucleus/gpu/rsx_fp.h:105-114 | the word-0 fields cover every bit except 30, 23, 22, 17 and 8 |
| RsxFp.SetOpcodeEffect | nucleus/gpu/rsx_fp.h:107 | assigning `opcode` stores the low 6 bits of the value, which read back, and changes no other bit of word 0 |
| RsxFp.OtherWordFields | nucleus/gpu/rsx_fp.h:115-123 | `word1` and `end_offset` are their whole words, and `type` is the low three bits of word 2 |
| RsxFp.ReverseBytes | nucleus/gpu/rsx_fp.h:100 | [A,B,C,D] becomes [D,C,B,A] |
| RsxFp.SwapHalfWords | nucleus/gpu/rsx_fp.h:100 | the two half-words exchange places |
| RsxFp.RemapSwapsWithinHalfWords | nucleus/gpu/rsx_fp.h:99-100 | the documented two-step remap equals swapping the bytes within each half-word: [A,B,C,D] becomes [B,A,D,C] |
| RsxFp.RemapInvolution | nucleus/gpu/rsx_fp.h:99-100 | remapping twice restores the bytes |
| RsxFp.RemapWordSwapsWithinHalfWords | nucleus/gpu/rsx_fp.h:99-100 | on a 32-bit word, the remap is also the swap within half-words, and it is an involution |
| RsxFp.SwapBytesInHalfWordsMovesBytes | nucleus/gpu/rsx_fp.h:100 | where each byte of the word lands under the swap within half-words |
| RsxFp.RemapWordMovesBytes | nucleus/gpu/rsx_fp.h:99-100 | the word remap moves bytes as the byte-sequence remap does |
| RsxFp.DecodeSource | nucleus/gpu/rsx_fp.h:129-142 | each source-operand field read is below 2^width |
| RsxFp.EncodeSource | nucleus/gpu/rsx_fp.h:129-142 | packing the fields leaves the bits above bit 17 zero |
| RsxFp.DecodeEncodeSource | nucleus/gpu/rsx_fp.h:129-142 | packing in-range fields and reading them back gives the same fields |
| RsxFp.EncodeDecodeSource | nucleus/gpu/rsx_fp.h:129-142 | reading the fields and packing them again gives the word's low 18 bits |
| RsxFp.OpcodeFieldRoundTrip | nucleus/gpu/rsx_fp.h:107 | a value below 0x80 survives the 6-bit `opcode` field exactly when it is below 0x40; otherwise it reads back 0x40 less |
| RsxFpOpcodes.OpcodesAscending | nucleus/gpu/rsx_fp.h:11-79 | the opcode values strictly increase in declaration order, so all 67 are distinct |
| RsxFpOpcodes.OpcodeFits | nucleus/gpu/rsx_fp.h:12-72 | every opcode up to FENCB (0x3E) is stored in the `opcode` field and reads back unchanged |
| RsxFpOpcodes.FlowControlDoesNotFit | nucleus/gpu/rsx_fp.h:73-78 | BRK, CAL, IFE, LOOP, REP and RET (0x40 to 0x45) do not fit the field: stored there, they read back as NOP, MOV, MUL, ADD, MAD and DP3 |

## Left out

- The LLVM IR builder itself, `getGPR`/`setGPR`/`readMemory`/`writeMemory`: the model states the
  effect of the emitted code on registers and memory. The helpers are not part of this model.
  `readMemory` and `writeMemory` are taken as big-endian accesses of the value's width on a total
  byte map, with no page faults and no unmapped regions.
- Integer stores write the full 64-bit register (8 bytes), because `writeMemory` receives the i64
  value of `getGPR`. This follows from the width of the value passed; `writeMemory` itself is not
  part of this model.
- lfs, lfsu and lfsux put the 32-bit pattern in a 64-bit GPR zero-extended. The source calls
  `setGPR` with an i32 value, and how `setGPR` widens it is not part of this model. lfsx passes
  the i32 value to `setFPR` instead, and the model puts it in the FPR zero-extended as well.
- The instruction decoder (`Instruction`): the model takes the decoded fields `rd` (also `rs`,
  `frd`, `frs`), `ra`, `rb`, `d` and `ds`, with `ds` the upper 14 bits of `d`.
- Floating-point arithmetic. The single-precision rounding of stfs (`CreateFPTrunc` plus a bit
  cast) is a parameter `toSingle`. FPRs hold 64-bit patterns, and the `_f64` and `DoubleVal`
  views are taken as those patterns.
- Concurrency. The mutex, the condition variable and the host thread are reduced to their
  sequential effect: controller calls arrive between two instructions as a sequence `calls`,
  and a PAUSE is assumed to be answered by RUN (the wait is not modelled as blocking forever).
- PpuThread.Thread.RunInterpreter: runs for at most `fuel` instructions. A guest program that
  never returns to pc 0 and is never stopped is not modelled beyond that bound.
- LV2 initialisation (`nucleus.lv2.init`), `setCurrentThread` and the global emulator object:
  `Start` takes whether LV2 is initialised as a parameter.
- The stack allocator: `stackAddr` is the block it returned, and the allocator's live blocks are
  a set of blocks. Allocation failure is not modelled.
- The interpreter's `step` is a parameter from registers to registers. It can neither read nor
  write guest memory, so loads and stores inside interpreted instructions are not modelled.
- The execution engine's `runFunction` is a parameter `engine` that takes the function, its
  arguments and the register file, and returns the result and the register file the called code
  left. What the called code does to guest memory is not modelled.
- `engine` and `step` are required to leave a register file with 32 GPRs and 32 FPRs, which the
  source's fixed arrays guarantee.
- `ppu_segment->functions[pc]` is a total function from pc to `Function`; a lookup that inserts
  a default entry is not modelled.
- PpuThread.CallsEveryContainingSegment: stated for called code that leaves pc unchanged. When
  called code moves pc, `Dispatch` matches the remaining segments against the new pc, as the
  source does, but no lemma counts those calls.
- PpuThread.DispatchFrame: the frame is stated relative to the called code. A register other
  than gpr[3] and fpr[1] is kept only when no called function writes it; what the called
  functions themselves write is whatever `engine` returns.
- A recompiled function with more than 29 integer inputs, or more than 31 float inputs, makes
  the source read past the register file (`gpr[3 + i]`, `fpr[1 + i]`). `SegmentsMarshallable`
  requires every recompiled function to fit, and that out-of-bounds read is not modelled.
- The `Interpreter` and `State` constructors are not part of this model. Registers the thread
  constructor does not set are taken as 0.
- The initial `m_event`, `m_status` and `m_thread` come from a header that is not part of this
  model. They are taken as NONE, idle and not started.
- `Segment::contains` is not part of this model. It is taken as `address <= pc < address + size`.
- Vector (`FUNCTION_IN_VECTOR`) arguments are left at the default value, as in the source.
  Output kinds other than integer and float write nothing.
- RsxFp: the `f32` view of `rsx_fp_constant_t`, the `dword[2]` view of an instruction, and
  setters for fields other than `opcode`. The header only declares the layout; the model proves
  the read side of every field, and the write side of `opcode`.
- The memory-synchronisation semantics of eieio, sync and isync, and the reservations of
  lwarx, ldarx, stwcx. and stdcx.: the recompiler emits no code for them.

## Findings

| source | as written | input that shows it | evidently intended | confidence | as-written member | corrected member |
|---|---|---|---|---|---|---|
| nucleus/cpu/ppu/recompiler/ppu_recompiler_memory.cpp:20 | lbz, lbzu, lha, lhau, lhz, lhzu, lwz and lwzu build the displacement as `code.ds << 2`, which drops the two low bits of the D field | `lbz r3, 5(0)`: EA 4 | EA = (ra or 0) + d, as for the other D-form loads | not executed; the decoder's `ds` is taken as the upper 14 bits of `d` | RecompilerMemory.LoadAddressAsWritten, RecompilerMemory.LbzDisplacementFive | RecompilerMemory.IntendedLoadAddress |
| nucleus/cpu/ppu/recompiler/ppu_recompiler_memory.cpp:455 | stbu, sthu and stwu build the displacement as `code.ds << 2` | `stbu r3, 5(r1)`: EA gpr[1] + 4 | EA = ra + d | not executed | RecompilerMemory.StoreAddressAsWritten | RecompilerMemory.IntendedStoreAddress |
| nucleus/cpu/ppu/recompiler/ppu_recompiler_memory.cpp:136 | lfd, lfdu, lfdux, lfs, lfsu and lfsux call `setGPR(code.frd, …)` | `lfd f1, 0(r1)` overwrites gpr[1], the stack pointer, and leaves fpr[1] unchanged | write FPR frd, as lfdx and lfsx do | not executed | RecompilerMemory.FloatLoadRouting | RecompilerMemory.IntendedFloatLoad |
| nucleus/cpu/ppu/recompiler/ppu_recompiler_memory.cpp:450 | integer stores pass the whole 64-bit register to `writeMemory`, so stb, sth and stw write 8 bytes | `stb r3, 0x1000(0)` with r3 = 0x41: 0x1000 gets 0, 0x1007 gets 0x41 | write 1, 2 or 4 bytes: the low bytes of rs | not executed; depends on `writeMemory` storing its value's own width | RecompilerMemory.StbWritesEightBytes | RecompilerMemory.IntendedStbWritesOneByte, RecompilerMemory.IntendedStoreWidth |
| nucleus/cpu/ppu/ppu_thread.cpp:147-150 | `case FUNCTION_OUT_INTEGER` has no `break` and falls into the float case | an integer-returning function with fpr[1] != the return's DoubleVal: fpr[1] is overwritten | an integer result writes gpr[3] only | not executed | PpuThread.IntegerResultClobbersFpr1 | PpuThread.IntendedWriteBackEffect |

The methods of `Recompiler` and `Thread` model the code as written, because they stand for
what the emulator does today. The corrected tables `IntendedLoadOf` and `IntendedStoreOf` and
the corrected write-back `IntendedWriteBack` are the definitions that the corrected lemmas above
are proved about.
