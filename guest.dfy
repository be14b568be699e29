/**
 * Guest machine state shared by the PPU recompiler and the PPU thread:
 * fixed-width unsigned integers, big-endian guest memory, and the PPU
 * register file.
 *
 * Fixed-width values are modelled as integers in their unsigned range, and
 * every wrapping operation reduces explicitly modulo 2^64 (or 2^32), which is
 * the meaning of the LLVM i64 `add` and of C++ unsigned arithmetic.
 */
module Guest {

  const TWO32: int := 0x1_0000_0000
  const TWO64: int := 0x1_0000_0000_0000_0000

  type u8 = x: int | 0 <= x < 0x100
  type u32 = x: int | 0 <= x < TWO32
  type u64 = x: int | 0 <= x < TWO64

  /** 256^n: the number of distinct values of an n-byte quantity. */
  function Pow256(n: nat): (p: nat)
    ensures p > 0
  {
    if n == 0 then 1 else 256 * Pow256(n - 1)
  }

  /** 64-bit wrapping addition (LLVM `add i64`). */
  function Add64(a: int, b: int): u64
  {
    (a + b) % TWO64
  }

  /** The two's-complement 64-bit pattern of a signed integer (`getInt64`). */
  function ToU64(x: int): u64
  {
    x % TWO64
  }

  /** The signed value an n-byte two's-complement pattern denotes. */
  function Signed(v: nat, n: nat): int
    requires 1 <= n
  {
    if v % Pow256(n) >= Pow256(n) / 2 then v % Pow256(n) - Pow256(n) else v % Pow256(n)
  }

  /**
   * Zero extension of an n-byte value to 64 bits (LLVM `zext`): the unsigned
   * value is kept and every byte above the low n bytes is 0.
   */
  function ZeroExtend(v: nat, n: nat): (r: u64)
    requires 1 <= n <= 8 && v < Pow256(n)
    ensures r % Pow256(n) == v && r / Pow256(n) == 0
  {
    PowBelow(n);
    DivModUnique(v, Pow256(n), 0, v);
    v
  }

  /**
   * Sign extension of an n-byte value to 64 bits (LLVM `sext`): the low n
   * bytes are kept, the signed value is kept, and the upper bytes are all
   * ones exactly when the sign bit (bit 8n-1) is set.
   */
  function SignExtend(v: nat, n: nat): (r: u64)
    requires 1 <= n < 8 && v < Pow256(n)
    ensures r % Pow256(n) == v
    ensures Signed(r, 8) == Signed(v, n)
    ensures r / Pow256(n) == if v >= Pow256(n) / 2 then TWO64 / Pow256(n) - 1 else 0
  {
    SignExtendFacts(v, n);
    if v >= Pow256(n) / 2 then v + TWO64 - Pow256(n) else v
  }

  /** 256^n * 256^(8-n) == 2^64 for every width up to a doubleword. */
  lemma PowSplit(n: nat)
    requires n <= 8
    ensures Pow256(n) * Pow256(8 - n) == TWO64
    ensures Pow256(n) <= TWO64
  {
    assert Pow256(0) == 1;
    assert Pow256(1) == 0x100;
    assert Pow256(2) == 0x1_0000;
    assert Pow256(3) == 0x100_0000;
    assert Pow256(4) == 0x1_0000_0000;
    assert Pow256(5) == 0x100_0000_0000;
    assert Pow256(6) == 0x1_0000_0000_0000;
    assert Pow256(7) == 0x100_0000_0000_0000;
    assert Pow256(8) == TWO64;
  }

  lemma PowWords()
    ensures Pow256(4) == TWO32 && Pow256(8) == TWO64
  {
    assert Pow256(2) == 0x1_0000;
    assert Pow256(6) == 0x1_0000_0000_0000;
  }

  lemma PowBelow(n: nat)
    requires n <= 8
    ensures Pow256(n) <= TWO64
  {
    PowSplit(n);
  }

  lemma SignExtendFacts(v: nat, n: nat)
    requires 1 <= n < 8 && v < Pow256(n)
    ensures var r := if v >= Pow256(n) / 2 then v + TWO64 - Pow256(n) else v;
      0 <= r < TWO64 && r % Pow256(n) == v && Signed(r, 8) == Signed(v, n) &&
      r / Pow256(n) == if v >= Pow256(n) / 2 then TWO64 / Pow256(n) - 1 else 0
  {
    PowSplit(n);
    PowWords();
    var p, q := Pow256(n), Pow256(8 - n);
    assert p == 256 * Pow256(n - 1) && q == 256 * Pow256(7 - n);
    DivModUnique(p, 2, 128 * Pow256(n - 1), 0);
    ExtendAt(v, p, q);
    var r := if v >= p / 2 then v + TWO64 - p else v;
    assert Signed(r, 8) == if r % TWO64 >= TWO64 / 2 then r % TWO64 - TWO64 else r % TWO64;
    assert Signed(v, n) == if v % p >= p / 2 then v % p - p else v % p;
  }

  /** Sign extension from a p-value width into a p*q == 2^64 width. */
  lemma ExtendAt(v: nat, p: nat, q: nat)
    requires p * q == TWO64 && p >= 2 && q >= 2 && p % 2 == 0 && v < p
    ensures var r := if v >= p / 2 then v + TWO64 - p else v;
      0 <= r < TWO64 && r % p == v && TWO64 / p == q &&
      (if r % TWO64 >= TWO64 / 2 then r % TWO64 - TWO64 else r % TWO64) ==
      (if v % p >= p / 2 then v % p - p else v % p) &&
      r / p == if v >= p / 2 then q - 1 else 0
  {
    assert p <= TWO64 / 2 by { MulMono(p, 2, q); }
    DivModUnique(TWO64, p, q, 0);
    DivModUnique(v, p, 0, v);
    if v >= p / 2 {
      NegativeExtend(v, p, q);
    }
  }

  lemma NegativeExtend(v: nat, p: nat, q: nat)
    requires p * q == TWO64 && q >= 2 && p / 2 <= v < p <= TWO64 / 2
    ensures var r := v + TWO64 - p; r % p == v && r / p == q - 1
  {
    var r := v + TWO64 - p;
    assert r == p * (q - 1) + v;
    DivModUnique(r, p, q - 1, v);
  }

  /*
   * Guest memory. Only the bytes an instruction touches matter; their
   * initial contents are whatever the function gives. Multi-byte values are
   * big-endian, as on the PowerPC.
   */

  type Memory = int -> u8

  /** The address k bytes past a (64-bit wrap-around). */
  function Addr(a: int, k: nat): u64
  {
    Add64(a, k)
  }

  function WriteByte(m: Memory, x: int, b: u8): Memory
  {
    y => if y == x then b else m(y)
  }

  /** Whether x is one of the n bytes starting at a. */
  predicate Within(a: int, n: nat, x: int)
  {
    n > 0 && (x == Addr(a, n - 1) || Within(a, n - 1, x))
  }

  /** The n-byte big-endian value at a. */
  function Load(m: Memory, a: int, n: nat): (v: nat)
    ensures v < Pow256(n)
  {
    if n == 0 then 0 else Load(m, a, n - 1) * 256 + m(Addr(a, n - 1))
  }

  /** Memory after writing the low n bytes of v big-endian at a. */
  function Store(m: Memory, a: int, v: nat, n: nat): Memory
  {
    if n == 0 then m else WriteByte(Store(m, a, v / 256, n - 1), Addr(a, n - 1), v % 256)
  }

  /** Writing a byte outside a region does not change the value read from it. */
  lemma {:induction false} LoadFrame(m: Memory, a: int, n: nat, x: int, b: u8)
    requires !Within(a, n, x)
    ensures Load(WriteByte(m, x, b), a, n) == Load(m, a, n)
  {
    if n > 0 {
      LoadFrame(m, a, n - 1, x, b);
    }
  }

  /** Within one access of at most 8 bytes, the last byte is distinct from the earlier ones. */
  lemma {:induction false} LastNotWithin(a: u64, n: nat, k: nat)
    requires k < n <= 8
    ensures !Within(a, k, Addr(a, n - 1))
  {
    if k > 0 {
      LastNotWithin(a, n, k - 1);
    }
  }

  /** A store followed by a load of the same width at the same address reads the stored value. */
  lemma {:induction false} LoadStore(m: Memory, a: u64, v: nat, n: nat)
    requires n <= 8
    ensures Load(Store(m, a, v, n), a, n) == v % Pow256(n)
  {
    if n > 0 {
      StoreLastByte(m, a, v, n);
      LoadStore(m, a, v / 256, n - 1);
      ModSplit(v, Pow256(n - 1));
    }
  }

  lemma StoreLastByte(m: Memory, a: u64, v: nat, n: nat)
    requires 0 < n <= 8
    ensures Store(m, a, v, n)(Addr(a, n - 1)) == v % 256
    ensures Load(Store(m, a, v, n), a, n - 1) == Load(Store(m, a, v / 256, n - 1), a, n - 1)
  {
    LastNotWithin(a, n, n - 1);
    LoadFrame(Store(m, a, v / 256, n - 1), a, n - 1, Addr(a, n - 1), v % 256);
  }

  /** A store leaves every byte outside the written region unchanged. */
  lemma {:induction false} StoreFrame(m: Memory, a: int, v: nat, n: nat, x: int)
    requires !Within(a, n, x)
    ensures Store(m, a, v, n)(x) == m(x)
  {
    if n > 0 {
      StoreFrame(m, a, v / 256, n - 1, x);
    }
  }

  lemma ModSplit(v: nat, p: nat)
    requires p > 0
    ensures (v / 256 % p) * 256 + v % 256 == v % (256 * p)
  {
    var q, r := v / 256, v % 256;
    var t, s := q / p, q % p;
    assert v == 256 * q + r;
    assert q == p * t + s;
    assert v == (256 * p) * t + (256 * s + r);
    assert 0 <= 256 * s + r < 256 * p;
    DivModUnique(v, 256 * p, t, 256 * s + r);
  }

  lemma DivModUnique(v: int, d: int, t: int, r: int)
    requires d > 0 && v == d * t + r && 0 <= r < d
    ensures v % d == r && v / d == t
  {
    var t', r' := v / d, v % d;
    assert v == d * t' + r';
    if t' > t {
      assert d * t' >= d * (t + 1) by { MulMono(d, t + 1, t'); }
    } else if t' < t {
      assert d * t >= d * (t' + 1) by { MulMono(d, t' + 1, t); }
    }
  }

  lemma MulMono(d: int, a: int, b: int)
    requires d > 0 && a <= b
    ensures d * a <= d * b
  {
  }

  /** The bytes of guest memory, updated in place by stores. */
  class GuestMemory {
    var bytes: Memory

    constructor (initial: Memory)
      ensures bytes == initial
    {
      bytes := initial;
    }

    /** `readMemory(addr, bits)`: the big-endian value of bits/8 bytes at addr. */
    function Read(addr: u64, bits: nat): (value: nat)
      requires bits == 8 || bits == 16 || bits == 32 || bits == 64
      reads this
      ensures value < Pow256(bits / 8)
    {
      Load(bytes, addr, bits / 8)
    }

    /** `writeMemory(addr, value)`: stores the value at its own width, big-endian. */
    method Write(addr: u64, value: nat, bytesWide: nat)
      requires bytesWide == 4 || bytesWide == 8
      modifies this
      ensures bytes == Store(old(bytes), addr, value, bytesWide)
    {
      bytes := Store(bytes, addr, value, bytesWide);
    }
  }

  /** A snapshot of the PPU register file. FPRs hold 64-bit patterns. */
  datatype Registers = Registers(pc: u32, gpr: seq<u64>, fpr: seq<u64>, cr: u32, tbl: u32, tbu: u32)
  {
    ghost predicate Valid()
    {
      |gpr| == 32 && |fpr| == 32
    }
  }

  /** The PPU register file, updated in place by the generated code and the interpreter. */
  class State {
    var pc: u32
    const gpr: array<u64>
    const fpr: array<u64>
    var cr: u32
    var tbl: u32
    var tbu: u32

    ghost predicate Valid()
      reads this
    {
      gpr.Length == 32 && fpr.Length == 32 && gpr != fpr
    }

    function Snapshot(): Registers
      reads this, gpr, fpr
    {
      Registers(pc, gpr[..], fpr[..], cr, tbl, tbu)
    }

    constructor ()
      ensures Valid() && fresh(gpr) && fresh(fpr)
      ensures Snapshot() == Registers(0, seq(32, _ => 0), seq(32, _ => 0), 0, 0, 0)
    {
      pc, cr, tbl, tbu := 0, 0, 0, 0;
      gpr := new u64[32](_ => 0);
      fpr := new u64[32](_ => 0);
    }

    method SetGPR(i: nat, v: u64)
      requires Valid() && i < 32
      modifies gpr
      ensures Snapshot() == old(Snapshot()).(gpr := old(gpr[..])[i := v])
    {
      gpr[i] := v;
    }

    method SetFPR(i: nat, v: u64)
      requires Valid() && i < 32
      modifies fpr
      ensures Snapshot() == old(Snapshot()).(fpr := old(fpr[..])[i := v])
    {
      fpr[i] := v;
    }

    /** Overwrites the whole register file (the effect of one interpreter step). */
    method Restore(r: Registers)
      requires Valid() && r.Valid()
      modifies this, gpr, fpr
      ensures Valid() && Snapshot() == r
    {
      var i := 0;
      while i < 32
        invariant 0 <= i <= 32
        invariant gpr[..i] == r.gpr[..i] && fpr[..i] == r.fpr[..i]
      {
        gpr[i] := r.gpr[i];
        fpr[i] := r.fpr[i];
        i := i + 1;
      }
      assert gpr[..] == gpr[..32];
      assert fpr[..] == fpr[..32];
      pc, cr, tbl, tbu := r.pc, r.cr, r.tbl, r.tbu;
    }
  }
}
