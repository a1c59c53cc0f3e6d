/** Registers, flags and the integer arithmetic of the interpreter, at widths 8, 16, 32 and 64. */
module Registers {
  import opened Words

  // ------------------------------------------------------------ words of a width

  type Width = w: int | w == 8 || w == 16 || w == 32 || w == 64 witness 8

  /** mask(width) + 1. */
  function Modulus(w: Width): (m: int)
    ensures m >= 256 && m % 2 == 0
  {
    match w
    case 8 => 0x100
    case 16 => 0x1_0000
    case 32 => 0x1_0000_0000
    case _ => 0x1_0000_0000_0000_0000
  }

  /** sign_bit(width). */
  function Half(w: Width): int { Modulus(w) / 2 }

  /** value & mask(width). */
  function Masked(v: int, w: Width): (r: int)
    ensures 0 <= r < Modulus(w)
  {
    v % Modulus(w)
  }

  /** (masked & sign_bit(width)) != 0. */
  predicate SignSet(v: int, w: Width) { Masked(v, w) >= Half(w) }

  /** sign_extend(value, width). */
  function SignExtend(v: int, w: Width): u64 {
    if SignSet(v, w) then Masked(v, w) + (U64 - Modulus(w)) else Masked(v, w)
  }

  /** `as i64` on a 64-bit word. */
  function AsSigned(v: u64): int { if v >= 0x8000_0000_0000_0000 then v - U64 else v }

  /** The two's-complement value of the low bits of a word. */
  function Signed(v: int, w: Width): (s: int)
    ensures -Half(w) <= s < Half(w)
  {
    if SignSet(v, w) then Masked(v, w) - Modulus(w) else Masked(v, w)
  }

  lemma SignExtendIsSigned(v: int, w: Width)
    ensures AsSigned(SignExtend(v, w)) == Signed(v, w)
  {
  }

  function Wrap64(v: int): u64 { v % U64 }

  // ------------------------------------------------------------ flags

  /** The flag bits of rflags that instructions set; bit 1 is always set, no other bit ever is. */
  datatype Flags = Flags(cf: bool, pf: bool, zf: bool, sf: bool, df: bool, of: bool) {
    /** rflags as a word. */
    function Word(): u64 {
      2 + (if cf then 1 else 0) + (if pf then 4 else 0) + (if zf then 64 else 0)
      + (if sf then 128 else 0) + (if df then 1024 else 0) + (if of then 2048 else 0)
    }
  }

  function Ones(v: nat, bits: nat): nat {
    if bits == 0 then 0 else v % 2 + Ones(v / 2, bits - 1)
  }

  function CommonFlags(f: Flags, result: int, w: Width): Flags {
    f.(zf := Masked(result, w) == 0,
       sf := SignSet(result, w),
       pf := Ones(Masked(result, w) % 256, 8) % 2 == 0)
  }

  /** set_add_flags: carry by comparison with the left operand, overflow from the three signs. */
  function AddFlags(f: Flags, left: int, right: int, result: int, w: Width): Flags {
    CommonFlags(
      f.(cf := Masked(result, w) < Masked(left, w),
         of := SignSet(left, w) != SignSet(result, w) && SignSet(right, w) != SignSet(result, w)),
      result, w)
  }

  /** set_sub_flags. */
  function SubFlags(f: Flags, left: int, right: int, result: int, w: Width): Flags {
    CommonFlags(
      f.(cf := Masked(left, w) < Masked(right, w),
         of := SignSet(left, w) != SignSet(right, w) && SignSet(left, w) != SignSet(result, w)),
      result, w)
  }

  datatype Cond = CondO | CondNO | CondB | CondAE | CondE | CondNE | CondBE | CondA
                | CondS | CondNS | CondP | CondNP | CondL | CondGE | CondLE | CondG

  predicate Passed(f: Flags, c: Cond) {
    match c
    case CondO => f.of
    case CondNO => !f.of
    case CondB => f.cf
    case CondAE => !f.cf
    case CondE => f.zf
    case CondNE => !f.zf
    case CondBE => f.cf || f.zf
    case CondA => !f.cf && !f.zf
    case CondS => f.sf
    case CondNS => !f.sf
    case CondP => f.pf
    case CondNP => !f.pf
    case CondL => f.sf != f.of
    case CondGE => f.sf == f.of
    case CondLE => f.zf || f.sf != f.of
    case CondG => !f.zf && f.sf == f.of
  }

  /** CMP: the flags of a 64-bit wrapping subtraction, looked at through the width. */
  function CmpFlags(f: Flags, left: u64, right: u64, w: Width): Flags {
    SubFlags(f, left, right, Wrap64(left - right), w)
  }

  lemma MaskWrap(v: int, w: Width)
    ensures Masked(Wrap64(v), w) == Masked(v, w)
  {
    var m := Modulus(w);
    assert U64 % m == 0;
    var k := U64 / m;
    ModUnique(v, U64, v / U64, v % U64);
    ModUnique(v % U64, m, (v % U64) / m, (v % U64) % m);
    assert v == m * ((v % U64) / m + k * (v / U64)) + (v % U64) % m by {
      assert U64 == m * k;
      assert v == U64 * (v / U64) + v % U64;
      assert m * (k * (v / U64)) == U64 * (v / U64);
    }
    ModUnique(v, m, (v % U64) / m + k * (v / U64), (v % U64) % m);
  }

  lemma MaskDifference(left: int, right: int, w: Width)
    ensures Masked(left - right, w) == if Masked(left, w) >= Masked(right, w) then Masked(left, w) - Masked(right, w)
                                       else Masked(left, w) - Masked(right, w) + Modulus(w)
  {
    var m := Modulus(w);
    var a, b, i, j := left % m, right % m, left / m, right / m;
    assert left == m * i + a && right == m * j + b;
    assert m * (i - j) == m * i - m * j && m * (i - j - 1) == m * i - m * j - m;
    if a >= b { ModUnique(left - right, m, i - j, a - b); } else { ModUnique(left - right, m, i - j - 1, a - b + m); }
  }

  /**
    After CMP the conditions are the orders they are named after, on the masked operands:
    b/ae/be/a unsigned, l/ge/le/g two's complement, e/ne equality, o signed overflow.
   */
  lemma CmpConditions(f: Flags, left: u64, right: u64, w: Width)
    ensures var g := CmpFlags(f, left, right, w);
            var l, r := Masked(left, w), Masked(right, w);
            var sl, sr := Signed(left, w), Signed(right, w);
            && (Passed(g, CondB) <==> l < r) && (Passed(g, CondAE) <==> l >= r)
            && (Passed(g, CondBE) <==> l <= r) && (Passed(g, CondA) <==> l > r)
            && (Passed(g, CondE) <==> l == r) && (Passed(g, CondNE) <==> l != r)
            && (Passed(g, CondL) <==> sl < sr) && (Passed(g, CondGE) <==> sl >= sr)
            && (Passed(g, CondLE) <==> sl <= sr) && (Passed(g, CondG) <==> sl > sr)
            && (Passed(g, CondO) <==> !(-Half(w) <= sl - sr < Half(w)))
            && (Passed(g, CondNO) <==> -Half(w) <= sl - sr < Half(w))
            && g.df == f.df
  {
    MaskWrap(left - right, w);
    MaskDifference(left, right, w);
  }

  /** A sign-extended immediate keeps its signed value at every width at least its own. */
  lemma ImmediateKeepsValue(v: int, from: Width, w: Width)
    requires from <= w
    ensures Signed(SignExtend(v, from), w) == Signed(v, from)
  {
    var s := Signed(v, from);
    var turn := if s < 0 then -1 else 0;
    ModUnique(s, U64, turn, SignExtend(v, from));
    MaskWrap(s, w);
    ModUnique(s, Modulus(w), turn, s - Modulus(w) * turn);
  }

  lemma MaskSum(left: int, right: int, w: Width)
    ensures Masked(left + right, w) == if Masked(left, w) + Masked(right, w) < Modulus(w) then Masked(left, w) + Masked(right, w)
                                       else Masked(left, w) + Masked(right, w) - Modulus(w)
  {
    var m := Modulus(w);
    var a, b, i, j := left % m, right % m, left / m, right / m;
    assert left == m * i + a && right == m * j + b;
    assert m * (i + j) == m * i + m * j && m * (i + j + 1) == m * i + m * j + m;
    if a + b < m { ModUnique(left + right, m, i + j, a + b); } else { ModUnique(left + right, m, i + j + 1, a + b - m); }
  }

  /** After ADD the carry is the unsigned overflow and OF the signed overflow of the masked operands. */
  lemma AddConditions(f: Flags, left: u64, right: u64, w: Width)
    ensures var g := AddFlags(f, left, right, Wrap64(left + right), w);
            && (g.cf <==> Masked(left, w) + Masked(right, w) >= Modulus(w))
            && (g.of <==> !(-Half(w) <= Signed(left, w) + Signed(right, w) < Half(w)))
  {
    MaskWrap(left + right, w);
    MaskSum(left, right, w);
  }

  function CarryIn(f: Flags): u64 { if f.cf then 1 else 0 }

  function AdcResult(f: Flags, left: u64, right: u64): u64 { Plus(Plus(left, right), CarryIn(f)) }

  function SbbResult(f: Flags, left: u64, right: u64): u64 { Minus(Minus(left, right), CarryIn(f)) }

  /** ADC and SBB fold the carry into the right operand before the flags are taken. */
  function AdcFlags(f: Flags, left: u64, right: u64, w: Width): Flags {
    AddFlags(f, left, Plus(right, CarryIn(f)), AdcResult(f, left, right), w)
  }

  function SbbFlags(f: Flags, left: u64, right: u64, w: Width): Flags {
    SubFlags(f, left, Plus(right, CarryIn(f)), SbbResult(f, left, right), w)
  }

  /** The right operand is all ones and there is a carry in. */
  predicate CarryIsLost(f: Flags, right: u64, w: Width) {
    f.cf && Masked(right, w) == Modulus(w) - 1
  }

  /** The right operand is the largest signed value and there is a carry in. */
  predicate SignIsLost(f: Flags, right: u64, w: Width) {
    f.cf && Masked(right, w) == Half(w) - 1
  }

  lemma WrappedSum(a: u64, b: u64)
    ensures Plus(a, b) == Wrap64(a + b) && Minus(a, b) == Wrap64(a - b)
  {
    ModUnique(a + b, U64, if a + b < U64 then 0 else 1, Plus(a, b));
    ModUnique(a - b, U64, if a >= b then 0 else -1, Minus(a, b));
  }

  /** A wrapping sum or difference seen through the width. */
  lemma MaskPlus(a: u64, b: u64, w: Width)
    ensures Masked(Plus(a, b), w) ==
            if Masked(a, w) + Masked(b, w) < Modulus(w) then Masked(a, w) + Masked(b, w)
            else Masked(a, w) + Masked(b, w) - Modulus(w)
    ensures Masked(Minus(a, b), w) ==
            if Masked(a, w) >= Masked(b, w) then Masked(a, w) - Masked(b, w)
            else Masked(a, w) - Masked(b, w) + Modulus(w)
  {
    WrappedSum(a, b);
    MaskWrap(a + b, w);
    MaskWrap(a - b, w);
    MaskSum(a, b, w);
    MaskDifference(a, b, w);
  }

  /** Adding a carry to a masked operand wraps only from all ones. */
  lemma MaskCarry(f: Flags, right: u64, w: Width)
    ensures Masked(CarryIn(f), w) == CarryIn(f)
    ensures Masked(Plus(right, CarryIn(f)), w) == if CarryIsLost(f, right, w) then 0 else Masked(right, w) + CarryIn(f)
  {
    MaskPlus(right, CarryIn(f), w);
    ModUnique(CarryIn(f), Modulus(w), 0, CarryIn(f));
  }

  /** The carry out of ADC is the true one exactly when the fold does not wrap. */
  lemma AdcCarryExactIff(f: Flags, left: u64, right: u64, w: Width)
    ensures (AdcFlags(f, left, right, w).cf <==> Masked(left, w) + Masked(right, w) + CarryIn(f) >= Modulus(w))
            <==> !CarryIsLost(f, right, w)
  {
    MaskCarry(f, right, w);
    MaskPlus(left, right, w);
    MaskPlus(Plus(left, right), CarryIn(f), w);
  }

  /** OF of ADC is the true signed overflow exactly when the fold does not change the right operand's sign. */
  lemma AdcOverflowExactIff(f: Flags, left: u64, right: u64, w: Width)
    ensures (AdcFlags(f, left, right, w).of <==>
             !(-Half(w) <= Signed(left, w) + Signed(right, w) + CarryIn(f) < Half(w)))
            <==> !SignIsLost(f, right, w)
  {
    if SignIsLost(f, right, w) { AdcOverflowWrong(f, left, right, w); } else { AdcOverflowRight(f, left, right, w); }
  }

  lemma AdcOverflowRight(f: Flags, left: u64, right: u64, w: Width)
    requires !SignIsLost(f, right, w)
    ensures AdcFlags(f, left, right, w).of <==>
            !(-Half(w) <= Signed(left, w) + Signed(right, w) + CarryIn(f) < Half(w))
  {
    MaskCarry(f, right, w);
    MaskPlus(left, right, w);
    MaskPlus(Plus(left, right), CarryIn(f), w);
  }

  lemma AdcOverflowWrong(f: Flags, left: u64, right: u64, w: Width)
    requires SignIsLost(f, right, w)
    ensures AdcFlags(f, left, right, w).of <==>
            -Half(w) <= Signed(left, w) + Signed(right, w) + CarryIn(f) < Half(w)
  {
    MaskCarry(f, right, w);
    MaskPlus(left, right, w);
    MaskPlus(Plus(left, right), CarryIn(f), w);
  }

  /** The borrow out of SBB is the true one exactly when the fold does not wrap. */
  lemma SbbBorrowExactIff(f: Flags, left: u64, right: u64, w: Width)
    ensures (SbbFlags(f, left, right, w).cf <==> Masked(left, w) < Masked(right, w) + CarryIn(f))
            <==> !CarryIsLost(f, right, w)
  {
    MaskCarry(f, right, w);
  }

  /** OF of SBB is the true signed overflow exactly when the fold does not change the right operand's sign. */
  lemma SbbOverflowExactIff(f: Flags, left: u64, right: u64, w: Width)
    ensures (SbbFlags(f, left, right, w).of <==>
             !(-Half(w) <= Signed(left, w) - Signed(right, w) - CarryIn(f) < Half(w)))
            <==> !SignIsLost(f, right, w)
  {
    if SignIsLost(f, right, w) { SbbOverflowWrong(f, left, right, w); } else { SbbOverflowRight(f, left, right, w); }
  }

  lemma SbbOverflowRight(f: Flags, left: u64, right: u64, w: Width)
    requires !SignIsLost(f, right, w)
    ensures SbbFlags(f, left, right, w).of <==>
            !(-Half(w) <= Signed(left, w) - Signed(right, w) - CarryIn(f) < Half(w))
  {
    MaskCarry(f, right, w);
    MaskPlus(left, right, w);
    MaskPlus(Minus(left, right), CarryIn(f), w);
  }

  lemma SbbOverflowWrong(f: Flags, left: u64, right: u64, w: Width)
    requires SignIsLost(f, right, w)
    ensures SbbFlags(f, left, right, w).of <==>
            -Half(w) <= Signed(left, w) - Signed(right, w) - CarryIn(f) < Half(w)
  {
    MaskCarry(f, right, w);
    MaskPlus(left, right, w);
    MaskPlus(Minus(left, right), CarryIn(f), w);
  }

  const CARRY: Flags := Flags(true, false, false, false, false, false)

  /** 64-bit operands whose carry or borrow is lost: 0 and ffff_ffff_ffff_ffff with carry in. */
  lemma FoldLosesCarry()
    ensures !AdcFlags(CARRY, 0, U64 - 1, 64).cf && 0 + (U64 - 1) + 1 >= Modulus(64)
    ensures !SbbFlags(CARRY, 0, U64 - 1, 64).cf && 0 < (U64 - 1) + 1
  {
    ModUnique(U64 - 1, U64, 0, U64 - 1);
    AdcCarryExactIff(CARRY, 0, U64 - 1, 64);
    SbbBorrowExactIff(CARRY, 0, U64 - 1, 64);
  }

  /** 64-bit operands whose overflow is wrong: 0 and 7fff_ffff_ffff_ffff with carry in. */
  lemma FoldLosesOverflow()
    ensures !AdcFlags(CARRY, 0, U64 / 2 - 1, 64).of && Signed(0, 64) + Signed(U64 / 2 - 1, 64) + 1 == Half(64)
    ensures SbbFlags(CARRY, 0, U64 / 2 - 1, 64).of && Signed(0, 64) - Signed(U64 / 2 - 1, 64) - 1 == -Half(64)
  {
    ModUnique(U64 / 2 - 1, U64, 0, U64 / 2 - 1);
    AdcOverflowExactIff(CARRY, 0, U64 / 2 - 1, 64);
    SbbOverflowExactIff(CARRY, 0, U64 / 2 - 1, 64);
  }

  // ------------------------------------------------------------ the register file

  type Gprs = g: seq<u64> | |g| == 16 witness seq(16, _ => 0)

  const RAX: nat := 0
  const RCX: nat := 1
  const RDX: nat := 2
  const RSP: nat := 4
  const RSI: nat := 6
  const RDI: nat := 7
  const R8: nat := 8
  const R9: nat := 9
  const R10: nat := 10
  const R11: nat := 11

  datatype RegisterFile = RegisterFile(gpr: Gprs, fsBase: u64, gsBase: u64, rip: u64, flags: Flags) {
    function Set(i: nat, v: u64): (r: RegisterFile)
      requires i < 16
      ensures r.gpr[i] == v && forall j :: 0 <= j < 16 && j != i ==> r.gpr[j] == gpr[j]
    {
      this.(gpr := gpr[i := v])
    }
  }

  /** Which bits of a slot a register name covers; High8 is AH, BH, CH or DH. */
  datatype Part = Low8 | High8 | Low16 | Low32 | Full

  datatype Reg = Reg(slot: nat, part: Part)

  predicate RegOk(r: Reg) { r.slot < 16 && (r.part == High8 ==> r.slot < 4) }

  function PartWidth(p: Part): Width {
    match p
    case Low8 => 8
    case High8 => 8
    case Low16 => 16
    case Low32 => 32
    case Full => 64
  }

  /** extract_register_bits. */
  function ExtractBits(slot: u64, p: Part): (v: u64)
    ensures v < Modulus(PartWidth(p))
  {
    if p == High8 then (slot / 256) % 256 else Masked(slot, PartWidth(p))
  }

  /** write_register_bits: a 32-bit write clears the upper half, narrower writes keep the rest. */
  function DepositBits(slot: u64, p: Part, v: u64): u64 {
    match p
    case High8 => slot - 256 * ((slot / 256) % 256) + 256 * (v % 256)
    case Low8 => slot - slot % 256 + v % 256
    case Low16 => slot - slot % 0x1_0000 + v % 0x1_0000
    case Low32 => v % 0x1_0000_0000
    case Full => v
  }

  function ReadReg(r: RegisterFile, reg: Reg): u64
    requires RegOk(reg)
  {
    ExtractBits(r.gpr[reg.slot], reg.part)
  }

  function WriteReg(r: RegisterFile, reg: Reg, v: u64): RegisterFile
    requires RegOk(reg)
  {
    r.Set(reg.slot, DepositBits(r.gpr[reg.slot], reg.part, v))
  }

  lemma HighByte(slot: nat, v: nat)
    ensures (slot - 256 * ((slot / 256) % 256) + 256 * (v % 256)) / 256 % 256 == v % 256
  {
    var q := slot / 65536;
    assert slot / 256 == 256 * q + (slot / 256) % 256;
    assert slot - 256 * ((slot / 256) % 256) + 256 * (v % 256) == slot % 256 + 256 * (256 * q + v % 256);
  }

  /** Reading back a written register gives the value cut to its width. */
  lemma ReadAfterWrite(r: RegisterFile, reg: Reg, v: u64)
    requires RegOk(reg)
    ensures ReadReg(WriteReg(r, reg, v), reg) == Masked(v, PartWidth(reg.part))
  {
    DepositThenExtract(r.gpr[reg.slot], reg.part, v);
  }

  /** Replacing the low digit of a number. */
  lemma LowDigit(slot: nat, m: nat, d: nat)
    requires d < m
    ensures (slot - slot % m + d) % m == d
  {
    ModUnique(slot - slot % m + d, m, slot / m, d);
  }

  lemma DepositThenExtract(slot: u64, p: Part, v: u64)
    ensures ExtractBits(DepositBits(slot, p, v), p) == Masked(v, PartWidth(p))
  {
    match p
    case High8 => HighByte(slot, v);
    case Low8 => LowDigit(slot, 256, v % 256);
    case Low16 => LowDigit(slot, 0x1_0000, v % 0x1_0000);
    case Low32 => ModUnique(v % 0x1_0000_0000, 0x1_0000_0000, 0, v % 0x1_0000_0000);
    case Full => ModUnique(v, U64, 0, v);
  }
}
