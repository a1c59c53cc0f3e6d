/** Widening multiplication and division over AX or rdx:rax. */
module Arithmetic {
  import opened Words
  import opened Registers

  const U128: int := U64 * U64

  /** The modulus of a double-width word. */
  function Modulus2(w: Width): int {
    match w
    case 8 => 0x1_0000
    case 16 => 0x1_0000_0000
    case 32 => 0x1_0000_0000_0000_0000
    case _ => 0x1_0000_0000_0000_0000_0000_0000_0000_0000
  }

  const AL := Reg(RAX, Low8)
  const AH := Reg(RAX, High8)

  function Acc(w: Width): Reg {
    match w
    case 8 => AL
    case 16 => Reg(RAX, Low16)
    case 32 => Reg(RAX, Low32)
    case _ => Reg(RAX, Full)
  }

  /** Where division leaves its remainder. */
  function Rest(w: Width): Reg {
    match w
    case 8 => AH
    case 16 => Reg(RDX, Low16)
    case 32 => Reg(RDX, Low32)
    case _ => Reg(RDX, Full)
  }

  /** write_mul_result. */
  function WriteProduct(r: RegisterFile, w: Width, p: int): RegisterFile
    requires 0 <= p < U128
  {
    match w
    case 8 => r.Set(RAX, r.gpr[RAX] - r.gpr[RAX] % 0x1_0000 + p % 0x1_0000)
    case 16 => WriteReg(WriteReg(r, Reg(RAX, Low16), p % U64), Reg(RDX, Low16), (p / 0x1_0000) % U64)
    case 32 => WriteReg(WriteReg(r, Reg(RAX, Low32), p % U64), Reg(RDX, Low32), (p / 0x1_0000_0000) % U64)
    case _ => r.Set(RAX, p % U64).Set(RDX, p / U64)
  }

  function Product(r: RegisterFile, rhs: u64, w: Width, signed: bool): (p: int)
    ensures 0 <= p < U128
  {
    if signed then (Signed(r.gpr[RAX], w) * Signed(rhs, w)) % U128
    else
      MulBound(Masked(r.gpr[RAX], w), Masked(rhs, w), Modulus(w)); ModulusSquare(w);
      Masked(r.gpr[RAX], w) * Masked(rhs, w)
  }

  lemma MulBound(a: int, b: int, m: int)
    requires 0 <= a < m && 0 <= b < m
    ensures 0 <= a * b < m * m
  {
    MulMonotone(0, b, a);
    MulMonotone(b, m - 1, a);
    MulMonotone(a, m, m - 1);
    assert b * a == a * b && (m - 1) * a == a * (m - 1) && m * (m - 1) == m * m - m;
  }

  lemma ModulusSquare(w: Width)
    ensures Modulus(w) * Modulus(w) == Modulus2(w) <= U128
  {
  }

  /** execute_mul: CF and OF say whether the high half matters. */
  function ExecuteMul(r: RegisterFile, rhs: u64, w: Width, signed: bool): RegisterFile {
    var p := Product(r, rhs, w, signed);
    var overflow := if signed then (if p >= U128 / 2 then p - U128 else p) != Signed(p % U64, w)
                    else p / Modulus(w) != 0;
    var s := WriteProduct(r, w, p);
    s.(flags := s.flags.(cf := overflow, of := overflow))
  }

  /** unsigned_dividend. */
  function DoubleWord(r: RegisterFile, w: Width): int {
    match w
    case 8 => r.gpr[RAX] % 0x1_0000
    case 16 => (r.gpr[RDX] % 0x1_0000) * 0x1_0000 + r.gpr[RAX] % 0x1_0000
    case 32 => (r.gpr[RDX] % 0x1_0000_0000) * 0x1_0000_0000 + r.gpr[RAX] % 0x1_0000_0000
    case _ => r.gpr[RDX] * U64 + r.gpr[RAX]
  }

  /** signed_dividend. */
  function SignedDividend(r: RegisterFile, w: Width): int {
    match w
    case 8 => Signed(DoubleWord(r, w), 16)
    case 16 => Signed(DoubleWord(r, w), 32)
    case 32 => Signed(DoubleWord(r, w), 64)
    case _ => if DoubleWord(r, w) >= U128 / 2 then DoubleWord(r, w) - U128 else DoubleWord(r, w)
  }

  function Abs(v: int): int { if v < 0 then -v else v }

  /** Division that truncates toward zero, as Rust's does. */
  function TruncDiv(a: int, b: int): int
    requires b != 0
  {
    var x, y := if a < 0 then -a else a, if b < 0 then -b else b;
    if (a < 0) == (b < 0) then x / y else -(x / y)
  }

  function TruncRem(a: int, b: int): int
    requires b != 0
  {
    a - b * TruncDiv(a, b)
  }

  function WriteQuotient(r: RegisterFile, w: Width, q: u64, rem: u64): RegisterFile {
    WriteReg(WriteReg(r, Acc(w), q), Rest(w), rem)
  }

  /** Registers, a guest divide error, or an overflow of the emulator's own 128-bit division. */
  datatype Division = Divided(regs: RegisterFile) | DivideError | HostOverflow

  /** execute_div. The range of the quotient is looked at only after dividing in i128. */
  function ExecuteDiv(r: RegisterFile, divisor: u64, w: Width, signed: bool): Division {
    if Masked(divisor, w) == 0 then DivideError
    else if signed then
      var d, n := Signed(divisor, w), SignedDividend(r, w);
      if n == -(U128 / 2) && d == -1 then HostOverflow
      else
        var q := TruncDiv(n, d);
        if q < -Half(w) || q > Half(w) - 1 then DivideError
        else Divided(WriteQuotient(r, w, Wrap64(q), Wrap64(TruncRem(n, d))))
    else
      var d, n := Masked(divisor, w), DoubleWord(r, w);
      if n / d > Modulus(w) - 1 then DivideError
      else Divided(WriteQuotient(r, w, Wrap64(n / d), Wrap64(n % d)))
  }

  // ------------------------------------------------------------ multiply, then divide

  lemma DepositLow16(slot: u64, v: u64)
    ensures DepositBits(slot, Low16, v) % 0x1_0000 == v % 0x1_0000
  {
  }

  lemma WordOfProduct16(r: RegisterFile, p: int)
    requires 0 <= p < U128
    ensures DoubleWord(WriteProduct(r, 16, p), 16) == p % 0x1_0000_0000
  {
    var s := WriteProduct(r, 16, p);
    assert s.gpr[RAX] % 0x1_0000 == p % 0x1_0000 by {
      DepositLow16(r.gpr[RAX], p % U64);
      MaskWrap(p, 16);
    }
    assert s.gpr[RDX] % 0x1_0000 == (p / 0x1_0000) % 0x1_0000 by {
      DepositLow16(r.gpr[RDX], (p / 0x1_0000) % U64);
      MaskWrap(p / 0x1_0000, 16);
    }
    SplitModulus(p, 0x1_0000, 0x1_0000);
  }

  lemma WordOfProduct32(r: RegisterFile, p: int)
    requires 0 <= p < U128
    ensures DoubleWord(WriteProduct(r, 32, p), 32) == p % U64
  {
    var s := WriteProduct(r, 32, p);
    assert s.gpr[RAX] == p % 0x1_0000_0000 by { MaskWrap(p, 32); }
    assert s.gpr[RDX] == (p / 0x1_0000_0000) % 0x1_0000_0000 by { MaskWrap(p / 0x1_0000_0000, 32); }
    SplitModulus(p, 0x1_0000_0000, 0x1_0000_0000);
  }

  /** The product's halves, read back as a dividend, are the product cut to double width. */
  lemma DoubleWordOfProduct(r: RegisterFile, w: Width, p: int)
    requires 0 <= p < U128
    ensures DoubleWord(WriteProduct(r, w, p), w) == p % Modulus2(w)
  {
    match w
    case 16 => WordOfProduct16(r, p);
    case 32 => WordOfProduct32(r, p);
    case _ =>
  }

  /** Signed operands of width w have a product well inside double width. */
  lemma SignedProductBound(a: int, b: int, w: Width)
    requires -Half(w) <= a < Half(w) && -Half(w) <= b < Half(w)
    ensures -(Modulus2(w) / 2) < a * b < Modulus2(w) / 2
  {
    var h := Half(w);
    var x, y := if a < 0 then -a else a, if b < 0 then -b else b;
    MulMonotone(0, x, y);
    MulMonotone(x, h, y);
    MulMonotone(y, h, h);
    assert y * x == x * y && h * y == y * h;
    assert a * b == x * y || a * b == -(x * y);
    assert h * h < Modulus2(w) / 2;
  }

  /** A double-width signed value, stored modulo 2^128 and cut to double width. */
  lemma CutSigned(s: int, w: Width)
    requires -(Modulus2(w) / 2) <= s < Modulus2(w) / 2
    ensures (s % U128) % Modulus2(w) == if s < 0 then s + Modulus2(w) else s
  {
    var turn := if s < 0 then -1 else 0;
    ModUnique(s, U128, turn, s - U128 * turn);
    var m := Modulus2(w);
    ModUnique(s % U128, m, if s < 0 then U128 / m - 1 else 0, s - m * turn);
  }

  lemma SignedDividendOfProduct(r: RegisterFile, w: Width, s: int)
    requires -(Modulus2(w) / 2) <= s < Modulus2(w) / 2
    ensures SignedDividend(WriteProduct(r, w, s % U128), w) == s
  {
    CutSigned(s, w);
    DoubleWordOfProduct(r, w, s % U128);
    SignedOfCut(WriteProduct(r, w, s % U128), w, s);
  }

  lemma SignedOfCut(r: RegisterFile, w: Width, s: int)
    requires -(Modulus2(w) / 2) <= s < Modulus2(w) / 2
    requires DoubleWord(r, w) == if s < 0 then s + Modulus2(w) else s
    ensures SignedDividend(r, w) == s
  {
    ModUnique(DoubleWord(r, w), Modulus2(w), 0, DoubleWord(r, w));
  }

  lemma AbsProduct(a: int, b: int)
    ensures var x, y := if a < 0 then -a else a, if b < 0 then -b else b;
            && x * y >= 0
            && a * b == (if a == 0 || (a < 0) == (b < 0) then x * y else -(x * y))
            && (a != 0 && b != 0 ==> x * y >= 1)
  {
    var x, y := if a < 0 then -a else a, if b < 0 then -b else b;
    MulMonotone(0, x, y);
    if a != 0 && b != 0 { MulMonotone(1, x, y); }
  }

  lemma TruncExact(a: int, b: int)
    requires b != 0
    ensures TruncDiv(a * b, b) == a && TruncRem(a * b, b) == 0
  {
    AbsProduct(a, b);
    var x, y := if a < 0 then -a else a, if b < 0 then -b else b;
    assert y * x == x * y;
    ModUnique(x * y, y, x, 0);
    assert b * a == a * b;
  }

  // ------------------------------------------------------------ the round trip

  lemma HighKeepsLow(slot: u64, v: u64)
    ensures DepositBits(slot, High8, v) % 256 == slot % 256
  {
    ModUnique(slot, 256, slot / 256, slot % 256);
    ModUnique(DepositBits(slot, High8, v), 256, slot / 256 - (slot / 256) % 256 + v % 256, slot % 256);
  }

  lemma QuotientAcc(r: RegisterFile, w: Width, q: u64, rem: u64)
    ensures Masked(WriteQuotient(r, w, q, rem).gpr[RAX], w) == Masked(q, w)
  {
    var a := WriteReg(r, Acc(w), q);
    ReadAfterWrite(r, Acc(w), q);
    assert Masked(a.gpr[RAX], w) == Masked(q, w);
    if w == 8 {
      HighKeepsLow(a.gpr[RAX], rem);
    }
  }

  lemma QuotientRead(r: RegisterFile, w: Width, q: u64, rem: u64)
    ensures var d := WriteQuotient(r, w, q, rem);
            && Masked(d.gpr[RAX], w) == Masked(q, w) && ReadReg(d, Rest(w)) == Masked(rem, w)
            && forall i :: 0 <= i < 16 && i != RAX && i != RDX ==> d.gpr[i] == r.gpr[i]
  {
    ReadAfterWrite(WriteReg(r, Acc(w), q), Rest(w), rem);
    QuotientAcc(r, w, q, rem);
  }

  lemma QuotientReadSmall(r: RegisterFile, w: Width, q: int, rem: int)
    requires 0 <= q < Modulus(w) && 0 <= rem < Modulus(w)
    ensures Wrap64(q) == q && Wrap64(rem) == rem
    ensures var d := WriteQuotient(r, w, q, rem);
            && Masked(d.gpr[RAX], w) == q && ReadReg(d, Rest(w)) == rem
            && forall i :: 0 <= i < 16 && i != RAX && i != RDX ==> d.gpr[i] == r.gpr[i]
  {
    ModUnique(q, U64, 0, q);
    ModUnique(rem, U64, 0, rem);
    ModUnique(q, Modulus(w), 0, q);
    ModUnique(rem, Modulus(w), 0, rem);
    QuotientRead(r, w, q, rem);
  }

  lemma DivisionFacts(n: int, d: int)
    requires 0 <= n && 0 < d
    ensures n == (n / d) * d + n % d && 0 <= n / d && 0 <= n % d < d
  {
    assert d * (n / d) == (n / d) * d;
    if n / d < 0 {
      MulMonotone(n / d, -1, d);
      assert false;
    }
  }

  lemma DoubleWordNonNegative(r: RegisterFile, w: Width)
    ensures DoubleWord(r, w) >= 0
  {
  }

  /** DIV: it faults exactly on zero or a quotient too wide, else dividend = quotient * divisor + remainder. */
  lemma DivMeaning(r: RegisterFile, divisor: u64, w: Width)
    ensures var d := Masked(divisor, w);
            var e := ExecuteDiv(r, divisor, w, false);
            && (e.DivideError? <==> d == 0 || DoubleWord(r, w) / d >= Modulus(w)) && !e.HostOverflow?
            && (e.Divided? ==> DoubleWord(r, w) == Masked(e.regs.gpr[RAX], w) * d + ReadReg(e.regs, Rest(w))
                               && ReadReg(e.regs, Rest(w)) < d)
  {
    var d, n := Masked(divisor, w), DoubleWord(r, w);
    DoubleWordNonNegative(r, w);
    if d != 0 && n / d < Modulus(w) {
      DivisionFacts(n, d);
      QuotientReadSmall(r, w, n / d, n % d);
    }
  }

  /** Truncated division: the remainder is smaller than the divisor and has the sign of the dividend. */
  lemma TruncFacts(n: int, d: int)
    requires d != 0
    ensures n == TruncDiv(n, d) * d + TruncRem(n, d)
    ensures var rem := TruncRem(n, d);
            if n < 0 then -Abs(d) < rem <= 0 else 0 <= rem < Abs(d)
  {
    var x, y := Abs(n), Abs(d);
    DivisionFacts(x, y);
    var k := x / y;
    assert d * TruncDiv(n, d) == TruncDiv(n, d) * d;
    assert TruncDiv(n, d) * d == if n < 0 then -(k * y) else k * y;
  }

  /** A value inside the signed range of a width survives being cut to it. */
  lemma SignedBack(v: int, m: int, w: Width)
    requires -Half(w) <= v < Half(w) && Masked(m, w) == Masked(Wrap64(v), w)
    ensures Signed(m, w) == v
  {
    MaskWrap(v, w);
    var turn := if v < 0 then -1 else 0;
    ModUnique(v, Modulus(w), turn, v - Modulus(w) * turn);
  }

  lemma SignedResult(r: RegisterFile, w: Width, q: int, rem: int)
    requires -Half(w) <= q < Half(w) && -Half(w) <= rem < Half(w)
    ensures var d := WriteQuotient(r, w, Wrap64(q), Wrap64(rem));
            Signed(d.gpr[RAX], w) == q && Signed(ReadReg(d, Rest(w)), w) == rem
  {
    var d := WriteQuotient(r, w, Wrap64(q), Wrap64(rem));
    QuotientRead(r, w, Wrap64(q), Wrap64(rem));
    SignedBack(q, d.gpr[RAX], w);
    var m := Masked(Wrap64(rem), w);
    ModUnique(m, Modulus(w), 0, m);
    SignedBack(rem, ReadReg(d, Rest(w)), w);
  }

  /** The one dividend and divisor whose quotient 128 bits cannot hold; no operand of width 8, 16 or 32 reaches it. */
  predicate Unrepresentable(r: RegisterFile, divisor: u64, w: Width) {
    w == 64 && r.gpr[RDX] == U64 / 2 && r.gpr[RAX] == 0 && divisor == U64 - 1
  }

  lemma UnrepresentableIff(r: RegisterFile, divisor: u64, w: Width)
    ensures SignedDividend(r, w) == -(U128 / 2) && Signed(divisor, w) == -1 <==> Unrepresentable(r, divisor, w)
  {
  }

  /**
    IDIV: apart from the one unrepresentable case it faults exactly on zero or a quotient outside the signed
    range; else dividend = quotient * divisor + remainder, with a small remainder of the dividend's sign.
   */
  lemma IdivMeaning(r: RegisterFile, divisor: u64, w: Width)
    ensures var d, n := Signed(divisor, w), SignedDividend(r, w);
            var e := ExecuteDiv(r, divisor, w, true);
            && (e.HostOverflow? <==> Unrepresentable(r, divisor, w))
            && (e.Divided? <==> d != 0 && -Half(w) <= TruncDiv(n, d) < Half(w))
            && (e.Divided? ==> var rem := Signed(ReadReg(e.regs, Rest(w)), w);
                               && n == Signed(e.regs.gpr[RAX], w) * d + rem
                               && if n < 0 then -Abs(d) < rem <= 0 else 0 <= rem < Abs(d))
  {
    var d, n := Signed(divisor, w), SignedDividend(r, w);
    UnrepresentableIff(r, divisor, w);
    if d != 0 {
      TruncFacts(n, d);
      var q, rem := TruncDiv(n, d), TruncRem(n, d);
      if -Half(w) <= q < Half(w) { SignedResult(r, w, q, rem); }
    }
  }

  lemma UnsignedProduct(r: RegisterFile, rhs: u64, w: Width)
    ensures DoubleWord(ExecuteMul(r, rhs, w, false), w) == Masked(r.gpr[RAX], w) * Masked(rhs, w)
  {
    var a, b := Masked(r.gpr[RAX], w), Masked(rhs, w);
    MulBound(a, b, Modulus(w));
    ModulusSquare(w);
    DoubleWordOfProduct(r, w, a * b);
    ModUnique(a * b, Modulus2(w), 0, a * b);
  }

  lemma ExactQuotient(a: int, b: int)
    requires b > 0
    ensures (a * b) / b == a && (a * b) % b == 0
  {
    assert a * b == b * a;
    ModUnique(a * b, b, a, 0);
  }

  /** Dividing n, a multiple of the divisor by a that fits the width. */
  lemma UnsignedExact(m: RegisterFile, rhs: u64, w: Width, a: int, n: int)
    requires Masked(rhs, w) > 0 && 0 <= a < Modulus(w) && DoubleWord(m, w) == n
    requires n / Masked(rhs, w) == a && n % Masked(rhs, w) == 0
    ensures ExecuteDiv(m, rhs, w, false) == Divided(WriteQuotient(m, w, a, 0))
  {
    ModUnique(a, U64, 0, a);
  }

  lemma UnsignedMulThenDiv(r: RegisterFile, rhs: u64, w: Width)
    requires Masked(rhs, w) != 0
    ensures var d := ExecuteDiv(ExecuteMul(r, rhs, w, false), rhs, w, false);
            d == Divided(WriteQuotient(ExecuteMul(r, rhs, w, false), w, Masked(r.gpr[RAX], w), 0))
  {
    var a, b := Masked(r.gpr[RAX], w), Masked(rhs, w);
    UnsignedProduct(r, rhs, w);
    ExactQuotient(a, b);
    UnsignedExact(ExecuteMul(r, rhs, w, false), rhs, w, a, a * b);
  }

  lemma SignedMulThenDiv(r: RegisterFile, rhs: u64, w: Width)
    requires Masked(rhs, w) != 0
    ensures var d := ExecuteDiv(ExecuteMul(r, rhs, w, true), rhs, w, true);
            d == Divided(WriteQuotient(ExecuteMul(r, rhs, w, true), w, Wrap64(Signed(r.gpr[RAX], w)), 0))
  {
    var a, b := Signed(r.gpr[RAX], w), Signed(rhs, w);
    var m := ExecuteMul(r, rhs, w, true);
    SignedProductBound(a, b, w);
    SignedDividendOfProduct(r, w, a * b);
    assert SignedDividend(m, w) == a * b;
    TruncExact(a, b);
  }

  /**
    MUL or IMUL by a nonzero operand followed by DIV or IDIV by it never faults, restores the
    accumulator's low bits, leaves remainder zero, and touches only rax, rdx and the flags.
   */
  lemma MulThenDiv(r: RegisterFile, rhs: u64, w: Width, signed: bool)
    requires Masked(rhs, w) != 0
    ensures var d := ExecuteDiv(ExecuteMul(r, rhs, w, signed), rhs, w, signed);
            && d.Divided?
            && Masked(d.regs.gpr[RAX], w) == Masked(r.gpr[RAX], w)
            && ReadReg(d.regs, Rest(w)) == 0
            && (forall i :: 0 <= i < 16 && i != RAX && i != RDX ==> d.regs.gpr[i] == r.gpr[i])
  {
    var m := ExecuteMul(r, rhs, w, signed);
    if signed {
      SignedMulThenDiv(r, rhs, w);
      QuotientRead(m, w, Wrap64(Signed(r.gpr[RAX], w)), 0);
      ModUnique(0, Modulus(w), 0, 0);
      MaskWrap(Signed(r.gpr[RAX], w), w);
      MaskSigned(r.gpr[RAX], w);
    } else {
      UnsignedMulThenDiv(r, rhs, w);
      QuotientReadSmall(m, w, Masked(r.gpr[RAX], w), 0);
    }
  }

  lemma MaskSigned(v: int, w: Width)
    ensures Masked(Signed(v, w), w) == Masked(v, w)
  {
    ModUnique(Signed(v, w), Modulus(w), if SignSet(v, w) then -1 else 0, Masked(v, w));
  }

  /** Any register outside rax and rdx reads the same after the multiplication, so it is the same operand. */
  lemma OperandSurvivesMul(r: RegisterFile, reg: Reg, rhs: u64, w: Width, signed: bool)
    requires RegOk(reg) && reg.slot != RAX && reg.slot != RDX
    ensures ReadReg(ExecuteMul(r, rhs, w, signed), reg) == ReadReg(r, reg)
  {
  }
}
