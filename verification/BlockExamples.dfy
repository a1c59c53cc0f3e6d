/** The interpreter's own instructions in the block theorems, and where the side conditions are needed. */
module BlockExamples {
  import opened Words
  import opened Regions
  import opened Registers
  import opened Instructions
  import opened Machine
  import opened Blocks
  import opened Execution

  /** Whole runs of the interpreter, for every decoder that depends on an instruction's own bytes only. */
  lemma InterpreterRefinesSteps(dec: Decoder, vsyscall: (Mem, RegisterFile) -> Run, m: Mem, r: RegisterFile, n: nat) returns (k: nat)
    requires DecoderOk(dec) && n > 0 && PlainBlocks(Cpu(dec, Execute, vsyscall), m, r, n)
    ensures var cpu := Cpu(dec, Execute, vsyscall);
            1 <= k <= 64 * n && RunBlocks(cpu, m, r, n) == Steps(cpu, m, r, k)
  {
    ExecuteIsOk();
    k := RunBlocksRefinesSteps(Cpu(dec, Execute, vsyscall), m, r, n);
  }

  // ------------------------------------------------------------ four encodings

  /** mov byte [0x1008], 0x06: opcode c6 /0, a SIB byte without base and index, disp32, imm8. */
  const STORE_BYTES: seq<byte> := [0xc6, 0x04, 0x25, 0x08, 0x10, 0x00, 0x00, 0x06]

  const STORE: Op := Mov(MemOp(Address(NoSegment, 0x1008, None, None, By1), 1), ImmOp(0x06))

  predicate Shape(i: Insn, ip: u64, len: Length, op: Op) { i.ip == ip && i.len == len && i.op == op }

  predicate Reads(d: Option<Insn>, ip: u64, len: Length, op: Op) { d.Some? && Shape(d.value, ip, len, op) }

  /** nop, syscall and the store above decode as they do on x86-64; 06 is invalid in 64-bit mode. */
  predicate AgreesOn(d: Option<Insn>, b: seq<byte>, ip: u64)
    requires |b| == MAX_INSTRUCTION_LEN
  {
    && (b[0] == 0x90 ==> Reads(d, ip, 1, Nop))
    && (b[0] == 0x0f && b[1] == 0x05 ==> Reads(d, ip, 2, Instructions.Op.Syscall))
    && (b[..8] == STORE_BYTES ==> Reads(d, ip, 8, STORE))
    && (b[0] == 0x06 ==> d == None)
  }

  /** A decoder that agrees with x86-64 on these four encodings, whatever it makes of all others. */
  ghost predicate ReadsX86(dec: Decoder) {
    DecoderOk(dec) && forall b: seq<byte>, ip: u64 :: |b| == MAX_INSTRUCTION_LEN ==> AgreesOn(dec(b, ip), b, ip)
  }

  /** One of them. */
  function FourEncodings(b: seq<byte>, ip: u64): Option<Insn> {
    if |b| != MAX_INSTRUCTION_LEN then None
    else if b[0] == 0x90 then Some(Insn(ip, 1, "nop", Nop))
    else if b[0] == 0x0f && b[1] == 0x05 then Some(Insn(ip, 2, "syscall", Instructions.Op.Syscall))
    else if b[..8] == STORE_BYTES then Some(Insn(ip, 8, "mov byte ptr [1008h], 6", STORE))
    else None
  }

  lemma FourEncodingsReadX86()
    ensures ReadsX86(FourEncodings)
  {
    forall b, c, ip, i | Decodes(FourEncodings, b, ip, i) && SamePrefix(b, c, i.len) ensures Decodes(FourEncodings, c, ip, i) {
      assert forall j :: 0 <= j < i.len ==> b[j] == b[..i.len][j] == c[j];
      if i.len == 8 { assert c[..8] == b[..8]; }
    }
    assert STORE_BYTES[0] == 0xc6;
  }

  // ------------------------------------------------------------ decoding in a small area

  /** One region of 32 bytes at 0x1000, readable, writable and executable. */
  function Area(data: seq<byte>): Mem
    requires |data| == 32
  {
    [Region(0x1000, 32, Permission(true, true, true), data)]
  }

  lemma FindInArea(data: seq<byte>, addr: int, len: int)
    requires |data| == 32 && 0x1000 <= addr && 0 <= len && addr + len <= 0x1020
    ensures Find(Area(data), addr, len) == 0
  {
    assert Area(data)[0].ContainsRange(addr, len);
  }

  lemma DecodeInArea(dec: Decoder, data: seq<byte>, j: nat)
    requires |data| == 32 && j <= 17
    ensures Decode(dec, Area(data), 0x1000 + j)
            == match dec(data[j..j + 15], 0x1000 + j) { case None => Err(InvalidInstruction(0x1000 + j)) case Some(i) => Ok(i) }
  {
    FindInArea(data, 0x1000 + j, 1);
    FindInArea(data, 0x1000 + j, 15);
    assert FetchBytes(Area(data), 0x1000 + j, MAX_INSTRUCTION_LEN) == Ok(data[j..j + 15]);
  }

  lemma NopInArea(dec: Decoder, data: seq<byte>, j: nat) returns (i: Insn)
    requires ReadsX86(dec) && |data| == 32 && j <= 17 && data[j] == 0x90
    ensures Decode(dec, Area(data), 0x1000 + j) == Ok(i) && Shape(i, 0x1000 + j, 1, Nop)
  {
    DecodeInArea(dec, data, j);
    var b := data[j..j + 15];
    assert AgreesOn(dec(b, 0x1000 + j), b, 0x1000 + j);
    i := dec(b, 0x1000 + j).value;
  }

  lemma SyscallInArea(dec: Decoder, data: seq<byte>, j: nat) returns (i: Insn)
    requires ReadsX86(dec) && |data| == 32 && j <= 17 && data[j] == 0x0f && data[j + 1] == 0x05
    ensures Decode(dec, Area(data), 0x1000 + j) == Ok(i) && Shape(i, 0x1000 + j, 2, Instructions.Op.Syscall)
  {
    DecodeInArea(dec, data, j);
    var b := data[j..j + 15];
    assert AgreesOn(dec(b, 0x1000 + j), b, 0x1000 + j);
    i := dec(b, 0x1000 + j).value;
  }

  lemma StoreInArea(dec: Decoder, data: seq<byte>) returns (i: Insn)
    requires ReadsX86(dec) && |data| == 32 && data[..8] == STORE_BYTES
    ensures Decode(dec, Area(data), 0x1000) == Ok(i) && Shape(i, 0x1000, 8, STORE)
  {
    DecodeInArea(dec, data, 0);
    var b := data[0..15];
    assert b[..8] == data[..8];
    assert AgreesOn(dec(b, 0x1000), b, 0x1000);
    i := dec(b, 0x1000).value;
  }

  lemma InvalidInArea(dec: Decoder, data: seq<byte>, j: nat)
    requires ReadsX86(dec) && |data| == 32 && j <= 17 && data[j] == 0x06
    ensures Decode(dec, Area(data), 0x1000 + j) == Err(InvalidInstruction(0x1000 + j))
  {
    DecodeInArea(dec, data, j);
    var b := data[j..j + 15];
    assert AgreesOn(dec(b, 0x1000 + j), b, 0x1000 + j);
  }

  // ------------------------------------------------------------ a block that patches itself

  /** mov byte [0x1008], 0x06; nop; syscall; zeros. The store makes the nop invalid. */
  function Program(): (data: seq<byte>)
    ensures |data| == 32 && data[..8] == STORE_BYTES && data[8] == 0x90 && data[9] == 0x0f && data[10] == 0x05
  {
    STORE_BYTES + [0x90, 0x0f, 0x05] + seq(21, _ => 0)
  }

  function Patched(): (data: seq<byte>)
    ensures |data| == 32 && data[8] == 0x06
  {
    Program()[8 := 0x06]
  }

  /** The machine with the interpreter's instructions and some decoder. */
  function X86(dec: Decoder, vsyscall: (Mem, RegisterFile) -> Run): Cpu { Cpu(dec, Execute, vsyscall) }

  lemma PatchInArea(data: seq<byte>, r: RegisterFile)
    requires |data| == 32
    ensures StoreBytes(Area(data), r, 0x1008, [0x06], true)
            == Effect(Area(data[8 := 0x06]), r, [Store(0x1008, 1, true, true)], Ok(Continue))
  {
    FindInArea(data, 0x1008, 1);
    assert Overwrite(data, 8, [0x06]) == data[8 := 0x06];
    assert Area(data)[0 := Area(data)[0].(data := data[8 := 0x06])] == Area(data[8 := 0x06]);
  }

  lemma StoreExecutes(i: Insn, r: RegisterFile)
    requires Shape(i, 0x1000, 8, STORE)
    ensures Execute(i, Area(Program()), r)
            == Effect(Area(Patched()), r.(rip := 0x1008), [Store(0x1008, 1, true, true)], Ok(Continue))
  {
    PatchInArea(Program(), r);
    assert ToLittleEndian(0x06, 1) == [0x06];
    assert EffectiveAddress(r, STORE.dst.at) == 0x1008;
  }

  lemma SyscallTraps(i: Insn, m: Mem, r: RegisterFile)
    requires Shape(i, 0x1009, 2, Instructions.Op.Syscall)
    ensures Execute(i, m, r).result.Ok? && Execute(i, m, r).result.value.Trapped? && Execute(i, m, r).regs.rip == 0x100b
  {
  }

  ghost predicate ProgramCode(code: seq<Insn>) {
    && |code| == 3 && Shape(code[0], 0x1000, 8, STORE) && Shape(code[1], 0x1008, 1, Nop)
    && Shape(code[2], 0x1009, 2, Instructions.Op.Syscall)
  }

  lemma ProgramTranslates(dec: Decoder) returns (code: seq<Insn>)
    requires ReadsX86(dec)
    ensures Translate(dec, Area(Program()), 0x1000, MAX_BLOCK_INSTRUCTIONS) == Ok(code) && ProgramCode(code)
  {
    var m := Area(Program());
    var a := StoreInArea(dec, Program());
    var b := NopInArea(dec, Program(), 8);
    var c := SyscallInArea(dec, Program(), 9);
    TranslateFolds(dec, m, 0x1009, 62, [c]);
    assert [b, c][1..] == [c];
    TranslateFolds(dec, m, 0x1008, 63, [b, c]);
    code := [a, b, c];
    assert code[1..] == [b, c];
    TranslateFolds(dec, m, 0x1000, 64, code);
  }

  /** The block goes on with the stale nop and traps. */
  lemma BlockRunsStale(code: seq<Insn>, r: RegisterFile)
    requires ProgramCode(code) && r.rip == 0x1000
    ensures BlockRun(Execute, code, Area(Program()), r).regs.rip == 0x100b
  {
    var m, s, t := Area(Patched()), r.(rip := 0x1008), r.(rip := 0x1009);
    StoreExecutes(code[0], r);
    BlockUnfolds(Execute, code, Area(Program()), r, BlockRun(Execute, code, Area(Program()), r));
    TailRuns(code[1..], m, s);
  }

  lemma TailRuns(tail: seq<Insn>, m: Mem, s: RegisterFile)
    requires |tail| == 2 && Shape(tail[0], 0x1008, 1, Nop) && Shape(tail[1], 0x1009, 2, Instructions.Op.Syscall)
    requires s.rip == 0x1008
    ensures BlockRun(Execute, tail, m, s).regs.rip == 0x100b
  {
    var t := s.(rip := 0x1009);
    assert Execute(tail[0], m, s) == Effect(m, t, [], Ok(Continue));
    BlockUnfolds(Execute, tail, m, s, BlockRun(Execute, tail, m, s));
    SyscallTraps(tail[1], m, t);
    BlockUnfolds(Execute, tail[1..], m, t, BlockRun(Execute, tail[1..], m, t));
  }

  /** The first step stores and stops before the patched byte. */
  lemma FirstStep(dec: Decoder, vsyscall: (Mem, RegisterFile) -> Run, r: RegisterFile)
    requires ReadsX86(dec) && r.rip == 0x1000
    ensures var one := Step(X86(dec, vsyscall), Area(Program()), r);
            one.mem == Area(Patched()) && one.regs == r.(rip := 0x1008) && one.result == Ok(Continue)
  {
    var i := StoreInArea(dec, Program());
    StoreExecutes(i, r);
    assert Step(X86(dec, vsyscall), Area(Program()), r) == One(Execute, i, Area(Program()), r);
  }

  /** The second step finds it invalid. */
  lemma SecondStep(dec: Decoder, vsyscall: (Mem, RegisterFile) -> Run, s: RegisterFile)
    requires ReadsX86(dec) && s.rip == 0x1008
    ensures Step(X86(dec, vsyscall), Area(Patched()), s) == Run(Area(Patched()), s, Err(InvalidInstruction(0x1008)), [])
  {
    InvalidInArea(dec, Patched(), 8);
  }

  /** A run of steps that fails at the second. */
  lemma StepsStop(cpu: Cpu, m: Mem, r: RegisterFile, k: nat, one: Run, two: Run)
    requires k > 0 && Step(cpu, m, r) == one && one.result == Ok(Continue)
    requires Step(cpu, one.mem, one.regs) == two && two.result != Ok(Continue) && two.regs == one.regs
    ensures Steps(cpu, m, r, k).regs == one.regs
  {
    if k > 1 { StepsUnfold(cpu, m, r, k); }
    if k > 2 { StepsUnfold(cpu, one.mem, one.regs, k - 1); }
  }

  /** A block that stores into its own later bytes is no number of steps: the side condition is needed. */
  lemma SelfPatchingBlockDiffers(dec: Decoder, vsyscall: (Mem, RegisterFile) -> Run, r: RegisterFile, k: nat)
    requires ReadsX86(dec) && r.rip == 0x1000 && k > 0
    ensures CpuOk(X86(dec, vsyscall))
    ensures StepBlock(X86(dec, vsyscall), Area(Program()), r) != Steps(X86(dec, vsyscall), Area(Program()), r, k)
  {
    var cpu, m := X86(dec, vsyscall), Area(Program());
    ExecuteIsOk();
    var code := ProgramTranslates(dec);
    BlockRunsStale(code, r);
    assert StepBlock(cpu, m, r).regs.rip == 0x100b;
    FirstStep(dec, vsyscall, r);
    SecondStep(dec, vsyscall, r.(rip := 0x1008));
    StepsStop(cpu, m, r, k, Step(cpu, m, r), Step(cpu, Area(Patched()), r.(rip := 0x1008)));
  }

  // ------------------------------------------------------------ an invalid instruction ahead

  /** nop followed by the invalid byte 06. */
  function Broken(): (data: seq<byte>)
    ensures |data| == 32 && data[0] == 0x90 && data[1] == 0x06
  {
    [0x90, 0x06] + seq(30, _ => 0)
  }

  lemma BrokenTranslates(dec: Decoder)
    requires ReadsX86(dec)
    ensures Translate(dec, Area(Broken()), 0x1000, 64) == Err(InvalidInstruction(0x1001))
    ensures Decode(dec, Area(Broken()), 0x1000).Ok?
  {
    var i := NopInArea(dec, Broken(), 0);
    InvalidInArea(dec, Broken(), 1);
    TranslateFails(DecodeIn(dec, Area(Broken())), 0x1000, 64, i, InvalidInstruction(0x1001));
  }

  /** A translation fails when its second instruction does not decode. */
  lemma TranslateFails(decode: Decoding, ip: u64, n: nat, i: Insn, e: CpuError)
    requires n > 1 && decode(ip) == Ok(i) && i.Kind() == Compute && decode(i.Next()) == Err(e)
    ensures TranslateFrom(decode, ip, n) == Err(e)
  {
    assert TranslateFrom(decode, i.Next(), n - 1) == Err(e);
  }

  /** An invalid instruction ahead stops the whole block, although a step would succeed. */
  lemma InvalidAheadStopsBlock(dec: Decoder, vsyscall: (Mem, RegisterFile) -> Run, r: RegisterFile, k: nat)
    requires ReadsX86(dec) && r.rip == 0x1000 && k > 0
    ensures var cpu, m := X86(dec, vsyscall), Area(Broken());
            && StepBlock(cpu, m, r) == Run(m, r, Err(InvalidInstruction(0x1001)), [])
            && StepBlock(cpu, m, r) != Steps(cpu, m, r, k)
  {
    BrokenTranslates(dec);
    FailedTranslationIff(X86(dec, vsyscall), Area(Broken()), r, k);
  }
}
