/**
  Decoding, translating and executing instructions, for any decoder and any instruction semantics
  with the few properties named here; the interpreter's own semantics is shown to have them in
  module Execution.
 */
module Machine {
  import opened Words
  import opened Regions
  import opened Registers
  import opened Instructions

  const MAX_INSTRUCTION_LEN: nat := 15
  const MAX_BLOCK_INSTRUCTIONS: nat := 64

  type Length = n: nat | 1 <= n <= MAX_INSTRUCTION_LEN witness 1

  /** A decoded instruction: its address and length, its text, and an operation. */
  datatype Insn = Insn(ip: u64, len: Length, text: string, op: Op) {
    function Kind(): Kind { KindOf(op) }

    function End(): int { ip + len }

    function Next(): u64 { if End() < U64 then End() else End() - U64 }
  }

  type Six = s: seq<u64> | |s| == 6 witness [0, 0, 0, 0, 0, 0]

  datatype Trap = Trap(number: u64, args: Six)

  datatype StepOutcome = Continue | Trapped(trap: Trap) | Halted(code: int)

  datatype CpuError =
    | MemoryFault(cause: MemError)
    | InvalidInstruction(at: u64)
    | UnsupportedInstruction(ip: u64, raw: seq<byte>, regs: RegisterFile)
    | UnsupportedOperand(operandAt: u64)
    | DivideError(dividesAt: u64)
    | HostOverflow(overflowsAt: u64)   // the emulator's own arithmetic overflows
    | EmptyStepLimit
    | ExecutionError(where: u64, text: string, source: CpuError)

  /** Bytes written by an instruction; operand says that they went through write_operand. */
  datatype Store = Store(addr: u64, size: nat, executable: bool, operand: bool) {
    predicate Misses(lo: int, hi: int) { addr + size <= lo || hi <= addr }
  }

  /** Memory, registers, stores and result of one instruction, also when it fails half-way. */
  datatype Effect = Effect(mem: Mem, regs: RegisterFile, stores: seq<Store>, result: Result<StepOutcome, CpuError>)

  /** A decoder of fifteen bytes at an address; None is an invalid instruction. */
  type Decoder = (seq<byte>, u64) -> Option<Insn>

  type Exec = (Insn, Mem, RegisterFile) -> Effect

  ghost predicate Decodes(dec: Decoder, b: seq<byte>, ip: u64, i: Insn) {
    |b| == MAX_INSTRUCTION_LEN && dec(b, ip) == Some(i)
  }

  predicate SamePrefix(b: seq<byte>, c: seq<byte>, k: nat) {
    |b| == |c| == MAX_INSTRUCTION_LEN && k <= |b| && b[..k] == c[..k]
  }

  /** A decoded instruction knows its address, and depends on its own bytes only. */
  ghost predicate DecoderOk(dec: Decoder) {
    && (forall b, ip, i :: Decodes(dec, b, ip, i) ==> i.ip == ip)
    && (forall b, c, ip, i :: Decodes(dec, b, ip, i) && SamePrefix(b, c, i.len) ==> Decodes(dec, c, ip, i))
  }

  predicate Touched(stores: seq<Store>, a: int) {
    exists k :: 0 <= k < |stores| && In(a, stores[k].addr, stores[k].size)
  }

  /** Addresses outside the stores read the same before and after. */
  ghost predicate Outside(m: Mem, n: Mem, stores: seq<Store>) {
    forall a :: !Touched(stores, a) ==> At(n, a) == At(m, a)
  }

  /** The store lies in one region, whose execute permission it carries. */
  predicate Placed(m: Mem, s: Store) {
    s.size > 0 && Find(m, s.addr, s.size) >= 0 && m[Find(m, s.addr, s.size)].perms.execute == s.executable
  }

  predicate AllPlaced(m: Mem, stores: seq<Store>) {
    forall k :: 0 <= k < |stores| ==> Placed(m, stores[k])
  }

  predicate MissAll(stores: seq<Store>, lo: int, hi: int) {
    forall k :: 0 <= k < |stores| ==> stores[k].Misses(lo, hi)
  }

  ghost predicate EffectOk(i: Insn, m: Mem, e: Effect) {
    && SameLayout(m, e.mem) && AllPlaced(m, e.stores) && Outside(m, e.mem, e.stores)
    && (e.result.Ok? ==> !e.result.value.Halted?)
    && (e.result.Ok? && i.Kind() == Compute ==> e.result.value == Continue && e.regs.rip == i.Next())
  }

  /** What the proofs need of the instructions: every store stays in one region, Compute falls through. */
  ghost predicate ExecOk(exec: Exec) {
    forall i, m, r :: EffectOk(i, m, exec(i, m, r))
  }

  // ------------------------------------------------------------ decoding and translating

  function Decode(dec: Decoder, m: Mem, ip: u64): Result<Insn, CpuError> {
    match FetchBytes(m, ip, MAX_INSTRUCTION_LEN)
    case Err(e) => Err(MemoryFault(e))
    case Ok(b) =>
      match dec(b, ip)
      case None => Err(InvalidInstruction(ip))
      case Some(i) => Ok(i)
  }

  type Decoding = u64 -> Result<Insn, CpuError>

  /** Decoding at each address of a memory. */
  function DecodeIn(dec: Decoder, m: Mem): Decoding { (ip: u64) => Decode(dec, m, ip) }

  /** translate_block: decode on from ip until an instruction ends the block or n are decoded. */
  function TranslateFrom(decode: Decoding, ip: u64, n: nat): Result<seq<Insn>, CpuError>
    decreases n
  {
    if n == 0 then Ok([])
    else
      match decode(ip)
      case Err(e) => Err(e)
      case Ok(i) =>
        if i.Kind() != Compute then Ok([i])
        else
          match TranslateFrom(decode, i.Next(), n - 1)
          case Err(e) => Err(e)
          case Ok(rest) => Ok([i] + rest)
  }

  function Translate(dec: Decoder, m: Mem, ip: u64, n: nat): Result<seq<Insn>, CpuError> {
    TranslateFrom(DecodeIn(dec, m), ip, n)
  }

  /** Instructions that follow each other from ip on, all but the last falling through. */
  predicate Chained(code: seq<Insn>, ip: int) {
    && |code| > 0 && code[0].ip == ip
    && (|code| > 1 ==> code[0].Kind() == Compute && Chained(code[1..], code[0].End()))
  }

  /** The end of a non-empty block. */
  function EndOf(code: seq<Insn>): int
    requires |code| > 0
  {
    code[|code| - 1].End()
  }

  lemma DecodeFacts(dec: Decoder, m: Mem, ip: u64)
    requires DecoderOk(dec) && Decode(dec, m, ip).Ok?
    ensures var i := Decode(dec, m, ip).value; i.ip == ip && i.End() < U64 && i.Next() == i.End()
  {
    var b := FetchBytes(m, ip, MAX_INSTRUCTION_LEN).value;
    FetchBytesFlat(m, ip, MAX_INSTRUCTION_LEN);
    assert Decodes(dec, b, ip, Decode(dec, m, ip).value);
  }

  /** A translation begins with the first instruction, and goes on behind it. */
  lemma TranslateUnfolds(dec: Decoder, m: Mem, ip: u64, n: nat, code: seq<Insn>)
    requires DecoderOk(dec) && n > 0 && Translate(dec, m, ip, n) == Ok(code)
    ensures |code| > 0 && Decode(dec, m, ip) == Ok(code[0])
    ensures code[0].ip == ip && code[0].End() < U64 && code[0].Next() == code[0].End()
    ensures if code[0].Kind() == Compute then Translate(dec, m, code[0].Next(), n - 1) == Ok(code[1..]) else code == [code[0]]
  {
    DecodeFacts(dec, m, ip);
  }

  lemma TranslateFolds(dec: Decoder, m: Mem, ip: u64, n: nat, code: seq<Insn>)
    requires n > 0 && |code| > 0 && Decode(dec, m, ip) == Ok(code[0])
    requires if code[0].Kind() == Compute then Translate(dec, m, code[0].Next(), n - 1) == Ok(code[1..]) else code == [code[0]]
    ensures Translate(dec, m, ip, n) == Ok(code)
  {
    assert code == [code[0]] + code[1..];
  }

  lemma {:induction false} TranslateFacts(dec: Decoder, m: Mem, ip: u64, n: nat, code: seq<Insn>)
    requires DecoderOk(dec) && n > 0 && Translate(dec, m, ip, n) == Ok(code)
    ensures 1 <= |code| <= n && Chained(code, ip) && ip < EndOf(code) < U64
    decreases n
  {
    TranslateUnfolds(dec, m, ip, n, code);
    if code[0].Kind() == Compute && n > 1 {
      TranslateFacts(dec, m, code[0].Next(), n - 1, code[1..]);
    }
  }

  // ------------------------------------------------------------ changing memory under decoded blocks

  /** Both memories hold the same at every address from lo on and below hi. */
  ghost predicate SameBytes(m: Mem, n: Mem, lo: int, hi: int) {
    forall a :: lo <= a < hi ==> At(n, a) == At(m, a)
  }

  /** Fetching sees a change only where it lies in the fetched range. */
  lemma FetchAgrees(m: Mem, n: Mem, ip: u64, k: nat)
    requires SameLayout(m, n) && SameBytes(m, n, ip, ip + k) && k <= MAX_INSTRUCTION_LEN
    ensures FetchBytes(m, ip, MAX_INSTRUCTION_LEN).Ok? == FetchBytes(n, ip, MAX_INSTRUCTION_LEN).Ok?
    ensures FetchBytes(m, ip, MAX_INSTRUCTION_LEN).Ok? ==>
              var b, c := FetchBytes(m, ip, MAX_INSTRUCTION_LEN).value, FetchBytes(n, ip, MAX_INSTRUCTION_LEN).value;
              SamePrefix(b, c, k)
  {
    FetchBytesFlat(m, ip, MAX_INSTRUCTION_LEN);
    FetchBytesFlat(n, ip, MAX_INSTRUCTION_LEN);
    SameFind(m, n, ip, MAX_INSTRUCTION_LEN);
    if FetchBytes(m, ip, MAX_INSTRUCTION_LEN).Ok? {
      var b, c := FetchBytes(m, ip, MAX_INSTRUCTION_LEN).value, FetchBytes(n, ip, MAX_INSTRUCTION_LEN).value;
      forall j | 0 <= j < k ensures b[j] == c[j] {
        assert In(ip + j, ip, MAX_INSTRUCTION_LEN);
        assert At(m, ip + j).value.value == b[ip + j - ip];
      }
    }
  }

  /** An instruction whose bytes are the same decodes as before. */
  lemma DecodeAgrees(dec: Decoder, m: Mem, n: Mem, ip: u64, i: Insn)
    requires DecoderOk(dec) && SameLayout(m, n) && Decode(dec, m, ip) == Ok(i) && SameBytes(m, n, ip, i.End())
    ensures Decode(dec, n, ip) == Ok(i)
  {
    var b := FetchBytes(m, ip, MAX_INSTRUCTION_LEN).value;
    DecodeFacts(dec, m, ip);
    FetchAgrees(m, n, ip, i.len);
    assert Decodes(dec, b, ip, i);
    assert Decodes(dec, FetchBytes(n, ip, MAX_INSTRUCTION_LEN).value, ip, i);
  }

  /** A block whose bytes are the same translates as before, although its last fetch reaches further. */
  lemma {:induction false} TranslateAgrees(dec: Decoder, m: Mem, n: Mem, ip: u64, k: nat, code: seq<Insn>)
    requires DecoderOk(dec) && SameLayout(m, n) && k > 0 && Translate(dec, m, ip, k) == Ok(code)
    requires |code| > 0 && SameBytes(m, n, ip, EndOf(code))
    ensures Translate(dec, n, ip, k) == Ok(code)
    decreases k
  {
    TranslateFacts(dec, m, ip, k, code);
    TranslateUnfolds(dec, m, ip, k, code);
    FirstWithin(code, ip);
    DecodeAgrees(dec, m, n, ip, code[0]);
    if code[0].Kind() == Compute && k > 1 {
      TranslateFacts(dec, m, code[0].Next(), k - 1, code[1..]);
      TranslateAgrees(dec, m, n, code[0].Next(), k - 1, code[1..]);
    }
    TranslateFolds(dec, n, ip, k, code);
  }

  lemma {:induction false} FirstWithin(code: seq<Insn>, ip: int)
    requires Chained(code, ip)
    ensures code[0].End() <= EndOf(code)
    decreases |code|
  {
    if |code| > 1 { FirstWithin(code[1..], code[0].End()); }
  }

  lemma MissedBytes(m: Mem, n: Mem, stores: seq<Store>, lo: int, hi: int)
    requires Outside(m, n, stores) && MissAll(stores, lo, hi)
    ensures SameBytes(m, n, lo, hi)
  {
  }

  /** A block that stores miss translates as before. */
  lemma TranslateAfterStores(dec: Decoder, m: Mem, n: Mem, stores: seq<Store>, ip: u64, k: nat, code: seq<Insn>)
    requires DecoderOk(dec) && SameLayout(m, n) && Outside(m, n, stores) && k > 0
    requires Translate(dec, m, ip, k) == Ok(code) && |code| > 0 && MissAll(stores, ip, EndOf(code))
    ensures Translate(dec, n, ip, k) == Ok(code)
  {
    MissedBytes(m, n, stores, ip, EndOf(code));
    TranslateAgrees(dec, m, n, ip, k, code);
  }

  predicate ExecutableAt(m: Mem, a: int) { At(m, a).Some? && At(m, a).value.perms.execute }

  /** Every byte of a translated block is executable. */
  lemma {:induction false} BlockExecutable(dec: Decoder, m: Mem, ip: u64, k: nat, code: seq<Insn>, a: int)
    requires DecoderOk(dec) && k > 0 && Translate(dec, m, ip, k) == Ok(code) && |code| > 0 && ip <= a < EndOf(code)
    ensures ExecutableAt(m, a)
    decreases k
  {
    TranslateUnfolds(dec, m, ip, k, code);
    if a < code[0].End() {
      FetchBytesFlat(m, ip, MAX_INSTRUCTION_LEN);
      assert In(a, ip, MAX_INSTRUCTION_LEN);
    } else if code[0].Kind() == Compute && k > 1 {
      TranslateFacts(dec, m, code[0].Next(), k - 1, code[1..]);
      BlockExecutable(dec, m, code[0].Next(), k - 1, code[1..], a);
    }
  }

  /** A store into a region that is not executable misses every translated block. */
  lemma BlockApart(dec: Decoder, m: Mem, s: Store, ip: u64, k: nat, code: seq<Insn>)
    requires DecoderOk(dec) && Placed(m, s) && !s.executable && k > 0 && Translate(dec, m, ip, k) == Ok(code) && |code| > 0
    ensures s.Misses(ip, EndOf(code))
  {
    if !s.Misses(ip, EndOf(code)) {
      var a := if s.addr > ip then s.addr else ip;
      TranslateFacts(dec, m, ip, k, code);
      BlockExecutable(dec, m, ip, k, code, a);
      RangeAt(m, Find(m, s.addr, s.size), s.addr, s.size);
      assert In(a, s.addr, s.size);
    }
  }

  /** Nothing executable changes, and no region or permission does. */
  ghost predicate KeepsCode(m: Mem, n: Mem) {
    SameLayout(m, n) && forall a :: ExecutableAt(m, a) ==> At(n, a) == At(m, a)
  }

  /** Then no block changes. */
  lemma TranslateKept(dec: Decoder, m: Mem, n: Mem, ip: u64, k: nat, code: seq<Insn>)
    requires DecoderOk(dec) && KeepsCode(m, n) && k > 0 && Translate(dec, m, ip, k) == Ok(code) && |code| > 0
    ensures Translate(dec, n, ip, k) == Ok(code)
  {
    forall a | ip <= a < EndOf(code) ensures At(n, a) == At(m, a) {
      BlockExecutable(dec, m, ip, k, code, a);
    }
    TranslateAgrees(dec, m, n, ip, k, code);
  }
}
