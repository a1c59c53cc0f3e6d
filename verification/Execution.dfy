/** execute: what each instruction does to registers and memory, and which bytes it stores. */
module Execution {
  import opened Words
  import opened Regions
  import opened FlatMemory
  import opened Registers
  import opened Instructions
  import opened Machine
  import opened StringStores
  import A = Arithmetic
  import S = StringOps
  import U = StringUnit

  // ------------------------------------------------------------ operands

  function SegmentBase(r: RegisterFile, s: Segment): u64 {
    match s
    case NoSegment => 0
    case Fs => r.fsBase
    case Gs => r.gsBase
  }

  function Twice(v: u64): u64 { Plus(v, v) }

  /** wrapping_mul by 1, 2, 4 or 8. */
  function Scaled(v: u64, s: Scale): u64 {
    match s
    case By1 => v
    case By2 => Twice(v)
    case By4 => Twice(Twice(v))
    case By8 => Twice(Twice(Twice(v)))
  }

  function EffectiveAddress(r: RegisterFile, a: Address): u64 {
    var start := Plus(SegmentBase(r, a.segment), a.disp);
    var based := match a.base { case None => start case Some(b) => Plus(start, ReadReg(r, b)) };
    match a.index
    case None => based
    case Some(x) => Plus(based, Scaled(ReadReg(r, x), a.scale))
  }

  function ReadOperand(m: Mem, r: RegisterFile, o: Operand): Result<u64, CpuError> {
    match o
    case RegOp(reg) => Ok(ReadReg(r, reg))
    case ImmOp(v) => Ok(v)
    case MemOp(a, size) =>
      match ReadBytes(m, EffectiveAddress(r, a), size)
      case Err(e) => Err(MemoryFault(e))
      case Ok(bytes) => ReadBytesFlat(m, EffectiveAddress(r, a), size); Ok(WordOf(bytes))
  }

  /** destination_width: immediates are no destinations. */
  function DestinationWidth(ip: u64, o: Operand): Result<Width, CpuError> {
    match o
    case RegOp(reg) => Ok(PartWidth(reg.part))
    case MemOp(_, size) => Ok(8 * size)
    case ImmOp(_) => Err(UnsupportedOperand(ip))
  }

  /** One store of bytes. */
  function StoreBytes(m: Mem, r: RegisterFile, addr: u64, bytes: seq<byte>, operand: bool): Effect {
    match WriteBytes(m, addr, bytes)
    case Err(e) => Effect(m, r, [], Err(MemoryFault(e)))
    case Ok(n) =>
      LoadIsFlat(m, addr, bytes);
      Effect(n, r, [StoreAt(m, addr, |bytes|, operand)], Ok(Continue))
  }

  function WriteOperand(ip: u64, m: Mem, r: RegisterFile, o: Operand, v: u64, w: Width): Effect {
    match o
    case RegOp(reg) => Done(m, WriteReg(r, reg, Masked(v, w)))
    case MemOp(a, size) => StoreBytes(m, r, EffectiveAddress(r, a), ToLittleEndian(v, size), true)
    case ImmOp(_) => Failed(m, r, UnsupportedOperand(ip))
  }

  function Failed(m: Mem, r: RegisterFile, e: CpuError): Effect { Effect(m, r, [], Err(e)) }

  function Done(m: Mem, r: RegisterFile): Effect { Effect(m, r, [], Ok(Continue)) }

  /** push_u64: rsp is lowered before the store, which bypasses write_operand. */
  function PushWord(m: Mem, r: RegisterFile, v: u64): Effect {
    var sp := Minus(r.gpr[RSP], 8);
    StoreBytes(m, r.Set(RSP, sp), sp, ToLittleEndian(v, 8), false)
  }

  datatype Popped = Popped(value: u64, regs: RegisterFile)

  function PopWord(m: Mem, r: RegisterFile): Result<Popped, CpuError> {
    match ReadBytes(m, r.gpr[RSP], 8)
    case Err(e) => Err(MemoryFault(e))
    case Ok(bytes) =>
      ReadBytesFlat(m, r.gpr[RSP], 8);
      Ok(Popped(WordOf(bytes), r.Set(RSP, Plus(r.gpr[RSP], 8))))
  }

  // ------------------------------------------------------------ instructions

  function ArithResult(op: Arith, f: Flags, left: u64, right: u64): u64 {
    match op
    case Add => Plus(left, right)
    case Sub => Minus(left, right)
    case Adc => AdcResult(f, left, right)
    case Sbb => SbbResult(f, left, right)
  }

  function ArithFlags(op: Arith, f: Flags, left: u64, right: u64, w: Width): Flags {
    var result := ArithResult(op, f, left, right);
    match op
    case Add => AddFlags(f, left, right, result, w)
    case Sub => SubFlags(f, left, right, result, w)
    case Adc => AdcFlags(f, left, right, w)
    case Sbb => SbbFlags(f, left, right, w)
  }

  function Move(ip: u64, m: Mem, r: RegisterFile, dst: Operand, src: Operand): Effect {
    match DestinationWidth(ip, dst)
    case Err(e) => Failed(m, r, e)
    case Ok(w) =>
      match ReadOperand(m, r, src)
      case Err(e) => Failed(m, r, e)
      case Ok(v) => WriteOperand(ip, m, r, dst, v, w)
  }

  /** execute_binary: the flags are set before the destination is written. */
  function ExecuteBinary(ip: u64, m: Mem, r: RegisterFile, op: Arith, dst: Operand, src: Operand): Effect {
    match DestinationWidth(ip, dst)
    case Err(e) => Failed(m, r, e)
    case Ok(w) =>
      match ReadOperand(m, r, dst)
      case Err(e) => Failed(m, r, e)
      case Ok(left) =>
        match ReadOperand(m, r, src)
        case Err(e) => Failed(m, r, e)
        case Ok(right) =>
          var flagged := r.(flags := ArithFlags(op, r.flags, left, right, w));
          WriteOperand(ip, m, flagged, dst, ArithResult(op, r.flags, left, right), w)
  }

  function ExecuteCmp(ip: u64, m: Mem, r: RegisterFile, left: Operand, right: Operand): Effect {
    match DestinationWidth(ip, left)
    case Err(e) => Failed(m, r, e)
    case Ok(w) =>
      match ReadOperand(m, r, left)
      case Err(e) => Failed(m, r, e)
      case Ok(l) =>
        match ReadOperand(m, r, right)
        case Err(e) => Failed(m, r, e)
        case Ok(x) => Done(m, r.(flags := CmpFlags(r.flags, l, x, w)))
  }

  function ExecutePush(m: Mem, r: RegisterFile, src: Operand): Effect {
    match ReadOperand(m, r, src)
    case Err(e) => Failed(m, r, e)
    case Ok(v) => PushWord(m, r, v)
  }

  /** The address of a memory destination is computed after rsp has moved. */
  function ExecutePop(ip: u64, m: Mem, r: RegisterFile, dst: Operand): Effect {
    match PopWord(m, r)
    case Err(e) => Failed(m, r, e)
    case Ok(p) =>
      match DestinationWidth(ip, dst)
      case Err(e) => Failed(m, p.regs, e)
      case Ok(w) => WriteOperand(ip, m, p.regs, dst, p.value, w)
  }

  const RBP: nat := 5

  function ExecuteLeave(m: Mem, r: RegisterFile): Effect {
    var moved := r.Set(RSP, r.gpr[RBP]);
    match PopWord(m, moved)
    case Err(e) => Failed(m, moved, e)
    case Ok(p) => Done(m, p.regs.Set(RBP, p.value))
  }

  /** mul and one-operand imul; source_width is the width of a register or memory operand. */
  function ExecuteMul(ip: u64, m: Mem, r: RegisterFile, signed: bool, src: Operand): Effect {
    match DestinationWidth(ip, src)
    case Err(e) => Failed(m, r, e)
    case Ok(w) =>
      match ReadOperand(m, r, src)
      case Err(e) => Failed(m, r, e)
      case Ok(v) => Done(m, A.ExecuteMul(r, v, w, signed))
  }

  function ExecuteDiv(ip: u64, m: Mem, r: RegisterFile, signed: bool, src: Operand): Effect {
    match DestinationWidth(ip, src)
    case Err(e) => Failed(m, r, e)
    case Ok(w) =>
      match ReadOperand(m, r, src)
      case Err(e) => Failed(m, r, e)
      case Ok(v) =>
        match A.ExecuteDiv(r, v, w, signed)
        case Divided(s) => Done(m, s)
        case DivideError => Failed(m, r, DivideError(ip))
        case HostOverflow => Failed(m, r, HostOverflow(ip))
  }

  /** The end of a string instruction. */
  function Ended(m: Mem, d: U.Done, stores: seq<Store>): Effect
    requires Valid(d.mem)
  {
    match d.r
    case Ok(_) => Effect(d.mem, d.regs, stores, Ok(Continue))
    case Err(e) => Effect(d.mem, d.regs, stores, Err(MemoryFault(e)))
  }

  function ExecuteStos(m: Mem, r: RegisterFile, size: S.ElementSize, rep: bool, base: u64): Effect {
    var dst, bytes := Plus(base, r.gpr[RDI]), ToLittleEndian(r.gpr[RAX], size);
    var step, count := S.StepOf(size, r.flags.df), U.CountOf(r, rep);
    FillAccounted(m, dst, bytes, step, count);
    Ended(m, U.StosSpec(m, r, size, rep, base), FillStores(m, dst, bytes, step, count))
  }

  function ExecuteMovs(m: Mem, r: RegisterFile, size: S.ElementSize, rep: bool, base: u64): Effect {
    var src, dst := Plus(base, r.gpr[RSI]), r.gpr[RDI];
    var step, count := S.StepOf(size, r.flags.df), U.CountOf(r, rep);
    CopyAccounted(m, src, dst, size, step, count);
    Ended(m, U.MovsSpec(m, r, size, rep, base), CopyStores(m, src, dst, size, step, count))
  }

  function ExecuteString(m: Mem, r: RegisterFile, op: StringOp, size: S.ElementSize, base: u64): Effect {
    match op
    case Stos(rep) => ExecuteStos(m, r, size, rep, base)
    case Movs(rep) => ExecuteMovs(m, r, size, rep, base)
    case Scas(rep) => Ended(m, U.ScasSpec(m, r, size, rep, base), [])
    case Cmps(rep) => Ended(m, U.CmpsSpec(m, r, size, rep, base), [])
  }

  function ExecuteUnsupported(i: Insn, m: Mem, r: RegisterFile): Effect {
    match FetchBytes(m, i.ip, i.len)
    case Err(e) => Failed(m, r, MemoryFault(e))
    case Ok(raw) => Failed(m, r, UnsupportedInstruction(i.ip, raw, r))
  }

  /** The instructions that leave rip to the end of execute. */
  function ExecuteCompute(i: Insn, m: Mem, r: RegisterFile): Effect
    requires i.Kind() == Compute
  {
    match i.op
    case Mov(dst, src) => Move(i.ip, m, r, dst, src)
    case Lea(dst, a) => Move(i.ip, m, r, dst, ImmOp(EffectiveAddress(r, a)))
    case Binary(op, dst, src) => ExecuteBinary(i.ip, m, r, op, dst, src)
    case Cmp(left, right) => ExecuteCmp(i.ip, m, r, left, right)
    case Cmov(c, dst, src) => if Passed(r.flags, c) then Move(i.ip, m, r, dst, src) else Done(m, r)
    case Push(src) => ExecutePush(m, r, src)
    case Pop(dst) => ExecutePop(i.ip, m, r, dst)
    case Leave => ExecuteLeave(m, r)
    case Nop => Done(m, r)
    case Mul(signed, src) => ExecuteMul(i.ip, m, r, signed, src)
    case Div(signed, src) => ExecuteDiv(i.ip, m, r, signed, src)
    case Str(op, size, segment) => ExecuteString(m, r, op, size, SegmentBase(r, segment))
    case Unsupported => ExecuteUnsupported(i, m, r)
  }

  function JumpTo(m: Mem, r: RegisterFile, target: Operand): Effect {
    match ReadOperand(m, r, target)
    case Err(e) => Failed(m, r, e)
    case Ok(v) => Done(m, r.(rip := v))
  }

  function ExecuteCall(m: Mem, r: RegisterFile, target: Operand, next: u64): Effect {
    match ReadOperand(m, r, target)
    case Err(e) => Failed(m, r, e)
    case Ok(v) =>
      var e := PushWord(m, r, next);
      if e.result.Err? then e else e.(regs := e.regs.(rip := v))
  }

  function ExecuteRet(m: Mem, r: RegisterFile, release: u64): Effect {
    match PopWord(m, r)
    case Err(e) => Failed(m, r, e)
    case Ok(p) => Done(m, p.regs.Set(RSP, Plus(p.regs.gpr[RSP], release)).(rip := p.value))
  }

  /** rcx takes the return address, r11 the flags; the trap carries the number and six arguments. */
  function ExecuteSyscall(m: Mem, r: RegisterFile, next: u64): Effect {
    var s := r.Set(RCX, next).Set(R11, r.flags.Word()).(rip := next);
    var args := [s.gpr[RDI], s.gpr[RSI], s.gpr[RDX], s.gpr[R10], s.gpr[R8], s.gpr[R9]];
    Effect(m, s, [], Ok(Trapped(Trap(s.gpr[RAX], args))))
  }

  function ExecuteControl(i: Insn, m: Mem, r: RegisterFile): Effect
    requires i.Kind() != Compute
  {
    match i.op
    case Jmp(target) => JumpTo(m, r, target)
    case Jcc(c, target) => if Passed(r.flags, c) then JumpTo(m, r, target) else Done(m, r.(rip := i.Next()))
    case Call(target) => ExecuteCall(m, r, target, i.Next())
    case Ret(release) => ExecuteRet(m, r, release)
    case Syscall => ExecuteSyscall(m, r, i.Next())
  }

  function Execute(i: Insn, m: Mem, r: RegisterFile): Effect {
    if i.Kind() == Compute then
      var e := ExecuteCompute(i, m, r);
      if e.result.Err? then e else e.(regs := e.regs.(rip := i.Next()))
    else ExecuteControl(i, m, r)
  }

  // ------------------------------------------------------------ what the block proofs need

  /** Everything but the place of rip. */
  ghost predicate Contained(m: Mem, e: Effect) {
    Accounted(m, e.mem, e.stores) && (e.result.Ok? ==> !e.result.value.Halted?)
  }

  lemma StoreContained(m: Mem, r: RegisterFile, addr: u64, bytes: seq<byte>, operand: bool)
    requires |bytes| > 0
    ensures Contained(m, StoreBytes(m, r, addr, bytes, operand))
    ensures StoreBytes(m, r, addr, bytes, operand).result.Ok? ==> StoreBytes(m, r, addr, bytes, operand).result.value == Continue
  {
    if WriteBytes(m, addr, bytes).Ok? {
      LoadIsFlat(m, addr, bytes);
      AccountedOne(m, WriteBytes(m, addr, bytes).value, addr, bytes, operand);
    } else {
      AccountedNothing(m);
    }
  }

  lemma WriteContained(ip: u64, m: Mem, r: RegisterFile, o: Operand, v: u64, w: Width)
    ensures Contained(m, WriteOperand(ip, m, r, o, v, w))
    ensures WriteOperand(ip, m, r, o, v, w).result.Ok? ==> WriteOperand(ip, m, r, o, v, w).result.value == Continue
  {
    if o.MemOp? {
      StoreContained(m, r, EffectiveAddress(r, o.at), ToLittleEndian(v, o.size), true);
    }
  }

  /** A result that succeeds only by continuing. */
  predicate OnlyContinues(e: Effect) { e.result.Ok? ==> e.result.value == Continue }

  lemma MoveContained(ip: u64, m: Mem, r: RegisterFile, dst: Operand, src: Operand)
    ensures Contained(m, Move(ip, m, r, dst, src)) && OnlyContinues(Move(ip, m, r, dst, src))
  {
    if DestinationWidth(ip, dst).Ok? && ReadOperand(m, r, src).Ok? {
      WriteContained(ip, m, r, dst, ReadOperand(m, r, src).value, DestinationWidth(ip, dst).value);
    }
  }

  lemma BinaryContained(ip: u64, m: Mem, r: RegisterFile, op: Arith, dst: Operand, src: Operand)
    ensures Contained(m, ExecuteBinary(ip, m, r, op, dst, src)) && OnlyContinues(ExecuteBinary(ip, m, r, op, dst, src))
  {
    if DestinationWidth(ip, dst).Ok? && ReadOperand(m, r, dst).Ok? && ReadOperand(m, r, src).Ok? {
      var left, right, w := ReadOperand(m, r, dst).value, ReadOperand(m, r, src).value, DestinationWidth(ip, dst).value;
      var flagged := r.(flags := ArithFlags(op, r.flags, left, right, w));
      WriteContained(ip, m, flagged, dst, ArithResult(op, r.flags, left, right), w);
    }
  }

  lemma PushContained(m: Mem, r: RegisterFile, v: u64)
    ensures Contained(m, PushWord(m, r, v)) && OnlyContinues(PushWord(m, r, v))
  {
    var sp := Minus(r.gpr[RSP], 8);
    StoreContained(m, r.Set(RSP, sp), sp, ToLittleEndian(v, 8), false);
  }

  lemma PopContained(ip: u64, m: Mem, r: RegisterFile, dst: Operand)
    ensures Contained(m, ExecutePop(ip, m, r, dst)) && OnlyContinues(ExecutePop(ip, m, r, dst))
  {
    if PopWord(m, r).Ok? && DestinationWidth(ip, dst).Ok? {
      var p := PopWord(m, r).value;
      WriteContained(ip, m, p.regs, dst, p.value, DestinationWidth(ip, dst).value);
    }
  }

  lemma SourceContained(m: Mem, r: RegisterFile, src: Operand)
    ensures Contained(m, ExecutePush(m, r, src)) && OnlyContinues(ExecutePush(m, r, src))
  {
    if ReadOperand(m, r, src).Ok? { PushContained(m, r, ReadOperand(m, r, src).value); }
  }

  /** An instruction that stores nothing. */
  lemma StoreFree(m: Mem, e: Effect)
    requires e.mem == m && e.stores == [] && (e.result.Ok? ==> !e.result.value.Halted?)
    ensures Contained(m, e)
  {
  }

  lemma CmpContained(ip: u64, m: Mem, r: RegisterFile, left: Operand, right: Operand)
    ensures Contained(m, ExecuteCmp(ip, m, r, left, right)) && OnlyContinues(ExecuteCmp(ip, m, r, left, right))
  {
    StoreFree(m, ExecuteCmp(ip, m, r, left, right));
  }

  lemma LeaveContained(m: Mem, r: RegisterFile)
    ensures Contained(m, ExecuteLeave(m, r)) && OnlyContinues(ExecuteLeave(m, r))
  {
    StoreFree(m, ExecuteLeave(m, r));
  }

  lemma UnsupportedContained(i: Insn, m: Mem, r: RegisterFile)
    ensures Contained(m, ExecuteUnsupported(i, m, r)) && OnlyContinues(ExecuteUnsupported(i, m, r))
  {
    StoreFree(m, ExecuteUnsupported(i, m, r));
  }

  lemma StosContained(m: Mem, r: RegisterFile, size: S.ElementSize, rep: bool, base: u64)
    ensures Contained(m, ExecuteStos(m, r, size, rep, base)) && OnlyContinues(ExecuteStos(m, r, size, rep, base))
  {
    FillAccounted(m, Plus(base, r.gpr[RDI]), ToLittleEndian(r.gpr[RAX], size), S.StepOf(size, r.flags.df), U.CountOf(r, rep));
  }

  lemma MovsContained(m: Mem, r: RegisterFile, size: S.ElementSize, rep: bool, base: u64)
    ensures Contained(m, ExecuteMovs(m, r, size, rep, base)) && OnlyContinues(ExecuteMovs(m, r, size, rep, base))
  {
    CopyAccounted(m, Plus(base, r.gpr[RSI]), r.gpr[RDI], size, S.StepOf(size, r.flags.df), U.CountOf(r, rep));
  }

  lemma StringContained(m: Mem, r: RegisterFile, op: StringOp, size: S.ElementSize, base: u64)
    ensures Contained(m, ExecuteString(m, r, op, size, base)) && OnlyContinues(ExecuteString(m, r, op, size, base))
  {
    match op
    case Stos(rep) => StosContained(m, r, size, rep, base);
    case Movs(rep) => MovsContained(m, r, size, rep, base);
    case Scas(rep) => StoreFree(m, Ended(m, U.ScasSpec(m, r, size, rep, base), []));
    case Cmps(rep) => StoreFree(m, Ended(m, U.CmpsSpec(m, r, size, rep, base), []));
  }

  lemma MulContained(ip: u64, m: Mem, r: RegisterFile, signed: bool, src: Operand)
    ensures Contained(m, ExecuteMul(ip, m, r, signed, src)) && OnlyContinues(ExecuteMul(ip, m, r, signed, src))
  {
    StoreFree(m, ExecuteMul(ip, m, r, signed, src));
  }

  lemma DivContained(ip: u64, m: Mem, r: RegisterFile, signed: bool, src: Operand)
    ensures Contained(m, ExecuteDiv(ip, m, r, signed, src)) && OnlyContinues(ExecuteDiv(ip, m, r, signed, src))
  {
    StoreFree(m, ExecuteDiv(ip, m, r, signed, src));
  }

  predicate StoresNothing(op: Op) { op.Cmp? || op.Leave? || op.Nop? || op.Mul? || op.Div? || op.Unsupported? }

  lemma PureContained(i: Insn, m: Mem, r: RegisterFile)
    requires i.Kind() == Compute && StoresNothing(i.op)
    ensures Contained(m, ExecuteCompute(i, m, r)) && OnlyContinues(ExecuteCompute(i, m, r))
  {
    match i.op
    case Cmp(left, right) => CmpContained(i.ip, m, r, left, right);
    case Leave => LeaveContained(m, r);
    case Nop => StoreFree(m, Done(m, r));
    case Mul(signed, src) => MulContained(i.ip, m, r, signed, src);
    case Div(signed, src) => DivContained(i.ip, m, r, signed, src);
    case Unsupported => UnsupportedContained(i, m, r);
  }

  lemma MovesContained(i: Insn, m: Mem, r: RegisterFile)
    requires i.op.Mov? || i.op.Lea? || i.op.Cmov?
    ensures Contained(m, ExecuteCompute(i, m, r)) && OnlyContinues(ExecuteCompute(i, m, r))
  {
    match i.op
    case Mov(dst, src) => MoveContained(i.ip, m, r, dst, src);
    case Lea(dst, a) => MoveContained(i.ip, m, r, dst, ImmOp(EffectiveAddress(r, a)));
    case Cmov(_, dst, src) => MoveContained(i.ip, m, r, dst, src); StoreFree(m, Done(m, r));
  }

  lemma ComputeContained(i: Insn, m: Mem, r: RegisterFile)
    requires i.Kind() == Compute
    ensures Contained(m, ExecuteCompute(i, m, r)) && OnlyContinues(ExecuteCompute(i, m, r))
  {
    if StoresNothing(i.op) {
      PureContained(i, m, r);
    } else if i.op.Mov? || i.op.Lea? || i.op.Cmov? {
      MovesContained(i, m, r);
    } else {
      match i.op
      case Binary(op, dst, src) => BinaryContained(i.ip, m, r, op, dst, src);
      case Push(src) => SourceContained(m, r, src);
      case Pop(dst) => PopContained(i.ip, m, r, dst);
      case Str(op, size, segment) => StringContained(m, r, op, size, SegmentBase(r, segment));
    }
  }

  lemma JumpContained(m: Mem, r: RegisterFile, target: Operand)
    ensures Contained(m, JumpTo(m, r, target))
  {
    StoreFree(m, JumpTo(m, r, target));
  }

  lemma CallContained(m: Mem, r: RegisterFile, target: Operand, next: u64)
    ensures Contained(m, ExecuteCall(m, r, target, next))
  {
    PushContained(m, r, next);
    if ReadOperand(m, r, target).Err? { StoreFree(m, ExecuteCall(m, r, target, next)); }
  }

  lemma RetContained(m: Mem, r: RegisterFile, release: u64)
    ensures Contained(m, ExecuteRet(m, r, release))
  {
    StoreFree(m, ExecuteRet(m, r, release));
  }

  lemma ControlContained(i: Insn, m: Mem, r: RegisterFile)
    requires i.Kind() != Compute
    ensures Contained(m, ExecuteControl(i, m, r))
  {
    match i.op
    case Jmp(target) => JumpContained(m, r, target);
    case Jcc(_, target) => JumpContained(m, r, target);
    case Call(target) => CallContained(m, r, target, i.Next());
    case Ret(release) => RetContained(m, r, release);
    case Syscall => StoreFree(m, ExecuteSyscall(m, r, i.Next()));
  }

  /** Every store of an instruction lies in one region, and exactly the Compute kinds fall through. */
  lemma ExecuteIsOk()
    ensures ExecOk(Execute)
  {
    forall i, m, r ensures EffectOk(i, m, Execute(i, m, r)) {
      if i.Kind() == Compute { ComputeContained(i, m, r); } else { ControlContained(i, m, r); }
    }
  }

  // ------------------------------------------------------------ the stack

  /** A pushed word is the one popped, and rsp is back where it was. */
  lemma PushThenPop(m: Mem, r: RegisterFile, v: u64)
    requires PushWord(m, r, v).result.Ok? && PopWord(PushWord(m, r, v).mem, PushWord(m, r, v).regs).Ok?
    ensures PopWord(PushWord(m, r, v).mem, PushWord(m, r, v).regs) == Ok(Popped(v, r))
  {
    var sp, bytes := Minus(r.gpr[RSP], 8), ToLittleEndian(v, 8);
    var n := PushWord(m, r, v).mem;
    WriteThenRead(m, sp, bytes);
    assert ReadBytes(n, sp, 8) == Ok(bytes);
    WordRoundTrip(v);
    StackBack(r);
  }

  lemma StackBack(r: RegisterFile)
    ensures Plus(Minus(r.gpr[RSP], 8), 8) == r.gpr[RSP]
    ensures r.Set(RSP, Minus(r.gpr[RSP], 8)).Set(RSP, r.gpr[RSP]) == r
  {
    assert r.gpr[RSP := Minus(r.gpr[RSP], 8)][RSP := r.gpr[RSP]] == r.gpr;
  }

  lemma WriteThenRead(m: Mem, addr: u64, bytes: seq<byte>)
    requires WriteBytes(m, addr, bytes).Ok?
    ensures var n := WriteBytes(m, addr, bytes).value;
            Valid(n) && (ReadBytes(n, addr, |bytes|).Ok? ==> ReadBytes(n, addr, |bytes|).value == bytes)
  {
    var n := WriteBytes(m, addr, bytes).value;
    LoadIsFlat(m, addr, bytes);
    if ReadBytes(n, addr, |bytes|).Ok? {
      ReadIsFlat(n, addr, |bytes|);
      HoldsStored(Flat(m), addr, bytes);
      HoldsUnique(Flat(n), addr, ReadBytes(n, addr, |bytes|).value, bytes);
    }
  }

  /** A return without release undoes a call: it goes on behind the call with the old rsp. */
  lemma CallThenRet(i: Insn, j: Insn, m: Mem, r: RegisterFile, e: Effect, f: Effect)
    requires i.op.Call? && j.op == Ret(0)
    requires Execute(i, m, r) == e && e.result.Ok? && Execute(j, e.mem, e.regs) == f && f.result.Ok?
    ensures f.regs == r.(rip := i.Next()) && f.mem == e.mem
  {
    var pushed := PushWord(m, r, i.Next());
    CallPushes(i, m, r, pushed);
    PushThenPop(m, r, i.Next());
    RetPops(j, e.mem, e.regs, i.Next(), r.(rip := e.regs.rip));
    assert r.Set(RSP, Plus(r.gpr[RSP], 0)).gpr == r.gpr;
  }

  /** A successful call pushes the address behind it and jumps. */
  lemma CallPushes(i: Insn, m: Mem, r: RegisterFile, pushed: Effect)
    requires i.op.Call? && PushWord(m, r, i.Next()) == pushed && Execute(i, m, r).result.Ok?
    ensures pushed.result.Ok? && Execute(i, m, r).mem == pushed.mem
    ensures Execute(i, m, r).regs == pushed.regs.(rip := Execute(i, m, r).regs.rip)
  {
  }

  lemma RetPops(j: Insn, m: Mem, r: RegisterFile, v: u64, s: RegisterFile)
    requires j.op == Ret(0) && PopWord(m, r) == Ok(Popped(v, s))
    ensures Execute(j, m, r) == Done(m, s.Set(RSP, Plus(s.gpr[RSP], 0)).(rip := v))
  {
  }
}
