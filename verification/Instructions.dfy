/** A part of the instruction set, as the decoder presents it. */
module Instructions {
  import opened Words
  import opened Registers
  import S = StringOps

  type OperandSize = n: int | n == 1 || n == 2 || n == 4 || n == 8 witness 1

  type Gpr = r: Reg | RegOk(r) witness Reg(0, Full)

  datatype Segment = NoSegment | Fs | Gs

  datatype Scale = By1 | By2 | By4 | By8

  /** segment + displacement + base + index * scale; absolute when it has neither base nor index. */
  datatype Address = Address(segment: Segment, disp: u64, base: Option<Gpr>, index: Option<Gpr>, scale: Scale)

  datatype Operand =
    | RegOp(reg: Gpr)
    | ImmOp(value: u64)
    | MemOp(at: Address, size: OperandSize)

  datatype Arith = Add | Sub | Adc | Sbb

  /** String instructions with their repeat prefix. */
  datatype StringOp = Stos(rep: bool) | Movs(rep: bool) | Scas(repeat: S.Repeat) | Cmps(repeat: S.Repeat)

  datatype Op =
    | Mov(dst: Operand, src: Operand)
    | Lea(dst: Operand, at: Address)
    | Binary(arith: Arith, dst: Operand, src: Operand)
    | Cmp(left: Operand, right: Operand)
    | Cmov(cond: Cond, dst: Operand, src: Operand)
    | Push(src: Operand)
    | Pop(dst: Operand)
    | Leave
    | Nop
    | Mul(signed: bool, src: Operand)
    | Div(signed: bool, src: Operand)
    | Str(str: StringOp, element: S.ElementSize, segment: Segment)
    | Jmp(target: Operand)
    | Jcc(cond: Cond, target: Operand)
    | Call(target: Operand)
    | Ret(release: u64)
    | Syscall
    | Unsupported

  datatype Kind = Compute | Branch | CallKind | Return | SyscallKind

  /** instruction_kind: whatever is not a jump, call, return or syscall computes and falls through. */
  function KindOf(op: Op): Kind {
    match op
    case Syscall => SyscallKind
    case Jmp(_) => Branch
    case Jcc(_, _) => Branch
    case Call(_) => CallKind
    case Ret(_) => Return
    case _ => Compute
  }
}
