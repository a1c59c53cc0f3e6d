/** execute_stos, execute_movs, execute_scas and execute_cmps: the loops over registers and memory. */
module StringUnit {
  import opened Words
  import opened Regions
  import opened FlatMemory
  import opened Registers
  import opened StringOps

  /** Taking the segment base off a moved pointer leaves the moved offset. */
  lemma {:induction false} Rebased(base: u64, offset: u64, step: int, count: nat)
    requires -8 <= step <= 8
    ensures Minus(Moved(Plus(base, offset), step, count), base) == Moved(offset, step, count)
    decreases count
  {
    if count > 0 {
      assert Advance(Plus(base, offset), step) == Plus(base, Advance(offset, step));
      Rebased(base, Advance(offset, step), step, count - 1);
    }
  }

  function CountOf(regs: RegisterFile, repeated: bool): nat {
    if repeated then regs.gpr[RCX] else 1
  }

  /** Memory and registers after an instruction, and whether it succeeded. */
  datatype Done = Done(mem: Memory, regs: RegisterFile, r: Result<(), MemError>)

  /** A register file with the pointers, the count of a repeated instruction and the flags replaced. */
  function Put(regs: RegisterFile, rsi: u64, rdi: u64, repeated: bool, rcx: u64, flags: Flags): RegisterFile {
    var g := regs.gpr[RSI := rsi][RDI := rdi];
    regs.(gpr := if repeated then g[RCX := rcx] else g, flags := flags)
  }

  /** The register file after n elements: the pointers slid by n elements, rcx holding what is left. */
  function After(regs: RegisterFile, source: bool, step: int, n: nat, repeated: bool, rcx: u64, flags: Flags): RegisterFile
    requires -8 <= step <= 8
  {
    Put(regs, if source then Moved(regs.gpr[RSI], step, n) else regs.gpr[RSI],
        Moved(regs.gpr[RDI], step, n), repeated, rcx, flags)
  }

  // ------------------------------------------------------------ what each instruction computes

  function StosSpec(mem: Memory, regs: RegisterFile, size: ElementSize, rep: bool, base: u64): Done
    requires Valid(mem)
  {
    var step, count := StepOf(size, regs.flags.df), CountOf(regs, rep);
    var out := FillLoop(mem, Plus(base, regs.gpr[RDI]), ToLittleEndian(regs.gpr[RAX], size), step, count);
    Finish(out.mem, regs, regs.gpr[RSI], Minus(out.dst, base), rep, 0, regs.flags, out.fault)
  }

  function MovsSpec(mem: Memory, regs: RegisterFile, size: ElementSize, rep: bool, base: u64): Done
    requires Valid(mem)
  {
    var step, count := StepOf(size, regs.flags.df), CountOf(regs, rep);
    var out := CopyLoop(mem, Plus(base, regs.gpr[RSI]), regs.gpr[RDI], size, step, count);
    Finish(out.mem, regs, Minus(out.src, base), out.dst, rep, 0, regs.flags, out.fault)
  }

  /** What scas compares: the accumulator, against the elements at rdi. */
  function ScasLeft(regs: RegisterFile, size: ElementSize): Comparand { Accumulator(Masked(regs.gpr[RAX], WidthOf(size))) }

  /** What cmps compares: the elements at rsi, against those at rdi. */
  function CmpsLeft(regs: RegisterFile, base: u64): Comparand { Source(Plus(base, regs.gpr[RSI])) }

  /** The scan of scas. */
  function ScasScan(mem: Memory, regs: RegisterFile, size: ElementSize, rep: Repeat, base: u64): (r: MemoryScan)
    requires Valid(mem)
    ensures r.scan.rounds <= CountOf(regs, !rep.Once?)
  {
    ScanMemory(mem, size, StepOf(size, regs.flags.df), ScasLeft(regs, size), Plus(base, regs.gpr[RDI]),
               CountOf(regs, !rep.Once?), Comparer(WidthOf(size)), rep, regs.flags)
  }

  /** The scan of cmps. */
  function CmpsScan(mem: Memory, regs: RegisterFile, size: ElementSize, rep: Repeat, base: u64): (r: MemoryScan)
    requires Valid(mem)
    ensures r.scan.rounds <= CountOf(regs, !rep.Once?) && r.left.Source?
  {
    ScanMemory(mem, size, StepOf(size, regs.flags.df), CmpsLeft(regs, base), regs.gpr[RDI],
               CountOf(regs, !rep.Once?), Comparer(WidthOf(size)), rep, regs.flags)
  }

  function ScasSpec(mem: Memory, regs: RegisterFile, size: ElementSize, rep: Repeat, base: u64): Done
    requires Valid(mem)
  {
    var m := ScasScan(mem, regs, size, rep, base);
    Finish(mem, regs, regs.gpr[RSI], Minus(m.dst, base), !rep.Once?,
           CountOf(regs, !rep.Once?) - m.scan.rounds, m.scan.flags, m.scan.fault)
  }

  function CmpsSpec(mem: Memory, regs: RegisterFile, size: ElementSize, rep: Repeat, base: u64): Done
    requires Valid(mem)
  {
    var m := CmpsScan(mem, regs, size, rep, base);
    Finish(mem, regs, Minus(m.left.addr, base), m.dst, !rep.Once?,
           CountOf(regs, !rep.Once?) - m.scan.rounds, m.scan.flags, m.scan.fault)
  }

  /** The end of an instruction: registers move on only when no element faulted. */
  function Finish(mem: Memory, regs: RegisterFile, rsi: u64, rdi: u64, repeated: bool, rcx: u64,
                  flags: Flags, fault: Option<MemError>): Done
  {
    match fault
    case None => Done(mem, Put(regs, rsi, rdi, repeated, rcx, flags), Ok(()))
    case Some(e) => Done(mem, regs.(flags := flags), Err(e))
  }

  // ------------------------------------------------------------ what that means

  lemma SourceAfter(regs: RegisterFile, base: u64, step: int, n: nat, repeated: bool, rcx: u64, flags: Flags)
    requires -8 <= step <= 8
    ensures Put(regs, Minus(Moved(Plus(base, regs.gpr[RSI]), step, n), base), Moved(regs.gpr[RDI], step, n), repeated, rcx, flags)
            == After(regs, true, step, n, repeated, rcx, flags)
  {
    Rebased(base, regs.gpr[RSI], step, n);
  }

  lemma DestinationAfter(regs: RegisterFile, base: u64, step: int, n: nat, repeated: bool, rcx: u64, flags: Flags)
    requires -8 <= step <= 8
    ensures Put(regs, regs.gpr[RSI], Minus(Moved(Plus(base, regs.gpr[RDI]), step, n), base), repeated, rcx, flags)
            == After(regs, false, step, n, repeated, rcx, flags)
  {
    Rebased(base, regs.gpr[RDI], step, n);
  }

  /** stos that succeeds: rdi moved by count elements, rcx cleared when repeated, nothing else. */
  lemma StosRegisters(mem: Memory, regs: RegisterFile, size: ElementSize, rep: bool, base: u64)
    requires Valid(mem) && StosSpec(mem, regs, size, rep, base).r.Ok?
    ensures StosSpec(mem, regs, size, rep, base).regs
            == After(regs, false, StepOf(size, regs.flags.df), CountOf(regs, rep), rep, 0, regs.flags)
  {
    var step, count := StepOf(size, regs.flags.df), CountOf(regs, rep);
    FillIsFlatFill(mem, Plus(base, regs.gpr[RDI]), ToLittleEndian(regs.gpr[RAX], size), step, count);
    DestinationAfter(regs, base, step, count, rep, 0, regs.flags);
  }

  /** movs that succeeds: both pointers moved by count elements, rcx cleared when repeated, nothing else. */
  lemma MovsRegisters(mem: Memory, regs: RegisterFile, size: ElementSize, rep: bool, base: u64)
    requires Valid(mem) && MovsSpec(mem, regs, size, rep, base).r.Ok?
    ensures MovsSpec(mem, regs, size, rep, base).regs
            == After(regs, true, StepOf(size, regs.flags.df), CountOf(regs, rep), rep, 0, regs.flags)
  {
    var step, count := StepOf(size, regs.flags.df), CountOf(regs, rep);
    CopyAdvances(mem, Plus(base, regs.gpr[RSI]), regs.gpr[RDI], size, step, count);
    SourceAfter(regs, base, step, count, rep, 0, regs.flags);
  }

  /** scas that succeeds: rdi and rcx moved by exactly the rounds the scan made. */
  lemma ScasRegisters(mem: Memory, regs: RegisterFile, size: ElementSize, rep: Repeat, base: u64)
    requires Valid(mem) && ScasSpec(mem, regs, size, rep, base).r.Ok?
    ensures var out := ScasScan(mem, regs, size, rep, base).scan;
            ScasSpec(mem, regs, size, rep, base).regs
            == After(regs, false, StepOf(size, regs.flags.df), out.rounds, !rep.Once?, CountOf(regs, !rep.Once?) - out.rounds, out.flags)
  {
    var out := ScasScan(mem, regs, size, rep, base).scan;
    DestinationAfter(regs, base, StepOf(size, regs.flags.df), out.rounds, !rep.Once?, CountOf(regs, !rep.Once?) - out.rounds, out.flags);
  }

  lemma CmpsRegisters(mem: Memory, regs: RegisterFile, size: ElementSize, rep: Repeat, base: u64)
    requires Valid(mem) && CmpsSpec(mem, regs, size, rep, base).r.Ok?
    ensures var out := CmpsScan(mem, regs, size, rep, base).scan;
            CmpsSpec(mem, regs, size, rep, base).regs
            == After(regs, true, StepOf(size, regs.flags.df), out.rounds, !rep.Once?, CountOf(regs, !rep.Once?) - out.rounds, out.flags)
  {
    var out := CmpsScan(mem, regs, size, rep, base).scan;
    SourceAfter(regs, base, StepOf(size, regs.flags.df), out.rounds, !rep.Once?, CountOf(regs, !rep.Once?) - out.rounds, out.flags);
  }

  // ------------------------------------------------------------ the loops

  /** What is left of the copy loop: one application, which only CopyRound unfolds. */
  function Copying(mem: Memory, src: u64, dst: u64, size: ElementSize, step: int, left: nat): Copied
    requires Valid(mem) && -8 <= step <= 8
  {
    CopyLoop(mem, src, dst, size, step, left)
  }

  lemma CopyRound(mem: Memory, src: u64, dst: u64, size: ElementSize, step: int, left: nat)
    requires Valid(mem) && -8 <= step <= 8 && left > 0
    requires ReadBytes(mem, src, size).Ok? && WriteBytes(mem, dst, ReadBytes(mem, src, size).value).Ok?
    ensures var next := WriteBytes(mem, dst, ReadBytes(mem, src, size).value).value;
            && Valid(next)
            && Copying(next, Advance(src, step), Advance(dst, step), size, step, left - 1) == Copying(mem, src, dst, size, step, left)
  {
    LoadIsFlat(mem, dst, ReadBytes(mem, src, size).value);
  }

  /** What is left of the scan: one application, which only ScanRound unfolds. */
  function Scanning(pairs: seq<Result<Pair, MemError>>, compare: Compare, rep: Repeat, k: nat, flags: Flags): Scanned
    requires k <= |pairs|
  {
    ScanLoop(pairs, compare, rep, k, flags)
  }

  lemma ScanRound(pairs: seq<Result<Pair, MemError>>, compare: Compare, rep: Repeat, k: nat, flags: Flags, p: Pair)
    requires k < |pairs| && pairs[k] == Ok(p)
    ensures Scanning(pairs, compare, rep, k, flags)
            == if Stops(rep, compare(flags, p).zf) then Scanned(k + 1, compare(flags, p), None)
               else Scanning(pairs, compare, rep, k + 1, compare(flags, p))
  {
  }

  class Unit {
    var mem: Memory
    var regs: RegisterFile

    constructor (m: Memory, r: RegisterFile)
      ensures mem == m && regs == r
    {
      mem, regs := m, r;
    }

    /** The loop of stos. */
    method FillElements(start: u64, bytes: seq<byte>, step: int, count: nat) returns (address: u64, fault: Option<MemError>)
      requires Valid(mem) && -8 <= step <= 8
      modifies `mem
      ensures Valid(mem) && Copied(mem, 0, address, fault) == FillLoop(old(mem), start, bytes, step, count)
    {
      address := start;
      ghost var out := FillLoop(mem, start, bytes, step, count);
      var left := count;
      while left > 0
        invariant 0 <= left <= count && Valid(mem)
        invariant FillLoop(mem, address, bytes, step, left) == out
      {
        LoadIsFlat(mem, address, bytes);
        var w := WriteBytes(mem, address, bytes);
        if w.Err? { return address, Some(w.error); }
        mem := w.value;
        address := Advance(address, step);
        left := left - 1;
      }
      return address, None;
    }

    method Stos(size: ElementSize, rep: bool, base: u64) returns (r: Result<(), MemError>)
      requires Valid(mem)
      modifies this
      ensures Done(mem, regs, r) == StosSpec(old(mem), old(regs), size, rep, base) && Valid(mem)
    {
      var count, step := CountOf(regs, rep), StepOf(size, regs.flags.df);
      var bytes := ToLittleEndian(regs.gpr[RAX], size);
      var start := Plus(base, regs.gpr[RDI]);
      var address, fault := FillElements(start, bytes, step, count);
      var done := Finish(mem, regs, regs.gpr[RSI], Minus(address, base), rep, 0, regs.flags, fault);
      regs, r := done.regs, done.r;
    }

    /** The loop of movs. */
    method CopyElements(from: u64, to: u64, size: ElementSize, step: int, count: nat)
      returns (source: u64, destination: u64, fault: Option<MemError>)
      requires Valid(mem) && -8 <= step <= 8
      modifies `mem
      ensures Valid(mem) && Copied(mem, source, destination, fault) == CopyLoop(old(mem), from, to, size, step, count)
    {
      source, destination := from, to;
      ghost var out := Copying(mem, from, to, size, step, count);
      var left := count;
      while left > 0
        invariant 0 <= left <= count && Valid(mem)
        invariant Copying(mem, source, destination, size, step, left) == out
      {
        var bytes := ReadBytes(mem, source, size);
        if bytes.Err? { return source, destination, Some(bytes.error); }
        var w := WriteBytes(mem, destination, bytes.value);
        if w.Err? { return source, destination, Some(w.error); }
        CopyRound(mem, source, destination, size, step, left);
        mem := w.value;
        source, destination := Advance(source, step), Advance(destination, step);
        left := left - 1;
      }
      return source, destination, None;
    }

    method Movs(size: ElementSize, rep: bool, base: u64) returns (r: Result<(), MemError>)
      requires Valid(mem)
      modifies this
      ensures Done(mem, regs, r) == MovsSpec(old(mem), old(regs), size, rep, base) && Valid(mem)
    {
      var count, step := CountOf(regs, rep), StepOf(size, regs.flags.df);
      var start := Plus(base, regs.gpr[RSI]);
      var source, destination, fault := CopyElements(start, regs.gpr[RDI], size, step, count);
      var done := Finish(mem, regs, Minus(source, base), destination, rep, 0, regs.flags, fault);
      regs, r := done.regs, done.r;
    }

    /** The loop of scas and cmps; the flags of the comparisons made before a fault stay. */
    method ScanElements(left: Comparand, to: u64, size: ElementSize, step: int, rep: Repeat, count: nat, compare: Compare, flags: Flags)
      returns (m: MemoryScan)
      requires Valid(mem) && -8 <= step <= 8
      ensures m == ScanMemory(mem, size, step, left, to, count, compare, rep, flags)
    {
      ghost var pairs := Pairs(mem, size, step, left, to, count);
      var at, destination, out := left, to, Scanned(0, flags, None);
      while out.rounds < count
        invariant out.rounds <= count && out.fault.None?
        invariant at == ComparandAt(left, step, out.rounds) && destination == Moved(to, step, out.rounds)
        invariant Scanning(pairs, compare, rep, out.rounds, out.flags) == Scanning(pairs, compare, rep, 0, flags)
      {
        var k := out.rounds;
        var p := ReadPair(mem, size, at, destination);
        assert pairs[k] == p;
        if p.Err? { return MemoryScan(at, destination, out.(fault := Some(p.error))); }
        ScanRound(pairs, compare, rep, k, out.flags, p.value);
        NextAt(left, to, step, k);
        out := Scanned(k + 1, compare(out.flags, p.value), None);
        at, destination := Next(at, step), Advance(destination, step);
        if Stops(rep, out.flags.zf) { break; }
      }
      return MemoryScan(at, destination, out);
    }

    /** Memory never changes. */
    method Scas(size: ElementSize, rep: Repeat, base: u64) returns (r: Result<(), MemError>)
      requires Valid(mem)
      modifies `regs
      ensures Done(mem, regs, r) == ScasSpec(old(mem), old(regs), size, rep, base)
    {
      var count, step := CountOf(regs, !rep.Once?), StepOf(size, regs.flags.df);
      var m := ScanElements(ScasLeft(regs, size), Plus(base, regs.gpr[RDI]), size, step, rep, count, Comparer(WidthOf(size)), regs.flags);
      assert m == ScasScan(mem, regs, size, rep, base);
      var done := Finish(mem, regs, regs.gpr[RSI], Minus(m.dst, base), !rep.Once?, count - m.scan.rounds, m.scan.flags, m.scan.fault);
      assert done == ScasSpec(mem, regs, size, rep, base) && done.mem == mem;
      regs, r := done.regs, done.r;
    }

    method Cmps(size: ElementSize, rep: Repeat, base: u64) returns (r: Result<(), MemError>)
      requires Valid(mem)
      modifies `regs
      ensures Done(mem, regs, r) == CmpsSpec(old(mem), old(regs), size, rep, base)
    {
      var count, step := CountOf(regs, !rep.Once?), StepOf(size, regs.flags.df);
      var m := ScanElements(CmpsLeft(regs, base), regs.gpr[RDI], size, step, rep, count, Comparer(WidthOf(size)), regs.flags);
      assert m == CmpsScan(mem, regs, size, rep, base);
      var done := Finish(mem, regs, Minus(m.left.addr, base), m.dst, !rep.Once?, count - m.scan.rounds, m.scan.flags, m.scan.fault);
      assert done == CmpsSpec(mem, regs, size, rep, base) && done.mem == mem;
      regs, r := done.regs, done.r;
    }
  }

  function Next(c: Comparand, step: int): Comparand
    requires -8 <= step <= 8
  {
    match c
    case Accumulator(_) => c
    case Source(addr) => Source(Advance(addr, step))
  }

  lemma NextAt(left: Comparand, to: u64, step: int, k: nat)
    requires -8 <= step <= 8
    ensures ComparandAt(left, step, k + 1) == Next(ComparandAt(left, step, k), step)
    ensures Moved(to, step, k + 1) == Advance(Moved(to, step, k), step)
  {
    MovedOnce(to, step, k);
    if left.Source? { MovedOnce(left.addr, step, k); }
  }

  lemma {:induction false} MovedOnce(addr: u64, step: int, k: nat)
    requires -8 <= step <= 8
    ensures Moved(addr, step, k + 1) == Advance(Moved(addr, step, k), step)
    decreases k
  {
    if k > 0 { MovedOnce(Advance(addr, step), step, k - 1); }
  }
}
