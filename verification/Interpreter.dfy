/** The interpreter as an object: registers, memory, the two cache maps and their counters. */
module Interpreters {
  import opened Words
  import opened Regions
  import opened Registers
  import opened Instructions
  import opened Machine
  import opened Blocks
  import opened BlockCache

  function Traced(on: bool, trace: seq<Record>, more: seq<Record>): seq<Record> {
    if on then trace + more else trace
  }

  /** translate_block: the decoding loop. */
  method TranslateBlock(decode: Decoding, start: u64) returns (r: Result<seq<Insn>, CpuError>)
    ensures r == TranslateFrom(decode, start, MAX_BLOCK_INSTRUCTIONS)
  {
    var ip, code, left := start, [], MAX_BLOCK_INSTRUCTIONS;
    ghost var goal := TranslateFrom(decode, start, MAX_BLOCK_INSTRUCTIONS);
    PrefixedNone(goal);
    while left > 0
      invariant 0 <= left <= MAX_BLOCK_INSTRUCTIONS
      invariant Prefixed(code, TranslateFrom(decode, ip, left)) == goal
    {
      var i := decode(ip);
      TranslateRound(decode, ip, left, code);
      if i.Err? { return Err(i.error); }
      code := code + [i.value];
      if i.value.Kind() != Compute { return Ok(code); }
      ip, left := i.value.Next(), left - 1;
    }
    PrefixedEnd(decode, ip, code);
    return Ok(code);
  }

  class Interpreter {
    const cpu: Cpu
    var mem: Mem
    var regs: RegisterFile
    var tracing: bool
    var trace: seq<Record>
    var ir: map<u64, BasicBlock>
    var decoded: map<u64, seq<Insn>>
    var hits: nat
    var misses: nat
    var invalidations: nat
    /** Successful translations so far. */
    ghost var translations: nat

    /** Every translated block is in the cache or was invalidated, and both maps hold the same blocks. */
    ghost predicate Counted()
      reads this
    {
      ir.Keys == decoded.Keys && |ir| + invalidations == translations
    }

    function Cached(): Cache
      reads this
    {
      Cache(ir, decoded)
    }

    constructor (c: Cpu, m: Mem, r: RegisterFile)
      ensures cpu == c && mem == m && regs == r && trace == [] && !tracing
      ensures Counted() && Cached() == Cache(map[], map[]) && hits == misses == invalidations == 0
    {
      cpu, mem, regs, trace, tracing := c, m, r, [], false;
      ir, decoded := map[], map[];
      hits, misses, invalidations, translations := 0, 0, 0, 0;
    }

    /** BlockCache::get. */
    method Get(ip: u64) returns (block: Option<BasicBlock>)
      modifies `hits, `misses
      ensures block == if ip in ir then Some(ir[ip]) else None
      ensures hits + misses == old(hits + misses) + 1 && (hits > old(hits) <==> ip in ir)
    {
      if ip in ir {
        hits := hits + 1;
        block := Some(ir[ip]);
      } else {
        misses := misses + 1;
        block := None;
      }
    }

    /** invalidate_range: returns how many blocks it removed, all of them overlapping the range. */
    method InvalidateRange(addr: u64, size: nat) returns (removed: nat)
      requires Counted()
      modifies `ir, `decoded, `invalidations
      ensures Counted() && Cached() == Drop(old(Cached()), addr, size)
      ensures removed == |old(ir)| - |ir| && invalidations == old(invalidations) + removed
    {
      var end := RangeEnd(addr, size);
      ghost var was := Cached();
      var before := |ir|;
      decoded := map k | k in decoded && (k in ir ==> Survives(ir[k], addr, end)) :: decoded[k];
      var kept := map k | k in ir && Survives(ir[k], addr, end) :: ir[k];
      Shrunk(ir, kept);
      ir := kept;
      removed := before - |ir|;
      if removed > 0 {
        invalidations := invalidations + removed;
      }
      DropKeeps(was, addr, size, addr);
    }

    /** clear: afterwards the cache is coherent with any memory, so also with one that a system call remapped. */
    method ClearCache()
      requires Counted()
      modifies `ir, `decoded, `invalidations
      ensures Counted() && Cached() == Cache(map[], map[]) && invalidations == old(invalidations + |ir|)
      ensures forall m: Mem :: Coherent(cpu.dec, m, Cached())
    {
      if |ir| > 0 {
        invalidations := invalidations + |ir|;
      }
      ir, decoded := map[], map[];
      forall m: Mem ensures Coherent(cpu.dec, m, Cached()) { CoherentEmpty(cpu.dec, m); }
    }

    /** Both inserts of cached_block. */
    method Insert(ip: u64, code: seq<Insn>)
      requires Counted() && ip !in ir && Coherent(cpu.dec, mem, Cached())
      requires Translate(cpu.dec, mem, ip, MAX_BLOCK_INSTRUCTIONS) == Ok(code)
      modifies `ir, `decoded, `translations
      ensures Counted() && Coherent(cpu.dec, mem, Cached()) && translations == old(translations) + 1
      ensures Cached() == Cache(old(ir)[ip := BlockOf(ip, code)], old(decoded)[ip := code])
    {
      CoherentInsert(cpu.dec, mem, Cached(), ip, code);
      ir, decoded := ir[ip := BlockOf(ip, code)], decoded[ip := code];
      translations := translations + 1;
    }

    /** Both lookups of cached_block: what a coherent cache returns is what translation would give. */
    method Lookup(ip: u64) returns (r: Option<seq<Insn>>)
      requires Coherent(cpu.dec, mem, Cached())
      modifies `hits, `misses
      ensures r.None? <==> ip !in ir
      ensures r.Some? ==> Translate(cpu.dec, mem, ip, MAX_BLOCK_INSTRUCTIONS) == Ok(r.value)
    {
      var block := Get(ip);
      if block.Some? && ip in decoded {
        assert Entry(cpu.dec, mem, Cached(), ip);
        return Some(decoded[ip]);
      }
      return None;
    }

    /** cached_block: the cached instructions, or a fresh translation that is then cached. */
    method CachedBlock(ip: u64) returns (r: Result<seq<Insn>, CpuError>)
      requires Counted() && Coherent(cpu.dec, mem, Cached())
      modifies `hits, `misses, `ir, `decoded, `translations
      ensures Counted() && Coherent(cpu.dec, mem, Cached())
      ensures r == Translate(cpu.dec, mem, ip, MAX_BLOCK_INSTRUCTIONS)
      ensures r.Ok? ==> ip in ir
      ensures translations == old(translations) + if ip in old(ir) || r.Err? then 0 else 1
    {
      var hit := Lookup(ip);
      if hit.Some? { return Ok(hit.value); }
      r := FreshBlock(ip);
    }

    /** The miss of cached_block. */
    method FreshBlock(ip: u64) returns (r: Result<seq<Insn>, CpuError>)
      requires Counted() && Coherent(cpu.dec, mem, Cached()) && ip !in ir
      modifies `ir, `decoded, `translations
      ensures Counted() && Coherent(cpu.dec, mem, Cached())
      ensures r == Translate(cpu.dec, mem, ip, MAX_BLOCK_INSTRUCTIONS)
      ensures r.Ok? ==> ip in ir
      ensures translations == old(translations) + if r.Err? then 0 else 1
    {
      r := TranslateBlock(DecodeIn(cpu.dec, mem), ip);
      if r.Ok? { Insert(ip, r.value); }
    }

    /** execute, and the invalidation that write_operand makes in it. */
    method Execute(i: Insn) returns (r: Result<StepOutcome, CpuError>)
      requires CpuOk(cpu) && Counted()
      modifies `mem, `regs, `ir, `decoded, `invalidations
      ensures Counted() && Cached() == Settle(old(Cached()), cpu.exec(i, old(mem), old(regs)).stores)
      ensures Effect(mem, regs, cpu.exec(i, old(mem), old(regs)).stores, r) == cpu.exec(i, old(mem), old(regs))
    {
      var e := cpu.exec(i, mem, regs);
      mem, regs, r := e.mem, e.regs, e.result;
      InvalidateStores(e.stores);
    }

    /** The invalidations of write_operand, store by store. */
    method InvalidateStores(stores: seq<Store>)
      requires Counted()
      modifies `ir, `decoded, `invalidations
      ensures Counted() && Cached() == Settle(old(Cached()), stores)
    {
      var j := 0;
      assert stores[0..] == stores;
      while j < |stores|
        invariant 0 <= j <= |stores| && Counted()
        invariant Settle(Cached(), stores[j..]) == Settle(old(Cached()), stores)
      {
        assert stores[j..][1..] == stores[j + 1..];
        if stores[j].operand && stores[j].executable {
          var _ := InvalidateRange(stores[j].addr, stores[j].size);
        }
        j := j + 1;
      }
    }

    /** One instruction with its error wrapped or its record traced. */
    method ExecuteTraced(i: Insn) returns (r: Result<StepOutcome, CpuError>)
      requires CpuOk(cpu) && Counted()
      modifies `mem, `regs, `ir, `decoded, `invalidations, `trace
      ensures Counted() && Cached() == Settle(old(Cached()), cpu.exec(i, old(mem), old(regs)).stores)
      ensures At(One(cpu.exec, i, old(mem), old(regs)), old(trace), r)
    {
      var before := regs;
      r := Execute(i);
      if r.Err? {
        r := Err(ExecutionError(i.ip, i.text, r.error));
      } else if tracing {
        trace := trace + [Record(i.ip, i.text, before, regs)];
      }
    }

    /** The state is that after a run, whose records follow the given trace when tracing is on. */
    predicate At(run: Run, before: seq<Record>, r: Result<StepOutcome, CpuError>)
      reads this
    {
      mem == run.mem && regs == run.regs && r == run.result && trace == Traced(tracing, before, run.trace)
    }

    method Step() returns (r: Result<StepOutcome, CpuError>)
      requires CpuOk(cpu) && Counted()
      modifies `mem, `regs, `ir, `decoded, `invalidations, `trace
      ensures Counted() && At(Blocks.Step(cpu, old(mem), old(regs)), old(trace), r)
    {
      if IsVsyscall(regs.rip) {
        r := Vsyscall();
      } else {
        var i := Decode(cpu.dec, mem, regs.rip);
        if i.Err? { return Err(i.error); }
        r := ExecuteTraced(i.value);
      }
    }

    method Vsyscall() returns (r: Result<StepOutcome, CpuError>)
      modifies `mem, `regs, `trace
      ensures At(cpu.vsyscall(old(mem), old(regs)), old(trace), r)
    {
      var v := cpu.vsyscall(mem, regs);
      mem, regs, r := v.mem, v.regs, v.result;
      trace := Traced(tracing, trace, v.trace);
    }

    /** The loop of step_block over the instructions of a block. */
    method RunCode(code: seq<Insn>) returns (r: Result<StepOutcome, CpuError>)
      requires CpuOk(cpu) && Counted()
      modifies `mem, `regs, `ir, `decoded, `invalidations, `trace
      ensures Counted() && Cached() == Settling(cpu.exec, code, old(mem), old(regs), old(Cached())).cache
      ensures At(Settling(cpu.exec, code, old(mem), old(regs), old(Cached())).run, old(trace), r)
    {
      ghost var goal := Settling(cpu.exec, code, mem, regs, Cached());
      ghost var done: seq<Record> := [];
      var j := 0;
      AfterNothing(goal);
      assert code[0..] == code;
      while j < |code|
        invariant 0 <= j <= |code| && Counted() && trace == Traced(tracing, old(trace), done)
        invariant After(done, Settling(cpu.exec, code[j..], mem, regs, Cached())) == goal
      {
        if regs.rip != code[j].ip { break; }
        RoundOf(cpu.exec, code[j..], mem, regs, Cached(), done);
        ghost var more := One(cpu.exec, code[j], mem, regs).trace;
        TracedTwice(tracing, old(trace), done, more);
        r := ExecuteTraced(code[j]);
        if r != Ok(Continue) || code[j].Kind() != Compute { return; }
        done := done + more;
        assert code[j..][1..] == code[j + 1..];
        j := j + 1;
      }
      assert done + [] == done;
      return Ok(Continue);
    }

    /**
      step_block: the state, outcome and trace of running a fresh translation of the block at rip. The
      cache stays coherent when no store reaches executable bytes past write_operand.
     */
    method StepBlock() returns (r: Result<StepOutcome, CpuError>)
      requires CpuOk(cpu) && Counted() && Coherent(cpu.dec, mem, Cached())
      modifies `mem, `regs, `ir, `decoded, `hits, `misses, `invalidations, `translations, `trace
      ensures Counted() && At(Blocks.StepBlock(cpu, old(mem), old(regs)), old(trace), r)
      ensures QuietBlock(cpu, old(mem), old(regs)) ==> Coherent(cpu.dec, mem, Cached())
    {
      if IsVsyscall(regs.rip) {
        if QuietBlock(cpu, mem, regs) { CoherentKept(cpu.dec, mem, cpu.vsyscall(mem, regs).mem, Cached()); }
        r := Vsyscall();
      } else {
        var code := CachedBlock(regs.rip);
        r := RunResult(code);
      }
    }

    /** run: at most max blocks. The cache is coherent before every block and after the last. */
    method Run(max: nat) returns (r: Result<RunOutcome, CpuError>)
      requires CpuOk(cpu) && Counted() && Coherent(cpu.dec, mem, Cached()) && QuietBlocks(cpu, mem, regs, max)
      modifies `mem, `regs, `ir, `decoded, `hits, `misses, `invalidations, `translations, `trace
      ensures Counted() && Coherent(cpu.dec, mem, Cached())
      ensures max == 0 ==> r == Err(EmptyStepLimit) && mem == old(mem) && regs == old(regs) && trace == old(trace)
      ensures max > 0 ==>
                && r == OutcomeOf(RunBlocks(cpu, old(mem), old(regs), max).result)
                && At(RunBlocks(cpu, old(mem), old(regs), max), old(trace), RunBlocks(cpu, old(mem), old(regs), max).result)
    {
      if max == 0 { return Err(EmptyStepLimit); }
      var last := RunLoop(max);
      return OutcomeOf(last);
    }

    /** The loop of run, until a block does not continue. */
    method RunLoop(max: nat) returns (last: Result<StepOutcome, CpuError>)
      requires CpuOk(cpu) && Counted() && Coherent(cpu.dec, mem, Cached()) && max > 0 && QuietBlocks(cpu, mem, regs, max)
      modifies `mem, `regs, `ir, `decoded, `hits, `misses, `invalidations, `translations, `trace
      ensures Counted() && Coherent(cpu.dec, mem, Cached())
      ensures At(RunBlocks(cpu, old(mem), old(regs), max), old(trace), last)
    {
      ghost var goal := RunBlocks(cpu, mem, regs, max);
      ghost var done: seq<Record> := [];
      var left := max;
      assert [] + goal.trace == goal.trace;
      while left > 0
        invariant 0 <= left <= max && Counted() && Coherent(cpu.dec, mem, Cached()) && QuietBlocks(cpu, mem, regs, left)
        invariant Onward(done, cpu, mem, regs, left) == goal && trace == Traced(tracing, old(trace), done)
      {
        ghost var b := Blocks.StepBlock(cpu, mem, regs);
        OnwardStep(done, cpu, mem, regs, left);
        QuietUnfold(cpu, mem, regs, left, b);
        TracedTwice(tracing, old(trace), done, b.trace);
        last := StepBlock();
        if last != Ok(Continue) { return; }
        done, left := done + b.trace, left - 1;
      }
      return Ok(Continue);
    }

    method RunResult(code: Result<seq<Insn>, CpuError>) returns (r: Result<StepOutcome, CpuError>)
      requires CpuOk(cpu) && Counted() && Coherent(cpu.dec, mem, Cached()) && !IsVsyscall(regs.rip)
      requires code == Translate(cpu.dec, mem, regs.rip, MAX_BLOCK_INSTRUCTIONS)
      modifies `mem, `regs, `ir, `decoded, `invalidations, `trace
      ensures Counted() && At(Blocks.StepBlock(cpu, old(mem), old(regs)), old(trace), r)
      ensures QuietBlock(cpu, old(mem), old(regs)) ==> Coherent(cpu.dec, mem, Cached())
    {
      if code.Err? { return Err(code.error); }
      FromTranslation(cpu, mem, regs, Cached(), code.value);
      r := RunCode(code.value);
    }
  }

  /** Every block the run enters is quiet. */
  ghost predicate QuietBlocks(cpu: Cpu, m: Mem, r: RegisterFile, n: nat)
    decreases n
  {
    n > 0 ==>
      && QuietBlock(cpu, m, r)
      && (StepBlock(cpu, m, r).result == Ok(Continue) ==>
            QuietBlocks(cpu, StepBlock(cpu, m, r).mem, StepBlock(cpu, m, r).regs, n - 1))
  }

  /** The first block of a quiet run, and the run behind it. */
  lemma QuietUnfold(cpu: Cpu, m: Mem, r: RegisterFile, n: nat, b: Run)
    requires n > 0 && QuietBlocks(cpu, m, r, n) && StepBlock(cpu, m, r) == b
    ensures QuietBlock(cpu, m, r)
    ensures b.result == Ok(Continue) ==> QuietBlocks(cpu, b.mem, b.regs, n - 1)
  {
  }

  /** A run that goes on after some records. */
  function Onward(done: seq<Record>, cpu: Cpu, m: Mem, r: RegisterFile, left: nat): Run {
    if left == 0 then Run(m, r, Ok(Continue), done)
    else var rest := RunBlocks(cpu, m, r, left); rest.(trace := done + rest.trace)
  }

  lemma OnwardStep(done: seq<Record>, cpu: Cpu, m: Mem, r: RegisterFile, left: nat)
    requires left > 0
    ensures var b := StepBlock(cpu, m, r);
            Onward(done, cpu, m, r, left)
            == if b.result == Ok(Continue) then Onward(done + b.trace, cpu, b.mem, b.regs, left - 1) else b.(trace := done + b.trace)
  {
    var b := StepBlock(cpu, m, r);
    RunUnfold(cpu, m, r, left);
    if left > 1 && b.result == Ok(Continue) {
      var rest := RunBlocks(cpu, b.mem, b.regs, left - 1);
      assert done + (b.trace + rest.trace) == done + b.trace + rest.trace;
    }
  }

  predicate QuietCode(cpu: Cpu, code: Result<seq<Insn>, CpuError>, m: Mem, r: RegisterFile) {
    code.Ok? ==> QuietRun(cpu.exec, code.value, m, r)
  }

  /** No store of the block or of the vsyscall at rip reaches executable bytes past write_operand. */
  ghost predicate QuietBlock(cpu: Cpu, m: Mem, r: RegisterFile) {
    if IsVsyscall(r.rip) then KeepsCode(m, cpu.vsyscall(m, r).mem)
    else QuietCode(cpu, Translate(cpu.dec, m, r.rip, MAX_BLOCK_INSTRUCTIONS), m, r)
  }

  lemma FromTranslation(cpu: Cpu, m: Mem, r: RegisterFile, c: Cache, code: seq<Insn>)
    requires !IsVsyscall(r.rip) && CpuOk(cpu) && Coherent(cpu.dec, m, c)
    requires Translate(cpu.dec, m, r.rip, MAX_BLOCK_INSTRUCTIONS) == Ok(code)
    ensures StepBlock(cpu, m, r) == Settling(cpu.exec, code, m, r, c).run
    ensures QuietBlock(cpu, m, r) ==>
              Coherent(cpu.dec, Settling(cpu.exec, code, m, r, c).run.mem, Settling(cpu.exec, code, m, r, c).cache)
  {
    SettlingRuns(cpu.exec, code, m, r, c);
    if QuietBlock(cpu, m, r) { SettlingCoherent(cpu, code, m, r, c, Settling(cpu.exec, code, m, r, c)); }
  }

  function After(done: seq<Record>, out: CachedRun): CachedRun {
    out.(run := out.run.(trace := done + out.run.trace))
  }

  lemma AfterNothing(out: CachedRun)
    ensures After([], out) == out
  {
    assert [] + out.run.trace == out.run.trace;
  }

  lemma TracedTwice(on: bool, trace: seq<Record>, done: seq<Record>, more: seq<Record>)
    ensures Traced(on, trace, done + more) == Traced(on, Traced(on, trace, done), more)
  {
    assert trace + (done + more) == trace + done + more;
  }

  lemma RoundOf(exec: Exec, tail: seq<Insn>, m: Mem, r: RegisterFile, c: Cache, done: seq<Record>)
    requires |tail| > 0 && r.rip == tail[0].ip
    ensures var one, d := One(exec, tail[0], m, r), Settle(c, exec(tail[0], m, r).stores);
            After(done, Settling(exec, tail, m, r, c))
            == if one.result != Ok(Continue) || tail[0].Kind() != Compute then After(done, CachedRun(one, d))
               else After(done + one.trace, Settling(exec, tail[1..], one.mem, one.regs, d))
  {
    var one, d := One(exec, tail[0], m, r), Settle(c, exec(tail[0], m, r).stores);
    var rest := Settling(exec, tail[1..], one.mem, one.regs, d);
    assert done + (one.trace + rest.run.trace) == done + one.trace + rest.run.trace;
  }

  /** What a translation loop has so far, before what it still has to translate. */
  function Prefixed(code: seq<Insn>, t: Result<seq<Insn>, CpuError>): Result<seq<Insn>, CpuError> {
    if t.Err? then t else Ok(code + t.value)
  }

  lemma PrefixedNone(t: Result<seq<Insn>, CpuError>)
    ensures Prefixed([], t) == t
  {
    if t.Ok? { assert [] + t.value == t.value; }
  }

  lemma PrefixedEnd(decode: Decoding, ip: u64, code: seq<Insn>)
    ensures Prefixed(code, TranslateFrom(decode, ip, 0)) == Ok(code)
  {
    assert code + [] == code;
  }

  lemma TranslateRound(decode: Decoding, ip: u64, left: nat, code: seq<Insn>)
    requires left > 0
    ensures decode(ip).Err? ==> Prefixed(code, TranslateFrom(decode, ip, left)) == Err(decode(ip).error)
    ensures decode(ip).Ok? && decode(ip).value.Kind() != Compute ==>
              Prefixed(code, TranslateFrom(decode, ip, left)) == Ok(code + [decode(ip).value])
    ensures decode(ip).Ok? && decode(ip).value.Kind() == Compute ==>
              var i := decode(ip).value;
              Prefixed(code, TranslateFrom(decode, ip, left)) == Prefixed(code + [i], TranslateFrom(decode, i.Next(), left - 1))
  {
    if decode(ip).Ok? {
      var i := decode(ip).value;
      var t := TranslateFrom(decode, i.Next(), left - 1);
      if i.Kind() == Compute && t.Ok? { assert code + ([i] + t.value) == code + [i] + t.value; }
    }
  }

  lemma Shrunk<V>(m: map<u64, V>, n: map<u64, V>)
    requires n.Keys <= m.Keys
    ensures |n| <= |m|
  {
    SubsetSize(n.Keys, m.Keys);
  }

  lemma {:induction false} SubsetSize(a: set<u64>, b: set<u64>)
    requires a <= b
    ensures |a| <= |b|
    decreases |a|
  {
    if a != {} {
      var x :| x in a;
      SubsetSize(a - {x}, b - {x});
    }
  }
}
