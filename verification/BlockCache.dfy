/** The cache of translated blocks: values, and when they agree with fresh translation. */
module BlockCache {
  import opened Words
  import opened Regions
  import opened Registers
  import opened Instructions
  import opened Machine
  import opened Blocks

  datatype Terminator = FallThrough | BranchEnd | CallEnd | ReturnEnd | SyscallEnd

  /** What the cache keeps of an instruction beside its decoded form. */
  datatype IrInsn = IrInsn(ip: u64, len: Length, text: string, kind: Kind)

  datatype BasicBlock = BasicBlock(start: u64, end: int, insns: seq<IrInsn>, terminator: Terminator)

  function TerminatorOf(kind: Kind): Terminator {
    match kind
    case Compute => FallThrough
    case Branch => BranchEnd
    case CallKind => CallEnd
    case Return => ReturnEnd
    case SyscallKind => SyscallEnd
  }

  function IrOf(code: seq<Insn>): seq<IrInsn> {
    seq(|code|, j requires 0 <= j < |code| => IrInsn(code[j].ip, code[j].len, code[j].text, code[j].Kind()))
  }

  /** The block that translate_block makes of its instructions. */
  function BlockOf(start: u64, code: seq<Insn>): BasicBlock {
    if code == [] then BasicBlock(start, start, [], FallThrough)
    else BasicBlock(start, EndOf(code), IrOf(code), TerminatorOf(code[|code| - 1].Kind()))
  }

  /** The two maps of ExecutionCache. */
  datatype Cache = Cache(ir: map<u64, BasicBlock>, decoded: map<u64, seq<Insn>>)

  /** A block survives when it ends before the range or starts behind it. */
  predicate Survives(b: BasicBlock, addr: int, end: int) { b.end <= addr || b.start >= end }

  /** saturating_add. */
  function RangeEnd(addr: u64, size: nat): u64 { if addr + size < U64 then addr + size else U64 - 1 }

  function Drop(c: Cache, addr: u64, size: nat): Cache {
    var end := RangeEnd(addr, size);
    Cache(map k | k in c.ir && Survives(c.ir[k], addr, end) :: c.ir[k],
          map k | k in c.decoded && (k in c.ir ==> Survives(c.ir[k], addr, end)) :: c.decoded[k])
  }

  /** A cached block is what translating at its address gives now. */
  ghost predicate Entry(dec: Decoder, m: Mem, c: Cache, ip: u64) {
    && ip in c.ir && ip in c.decoded
    && Translate(dec, m, ip, MAX_BLOCK_INSTRUCTIONS) == Ok(c.decoded[ip])
    && c.ir[ip] == BlockOf(ip, c.decoded[ip])
  }

  ghost predicate Coherent(dec: Decoder, m: Mem, c: Cache) {
    && c.ir.Keys == c.decoded.Keys
    && forall ip :: ip in c.decoded ==> Entry(dec, m, c, ip)
  }

  lemma CoherentEmpty(dec: Decoder, m: Mem)
    ensures Coherent(dec, m, Cache(map[], map[]))
  {
  }

  lemma CoherentInsert(dec: Decoder, m: Mem, c: Cache, ip: u64, code: seq<Insn>)
    requires Coherent(dec, m, c) && Translate(dec, m, ip, MAX_BLOCK_INSTRUCTIONS) == Ok(code)
    ensures Coherent(dec, m, Cache(c.ir[ip := BlockOf(ip, code)], c.decoded[ip := code]))
  {
    var d := Cache(c.ir[ip := BlockOf(ip, code)], c.decoded[ip := code]);
    forall k | k in d.decoded ensures Entry(dec, m, d, k) {
      if k != ip { EntryKept(dec, m, c, d, k); }
    }
  }

  lemma EntryKept(dec: Decoder, m: Mem, c: Cache, d: Cache, k: u64)
    requires Coherent(dec, m, c) && k in c.decoded && k in d.ir && k in d.decoded
    requires d.ir[k] == c.ir[k] && d.decoded[k] == c.decoded[k]
    ensures Entry(dec, m, d, k)
  {
    assert Entry(dec, m, c, k);
  }

  /** Dropping keeps equal key sets and exactly the blocks outside the range. */
  lemma DropKeeps(c: Cache, addr: u64, size: nat, k: u64)
    requires c.ir.Keys == c.decoded.Keys
    ensures Drop(c, addr, size).ir.Keys == Drop(c, addr, size).decoded.Keys
    ensures k in Drop(c, addr, size).ir <==> k in c.ir && Survives(c.ir[k], addr, RangeEnd(addr, size))
    ensures k in Drop(c, addr, size).ir ==>
              Drop(c, addr, size).ir[k] == c.ir[k] && Drop(c, addr, size).decoded[k] == c.decoded[k]
  {
    var d := Drop(c, addr, size);
    assert forall j :: j in d.ir <==> j in d.decoded;
  }

  // ------------------------------------------------------------ coherence

  /** What write_operand does to the cache: drop the overlapped blocks when the bytes are executable. */
  function SettleOne(c: Cache, s: Store): Cache {
    if s.operand && s.executable then Drop(c, s.addr, s.size) else c
  }

  /** The same for all stores of an instruction. */
  function Settle(c: Cache, stores: seq<Store>): Cache
    decreases |stores|
  {
    if stores == [] then c else Settle(SettleOne(c, stores[0]), stores[1..])
  }

  /** Bytes stored past write_operand are not executable. */
  predicate Quiet(stores: seq<Store>) {
    forall k :: 0 <= k < |stores| && !stores[k].operand ==> !stores[k].executable
  }

  /** A store leaves the block alone, or goes past write_operand. */
  predicate Spared(b: BasicBlock, s: Store) {
    s.operand && s.executable ==> Survives(b, s.addr, RangeEnd(s.addr, s.size))
  }

  /** A block that is still cached is the one that was, and every store that invalidates spared it. */
  lemma {:induction false} SettleKeeps(c: Cache, stores: seq<Store>, ip: u64)
    requires c.ir.Keys == c.decoded.Keys
    ensures Settle(c, stores).ir.Keys == Settle(c, stores).decoded.Keys
    ensures ip in Settle(c, stores).ir ==>
              && ip in c.ir && Settle(c, stores).ir[ip] == c.ir[ip] && Settle(c, stores).decoded[ip] == c.decoded[ip]
              && forall k :: 0 <= k < |stores| ==> Spared(c.ir[ip], stores[k])
    decreases |stores|
  {
    if stores != [] {
      DropKeeps(c, stores[0].addr, stores[0].size, ip);
      SettleKeeps(SettleOne(c, stores[0]), stores[1..], ip);
      assert forall k :: 0 < k < |stores| ==> stores[k] == stores[1..][k - 1];
    }
  }

  /** A store that spares a block misses its bytes. */
  lemma SparedIsMissed(dec: Decoder, m: Mem, s: Store, ip: u64, code: seq<Insn>)
    requires DecoderOk(dec) && Placed(m, s) && (!s.operand ==> !s.executable)
    requires Translate(dec, m, ip, MAX_BLOCK_INSTRUCTIONS) == Ok(code) && |code| > 0 && Spared(BlockOf(ip, code), s)
    ensures s.Misses(ip, EndOf(code))
  {
    if s.executable {
      assert m[Find(m, s.addr, s.size)].ContainsRange(s.addr, s.size);
    } else {
      BlockApart(dec, m, s, ip, MAX_BLOCK_INSTRUCTIONS, code);
    }
  }

  /** A block that is still cached after some stores still is what translation gives. */
  lemma EntryAfterStores(dec: Decoder, m: Mem, n: Mem, c: Cache, stores: seq<Store>, ip: u64)
    requires DecoderOk(dec) && SameLayout(m, n) && Outside(m, n, stores) && AllPlaced(m, stores) && Quiet(stores)
    requires Entry(dec, m, c, ip) && forall k :: 0 <= k < |stores| ==> Spared(c.ir[ip], stores[k])
    ensures Translate(dec, n, ip, MAX_BLOCK_INSTRUCTIONS) == Ok(c.decoded[ip])
  {
    var code := c.decoded[ip];
    TranslateFacts(dec, m, ip, MAX_BLOCK_INSTRUCTIONS, code);
    forall k | 0 <= k < |stores| ensures stores[k].Misses(ip, EndOf(code)) {
      SparedIsMissed(dec, m, stores[k], ip, code);
    }
    TranslateAfterStores(dec, m, n, stores, ip, MAX_BLOCK_INSTRUCTIONS, code);
  }

  /**
    Every instruction keeps the cache coherent: looking at the execute permission of the first byte is
    enough because a store lies in one region, and dropping the blocks that overlap it is enough because
    a decoded instruction depends on its own bytes only.
   */
  lemma CoherentAfterEffect(dec: Decoder, i: Insn, m: Mem, e: Effect, c: Cache)
    requires DecoderOk(dec) && EffectOk(i, m, e) && Quiet(e.stores) && Coherent(dec, m, c)
    ensures Coherent(dec, e.mem, Settle(c, e.stores))
  {
    var d := Settle(c, e.stores);
    SettleKeeps(c, e.stores, 0);
    forall ip | ip in d.decoded ensures Entry(dec, e.mem, d, ip) {
      SettleKeeps(c, e.stores, ip);
      assert Entry(dec, m, c, ip);
      EntryAfterStores(dec, m, e.mem, c, e.stores, ip);
    }
  }

  /** A change that leaves executable bytes alone keeps the cache coherent as it is. */
  lemma CoherentKept(dec: Decoder, m: Mem, n: Mem, c: Cache)
    requires DecoderOk(dec) && KeepsCode(m, n) && Coherent(dec, m, c)
    ensures Coherent(dec, n, c)
  {
    forall ip | ip in c.decoded ensures Entry(dec, n, c, ip) {
      assert Entry(dec, m, c, ip);
      TranslateFacts(dec, m, ip, MAX_BLOCK_INSTRUCTIONS, c.decoded[ip]);
      TranslateKept(dec, m, n, ip, MAX_BLOCK_INSTRUCTIONS, c.decoded[ip]);
    }
  }

  // ------------------------------------------------------------ whole blocks

  /** No store of a run reaches executable bytes past write_operand. */
  predicate QuietRun(exec: Exec, code: seq<Insn>, m: Mem, r: RegisterFile)
    decreases |code|
  {
    code != [] ==>
      && Quiet(exec(code[0], m, r).stores)
      && (exec(code[0], m, r).result == Ok(Continue) && code[0].Kind() == Compute ==>
            QuietRun(exec, code[1..], exec(code[0], m, r).mem, exec(code[0], m, r).regs))
  }

  /** A run over decoded instructions together with the cache it leaves. */
  datatype CachedRun = CachedRun(run: Run, cache: Cache)

  function Settling(exec: Exec, code: seq<Insn>, m: Mem, r: RegisterFile, c: Cache): CachedRun
    decreases |code|
  {
    if code == [] || r.rip != code[0].ip then CachedRun(Run(m, r, Ok(Continue), []), c)
    else
      var one, d := One(exec, code[0], m, r), Settle(c, exec(code[0], m, r).stores);
      if one.result != Ok(Continue) || code[0].Kind() != Compute then CachedRun(one, d)
      else
        var rest := Settling(exec, code[1..], one.mem, one.regs, d);
        CachedRun(Then(one, rest.run), rest.cache)
  }

  /** The cache has no influence on what instructions do. */
  lemma {:induction false} SettlingRuns(exec: Exec, code: seq<Insn>, m: Mem, r: RegisterFile, c: Cache)
    ensures Settling(exec, code, m, r, c).run == BlockRun(exec, code, m, r)
    decreases |code|
  {
    if code != [] {
      var e := exec(code[0], m, r);
      SettlingRuns(exec, code[1..], e.mem, e.regs, Settle(c, e.stores));
    }
  }

  /** A whole block keeps the cache coherent when no store reaches executable bytes past write_operand. */
  lemma {:induction false} SettlingCoherent(cpu: Cpu, code: seq<Insn>, m: Mem, r: RegisterFile, c: Cache, out: CachedRun)
    requires CpuOk(cpu) && Coherent(cpu.dec, m, c) && QuietRun(cpu.exec, code, m, r)
    requires Settling(cpu.exec, code, m, r, c) == out
    ensures Coherent(cpu.dec, out.run.mem, out.cache)
    decreases |code|
  {
    if code != [] && r.rip == code[0].ip {
      var e := cpu.exec(code[0], m, r);
      assert EffectOk(code[0], m, e);
      CoherentAfterEffect(cpu.dec, code[0], m, e, c);
      if e.result == Ok(Continue) && code[0].Kind() == Compute {
        var d := Settle(c, e.stores);
        SettlingCoherent(cpu, code[1..], e.mem, e.regs, d, Settling(cpu.exec, code[1..], e.mem, e.regs, d));
      }
    }
  }
}
