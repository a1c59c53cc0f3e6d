/** brk and anonymous mmap as updates of the flat address space. */
module Heap {
  import opened Words
  import opened Regions
  import opened FlatMemory

  /** align_up to a page. */
  function AlignUp(v: nat): (r: nat)
    ensures v <= r < v + PAGE_SIZE && r % PAGE_SIZE == 0
  {
    if v == 0 then 0 else ((v - 1) / PAGE_SIZE + 1) * PAGE_SIZE
  }

  /** Rounding up stays inside 64 bits. */
  predicate Rounds(v: u64) { v + PAGE_SIZE <= U64 }

  type Roundable = v: u64 | v + PAGE_SIZE <= U64

  // ------------------------------------------------------------ brk

  /** A refused mapping, or an overflow of the emulator's own unchecked arithmetic. */
  datatype HeapError = Refused(cause: MemError) | HostOverflow

  /** A break always rounds: one that does not is never set. */
  datatype Moved = Moved(mem: Mem, brk: Roundable, result: Result<u64, HeapError>)

  function Brk(m: Mem, base: u64, brk: Roundable, requested: u64): Moved {
    if requested == 0 || requested < base then Moved(m, brk, Ok(brk))
    else if !Rounds(requested) then Moved(m, brk, Err(HostOverflow))
    else Resize(m, brk, requested, AlignUp(brk), AlignUp(requested))
  }

  /** The pages between the rounded old break and the rounded new one appear or go. */
  function Resize(m: Mem, brk: Roundable, requested: Roundable, from: u64, to: u64): Moved {
    if requested < brk && to < from then
      match UnmapRange(m, to, from - to)
      case Err(e) => Moved(m, brk, Err(Refused(e)))
      case Ok(n) => UnmapIsFlat(m, to, from - to); Moved(n, requested, Ok(requested))
    else if requested > brk && to > from then
      match MapRegion(m, from, to - from, READ_WRITE)
      case Err(e) => Moved(m, brk, Err(Refused(e)))
      case Ok(n) => MapIsFlat(m, from, to - from, READ_WRITE); Moved(n, requested, Ok(requested))
    else Moved(m, requested, Ok(requested))
  }

  lemma AlignUpMonotone(a: nat, b: nat)
    requires a <= b
    ensures AlignUp(a) <= AlignUp(b)
  {
    if a > 0 { assert (a - 1) / PAGE_SIZE <= (b - 1) / PAGE_SIZE; }
  }

  /** Growth adds zero pages above the old break, shrinking removes the pages above the new one, nothing else moves. */
  lemma BrkCell(m: Mem, base: u64, brk: Roundable, requested: u64, a: int)
    requires base <= brk
    ensures var r := Brk(m, base, brk, requested);
            && r.brk >= base
            && (r.result.Err? ==> r.mem == m && r.brk == brk)
    ensures var r := Brk(m, base, brk, requested);
            CellIn(r.mem, a) == if AlignUp(brk) <= a < AlignUp(r.brk) then Some(Cell(0, READ_WRITE))
                                else if AlignUp(r.brk) <= a < AlignUp(brk) then None
                                else CellIn(m, a)
    ensures AlignUp(brk) <= a < AlignUp(Brk(m, base, brk, requested).brk) ==> CellIn(m, a) == None
  {
    if requested != 0 && requested >= base && Rounds(requested) { ResizeCell(m, brk, requested, a); }
  }

  lemma ResizeCell(m: Mem, brk: Roundable, requested: Roundable, a: int)
    ensures var r := Resize(m, brk, requested, AlignUp(brk), AlignUp(requested));
            && (r.result.Err? ==> r.mem == m && r.brk == brk) && (r.result.Ok? ==> r.brk == requested)
            && CellIn(r.mem, a) == (if AlignUp(brk) <= a < AlignUp(r.brk) then Some(Cell(0, READ_WRITE))
                                    else if AlignUp(r.brk) <= a < AlignUp(brk) then None
                                    else CellIn(m, a))
            && (AlignUp(brk) <= a < AlignUp(r.brk) ==> CellIn(m, a) == None)
  {
    if requested < brk { AlignUpMonotone(requested, brk); } else { AlignUpMonotone(brk, requested); }
    PagesCell(m, brk, requested, AlignUp(brk), AlignUp(requested), a);
  }

  /** One address, between the rounded old break and the rounded new one or elsewhere. */
  lemma PagesCell(m: Mem, brk: Roundable, requested: Roundable, from: u64, to: u64, a: int)
    requires (requested < brk ==> to <= from) && (requested > brk ==> from <= to) && (requested == brk ==> from == to)
    ensures var r := Resize(m, brk, requested, from, to);
            && (r.result.Err? ==> r.mem == m && r.brk == brk) && (r.result.Ok? ==> r.brk == requested)
            && (r.result.Ok? ==> CellIn(r.mem, a) == if from <= a < to then Some(Cell(0, READ_WRITE))
                                                     else if to <= a < from then None
                                                     else CellIn(m, a))
            && (r.result.Ok? && from <= a < to ==> CellIn(m, a) == None)
  {
    var r := Resize(m, brk, requested, from, to);
    if r.result.Ok? {
      if to < from { UnmapCell(m, r.mem, to, from - to, a); }
      if to > from { MapCell(m, r.mem, from, to - from, READ_WRITE, a); }
    }
  }

  /** A call that is not refused moves the break to where it was asked, or tells where it is. */
  lemma BrkResult(m: Mem, base: u64, brk: Roundable, requested: u64)
    ensures var r := Brk(m, base, brk, requested);
            r.result.Ok? ==> r.result.value == r.brk && r.brk == if requested == 0 || requested < base then brk else requested
  {
  }

  /** Growing succeeds exactly when the new break rounds and the pages it needs are free. */
  lemma BrkGrowsIff(m: Mem, base: u64, brk: Roundable, requested: u64)
    requires base <= brk < requested
    ensures Brk(m, base, brk, requested).result.Ok? <==>
            Rounds(requested) && Free(m, AlignUp(brk), AlignUp(requested) - AlignUp(brk))
  {
    AlignUpMonotone(brk, requested);
    var from, to := AlignUp(brk), AlignUp(requested);
    if Rounds(requested) && to > from { MapRegionFlat(m, from, to - from, READ_WRITE); }
  }

  // ------------------------------------------------------------ whole runs

  /** Calls of brk mixed with stores anywhere. */
  datatype HeapOp = SetBrk(requested: u64) | Poke(addr: u64, bytes: seq<byte>)

  datatype HeapState = HeapState(mem: Mem, brk: Roundable)

  function HeapStep(s: HeapState, base: u64, op: HeapOp): HeapState {
    match op
    case SetBrk(requested) => var r := Brk(s.mem, base, s.brk, requested); HeapState(r.mem, r.brk)
    case Poke(addr, bytes) =>
      match WriteBytes(s.mem, addr, bytes)
      case Err(_) => s
      case Ok(n) => LoadIsFlat(s.mem, addr, bytes); s.(mem := n)
  }

  function HeapRun(s: HeapState, base: u64, ops: seq<HeapOp>): HeapState
    decreases |ops|
  {
    if ops == [] then s else HeapStep(HeapRun(s, base, ops[..|ops| - 1]), base, ops[|ops| - 1])
  }

  ghost function PermIn(m: Mem, a: int): Option<Permission> {
    match CellIn(m, a)
    case None => None
    case Some(c) => Some(c.perms)
  }

  /** The heap window is mapped exactly up to the rounded break, readable and writable; all else is as in m. */
  ghost predicate Window(m: Mem, s: HeapState, base: u64, a: int) {
    && s.brk >= base
    && PermIn(s.mem, a) == (if base <= a < AlignUp(s.brk) then Some(READ_WRITE) else PermIn(m, a))
    && (base <= a < AlignUp(s.brk) ==> PermIn(m, a) == None)
  }

  lemma WindowStep(m: Mem, s: HeapState, base: u64, op: HeapOp, a: int)
    requires Window(m, s, base, a)
    ensures Window(m, HeapStep(s, base, op), base, a)
  {
    match op
    case SetBrk(requested) =>
      BrkCell(s.mem, base, s.brk, requested, a);
    case Poke(addr, bytes) =>
      if WriteBytes(s.mem, addr, bytes).Ok? {
        LoadIsFlat(s.mem, addr, bytes);
        WriteCell(s.mem, WriteBytes(s.mem, addr, bytes).value, addr, bytes, a);
      }
  }

  /** Over any sequence of calls and stores the mapped heap is exactly [base, align_up(brk)). */
  lemma {:induction false} HeapWindow(m: Mem, base: Roundable, ops: seq<HeapOp>, a: int)
    requires base % PAGE_SIZE == 0
    ensures Window(m, HeapRun(HeapState(m, base), base, ops), base, a)
    decreases |ops|
  {
    if ops == [] {
      assert AlignUp(base) == base;
    } else {
      HeapWindow(m, base, ops[..|ops| - 1], a);
      WindowStep(m, HeapRun(HeapState(m, base), base, ops[..|ops| - 1]), base, ops[|ops| - 1], a);
    }
  }

  // ------------------------------------------------------------ mmap

  datatype MmapError = InvalidArgument | NotMapped(cause: HeapError)

  datatype Mapping = Mapping(mem: Mem, next: u64, result: Result<u64, MmapError>)

  /** saturating_add. */
  function Saturated(a: u64, b: nat): u64 { if a + b < U64 then a + b else U64 - 1 }

  predicate HintFree(m: Mem, addr: u64, size: nat) { addr + size < U64 && !Overlaps(m, addr, size) }

  /** A request is served where it asks, or from the next free guess. */
  predicate AsAsked(m: Mem, addr: u64, size: nat, fixed: bool) { fixed || (addr != 0 && HintFree(m, addr, size)) }

  /** The address a request is served at, and the next free guess. */
  function Chosen(m: Mem, next: u64, addr: u64, size: nat, fixed: bool): (u64, u64) {
    if AsAsked(m, addr, size, fixed) then (addr, next) else (next, Saturated(next, size + PAGE_SIZE))
  }

  /** The sums that mmap does not check: rounding the length, and the guard page behind a guess. */
  predicate SumsFit(m: Mem, addr: u64, len: u64, fixed: bool) {
    Rounds(len) && (AsAsked(m, addr, AlignUp(len), fixed) || AlignUp(len) + PAGE_SIZE < U64)
  }

  /** Anonymous mmap; a fixed one first unmaps its range. */
  function Mmap(m: Mem, next: u64, addr: u64, len: u64, perms: Permission, fixed: bool, offset: u64): Mapping {
    if len == 0 || offset % PAGE_SIZE != 0 then Mapping(m, next, Err(InvalidArgument))
    else if !SumsFit(m, addr, len, fixed) then Mapping(m, next, Err(NotMapped(HostOverflow)))
    else if fixed && addr % PAGE_SIZE != 0 then Mapping(m, next, Err(InvalidArgument))
    else MmapPages(m, Chosen(m, next, addr, AlignUp(len), fixed), next, AlignUp(len), perms, fixed)
  }

  function MmapPages(m: Mem, c: (u64, u64), next: u64, size: u64, perms: Permission, fixed: bool): Mapping {
    if fixed then
      match UnmapRange(m, c.0, size)
      case Err(e) => Mapping(m, next, Err(NotMapped(Refused(e))))
      case Ok(n) => UnmapIsFlat(m, c.0, size); MapInto(n, c, size, perms)
    else MapInto(m, c, size, perms)
  }

  function MapInto(m: Mem, c: (u64, u64), size: u64, perms: Permission): Mapping {
    match MapRegion(m, c.0, size, perms)
    case Err(e) => Mapping(m, c.1, Err(NotMapped(Refused(e))))
    case Ok(n) => MapIsFlat(m, c.0, size, perms); Mapping(n, c.1, Ok(c.0))
  }

  /** A cleared range can always be mapped. */
  lemma ClearedMaps(m: Mem, n: Mem, addr: u64, size: u64, perms: Permission)
    requires UnmapRange(m, addr, size) == Ok(n)
    ensures MapRegion(n, addr, size, perms).Ok?
  {
    MapRegionFlat(n, addr, size, perms);
    forall a | In(a, addr, size) ensures At(n, a).None? {
      UnmapCell(m, n, addr, size, a);
      FlatHas(n, a);
    }
  }

  /** A failed anonymous mmap leaves memory alone. */
  lemma MmapFails(m: Mem, next: u64, addr: u64, len: u64, perms: Permission, fixed: bool, offset: u64)
    requires Mmap(m, next, addr, len, perms, fixed, offset).result.Err?
    ensures Mmap(m, next, addr, len, perms, fixed, offset).mem == m
  {
    if fixed && len != 0 && Rounds(len) && UnmapRange(m, addr, AlignUp(len)).Ok? {
      UnmapIsFlat(m, addr, AlignUp(len));
      ClearedMaps(m, UnmapRange(m, addr, AlignUp(len)).value, addr, AlignUp(len), perms);
    }
  }

  lemma MapIntoCell(m: Mem, c: (u64, u64), size: u64, perms: Permission, a: int)
    requires MapInto(m, c, size, perms).result.Ok?
    ensures CellIn(MapInto(m, c, size, perms).mem, a) == if In(a, c.0, size) then Some(Cell(0, perms)) else CellIn(m, a)
    ensures In(a, c.0, size) ==> CellIn(m, a) == None
  {
    MapCell(m, MapInto(m, c, size, perms).mem, c.0, size, perms, a);
  }

  /**
    A successful anonymous mmap makes exactly [addr, addr + align_up(len)) zero bytes with the requested
    permissions; unless it is fixed the range was wholly unmapped before.
   */
  lemma MmapCell(m: Mem, next: u64, addr: u64, len: u64, perms: Permission, fixed: bool, offset: u64, at: u64, a: int)
    requires Mmap(m, next, addr, len, perms, fixed, offset).result == Ok(at)
    ensures CellIn(Mmap(m, next, addr, len, perms, fixed, offset).mem, a)
            == if In(a, at, AlignUp(len)) then Some(Cell(0, perms)) else CellIn(m, a)
    ensures !fixed && In(a, at, AlignUp(len)) ==> CellIn(m, a) == None
    ensures fixed ==> at == addr
  {
    var size := AlignUp(len);
    var c := Chosen(m, next, addr, size, fixed);
    if fixed {
      var n := UnmapRange(m, addr, size).value;
      UnmapIsFlat(m, addr, size);
      UnmapCell(m, n, addr, size, a);
      MapIntoCell(n, c, size, perms, a);
    } else {
      MapIntoCell(m, c, size, perms, a);
    }
  }

  /**
    When a request is served: it is well-formed, no sum overflows, and the chosen range ends below the top and,
    unless fixed, is free.
   */
  lemma MmapIff(m: Mem, next: u64, addr: u64, len: u64, perms: Permission, fixed: bool, offset: u64)
    ensures var size := AlignUp(len);
            var at := Chosen(m, next, addr, size, fixed).0;
            Mmap(m, next, addr, len, perms, fixed, offset).result.Ok? <==>
            && len != 0 && offset % PAGE_SIZE == 0 && (fixed ==> addr % PAGE_SIZE == 0)
            && SumsFit(m, addr, len, fixed) && at + size < U64 && (fixed || Free(m, at, size))
  {
    if len != 0 && offset % PAGE_SIZE == 0 && SumsFit(m, addr, len, fixed) { PagesIff(m, next, addr, len, perms, fixed); }
  }

  lemma PagesIff(m: Mem, next: u64, addr: u64, len: u64, perms: Permission, fixed: bool)
    requires len != 0 && SumsFit(m, addr, len, fixed)
    ensures var size := AlignUp(len);
            var c := Chosen(m, next, addr, size, fixed);
            MmapPages(m, c, next, size, perms, fixed).result.Ok? <==> c.0 + size < U64 && (fixed || Free(m, c.0, size))
  {
    var size := AlignUp(len);
    var at := Chosen(m, next, addr, size, fixed).0;
    if fixed {
      if UnmapRange(m, addr, size).Ok? {
        UnmapIsFlat(m, addr, size);
        ClearedMaps(m, UnmapRange(m, addr, size).value, addr, size, perms);
      }
    } else {
      MapRegionFlat(m, at, size, perms);
    }
  }

  // ------------------------------------------------------------ the process

  class Process {
    var mem: Mem
    const brkBase: Roundable
    var brk: Roundable
    var mmapNext: u64

    constructor (m: Mem)
      ensures mem == m && brkBase == brk == 0x7000_0000_0000 && mmapNext == 0x7100_0000_0000
    {
      mem, brkBase, brk, mmapNext := m, 0x7000_0000_0000, 0x7000_0000_0000, 0x7100_0000_0000;
    }

    method SetBrk(requested: u64) returns (r: Result<u64, HeapError>)
      modifies `mem, `brk
      ensures Moved(mem, brk, r) == Brk(old(mem), brkBase, old(brk), requested)
    {
      if requested == 0 || requested < brkBase { return Ok(brk); }
      if !Rounds(requested) { return Err(HostOverflow); }
      r := ResizeTo(requested, AlignUp(brk), AlignUp(requested));
    }

    method ResizeTo(requested: Roundable, from: u64, to: u64) returns (r: Result<u64, HeapError>)
      modifies `mem, `brk
      ensures Moved(mem, brk, r) == Resize(old(mem), old(brk), requested, from, to)
    {
      if requested < brk {
        if from > to {
          UnmapIsFlat(mem, to, from - to);
          match UnmapRange(mem, to, from - to) {
            case Err(e) => return Err(Refused(e));
            case Ok(n) => mem := n;
          }
        }
      } else if requested > brk {
        if to > from {
          MapIsFlat(mem, from, to - from, READ_WRITE);
          match MapRegion(mem, from, to - from, READ_WRITE) {
            case Err(e) => return Err(Refused(e));
            case Ok(n) => mem := n;
          }
        }
      }
      brk := requested;
      return Ok(brk);
    }

    method Map(addr: u64, len: u64, perms: Permission, fixed: bool, offset: u64) returns (r: Result<u64, MmapError>)
      modifies `mem, `mmapNext
      ensures Mapping(mem, mmapNext, r) == Mmap(old(mem), old(mmapNext), addr, len, perms, fixed, offset)
    {
      if len == 0 || offset % PAGE_SIZE != 0 { return Err(InvalidArgument); }
      if !Rounds(len) { return Err(NotMapped(HostOverflow)); }
      var size := AlignUp(len);
      var hintIsFree := HintFree(mem, addr, size);
      var address := addr;
      if fixed {
        if addr % PAGE_SIZE != 0 { return Err(InvalidArgument); }
        UnmapIsFlat(mem, addr, size);
        match UnmapRange(mem, addr, size) {
          case Err(e) => return Err(NotMapped(Refused(e)));
          case Ok(n) => mem := n;
        }
      } else if addr == 0 || !hintIsFree {
        if size + PAGE_SIZE >= U64 { return Err(NotMapped(HostOverflow)); }
        address := mmapNext;
        mmapNext := Saturated(mmapNext, size + PAGE_SIZE);
      }
      MapIsFlat(mem, address, size, perms);
      match MapRegion(mem, address, size, perms) {
        case Err(e) => return Err(NotMapped(Refused(e)));
        case Ok(n) => mem := n;
      }
      return Ok(address);
    }
  }
}
