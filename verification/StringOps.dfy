/** Repeated string instructions: stos, movs, scas and cmps over guest memory. */
module StringOps {
  import opened Words
  import opened Regions
  import opened FlatMemory
  import opened Registers

  type ElementSize = n: int | n == 1 || n == 2 || n == 4 || n == 8 witness 1

  function WidthOf(size: ElementSize): Width { 8 * size }

  /** DF chooses the direction. */
  function StepOf(size: ElementSize, df: bool): int { if df then 0 - size else size }

  /** wrapping_add_signed by one element. */
  function Advance(addr: u64, step: int): u64
    requires -8 <= step <= 8
  {
    var n := addr + step;
    if n < 0 then n + U64 else if n >= U64 then n - U64 else n
  }

  /** A pointer after count elements. */
  function Moved(addr: u64, step: int, count: nat): u64
    requires -8 <= step <= 8
    decreases count
  {
    if count == 0 then addr else Moved(Advance(addr, step), step, count - 1)
  }

  /** A pointer moved count times is one wrapped addition away. */
  lemma MovedIsWrapped(addr: u64, step: int, count: nat)
    requires -8 <= step <= 8
    ensures Moved(addr, step, count) == Wrap64(addr + count * step)
  {
    MovedBySpan(addr, step, count);
    SpanIsProduct(step, count);
  }

  lemma {:induction false} MovedBySpan(addr: u64, step: int, count: nat)
    requires -8 <= step <= 8
    ensures Moved(addr, step, count) == Wrap64(addr + Span(step, count))
    decreases count
  {
    if count == 0 {
      ModUnique(addr, U64, 0, addr);
    } else {
      var next := Advance(addr, step);
      MovedBySpan(next, step, count - 1);
      var x := next + Span(step, count - 1);
      var turn := if addr + step < 0 then -1 else if addr + step >= U64 then 1 else 0;
      ModUnique(x, U64, x / U64, x % U64);
      ModUnique(addr + Span(step, count), U64, x / U64 + turn, x % U64);
    }
  }

  /** count steps, added up. */
  function Span(step: int, count: nat): int {
    if count == 0 then 0 else step + Span(step, count - 1)
  }

  lemma {:induction false} SpanIsProduct(step: int, count: nat)
    ensures Span(step, count) == count * step
  {
    if count > 0 {
      SpanIsProduct(step, count - 1);
      assert count * step == step + (count - 1) * step;
    }
  }

  // ------------------------------------------------------------ movs and stos

  /** Memory and pointers after a loop, and the fault that ended it early, if one did. */
  datatype Copied = Copied(mem: Memory, src: u64, dst: u64, fault: Option<MemError>)

  /** Element by element: read, write, advance both pointers. */
  function CopyLoop(mem: Memory, src: u64, dst: u64, size: ElementSize, step: int, count: nat): Copied
    requires Valid(mem) && -8 <= step <= 8
    decreases count
  {
    if count == 0 then Copied(mem, src, dst, None)
    else
      match ReadBytes(mem, src, size)
      case Err(e) => Copied(mem, src, dst, Some(e))
      case Ok(bytes) =>
        match WriteBytes(mem, dst, bytes)
        case Err(e) => Copied(mem, src, dst, Some(e))
        case Ok(next) =>
          LoadIsFlat(mem, dst, bytes);
          CopyLoop(next, Advance(src, step), Advance(dst, step), size, step, count - 1)
  }

  function FillLoop(mem: Memory, dst: u64, bytes: seq<byte>, step: int, count: nat): Copied
    requires Valid(mem) && -8 <= step <= 8
    decreases count
  {
    if count == 0 then Copied(mem, 0, dst, None)
    else
      match WriteBytes(mem, dst, bytes)
      case Err(e) => Copied(mem, 0, dst, Some(e))
      case Ok(next) =>
        LoadIsFlat(mem, dst, bytes);
        FillLoop(next, Advance(dst, step), bytes, step, count - 1)
  }

  lemma {:induction false} CopyKeepsLayout(mem: Memory, src: u64, dst: u64, size: ElementSize, step: int, count: nat)
    requires Valid(mem) && -8 <= step <= 8
    ensures Valid(CopyLoop(mem, src, dst, size, step, count).mem)
    ensures SameLayout(mem, CopyLoop(mem, src, dst, size, step, count).mem)
    decreases count
  {
    if count > 0 && ReadBytes(mem, src, size).Ok? {
      var bytes := ReadBytes(mem, src, size).value;
      if WriteBytes(mem, dst, bytes).Ok? {
        LoadIsFlat(mem, dst, bytes);
        CopyKeepsLayout(WriteBytes(mem, dst, bytes).value, Advance(src, step), Advance(dst, step), size, step, count - 1);
      }
    }
  }

  ghost function ByteAt(m: Space, a: int): byte {
    if a in m then m[a].value else 0
  }

  /** What a flat range holds, byte by byte; unmapped addresses read as zero. */
  ghost function BytesAt(m: Space, addr: int, len: nat): seq<byte> {
    seq<byte>(len, k => ByteAt(m, addr + k))
  }

  lemma HoldsBytesAt(m: Space, addr: int, b: seq<byte>)
    requires Holds(m, addr, b)
    ensures BytesAt(m, addr, |b|) == b
  {
    var c := BytesAt(m, addr, |b|);
    forall k | 0 <= k < |b| ensures c[k] == b[k] {
      assert In(addr + k, addr, |b|);
      assert c[k] == ByteAt(m, addr + k);
    }
  }

  /** The old source bytes arrive at the destination, and nothing else changes. */
  ghost function RangeCopied(m: Space, slo: int, dlo: int, bytes: seq<byte>): Option<Space> {
    if Holds(m, slo, bytes) && Mapped(m, dlo, |bytes|) then Some(FlatStore(m, dlo, bytes)) else None
  }

  /** The reference: copying in flat memory, one element after the other. */
  ghost function FlatCopy(m: Space, src: u64, dst: u64, size: nat, step: int, count: nat): Option<Space>
    requires -8 <= step <= 8
    decreases count
  {
    if count == 0 then Some(m)
    else
      match RangeCopied(m, src, dst, BytesAt(m, src, size))
      case None => None
      case Some(mid) => FlatCopy(mid, Advance(src, step), Advance(dst, step), size, step, count - 1)
  }

  /** One round that succeeds. */
  lemma CopyOne(mem: Memory, src: u64, dst: u64, size: ElementSize)
    requires Valid(mem) && ReadBytes(mem, src, size).Ok? && WriteBytes(mem, dst, ReadBytes(mem, src, size).value).Ok?
    ensures var next := WriteBytes(mem, dst, ReadBytes(mem, src, size).value).value;
            Valid(next) && RangeCopied(Flat(mem), src, dst, BytesAt(Flat(mem), src, size)) == Some(Flat(next))
  {
    var bytes := ReadBytes(mem, src, size).value;
    ReadIsFlat(mem, src, size);
    LoadIsFlat(mem, dst, bytes);
    HoldsBytesAt(Flat(mem), src, bytes);
  }

  lemma FlatCopyStep(m: Space, mid: Space, n: Space, src: u64, dst: u64, size: nat, step: int, count: nat)
    requires -8 <= step <= 8 && count > 0 && RangeCopied(m, src, dst, BytesAt(m, src, size)) == Some(mid)
    requires FlatCopy(mid, Advance(src, step), Advance(dst, step), size, step, count - 1) == Some(n)
    ensures FlatCopy(m, src, dst, size, step, count) == Some(n)
  {
  }

  /** A rep movs that succeeds is element-by-element copying in DF order, overlap or not. */
  lemma {:induction false} CopyIsFlatCopy(mem: Memory, src: u64, dst: u64, size: ElementSize, step: int, count: nat, out: Copied)
    requires Valid(mem) && -8 <= step <= 8 && out.fault.None?
    requires CopyLoop(mem, src, dst, size, step, count) == out
    ensures Valid(out.mem) && FlatCopy(Flat(mem), src, dst, size, step, count) == Some(Flat(out.mem))
    decreases count
  {
    if count > 0 {
      var next := WriteBytes(mem, dst, ReadBytes(mem, src, size).value).value;
      CopyOne(mem, src, dst, size);
      CopyIsFlatCopy(next, Advance(src, step), Advance(dst, step), size, step, count - 1, out);
      FlatCopyStep(Flat(mem), Flat(next), Flat(out.mem), src, dst, size, step, count);
    }
  }

  /** Both pointers move by the number of elements, in the direction of the step. */
  lemma {:induction false} CopyAdvances(mem: Memory, src: u64, dst: u64, size: ElementSize, step: int, count: nat)
    requires Valid(mem) && -8 <= step <= 8 && CopyLoop(mem, src, dst, size, step, count).fault.None?
    ensures CopyLoop(mem, src, dst, size, step, count).src == Moved(src, step, count)
    ensures CopyLoop(mem, src, dst, size, step, count).dst == Moved(dst, step, count)
    decreases count
  {
    if count > 0 {
      var bytes := ReadBytes(mem, src, size).value;
      LoadIsFlat(mem, dst, bytes);
      CopyAdvances(WriteBytes(mem, dst, bytes).value, Advance(src, step), Advance(dst, step), size, step, count - 1);
    }
  }

  /** The lowest address an element loop touches. */
  function Low(base: int, size: int, step: int, total: int): int {
    if step > 0 then base else base - total + size
  }

  /** An element loop over total bytes does not wrap. */
  predicate InWords(base: int, size: int, step: int, total: int) {
    0 <= Low(base, size, step, total) && Low(base, size, step, total) + total < U64
  }

  /** The source and destination of an element loop are apart. */
  predicate Disjoint(src: int, dst: int, size: int, step: int, total: int) {
    RangesApart(Low(src, size, step, total), total, Low(dst, size, step, total), total)
  }

  predicate DisjointRanges(src: int, dst: int, size: int, step: int, total: int) {
    && (step == size || step == 0 - size)
    && InWords(src, size, step, total) && InWords(dst, size, step, total) && Disjoint(src, dst, size, step, total)
  }

  /** A pointer whose rounds from the next on do not wrap did not wrap in this one. */
  lemma NoWrap(addr: u64, size: ElementSize, step: int, count: nat)
    requires count > 1 && (step == size || step == 0 - size) && addr + size < U64
    requires InWords(Advance(addr, step), size, step, Span(size, count - 1))
    ensures InWords(addr, size, step, Span(size, count))
  {
    Shrink(count, size);
    Shrink(count - 1, size);
  }

  lemma ReadInWords(mem: Memory, addr: u64, size: nat)
    requires Valid(mem) && Find(mem, addr, size) >= 0
    ensures addr + size < U64
  {
    assert mem[Find(mem, addr, size)].ContainsRange(addr, size);
  }

  /** The first round of a copy that completes. */
  lemma FirstCopied(mem: Memory, src: u64, dst: u64, size: ElementSize, step: int, count: nat) returns (next: Memory)
    requires Valid(mem) && -8 <= step <= 8 && count > 0 && CopyLoop(mem, src, dst, size, step, count).fault.None?
    ensures src + size < U64 && dst + size < U64 && Valid(next)
    ensures CopyLoop(next, Advance(src, step), Advance(dst, step), size, step, count - 1).fault.None?
  {
    var bytes := ReadBytes(mem, src, size).value;
    next := WriteBytes(mem, dst, bytes).value;
    ReadInWords(mem, src, size);
    ReadInWords(mem, dst, size);
    LoadIsFlat(mem, dst, bytes);
  }

  /** A copy that completes never wraps: no region reaches the last byte of the address space. */
  lemma {:induction false} CopyInWords(mem: Memory, src: u64, dst: u64, size: ElementSize, step: int, count: nat)
    requires Valid(mem) && (step == size || step == 0 - size) && count > 0
    requires CopyLoop(mem, src, dst, size, step, count).fault.None?
    ensures InWords(src, size, step, Span(size, count)) && InWords(dst, size, step, Span(size, count))
    decreases count
  {
    var next := FirstCopied(mem, src, dst, size, step, count);
    if count == 1 {
      Shrink(1, size);
    } else {
      CopyInWords(next, Advance(src, step), Advance(dst, step), size, step, count - 1);
      NoWrap(src, size, step, count);
      NoWrap(dst, size, step, count);
    }
  }

  lemma NextRanges(src: u64, dst: u64, size: nat, step: int, rest: int)
    requires 1 <= size <= 8 && rest >= size && DisjointRanges(src, dst, size, step, size + rest)
    ensures Advance(src, step) == src + step && Advance(dst, step) == dst + step
    ensures 0 <= src + step < U64 && 0 <= dst + step < U64
    ensures DisjointRanges(src + step, dst + step, size, step, rest)
  {
  }

  lemma Shrink(count: nat, size: nat)
    requires 1 <= size && count > 0
    ensures Span(size, count) == size + Span(size, count - 1)
    ensures count == 1 ==> Span(size, count - 1) == 0
    ensures count > 1 ==> Span(size, count - 1) >= size
  {
    if count > 1 { SpanNonNegative(size, count - 2); }
  }

  lemma {:induction false} SpanNonNegative(size: nat, count: nat)
    ensures Span(size, count) >= 0
  {
    if count > 0 { SpanNonNegative(size, count - 1); }
  }

  /** A copied element joined with the copied rest, upwards or downwards. */
  lemma JoinUp(m: Space, mid: Space, n: Space, slo: int, dlo: int, b: seq<byte>, c: seq<byte>)
    requires RangesApart(slo, |b| + |c|, dlo, |b| + |c|)
    requires RangeCopied(m, slo, dlo, b) == Some(mid) && RangeCopied(mid, slo + |b|, dlo + |b|, c) == Some(n)
    ensures RangeCopied(m, slo, dlo, b + c) == Some(n)
  {
    HoldsApart(m, slo + |b|, c, dlo, b);
    HoldsConcat(m, slo, b, c);
    MappedStore(m, dlo + |b|, |c|, dlo, b);
    MappedConcat(m, dlo, |b|, |c|);
    StoreConcat(m, dlo, b, c);
  }

  lemma JoinDown(m: Space, mid: Space, n: Space, slo: int, dlo: int, b: seq<byte>, c: seq<byte>)
    requires RangesApart(slo, |b| + |c|, dlo, |b| + |c|)
    requires RangeCopied(m, slo + |b|, dlo + |b|, c) == Some(mid) && RangeCopied(mid, slo, dlo, b) == Some(n)
    ensures RangeCopied(m, slo, dlo, b + c) == Some(n)
  {
    HoldsApart(m, slo, b, dlo + |b|, c);
    HoldsConcat(m, slo, b, c);
    MappedStore(m, dlo, |b|, dlo + |b|, c);
    MappedConcat(m, dlo, |b|, |c|);
    StoreConcat(m, dlo, b, c);
  }

  lemma Join(m: Space, mid: Space, n: Space, src: u64, dst: u64, size: nat, step: int, first: seq<byte>, rest: seq<byte>)
    returns (bytes: seq<byte>)
    requires 1 <= size && |first| == size && DisjointRanges(src, dst, size, step, size + |rest|)
    requires RangeCopied(m, src, dst, first) == Some(mid)
    requires RangeCopied(mid, Low(src + step, size, step, |rest|), Low(dst + step, size, step, |rest|), rest) == Some(n)
    ensures |bytes| == size + |rest|
    ensures RangeCopied(m, Low(src, size, step, |bytes|), Low(dst, size, step, |bytes|), bytes) == Some(n)
  {
    if step > 0 {
      bytes := first + rest;
      JoinUp(m, mid, n, src, dst, first, rest);
    } else {
      bytes := rest + first;
      JoinDown(m, mid, n, Low(src, size, step, |bytes|), Low(dst, size, step, |bytes|), rest, first);
    }
  }

  lemma CopiedNothing(m: Space, slo: int, dlo: int)
    ensures RangeCopied(m, slo, dlo, []) == Some(m)
  {
    assert FlatStore(m, dlo, []) == m;
  }

  lemma FlatCopyFew(m: Space, n: Space, src: u64, dst: u64, size: nat, step: int, count: nat) returns (bytes: seq<byte>)
    requires 1 <= size <= 8 && (step == size || step == 0 - size) && count <= 1
    requires FlatCopy(m, src, dst, size, step, count) == Some(n)
    ensures |bytes| == Span(size, count)
    ensures RangeCopied(m, Low(src, size, step, |bytes|), Low(dst, size, step, |bytes|), bytes) == Some(n)
  {
    if count == 0 {
      bytes := [];
      CopiedNothing(m, Low(src, size, step, 0), Low(dst, size, step, 0));
    } else {
      bytes := BytesAt(m, src, size);
    }
  }

  lemma FlatCopyUnfold(m: Space, n: Space, src: u64, dst: u64, size: nat, step: int, count: nat) returns (mid: Space)
    requires -8 <= step <= 8 && count > 0 && FlatCopy(m, src, dst, size, step, count) == Some(n)
    ensures RangeCopied(m, src, dst, BytesAt(m, src, size)) == Some(mid)
    ensures FlatCopy(mid, Advance(src, step), Advance(dst, step), size, step, count - 1) == Some(n)
  {
    mid := RangeCopied(m, src, dst, BytesAt(m, src, size)).value;
  }

  lemma {:induction false} FlatCopyDisjoint(m: Space, n: Space, src: u64, dst: u64, size: nat, step: int, count: nat)
    returns (bytes: seq<byte>)
    requires 1 <= size <= 8 && DisjointRanges(src, dst, size, step, Span(size, count))
    requires FlatCopy(m, src, dst, size, step, count) == Some(n)
    ensures |bytes| == Span(size, count)
    ensures RangeCopied(m, Low(src, size, step, |bytes|), Low(dst, size, step, |bytes|), bytes) == Some(n)
    decreases count
  {
    if count <= 1 {
      bytes := FlatCopyFew(m, n, src, dst, size, step, count);
    } else {
      NextDisjoint(src, dst, size, step, count);
      var mid := FlatCopyUnfold(m, n, src, dst, size, step, count);
      var rest := FlatCopyDisjoint(mid, n, src + step, dst + step, size, step, count - 1);
      bytes := JoinRest(m, mid, n, src, dst, size, step, count, rest);
    }
  }

  lemma NextDisjoint(src: u64, dst: u64, size: nat, step: int, count: nat)
    requires 1 <= size <= 8 && count > 1 && DisjointRanges(src, dst, size, step, Span(size, count))
    ensures Advance(src, step) == src + step && Advance(dst, step) == dst + step
    ensures 0 <= src + step < U64 && 0 <= dst + step < U64
    ensures DisjointRanges(src + step, dst + step, size, step, Span(size, count - 1))
  {
    Shrink(count, size);
    NextRanges(src, dst, size, step, Span(size, count - 1));
  }

  lemma JoinRest(m: Space, mid: Space, n: Space, src: u64, dst: u64, size: nat, step: int, count: nat, rest: seq<byte>)
    returns (bytes: seq<byte>)
    requires 1 <= size <= 8 && count > 1 && |rest| == Span(size, count - 1)
    requires DisjointRanges(src, dst, size, step, Span(size, count))
    requires RangeCopied(m, src, dst, BytesAt(m, src, size)) == Some(mid)
    requires RangeCopied(mid, Low(src + step, size, step, |rest|), Low(dst + step, size, step, |rest|), rest) == Some(n)
    ensures |bytes| == Span(size, count)
    ensures RangeCopied(m, Low(src, size, step, |bytes|), Low(dst, size, step, |bytes|), bytes) == Some(n)
  {
    Shrink(count, size);
    bytes := Join(m, mid, n, src, dst, size, step, BytesAt(m, src, size), rest);
  }

  /**
    A rep movs that succeeds on disjoint ranges copies the old source bytes, in either direction,
    keeps the destination's permissions, and changes no other address; its ranges do not wrap.
   */
  lemma CopyDisjoint(mem: Memory, src: u64, dst: u64, size: ElementSize, step: int, count: nat) returns (bytes: seq<byte>)
    requires Valid(mem) && (step == size || step == 0 - size) && Disjoint(src, dst, size, step, Span(size, count))
    requires CopyLoop(mem, src, dst, size, step, count).fault.None?
    ensures count > 0 ==> InWords(src, size, step, Span(size, count)) && InWords(dst, size, step, Span(size, count))
    ensures |bytes| == Span(size, count) && Valid(CopyLoop(mem, src, dst, size, step, count).mem)
    ensures RangeCopied(Flat(mem), Low(src, size, step, |bytes|), Low(dst, size, step, |bytes|), bytes)
            == Some(Flat(CopyLoop(mem, src, dst, size, step, count).mem))
  {
    CopyIsFlatCopy(mem, src, dst, size, step, count, CopyLoop(mem, src, dst, size, step, count));
    var n := Flat(CopyLoop(mem, src, dst, size, step, count).mem);
    if count == 0 {
      bytes := FlatCopyFew(Flat(mem), n, src, dst, size, step, count);
    } else {
      CopyInWords(mem, src, dst, size, step, count);
      bytes := FlatCopyDisjoint(Flat(mem), n, src, dst, size, step, count);
    }
  }

  // ------------------------------------------------------------ stos

  function Repeated(bytes: seq<byte>, count: nat): seq<byte> {
    if count == 0 then [] else bytes + Repeated(bytes, count - 1)
  }

  lemma {:induction false} RepeatedLength(bytes: seq<byte>, count: nat)
    ensures |Repeated(bytes, count)| == Span(|bytes|, count)
    ensures count > 0 ==> Repeated(bytes, count) == Repeated(bytes, count - 1) + bytes
  {
    if count > 1 { RepeatedLength(bytes, count - 1); }
  }

  ghost function FlatFill(m: Space, dst: u64, bytes: seq<byte>, step: int, count: nat): Option<Space>
    requires -8 <= step <= 8
    decreases count
  {
    if count == 0 then Some(m)
    else if Mapped(m, dst, |bytes|) then FlatFill(FlatStore(m, dst, bytes), Advance(dst, step), bytes, step, count - 1)
    else None
  }

  lemma {:induction false} FillIsFlatFill(mem: Memory, dst: u64, bytes: seq<byte>, step: int, count: nat)
    requires Valid(mem) && -8 <= step <= 8 && FillLoop(mem, dst, bytes, step, count).fault.None?
    ensures Valid(FillLoop(mem, dst, bytes, step, count).mem)
    ensures FlatFill(Flat(mem), dst, bytes, step, count) == Some(Flat(FillLoop(mem, dst, bytes, step, count).mem))
    ensures FillLoop(mem, dst, bytes, step, count).dst == Moved(dst, step, count)
    decreases count
  {
    if count > 0 {
      LoadIsFlat(mem, dst, bytes);
      FillIsFlatFill(WriteBytes(mem, dst, bytes).value, Advance(dst, step), bytes, step, count - 1);
    }
  }

  /** A range that does not wrap, in either direction. */
  predicate FillRange(dst: int, size: int, step: int, total: int) {
    (step == size || step == 0 - size) && InWords(dst, size, step, total)
  }

  lemma {:induction false} FillInWords(mem: Memory, dst: u64, bytes: seq<byte>, size: ElementSize, step: int, count: nat)
    requires Valid(mem) && |bytes| == size && (step == size || step == 0 - size) && count > 0
    requires FillLoop(mem, dst, bytes, step, count).fault.None?
    ensures InWords(dst, size, step, Span(size, count))
    decreases count
  {
    ReadInWords(mem, dst, size);
    LoadIsFlat(mem, dst, bytes);
    if count == 1 {
      Shrink(1, size);
    } else {
      FillInWords(WriteBytes(mem, dst, bytes).value, Advance(dst, step), bytes, size, step, count - 1);
      NoWrap(dst, size, step, count);
    }
  }

  lemma FlatFillFew(m: Space, n: Space, dst: u64, bytes: seq<byte>, step: int, count: nat)
    requires 1 <= |bytes| <= 8 && (step == |bytes| || step == 0 - |bytes|) && count <= 1
    requires FlatFill(m, dst, bytes, step, count) == Some(n)
    ensures var lo := Low(dst, |bytes|, step, Span(|bytes|, count));
            && n == FlatStore(m, lo, Repeated(bytes, count))
            && Mapped(m, lo, Span(|bytes|, count))
  {
    if count == 0 {
      assert FlatStore(m, Low(dst, |bytes|, step, 0), []) == m;
    } else {
      assert Repeated(bytes, 1) == bytes + Repeated(bytes, 0) == bytes;
      assert Span(|bytes|, 1) == |bytes| + Span(|bytes|, 0);
    }
  }

  lemma NextFill(dst: u64, size: int, step: int, count: nat)
    requires 1 <= size <= 8 && count > 1 && FillRange(dst, size, step, Span(size, count))
    ensures Advance(dst, step) == dst + step && 0 <= dst + step < U64
    ensures FillRange(dst + step, size, step, Span(size, count - 1))
  {
    SpanNonNegative(size, count - 2);
    assert Span(size, count) == size + Span(size, count - 1) && Span(size, count - 1) == size + Span(size, count - 2);
  }

  lemma {:induction false} FlatFillMeaning(m: Space, n: Space, dst: u64, bytes: seq<byte>, step: int, count: nat)
    requires 1 <= |bytes| <= 8 && FillRange(dst, |bytes|, step, Span(|bytes|, count))
    requires FlatFill(m, dst, bytes, step, count) == Some(n)
    ensures var lo := Low(dst, |bytes|, step, Span(|bytes|, count));
            && n == FlatStore(m, lo, Repeated(bytes, count))
            && Mapped(m, lo, Span(|bytes|, count))
    decreases count
  {
    if count <= 1 {
      FlatFillFew(m, n, dst, bytes, step, count);
    } else {
      NextFill(dst, |bytes|, step, count);
      var mid, d := FlatStore(m, dst, bytes), dst + step;
      FlatFillMeaning(mid, n, d, bytes, step, count - 1);
      FillJoin(m, mid, n, dst, d, bytes, step, count);
    }
  }

  /** A rep stos that succeeds fills the range with the pattern, whichever way it runs, and nothing else. */
  lemma FillMeaning(mem: Memory, dst: u64, bytes: seq<byte>, size: ElementSize, step: int, count: nat)
    requires Valid(mem) && |bytes| == size && (step == size || step == 0 - size)
    requires FillLoop(mem, dst, bytes, step, count).fault.None?
    ensures Valid(FillLoop(mem, dst, bytes, step, count).mem)
    ensures count > 0 ==> InWords(dst, size, step, Span(size, count))
    ensures var lo := Low(dst, |bytes|, step, Span(|bytes|, count));
            && Flat(FillLoop(mem, dst, bytes, step, count).mem) == FlatStore(Flat(mem), lo, Repeated(bytes, count))
            && Mapped(Flat(mem), lo, Span(|bytes|, count))
  {
    FillIsFlatFill(mem, dst, bytes, step, count);
    var n := Flat(FillLoop(mem, dst, bytes, step, count).mem);
    if count == 0 {
      FlatFillFew(Flat(mem), n, dst, bytes, step, count);
    } else {
      FillInWords(mem, dst, bytes, size, step, count);
      FlatFillMeaning(Flat(mem), n, dst, bytes, step, count);
    }
  }

  lemma FillJoin(m: Space, mid: Space, n: Space, dst: int, d: int, bytes: seq<byte>, step: int, count: nat)
    requires count > 0 && d == dst + step && (step == |bytes| || step == 0 - |bytes|) && 1 <= |bytes|
    requires mid == FlatStore(m, dst, bytes) && Mapped(m, dst, |bytes|)
    requires n == FlatStore(mid, Low(d, |bytes|, step, Span(|bytes|, count - 1)), Repeated(bytes, count - 1))
    requires Mapped(mid, Low(d, |bytes|, step, Span(|bytes|, count - 1)), Span(|bytes|, count - 1))
    ensures n == FlatStore(m, Low(dst, |bytes|, step, Span(|bytes|, count)), Repeated(bytes, count))
    ensures Mapped(m, Low(dst, |bytes|, step, Span(|bytes|, count)), Span(|bytes|, count))
  {
    var rest := Repeated(bytes, count - 1);
    RepeatedLength(bytes, count - 1);
    RepeatedLength(bytes, count);
    SpanNonNegative(|bytes|, count - 1);
    if step > 0 {
      StoreConcat(m, dst, bytes, rest);
      MappedStore(m, d, |rest|, dst, bytes);
      MappedConcat(m, dst, |bytes|, |rest|);
    } else {
      var lo := Low(dst, |bytes|, step, Span(|bytes|, count));
      assert lo + |rest| == dst;
      StoreConcat(m, lo, rest, bytes);
      MappedStore(m, lo, |rest|, dst, bytes);
      MappedConcat(m, lo, |rest|, |bytes|);
    }
  }

  // ------------------------------------------------------------ scas and cmps

  datatype Repeat = Once | Repe | Repne

  /** Whether the loop ends after a comparison that left this ZF. */
  predicate Stops(rep: Repeat, zf: bool) {
    match rep
    case Once => true
    case Repe => !zf
    case Repne => zf
  }

  /** The comparands of one step: what the accumulator or source holds against the destination. */
  datatype Comparand = Accumulator(value: u64) | Source(addr: u64)

  function Left(mem: Memory, c: Comparand, size: ElementSize): Result<u64, MemError>
    requires Valid(mem)
  {
    match c
    case Accumulator(v) => Ok(v)
    case Source(addr) =>
      match ReadBytes(mem, addr, size)
      case Ok(bytes) => Ok(WordOf(bytes))
      case Err(e) => Err(e)
  }

  function Right(mem: Memory, addr: u64, size: ElementSize): Result<u64, MemError>
    requires Valid(mem)
  {
    Left(mem, Source(addr), size)
  }

  /** The comparand after k elements. */
  function ComparandAt(c: Comparand, step: int, k: nat): Comparand
    requires -8 <= step <= 8
  {
    match c
    case Accumulator(_) => c
    case Source(addr) => Source(Moved(addr, step, k))
  }

  datatype Pair = Pair(left: u64, right: u64)

  /** The two reads of a round. */
  function ReadPair(mem: Memory, size: ElementSize, left: Comparand, dst: u64): Result<Pair, MemError>
    requires Valid(mem)
  {
    match Left(mem, left, size)
    case Err(e) => Err(e)
    case Ok(l) =>
      match Right(mem, dst, size)
      case Err(e) => Err(e)
      case Ok(r) => Ok(Pair(l, r))
  }

  /** What round k reads: the left comparand and the element at the destination. */
  function PairAt(mem: Memory, size: ElementSize, step: int, left: Comparand, dst: u64, k: nat): Result<Pair, MemError>
    requires Valid(mem) && -8 <= step <= 8
  {
    ReadPair(mem, size, ComparandAt(left, step, k), Moved(dst, step, k))
  }

  function Pairs(mem: Memory, size: ElementSize, step: int, left: Comparand, dst: u64, count: nat): seq<Result<Pair, MemError>>
    requires Valid(mem) && -8 <= step <= 8
  {
    seq(count, k requires k >= 0 => PairAt(mem, size, step, left, dst, k))
  }

  /** How a round sets the flags. */
  type Compare = (Flags, Pair) -> Flags

  /** set_sub_flags at a width. */
  function Comparer(w: Width): Compare {
    (f: Flags, p: Pair) => CmpFlags(f, p.left, p.right, w)
  }

  /** Rounds made, the flags they left, and the fault that ended them, if one did. */
  datatype Scanned = Scanned(rounds: nat, flags: Flags, fault: Option<MemError>)

  /** The loop of execute_scas and execute_cmps from round k on: compare, count down, stop or go on. */
  function ScanLoop(pairs: seq<Result<Pair, MemError>>, compare: Compare, rep: Repeat, k: nat, flags: Flags): (out: Scanned)
    requires k <= |pairs|
    ensures k <= out.rounds <= |pairs|
    decreases |pairs| - k
  {
    if k == |pairs| then Scanned(k, flags, None)
    else
      match pairs[k]
      case Err(e) => Scanned(k, flags, Some(e))
      case Ok(p) =>
        var after := compare(flags, p);
        if Stops(rep, after.zf) then Scanned(k + 1, after, None) else ScanLoop(pairs, compare, rep, k + 1, after)
  }

  predicate Same(p: Pair, w: Width) { Masked(p.left, w) == Masked(p.right, w) }

  /** A round that compares two readable elements and does not end the loop. */
  predicate GoesOn(pair: Result<Pair, MemError>, w: Width, rep: Repeat) {
    pair.Ok? && !Stops(rep, Same(pair.value, w))
  }

  /** The flags are those of comparing this pair alone. */
  predicate FlagsOf(flags: Flags, out: Flags, p: Pair, w: Width) {
    out == CmpFlags(flags, p.left, p.right, w) && out.zf == Same(p, w)
  }

  /** Only df survives a comparison, and comparisons keep it: the last one decides the flags. */
  lemma LastComparisonDecides(f: Flags, p: Pair, q: Pair, w: Width)
    ensures CmpFlags(CmpFlags(f, p.left, p.right, w), q.left, q.right, w) == CmpFlags(f, q.left, q.right, w)
    ensures CmpFlags(f, p.left, p.right, w).zf == Same(p, w)
  {
    CmpConditions(f, p.left, p.right, w);
  }

  /**
    A repe or repne loop compares a run of elements from the start, every one but the last letting it go
    on. It ends without a fault exactly when the last one stops it or exhausts the count, and then the
    flags are those of the last comparison alone, so ZF tells whether those two elements were equal.
    Otherwise the first unreadable pair is the fault.
   */
  lemma {:induction false} ScanMeaning(pairs: seq<Result<Pair, MemError>>, w: Width, rep: Repeat, k: nat, flags: Flags, out: Scanned)
    requires k <= |pairs| && ScanLoop(pairs, Comparer(w), rep, k, flags) == out
    ensures forall j :: k <= j < out.rounds - 1 ==> GoesOn(pairs[j], w, rep)
    ensures out.rounds == k ==> out.flags == flags
    ensures out.rounds > k ==> pairs[out.rounds - 1].Ok? && FlagsOf(flags, out.flags, pairs[out.rounds - 1].value, w)
    ensures out.fault.None? ==>
              out.rounds == |pairs| || (out.rounds > k && !GoesOn(pairs[out.rounds - 1], w, rep))
    ensures out.fault.Some? ==>
              && out.rounds < |pairs| && pairs[out.rounds] == Err(out.fault.value)
              && (out.rounds > k ==> GoesOn(pairs[out.rounds - 1], w, rep))
    decreases |pairs| - k
  {
    if k < |pairs| && pairs[k].Ok? {
      var p := pairs[k].value;
      var after := CmpFlags(flags, p.left, p.right, w);
      LastComparisonDecides(flags, p, p, w);
      if !Stops(rep, after.zf) {
        ScanMeaning(pairs, w, rep, k + 1, after, out);
        if out.rounds > k + 1 {
          LastComparisonDecides(flags, p, pairs[out.rounds - 1].value, w);
        }
      }
    }
  }

  /** A scan over memory: the pointers move by the rounds made. */
  datatype MemoryScan = MemoryScan(left: Comparand, dst: u64, scan: Scanned)

  function ScanMemory(mem: Memory, size: ElementSize, step: int, left: Comparand, dst: u64, count: nat,
                      compare: Compare, rep: Repeat, flags: Flags): (r: MemoryScan)
    requires Valid(mem) && -8 <= step <= 8
    ensures r.scan.rounds <= count
  {
    var out := ScanLoop(Pairs(mem, size, step, left, dst, count), compare, rep, 0, flags);
    MemoryScan(ComparandAt(left, step, out.rounds), Moved(dst, step, out.rounds), out)
  }
}
