/** Loading PT_LOAD segments: page-rounded mappings filled from the file. */
module Segments {
  import opened Words
  import opened Regions
  import opened FlatMemory

  datatype Header = Header(load: bool, perms: Permission, offset: u64, vaddr: u64, fileSize: u64, memSize: u64)

  datatype ElfError = InvalidLoadSegment | SegmentOutOfBounds

  /** validate_load_segment. */
  function Validate(len: nat, h: Header): Result<(), ElfError> {
    if h.memSize < h.fileSize then Err(InvalidLoadSegment)
    else if h.offset + h.fileSize >= U64 then Err(SegmentOutOfBounds)
    else if h.offset + h.fileSize > len then Err(SegmentOutOfBounds)
    else Ok(())
  }

  /** What parse accepts: every load header is valid. */
  predicate Accepted(len: nat, hs: seq<Header>) {
    forall k :: 0 <= k < |hs| ==> hs[k].load ==> Validate(len, hs[k]).Ok?
  }

  function AlignDown(v: int): int { v - v % PAGE_SIZE }

  function AlignUp(v: int): int { AlignDown(v + PAGE_SIZE - 1) }

  /** Guest address, first mapped page and end of the last one. */
  function Guest(h: Header, bias: u64): int { h.vaddr + bias }

  function First(h: Header, bias: u64): int { AlignDown(Guest(h, bias)) }

  function Last(h: Header, bias: u64): int { AlignUp(Guest(h, bias) + h.memSize) }

  /** A refused mapping, or an overflow of the loader's own unchecked additions. */
  datatype SegmentError = Refused(cause: MemError) | HostOverflow

  /** What load_segment is going to do: fail on overflow, or map pages and fill them from the file. */
  datatype Plan =
    | Fails(error: SegmentError)
    | Pages(first: int, last: int, guest: int, perms: Permission, data: seq<byte>)
  {
    predicate Ok() {
      Pages? ==> 0 <= first <= guest && guest + |data| <= last < U64
    }

    predicate Has(a: int) { Pages? && first <= a < last }

    /** What an address of the pages holds: file bytes where there are any, zero elsewhere. */
    function CellAt(a: int): Cell
      requires Pages?
    {
      Cell(if guest <= a < guest + |data| then data[a - guest] else 0, perms)
    }
  }

  type GoodPlan = p: Plan | p.Ok() witness Fails(HostOverflow)

  /** The plan of an accepted header; its file slice is in range. */
  function PlanOf(bytes: seq<byte>, h: Header, bias: u64): GoodPlan
    requires Validate(|bytes|, h).Ok?
  {
    var guest := Guest(h, bias);
    if guest >= U64 then Fails(HostOverflow)
    else if guest + h.memSize >= U64 then Fails(Refused(AddressOverflow(guest, h.memSize)))
    else if guest + h.memSize + PAGE_SIZE - 1 >= U64 then Fails(HostOverflow)
    else Pages(First(h, bias), Last(h, bias), guest, h.perms, bytes[h.offset..h.offset + h.fileSize])
  }

  /** map_with_data: the mapping stays when the copy fails. */
  function MapWithData(m: Mem, base: u64, size: u64, perms: Permission, at: u64, data: seq<byte>): Result<Mem, MemError> {
    match MapRegion(m, base, size, perms)
    case Err(e) => Err(e)
    case Ok(n) =>
      MapIsFlat(m, base, size, perms);
      match LoadBytes(n, at, data)
      case Err(e) => Err(e)
      case Ok(t) => LoadIsFlat(n, at, data); Ok(t)
  }

  /** load_segment. */
  function LoadSegment(m: Mem, p: GoodPlan): Result<Mem, SegmentError> {
    match p
    case Fails(e) => Err(e)
    case Pages(first, last, guest, perms, data) =>
      match MapWithData(m, first, last - first, perms, guest, data)
      case Err(e) => Err(Refused(e))
      case Ok(n) => Ok(n)
  }

  // ------------------------------------------------------------ one segment

  /** The copy into a fresh mapping always fits. */
  lemma CopyFits(m: Mem, base: u64, size: u64, perms: Permission, at: u64, data: seq<byte>)
    requires MapRegion(m, base, size, perms).Ok? && base <= at && at + |data| <= base + size
    ensures Valid(MapRegion(m, base, size, perms).value) && LoadBytes(MapRegion(m, base, size, perms).value, at, data).Ok?
  {
    MapRegionFlat(m, base, size, perms);
    var n := MapRegion(m, base, size, perms).value;
    var i := Find(n, base, size);
    assert n[i].ContainsRange(at, |data|);
  }

  /** A mapping with data succeeds exactly on a free non-empty range. */
  lemma MapWithDataFlat(m: Mem, base: u64, size: u64, perms: Permission, at: u64, data: seq<byte>)
    requires base <= at && at + |data| <= base + size && base + size < U64
    ensures MapWithData(m, base, size, perms, at, data).Ok? <==> size > 0 && Free(m, base, size)
    ensures MapWithData(m, base, size, perms, at, data).Ok? ==>
              Flat(MapWithData(m, base, size, perms, at, data).value) == FlatStore(FlatMap(Flat(m), base, size, perms), at, data)
  {
    MapRegionFlat(m, base, size, perms);
    if MapRegion(m, base, size, perms).Ok? {
      CopyFits(m, base, size, perms, at, data);
      MapIsFlat(m, base, size, perms);
      LoadIsFlat(MapRegion(m, base, size, perms).value, at, data);
    }
  }

  /** The cell a store into a fresh mapping leaves at an address. */
  lemma MappedCell(m: Space, base: int, size: int, perms: Permission, at: int, data: seq<byte>, a: int)
    requires base <= at && at + |data| <= base + size
    ensures var n := FlatStore(FlatMap(m, base, size, perms), at, data);
            if In(a, base, size) then a in n && n[a] == Cell(if In(a, at, |data|) then data[a - at] else 0, perms)
            else (a in n <==> a in m) && (a in m ==> n[a] == m[a])
  {
  }

  /** A segment loads exactly when its pages are not empty and free; the copy never fails. */
  lemma LoadSegmentIff(m: Mem, p: GoodPlan)
    ensures LoadSegment(m, p).Ok? <==> p.Pages? && p.first < p.last && Free(m, p.first, p.last - p.first)
  {
    if p.Pages? {
      var base, size := p.first, p.last - p.first;
      MapWithDataFlat(m, base, size, p.perms, p.guest, p.data);
      assert LoadSegment(m, p).Ok? <==> MapWithData(m, base, size, p.perms, p.guest, p.data).Ok?;
    }
  }

  /** Each address after a load: the segment's cell in its pages, unchanged outside. */
  lemma LoadSegmentAt(m: Mem, n: Mem, p: GoodPlan, a: int)
    requires LoadSegment(m, p) == Ok(n)
    ensures CellLoaded(m, n, p, a)
  {
    LoadSegmentFlat(m, n, p);
    PageCell(Flat(m), Flat(n), p, a);
    FreePage(m, p, a);
  }

  /** A page and what is around it, in flat spaces. */
  lemma PageCell(s: Space, t: Space, p: GoodPlan, a: int)
    requires p.Pages? && t == FlatStore(FlatMap(s, p.first, p.last - p.first, p.perms), p.guest, p.data)
    ensures p.Has(a) ==> a in t && t[a] == p.CellAt(a)
    ensures !p.Has(a) ==> (a in t <==> a in s) && (a in s ==> t[a] == s[a])
  {
    MappedCell(s, p.first, p.last - p.first, p.perms, p.guest, p.data, a);
    assert In(a, p.first, p.last - p.first) <==> p.Has(a);
  }

  lemma FreePage(m: Mem, p: GoodPlan, a: int)
    requires p.Pages? && Free(m, p.first, p.last - p.first)
    ensures p.Has(a) ==> a !in Flat(m)
  {
    FlatHas(m, a);
    assert p.Has(a) ==> In(a, p.first, p.last - p.first);
  }

  lemma LoadSegmentFlat(m: Mem, n: Mem, p: GoodPlan)
    requires LoadSegment(m, p) == Ok(n)
    ensures p.Pages? && Free(m, p.first, p.last - p.first)
    ensures Flat(n) == FlatStore(FlatMap(Flat(m), p.first, p.last - p.first, p.perms), p.guest, p.data)
  {
    var base, size := p.first, p.last - p.first;
    MapWithDataFlat(m, base, size, p.perms, p.guest, p.data);
    assert MapWithData(m, base, size, p.perms, p.guest, p.data) == Ok(n);
  }

  // ------------------------------------------------------------ all segments

  type Loader = (Mem, GoodPlan) -> Result<Mem, SegmentError>

  /** A loader that changes exactly the cells of the pages it is given. */
  ghost predicate LoadsPages(load: Loader) {
    forall m, p, n, a :: LoadsTo(load, m, p, n) ==> CellLoaded(m, n, p, a)
  }

  /** One address: the page's cell where the page is, which was free, and unchanged elsewhere. */
  ghost predicate CellLoaded(m: Mem, n: Mem, p: GoodPlan, a: int) {
    && CellIn(n, a) == (if p.Has(a) then Some(p.CellAt(a)) else CellIn(m, a))
    && (p.Has(a) ==> CellIn(m, a) == None)
  }

  predicate LoadsTo(load: Loader, m: Mem, p: GoodPlan, n: Mem) { load(m, p) == Ok(n) }

  lemma SegmentsLoadPages()
    ensures LoadsPages(LoadSegment)
  {
    forall m, p, n, a | LoadsTo(LoadSegment, m, p, n) ensures CellLoaded(m, n, p, a) { LoadSegmentAt(m, n, p, a); }
  }

  /** Segments in program order. */
  function LoadEach(load: Loader, m: Mem, ps: seq<GoodPlan>): Result<Mem, SegmentError>
    decreases |ps|
  {
    if ps == [] then Ok(m)
    else
      match LoadEach(load, m, ps[..|ps| - 1])
      case Err(e) => Err(e)
      case Ok(n) => load(n, ps[|ps| - 1])
  }

  function LoadAll(m: Mem, ps: seq<GoodPlan>): Result<Mem, SegmentError> { LoadEach(LoadSegment, m, ps) }

  /** Some segment's pages hold an address. */
  predicate Covered(ps: seq<GoodPlan>, a: int) { exists k :: 0 <= k < |ps| && ps[k].Has(a) }

  /** The memory before the last segment, and what that did at an address. */
  lemma LastLoaded(load: Loader, m: Mem, n: Mem, ps: seq<GoodPlan>, a: int) returns (mid: Mem)
    requires LoadsPages(load) && |ps| > 0 && LoadEach(load, m, ps) == Ok(n)
    ensures LoadEach(load, m, ps[..|ps| - 1]) == Ok(mid) && CellLoaded(mid, n, ps[|ps| - 1], a)
  {
    mid := LoadEach(load, m, ps[..|ps| - 1]).value;
    assert LoadsTo(load, mid, ps[|ps| - 1], n);
  }

  /**
    After a successful load every address of a segment's pages, free before, holds that segment's cell:
    later segments left it alone.
   */
  lemma {:induction false} LoadedAt(load: Loader, m: Mem, n: Mem, ps: seq<GoodPlan>, k: nat, a: int)
    requires LoadsPages(load) && LoadEach(load, m, ps) == Ok(n) && k < |ps| && ps[k].Has(a)
    ensures CellIn(m, a) == None && CellIn(n, a) == Some(ps[k].CellAt(a))
    decreases |ps|
  {
    var l := |ps| - 1;
    var mid := LastLoaded(load, m, n, ps, a);
    if k < l {
      LoadedAt(load, m, mid, ps[..l], k, a);
      StaysLoaded(mid, n, ps[l], a);
    } else {
      WasFree(mid, n, ps[k], a);
      FreeBefore(load, m, mid, ps[..l], a);
    }
  }

  lemma WasFree(mid: Mem, n: Mem, p: GoodPlan, a: int)
    requires CellLoaded(mid, n, p, a) && p.Has(a)
    ensures CellIn(mid, a) == None && CellIn(n, a) == Some(p.CellAt(a))
  {
  }

  lemma StaysLoaded(mid: Mem, n: Mem, p: GoodPlan, a: int)
    requires CellLoaded(mid, n, p, a) && CellIn(mid, a).Some?
    ensures CellIn(n, a) == CellIn(mid, a)
  {
  }

  /** An address that is free after some loads was free before them. */
  lemma {:induction false} FreeBefore(load: Loader, m: Mem, n: Mem, ps: seq<GoodPlan>, a: int)
    requires LoadsPages(load) && LoadEach(load, m, ps) == Ok(n) && CellIn(n, a) == None
    ensures CellIn(m, a) == None
    decreases |ps|
  {
    if ps != [] {
      var mid := LastLoaded(load, m, n, ps, a);
      FreeBefore(load, m, mid, ps[..|ps| - 1], a);
    }
  }

  /** Every other address is as before. */
  lemma {:induction false} UntouchedAt(load: Loader, m: Mem, n: Mem, ps: seq<GoodPlan>, a: int)
    requires LoadsPages(load) && LoadEach(load, m, ps) == Ok(n) && !Covered(ps, a)
    ensures CellIn(n, a) == CellIn(m, a)
    decreases |ps|
  {
    if ps != [] {
      var l := |ps| - 1;
      var mid := LastLoaded(load, m, n, ps, a);
      assert !ps[l].Has(a) && !Covered(ps[..l], a);
      UntouchedAt(load, m, mid, ps[..l], a);
    }
  }

  /** Non-empty pages, free before and disjoint from each other. */
  ghost predicate Loadable(m: Mem, ps: seq<GoodPlan>) {
    && (forall k :: 0 <= k < |ps| ==> ps[k].Pages? && ps[k].first < ps[k].last)
    && (forall k, a :: 0 <= k < |ps| && ps[k].Has(a) ==> CellIn(m, a) == None)
    && (forall j, k, a :: 0 <= j < k < |ps| && ps[k].Has(a) ==> !ps[j].Has(a))
  }

  /** The last segment loads exactly when its pages are free in m and apart from the earlier ones. */
  ghost predicate LastFits(m: Mem, ps: seq<GoodPlan>)
    requires |ps| > 0
  {
    var p, front := ps[|ps| - 1], ps[..|ps| - 1];
    p.Pages? && p.first < p.last && forall a :: p.Has(a) ==> CellIn(m, a) == None && !Covered(front, a)
  }

  lemma LastFitsIff(m: Mem, mid: Mem, ps: seq<GoodPlan>)
    requires |ps| > 0 && LoadAll(m, ps[..|ps| - 1]) == Ok(mid)
    ensures LoadSegment(mid, ps[|ps| - 1]).Ok? <==> LastFits(m, ps)
  {
    var p, front := ps[|ps| - 1], ps[..|ps| - 1];
    LoadSegmentIff(mid, p);
    SegmentsLoadPages();
    forall a | p.Has(a) ensures At(mid, a).None? <==> CellIn(m, a) == None && !Covered(front, a) {
      FlatHas(mid, a);
      if Covered(front, a) {
        var k :| 0 <= k < |front| && front[k].Has(a);
        LoadedAt(LoadSegment, m, mid, front, k, a);
      } else {
        UntouchedAt(LoadSegment, m, mid, front, a);
      }
    }
    if p.Pages? { FreePages(mid, p); }
  }

  lemma FreePages(m: Mem, p: GoodPlan)
    requires p.Pages?
    ensures Free(m, p.first, p.last - p.first) <==> forall a :: p.Has(a) ==> At(m, a).None?
  {
    forall a ensures In(a, p.first, p.last - p.first) <==> p.Has(a) {}
  }

  lemma LoadableIff(m: Mem, ps: seq<GoodPlan>)
    requires |ps| > 0
    ensures Loadable(m, ps) <==> Loadable(m, ps[..|ps| - 1]) && LastFits(m, ps)
  {
    var l, front := |ps| - 1, ps[..|ps| - 1];
    if Loadable(m, ps) {
      forall a | ps[l].Has(a) ensures CellIn(m, a) == None && !Covered(front, a) {
        assert forall j :: 0 <= j < l ==> !ps[j].Has(a);
      }
    }
    if Loadable(m, front) && LastFits(m, ps) {
      forall j, k, a | 0 <= j < k < |ps| && ps[k].Has(a) ensures !ps[j].Has(a) {
        assert front[j] == ps[j];
        if k < l { assert front[k].Has(a); } else { assert !Covered(front, a); }
      }
    }
  }

  /** A list of segments loads exactly when all their pages are non-empty, free and disjoint. */
  lemma {:induction false} LoadAllIff(m: Mem, ps: seq<GoodPlan>)
    ensures LoadAll(m, ps).Ok? <==> Loadable(m, ps)
    decreases |ps|
  {
    if ps != [] {
      var front := ps[..|ps| - 1];
      LoadAllIff(m, front);
      LoadableIff(m, ps);
      if LoadAll(m, front).Ok? { LastFitsIff(m, LoadAll(m, front).value, ps); }
    }
  }

  // ------------------------------------------------------------ from headers

  /** The plans of the load headers, in program order. */
  function PlansOf(bytes: seq<byte>, hs: seq<Header>, bias: u64): seq<GoodPlan>
    requires Accepted(|bytes|, hs)
  {
    if hs == [] then []
    else
      var h := hs[|hs| - 1];
      PlansOf(bytes, hs[..|hs| - 1], bias) + PlanIf(bytes, h, bias)
  }

  function PlanIf(bytes: seq<byte>, h: Header, bias: u64): seq<GoodPlan>
    requires h.load ==> Validate(|bytes|, h).Ok?
  {
    if h.load then [PlanOf(bytes, h, bias)] else []
  }

  lemma {:induction false} PlanIndex(bytes: seq<byte>, hs: seq<Header>, bias: u64, k: nat) returns (i: nat)
    requires Accepted(|bytes|, hs) && k < |hs| && hs[k].load
    ensures i < |PlansOf(bytes, hs, bias)| && PlansOf(bytes, hs, bias)[i] == PlanOf(bytes, hs[k], bias)
    decreases |hs|
  {
    var l := |hs| - 1;
    if k == l { i := |PlansOf(bytes, hs[..l], bias)|; } else { i := PlanIndex(bytes, hs[..l], bias, k); }
  }

  lemma {:induction false} LoadedPages(m: Mem, n: Mem, ps: seq<GoodPlan>, k: nat)
    requires LoadAll(m, ps) == Ok(n) && k < |ps|
    ensures ps[k].Pages?
    decreases |ps|
  {
    if k < |ps| - 1 { LoadedPages(m, LoadAll(m, ps[..|ps| - 1]).value, ps[..|ps| - 1], k); }
  }

  /** The byte of a header's pages at an address: file bytes from vaddr + bias on, zeros around them. */
  function HeaderByte(bytes: seq<byte>, h: Header, bias: u64, a: int): byte
    requires Validate(|bytes|, h).Ok?
  {
    var j := a - (h.vaddr + bias);
    if 0 <= j < h.fileSize then bytes[h.offset + j] else 0
  }

  lemma PlanHas(bytes: seq<byte>, h: Header, bias: u64, a: int)
    requires Validate(|bytes|, h).Ok? && PlanOf(bytes, h, bias).Pages? && First(h, bias) <= a < Last(h, bias)
    ensures PlanOf(bytes, h, bias).Has(a) && PlanOf(bytes, h, bias).CellAt(a) == Cell(HeaderByte(bytes, h, bias, a), h.perms)
  {
  }

  /** After a successful load the pages of every load header hold its file bytes, zeros and permissions. */
  lemma HeaderLoaded(m: Mem, n: Mem, bytes: seq<byte>, hs: seq<Header>, bias: u64, k: nat, a: int)
    requires Accepted(|bytes|, hs) && LoadAll(m, PlansOf(bytes, hs, bias)) == Ok(n)
    requires k < |hs| && hs[k].load && First(hs[k], bias) <= a < Last(hs[k], bias)
    ensures CellIn(n, a) == Some(Cell(HeaderByte(bytes, hs[k], bias, a), hs[k].perms))
  {
    var i := PlanIndex(bytes, hs, bias, k);
    LoadedPages(m, n, PlansOf(bytes, hs, bias), i);
    PlanHas(bytes, hs[k], bias, a);
    SegmentsLoadPages();
    LoadedAt(LoadSegment, m, n, PlansOf(bytes, hs, bias), i, a);
  }

  // ------------------------------------------------------------ the loop

  datatype LoadFailure = NoLoadSegments | Failed(cause: SegmentError)

  lemma {:induction false} FailureStays(m: Mem, ps: seq<GoodPlan>, k: nat)
    requires k <= |ps| && LoadAll(m, ps[..k]).Err?
    ensures LoadAll(m, ps) == LoadAll(m, ps[..k])
    decreases |ps|
  {
    if k == |ps| {
      assert ps[..k] == ps;
    } else {
      assert ps[..|ps| - 1][..k] == ps[..k];
      FailureStays(m, ps[..|ps| - 1], k);
    }
  }

  lemma {:induction false} PlansPrefix(bytes: seq<byte>, hs: seq<Header>, bias: u64, k: nat)
    requires Accepted(|bytes|, hs) && k <= |hs|
    ensures Accepted(|bytes|, hs[..k]) && PlansOf(bytes, hs[..k], bias) <= PlansOf(bytes, hs, bias)
    decreases |hs|
  {
    if k == |hs| {
      assert hs[..k] == hs;
    } else {
      assert hs[..|hs| - 1][..k] == hs[..k];
      PlansPrefix(bytes, hs[..|hs| - 1], bias, k);
    }
  }

  /** A failure among the first k headers fails the whole list. */
  lemma HeaderFails(m: Mem, bytes: seq<byte>, hs: seq<Header>, bias: u64, k: nat, e: SegmentError)
    requires k <= |hs| && Accepted(|bytes|, hs) && Accepted(|bytes|, hs[..k]) && LoadAll(m, PlansOf(bytes, hs[..k], bias)) == Err(e)
    ensures LoadAll(m, PlansOf(bytes, hs, bias)) == Err(e)
  {
    PlansPrefix(bytes, hs, bias, k);
    var ps, j := PlansOf(bytes, hs, bias), |PlansOf(bytes, hs[..k], bias)|;
    assert ps[..j] == PlansOf(bytes, hs[..k], bias);
    FailureStays(m, ps, j);
  }

  /** One more header. */
  lemma PlansMore(bytes: seq<byte>, hs: seq<Header>, bias: u64, k: nat)
    requires Accepted(|bytes|, hs) && k < |hs|
    ensures Accepted(|bytes|, hs[..k]) && Accepted(|bytes|, hs[..k + 1])
    ensures PlansOf(bytes, hs[..k + 1], bias) == PlansOf(bytes, hs[..k], bias) + PlanIf(bytes, hs[k], bias)
  {
    assert hs[..k + 1][..k] == hs[..k];
  }

  lemma LoadMore(m: Mem, ps: seq<GoodPlan>, p: GoodPlan, n: Mem)
    requires LoadAll(m, ps) == Ok(n)
    ensures LoadAll(m, ps + [p]) == LoadSegment(n, p)
  {
    assert (ps + [p])[..|ps|] == ps;
  }

  /** load_segment: the additions, then the mapping and the copy of the file slice. */
  method LoadHeader(memory: Mem, bytes: seq<byte>, h: Header, bias: u64) returns (r: Result<Mem, SegmentError>)
    requires Validate(|bytes|, h).Ok?
    ensures r == LoadSegment(memory, PlanOf(bytes, h, bias))
  {
    if h.vaddr + bias >= U64 { return Err(HostOverflow); }
    var guest: u64 := h.vaddr + bias;
    var mapStart := AlignDown(guest);
    if h.vaddr + h.memSize + bias >= U64 { return Err(Refused(AddressOverflow(guest, h.memSize))); }
    var segmentEnd := h.vaddr + h.memSize + bias;
    if segmentEnd + PAGE_SIZE - 1 >= U64 { return Err(HostOverflow); }
    var mapEnd, data := AlignUp(segmentEnd), bytes[h.offset..h.offset + h.fileSize];
    assert PlanOf(bytes, h, bias) == Pages(mapStart, mapEnd, guest, h.perms, data);
    var n := MapWithData(memory, mapStart, mapEnd - mapStart, h.perms, guest, data);
    if n.Err? { return Err(Refused(n.error)); }
    return Ok(n.value);
  }

  /** A load header is loaded, another one passed over. */
  method LoadNext(memory: Mem, bytes: seq<byte>, h: Header, bias: u64, ghost start: Mem, ghost ps: seq<GoodPlan>)
    returns (r: Result<Mem, SegmentError>)
    requires (h.load ==> Validate(|bytes|, h).Ok?) && LoadAll(start, ps) == Ok(memory)
    ensures r == LoadAll(start, ps + PlanIf(bytes, h, bias))
  {
    if !h.load {
      assert ps + [] == ps;
      return Ok(memory);
    }
    LoadMore(start, ps, PlanOf(bytes, h, bias), memory);
    r := LoadHeader(memory, bytes, h, bias);
  }

  /** The loop over the headers of a file, the program's or its interpreter's. */
  method LoadHeaders(start: Mem, bytes: seq<byte>, hs: seq<Header>, bias: u64)
    returns (r: Result<Mem, SegmentError>, hasLoad: bool)
    requires Accepted(|bytes|, hs)
    ensures r == LoadAll(start, PlansOf(bytes, hs, bias))
    ensures r.Ok? ==> hasLoad == (PlansOf(bytes, hs, bias) != [])
  {
    var memory, k := start, 0;
    ghost var ps: seq<GoodPlan> := [];
    hasLoad := false;
    while k < |hs|
      invariant 0 <= k <= |hs| && Accepted(|bytes|, hs[..k]) && ps == PlansOf(bytes, hs[..k], bias)
      invariant hasLoad == (ps != []) && LoadAll(start, ps) == Ok(memory)
    {
      r := LoadNext(memory, bytes, hs[k], bias, start, ps);
      PlansMore(bytes, hs, bias, k);
      if r.Err? {
        HeaderFails(start, bytes, hs, bias, k + 1, r.error);
        return;
      }
      memory, hasLoad, ps, k := r.value, hasLoad || hs[k].load, ps + PlanIf(bytes, hs[k], bias), k + 1;
    }
    assert hs[..k] == hs;
    return Ok(memory), hasLoad;
  }

  /** The loader's first part: all load segments; a file without any is refused. */
  method LoadImage(bytes: seq<byte>, hs: seq<Header>, bias: u64) returns (r: Result<Mem, LoadFailure>)
    requires Accepted(|bytes|, hs)
    ensures match LoadAll([], PlansOf(bytes, hs, bias))
            case Err(e) => r == Err(Failed(e))
            case Ok(n) => r == if PlansOf(bytes, hs, bias) != [] then Ok(n) else Err(NoLoadSegments)
  {
    var loaded, hasLoad := LoadHeaders([], bytes, hs, bias);
    if loaded.Err? { return Err(Failed(loaded.error)); }
    return if hasLoad then Ok(loaded.value) else Err(NoLoadSegments);
  }
}
