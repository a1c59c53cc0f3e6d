/**
  Guest memory as a list of regions (the values of MemoryMap), its operations as
  functions, and what each of them does to the flat address space.
 */
module Regions {
  import opened Words

  datatype Permission = Permission(read: bool, write: bool, execute: bool) {
    /** Bit-set inclusion: every permission asked for is granted. */
    predicate Contains(required: Permission) {
      (required.read ==> read) && (required.write ==> write) && (required.execute ==> execute)
    }
  }

  const READ := Permission(true, false, false)
  const WRITE := Permission(false, true, false)
  const EXECUTE := Permission(false, false, true)
  const READ_WRITE := Permission(true, true, false)

  datatype MemError =
    | OverlappingMapping(base: int, size: int)
    | Unmapped(addr: int, usize: int)
    | Denied(at: int, length: int, required: Permission)
    | AddressOverflow(base: int, size: int)
    | EmptyMapping

  datatype Region = Region(base: int, size: int, perms: Permission, data: seq<byte>) {
    function End(): int { base + size }

    predicate Ok() {
      0 <= base && 0 < size && base + size < U64 && |data| == size
    }

    /** contains_range: the checked addition must not overflow. */
    predicate ContainsRange(addr: int, len: int) {
      addr + len < U64 && base <= addr && addr + len <= base + size
    }

    predicate Has(a: int) { base <= a < base + size }
  }

  type Memory = seq<Region>

  /** Sorted, disjoint, non-empty, non-overflowing regions whose data fills them. */
  predicate Valid(rs: Memory) {
    && (forall i :: 0 <= i < |rs| ==> rs[i].Ok())
    && (forall i, j :: 0 <= i < j < |rs| ==> rs[i].End() <= rs[j].base)
  }

  type Mem = m: Memory | Valid(m) witness []

  datatype Cell = Cell(value: byte, perms: Permission)

  function FindFrom(rs: Memory, k: nat, addr: int, len: int): (r: int)
    requires k <= |rs|
    ensures r == -1 || k <= r < |rs|
    ensures r >= 0 ==> rs[r].ContainsRange(addr, len)
    ensures forall j :: k <= j < (if r >= 0 then r else |rs|) ==> !rs[j].ContainsRange(addr, len)
    decreases |rs| - k
  {
    if k == |rs| then -1
    else if rs[k].ContainsRange(addr, len) then k
    else FindFrom(rs, k + 1, addr, len)
  }

  /** find_index: the first region that holds the whole range, or -1. */
  function Find(rs: Memory, addr: int, len: int): (r: int)
    ensures -1 <= r < |rs|
    ensures r >= 0 ==> rs[r].ContainsRange(addr, len)
    ensures forall j :: 0 <= j < (if r >= 0 then r else |rs|) ==> !rs[j].ContainsRange(addr, len)
  {
    FindFrom(rs, 0, addr, len)
  }

  /** The flat view: what one address holds, if it is mapped. */
  function At(rs: Memory, a: int): Option<Cell>
    requires Valid(rs)
  {
    var i := Find(rs, a, 1);
    if i < 0 then None else Some(Cell(rs[i].data[a - rs[i].base], rs[i].perms))
  }

  /** The address space as a finite map. */
  ghost function Flat(rs: Memory): map<int, Cell>
    requires Valid(rs)
  {
    map a | 0 <= a < U64 && At(rs, a).Some? :: At(rs, a).value
  }

  lemma AtMember(rs: Memory, r: Region, a: int)
    requires Valid(rs) && r in rs && r.Has(a)
    ensures At(rs, a) == Some(Cell(r.data[a - r.base], r.perms))
  {
    var i :| 0 <= i < |rs| && rs[i] == r;
    assert rs[i].ContainsRange(a, 1);
    var f := Find(rs, a, 1);
    assert f >= 0;
    assert f <= i;
  }

  lemma AtNone(rs: Memory, a: int)
    requires Valid(rs)
    ensures At(rs, a).None? <==> forall r :: r in rs ==> !r.Has(a)
    ensures At(rs, a).Some? ==> exists r :: r in rs && r.Has(a)
  {
    var f := Find(rs, a, 1);
    if f >= 0 {
      assert rs[f] in rs && rs[f].Has(a);
    } else {
      forall r | r in rs ensures !r.Has(a) {
        var i :| 0 <= i < |rs| && rs[i] == r;
        assert !rs[i].ContainsRange(a, 1);
      }
    }
  }

  // ---------------------------------------------------------------- sorting

  predicate SortedByBase(rs: Memory) {
    forall i, j :: 0 <= i < j < |rs| ==> rs[i].base <= rs[j].base
  }

  /** Where a new region goes among the first k: after the last base not above its own. */
  function InsertPos(rs: Memory, r: Region, k: nat): (p: nat)
    requires k <= |rs|
    ensures p <= k
    ensures forall j :: p <= j < k ==> rs[j].base > r.base
    ensures p > 0 ==> rs[p - 1].base <= r.base
  {
    if k == 0 || rs[k - 1].base <= r.base then k else InsertPos(rs, r, k - 1)
  }

  function InsertByBase(rs: Memory, r: Region): Memory {
    var p := InsertPos(rs, r, |rs|);
    rs[..p] + [r] + rs[p..]
  }

  /** sort_by_key on the base: a stable insertion sort. */
  function SortByBase(rs: Memory): Memory {
    if rs == [] then []
    else InsertByBase(SortByBase(rs[..|rs| - 1]), rs[|rs| - 1])
  }

  /** MemoryMap::push: append, then sort. */
  function Push(rs: Memory, r: Region): Memory {
    SortByBase(rs + [r])
  }

  lemma {:induction false} SortSorted(rs: Memory)
    requires SortedByBase(rs)
    ensures SortByBase(rs) == rs
  {
    if rs != [] {
      SortSorted(rs[..|rs| - 1]);
    }
  }

  predicate Apart(r: Region, s: Region) {
    r.End() <= s.base || s.End() <= r.base
  }

  lemma InsertMembers(rs: Memory, r: Region)
    ensures forall s :: s in InsertByBase(rs, r) <==> s in rs || s == r
  {
    var p := InsertPos(rs, r, |rs|);
    assert rs == rs[..p] + rs[p..];
  }

  predicate Inside(ts: Memory, lo: int, hi: int) {
    forall i :: 0 <= i < |ts| ==> lo <= ts[i].base && ts[i].End() <= hi
  }

  lemma ConcatValid(rs: Memory, ts: Memory, cut: int)
    requires Valid(rs) && Valid(ts) && Inside(rs, 0, cut) && Inside(ts, cut, U64)
    ensures Valid(rs + ts)
  {
  }

  lemma BelowInside(rs: Memory, r: Region, p: nat)
    requires Valid(rs) && p <= |rs| && (p > 0 ==> rs[p - 1].base <= r.base)
    requires r.Ok() && forall j :: 0 <= j < |rs| ==> Apart(r, rs[j])
    ensures Valid(rs[..p]) && Inside(rs[..p], 0, r.base)
  {
    forall j | 0 <= j < p ensures 0 <= rs[j].base && rs[j].End() <= r.base {
      assert rs[j].Ok();
      if j < p - 1 { assert rs[j].End() <= rs[p - 1].base; }
    }
  }

  lemma AboveInside(rs: Memory, r: Region, p: nat)
    requires Valid(rs) && p <= |rs| && forall j :: p <= j < |rs| ==> rs[j].base > r.base
    requires r.Ok() && forall j :: 0 <= j < |rs| ==> Apart(r, rs[j])
    ensures Valid(rs[p..]) && Inside(rs[p..], r.End(), U64)
  {
    forall j | p <= j < |rs| ensures r.End() <= rs[j].base && rs[j].End() <= U64 {
      assert rs[j].Ok();
    }
  }

  lemma InsertValid(rs: Memory, r: Region)
    requires Valid(rs) && r.Ok() && forall j :: 0 <= j < |rs| ==> Apart(r, rs[j])
    ensures Valid(InsertByBase(rs, r))
  {
    var p := InsertPos(rs, r, |rs|);
    BelowInside(rs, r, p);
    AboveInside(rs, r, p);
    ConcatValid(rs[..p], [r], r.base);
    ConcatValid(rs[..p] + [r], rs[p..], r.End());
  }

  /** Pushing a region apart from the rest keeps the list valid and adds exactly that region. */
  lemma PushDisjoint(rs: Memory, r: Region)
    requires Valid(rs) && r.Ok() && forall s :: s in rs ==> Apart(r, s)
    ensures Valid(Push(rs, r))
    ensures forall s :: s in Push(rs, r) <==> s in rs || s == r
  {
    assert (rs + [r])[..|rs|] == rs;
    SortSorted(rs);
    InsertValid(rs, r);
    InsertMembers(rs, r);
  }

  /** Two valid lists with the same regions around a agree at a. */
  lemma SameCells(rs: Memory, ts: Memory, a: int)
    requires Valid(rs) && Valid(ts)
    requires forall s: Region :: s.Has(a) ==> (s in rs <==> s in ts)
    ensures At(rs, a) == At(ts, a)
  {
    AtNone(rs, a);
    AtNone(ts, a);
    if At(rs, a).Some? {
      var s :| s in rs && s.Has(a);
      AtMember(rs, s, a);
      AtMember(ts, s, a);
    } else {
      assert forall s :: s in ts ==> !s.Has(a);
    }
  }

  // ------------------------------------------------------------- operations

  predicate Overlaps(rs: Memory, base: int, size: int) {
    exists r :: r in rs && base < r.End() && r.base < base + size
  }

  function Zeros(n: nat): (s: seq<byte>)
    ensures |s| == n && forall i :: 0 <= i < n ==> s[i] == 0
  {
    seq(n, _ => 0)
  }

  function MapRegion(rs: Memory, base: u64, size: u64, perms: Permission): Result<Memory, MemError> {
    if size == 0 then Err(EmptyMapping)
    else if base + size >= U64 then Err(AddressOverflow(base, size))
    else if Overlaps(rs, base, size) then Err(OverlappingMapping(base, size))
    else Ok(Push(rs, Region(base, size, perms, Zeros(size))))
  }

  /** A stretch of a region, possibly with new permissions. */
  function Slice(r: Region, from: int, to: int, perms: Permission): (n: Region)
    requires r.Ok() && r.base <= from < to <= r.End()
    ensures n.Ok() && n.base == from && n.End() == to
  {
    Region(from, to - from, perms, r.data[from - r.base..to - r.base])
  }

  /** The pieces protect pushes back, in the order it pushes them. */
  function Pieces(r: Region, base: int, end: int, perms: Permission): seq<Region>
    requires r.Ok() && r.base <= base < end <= r.End()
  {
    (if base > r.base then [Slice(r, r.base, base, r.perms)] else [])
    + [Slice(r, base, end, perms)]
    + (if end < r.End() then [Slice(r, end, r.End(), r.perms)] else [])
  }

  function PushAll(rs: Memory, ps: seq<Region>): Memory
    decreases ps
  {
    if ps == [] then rs else PushAll(Push(rs, ps[0]), ps[1..])
  }

  /** protect: take the region out, cut it around the range and push the pieces back. */
  function Protect(rs: Memory, base: u64, size: u64, perms: Permission): Result<Memory, MemError>
    requires Valid(rs)
  {
    if size == 0 then Ok(rs)
    else
      var i := Find(rs, base, size);
      if i < 0 then Err(Unmapped(base, size))
      else Ok(PushAll(rs[..i] + rs[i + 1..], Pieces(rs[i], base, base + size, perms)))
  }

  /** What unmapping [base, end) leaves of one region. */
  function Remains(r: Region, base: int, end: int): seq<Region>
    requires r.Ok()
  {
    var from := if r.base >= base then r.base else base;
    var to := if r.End() <= end then r.End() else end;
    if from >= to then [r]
    else
      (if from > r.base then [Slice(r, r.base, from, r.perms)] else [])
      + (if r.End() > to then [Slice(r, to, r.End(), r.perms)] else [])
  }

  function RemainsAll(rs: Memory, base: int, end: int): Memory
    requires forall i :: 0 <= i < |rs| ==> rs[i].Ok()
  {
    if rs == [] then []
    else RemainsAll(rs[..|rs| - 1], base, end) + Remains(rs[|rs| - 1], base, end)
  }

  function UnmapRange(rs: Memory, base: u64, size: u64): Result<Memory, MemError>
    requires Valid(rs)
  {
    if size == 0 then Err(EmptyMapping)
    else if base + size >= U64 then Err(AddressOverflow(base, size))
    else Ok(SortByBase(RemainsAll(rs, base, base + size)))
  }

  function PermissionsAt(rs: Memory, addr: int): Option<Permission> {
    var i := Find(rs, addr, 1);
    if i < 0 then None else Some(rs[i].perms)
  }

  function CheckPermission(rs: Memory, addr: int, len: int, required: Permission): Result<(), MemError> {
    var i := Find(rs, addr, len);
    if i < 0 then Err(Unmapped(addr, len))
    else if !rs[i].perms.Contains(required) then Err(Denied(addr, len, required))
    else Ok(())
  }

  function Overwrite(data: seq<byte>, at: nat, bytes: seq<byte>): (r: seq<byte>)
    requires at + |bytes| <= |data|
    ensures |r| == |data|
    ensures forall k :: 0 <= k < |data| ==> r[k] == if at <= k < at + |bytes| then bytes[k - at] else data[k]
  {
    data[..at] + bytes + data[at + |bytes|..]
  }

  function LoadBytes(rs: Memory, addr: u64, bytes: seq<byte>): Result<Memory, MemError>
    requires Valid(rs)
  {
    var i := Find(rs, addr, |bytes|);
    if i < 0 then Err(Unmapped(addr, |bytes|))
    else Ok(rs[i := rs[i].(data := Overwrite(rs[i].data, addr - rs[i].base, bytes))])
  }

  function WriteBytes(rs: Memory, addr: u64, bytes: seq<byte>): Result<Memory, MemError>
    requires Valid(rs)
  {
    match CheckPermission(rs, addr, |bytes|, WRITE)
    case Err(e) => Err(e)
    case Ok(_) => LoadBytes(rs, addr, bytes)
  }

  function ReadBytes(rs: Memory, addr: u64, len: nat): Result<seq<byte>, MemError>
    requires Valid(rs)
  {
    match CheckPermission(rs, addr, len, READ)
    case Err(e) => Err(e)
    case Ok(_) =>
      var i := Find(rs, addr, len);
      Ok(rs[i].data[addr - rs[i].base..addr - rs[i].base + len])
  }

  /** fetch_bytes checks the execute permission of the first byte only. */
  function FetchBytes(rs: Memory, addr: u64, len: nat): Result<seq<byte>, MemError>
    requires Valid(rs)
  {
    match CheckPermission(rs, addr, 1, EXECUTE)
    case Err(e) => Err(e)
    case Ok(_) =>
      var i := Find(rs, addr, len);
      if i < 0 then Err(Unmapped(addr, len))
      else Ok(rs[i].data[addr - rs[i].base..addr - rs[i].base + len])
  }

  // ------------------------------------------- each operation on flat memory

  predicate In(a: int, base: int, size: int) { base <= a < base + size }

  ghost predicate Free(rs: Memory, base: int, size: int)
    requires Valid(rs)
  {
    forall a :: In(a, base, size) ==> At(rs, a).None?
  }

  // What an operation may do to the flat address space, address by address.

  ghost predicate AddsZeros(rs: Memory, ts: Memory, base: int, size: int, perms: Permission)
    requires Valid(rs) && Valid(ts)
  {
    forall a :: At(ts, a) == if In(a, base, size) then Some(Cell(0, perms)) else At(rs, a)
  }

  ghost predicate Reprotects(rs: Memory, ts: Memory, base: int, size: int, perms: Permission)
    requires Valid(rs) && Valid(ts)
  {
    && (forall a :: In(a, base, size) ==> At(rs, a).Some? && At(ts, a) == Some(Cell(At(rs, a).value.value, perms)))
    && (forall a :: !In(a, base, size) ==> At(ts, a) == At(rs, a))
  }

  ghost predicate Clears(rs: Memory, ts: Memory, base: int, size: int)
    requires Valid(rs) && Valid(ts)
  {
    forall a :: At(ts, a) == if In(a, base, size) then None else At(rs, a)
  }

  ghost predicate Replaces(rs: Memory, ts: Memory, addr: int, bytes: seq<byte>)
    requires Valid(rs) && Valid(ts)
  {
    && (forall a :: In(a, addr, |bytes|) ==>
                      At(rs, a).Some? && At(ts, a) == Some(Cell(bytes[a - addr], At(rs, a).value.perms)))
    && (forall a :: !In(a, addr, |bytes|) ==> At(ts, a) == At(rs, a))
  }

  lemma FreeMeansNoOverlap(rs: Memory, base: int, size: int)
    requires Valid(rs) && 0 < size
    ensures Free(rs, base, size) <==> !Overlaps(rs, base, size)
  {
    if Overlaps(rs, base, size) {
      var r :| r in rs && base < r.End() && r.base < base + size;
      assert r.Ok();
      var a := if r.base >= base then r.base else base;
      AtMember(rs, r, a);
      assert In(a, base, size);
    } else {
      forall a | In(a, base, size) ensures At(rs, a).None? {
        AtNone(rs, a);
      }
    }
  }

  lemma FindMember(rs: Memory, r: Region)
    requires Valid(rs) && r in rs
    ensures Find(rs, r.base, r.size) >= 0
  {
    var i :| 0 <= i < |rs| && rs[i] == r;
    assert rs[i].ContainsRange(r.base, r.size);
  }

  /** A mapping succeeds exactly on a free range, and adds zero cells exactly there. */
  lemma MapRegionFlat(rs: Memory, base: u64, size: u64, perms: Permission)
    requires Valid(rs)
    ensures MapRegion(rs, base, size, perms).Ok? <==> 0 < size && base + size < U64 && Free(rs, base, size)
    ensures MapRegion(rs, base, size, perms).Ok? ==>
              var ts := MapRegion(rs, base, size, perms).value;
              Valid(ts) && AddsZeros(rs, ts, base, size, perms) && Find(ts, base, size) >= 0
  {
    if 0 < size && base + size < U64 {
      FreeMeansNoOverlap(rs, base, size);
      if !Overlaps(rs, base, size) {
        AddRegion(rs, Region(base, size, perms, Zeros(size)));
      }
    }
  }

  lemma AddRegion(rs: Memory, n: Region)
    requires Valid(rs) && n.Ok() && !Overlaps(rs, n.base, n.size)
    ensures var ts := Push(rs, n);
            && Valid(ts)
            && Find(ts, n.base, n.size) >= 0
            && forall a :: At(ts, a) == if n.Has(a) then Some(Cell(n.data[a - n.base], n.perms)) else At(rs, a)
  {
    forall s | s in rs ensures Apart(n, s) {}
    PushDisjoint(rs, n);
    var ts := Push(rs, n);
    FindMember(ts, n);
    forall a ensures At(ts, a) == if n.Has(a) then Some(Cell(n.data[a - n.base], n.perms)) else At(rs, a) {
      if n.Has(a) { AtMember(ts, n, a); } else { SameCells(rs, ts, a); }
    }
  }

  lemma DropOne(rs: Memory, i: int)
    requires Valid(rs) && 0 <= i < |rs|
    ensures var rest := rs[..i] + rs[i + 1..];
            && Valid(rest)
            && (forall s :: s in rest ==> s in rs && Apart(s, rs[i]))
            && (forall s :: s in rs ==> s == rs[i] || s in rest)
  {
    var rest := rs[..i] + rs[i + 1..];
    forall k | 0 <= k < |rest| ensures rest[k] == rs[if k < i then k else k + 1] {}
    forall s | s in rs ensures s == rs[i] || s in rest {
      var k :| 0 <= k < |rs| && rs[k] == s;
      if k < i { assert rest[k] == s; } else if k > i { assert rest[k - 1] == s; }
    }
  }

  predicate AllApart(r: Region, rs: seq<Region>) {
    forall s :: s in rs ==> Apart(r, s)
  }

  lemma {:induction false} PushAllDisjoint(rs: Memory, ps: seq<Region>)
    requires Valid(rs)
    requires forall p :: p in ps ==> p.Ok() && AllApart(p, rs)
    requires forall i, j :: 0 <= i < j < |ps| ==> Apart(ps[i], ps[j])
    ensures Valid(PushAll(rs, ps))
    ensures forall s :: s in PushAll(rs, ps) <==> s in rs || s in ps
    decreases ps
  {
    if ps != [] {
      PushDisjoint(rs, ps[0]);
      assert forall p :: p in ps[1..] ==> p in ps;
      assert forall s :: s in ps <==> s == ps[0] || s in ps[1..];
      PushAllDisjoint(Push(rs, ps[0]), ps[1..]);
    }
  }

  lemma PiecesApart(r: Region, base: int, end: int, perms: Permission)
    requires r.Ok() && r.base <= base < end <= r.End()
    ensures var ps := Pieces(r, base, end, perms);
            && (forall p :: p in ps ==> p.Ok() && r.base <= p.base && p.End() <= r.End())
            && (forall i, j :: 0 <= i < j < |ps| ==> Apart(ps[i], ps[j]))
  {
  }

  lemma SliceAt(r: Region, from: int, to: int, perms: Permission, a: int)
    requires r.Ok() && r.base <= from <= a < to <= r.End()
    ensures Slice(r, from, to, perms).data[a - from] == r.data[a - r.base]
  {
  }

  lemma PiecesAt(r: Region, base: int, end: int, perms: Permission, a: int) returns (n: Region)
    requires r.Ok() && r.base <= base < end <= r.End() && r.Has(a)
    ensures n in Pieces(r, base, end, perms) && n.Has(a) && n.Ok()
    ensures n.data[a - n.base] == r.data[a - r.base]
    ensures n.perms == if base <= a < end then perms else r.perms
  {
    var from := if a < base then r.base else if a < end then base else end;
    var to := if a < base then base else if a < end then end else r.End();
    n := Slice(r, from, to, if base <= a < end then perms else r.perms);
    SliceAt(r, from, to, n.perms, a);
  }

  /** The pieces of a region fit where the region was. */
  lemma PiecesReady(rs: Memory, i: int, base: int, end: int, perms: Permission)
    requires Valid(rs) && 0 <= i < |rs| && rs[i].base <= base < end <= rs[i].End()
    ensures var rest, ps := rs[..i] + rs[i + 1..], Pieces(rs[i], base, end, perms);
            && Valid(rest)
            && (forall p :: p in ps ==> p.Ok() && AllApart(p, rest))
            && (forall i, j :: 0 <= i < j < |ps| ==> Apart(ps[i], ps[j]))
  {
    DropOne(rs, i);
    PiecesApart(rs[i], base, end, perms);
  }

  lemma ProtectMembers(rs: Memory, base: u64, size: u64, perms: Permission)
    requires Valid(rs) && size > 0 && Find(rs, base, size) >= 0
    ensures var r := rs[Find(rs, base, size)];
            var ts := Protect(rs, base, size, perms).value;
            Valid(ts) && Swapped(rs, ts, r, Pieces(r, base, base + size, perms))
  {
    var i := Find(rs, base, size);
    DropOne(rs, i);
    PiecesReady(rs, i, base, base + size, perms);
    PushAllDisjoint(rs[..i] + rs[i + 1..], Pieces(rs[i], base, base + size, perms));
  }

  lemma ProtectValid(rs: Memory, base: u64, size: u64, perms: Permission)
    requires Valid(rs) && size > 0 && Find(rs, base, size) >= 0
    ensures Valid(Protect(rs, base, size, perms).value)
  {
    ProtectMembers(rs, base, size, perms);
  }

  /** ts holds what rs holds apart from r, and the pieces. */
  ghost predicate Swapped(rs: Memory, ts: Memory, r: Region, pieces: Memory) {
    Valid(rs) && Valid(ts) && r in rs && forall s :: s in ts <==> (s in rs && Apart(s, r)) || s in pieces
  }

  /** Swapping a region for its pieces, seen from one address. */
  lemma CutAt(rs: Memory, ts: Memory, r: Region, base: int, end: int, perms: Permission, pieces: Memory, a: int)
    requires r.Ok() && r.base <= base < end <= r.End() && Swapped(rs, ts, r, pieces) && pieces == Pieces(r, base, end, perms)
    ensures base <= a < end ==> At(rs, a).Some? && At(ts, a) == Some(Cell(At(rs, a).value.value, perms))
    ensures !(base <= a < end) ==> At(ts, a) == At(rs, a)
  {
    if r.Has(a) {
      AtMember(rs, r, a);
      var n := PiecesAt(r, base, end, perms, a);
      AtMember(ts, n, a);
    } else {
      PiecesApart(r, base, end, perms);
      forall s: Region | s.Has(a) && s in rs ensures Apart(s, r) {
        ApartMembers(rs, s, r);
      }
      SameCells(rs, ts, a);
    }
  }

  lemma CutFlat(rs: Memory, ts: Memory, r: Region, base: int, size: int, perms: Permission, pieces: Memory)
    requires r.Ok() && r.base <= base < base + size <= r.End()
    requires Swapped(rs, ts, r, pieces) && pieces == Pieces(r, base, base + size, perms)
    ensures Reprotects(rs, ts, base, size, perms)
  {
    forall a | In(a, base, size) ensures At(rs, a).Some? && At(ts, a) == Some(Cell(At(rs, a).value.value, perms)) {
      CutAt(rs, ts, r, base, base + size, perms, pieces, a);
    }
    forall a | !In(a, base, size) ensures At(ts, a) == At(rs, a) {
      CutAt(rs, ts, r, base, base + size, perms, pieces, a);
    }
  }

  lemma ApartMembers(rs: Memory, r: Region, s: Region)
    requires Valid(rs) && r in rs && s in rs && r != s
    ensures Apart(r, s)
  {
  }

  /** Splitting protect changes the permissions of exactly the given range and no byte. */
  lemma ProtectFlat(rs: Memory, base: u64, size: u64, perms: Permission)
    requires Valid(rs)
    ensures Protect(rs, base, size, perms).Ok? <==> size == 0 || Find(rs, base, size) >= 0
    ensures Protect(rs, base, size, perms).Ok? ==>
              var ts := Protect(rs, base, size, perms).value;
              Valid(ts) && Reprotects(rs, ts, base, size, perms)
  {
    if size > 0 && Find(rs, base, size) >= 0 {
      ProtectMembers(rs, base, size, perms);
      var ts := Protect(rs, base, size, perms).value;
      var r := rs[Find(rs, base, size)];
      CutFlat(rs, ts, r, base, size, perms, Pieces(r, base, base + size, perms));
    }
  }

  lemma RemainsValid(r: Region, base: int, end: int)
    requires r.Ok() && base < end
    ensures Valid(Remains(r, base, end)) && Inside(Remains(r, base, end), r.base, r.End())
  {
  }

  lemma RemainsPiece(r: Region, base: int, end: int, a: int) returns (n: Region)
    requires r.Ok() && base < end && r.Has(a) && !(base <= a < end)
    ensures n in Remains(r, base, end) && n.Ok() && n.Has(a)
    ensures n.data[a - n.base] == r.data[a - r.base] && n.perms == r.perms
  {
    if Remains(r, base, end) == [r] {
      n := r;
    } else if a < base {
      n := Slice(r, r.base, base, r.perms);
      SliceAt(r, r.base, base, r.perms, a);
    } else {
      n := Slice(r, end, r.End(), r.perms);
      SliceAt(r, end, r.End(), r.perms, a);
    }
  }

  lemma RemainsAt(r: Region, base: int, end: int, a: int)
    requires r.Ok() && base < end && Valid(Remains(r, base, end))
    ensures At(Remains(r, base, end), a) ==
            if r.Has(a) && !(base <= a < end) then Some(Cell(r.data[a - r.base], r.perms)) else None
  {
    if r.Has(a) && !(base <= a < end) {
      var n := RemainsPiece(r, base, end, a);
      AtMember(Remains(r, base, end), n, a);
    } else {
      assert forall s :: s in Remains(r, base, end) ==> !s.Has(a);
      AtNone(Remains(r, base, end), a);
    }
  }

  lemma ConcatAt(rs: Memory, ts: Memory, cut: int, a: int)
    requires Valid(rs) && Valid(ts)
    requires Inside(rs, 0, cut) && Inside(ts, cut, U64)
    ensures Valid(rs + ts)
    ensures At(rs + ts, a) == if a < cut then At(rs, a) else At(ts, a)
  {
    ConcatValid(rs, ts, cut);
    SameCells(rs + ts, if a < cut then rs else ts, a);
  }

  lemma {:induction false} RemainsAllValid(rs: Memory, base: int, end: int)
    requires Valid(rs) && base < end
    ensures Valid(RemainsAll(rs, base, end))
    ensures Inside(RemainsAll(rs, base, end), 0, if rs == [] then 0 else rs[|rs| - 1].End())
  {
    if rs != [] {
      RemainsAllValid(rs[..|rs| - 1], base, end);
      RemainsValid(rs[|rs| - 1], base, end);
    }
  }

  lemma {:induction false} RemainsAllAt(rs: Memory, base: int, end: int, a: int)
    requires Valid(rs) && base < end && Valid(RemainsAll(rs, base, end))
    ensures At(RemainsAll(rs, base, end), a) == if base <= a < end then None else At(rs, a)
  {
    if rs != [] {
      var init, last := rs[..|rs| - 1], rs[|rs| - 1];
      RemainsAllValid(init, base, end);
      RemainsValid(last, base, end);
      RemainsAllAt(init, base, end, a);
      RemainsAt(last, base, end, a);
      var x, y := RemainsAll(init, base, end), Remains(last, base, end);
      ConcatAt(x, y, last.base, a);
      LastAt(rs, a);
      MergeCells(At(x, a), At(y, a), At(x + y, a), At(init, a), At(rs, a), base <= a < end, a < last.base);
    }
  }

  /** What remains of all regions at one address, from what remains of the last and of the others. */
  lemma MergeCells(x: Option<Cell>, y: Option<Cell>, xy: Option<Cell>, init: Option<Cell>, all: Option<Cell>, cut: bool, below: bool)
    requires x == (if cut then None else init) && xy == (if below then x else y)
    requires all == init || (!below && init.None?)
    requires y == (if cut then None else if all == init then None else all)
    requires !below ==> init.None?
    ensures xy == if cut then None else all
  {
  }

  lemma LastAt(rs: Memory, a: int)
    requires Valid(rs) && rs != []
    ensures var last := rs[|rs| - 1];
            At(rs, a) == if last.Has(a) then Some(Cell(last.data[a - last.base], last.perms)) else At(rs[..|rs| - 1], a)
    ensures a >= rs[|rs| - 1].base ==> At(rs[..|rs| - 1], a).None?
  {
    var init, last := rs[..|rs| - 1], rs[|rs| - 1];
    AtNone(init, a);
    if last.Has(a) {
      AtMember(rs, last, a);
    } else {
      assert rs == init + [last];
      SameCells(rs, init, a);
    }
  }

  lemma SortValid(rs: Memory)
    requires Valid(rs)
    ensures SortByBase(rs) == rs
  {
    SortSorted(rs);
  }

  /** The final sort of unmap_range moves nothing: the remains are already in order. */
  lemma UnmapIsRemains(rs: Memory, base: u64, size: u64)
    requires Valid(rs) && 0 < size && base + size < U64
    ensures UnmapRange(rs, base, size) == Ok(RemainsAll(rs, base, base + size))
    ensures Valid(RemainsAll(rs, base, base + size))
  {
    RemainsAllValid(rs, base, base + size);
    SortValid(RemainsAll(rs, base, base + size));
  }

  lemma RemainsAllFlat(rs: Memory, base: int, size: int)
    requires Valid(rs) && 0 < size && Valid(RemainsAll(rs, base, base + size))
    ensures Clears(rs, RemainsAll(rs, base, base + size), base, size)
  {
    var ts := RemainsAll(rs, base, base + size);
    forall a ensures At(ts, a) == if In(a, base, size) then None else At(rs, a) {
      RemainsAllAt(rs, base, base + size, a);
    }
  }

  /** Unmapping succeeds on every non-empty, non-overflowing range and clears exactly it. */
  lemma UnmapRangeFlat(rs: Memory, base: u64, size: u64)
    requires Valid(rs)
    ensures UnmapRange(rs, base, size).Ok? <==> 0 < size && base + size < U64
    ensures UnmapRange(rs, base, size).Ok? ==>
              var ts := UnmapRange(rs, base, size).value;
              Valid(ts) && Clears(rs, ts, base, size)
  {
    if 0 < size && base + size < U64 {
      UnmapIsRemains(rs, base, size);
      RemainsAllFlat(rs, base, size);
    }
  }

  predicate SameLayout(rs: Memory, ts: Memory) {
    && |rs| == |ts|
    && forall i :: 0 <= i < |rs| ==> rs[i].base == ts[i].base && rs[i].size == ts[i].size && rs[i].perms == ts[i].perms
  }

  lemma SameFind(rs: Memory, ts: Memory, addr: int, len: int)
    requires SameLayout(rs, ts)
    ensures Find(rs, addr, len) == Find(ts, addr, len)
  {
    assert forall i :: 0 <= i < |rs| ==> rs[i].ContainsRange(addr, len) == ts[i].ContainsRange(addr, len);
  }

  lemma OverwriteLayout(rs: Memory, i: int, data: seq<byte>)
    requires Valid(rs) && 0 <= i < |rs| && |data| == rs[i].size
    ensures Valid(rs[i := rs[i].(data := data)]) && SameLayout(rs, rs[i := rs[i].(data := data)])
  {
  }

  /** Changing one region's data changes the flat bytes of that region only. */
  lemma OverwriteAt(rs: Memory, i: int, data: seq<byte>, a: int)
    requires Valid(rs) && 0 <= i < |rs| && |data| == rs[i].size
    requires Valid(rs[i := rs[i].(data := data)])
    ensures var ts := rs[i := rs[i].(data := data)];
            && (rs[i].Has(a) ==> At(rs, a) == Some(Cell(rs[i].data[a - rs[i].base], rs[i].perms))
                                 && At(ts, a) == Some(Cell(data[a - rs[i].base], rs[i].perms)))
            && (!rs[i].Has(a) ==> At(ts, a) == At(rs, a))
  {
    var ts := rs[i := rs[i].(data := data)];
    if rs[i].Has(a) {
      AtMember(rs, rs[i], a);
      AtMember(ts, ts[i], a);
    } else {
      SameFind(rs, ts, a, 1);
    }
  }

  lemma OverwriteReplaces(rs: Memory, i: int, addr: int, bytes: seq<byte>, data: seq<byte>, ts: Memory)
    requires Valid(rs) && 0 <= i < |rs| && rs[i].ContainsRange(addr, |bytes|)
    requires data == Overwrite(rs[i].data, addr - rs[i].base, bytes) && ts == rs[i := rs[i].(data := data)] && Valid(ts)
    ensures Replaces(rs, ts, addr, bytes)
  {
    forall a | In(a, addr, |bytes|) ensures At(rs, a).Some? && At(ts, a) == Some(Cell(bytes[a - addr], At(rs, a).value.perms)) {
      OverwriteAt(rs, i, data, a);
    }
    forall a | !In(a, addr, |bytes|) ensures At(ts, a) == At(rs, a) {
      OverwriteAt(rs, i, data, a);
    }
  }

  /** A load keeps the layout and replaces exactly the bytes of its range. */
  lemma LoadBytesFlat(rs: Memory, addr: u64, bytes: seq<byte>)
    requires Valid(rs)
    ensures LoadBytes(rs, addr, bytes).Ok? <==> Find(rs, addr, |bytes|) >= 0
    ensures LoadBytes(rs, addr, bytes).Ok? ==> Loaded(rs, LoadBytes(rs, addr, bytes).value, addr, bytes)
  {
    var i := Find(rs, addr, |bytes|);
    if i >= 0 {
      var data := Overwrite(rs[i].data, addr - rs[i].base, bytes);
      var ts := rs[i := rs[i].(data := data)];
      OverwriteLayout(rs, i, data);
      OverwriteReplaces(rs, i, addr, bytes, data, ts);
      assert Loaded(rs, ts, addr, bytes);
      assert LoadBytes(rs, addr, bytes).value == ts;
    }
  }

  ghost predicate Loaded(rs: Memory, ts: Memory, addr: int, bytes: seq<byte>)
    requires Valid(rs)
  {
    Valid(ts) && SameLayout(rs, ts) && Replaces(rs, ts, addr, bytes)
  }

  lemma RangeAt(rs: Memory, i: int, addr: int, len: int)
    requires Valid(rs) && 0 <= i < |rs| && rs[i].ContainsRange(addr, len)
    ensures forall a :: In(a, addr, len) ==> At(rs, a) == Some(Cell(rs[i].data[a - rs[i].base], rs[i].perms))
  {
    forall a | In(a, addr, len) {
      AtMember(rs, rs[i], a);
    }
  }

  /** A successful read returns exactly the flat bytes of its range, all of them readable. */
  lemma ReadBytesFlat(rs: Memory, addr: u64, len: nat)
    requires Valid(rs)
    ensures ReadBytes(rs, addr, len).Ok? <==> Find(rs, addr, len) >= 0 && rs[Find(rs, addr, len)].perms.read
    ensures ReadBytes(rs, addr, len).Ok? ==>
              var bytes := ReadBytes(rs, addr, len).value;
              && |bytes| == len
              && forall a :: In(a, addr, len) ==> At(rs, a).Some? && At(rs, a).value.value == bytes[a - addr]
                                                  && At(rs, a).value.perms.read
  {
    var i := Find(rs, addr, len);
    if i >= 0 {
      RangeAt(rs, i, addr, len);
    }
  }

  /** A successful fetch returns flat bytes that are all executable, though only the first was checked. */
  lemma FetchBytesFlat(rs: Memory, addr: u64, len: nat)
    requires Valid(rs)
    ensures var i := Find(rs, addr, if len == 0 then 1 else len);
            FetchBytes(rs, addr, len).Ok? <==> i >= 0 && rs[i].perms.execute
    ensures FetchBytes(rs, addr, len).Ok? ==>
              var bytes := FetchBytes(rs, addr, len).value;
              && |bytes| == len
              && forall a :: In(a, addr, len) ==> At(rs, a).Some? && At(rs, a).value.value == bytes[a - addr]
                                                  && At(rs, a).value.perms.execute
  {
    var i := Find(rs, addr, if len == 0 then 1 else len);
    if i >= 0 {
      assert rs[i].ContainsRange(addr, 1) && rs[i].ContainsRange(addr, len);
      assert Find(rs, addr, 1) == i;
      RangeAt(rs, i, addr, len);
    }
  }
}
