/**
  The flat address space as a finite map from addresses to cells, and each memory operation's
  effect on it. Other components reason about guest memory through these maps.
 */
module FlatMemory {
  import opened Words
  import opened Regions

  type Space = map<int, Cell>

  ghost function FlatMap(m: Space, base: int, size: int, perms: Permission): Space {
    m + map a {:trigger In(a, base, size)} | base <= a < base + size && In(a, base, size) :: Cell(0, perms)
  }

  ghost function FlatProtect(m: Space, base: int, size: int, perms: Permission): Space {
    map a | a in m :: if In(a, base, size) then Cell(m[a].value, perms) else m[a]
  }

  ghost function FlatUnmap(m: Space, base: int, size: int): Space {
    map a | a in m && !In(a, base, size) :: m[a]
  }

  ghost function FlatStore(m: Space, addr: int, bytes: seq<byte>): Space {
    map a | a in m :: if In(a, addr, |bytes|) then Cell(bytes[a - addr], m[a].perms) else m[a]
  }

  /** The bytes of a mapped range. */
  ghost predicate Holds(m: Space, addr: int, bytes: seq<byte>) {
    forall a :: In(a, addr, |bytes|) ==> a in m && m[a].value == bytes[a - addr]
  }

  lemma FlatHas(rs: Memory, a: int)
    requires Valid(rs)
    ensures a in Flat(rs) <==> At(rs, a).Some?
    ensures a in Flat(rs) ==> Flat(rs)[a] == At(rs, a).value
  {
  }

  lemma SameMap<K, V>(m: map<K, V>, n: map<K, V>)
    requires forall a :: a in m ==> a in n && m[a] == n[a]
    requires forall a :: a in n ==> a in m
    ensures m == n
  {
  }

  lemma MapIsFlat(rs: Memory, base: u64, size: u64, perms: Permission)
    requires Valid(rs)
    ensures MapRegion(rs, base, size, perms).Ok? ==>
              var ts := MapRegion(rs, base, size, perms).value;
              && Valid(ts) && Flat(ts) == FlatMap(Flat(rs), base, size, perms)
              && (forall a :: In(a, base, size) ==> a !in Flat(rs))
  {
    if MapRegion(rs, base, size, perms).Ok? {
      MapRegionFlat(rs, base, size, perms);
      var ts := MapRegion(rs, base, size, perms).value;
      MapsFlat(rs, ts, base, size, perms);
      forall a | In(a, base, size) ensures a !in Flat(rs) { FlatHas(rs, a); }
    }
  }

  lemma MapsFlat(rs: Memory, ts: Memory, base: int, size: int, perms: Permission)
    requires Valid(rs) && Valid(ts) && AddsZeros(rs, ts, base, size, perms)
    ensures Flat(ts) == FlatMap(Flat(rs), base, size, perms)
  {
    var m, n := Flat(ts), FlatMap(Flat(rs), base, size, perms);
    forall a ensures (a in m <==> a in n) && (a in m ==> m[a] == n[a]) {
      FlatHas(rs, a);
      FlatHas(ts, a);
      assert At(ts, a) == if In(a, base, size) then Some(Cell(0, perms)) else At(rs, a);
    }
    SameMap(m, n);
  }

  lemma ProtectIsFlat(rs: Memory, base: u64, size: u64, perms: Permission)
    requires Valid(rs)
    ensures Protect(rs, base, size, perms).Ok? ==>
              var ts := Protect(rs, base, size, perms).value;
              Valid(ts) && Flat(ts) == FlatProtect(Flat(rs), base, size, perms)
  {
    if Protect(rs, base, size, perms).Ok? {
      ProtectFlat(rs, base, size, perms);
      ProtectsFlat(rs, Protect(rs, base, size, perms).value, base, size, perms);
    }
  }

  lemma ProtectsFlat(rs: Memory, ts: Memory, base: int, size: int, perms: Permission)
    requires Valid(rs) && Valid(ts) && Reprotects(rs, ts, base, size, perms)
    ensures Flat(ts) == FlatProtect(Flat(rs), base, size, perms)
  {
    var m, n := Flat(ts), FlatProtect(Flat(rs), base, size, perms);
    forall a ensures (a in m <==> a in n) && (a in m ==> m[a] == n[a]) {
      FlatHas(rs, a);
      FlatHas(ts, a);
    }
    SameMap(m, n);
  }

  lemma UnmapIsFlat(rs: Memory, base: u64, size: u64)
    requires Valid(rs)
    ensures UnmapRange(rs, base, size).Ok? ==>
              var ts := UnmapRange(rs, base, size).value;
              Valid(ts) && Flat(ts) == FlatUnmap(Flat(rs), base, size)
  {
    if UnmapRange(rs, base, size).Ok? {
      UnmapRangeFlat(rs, base, size);
      UnmapsFlat(rs, UnmapRange(rs, base, size).value, base, size);
    }
  }

  lemma UnmapsFlat(rs: Memory, ts: Memory, base: int, size: int)
    requires Valid(rs) && Valid(ts) && Clears(rs, ts, base, size)
    ensures Flat(ts) == FlatUnmap(Flat(rs), base, size)
  {
    var m, n := Flat(ts), FlatUnmap(Flat(rs), base, size);
    forall a ensures (a in m <==> a in n) && (a in m ==> m[a] == n[a]) {
      FlatHas(rs, a);
      FlatHas(ts, a);
    }
    SameMap(m, n);
  }

  /** A load or a write replaces exactly the bytes of a range that was wholly mapped. */
  lemma LoadIsFlat(rs: Memory, addr: u64, bytes: seq<byte>)
    requires Valid(rs)
    ensures LoadBytes(rs, addr, bytes).Ok? ==>
              var ts := LoadBytes(rs, addr, bytes).value;
              && Valid(ts) && SameLayout(rs, ts) && Flat(ts) == FlatStore(Flat(rs), addr, bytes)
              && (forall a :: In(a, addr, |bytes|) ==> a in Flat(rs))
  {
    if LoadBytes(rs, addr, bytes).Ok? {
      LoadBytesFlat(rs, addr, bytes);
      StoresFlat(rs, LoadBytes(rs, addr, bytes).value, addr, bytes);
      forall a | In(a, addr, |bytes|) ensures a in Flat(rs) { FlatHas(rs, a); }
    }
  }

  lemma StoresFlat(rs: Memory, ts: Memory, addr: int, bytes: seq<byte>)
    requires Valid(rs) && Valid(ts) && Replaces(rs, ts, addr, bytes)
    ensures Flat(ts) == FlatStore(Flat(rs), addr, bytes)
  {
    var m, n := Flat(ts), FlatStore(Flat(rs), addr, bytes);
    forall a ensures (a in m <==> a in n) && (a in m ==> m[a] == n[a]) {
      FlatHas(rs, a);
      FlatHas(ts, a);
    }
    SameMap(m, n);
  }

  /** A successful read returns what the flat space holds. */
  lemma ReadIsFlat(rs: Memory, addr: u64, len: nat)
    requires Valid(rs) && ReadBytes(rs, addr, len).Ok?
    ensures |ReadBytes(rs, addr, len).value| == len && Holds(Flat(rs), addr, ReadBytes(rs, addr, len).value)
  {
    ReadBytesFlat(rs, addr, len);
    var bytes := ReadBytes(rs, addr, len).value;
    forall a | In(a, addr, |bytes|) ensures a in Flat(rs) && Flat(rs)[a].value == bytes[a - addr] {
      FlatHas(rs, a);
    }
  }

  /** Bytes are determined by what the flat space holds. */
  lemma HoldsUnique(m: Space, addr: int, a: seq<byte>, b: seq<byte>)
    requires |a| == |b| && Holds(m, addr, a) && Holds(m, addr, b)
    ensures a == b
  {
    forall k | 0 <= k < |a| ensures a[k] == b[k] {
      assert In(addr + k, addr, |a|);
      assert m[addr + k].value == a[addr + k - addr];
    }
  }

  /** Every address of a range is mapped. */
  ghost predicate Mapped(m: Space, addr: int, len: int) {
    forall a :: In(a, addr, len) ==> a in m
  }

  lemma MappedConcat(m: Space, addr: int, len: int, more: int)
    requires len >= 0 && more >= 0 && Mapped(m, addr, len) && Mapped(m, addr + len, more)
    ensures Mapped(m, addr, len + more)
  {
    forall a | In(a, addr, len + more) ensures a in m {
      assert In(a, addr, len) || In(a, addr + len, more);
    }
  }

  lemma HoldsConcat(m: Space, addr: int, b: seq<byte>, c: seq<byte>)
    requires Holds(m, addr, b) && Holds(m, addr + |b|, c)
    ensures Holds(m, addr, b + c)
  {
    forall a | In(a, addr, |b + c|) ensures a in m && m[a].value == (b + c)[a - addr] {
      assert In(a, addr, |b|) || In(a, addr + |b|, |c|);
    }
  }

  lemma HoldsSlice(m: Space, addr: int, b: seq<byte>, from: nat, to: nat)
    requires Holds(m, addr, b) && from <= to <= |b|
    ensures Holds(m, addr + from, b[from..to])
  {
    forall a | In(a, addr + from, to - from) ensures a in m && m[a].value == b[from..to][a - addr - from] {
      assert In(a, addr, |b|);
    }
  }

  predicate RangesApart(p: int, len: int, q: int, more: int) {
    p + len <= q || q + more <= p
  }

  /** A store elsewhere does not change what a range holds. */
  lemma HoldsApart(m: Space, addr: int, b: seq<byte>, dst: int, c: seq<byte>)
    requires RangesApart(addr, |b|, dst, |c|)
    ensures Holds(FlatStore(m, dst, c), addr, b) <==> Holds(m, addr, b)
  {
    var n := FlatStore(m, dst, c);
    forall a | In(a, addr, |b|) ensures (a in n <==> a in m) && (a in m ==> n[a] == m[a]) {
      assert !In(a, dst, |c|);
    }
  }

  /** A store to a mapped range makes it hold the bytes. */
  lemma HoldsStored(m: Space, dst: int, c: seq<byte>)
    requires Mapped(m, dst, |c|)
    ensures Holds(FlatStore(m, dst, c), dst, c)
  {
  }

  /** Two adjacent stores are one. */
  lemma StoreConcat(m: Space, addr: int, b: seq<byte>, c: seq<byte>)
    ensures FlatStore(FlatStore(m, addr, b), addr + |b|, c) == FlatStore(m, addr, b + c)
    ensures FlatStore(FlatStore(m, addr + |b|, c), addr, b) == FlatStore(m, addr, b + c)
  {
    var n := FlatStore(m, addr, b + c);
    forall a | a in m
      ensures FlatStore(FlatStore(m, addr, b), addr + |b|, c)[a] == n[a]
      ensures FlatStore(FlatStore(m, addr + |b|, c), addr, b)[a] == n[a]
    {
      assert In(a, addr, |b + c|) <==> In(a, addr, |b|) || In(a, addr + |b|, |c|);
    }
  }

  lemma MappedStore(m: Space, addr: int, len: int, dst: int, c: seq<byte>)
    ensures Mapped(FlatStore(m, dst, c), addr, len) <==> Mapped(m, addr, len)
  {
  }

  // ------------------------------------------------------------ one address at a time

  /** The cell at an address, if it is mapped. */
  ghost function CellIn(m: Mem, a: int): Option<Cell> { if a in Flat(m) then Some(Flat(m)[a]) else None }

  lemma MapCell(m: Mem, n: Mem, base: u64, size: u64, perms: Permission, a: int)
    requires MapRegion(m, base, size, perms) == Ok(n)
    ensures CellIn(n, a) == if In(a, base, size) then Some(Cell(0, perms)) else CellIn(m, a)
    ensures In(a, base, size) ==> CellIn(m, a) == None
  {
    MapIsFlat(m, base, size, perms);
  }

  lemma UnmapCell(m: Mem, n: Mem, base: u64, size: u64, a: int)
    requires UnmapRange(m, base, size) == Ok(n)
    ensures CellIn(n, a) == if In(a, base, size) then None else CellIn(m, a)
  {
    UnmapIsFlat(m, base, size);
  }

  /** A write changes the bytes of its range and no permission. */
  lemma WriteCell(m: Mem, n: Mem, addr: u64, bytes: seq<byte>, a: int)
    requires WriteBytes(m, addr, bytes) == Ok(n)
    ensures !In(a, addr, |bytes|) ==> CellIn(n, a) == CellIn(m, a)
    ensures In(a, addr, |bytes|) ==> CellIn(m, a).Some? && CellIn(n, a) == Some(Cell(bytes[a - addr], CellIn(m, a).value.perms))
  {
    LoadIsFlat(m, addr, bytes);
    assert LoadBytes(m, addr, bytes) == Ok(n);
    StoreCell(Flat(m), Flat(n), addr, bytes, a);
  }

  lemma StoreCell(m: Space, n: Space, addr: int, bytes: seq<byte>, a: int)
    requires n == FlatStore(m, addr, bytes)
    ensures a in n <==> a in m
    ensures a in m ==> n[a] == if In(a, addr, |bytes|) then Cell(bytes[a - addr], m[a].perms) else m[a]
  {
  }
}
