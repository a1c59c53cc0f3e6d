/** GuestMemory as the object the emulator mutates, and what whole runs of operations do. */
module GuestMemories {
  import opened Words
  import opened Regions
  import opened FlatMemory

  class GuestMemory {
    var regions: Memory

    constructor ()
      ensures regions == []
    {
      regions := [];
    }

    method FindIndex(addr: u64, len: nat) returns (i: int)
      ensures i == Find(regions, addr, len)
    {
      i := 0;
      while i < |regions|
        invariant 0 <= i <= |regions|
        invariant forall j :: 0 <= j < i ==> !regions[j].ContainsRange(addr, len)
      {
        if regions[i].ContainsRange(addr, len) {
          return;
        }
        i := i + 1;
      }
      i := -1;
    }

    /** MemoryMap::push: append and sort by insertion from the back. */
    method PushRegion(r: Region)
      requires Valid(regions)
      modifies this
      ensures regions == Push(old(regions), r)
    {
      ghost var was := regions;
      assert (was + [r])[..|was|] == was;
      SortValid(was);
      var k := |regions|;
      while k > 0 && regions[k - 1].base > r.base
        invariant 0 <= k <= |regions| && regions == was
        invariant InsertPos(was, r, k) == InsertPos(was, r, |was|)
      {
        k := k - 1;
      }
      regions := regions[..k] + [r] + regions[k..];
    }

    method PushPieces(pieces: seq<Region>)
      requires Valid(regions)
      requires forall p :: p in pieces ==> p.Ok() && AllApart(p, regions)
      requires forall i, j :: 0 <= i < j < |pieces| ==> Apart(pieces[i], pieces[j])
      modifies this
      ensures regions == PushAll(old(regions), pieces)
    {
      var k := 0;
      while k < |pieces|
        invariant 0 <= k <= |pieces|
        invariant Valid(regions)
        invariant forall j :: k <= j < |pieces| ==> AllApart(pieces[j], regions)
        invariant PushAll(regions, pieces[k..]) == PushAll(old(regions), pieces)
      {
        PushDisjoint(regions, pieces[k]);
        assert pieces[k..][1..] == pieces[k + 1..];
        PushRegion(pieces[k]);
        k := k + 1;
      }
    }

    method Map(base: u64, size: u64, perms: Permission) returns (result: Result<(), MemError>)
      requires Valid(regions)
      modifies this
      ensures Valid(regions)
      ensures match MapRegion(old(regions), base, size, perms)
              case Ok(ts) => result == Ok(()) && regions == ts
              case Err(e) => result == Err(e) && regions == old(regions)
    {
      MapRegionFlat(regions, base, size, perms);
      if size == 0 {
        return Err(EmptyMapping);
      }
      if base + size >= U64 {
        return Err(AddressOverflow(base, size));
      }
      var k := 0;
      while k < |regions|
        invariant 0 <= k <= |regions| && regions == old(regions)
        invariant forall j :: 0 <= j < k ==> !(base < regions[j].End() && regions[j].base < base + size)
      {
        if base < regions[k].End() && regions[k].base < base + size {
          assert regions[k] in regions;
          return Err(OverlappingMapping(base, size));
        }
        k := k + 1;
      }
      assert !Overlaps(regions, base, size);
      PushRegion(Region(base, size, perms, Zeros(size)));
      return Ok(());
    }

    method ProtectRange(base: u64, size: u64, perms: Permission) returns (result: Result<(), MemError>)
      requires Valid(regions)
      modifies this
      ensures Valid(regions)
      ensures match Protect(old(regions), base, size, perms)
              case Ok(ts) => result == Ok(()) && regions == ts
              case Err(e) => result == Err(e) && regions == old(regions)
    {
      if size == 0 {
        return Ok(());
      }
      var i := FindIndex(base, size);
      if i < 0 {
        return Err(Unmapped(base, size));
      }
      ProtectValid(regions, base, size, perms);
      Recut(i, base, size, perms);
      return Ok(());
    }

    /** The removal comes first; the conversions after it cannot fail. */
    method Recut(i: int, base: u64, size: u64, perms: Permission)
      requires Valid(regions) && 0 <= i < |regions| && size > 0 && regions[i].ContainsRange(base, size)
      modifies this
      ensures regions == PushAll(old(regions[..i] + regions[i + 1..]), Pieces(old(regions[i]), base, base + size, perms))
    {
      PiecesReady(regions, i, base, base + size, perms);
      var r := regions[i];
      regions := regions[..i] + regions[i + 1..];
      if base + size >= U64 {
        assert false;
      }
      PushPieces(Pieces(r, base, base + size, perms));
    }

    method Unmap(base: u64, size: u64) returns (result: Result<(), MemError>)
      requires Valid(regions)
      modifies this
      ensures Valid(regions)
      ensures match UnmapRange(old(regions), base, size)
              case Ok(ts) => result == Ok(()) && regions == ts
              case Err(e) => result == Err(e) && regions == old(regions)
    {
      if size == 0 {
        return Err(EmptyMapping);
      }
      if base + size >= U64 {
        return Err(AddressOverflow(base, size));
      }
      regions := SortedRemains(base, size);
      return Ok(());
    }

    method SortedRemains(base: u64, size: u64) returns (updated: Memory)
      requires Valid(regions) && size > 0 && base + size < U64
      ensures Valid(updated) && UnmapRange(regions, base, size) == Ok(updated)
    {
      updated := [];
      var k := 0;
      while k < |regions|
        invariant 0 <= k <= |regions|
        invariant updated == RemainsAll(regions[..k], base, base + size)
      {
        assert regions[..k + 1][..k] == regions[..k];
        updated := updated + Remains(regions[k], base, base + size);
        k := k + 1;
      }
      assert regions[..k] == regions;
      UnmapIsRemains(regions, base, size);
      updated := SortByBase(updated);
    }

    /** load_bytes: no permission check. */
    method Load(addr: u64, bytes: seq<byte>) returns (result: Result<(), MemError>)
      requires Valid(regions)
      modifies this
      ensures Valid(regions)
      ensures match LoadBytes(old(regions), addr, bytes)
              case Ok(ts) => result == Ok(()) && regions == ts
              case Err(e) => result == Err(e) && regions == old(regions)
    {
      LoadBytesFlat(regions, addr, bytes);
      var i := FindIndex(addr, |bytes|);
      if i < 0 {
        return Err(Unmapped(addr, |bytes|));
      }
      var at := addr - regions[i].base;
      var data := regions[i].data[..at] + bytes + regions[i].data[at + |bytes|..];
      regions := regions[i := regions[i].(data := data)];
      return Ok(());
    }

    method Write(addr: u64, bytes: seq<byte>) returns (result: Result<(), MemError>)
      requires Valid(regions)
      modifies this
      ensures Valid(regions)
      ensures match WriteBytes(old(regions), addr, bytes)
              case Ok(ts) => result == Ok(()) && regions == ts
              case Err(e) => result == Err(e) && regions == old(regions)
    {
      var i := FindIndex(addr, |bytes|);
      if i < 0 {
        return Err(Unmapped(addr, |bytes|));
      }
      if !regions[i].perms.Contains(WRITE) {
        return Err(Denied(addr, |bytes|, WRITE));
      }
      result := Load(addr, bytes);
    }

    method Read(addr: u64, len: nat) returns (result: Result<seq<byte>, MemError>)
      requires Valid(regions)
      ensures result == ReadBytes(regions, addr, len)
    {
      var i := FindIndex(addr, len);
      if i < 0 {
        return Err(Unmapped(addr, len));
      }
      if !regions[i].perms.Contains(READ) {
        return Err(Denied(addr, len, READ));
      }
      var at := addr - regions[i].base;
      return Ok(regions[i].data[at..at + len]);
    }
  }

  // ------------------------------------------------------------ whole runs

  datatype MemOp =
    | OpMap(base: u64, size: u64, perms: Permission)
    | OpProtect(base: u64, size: u64, perms: Permission)
    | OpUnmap(base: u64, size: u64)
    | OpLoad(addr: u64, bytes: seq<byte>)
    | OpWrite(addr: u64, bytes: seq<byte>)

  function Attempt(rs: Memory, op: MemOp): Result<Memory, MemError>
    requires Valid(rs)
  {
    match op
    case OpMap(base, size, perms) => MapRegion(rs, base, size, perms)
    case OpProtect(base, size, perms) => Protect(rs, base, size, perms)
    case OpUnmap(base, size) => UnmapRange(rs, base, size)
    case OpLoad(addr, bytes) => LoadBytes(rs, addr, bytes)
    case OpWrite(addr, bytes) => WriteBytes(rs, addr, bytes)
  }

  /** The flat address space after a successful operation: no regions, no lists, no sorting. */
  ghost function FlatAttempt(m: map<int, Cell>, op: MemOp): map<int, Cell> {
    match op
    case OpMap(base, size, perms) => FlatMap(m, base, size, perms)
    case OpProtect(base, size, perms) => FlatProtect(m, base, size, perms)
    case OpUnmap(base, size) => FlatUnmap(m, base, size)
    case OpLoad(addr, bytes) => FlatStore(m, addr, bytes)
    case OpWrite(addr, bytes) => FlatStore(m, addr, bytes)
  }

  /** One successful operation is its flat effect. */
  lemma AttemptRefines(rs: Memory, op: MemOp)
    requires Valid(rs)
    ensures Attempt(rs, op).Ok? ==>
              && Valid(Attempt(rs, op).value)
              && Flat(Attempt(rs, op).value) == FlatAttempt(Flat(rs), op)
  {
    match op
    case OpMap(base, size, perms) => MapIsFlat(rs, base, size, perms);
    case OpProtect(base, size, perms) => ProtectIsFlat(rs, base, size, perms);
    case OpUnmap(base, size) => UnmapIsFlat(rs, base, size);
    case OpLoad(addr, bytes) => LoadIsFlat(rs, addr, bytes);
    case OpWrite(addr, bytes) => LoadIsFlat(rs, addr, bytes);
  }

  /** Memory after a run of operations, failed ones included. */
  function Run(rs: Memory, ops: seq<MemOp>): Memory
    requires Valid(rs)
    decreases ops
  {
    if ops == [] then rs
    else
      AttemptRefines(rs, ops[0]);
      Run(match Attempt(rs, ops[0]) case Ok(ts) => ts case Err(_) => rs, ops[1..])
  }

  /** The operations of a run that succeed, in order. */
  function Successes(rs: Memory, ops: seq<MemOp>): seq<MemOp>
    requires Valid(rs)
    decreases ops
  {
    if ops == [] then []
    else
      AttemptRefines(rs, ops[0]);
      match Attempt(rs, ops[0])
      case Ok(ts) => [ops[0]] + Successes(ts, ops[1..])
      case Err(_) => Successes(rs, ops[1..])
  }

  ghost function FlatRun(m: map<int, Cell>, ops: seq<MemOp>): map<int, Cell>
    decreases ops
  {
    if ops == [] then m else FlatRun(FlatAttempt(m, ops[0]), ops[1..])
  }

  /**
    Every run of operations keeps the region list valid, and the flat address space it
    represents is exactly the flat effect of the operations that succeeded.
   */
  lemma {:induction false} RunRefinesFlatMemory(rs: Memory, ops: seq<MemOp>)
    requires Valid(rs)
    ensures Valid(Run(rs, ops))
    ensures Flat(Run(rs, ops)) == FlatRun(Flat(rs), Successes(rs, ops))
    decreases ops
  {
    if ops != [] {
      AttemptRefines(rs, ops[0]);
      match Attempt(rs, ops[0])
      case Ok(ts) =>
        RunRefinesFlatMemory(ts, ops[1..]);
        assert Successes(rs, ops)[1..] == Successes(ts, ops[1..]);
      case Err(_) => RunRefinesFlatMemory(rs, ops[1..]);
    }
  }
}
