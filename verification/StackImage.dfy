/** Pushing byte chunks below a falling stack pointer, and the image they leave in memory. */
module StackImage {
  import opened Words
  import opened Regions
  import opened FlatMemory

  datatype LoadError = StackOverflow | StackFault(cause: MemError)

  datatype Stack = Stack(mem: Mem, sp: u64)

  /** push_bytes: lower sp, refuse to pass the floor, write. */
  function PushBytes(s: Stack, floor: u64, bytes: seq<byte>): Result<Stack, LoadError>
  {
    var sp := s.sp - |bytes|;
    if sp < 0 || sp < floor then Err(StackOverflow)
    else
      match WriteBytes(s.mem, sp, bytes)
      case Err(e) => Err(StackFault(e))
      case Ok(m) => LoadIsFlat(s.mem, sp, bytes); Ok(Stack(m, sp))
  }

  /** Chunks given in memory order, pushed last one first. */
  function PushList(s: Stack, floor: u64, list: seq<seq<byte>>): Result<Stack, LoadError>
    decreases |list|
  {
    if list == [] then Ok(s)
    else
      match PushList(s, floor, list[1..])
      case Err(e) => Err(e)
      case Ok(t) => PushBytes(t, floor, list[0])
  }

  function Concat(list: seq<seq<byte>>): seq<byte> {
    if list == [] then [] else list[0] + Concat(list[1..])
  }

  predicate NoneEmpty(list: seq<seq<byte>>) { forall j :: 0 <= j < |list| ==> |list[j]| > 0 }

  /** Region i is readable and writable and covers a range. */
  predicate Covers(m: Mem, i: nat, lo: int, hi: int) {
    i < |m| && m[i].base <= lo <= hi <= m[i].End() && m[i].perms.read && m[i].perms.write
  }

  lemma CoversAll(m: Mem, n: Mem, i: nat, lo: int, hi: int)
    requires SameLayout(m, n) && Covers(m, i, lo, hi)
    ensures Covers(n, i, lo, hi)
  {
  }

  lemma FindCovered(m: Mem, i: nat, lo: int, hi: int, addr: int, len: int)
    requires Covers(m, i, lo, hi) && lo <= addr && len > 0 && addr + len <= hi
    ensures Find(m, addr, len) == i
  {
    assert m[i].ContainsRange(addr, len);
  }

  /** What pushing some bytes onto a covered stack does. */
  ghost predicate Pushed(s: Stack, t: Stack, bytes: seq<byte>) {
    && SameLayout(s.mem, t.mem) && t.sp == s.sp - |bytes|
    && Mapped(Flat(s.mem), t.sp, |bytes|) && Flat(t.mem) == FlatStore(Flat(s.mem), t.sp, bytes)
  }

  lemma WriteCovered(m: Mem, i: nat, lo: int, hi: int, addr: u64, bytes: seq<byte>)
    requires Covers(m, i, lo, hi) && lo <= addr && |bytes| > 0 && addr + |bytes| <= hi
    ensures WriteBytes(m, addr, bytes).Ok?
    ensures var n := WriteBytes(m, addr, bytes).value;
            && Valid(n) && SameLayout(m, n) && Mapped(Flat(m), addr, |bytes|)
            && Flat(n) == FlatStore(Flat(m), addr, bytes)
  {
    FindCovered(m, i, lo, hi, addr, |bytes|);
    LoadIsFlat(m, addr, bytes);
  }

  /** A push succeeds exactly when it stays above the floor. */
  lemma PushBytesMeaning(s: Stack, floor: u64, bytes: seq<byte>, i: nat, hi: int)
    requires Covers(s.mem, i, floor, hi) && s.sp <= hi && |bytes| > 0
    ensures PushBytes(s, floor, bytes).Ok? <==> s.sp - |bytes| >= floor
    ensures PushBytes(s, floor, bytes).Ok? ==> Pushed(s, PushBytes(s, floor, bytes).value, bytes)
  {
    if s.sp - |bytes| >= floor { PushAbove(s, floor, bytes, i, hi); }
  }

  lemma PushAbove(s: Stack, floor: u64, bytes: seq<byte>, i: nat, hi: int)
    requires Covers(s.mem, i, floor, hi) && s.sp <= hi && |bytes| > 0 && s.sp - |bytes| >= floor
    ensures PushBytes(s, floor, bytes).Ok? && Pushed(s, PushBytes(s, floor, bytes).value, bytes)
  {
    var sp := s.sp - |bytes|;
    WriteCovered(s.mem, i, floor, hi, sp, bytes);
    PushWrites(s, floor, bytes, sp, WriteBytes(s.mem, sp, bytes).value);
  }

  lemma PushWrites(s: Stack, floor: u64, bytes: seq<byte>, sp: u64, n: Mem)
    requires sp == s.sp - |bytes| && sp >= floor && WriteBytes(s.mem, sp, bytes) == Ok(n)
    ensures PushBytes(s, floor, bytes) == Ok(Stack(n, sp))
  {
  }

  lemma StoredTwice(m: Space, n: Space, p: Space, a: int, b: int, c: seq<byte>, rest: seq<byte>)
    requires b == a + |c| && Mapped(m, b, |rest|) && n == FlatStore(m, b, rest)
    requires Mapped(n, a, |c|) && p == FlatStore(n, a, c)
    ensures Mapped(m, a, |c + rest|) && p == FlatStore(m, a, c + rest)
  {
    StoreConcat(m, a, c, rest);
    MappedStore(m, a, |c|, a + |c|, rest);
    MappedConcat(m, a, |c|, |rest|);
  }

  lemma LayoutTwice(m: Memory, n: Memory, p: Memory)
    requires SameLayout(m, n) && SameLayout(n, p)
    ensures SameLayout(m, p)
  {
  }

  lemma PushedTwice(s: Stack, t: Stack, u: Stack, c: seq<byte>, rest: seq<byte>)
    requires Pushed(s, t, rest) && Pushed(t, u, c)
    ensures Pushed(s, u, c + rest)
  {
    StoredTwice(Flat(s.mem), Flat(t.mem), Flat(u.mem), u.sp, t.sp, c, rest);
    LayoutTwice(s.mem, t.mem, u.mem);
  }

  lemma PushedNothing(s: Stack)
    ensures Pushed(s, s, [])
  {
    assert FlatStore(Flat(s.mem), s.sp, []) == Flat(s.mem);
  }

  /** Pushing a list leaves its chunks adjacent and in order, and succeeds exactly when they all fit. */
  lemma {:induction false} PushListMeaning(s: Stack, floor: u64, list: seq<seq<byte>>, i: nat, hi: int)
    requires Covers(s.mem, i, floor, hi) && s.sp <= hi && NoneEmpty(list)
    ensures PushList(s, floor, list).Ok? <==> list == [] || s.sp - |Concat(list)| >= floor
    ensures PushList(s, floor, list).Ok? ==> Pushed(s, PushList(s, floor, list).value, Concat(list))
    decreases |list|
  {
    if list == [] {
      PushedNothing(s);
    } else {
      var rest := PushList(s, floor, list[1..]);
      PushListMeaning(s, floor, list[1..], i, hi);
      if rest.Ok? {
        CoversAll(s.mem, rest.value.mem, i, floor, hi);
        PushBytesMeaning(rest.value, floor, list[0], i, hi);
        var out := PushBytes(rest.value, floor, list[0]);
        if out.Ok? { PushedTwice(s, rest.value, out.value, list[0], Concat(list[1..])); }
      }
    }
  }

  /** Where each chunk of a list starts. */
  function Starts(list: seq<seq<byte>>, at: nat): (p: seq<nat>)
    ensures |p| == |list|
  {
    if list == [] then [] else [at] + Starts(list[1..], at + |list[0]|)
  }

  /** Each chunk is found at its start. */
  lemma {:induction false} ChunkAt(m: Space, at: nat, list: seq<seq<byte>>, k: nat)
    requires Holds(m, at, Concat(list)) && k < |list|
    ensures Holds(m, Starts(list, at)[k], list[k]) && at <= Starts(list, at)[k]
    ensures Starts(list, at)[k] + |list[k]| <= at + |Concat(list)|
    decreases |list|
  {
    var c, rest := list[0], Concat(list[1..]);
    assert Concat(list)[..|c|] == c && Concat(list)[|c|..] == rest;
    HoldsSlice(m, at, Concat(list), 0, |c|);
    HoldsSlice(m, at, Concat(list), |c|, |Concat(list)|);
    if k > 0 { ChunkAt(m, at + |c|, list[1..], k - 1); }
  }

  lemma {:induction false} PushListSplit(s: Stack, floor: u64, front: seq<seq<byte>>, back: seq<seq<byte>>)
    ensures PushList(s, floor, front + back)
            == match PushList(s, floor, back) { case Err(e) => Err(e) case Ok(t) => PushList(t, floor, front) }
    decreases |front|
  {
    if front == [] {
      assert front + back == back;
    } else {
      assert (front + back)[1..] == front[1..] + back;
      PushListSplit(s, floor, front[1..], back);
    }
  }
}
