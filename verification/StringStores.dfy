/** The stores of the string instructions, element by element, as the block proofs need them. */
module StringStores {
  import opened Words
  import opened Regions
  import opened FlatMemory
  import opened Machine
  import opened StringOps

  /** A store of some bytes, with the execute permission found at its first byte. */
  function StoreAt(m: Mem, addr: u64, size: nat, operand: bool): Store {
    Store(addr, size, PermissionsAt(m, addr).Some? && PermissionsAt(m, addr).value.execute, operand)
  }

  /** The stores of stos, which bypass write_operand. */
  function FillStores(m: Mem, dst: u64, bytes: seq<byte>, step: int, count: nat): seq<Store>
    requires -8 <= step <= 8
    decreases count
  {
    if count == 0 then []
    else
      match WriteBytes(m, dst, bytes)
      case Err(_) => []
      case Ok(n) =>
        LoadIsFlat(m, dst, bytes);
        [StoreAt(m, dst, |bytes|, false)] + FillStores(n, Advance(dst, step), bytes, step, count - 1)
  }

  /** The stores of movs. */
  function CopyStores(m: Mem, src: u64, dst: u64, size: ElementSize, step: int, count: nat): seq<Store>
    requires -8 <= step <= 8
    decreases count
  {
    if count == 0 || ReadBytes(m, src, size).Err? then []
    else
      var bytes := ReadBytes(m, src, size).value;
      match WriteBytes(m, dst, bytes)
      case Err(_) => []
      case Ok(n) =>
        LoadIsFlat(m, dst, bytes);
        [StoreAt(m, dst, |bytes|, false)] + CopyStores(n, Advance(src, step), Advance(dst, step), size, step, count - 1)
  }

  /** Everything between two memories is accounted for by the stores. */
  ghost predicate Accounted(m: Mem, n: Mem, stores: seq<Store>) {
    SameLayout(m, n) && AllPlaced(m, stores) && Outside(m, n, stores)
  }

  lemma AccountedNothing(m: Mem)
    ensures Accounted(m, m, [])
  {
  }

  lemma AccountedOne(m: Mem, n: Mem, addr: u64, bytes: seq<byte>, operand: bool)
    requires |bytes| > 0 && WriteBytes(m, addr, bytes) == Ok(n)
    ensures Accounted(m, n, [StoreAt(m, addr, |bytes|, operand)])
  {
    var s := StoreAt(m, addr, |bytes|, operand);
    LoadBytesFlat(m, addr, bytes);
    var i := Find(m, addr, |bytes|);
    assert m[i].ContainsRange(addr, 1);
    assert Find(m, addr, 1) == i;
    forall a | !Touched([s], a) ensures At(n, a) == At(m, a) {
      assert !In(a, [s][0].addr, [s][0].size);
    }
  }

  lemma PlacedSince(m: Mem, n: Mem, s: Store)
    requires SameLayout(m, n) && Placed(n, s)
    ensures Placed(m, s)
  {
    SameFind(m, n, s.addr, s.size);
  }

  lemma AccountedMore(m: Mem, n: Mem, out: Mem, first: seq<Store>, rest: seq<Store>)
    requires Accounted(m, n, first) && Accounted(n, out, rest)
    ensures Accounted(m, out, first + rest)
  {
    var all := first + rest;
    forall k | 0 <= k < |all| ensures Placed(m, all[k]) {
      if k >= |first| { PlacedSince(m, n, rest[k - |first|]); }
    }
    forall a | !Touched(all, a) ensures At(out, a) == At(m, a) {
      assert forall k :: 0 <= k < |first| ==> all[k] == first[k];
      assert forall k :: 0 <= k < |rest| ==> all[|first| + k] == rest[k];
      assert !Touched(first, a) && !Touched(rest, a);
    }
  }

  lemma {:induction false} FillAccounted(m: Mem, dst: u64, bytes: seq<byte>, step: int, count: nat)
    requires -8 <= step <= 8 && |bytes| > 0
    ensures Valid(FillLoop(m, dst, bytes, step, count).mem)
    ensures Accounted(m, FillLoop(m, dst, bytes, step, count).mem, FillStores(m, dst, bytes, step, count))
    decreases count
  {
    if count == 0 || WriteBytes(m, dst, bytes).Err? {
      AccountedNothing(m);
    } else {
      LoadIsFlat(m, dst, bytes);
      var n: Mem, next := WriteBytes(m, dst, bytes).value, Advance(dst, step);
      AccountedOne(m, n, dst, bytes, false);
      FillAccounted(n, next, bytes, step, count - 1);
      AccountedMore(m, n, FillLoop(n, next, bytes, step, count - 1).mem, [StoreAt(m, dst, |bytes|, false)],
                    FillStores(n, next, bytes, step, count - 1));
    }
  }

  lemma {:induction false} CopyAccounted(m: Mem, src: u64, dst: u64, size: ElementSize, step: int, count: nat)
    requires -8 <= step <= 8
    ensures Valid(CopyLoop(m, src, dst, size, step, count).mem)
    ensures Accounted(m, CopyLoop(m, src, dst, size, step, count).mem, CopyStores(m, src, dst, size, step, count))
    decreases count
  {
    if count == 0 || ReadBytes(m, src, size).Err? || WriteBytes(m, dst, ReadBytes(m, src, size).value).Err? {
      AccountedNothing(m);
    } else {
      var bytes := ReadBytes(m, src, size).value;
      ReadIsFlat(m, src, size);
      LoadIsFlat(m, dst, bytes);
      var n: Mem, from, to := WriteBytes(m, dst, bytes).value, Advance(src, step), Advance(dst, step);
      AccountedOne(m, n, dst, bytes, false);
      CopyAccounted(n, from, to, size, step, count - 1);
      AccountedMore(m, n, CopyLoop(n, from, to, size, step, count - 1).mem, [StoreAt(m, dst, |bytes|, false)],
                    CopyStores(n, from, to, size, step, count - 1));
    }
  }
}
