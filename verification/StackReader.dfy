/** read_c_string and read_string_vector, and reading back an initial stack. */
module StackReader {
  import opened Words
  import opened Regions
  import opened FlatMemory
  import opened StackImage
  import opened InitialStack

  datatype ReadError = Faulted(cause: MemError) | NameTooLong | InvalidText

  const LIMIT: nat := 4096

  /** Which byte strings are text: String::from_utf8. */
  type Utf8 = Text -> bool

  function ReadAt(m: Mem, a: nat, len: nat): Result<seq<byte>, ReadError> {
    if a >= U64 then Err(Faulted(AddressOverflow(a, len)))
    else
      match ReadBytes(m, a, len)
      case Err(e) => Err(Faulted(e))
      case Ok(b) => Ok(b)
  }

  function ReadByteAt(m: Mem, a: nat): Result<byte, ReadError> {
    match ReadAt(m, a, 1)
    case Err(e) => Err(e)
    case Ok(b) => ReadBytesFlat(m, a, 1); Ok(b[0])
  }

  function ReadWordAt(m: Mem, a: nat): Result<u64, ReadError> {
    match ReadAt(m, a, 8)
    case Err(e) => Err(e)
    case Ok(b) => ReadBytesFlat(m, a, 8); Ok(WordOf(b))
  }

  /** The bytes from an address on, one read each. */
  type Bytes = nat -> Result<byte, ReadError>

  function BytesFrom(m: Mem, addr: nat): Bytes { (k: nat) => ReadByteAt(m, addr + k) }

  /** read_c_string from its k-th read on, after the bytes read before. */
  function CStringFrom(read: Bytes, utf8: Utf8, k: nat, acc: Text): Result<Text, ReadError>
    requires k <= LIMIT
    decreases LIMIT - k
  {
    if k == LIMIT then Err(NameTooLong)
    else
      match read(k)
      case Err(e) => Err(e)
      case Ok(b) =>
        if b == 0 then (if utf8(acc) then Ok(acc) else Err(InvalidText))
        else CStringFrom(read, utf8, k + 1, acc + [b])
  }

  function ReadCString(m: Mem, utf8: Utf8, addr: nat): Result<Text, ReadError> {
    CStringFrom(BytesFrom(m, addr), utf8, 0, [])
  }

  /** The pointers from an address on, and the strings they lead to. */
  type Pointers = nat -> Result<u64, ReadError>

  type Strings = nat -> Result<Text, ReadError>

  function PointersFrom(m: Mem, addr: nat): Pointers { (k: nat) => ReadWordAt(m, addr + 8 * k) }

  function StringsOf(m: Mem, utf8: Utf8): Strings { (p: nat) => ReadCString(m, utf8, p) }

  /** read_string_vector from its k-th entry on, after the strings read before. */
  function VectorFrom(pointer: Pointers, text: Strings, k: nat, acc: seq<Text>): Result<seq<Text>, ReadError>
    requires k <= LIMIT
    decreases LIMIT - k
  {
    if k == LIMIT then Err(InvalidText)
    else
      match pointer(k)
      case Err(e) => Err(e)
      case Ok(p) =>
        if p == 0 then Ok(acc)
        else
          match text(p)
          case Err(e) => Err(e)
          case Ok(t) => VectorFrom(pointer, text, k + 1, acc + [t])
  }

  /** A null vector reads as empty. */
  function ReadVector(m: Mem, utf8: Utf8, addr: nat): Result<seq<Text>, ReadError> {
    if addr == 0 then Ok([]) else VectorFrom(PointersFrom(m, addr), StringsOf(m, utf8), 0, [])
  }

  // ------------------------------------------------------------ the loops

  method CStringLoop(read: Bytes, utf8: Utf8) returns (r: Result<Text, ReadError>)
    ensures r == CStringFrom(read, utf8, 0, [])
  {
    var bytes, k := [], 0;
    while k < LIMIT
      invariant 0 <= k <= LIMIT && CStringFrom(read, utf8, k, bytes) == CStringFrom(read, utf8, 0, [])
    {
      var b := read(k);
      if b.Err? { return Err(b.error); }
      if b.value == 0 { return if utf8(bytes) then Ok(bytes) else Err(InvalidText); }
      bytes, k := bytes + [b.value], k + 1;
    }
    return Err(NameTooLong);
  }

  method VectorLoop(pointer: Pointers, text: Strings) returns (r: Result<seq<Text>, ReadError>)
    ensures r == VectorFrom(pointer, text, 0, [])
  {
    var values, k := [], 0;
    while k < LIMIT
      invariant 0 <= k <= LIMIT && VectorFrom(pointer, text, k, values) == VectorFrom(pointer, text, 0, [])
    {
      var p := pointer(k);
      if p.Err? { return Err(p.error); }
      if p.value == 0 { return Ok(values); }
      var t := text(p.value);
      if t.Err? { return Err(t.error); }
      values, k := values + [t.value], k + 1;
    }
    return Err(InvalidText);
  }

  // ------------------------------------------------------------ reading what memory holds

  lemma ReadCovered(m: Mem, i: nat, lo: int, hi: int, a: nat, len: nat)
    requires Covers(m, i, lo, hi) && lo <= a && 0 < len && a + len <= hi
    ensures a < U64 && ReadBytes(m, a, len).Ok? && Holds(Flat(m), a, ReadBytes(m, a, len).value)
    ensures |ReadBytes(m, a, len).value| == len
  {
    FindCovered(m, i, lo, hi, a, len);
    ReadBytesFlat(m, a, len);
    ReadIsFlat(m, a, len);
  }

  /** A covered range reads back what it holds. */
  lemma ReadHeld(m: Mem, i: nat, lo: int, hi: int, a: nat, bytes: seq<byte>)
    requires Covers(m, i, lo, hi) && lo <= a && a + |bytes| <= hi && Holds(Flat(m), a, bytes) && |bytes| > 0
    ensures ReadAt(m, a, |bytes|) == Ok(bytes)
  {
    ReadCovered(m, i, lo, hi, a, |bytes|);
    HoldsUnique(Flat(m), a, ReadBytes(m, a, |bytes|).value, bytes);
  }

  lemma ByteHeld(m: Mem, i: nat, lo: int, hi: int, addr: nat, bytes: seq<byte>, k: nat)
    requires Covers(m, i, lo, hi) && lo <= addr && addr + |bytes| <= hi && Holds(Flat(m), addr, bytes) && k < |bytes|
    ensures BytesFrom(m, addr)(k) == Ok(bytes[k])
  {
    var one := bytes[k..k + 1];
    HoldsSlice(Flat(m), addr, bytes, k, k + 1);
    ReadHeld(m, i, lo, hi, addr + k, one);
    assert |one| == 1 && one[0] == bytes[k];
    assert ReadByteAt(m, addr + k) == Ok(bytes[k]);
  }

  /** Text that survives being read back as a c-string. */
  predicate Terminated(utf8: Utf8, s: Text) { 0 !in s && |s| < LIMIT && utf8(s) }

  ghost predicate Spells(read: Bytes, s: Text) {
    forall k :: 0 <= k <= |s| ==> read(k) == Ok(CString(s)[k])
  }

  /** A c-string reads back as itself exactly when it is text without NUL and short enough. */
  lemma {:induction false} CStringBack(read: Bytes, utf8: Utf8, s: Text, k: nat)
    requires Spells(read, s) && k <= |s| && k <= LIMIT && 0 !in s[..k]
    ensures CStringFrom(read, utf8, k, s[..k]) == Ok(s) <==> Terminated(utf8, s)
    decreases LIMIT - k
  {
    if k < LIMIT {
      assert read(k) == Ok(CString(s)[k]);
      if k == |s| {
        assert s[..k] == s;
      } else if s[k] != 0 {
        assert s[..k] + [s[k]] == s[..k + 1];
        CStringBack(read, utf8, s, k + 1);
      } else {
        assert s[..k] != s && s[k] in s;
      }
    }
  }

  lemma {:induction false} VectorPrefix(pointer: Pointers, text: Strings, k: nat, acc: seq<Text>)
    requires k <= LIMIT && VectorFrom(pointer, text, k, acc).Ok?
    ensures acc <= VectorFrom(pointer, text, k, acc).value
    decreases LIMIT - k
  {
    if pointer(k).value != 0 { VectorPrefix(pointer, text, k + 1, acc + [text(pointer(k).value).value]); }
  }

  predicate AllTerminated(utf8: Utf8, v: seq<Text>) { forall k :: 0 <= k < |v| ==> Terminated(utf8, v[k]) }

  /** A pointer to a string that reads back exactly when it is terminated. */
  predicate Slot(pointer: Pointers, text: Strings, utf8: Utf8, k: nat, t: Text) {
    pointer(k).Ok? && pointer(k).value > 0 && (text(pointer(k).value) == Ok(t) <==> Terminated(utf8, t))
  }

  /** A null-terminated vector of such pointers. */
  ghost predicate Lists(pointer: Pointers, text: Strings, utf8: Utf8, v: seq<Text>) {
    (forall k :: 0 <= k < |v| ==> Slot(pointer, text, utf8, k, v[k])) && pointer(|v|) == Ok(0)
  }

  /** A vector reads back exactly when every string does and it has fewer than 4096 entries. */
  lemma {:induction false} VectorBack(pointer: Pointers, text: Strings, utf8: Utf8, v: seq<Text>, k: nat)
    requires Lists(pointer, text, utf8, v) && k <= |v| && k <= LIMIT && AllTerminated(utf8, v[..k])
    ensures VectorFrom(pointer, text, k, v[..k]) == Ok(v) <==> |v| < LIMIT && AllTerminated(utf8, v)
    decreases LIMIT - k
  {
    if k < LIMIT {
      if k == |v| {
        assert v[..k] == v;
      } else {
        assert Slot(pointer, text, utf8, k, v[k]);
        if Terminated(utf8, v[k]) {
          assert v[..k] + [v[k]] == v[..k + 1];
          VectorBack(pointer, text, utf8, v, k + 1);
        } else {
          VectorStrays(pointer, text, utf8, v, k);
        }
      }
    }
  }

  lemma VectorStrays(pointer: Pointers, text: Strings, utf8: Utf8, v: seq<Text>, k: nat)
    requires k < |v| && k < LIMIT && Slot(pointer, text, utf8, k, v[k]) && !Terminated(utf8, v[k])
    ensures VectorFrom(pointer, text, k, v[..k]) != Ok(v)
  {
    var r := text(pointer(k).value);
    if r.Ok? && VectorFrom(pointer, text, k + 1, v[..k] + [r.value]).Ok? {
      VectorPrefix(pointer, text, k + 1, v[..k] + [r.value]);
      assert (v[..k] + [r.value])[k] == r.value;
    }
  }
}
