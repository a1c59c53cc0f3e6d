/** InitialStack::build as the loader runs it: sp falls while strings and words are written. */
module StackBuilder {
  import opened Words
  import opened Regions
  import opened FlatMemory
  import opened StackImage
  import opened InitialStack

  lemma {:induction false} StartsSplit(a: seq<seq<byte>>, b: seq<seq<byte>>, at: nat)
    ensures Starts(a + b, at) == Starts(a, at) + Starts(b, at + |Concat(a)|)
    decreases |a|
  {
    if a == [] {
      assert a + b == b;
    } else {
      assert (a + b)[1..] == a[1..] + b;
      StartsSplit(a[1..], b, at + |a[0]|);
    }
  }

  /** One more chunk, in front of those from k on. */
  lemma PushMore(s: Stack, floor: u64, list: seq<seq<byte>>, k: nat, t: Stack, u: Stack)
    requires 0 < k <= |list| && PushList(s, floor, list[k..]) == Ok(t) && PushBytes(t, floor, list[k - 1]) == Ok(u)
    ensures PushList(s, floor, list[k - 1..]) == Ok(u)
    ensures Starts(list[k - 1..], u.sp) == [u.sp] + Starts(list[k..], t.sp)
  {
    assert list[k - 1..][1..] == list[k..];
  }

  /** A chunk that cannot be pushed fails the whole list. */
  lemma PushFails(s: Stack, floor: u64, list: seq<seq<byte>>, k: nat, t: Stack, e: LoadError)
    requires 0 < k <= |list| && PushList(s, floor, list[k..]) == Ok(t) && PushBytes(t, floor, list[k - 1]) == Err(e)
    ensures PushList(s, floor, list) == Err(e)
  {
    assert list[k - 1..][1..] == list[k..];
    assert PushList(s, floor, list[k - 1..]) == Err(e);
    assert list == list[..k - 1] + list[k - 1..];
    PushListSplit(s, floor, list[..k - 1], list[k - 1..]);
  }

  class Builder {
    var mem: Mem
    var sp: u64
    const floor: u64

    constructor (m: Mem, top: u64, bottom: u64)
      ensures mem == m && sp == top && floor == bottom
    {
      mem, sp, floor := m, top, bottom;
    }

    function State(): Stack
      reads this
    {
      Stack(mem, sp)
    }

    /** A failed push may leave sp below the floor, and leaves memory alone. */
    method Push(bytes: seq<byte>) returns (r: Result<u64, LoadError>)
      modifies this
      ensures r.Err? ==> PushBytes(old(State()), floor, bytes) == Err(r.error) && mem == old(mem)
      ensures r.Ok? ==> PushBytes(old(State()), floor, bytes) == Ok(State()) && r.value == sp
    {
      if sp < |bytes| { return Err(StackOverflow); }
      sp := sp - |bytes|;
      if sp < floor { return Err(StackOverflow); }
      LoadIsFlat(mem, sp, bytes);
      match WriteBytes(mem, sp, bytes) {
        case Err(e) => return Err(StackFault(e));
        case Ok(n) => mem := n;
      }
      return Ok(sp);
    }

    /** Chunks in memory order, pushed from the last; the addresses they got. */
    method PushChunks(list: seq<seq<byte>>) returns (r: Result<seq<nat>, LoadError>)
      modifies this
      ensures r.Err? ==> PushList(old(State()), floor, list) == Err(r.error)
      ensures r.Ok? ==> PushList(old(State()), floor, list) == Ok(State()) && r.value == Starts(list, sp)
    {
      var k, ptrs := |list|, [];
      ghost var start := State();
      assert list[|list|..] == [];
      while k > 0
        invariant 0 <= k <= |list|
        invariant PushList(start, floor, list[k..]) == Ok(State()) && ptrs == Starts(list[k..], sp)
      {
        ghost var t := State();
        var p := Push(list[k - 1]);
        if p.Err? {
          PushFails(start, floor, list, k, t, p.error);
          return Err(p.error);
        }
        PushMore(start, floor, list, k, t, State());
        ptrs, k := [p.value] + ptrs, k - 1;
      }
      assert list[0..] == list;
      return Ok(ptrs);
    }

    /** build: strings from the top, sp aligned down to 16, then the words. */
    method Build(argv: seq<Text>, envp: seq<Text>, input: AuxInput) returns (r: Result<Built, LoadError>)
      modifies this
      ensures r == InitialStack.Build(old(mem), old(sp), floor, argv, envp, input)
      ensures r.Ok? ==> mem == r.value.mem && sp == r.value.sp
    {
      var strings := PushStrings(argv, envp);
      if strings.Err? { return Err(strings.error); }
      r := PushWords(argv, envp, strings.value, input);
    }

    /** The second half of build: align, the auxiliary vector, the pointers and argc. */
    method PushWords(argv: seq<Text>, envp: seq<Text>, p: seq<nat>, input: AuxInput) returns (r: Result<Built, LoadError>)
      requires p == Starts(StringChunks(argv, envp), sp)
      modifies this
      ensures r == BuildWords(old(State()), floor, argv, envp, input)
      ensures r.Ok? ==> mem == r.value.mem && sp == r.value.sp
    {
      var c, n := |argv|, |argv| + |envp|;
      var aux := AuxVector(input, p[n], p[n + 1]);
      var chunks := WordChunks(StackWords(p[..c], p[c..n], aux));
      assert chunks == WordChunks(WordsAt(argv, envp, sp, input)) && aux == AuxAt(argv, envp, sp, input);
      sp := AlignDown16(sp);
      var words := PushChunks(chunks);
      if words.Err? { return Err(words.error); }
      return Ok(Built(mem, sp, aux));
    }

    /** execfn, the random bytes, envp and argv, each list from its last string. */
    method PushStrings(argv: seq<Text>, envp: seq<Text>) returns (r: Result<seq<nat>, LoadError>)
      modifies this
      ensures r.Err? ==> PushList(old(State()), floor, StringChunks(argv, envp)) == Err(r.error)
      ensures r.Ok? ==>
                && PushList(old(State()), floor, StringChunks(argv, envp)) == Ok(State())
                && r.value == Starts(StringChunks(argv, envp), sp)
    {
      ghost var start := State();
      StringsInParts(start, floor, argv, envp);
      var names := PushChunks([RANDOM, CString(ExecFn(argv))]);
      if names.Err? { return Err(names.error); }
      ghost var t := State();
      var env := PushChunks(CStrings(envp));
      if env.Err? { return Err(env.error); }
      ghost var u := State();
      var arg := PushChunks(CStrings(argv));
      if arg.Err? { return Err(arg.error); }
      PartsStart(t, u, State(), floor, CStrings(argv), CStrings(envp), [RANDOM, CString(ExecFn(argv))]);
      return Ok(arg.value + (env.value + names.value));
    }
  }

  /** The three parts of the string area, pushed one after the other. */
  function InParts(s: Stack, floor: u64, argv: seq<seq<byte>>, envp: seq<seq<byte>>, last: seq<seq<byte>>): Result<Stack, LoadError> {
    match PushList(s, floor, last)
    case Err(e) => Err(e)
    case Ok(t) =>
      match PushList(t, floor, envp)
      case Err(e) => Err(e)
      case Ok(u) => PushList(u, floor, argv)
  }

  lemma StringsInParts(s: Stack, floor: u64, argv: seq<Text>, envp: seq<Text>)
    ensures PushList(s, floor, StringChunks(argv, envp))
            == InParts(s, floor, CStrings(argv), CStrings(envp), [RANDOM, CString(ExecFn(argv))])
  {
    var last := [RANDOM, CString(ExecFn(argv))];
    PushListSplit(s, floor, CStrings(argv), CStrings(envp) + last);
    PushListSplit(s, floor, CStrings(envp), last);
  }

  lemma {:induction false} PushListSp(s: Stack, floor: u64, list: seq<seq<byte>>)
    requires PushList(s, floor, list).Ok?
    ensures PushList(s, floor, list).value.sp == s.sp - |Concat(list)|
    decreases |list|
  {
    if list != [] { PushListSp(s, floor, list[1..]); }
  }

  lemma StartsThree(a: seq<seq<byte>>, e: seq<seq<byte>>, last: seq<seq<byte>>, v: nat, u: nat, t: nat)
    requires u == v + |Concat(a)| && t == u + |Concat(e)|
    ensures Starts(a + (e + last), v) == Starts(a, v) + (Starts(e, u) + Starts(last, t))
  {
    StartsSplit(a, e + last, v);
    StartsSplit(e, last, u);
  }

  /** The addresses of the parts are those of the whole. */
  lemma PartsStart(t: Stack, u: Stack, v: Stack, floor: u64, argv: seq<seq<byte>>, envp: seq<seq<byte>>, last: seq<seq<byte>>)
    requires PushList(t, floor, envp) == Ok(u) && PushList(u, floor, argv) == Ok(v)
    ensures Starts(argv + (envp + last), v.sp) == Starts(argv, v.sp) + (Starts(envp, u.sp) + Starts(last, t.sp))
  {
    PushListSp(t, floor, envp);
    PushListSp(u, floor, argv);
    StartsThree(argv, envp, last, v.sp, u.sp, t.sp);
  }
}
