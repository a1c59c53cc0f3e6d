/** The initial stack of a program: strings, alignment, auxiliary vector, pointers and argument count. */
module InitialStack {
  import opened Words
  import opened Regions
  import opened FlatMemory
  import opened StackImage

  type Text = seq<byte>

  function CString(s: Text): seq<byte> { s + [0] }

  function CStrings(v: seq<Text>): seq<seq<byte>> { seq(|v|, k requires 0 <= k < |v| => CString(v[k])) }

  /** The bytes behind AT_RANDOM. */
  const RANDOM: seq<byte> := [0x52, 0x52, 0x52, 0x52, 0x52, 0x52, 0x52, 0x52, 0x52, 0x52, 0x52, 0x52, 0x52, 0x52, 0x52, 0x52]

  function ExecFn(argv: seq<Text>): Text { if argv == [] then [] else argv[0] }

  /** The string area in memory order; it is pushed from its end. */
  function StringChunks(argv: seq<Text>, envp: seq<Text>): (list: seq<seq<byte>>)
    ensures |list| == |argv| + |envp| + 2
  {
    CStrings(argv) + (CStrings(envp) + [RANDOM, CString(ExecFn(argv))])
  }

  datatype AuxInput = AuxInput(phdr: u64, phent: u64, phnum: u64, entry: u64, base: u64, pageSize: u64)

  datatype Aux = Aux(kind: nat, value: nat)

  function AuxVector(i: AuxInput, random: nat, execfn: nat): (v: seq<Aux>)
    ensures |v| == 14 && v[13] == Aux(0, 0)
  {
    [Aux(3, i.phdr), Aux(4, i.phent), Aux(5, i.phnum), Aux(6, i.pageSize), Aux(7, i.base), Aux(9, i.entry),
     Aux(11, 0), Aux(12, 0), Aux(13, 0), Aux(14, 0), Aux(23, 0), Aux(25, random), Aux(31, execfn), Aux(0, 0)]
  }

  function AuxWords(v: seq<Aux>): (w: seq<nat>)
    ensures |w| == 2 * |v|
  {
    if v == [] then [] else [v[0].kind, v[0].value] + AuxWords(v[1..])
  }

  /** The words from the final sp upwards (section 3.4.1 of the System V AMD64 ABI). */
  function StackWords(argv: seq<nat>, envp: seq<nat>, aux: seq<Aux>): (w: seq<nat>)
    ensures |w| == |argv| + |envp| + 2 * |aux| + 3
  {
    [|argv|] + (argv + ([0] + (envp + ([0] + AuxWords(aux)))))
  }

  function WordChunks(w: seq<nat>): seq<seq<byte>> { seq(|w|, k requires 0 <= k < |w| => ToLittleEndian(w[k], 8)) }

  function AlignDown16(x: int): int { x - x % 16 }

  datatype Built = Built(mem: Mem, sp: u64, aux: seq<Aux>)

  /** The words pushed once the strings lie at s. */
  function WordsAt(argv: seq<Text>, envp: seq<Text>, s: nat, input: AuxInput): seq<nat> {
    var p, c, n := Starts(StringChunks(argv, envp), s), |argv|, |argv| + |envp|;
    StackWords(p[..c], p[c..n], AuxVector(input, p[n], p[n + 1]))
  }

  function AuxAt(argv: seq<Text>, envp: seq<Text>, s: nat, input: AuxInput): seq<Aux> {
    var p, n := Starts(StringChunks(argv, envp), s), |argv| + |envp|;
    AuxVector(input, p[n], p[n + 1])
  }

  /** build: the strings, then the rest. */
  function Build(m: Mem, top: u64, floor: u64, argv: seq<Text>, envp: seq<Text>, input: AuxInput): Result<Built, LoadError> {
    match PushList(Stack(m, top), floor, StringChunks(argv, envp))
    case Err(e) => Err(e)
    case Ok(s) => BuildWords(s, floor, argv, envp, input)
  }

  /** sp aligned down to 16, then the words. */
  function BuildWords(s: Stack, floor: u64, argv: seq<Text>, envp: seq<Text>, input: AuxInput): Result<Built, LoadError> {
    match PushList(Stack(s.mem, AlignDown16(s.sp)), floor, WordChunks(WordsAt(argv, envp, s.sp, input)))
    case Err(e) => Err(e)
    case Ok(t) => Ok(Built(t.mem, t.sp, AuxAt(argv, envp, s.sp, input)))
  }

  // ------------------------------------------------------------ sizes

  /** Bytes of the c-strings of a list. */
  function TextSize(v: seq<Text>): nat {
    if v == [] then 0 else |v[0]| + 1 + TextSize(v[1..])
  }

  function StringSize(argv: seq<Text>, envp: seq<Text>): nat {
    TextSize(argv) + TextSize(envp) + 16 + |ExecFn(argv)| + 1
  }

  lemma {:induction false} ConcatSplit(a: seq<seq<byte>>, b: seq<seq<byte>>)
    ensures Concat(a + b) == Concat(a) + Concat(b)
    decreases |a|
  {
    if a == [] {
      assert a + b == b;
    } else {
      assert (a + b)[1..] == a[1..] + b;
      ConcatSplit(a[1..], b);
    }
  }

  lemma {:induction false} CStringsSize(v: seq<Text>)
    ensures |Concat(CStrings(v))| == TextSize(v)
    decreases |v|
  {
    if v != [] {
      assert CStrings(v)[1..] == CStrings(v[1..]);
      CStringsSize(v[1..]);
    }
  }

  lemma StringChunksSize(argv: seq<Text>, envp: seq<Text>)
    ensures |Concat(StringChunks(argv, envp))| == StringSize(argv, envp) && NoneEmpty(StringChunks(argv, envp))
  {
    var last := [RANDOM, CString(ExecFn(argv))];
    ConcatSplit(CStrings(argv), CStrings(envp) + last);
    ConcatSplit(CStrings(envp), last);
    CStringsSize(argv);
    CStringsSize(envp);
    var tail: seq<seq<byte>> := last[1..];
    assert tail == [CString(ExecFn(argv))] && |tail[1..]| == 0;
    assert Concat(tail) == CString(ExecFn(argv)) + Concat(tail[1..]);
  }

  lemma {:induction false} WordChunksSize(w: seq<nat>)
    ensures |Concat(WordChunks(w))| == 8 * |w| && NoneEmpty(WordChunks(w))
    decreases |w|
  {
    if w != [] {
      assert WordChunks(w)[1..] == WordChunks(w[1..]);
      WordChunksSize(w[1..]);
    }
  }

  // ------------------------------------------------------------ what a build leaves

  /** Where the strings begin, and the final sp. */
  function StringsAt(top: int, argv: seq<Text>, envp: seq<Text>): int { top - StringSize(argv, envp) }

  function FinalSp(top: int, argv: seq<Text>, envp: seq<Text>): int {
    AlignDown16(StringsAt(top, argv, envp)) - 8 * (|argv| + |envp| + 31)
  }

  /** Strings above, words below, the gap between them and everything else as before. */
  ghost predicate Image(m: Mem, b: Built, s: nat, argv: seq<Text>, envp: seq<Text>, input: AuxInput) {
    var area, words := Concat(StringChunks(argv, envp)), Concat(WordChunks(WordsAt(argv, envp, s, input)));
    && b.aux == AuxAt(argv, envp, s, input)
    && SameLayout(m, b.mem)
    && Flat(b.mem) == FlatStore(FlatStore(Flat(m), s, area), b.sp, words)
    && Holds(Flat(b.mem), s, area)
    && Holds(Flat(b.mem), b.sp, words)
  }

  /** A build succeeds exactly when strings and words fit above the floor. */
  lemma BuildFits(m: Mem, top: u64, floor: u64, argv: seq<Text>, envp: seq<Text>, input: AuxInput, i: nat)
    requires Covers(m, i, floor, top)
    ensures Build(m, top, floor, argv, envp, input).Ok? <==> FinalSp(top, argv, envp) >= floor
    ensures Build(m, top, floor, argv, envp, input).Ok? ==>
              var b := Build(m, top, floor, argv, envp, input).value;
              && StringsAt(top, argv, envp) >= 0 && b.sp == FinalSp(top, argv, envp)
              && Image(m, b, StringsAt(top, argv, envp), argv, envp, input)
  {
    var list, z := StringChunks(argv, envp), Stack(m, top);
    StringChunksSize(argv, envp);
    PushListMeaning(z, floor, list, i, top);
    AlignBelow(StringsAt(top, argv, envp));
    if PushList(z, floor, list).Ok? {
      var s := PushList(z, floor, list).value;
      WordsFit(z, s, top, floor, argv, envp, input, i, StringsAt(top, argv, envp));
      assert Build(m, top, floor, argv, envp, input) == BuildWords(s, floor, argv, envp, input);
    }
  }

  lemma AlignBelow(x: int)
    ensures AlignDown16(x) <= x
  {
  }

  /** The second half of a build, once the strings are pushed. */
  lemma WordsFit(z: Stack, s: Stack, top: u64, floor: u64, argv: seq<Text>, envp: seq<Text>, input: AuxInput, i: nat, at: int)
    requires Covers(z.mem, i, floor, top) && s.sp <= top && Pushed(z, s, Concat(StringChunks(argv, envp))) && at == s.sp
    ensures BuildWords(s, floor, argv, envp, input).Ok? <==> AlignDown16(at) - 8 * (|argv| + |envp| + 31) >= floor
    ensures BuildWords(s, floor, argv, envp, input).Ok? ==>
              BuildWords(s, floor, argv, envp, input).value.sp == AlignDown16(at) - 8 * (|argv| + |envp| + 31)
    ensures BuildWords(s, floor, argv, envp, input).Ok? ==>
              Image(z.mem, BuildWords(s, floor, argv, envp, input).value, at, argv, envp, input)
  {
    var w, a := WordsAt(argv, envp, s.sp, input), Stack(s.mem, AlignDown16(s.sp));
    CoversAll(z.mem, s.mem, i, floor, top);
    WordChunksSize(w);
    PushListMeaning(a, floor, WordChunks(w), i, top);
    var t := PushList(a, floor, WordChunks(w));
    if t.Ok? { ImageOf(z, s, a, t.value, argv, envp, input); }
  }

  lemma ImageOf(z: Stack, s: Stack, a: Stack, t: Stack, argv: seq<Text>, envp: seq<Text>, input: AuxInput)
    requires Pushed(z, s, Concat(StringChunks(argv, envp))) && a == Stack(s.mem, AlignDown16(s.sp))
    requires Pushed(a, t, Concat(WordChunks(WordsAt(argv, envp, s.sp, input))))
    ensures Image(z.mem, Built(t.mem, t.sp, AuxAt(argv, envp, s.sp, input)), s.sp, argv, envp, input)
  {
    var area, words := Concat(StringChunks(argv, envp)), Concat(WordChunks(WordsAt(argv, envp, s.sp, input)));
    HoldsStored(Flat(z.mem), s.sp, area);
    HoldsStored(Flat(s.mem), t.sp, words);
    HoldsApart(Flat(s.mem), s.sp, area, t.sp, words);
    LayoutTwice(z.mem, s.mem, t.mem);
  }
}
