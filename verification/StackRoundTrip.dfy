/** What a program finds on its initial stack: the arguments, environment and auxiliary vector given to build. */
module StackRoundTrip {
  import opened Words
  import opened Regions
  import opened FlatMemory
  import opened StackImage
  import opened InitialStack
  import opened StackReader

  // ------------------------------------------------------------ words

  lemma {:induction false} WordStarts(w: seq<nat>, at: nat, j: nat)
    requires j < |w|
    ensures Starts(WordChunks(w), at)[j] == at + 8 * j
    decreases |w|
  {
    assert WordChunks(w)[1..] == WordChunks(w[1..]);
    if j > 0 { WordStarts(w[1..], at + 8, j - 1); }
  }

  lemma WordHeld(m: Mem, i: nat, lo: int, hi: int, at: nat, w: seq<nat>, j: nat)
    requires Covers(m, i, lo, hi) && lo <= at && at + 8 * |w| <= hi && Holds(Flat(m), at, Concat(WordChunks(w)))
    requires j < |w| && w[j] < U64
    ensures ReadWordAt(m, at + 8 * j) == Ok(w[j])
  {
    ChunkAt(Flat(m), at, WordChunks(w), j);
    WordStarts(w, at, j);
    var bytes := ToLittleEndian(w[j], 8);
    ReadHeld(m, i, lo, hi, at + 8 * j, bytes);
    WordRoundTrip(w[j]);
    assert ReadAt(m, at + 8 * j, 8) == Ok(bytes);
  }

  lemma {:induction false} AuxWordAt(v: seq<Aux>, j: nat)
    requires j < |v|
    ensures AuxWords(v)[2 * j] == v[j].kind && AuxWords(v)[2 * j + 1] == v[j].value
    decreases |v|
  {
    if j > 0 {
      AuxWordAt(v[1..], j - 1);
      assert AuxWords(v)[2 * j] == AuxWords(v[1..])[2 * (j - 1)];
      assert AuxWords(v)[2 * j + 1] == AuxWords(v[1..])[2 * (j - 1) + 1];
    }
  }

  /** argc, the argv pointers, null, the envp pointers, null, the auxiliary vector. */
  lemma StackWordAt(a: seq<nat>, e: seq<nat>, aux: seq<Aux>)
    ensures var w := StackWords(a, e, aux);
            && w[0] == |a| && w[1 + |a|] == 0 && w[2 + |a| + |e|] == 0
            && (forall k :: 0 <= k < |a| ==> w[1 + k] == a[k])
            && (forall k :: 0 <= k < |e| ==> w[2 + |a| + k] == e[k])
            && w[3 + |a| + |e|..] == AuxWords(aux)
  {
  }

  // ------------------------------------------------------------ the image

  /** A memory that holds a list of chunks at one address and words at a lower one. */
  datatype RawFrame = RawFrame(mem: Mem, region: nat, floor: nat, top: u64, sp: nat, at: nat, list: seq<seq<byte>>, words: seq<nat>)

  ghost predicate LaidOut(f: RawFrame) {
    && Covers(f.mem, f.region, f.floor, f.top) && f.floor <= f.sp && f.sp + 8 * |f.words| <= f.at
    && f.at + |Concat(f.list)| == f.top
    && Holds(Flat(f.mem), f.at, Concat(f.list))
    && Holds(Flat(f.mem), f.sp, Concat(WordChunks(f.words)))
  }

  type Frame = f: RawFrame | LaidOut(f) ghost witness RawFrame([Region(0, 1, READ_WRITE, [0])], 0, 0, 0, 0, 0, [], [])

  /** Where the k-th chunk starts. */
  function PointerOf(f: RawFrame, k: nat): nat
    requires k < |f.list|
  {
    Starts(f.list, f.at)[k]
  }

  lemma ChunkHeld(f: Frame, k: nat)
    requires k < |f.list|
    ensures f.at <= PointerOf(f, k) && PointerOf(f, k) + |f.list[k]| <= f.top && Holds(Flat(f.mem), PointerOf(f, k), f.list[k])
  {
    ChunkAt(Flat(f.mem), f.at, f.list, k);
  }

  /** The words of the frame, one read each. */
  lemma WordBack(f: Frame, j: nat)
    requires j < |f.words| && f.words[j] < U64
    ensures PointersFrom(f.mem, f.sp)(j) == Ok(f.words[j])
  {
    WordHeld(f.mem, f.region, f.floor, f.top, f.sp, f.words, j);
  }

  lemma WordOfFrame(f: Frame, j: nat, m: Mem, addr: nat, v: u64)
    requires j < |f.words| && f.words[j] == v && f.mem == m && addr == f.sp + 8 * j
    ensures ReadWordAt(m, addr) == Ok(v)
  {
    WordBack(f, j);
  }

  /** A string of the frame reads back exactly when it is terminated. */
  lemma StringBack(f: Frame, utf8: Utf8, k: nat, t: Text)
    requires k < |f.list| && f.list[k] == CString(t)
    ensures ReadCString(f.mem, utf8, PointerOf(f, k)) == Ok(t) <==> Terminated(utf8, t)
  {
    ChunkHeld(f, k);
    var p := PointerOf(f, k);
    forall j | 0 <= j <= |t| ensures BytesFrom(f.mem, p)(j) == Ok(CString(t)[j]) {
      ByteHeld(f.mem, f.region, f.floor, f.top, p, CString(t), j);
    }
    assert Spells(BytesFrom(f.mem, p), t);
    CStringBack(BytesFrom(f.mem, p), utf8, t, 0);
    assert t[..0] == [];
  }

  /** Reading from the d-th word on. */
  lemma Shifted(m: Mem, sp: nat, d: nat, k: nat)
    ensures PointersFrom(m, sp + 8 * d)(k) == PointersFrom(m, sp)(d + k)
  {
    assert sp + 8 * d + 8 * k == sp + 8 * (d + k);
  }

  /** Words d, d + 1, ... of the frame point to chunks c, c + 1, ..., which are the strings of v, and a null follows. */
  predicate PointsTo(f: RawFrame, d: nat, c: nat, v: seq<Text>) {
    && d + |v| < |f.words| && c + |v| <= |f.list| && f.words[d + |v|] == 0
    && (forall k :: 0 <= k < |v| ==> PointsAt(f, d + k, c + k, v[k]))
  }

  predicate PointsAt(f: RawFrame, j: nat, k: nat, t: Text) {
    j < |f.words| && k < |f.list| && f.words[j] == PointerOf(f, k) && f.list[k] == CString(t)
  }

  lemma SlotBack(f: Frame, utf8: Utf8, d: nat, k: nat, c: nat, t: Text)
    requires PointsAt(f, d + k, c, t) && f.at > 0
    ensures Slot(PointersFrom(f.mem, f.sp + 8 * d), StringsOf(f.mem, utf8), utf8, k, t)
  {
    ChunkHeld(f, c);
    WordBack(f, d + k);
    Shifted(f.mem, f.sp, d, k);
    StringBack(f, utf8, c, t);
  }

  lemma ListsOfFrame(f: Frame, utf8: Utf8, d: nat, c: nat, v: seq<Text>)
    requires PointsTo(f, d, c, v) && f.at > 0
    ensures Lists(PointersFrom(f.mem, f.sp + 8 * d), StringsOf(f.mem, utf8), utf8, v)
  {
    forall k | 0 <= k < |v| ensures Slot(PointersFrom(f.mem, f.sp + 8 * d), StringsOf(f.mem, utf8), utf8, k, v[k]) {
      assert PointsAt(f, d + k, c + k, v[k]);
      SlotBack(f, utf8, d, k, c + k, v[k]);
    }
    WordBack(f, d + |v|);
    Shifted(f.mem, f.sp, d, |v|);
  }

  /** A list of strings that can be read back: text without NUL, shorter than 4096 bytes and fewer than 4096. */
  predicate Readable(utf8: Utf8, v: seq<Text>) { |v| < LIMIT && AllTerminated(utf8, v) }

  lemma ListReads(pointer: Pointers, text: Strings, utf8: Utf8, v: seq<Text>)
    requires Lists(pointer, text, utf8, v)
    ensures VectorFrom(pointer, text, 0, []) == Ok(v) <==> Readable(utf8, v)
  {
    VectorBack(pointer, text, utf8, v, 0);
    assert v[..0] == [];
  }

  /** Such a vector reads back exactly when it can. */
  lemma VectorReads(f: Frame, utf8: Utf8, d: nat, c: nat, v: seq<Text>, r: Result<seq<Text>, ReadError>)
    requires PointsTo(f, d, c, v) && d > 0 && f.at > 0 && ReadVector(f.mem, utf8, f.sp + 8 * d) == r
    ensures r == Ok(v) <==> Readable(utf8, v)
  {
    ListsOfFrame(f, utf8, d, c, v);
    ListReads(PointersFrom(f.mem, f.sp + 8 * d), StringsOf(f.mem, utf8), utf8, v);
  }

  // ------------------------------------------------------------ the frame of a build

  /** The words of an initial stack over the pointers to its strings. */
  predicate IsFrame(f: RawFrame, argv: seq<Text>, envp: seq<Text>, aux: seq<Aux>) {
    var p, c, n := Starts(f.list, f.at), |argv|, |argv| + |envp|;
    f.list == StringChunks(argv, envp) && n <= |p| && f.words == StackWords(p[..c], p[c..n], aux)
  }

  predicate Small(aux: seq<Aux>) { forall j :: 0 <= j < |aux| ==> aux[j].kind < U64 && aux[j].value < U64 }

  /** The frame that a build leaves. */
  lemma BuiltFrame(m: Mem, top: u64, floor: u64, argv: seq<Text>, envp: seq<Text>, input: AuxInput, i: nat, b: Built) returns (f: Frame)
    requires Covers(m, i, floor, top) && Build(m, top, floor, argv, envp, input) == Ok(b)
    ensures IsBuilt(f, b, argv, envp) && b.aux == AuxAt(argv, envp, f.at, input)
  {
    BuildFits(m, top, floor, argv, envp, input, i);
    StringChunksSize(argv, envp);
    CoversAll(m, b.mem, i, floor, top);
    var s := StringsAt(top, argv, envp);
    f := RawFrame(b.mem, i, floor, top, b.sp, s, StringChunks(argv, envp), WordsAt(argv, envp, s, input));
  }

  /** Auxiliary values are words: inputs, or addresses of the string area. */
  lemma AuxSmall(f: Frame, argv: seq<Text>, envp: seq<Text>, input: AuxInput)
    requires f.list == StringChunks(argv, envp)
    ensures Small(AuxAt(argv, envp, f.at, input))
  {
    ChunkHeld(f, |argv| + |envp|);
    ChunkHeld(f, |argv| + |envp| + 1);
  }

  lemma StringChunkAt(argv: seq<Text>, envp: seq<Text>, k: nat)
    ensures k < |argv| ==> StringChunks(argv, envp)[k] == CString(argv[k])
    ensures k < |envp| ==> StringChunks(argv, envp)[|argv| + k] == CString(envp[k])
    ensures StringChunks(argv, envp)[|argv| + |envp|] == RANDOM
    ensures StringChunks(argv, envp)[|argv| + |envp| + 1] == CString(ExecFn(argv))
  {
  }

  /** The words over pointers p. */
  lemma WordsOf(p: seq<nat>, c: nat, n: nat, aux: seq<Aux>)
    requires c <= n <= |p|
    ensures var w := StackWords(p[..c], p[c..n], aux);
            && |w| == n + 2 * |aux| + 3 && w[0] == c && w[1 + c] == 0 && w[2 + n] == 0 && w[3 + n..] == AuxWords(aux)
  {
    StackWordAt(p[..c], p[c..n], aux);
  }

  lemma ArgvWord(p: seq<nat>, c: nat, n: nat, aux: seq<Aux>, k: nat)
    requires k < c <= n <= |p|
    ensures StackWords(p[..c], p[c..n], aux)[1 + k] == p[k]
  {
    StackWordAt(p[..c], p[c..n], aux);
    assert p[..c][k] == p[k];
  }

  lemma EnvpWord(p: seq<nat>, c: nat, n: nat, aux: seq<Aux>, k: nat)
    requires c + k < n <= |p|
    ensures StackWords(p[..c], p[c..n], aux)[2 + c + k] == p[c + k]
  {
    var a, e := p[..c], p[c..n];
    assert e[k] == p[c + k] && |a| == c && |e| == n - c;
    StackWordAt(a, e, aux);
  }

  lemma ArgvPointsTo(f: RawFrame, argv: seq<Text>, envp: seq<Text>, aux: seq<Aux>)
    requires IsFrame(f, argv, envp, aux)
    ensures PointsTo(f, 1, 0, argv)
  {
    WordsOf(Starts(f.list, f.at), |argv|, |argv| + |envp|, aux);
    forall k | 0 <= k < |argv| ensures PointsAt(f, 1 + k, 0 + k, argv[k]) {
      ArgvPointsAt(f, argv, envp, aux, k);
    }
  }

  lemma ArgvPointsAt(f: RawFrame, argv: seq<Text>, envp: seq<Text>, aux: seq<Aux>, k: nat)
    requires IsFrame(f, argv, envp, aux) && k < |argv|
    ensures PointsAt(f, 1 + k, k, argv[k])
  {
    ArgvWord(Starts(f.list, f.at), |argv|, |argv| + |envp|, aux, k);
    StringChunkAt(argv, envp, k);
  }

  lemma EnvpPointsTo(f: RawFrame, argv: seq<Text>, envp: seq<Text>, aux: seq<Aux>)
    requires IsFrame(f, argv, envp, aux)
    ensures PointsTo(f, |argv| + 2, |argv|, envp)
  {
    WordsOf(Starts(f.list, f.at), |argv|, |argv| + |envp|, aux);
    forall k | 0 <= k < |envp| ensures PointsAt(f, |argv| + 2 + k, |argv| + k, envp[k]) {
      EnvpPointsAt(f, argv, envp, aux, k);
    }
  }

  lemma EnvpPointsAt(f: RawFrame, argv: seq<Text>, envp: seq<Text>, aux: seq<Aux>, k: nat)
    requires IsFrame(f, argv, envp, aux) && k < |envp|
    ensures PointsAt(f, |argv| + 2 + k, |argv| + k, envp[k])
  {
    EnvpWord(Starts(f.list, f.at), |argv|, |argv| + |envp|, aux, k);
    StringChunkAt(argv, envp, k);
  }

  // ------------------------------------------------------------ reading it back

  lemma FrameArgv(f: Frame, argv: seq<Text>, envp: seq<Text>, aux: seq<Aux>, utf8: Utf8, m: Mem, sp: nat, r: Result<seq<Text>, ReadError>)
    requires IsFrame(f, argv, envp, aux) && f.at > 0 && f.mem == m && f.sp == sp && ReadVector(m, utf8, sp + 8) == r
    ensures r == Ok(argv) <==> Readable(utf8, argv)
  {
    ArgvPointsTo(f, argv, envp, aux);
    VectorReads(f, utf8, 1, 0, argv, r);
  }

  lemma FrameEnvp(f: Frame, argv: seq<Text>, envp: seq<Text>, aux: seq<Aux>, utf8: Utf8, m: Mem, sp: nat, r: Result<seq<Text>, ReadError>)
    requires IsFrame(f, argv, envp, aux) && f.at > 0 && f.mem == m && f.sp == sp
    requires ReadVector(m, utf8, sp + 8 * (|argv| + 2)) == r
    ensures r == Ok(envp) <==> Readable(utf8, envp)
  {
    EnvpPointsTo(f, argv, envp, aux);
    VectorReads(f, utf8, |argv| + 2, |argv|, envp, r);
  }

  ghost predicate IsBuilt(f: RawFrame, b: Built, argv: seq<Text>, envp: seq<Text>) {
    f.mem == b.mem && f.sp == b.sp && f.at > 0 && IsFrame(f, argv, envp, b.aux)
  }

  lemma BuiltArgv(f: Frame, b: Built, argv: seq<Text>, envp: seq<Text>, utf8: Utf8)
    requires IsBuilt(f, b, argv, envp)
    ensures ReadVector(b.mem, utf8, b.sp + 8) == Ok(argv) <==> Readable(utf8, argv)
  {
    FrameArgv(f, argv, envp, b.aux, utf8, b.mem, b.sp, ReadVector(b.mem, utf8, b.sp + 8));
  }

  lemma BuiltEnvp(f: Frame, b: Built, argv: seq<Text>, envp: seq<Text>, utf8: Utf8)
    requires IsBuilt(f, b, argv, envp)
    ensures ReadVector(b.mem, utf8, b.sp + 8 * (|argv| + 2)) == Ok(envp) <==> Readable(utf8, envp)
  {
    FrameEnvp(f, argv, envp, b.aux, utf8, b.mem, b.sp, ReadVector(b.mem, utf8, b.sp + 8 * (|argv| + 2)));
  }

  /** argv reads back from behind argc exactly when it can. */
  lemma BuildArgv(m: Mem, top: u64, floor: u64, argv: seq<Text>, envp: seq<Text>, input: AuxInput, i: nat, b: Built, utf8: Utf8)
    requires Covers(m, i, floor, top) && Build(m, top, floor, argv, envp, input) == Ok(b)
    ensures ReadVector(b.mem, utf8, b.sp + 8) == Ok(argv) <==> Readable(utf8, argv)
  {
    var f := BuiltFrame(m, top, floor, argv, envp, input, i, b);
    BuiltArgv(f, b, argv, envp, utf8);
  }

  /** envp reads back from behind argv's null exactly when it can. */
  lemma BuildEnvp(m: Mem, top: u64, floor: u64, argv: seq<Text>, envp: seq<Text>, input: AuxInput, i: nat, b: Built, utf8: Utf8)
    requires Covers(m, i, floor, top) && Build(m, top, floor, argv, envp, input) == Ok(b)
    ensures ReadVector(b.mem, utf8, b.sp + 8 * (|argv| + 2)) == Ok(envp) <==> Readable(utf8, envp)
  {
    var f := BuiltFrame(m, top, floor, argv, envp, input, i, b);
    BuiltEnvp(f, b, argv, envp, utf8);
  }

  /** The word at sp is argc. */
  lemma BuildArgc(m: Mem, top: u64, floor: u64, argv: seq<Text>, envp: seq<Text>, input: AuxInput, i: nat, b: Built)
    requires Covers(m, i, floor, top) && Build(m, top, floor, argv, envp, input) == Ok(b)
    ensures ReadWordAt(b.mem, b.sp) == Ok(|argv|)
  {
    var f := BuiltFrame(m, top, floor, argv, envp, input, i, b);
    var p, c, n := Starts(f.list, f.at), |argv|, |argv| + |envp|;
    WordsOf(p, c, n, b.aux);
    WordOfFrame(f, 0, b.mem, b.sp, |argv|);
  }

  lemma AuxWordsOf(p: seq<nat>, c: nat, n: nat, aux: seq<Aux>, j: nat)
    requires c <= n <= |p| && j < |aux|
    ensures var w, d := StackWords(p[..c], p[c..n], aux), n + 3 + 2 * j;
            d + 1 < |w| && w[d] == aux[j].kind && w[d + 1] == aux[j].value
  {
    WordsOf(p, c, n, aux);
    AuxWordAt(aux, j);
    var w := StackWords(p[..c], p[c..n], aux);
    assert w[3 + n + 2 * j] == w[3 + n..][2 * j] && w[3 + n + 2 * j + 1] == w[3 + n..][2 * j + 1];
  }

  /** The auxiliary entry whose words are the d-th and the one behind it. */
  function AuxEntry(word: Pointers, d: nat): Result<Aux, ReadError> {
    match word(d)
    case Err(e) => Err(e)
    case Ok(k) =>
      match word(d + 1)
      case Err(e) => Err(e)
      case Ok(v) => Ok(Aux(k, v))
  }

  lemma AuxEntryIs(word: Pointers, d: nat, a: Aux)
    requires word(d) == Ok(a.kind) && word(d + 1) == Ok(a.value)
    ensures AuxEntry(word, d) == Ok(a)
  {
  }

  lemma AuxOfFrame(f: Frame, d: nat, a: Aux)
    requires d + 1 < |f.words| && f.words[d] == a.kind < U64 && f.words[d + 1] == a.value < U64
    ensures AuxEntry(PointersFrom(f.mem, f.sp), d) == Ok(a)
  {
    WordBack(f, d);
    WordBack(f, d + 1);
    AuxEntryIs(PointersFrom(f.mem, f.sp), d, a);
  }

  lemma FrameAux(f: Frame, argv: seq<Text>, envp: seq<Text>, aux: seq<Aux>, j: nat)
    requires IsFrame(f, argv, envp, aux) && j < |aux| && Small(aux)
    ensures AuxEntry(PointersFrom(f.mem, f.sp), |argv| + |envp| + 3 + 2 * j) == Ok(aux[j])
  {
    AuxWordsOf(Starts(f.list, f.at), |argv|, |argv| + |envp|, aux, j);
    AuxOfFrame(f, |argv| + |envp| + 3 + 2 * j, aux[j]);
  }

  /** The auxiliary vector follows envp's null, entry by entry, and ends with AT_NULL. */
  lemma BuildAuxiliary(m: Mem, top: u64, floor: u64, argv: seq<Text>, envp: seq<Text>, input: AuxInput, i: nat, b: Built, j: nat)
    requires Covers(m, i, floor, top) && Build(m, top, floor, argv, envp, input) == Ok(b) && j < 14
    ensures |b.aux| == 14 && b.aux[13] == Aux(0, 0)
    ensures AuxEntry(PointersFrom(b.mem, b.sp), |argv| + |envp| + 3 + 2 * j) == Ok(b.aux[j])
  {
    var f := BuiltFrame(m, top, floor, argv, envp, input, i, b);
    AuxSmall(f, argv, envp, input);
    FrameAux(f, argv, envp, b.aux, j);
  }

  lemma FrameRandom(f: Frame, argv: seq<Text>, envp: seq<Text>)
    requires f.list == StringChunks(argv, envp)
    ensures ReadAt(f.mem, PointerOf(f, |argv| + |envp|), 16) == Ok(RANDOM)
  {
    StringChunkAt(argv, envp, 0);
    ChunkHeld(f, |argv| + |envp|);
    ReadHeld(f.mem, f.region, f.floor, f.top, PointerOf(f, |argv| + |envp|), RANDOM);
  }

  /** AT_RANDOM leads to the sixteen bytes. */
  lemma BuildRandom(m: Mem, top: u64, floor: u64, argv: seq<Text>, envp: seq<Text>, input: AuxInput, i: nat, b: Built)
    requires Covers(m, i, floor, top) && Build(m, top, floor, argv, envp, input) == Ok(b)
    ensures b.aux[11].kind == 25 && ReadAt(b.mem, b.aux[11].value, 16) == Ok(RANDOM)
  {
    var f := BuiltFrame(m, top, floor, argv, envp, input, i, b);
    FrameRandom(f, argv, envp);
  }

  lemma FrameName(f: Frame, argv: seq<Text>, envp: seq<Text>, utf8: Utf8)
    requires f.list == StringChunks(argv, envp)
    ensures ReadCString(f.mem, utf8, PointerOf(f, |argv| + |envp| + 1)) == Ok(ExecFn(argv)) <==> Terminated(utf8, ExecFn(argv))
  {
    StringChunkAt(argv, envp, 0);
    StringBack(f, utf8, |argv| + |envp| + 1, ExecFn(argv));
  }

  /** AT_EXECFN leads to the program name. */
  lemma BuildName(m: Mem, top: u64, floor: u64, argv: seq<Text>, envp: seq<Text>, input: AuxInput, i: nat, b: Built, utf8: Utf8)
    requires Covers(m, i, floor, top) && Build(m, top, floor, argv, envp, input) == Ok(b)
    ensures b.aux[12].kind == 31
    ensures ReadCString(b.mem, utf8, b.aux[12].value) == Ok(ExecFn(argv)) <==> Terminated(utf8, ExecFn(argv))
  {
    var f := BuiltFrame(m, top, floor, argv, envp, input, i, b);
    FrameName(f, argv, envp, utf8);
  }

  // ------------------------------------------------------------ alignment

  /** The stack pointer that build leaves is 8-aligned, and 16-aligned exactly when argc + envc is odd. */
  lemma BuildAlignment(m: Mem, top: u64, floor: u64, argv: seq<Text>, envp: seq<Text>, input: AuxInput, i: nat, b: Built)
    requires Covers(m, i, floor, top) && Build(m, top, floor, argv, envp, input) == Ok(b)
    ensures b.sp % 8 == 0
    ensures b.sp % 16 == 0 <==> (|argv| + |envp|) % 2 == 1
  {
    assert b.sp == FinalSp(top, argv, envp) by { BuildFits(m, top, floor, argv, envp, input, i); }
    FinalAlignment(top, argv, envp, b.sp);
  }

  lemma FinalAlignment(top: int, argv: seq<Text>, envp: seq<Text>, sp: int)
    requires sp == FinalSp(top, argv, envp)
    ensures sp % 8 == 0 && (sp % 16 == 0 <==> (|argv| + |envp|) % 2 == 1)
  {
    AlignedMinus(StringsAt(top, argv, envp), |argv| + |envp| + 31);
  }

  /** One argument and one variable on a page of stack. */
  const PAGE: Mem := [Region(0x1000, 0x1000, READ_WRITE, seq(0x1000, _ => 0))]

  const ONE_ARGUMENT: seq<Text> := [[0x61]]
  const ONE_VARIABLE: seq<Text> := [[0x62]]

  lemma OneOfEachSize()
    ensures StringSize(ONE_ARGUMENT, ONE_VARIABLE) == 22
  {
    assert TextSize(ONE_ARGUMENT) == 2 + TextSize([]) && TextSize(ONE_VARIABLE) == 2 + TextSize([]);
  }

  /** A build that succeeds and leaves the stack pointer off a 16-byte boundary. */
  lemma BuildCanMisalign(input: AuxInput) returns (b: Built)
    ensures Build(PAGE, 0x2000, 0x1000, ONE_ARGUMENT, ONE_VARIABLE, input) == Ok(b) && b.sp % 16 == 8
  {
    assert FinalSp(0x2000, ONE_ARGUMENT, ONE_VARIABLE) == 0x1ed8 by { OneOfEachSize(); }
    b := FittingBuild(PAGE, 0x2000, 0x1000, ONE_ARGUMENT, ONE_VARIABLE, input, 0);
  }

  lemma FittingBuild(m: Mem, top: u64, floor: u64, argv: seq<Text>, envp: seq<Text>, input: AuxInput, i: nat) returns (b: Built)
    requires Covers(m, i, floor, top) && FinalSp(top, argv, envp) >= floor
    ensures Build(m, top, floor, argv, envp, input) == Ok(b) && b.sp == FinalSp(top, argv, envp)
  {
    BuildFits(m, top, floor, argv, envp, input, i);
    b := Build(m, top, floor, argv, envp, input).value;
  }

  lemma AlignedMinus(x: int, n: nat)
    ensures (AlignDown16(x) - 8 * n) % 8 == 0 && ((AlignDown16(x) - 8 * n) % 16 == 0 <==> n % 2 == 0)
  {
    var q, h := x / 16, n / 2;
    var v := AlignDown16(x) - 8 * n;
    assert AlignDown16(x) == 16 * q && n == 2 * h + n % 2;
    if n % 2 == 0 {
      ModUnique(v, 16, q - h, 0);
      ModUnique(v, 8, 2 * (q - h), 0);
    } else {
      ModUnique(v, 16, q - h - 1, 8);
      ModUnique(v, 8, 2 * (q - h) - 1, 0);
    }
  }
}
