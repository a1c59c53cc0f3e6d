/** Guest paths as text: splitting, normalising and rendering. */
module Paths {
  import opened Words

  /** split('/'): at least one piece. */
  function Split(s: string): (ps: seq<string>)
    ensures |ps| > 0
  {
    if s == "" then [""]
    else if s[0] == '/' then [""] + Split(s[1..])
    else var r := Split(s[1..]); [[s[0]] + r[0]] + r[1..]
  }

  function Join(ps: seq<string>): string {
    if |ps| == 0 then "" else if |ps| == 1 then ps[0] else ps[0] + "/" + Join(ps[1..])
  }

  function NonEmpty(ps: seq<string>): seq<string> {
    if ps == [] then [] else if ps[0] == "" then NonEmpty(ps[1..]) else [ps[0]] + NonEmpty(ps[1..])
  }

  /** GuestPath::components. */
  function Components(raw: string): seq<string> { NonEmpty(Split(raw)) }

  /** guest_from_components. */
  function Render(ps: seq<string>): string { if ps == [] then "/" else "/" + Join(ps) }

  /** replace('\\', "/"). */
  function Slashed(s: string): (r: string)
    ensures |r| == |s|
    ensures forall k :: 0 <= k < |s| ==> r[k] == if s[k] == '\\' then '/' else s[k]
  {
    seq(|s|, k requires 0 <= k < |s| => if s[k] == '\\' then '/' else s[k])
  }

  /** One name of a normalised path. */
  predicate Name(p: string) {
    p != "" && p != "." && p != ".." && '/' !in p && '\\' !in p && '\0' !in p
  }

  predicate Names(ps: seq<string>) { forall k :: 0 <= k < |ps| ==> Name(ps[k]) }

  /** The walk over the pieces of a path: empty and "." stay, ".." goes up, never above the root. */
  function Walk(acc: seq<string>, pieces: seq<string>): seq<string>
    decreases |pieces|
  {
    if pieces == [] then acc else Walk(Take(acc, pieces[0]), pieces[1..])
  }

  function Take(acc: seq<string>, piece: string): seq<string> {
    if piece == "" || piece == "." then acc
    else if piece == ".." then (if acc == [] then [] else acc[..|acc| - 1])
    else acc + [piece]
  }

  datatype PathError = EmptyPath | WindowsPrefix | NulByte | TooManySymlinks

  /** Which texts the host takes to begin with a drive or share prefix. */
  type Prefixed = string -> bool

  /** from_parts. */
  function FromParts(prefixed: Prefixed, cwd: string, path: string): Result<string, PathError> {
    if path == "" then Err(EmptyPath)
    else if '\0' in path then Err(NulByte)
    else if prefixed(path) then Err(WindowsPrefix)
    else
      var s := Slashed(path);
      Ok(Render(Walk(if s[0] == '/' then [] else Components(cwd), Split(s))))
  }

  // ------------------------------------------------------------ text

  lemma {:induction false} SplitPlain(s: string)
    requires '/' !in s
    ensures Split(s) == [s]
  {
    if s != "" {
      assert s[0] in s && [s[0]] + s[1..] == s;
      SplitPlain(s[1..]);
    }
  }

  lemma {:induction false} SplitFirst(a: string, rest: string)
    requires '/' !in a
    ensures Split(a + "/" + rest) == [a] + Split(rest)
  {
    var s := a + "/" + rest;
    if a == "" {
      assert s[1..] == rest;
    } else {
      assert a[0] in a && s[0] == a[0] && [a[0]] + a[1..] == a;
      assert s[1..] == a[1..] + "/" + rest;
      SplitFirst(a[1..], rest);
      assert ([a[1..]] + Split(rest))[1..] == Split(rest);
    }
  }

  /** Joining and splitting are inverse on slash-free pieces. */
  lemma {:induction false} SplitJoin(ps: seq<string>)
    requires |ps| > 0 && forall k :: 0 <= k < |ps| ==> '/' !in ps[k]
    ensures Split(Join(ps)) == ps
    decreases |ps|
  {
    if |ps| == 1 {
      SplitPlain(ps[0]);
    } else {
      SplitJoin(ps[1..]);
      SplitFirst(ps[0], Join(ps[1..]));
    }
  }

  lemma {:induction false} NonEmptyNames(ps: seq<string>)
    requires Names(ps)
    ensures NonEmpty(ps) == ps
    decreases |ps|
  {
    if ps != [] {
      assert Name(ps[0]);
      NonEmptyNames(ps[1..]);
    }
  }

  /** A rendered path splits into an empty piece and its names. */
  lemma SplitRender(ps: seq<string>)
    requires Names(ps)
    ensures Split(Render(ps)) == if ps == [] then ["", ""] else [""] + ps
  {
    if ps == [] {
      assert Split("/") == [""] + Split("/"[1..]) && "/"[1..] == "";
    } else {
      var s := Render(ps);
      assert s[1..] == Join(ps);
      forall k | 0 <= k < |ps| ensures '/' !in ps[k] { assert Name(ps[k]); }
      SplitJoin(ps);
    }
  }

  /** Components of a rendered path are its names. */
  lemma ComponentsRender(ps: seq<string>)
    requires Names(ps)
    ensures Components(Render(ps)) == ps
  {
    SplitRender(ps);
    NonEmptyNames(ps);
    if ps == [] {
      assert NonEmpty(["", ""]) == NonEmpty([""]) == [];
    } else {
      assert ([""] + ps)[1..] == ps;
    }
  }

  predicate Lacks(s: string, c: char) { c !in s }

  /** No piece of a text has a slash, nor any character the text lacks. */
  lemma {:induction false} SplitLacks(s: string, c: char, k: nat)
    requires (c == '/' || Lacks(s, c)) && k < |Split(s)|
    ensures Lacks(Split(s)[k], c)
  {
    if s != "" {
      if s[0] == '/' {
        if k > 0 { SplitLacks(s[1..], c, k - 1); }
      } else {
        SplitLacks(s[1..], c, k);
      }
    }
  }

  lemma {:induction false} JoinLacks(ps: seq<string>, c: char)
    requires c != '/' && forall k :: 0 <= k < |ps| ==> Lacks(ps[k], c)
    ensures Lacks(Join(ps), c)
    decreases |ps|
  {
    if |ps| > 1 { JoinLacks(ps[1..], c); }
  }

  // ------------------------------------------------------------ normalised paths

  /** Pieces that could come from a text without backslash and NUL. */
  predicate Pieces(ps: seq<string>) { forall k :: 0 <= k < |ps| ==> Lacks(ps[k], '/') && Lacks(ps[k], '\\') && Lacks(ps[k], '\0') }

  lemma {:induction false} WalkNames(acc: seq<string>, ps: seq<string>)
    requires Names(acc) && Pieces(ps)
    ensures Names(Walk(acc, ps))
    decreases |ps|
  {
    if ps != [] {
      assert Lacks(ps[0], '/') && Lacks(ps[0], '\\') && Lacks(ps[0], '\0');
      WalkNames(Take(acc, ps[0]), ps[1..]);
    }
  }

  /** Names are walked as they are. */
  lemma {:induction false} WalkPlain(acc: seq<string>, ps: seq<string>)
    requires Names(ps)
    ensures Walk(acc, ps) == acc + ps
    decreases |ps|
  {
    if ps != [] {
      assert Name(ps[0]);
      WalkPlain(acc + [ps[0]], ps[1..]);
      assert acc + [ps[0]] + ps[1..] == acc + ps;
    }
  }

  /** A guest path: absolute, without empty, "." or ".." name. */
  ghost predicate Normal(raw: string) { exists ps :: Names(ps) && raw == Render(ps) }

  lemma NormalIs(ps: seq<string>)
    requires Names(ps)
    ensures Normal(Render(ps)) && Components(Render(ps)) == ps
  {
    ComponentsRender(ps);
  }

  lemma NormalParts(raw: string)
    requires Normal(raw)
    ensures Names(Components(raw)) && Render(Components(raw)) == raw
  {
    var ps :| Names(ps) && raw == Render(ps);
    ComponentsRender(ps);
  }

  /** from_parts only makes normal paths. */
  lemma FromPartsNormal(prefixed: Prefixed, cwd: string, path: string)
    requires Normal(cwd) && FromParts(prefixed, cwd, path).Ok?
    ensures Normal(FromParts(prefixed, cwd, path).value)
  {
    var s := Slashed(path);
    NormalParts(cwd);
    assert Lacks(s, '\\') && Lacks(s, '\0');
    forall k | 0 <= k < |Split(s)| ensures Lacks(Split(s)[k], '/') && Lacks(Split(s)[k], '\\') && Lacks(Split(s)[k], '\0') {
      SplitLacks(s, '/', k);
      SplitLacks(s, '\\', k);
      SplitLacks(s, '\0', k);
    }
    WalkNames(if s[0] == '/' then [] else Components(cwd), Split(s));
  }

  /** A normal path joined to anything is itself. */
  lemma JoinNormal(prefixed: Prefixed, cwd: string, ps: seq<string>)
    requires Names(ps) && !prefixed(Render(ps))
    ensures FromParts(prefixed, cwd, Render(ps)) == Ok(Render(ps))
  {
    var raw := Render(ps);
    RenderLacks(ps, '\\');
    RenderLacks(ps, '\0');
    assert Slashed(raw) == raw;
    SplitRender(ps);
    if ps == [] {
      assert Walk([], ["", ""]) == Walk([], [""]) == [];
    } else {
      assert ([""] + ps)[1..] == ps;
      WalkPlain([], ps);
      assert [] + ps == ps;
    }
  }

  lemma RenderLacks(ps: seq<string>, c: char)
    requires Names(ps) && (c == '\\' || c == '\0')
    ensures Lacks(Render(ps), c)
  {
    forall k | 0 <= k < |ps| ensures Lacks(ps[k], c) { assert Name(ps[k]); }
    JoinLacks(ps, c);
  }
}
