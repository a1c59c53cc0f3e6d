/** Resolving guest paths through symbolic links, with at most forty expansions. */
module PathResolver {
  import opened Words
  import opened Paths

  const MAX_SYMLINK_EXPANSIONS: nat := 40

  /** Where a link leads: a text, names below the root given by a host path, or a host path elsewhere. */
  datatype Target = Text(text: string) | Below(names: seq<string>) | Elsewhere

  datatype Node = Missing | Link(target: Target) | Other

  /** What the host has at a path below the root. */
  type Tree = seq<string> -> Node

  /** Host paths below the root have proper names. */
  ghost predicate TreeOk(look: Tree) {
    forall ps :: look(ps).Link? && look(ps).target.Below? ==> Names(look(ps).target.names)
  }

  /** No rendered path looks like a host prefix. */
  ghost predicate HostOk(prefixed: Prefixed) { forall ps :: Names(ps) ==> !prefixed(Render(ps)) }

  // ------------------------------------------------------------ one pass

  /** The end of a pass over the components: nothing to expand, or a link with what precedes and follows it. */
  datatype Pass = Settled | Expand(parent: seq<string>, target: Target, rest: seq<string>)

  function Scan(look: Tree, ps: seq<string>, k: nat): Pass
    requires k <= |ps|
    decreases |ps| - k
  {
    if k == |ps| then Settled
    else
      match look(ps[..k + 1])
      case Link(t) => Expand(ps[..k], t, ps[k + 1..])
      case Missing => Settled
      case Other => Scan(look, ps, k + 1)
  }

  /** No prefix is a link, up to the first missing one. */
  predicate LinkFree(look: Tree, ps: seq<string>, k: nat) {
    forall j :: k < j <= |ps| && look(ps[..j]).Link? ==> exists i :: k < i < j && look(ps[..i]).Missing?
  }

  /** A pass settles exactly when no prefix up to the first missing one is a link. */
  lemma {:induction false} ScanSettles(look: Tree, ps: seq<string>, k: nat)
    requires k <= |ps|
    ensures Scan(look, ps, k) == Settled <==> LinkFree(look, ps, k)
    decreases |ps| - k
  {
    if k < |ps| {
      match look(ps[..k + 1])
      case Link(_) => assert look(ps[..k + 1]).Link?;
      case Missing =>
        forall j | k < j <= |ps| && look(ps[..j]).Link? ensures exists i :: k < i < j && look(ps[..i]).Missing? {
          assert look(ps[..k + 1]).Missing?;
        }
      case Other =>
        ScanSettles(look, ps, k + 1);
        LinkFreeOn(look, ps, k);
    }
  }

  lemma LinkFreeOn(look: Tree, ps: seq<string>, k: nat)
    requires k < |ps| && look(ps[..k + 1]).Other?
    ensures LinkFree(look, ps, k) <==> LinkFree(look, ps, k + 1)
  {
    if LinkFree(look, ps, k) {
      forall j | k + 1 < j <= |ps| && look(ps[..j]).Link? ensures exists i :: k + 1 < i < j && look(ps[..i]).Missing? {
        var i :| k < i < j && look(ps[..i]).Missing?;
        assert i != k + 1;
      }
    }
    if LinkFree(look, ps, k + 1) {
      forall j | k < j <= |ps| && look(ps[..j]).Link? ensures exists i :: k < i < j && look(ps[..i]).Missing? {
        assert j != k + 1;
        var i :| k + 1 < i < j && look(ps[..i]).Missing?;
      }
    }
  }

  // ------------------------------------------------------------ resolving

  /** symlink_target_guest_path; an absolute text makes the parent irrelevant. */
  function TargetPath(prefixed: Prefixed, parent: seq<string>, t: Target): Result<string, PathError> {
    match t
    case Text(s) => FromParts(prefixed, Render(parent), s)
    case Below(names) => Ok(Render(names))
    case Elsewhere => Err(WindowsPrefix)
  }

  /** The path after one expansion: the target, then the rest. */
  function Expanded(prefixed: Prefixed, parent: seq<string>, t: Target, rest: seq<string>): Result<string, PathError> {
    match TargetPath(prefixed, parent, t)
    case Err(e) => Err(e)
    case Ok(next) => if rest == [] then Ok(next) else FromParts(prefixed, next, Join(rest))
  }

  /** A result and the number of links expanded for it. */
  datatype Resolved = Resolved(result: Result<string, PathError>, expansions: nat)

  function ResolveFrom(look: Tree, prefixed: Prefixed, guest: string, expansions: nat): (r: Resolved)
    requires expansions <= MAX_SYMLINK_EXPANSIONS
    ensures expansions <= r.expansions <= MAX_SYMLINK_EXPANSIONS
    decreases MAX_SYMLINK_EXPANSIONS - expansions
  {
    match Scan(look, Components(guest), 0)
    case Settled => Resolved(Ok(Render(Components(guest))), expansions)
    case Expand(parent, t, rest) =>
      if expansions == MAX_SYMLINK_EXPANSIONS then Resolved(Err(TooManySymlinks), expansions)
      else
        match Expanded(prefixed, parent, t, rest)
        case Err(e) => Resolved(Err(e), expansions + 1)
        case Ok(next) => ResolveFrom(look, prefixed, next, expansions + 1)
  }

  /** resolve_guest_path. */
  function Resolve(look: Tree, prefixed: Prefixed, cwd: string, path: string): Result<string, PathError> {
    match FromParts(prefixed, cwd, path)
    case Err(e) => Err(e)
    case Ok(guest) => ResolveFrom(look, prefixed, guest, 0).result
  }

  /** A path that resolution can return. */
  ghost predicate Final(look: Tree, raw: string) {
    Normal(raw) && LinkFree(look, Components(raw), 0)
  }

  lemma {:induction false} ScanParts(look: Tree, ps: seq<string>, k: nat)
    requires k <= |ps| && Names(ps) && Scan(look, ps, k).Expand? && TreeOk(look)
    ensures var e := Scan(look, ps, k);
            && Names(e.parent) && Names(e.rest)
            && (e.target.Below? ==> Names(e.target.names))
    decreases |ps| - k
  {
    if look(ps[..k + 1]).Other? { ScanParts(look, ps, k + 1); }
  }

  lemma ExpandedNormal(prefixed: Prefixed, parent: seq<string>, t: Target, rest: seq<string>)
    requires Names(parent) && Names(rest) && (t.Below? ==> Names(t.names)) && Expanded(prefixed, parent, t, rest).Ok?
    ensures Normal(Expanded(prefixed, parent, t, rest).value)
  {
    NormalIs(parent);
    if t.Text? { FromPartsNormal(prefixed, Render(parent), t.text); }
    if t.Below? { NormalIs(t.names); }
    var next := TargetPath(prefixed, parent, t).value;
    if rest != [] { FromPartsNormal(prefixed, next, Join(rest)); }
  }

  /** Whatever the links are, even cyclic ones, a result is a normal path with no link left to expand. */
  lemma {:induction false} ResolveFromFinal(look: Tree, prefixed: Prefixed, guest: string, expansions: nat)
    requires TreeOk(look) && Normal(guest) && expansions <= MAX_SYMLINK_EXPANSIONS
    requires ResolveFrom(look, prefixed, guest, expansions).result.Ok?
    ensures Final(look, ResolveFrom(look, prefixed, guest, expansions).result.value)
    decreases MAX_SYMLINK_EXPANSIONS - expansions
  {
    NormalParts(guest);
    var ps := Components(guest);
    ScanSettles(look, ps, 0);
    var e := Scan(look, ps, 0);
    if e.Expand? {
      ScanParts(look, ps, 0);
      ExpandedNormal(prefixed, e.parent, e.target, e.rest);
      ResolveFromFinal(look, prefixed, Expanded(prefixed, e.parent, e.target, e.rest).value, expansions + 1);
    }
  }

  lemma ResolveFinal(look: Tree, prefixed: Prefixed, cwd: string, path: string)
    requires TreeOk(look) && Normal(cwd) && Resolve(look, prefixed, cwd, path).Ok?
    ensures Final(look, Resolve(look, prefixed, cwd, path).value)
  {
    FromPartsNormal(prefixed, cwd, path);
    ResolveFromFinal(look, prefixed, FromParts(prefixed, cwd, path).value, 0);
  }

  /** A final path resolves to itself from anywhere. */
  lemma FinalIsFixed(look: Tree, prefixed: Prefixed, cwd: string, raw: string)
    requires HostOk(prefixed) && Final(look, raw)
    ensures Resolve(look, prefixed, cwd, raw) == Ok(raw)
  {
    NormalParts(raw);
    var ps := Components(raw);
    JoinNormal(prefixed, cwd, ps);
    ScanSettles(look, ps, 0);
  }

  /** Resolving is idempotent, from any directory. */
  lemma ResolveTwice(look: Tree, prefixed: Prefixed, cwd: string, path: string, other: string)
    requires TreeOk(look) && HostOk(prefixed) && Normal(cwd) && Resolve(look, prefixed, cwd, path).Ok?
    ensures Resolve(look, prefixed, other, Resolve(look, prefixed, cwd, path).value) == Resolve(look, prefixed, cwd, path)
  {
    ResolveFinal(look, prefixed, cwd, path);
    FinalIsFixed(look, prefixed, other, Resolve(look, prefixed, cwd, path).value);
  }

  /** A link to its own name is refused after exactly forty expansions. */
  lemma {:induction false} SelfLinkRefused(look: Tree, prefixed: Prefixed, name: string, expansions: nat)
    requires Name(name) && look([name]) == Link(Text(name)) && !prefixed(name) && expansions <= MAX_SYMLINK_EXPANSIONS
    ensures ResolveFrom(look, prefixed, Render([name]), expansions) == Resolved(Err(TooManySymlinks), MAX_SYMLINK_EXPANSIONS)
    decreases MAX_SYMLINK_EXPANSIONS - expansions
  {
    var ps := [name];
    NormalIs(ps);
    assert ps[..1] == ps && ps[..0] == [] && |ps[1..]| == 0;
    if expansions < MAX_SYMLINK_EXPANSIONS {
      SelfTarget(prefixed, name);
      SelfLinkRefused(look, prefixed, name, expansions + 1);
    }
  }

  lemma SelfTarget(prefixed: Prefixed, name: string)
    requires Name(name) && !prefixed(name)
    ensures FromParts(prefixed, Render([]), name) == Ok(Render([name]))
  {
    assert Slashed(name) == name && name[0] in name;
    SplitPlain(name);
    NormalIs([]);
    assert Walk([], [name]) == Walk([name], []);
  }

  // ------------------------------------------------------------ the loops

  /** from_parts, piece by piece. */
  method Normalise(prefixed: Prefixed, cwd: string, path: string) returns (r: Result<string, PathError>)
    ensures r == FromParts(prefixed, cwd, path)
  {
    if path == "" { return Err(EmptyPath); }
    if '\0' in path { return Err(NulByte); }
    if prefixed(path) { return Err(WindowsPrefix); }
    var s := Slashed(path);
    var parts := if s[0] == '/' then [] else Components(cwd);
    ghost var start := parts;
    var pieces, k := Split(s), 0;
    while k < |pieces|
      invariant 0 <= k <= |pieces| && Walk(parts, pieces[k..]) == Walk(start, pieces)
    {
      var piece := pieces[k];
      assert pieces[k..][0] == piece && pieces[k..][1..] == pieces[k + 1..];
      if piece == "" || piece == "." {
      } else if piece == ".." {
        if parts != [] { parts := parts[..|parts| - 1]; }
      } else {
        parts := parts + [piece];
      }
      k := k + 1;
    }
    return Ok(Render(parts));
  }

  /** One pass of resolve_guest_path over the components. */
  method PassOver(look: Tree, components: seq<string>) returns (p: Pass, resolved: seq<string>)
    ensures p == Scan(look, components, 0)
    ensures p == Settled ==> resolved == components
  {
    resolved := [];
    var index := 0;
    while index < |components|
      invariant 0 <= index <= |components| && resolved == components[..index]
      invariant Scan(look, components, index) == Scan(look, components, 0)
    {
      assert resolved + [components[index]] == components[..index + 1];
      match look(resolved + [components[index]]) {
        case Link(t) => return Expand(resolved, t, components[index + 1..]), resolved;
        case Missing =>
          resolved := resolved + components[index..];
          assert resolved == components;
          return Settled, resolved;
        case Other => resolved := resolved + [components[index]];
      }
      index := index + 1;
    }
    return Settled, resolved;
  }

  /** The target of a link, then what followed the link. */
  method ExpandLink(prefixed: Prefixed, parent: seq<string>, t: Target, rest: seq<string>) returns (next: Result<string, PathError>)
    ensures next == Expanded(prefixed, parent, t, rest)
  {
    next := TargetPath(prefixed, parent, t);
    if next.Ok? && rest != [] { next := Normalise(prefixed, next.value, Join(rest)); }
  }

  /** resolve_guest_path: passes until nothing is expanded, the forty-first expansion refused. */
  method ResolveGuestPath(look: Tree, prefixed: Prefixed, cwd: string, path: string) returns (r: Result<string, PathError>)
    ensures r == Resolve(look, prefixed, cwd, path)
  {
    var joined := Normalise(prefixed, cwd, path);
    if joined.Err? { return Err(joined.error); }
    r := ResolveLoop(look, prefixed, joined.value);
  }

  /** The passes, each expanding one link. */
  method ResolveLoop(look: Tree, prefixed: Prefixed, start: string) returns (r: Result<string, PathError>)
    ensures r == ResolveFrom(look, prefixed, start, 0).result
  {
    var guest, expansions := start, 0;
    while true
      invariant 0 <= expansions <= MAX_SYMLINK_EXPANSIONS
      invariant ResolveFrom(look, prefixed, guest, expansions).result == ResolveFrom(look, prefixed, start, 0).result
      decreases MAX_SYMLINK_EXPANSIONS - expansions
    {
      var p, resolved := PassOver(look, Components(guest));
      if p == Settled { return Ok(Render(resolved)); }
      if expansions + 1 > MAX_SYMLINK_EXPANSIONS { return Err(TooManySymlinks); }
      var next := ExpandLink(prefixed, p.parent, p.target, p.rest);
      if next.Err? { return Err(next.error); }
      guest, expansions := next.value, expansions + 1;
    }
  }
}
