/** Lexical model of the path helpers of src/utils/filesystem.cpp:
    `getRelativePath` and `findCorrespondingFile`, over paths made of a root
    and a sequence of components. */
module Paths {

  /** A filesystem path. `root` holds the root name and root directory
      together (for example "C:\\" or "/"); it is "" for a relative path.
      `comps` are the components after the root, in order. */
  datatype Path = Path(root: string, comps: seq<string>)

  /** The empty path, `fs::path{}`. */
  const Empty: Path := Path("", [])

  /** The preferred separator of the Windows build. */
  const Separator: char := '\\'

  predicate IsEmpty(p: Path) {
    p.root == "" && p.comps == []
  }

  /** A normalised component sequence: no empty, "." or ".." components. */
  predicate Normal(cs: seq<string>) {
    forall i :: 0 <= i < |cs| ==> cs[i] != "" && cs[i] != "." && cs[i] != ".."
  }

  /** The native string of a path, `path.string()`. */
  function PathString(p: Path): string {
    p.root + JoinComps(p.comps)
  }

  function JoinComps(cs: seq<string>): string {
    if cs == [] then ""
    else if |cs| == 1 then cs[0]
    else cs[0] + [Separator] + JoinComps(cs[1..])
  }

  /** `a / b`: a rooted right operand replaces the left one, a relative one
      is appended component by component. */
  function Join(a: Path, b: Path): (r: Path)
    ensures b.root != "" ==> r == b
    ensures b.root == "" ==> r.root == a.root && a.comps <= r.comps && r.comps[|a.comps|..] == b.comps
  {
    if b.root != "" then b else Path(a.root, a.comps + b.comps)
  }

  /** `path.filename()`: the last component, or the empty path. */
  function Filename(p: Path): Path {
    if p.comps == [] then Empty else Path("", [p.comps[|p.comps| - 1]])
  }

  /** `n` parent-directory components. */
  function Ups(n: nat): (r: seq<string>)
    ensures |r| == n && forall i :: 0 <= i < n ==> r[i] == ".."
  {
    seq(n, _ => "..")
  }

  /** Length of the longest common prefix of two component sequences. */
  function CommonPrefixLen(a: seq<string>, b: seq<string>): (k: nat)
    ensures k <= |a| && k <= |b|
    ensures a[..k] == b[..k]
    ensures k < |a| && k < |b| ==> a[k] != b[k]
  {
    if a == [] || b == [] || a[0] != b[0] then 0
    else
      var k := 1 + CommonPrefixLen(a[1..], b[1..]);
      assert a[..k] == [a[0]] + a[1..][..k - 1];
      assert b[..k] == [b[0]] + b[1..][..k - 1];
      k
  }

  /** `relative(p, base)` on normalised paths, following
      `path::lexically_relative`: the empty path when the roots differ;
      otherwise one ".." per component of `base` past the common prefix,
      then the rest of `p`, or "." when that leaves nothing. The result is
      relative, and it is empty exactly when the roots differ. */
  function Relative(p: Path, base: Path): (r: Path)
    ensures r.root == ""
    ensures IsEmpty(r) <==> p.root != base.root
    ensures p.root == base.root && base.comps <= p.comps ==>
              r.comps == if |p.comps| == |base.comps| then ["."] else p.comps[|base.comps|..]
  {
    if p.root != base.root then Empty
    else
      var k := CommonPrefixLen(p.comps, base.comps);
      var r := Ups(|base.comps| - k) + p.comps[k..];
      Path("", if r == [] then ["."] else r)
  }

  /** getRelativePath (src/utils/filesystem.cpp:15-18): the relative path,
      with the file name as fallback exactly when the roots differ. */
  function GetRelativePath(path: Path, directory: Path): (r: Path)
    ensures r.root == ""
    ensures path.root == directory.root <==> !IsEmpty(Relative(path, directory))
    ensures path.root == directory.root ==> r == Relative(path, directory) && r.comps != []
    ensures path.root != directory.root ==> r == Filename(path)
  {
    var relativePath := Relative(path, directory);
    if IsEmpty(relativePath) then Filename(path) else relativePath
  }

  /** findCorrespondingFile (src/utils/filesystem.cpp:11-13): the result
      always lies under `searchDirectory`. */
  function FindCorrespondingFile(filePath: Path, sourceDirectory: Path, searchDirectory: Path): (r: Path)
    ensures r.root == searchDirectory.root
    ensures |searchDirectory.comps| <= |r.comps|
    ensures r.comps[..|searchDirectory.comps|] == searchDirectory.comps
    ensures filePath.root == sourceDirectory.root || filePath.comps != [] ==>
              |searchDirectory.comps| < |r.comps|
  {
    var rel := GetRelativePath(filePath, sourceDirectory);
    var r := Join(searchDirectory, rel);
    assert r.comps[..|searchDirectory.comps|] == searchDirectory.comps;
    r
  }

  /** A file `directory / s` is addressed by `s` relative to `directory`. */
  lemma RelativeOfDescendant(directory: Path, s: seq<string>)
    requires s != []
    ensures Relative(Path(directory.root, directory.comps + s), directory) == Path("", s)
  {
    var p := directory.comps + s;
    var k := CommonPrefixLen(p, directory.comps);
    assert p[..|directory.comps|] == directory.comps;
    assert p[k..] == s;
  }

  /** `sourceDirectory / s` corresponds to `searchDirectory / s`. */
  lemma CorrespondingOfDescendant(sourceDirectory: Path, searchDirectory: Path, s: seq<string>)
    requires s != []
    ensures FindCorrespondingFile(Path(sourceDirectory.root, sourceDirectory.comps + s), sourceDirectory, searchDirectory)
            == Path(searchDirectory.root, searchDirectory.comps + s)
  {
    RelativeOfDescendant(sourceDirectory, s);
  }

  /** Mapping a file under the source tree to the search tree and back gives
      the file again. */
  lemma CorrespondingRoundTrip(f: Path, sourceDirectory: Path, searchDirectory: Path, s: seq<string>)
    requires s != [] && f == Path(sourceDirectory.root, sourceDirectory.comps + s)
    ensures FindCorrespondingFile(FindCorrespondingFile(f, sourceDirectory, searchDirectory),
                                  searchDirectory, sourceDirectory) == f
  {
    CorrespondingOfDescendant(sourceDirectory, searchDirectory, s);
    CorrespondingOfDescendant(searchDirectory, sourceDirectory, s);
  }

  /** A path on the same root but outside `directory` is reached through
      "..", not through the file-name fallback. */
  lemma OutsideDirectoryClimbs(path: Path, directory: Path)
    requires path.root == directory.root
    requires !(directory.comps <= path.comps)
    ensures var r := GetRelativePath(path, directory);
            r == Relative(path, directory) && r.comps[0] == ".."
  {
    var k := CommonPrefixLen(path.comps, directory.comps);
    assert k < |directory.comps|;
  }

  /** Lexical normalisation of a component sequence from the root:
      "." is dropped and ".." removes the previous component (or nothing,
      at the root). */
  function Resolve(stack: seq<string>, cs: seq<string>): seq<string>
    decreases |cs|
  {
    if cs == [] then stack
    else if cs[0] == "." then Resolve(stack, cs[1..])
    else if cs[0] == ".." then Resolve(if stack == [] then [] else stack[..|stack| - 1], cs[1..])
    else Resolve(stack + [cs[0]], cs[1..])
  }

  /** `path.lexically_normal()` for a path whose root is kept. */
  function Normalize(p: Path): Path {
    Path(p.root, Resolve([], p.comps))
  }

  lemma {:induction false} ResolveAppend(stack: seq<string>, a: seq<string>, b: seq<string>)
    ensures Resolve(stack, a + b) == Resolve(Resolve(stack, a), b)
    decreases |a|
  {
    if a != [] {
      assert (a + b)[1..] == a[1..] + b;
      var next := if a[0] == "." then stack
                  else if a[0] == ".." then (if stack == [] then [] else stack[..|stack| - 1])
                  else stack + [a[0]];
      ResolveAppend(next, a[1..], b);
    } else {
      assert a + b == b;
    }
  }

  lemma {:induction false} ResolveNormal(stack: seq<string>, cs: seq<string>)
    requires Normal(cs)
    ensures Resolve(stack, cs) == stack + cs
    decreases |cs|
  {
    if cs != [] {
      ResolveNormal(stack + [cs[0]], cs[1..]);
      assert stack + [cs[0]] + cs[1..] == stack + cs;
    }
  }

  lemma {:induction false} ResolveUps(stack: seq<string>, n: nat, rest: seq<string>)
    requires n <= |stack|
    ensures Resolve(stack, Ups(n) + rest) == Resolve(stack[..|stack| - n], rest)
    decreases n
  {
    if n == 0 {
      assert Ups(0) + rest == rest;
      assert stack[..|stack|] == stack;
    } else {
      var cs := Ups(n) + rest;
      assert cs[0] == "..";
      assert cs[1..] == Ups(n - 1) + rest;
      var popped := stack[..|stack| - 1];
      ResolveUps(popped, n - 1, rest);
      assert popped[..|popped| - (n - 1)] == stack[..|stack| - n];
    }
  }

  /** The relative path is an inverse of joining: `directory / relative(p,
      directory)` normalises back to `p` for normalised paths on one root. */
  lemma RelativeInverse(p: Path, directory: Path)
    requires p.root == directory.root
    requires Normal(p.comps) && Normal(directory.comps)
    ensures Normalize(Join(directory, Relative(p, directory))) == p
  {
    var d := directory.comps;
    var k := CommonPrefixLen(p.comps, d);
    var r := Ups(|d| - k) + p.comps[k..];
    var rel := if r == [] then ["."] else r;
    assert Relative(p, directory) == Path("", rel);
    ClimbAndDescend(d, p.comps, k);
  }

  /** From the components `d`, climbing past the common prefix of length
      `k` and descending into the rest of `pc` resolves to `pc`. */
  lemma ClimbAndDescend(d: seq<string>, pc: seq<string>, k: nat)
    requires Normal(d) && Normal(pc)
    requires k <= |d| && k <= |pc| && d[..k] == pc[..k]
    ensures var r := Ups(|d| - k) + pc[k..];
            Resolve([], d + (if r == [] then ["."] else r)) == pc
  {
    var r := Ups(|d| - k) + pc[k..];
    ResolveNormal([], d);
    assert [] + d == d;
    if r == [] {
      ResolveAppend([], d, ["."]);
      assert pc == pc[..k] == d;
    } else {
      ResolveAppend([], d, r);
      Climb(d, pc, k);
    }
  }

  lemma Climb(d: seq<string>, pc: seq<string>, k: nat)
    requires Normal(pc)
    requires k <= |d| && k <= |pc| && d[..k] == pc[..k]
    ensures Resolve(d, Ups(|d| - k) + pc[k..]) == pc
  {
    var m := |d| - k;
    ResolveUps(d, m, pc[k..]);
    assert d[..|d| - m] == pc[..k];
    assert Normal(pc[k..]);
    ResolveNormal(pc[..k], pc[k..]);
    assert pc[..k] + pc[k..] == pc;
  }


}
