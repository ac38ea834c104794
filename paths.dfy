/**
 * The path-containment guard shared by both tools.
 *
 * Each tool computes `os.path.abspath(os.path.join(root, arg))` and
 * `os.path.abspath(root)` and accepts the argument only when the first string
 * starts with the second. `Join` is POSIX `os.path.join` on two arguments;
 * `Normalize` is `os.path.abspath`, that is `normpath` after joining a
 * relative path to the current directory, which is a parameter here.
 */
module Paths {
  import opened Strings

  const Sep: char := '/'

  predicate IsAbsolute(p: string) {
    |p| > 0 && p[0] == Sep
  }

  /** A name that normalization keeps: not empty, not "." or "..", no separator. */
  predicate IsSegment(c: string) {
    c != "" && c != "." && c != ".." && Sep !in c
  }

  predicate AllSegments(cs: seq<string>) {
    forall i :: 0 <= i < |cs| ==> IsSegment(cs[i])
  }

  /**
   * `os.path.join(a, b)`: an absolute `b` discards `a`; otherwise `b` is
   * appended to `a`, with a separator unless `a` is empty or already ends in one.
   */
  function Join(a: string, b: string): (r: string)
    ensures IsAbsolute(b) ==> r == b
    ensures IsAbsolute(r) <==> IsAbsolute(a) || IsAbsolute(b)
  {
    if IsAbsolute(b) then b
    else if a == "" || a[|a| - 1] == Sep then a + b
    else a + [Sep] + b
  }

  /**
   * How many leading separators `normpath` keeps: none for a relative path,
   * two when the path starts with exactly two, one otherwise.
   */
  function RootLength(p: string): (k: nat)
    ensures k <= |p| && k <= 2
    ensures k >= 1 <==> IsAbsolute(p)
    ensures forall i :: 0 <= i < k ==> p[i] == Sep
  {
    if !IsAbsolute(p) then 0
    else if |p| >= 2 && p[1] == Sep && (|p| == 2 || p[2] != Sep) then 2
    else 1
  }

  /**
   * One step of `normpath` on an absolute path: empty and "." pieces vanish,
   * ".." removes the last kept name and does nothing at the root.
   */
  function Step(acc: seq<string>, c: string): seq<string> {
    if c == "" || c == "." then acc
    else if c == ".." then (if acc == [] then [] else acc[..|acc| - 1])
    else acc + [c]
  }

  /** `Step` over the pieces from left to right, starting from `acc`. */
  function Resolve(acc: seq<string>, pieces: seq<string>): (r: seq<string>)
    requires AllSegments(acc)
    requires forall i :: 0 <= i < |pieces| ==> Sep !in pieces[i]
    ensures AllSegments(r)
    decreases |pieces|
  {
    if pieces == [] then acc
    else Resolve(Step(acc, pieces[0]), pieces[1..])
  }

  /** The names of the location an absolute path denotes, after `normpath`. */
  function Components(p: string): (cs: seq<string>)
    requires IsAbsolute(p)
    ensures AllSegments(cs)
  {
    Resolve([], Split(p[RootLength(p)..], Sep))
  }

  /** `abspath` before normalization: a relative path is joined to `cwd`. */
  function AbsPath(cwd: string, path: string): (full: string)
    requires IsAbsolute(cwd)
    ensures IsAbsolute(full)
    ensures IsAbsolute(path) ==> full == path
  {
    if IsAbsolute(path) then path else Join(cwd, path)
  }

  /**
   * `os.path.abspath(path)` with `cwd` as the current directory: the kept
   * leading separators followed by the resolved names joined with "/".
   * The result denotes the same location as its input, keeps the one or two
   * leading separators `normpath` retains, and is in normal form: those
   * separators and then proper names (no empty, "." or ".." piece) joined
   * with single separators.
   */
  function Normalize(cwd: string, path: string): (r: string)
    requires IsAbsolute(cwd)
    ensures IsAbsolute(r)
    ensures RootLength(r) == RootLength(AbsPath(cwd, path))
    ensures r[..RootLength(r)] == AbsPath(cwd, path)[..RootLength(r)]
    ensures Components(r) == Components(AbsPath(cwd, path))
    ensures r == r[..RootLength(r)] + JoinWith(Components(r), Sep)
  {
    var full := AbsPath(cwd, path);
    var lead := full[..RootLength(full)];
    var cs := Components(full);
    NormalForm(lead, cs);
    lead + JoinWith(cs, Sep)
  }

  /** The containment test: a plain string-prefix check. */
  predicate Contained(target: string, base: string) {
    StartsWith(target, base)
  }

  // ---------------------------------------------------------------------
  // Lemmas about resolution

  lemma {:induction false} ResolveAppend(acc: seq<string>, xs: seq<string>, ys: seq<string>)
    requires AllSegments(acc)
    requires forall i :: 0 <= i < |xs| ==> Sep !in xs[i]
    requires forall i :: 0 <= i < |ys| ==> Sep !in ys[i]
    ensures Resolve(acc, xs + ys) == Resolve(Resolve(acc, xs), ys)
    decreases |xs|
  {
    if xs != [] {
      assert (xs + ys)[0] == xs[0];
      assert (xs + ys)[1..] == xs[1..] + ys;
      ResolveAppend(Step(acc, xs[0]), xs[1..], ys);
    } else {
      assert xs + ys == ys;
    }
  }

  /** Names that are already segments are kept as they are. */
  lemma {:induction false} ResolveSegments(acc: seq<string>, cs: seq<string>)
    requires AllSegments(acc) && AllSegments(cs)
    ensures Resolve(acc, cs) == acc + cs
    decreases |cs|
  {
    if cs != [] {
      ResolveSegments(acc + [cs[0]], cs[1..]);
      assert acc + [cs[0]] + cs[1..] == acc + cs;
    }
  }

  /** Without "..", resolution only ever adds names. */
  lemma {:induction false} ResolveWithoutParent(acc: seq<string>, pieces: seq<string>)
    requires AllSegments(acc)
    requires forall i :: 0 <= i < |pieces| ==> Sep !in pieces[i] && pieces[i] != ".."
    ensures acc <= Resolve(acc, pieces)
    decreases |pieces|
  {
    if pieces != [] {
      ResolveWithoutParent(Step(acc, pieces[0]), pieces[1..]);
    }
  }

  /** A normalized path reads back as the lead and names it was built from. */
  lemma NormalForm(lead: string, cs: seq<string>)
    requires lead == [Sep] || lead == [Sep, Sep]
    requires AllSegments(cs)
    ensures IsAbsolute(lead + JoinWith(cs, Sep))
    ensures RootLength(lead + JoinWith(cs, Sep)) == |lead|
    ensures Components(lead + JoinWith(cs, Sep)) == cs
  {
    var p := lead + JoinWith(cs, Sep);
    assert p[..|lead|] == lead;
    if cs == [] {
      assert p == lead;
      assert p[|lead|..] == "";
      assert Split("", Sep) == [""];
      assert Resolve([], [""]) == [];
    } else {
      assert p[|lead|] == cs[0][0];
      assert p[|lead|..] == JoinWith(cs, Sep);
      SplitJoin(cs, Sep);
      ResolveSegments([], cs);
    }
  }

  /** `normpath` is idempotent: normalizing a normalized path changes nothing. */
  lemma NormalizeIdempotent(cwd: string, path: string)
    requires IsAbsolute(cwd)
    ensures Normalize(cwd, Normalize(cwd, path)) == Normalize(cwd, path)
  {
    var r := Normalize(cwd, path);
    var full := AbsPath(cwd, path);
    NormalForm(full[..RootLength(full)], Components(full));
  }

  // ---------------------------------------------------------------------
  // Lemmas about joining

  /** Only the first three characters decide how many leading separators stay. */
  lemma RootLengthExtend(p: string, q: string)
    requires |p| >= 3 && p <= q
    ensures RootLength(q) == RootLength(p)
  {
    assert p[0] == q[0] && p[1] == q[1] && p[2] == q[2];
  }

  /** Splitting what follows a separator: the separator ends a piece. */
  lemma ComponentsAfter(a: string, k: nat, rest: string)
    requires IsAbsolute(a) && RootLength(a) == k && k < |a|
    requires IsAbsolute(a + [Sep] + rest) && RootLength(a + [Sep] + rest) == k
    ensures Components(a + [Sep] + rest) == Resolve(Components(a), Split(rest, Sep))
  {
    var j := a + [Sep] + rest;
    assert j[k..] == a[k..] + [Sep] + rest;
    SplitAtSeparator(a[k..], rest, Sep);
    ResolveAppend([], Split(a[k..], Sep), Split(rest, Sep));
  }

  /** A trailing separator ends the last piece, which resolution then drops. */
  lemma AfterTrailingSeparator(u: string, b: string)
    ensures Resolve([], Split(u + [Sep] + b, Sep))
         == Resolve(Resolve([], Split(u + [Sep] + "", Sep)), Split(b, Sep))
  {
    SplitAtSeparator(u, "", Sep);
    SplitAtSeparator(u, b, Sep);
    assert Split("", Sep) == [""];
    ResolveAppend([], Split(u, Sep), [""]);
    ResolveAppend([], Split(u, Sep), Split(b, Sep));
  }

  /** A bare root ("/" or "//") followed by a relative path. */
  lemma JoinAtRoot(a: string, b: string)
    requires a == [Sep] || a == [Sep, Sep]
    requires !IsAbsolute(b)
    ensures RootLength(a + b) == RootLength(a) == |a|
    ensures Components(a + b) == Resolve(Components(a), Split(b, Sep))
  {
    var j := a + b;
    assert j[..|a|] == a;
    assert b != "" ==> j[|a|] == b[0];
    assert j[|a|..] == b;
    assert a[|a|..] == "";
    assert Split("", Sep) == [""];
    assert Resolve([], [""]) == [];
  }

  /** Joining after a path that ends in a separator, beyond the bare root. */
  lemma JoinAfterTrailingSeparator(a: string, b: string)
    requires IsAbsolute(a) && !IsAbsolute(b) && |a| >= 3 && a[|a| - 1] == Sep
    ensures RootLength(a + b) == RootLength(a)
    ensures (a + b)[..RootLength(a)] == a[..RootLength(a)]
    ensures Components(a + b) == Resolve(Components(a), Split(b, Sep))
  {
    var j := a + b;
    var k := RootLength(a);
    RootLengthExtend(a, j);
    var u := a[k..|a| - 1];
    assert a[k..] == u + [Sep] + "";
    assert j[k..] == a[k..] + b;
    assert j[k..] == u + [Sep] + b;
    AfterTrailingSeparator(u, b);
  }

  /** Joining after a path that does not end in a separator. */
  lemma JoinAfterName(a: string, b: string)
    requires IsAbsolute(a) && !IsAbsolute(b) && a[|a| - 1] != Sep
    ensures RootLength(a + [Sep] + b) == RootLength(a)
    ensures (a + [Sep] + b)[..RootLength(a)] == a[..RootLength(a)]
    ensures Components(a + [Sep] + b) == Resolve(Components(a), Split(b, Sep))
  {
    var j := a + [Sep] + b;
    var k := RootLength(a);
    assert |a| >= 2;
    if |a| >= 3 {
      RootLengthExtend(a, j);
    } else {
      assert a[1] != Sep;
    }
    ComponentsAfter(a, k, b);
  }

  /** Appending a relative path to an absolute one resolves it from there. */
  lemma JoinComponents(a: string, b: string)
    requires IsAbsolute(a) && !IsAbsolute(b)
    ensures RootLength(Join(a, b)) == RootLength(a)
    ensures Join(a, b)[..RootLength(a)] == a[..RootLength(a)]
    ensures Components(Join(a, b)) == Resolve(Components(a), Split(b, Sep))
  {
    if a[|a| - 1] != Sep {
      JoinAfterName(a, b);
    } else if |a| <= 2 {
      assert a == [Sep] || a == [Sep, Sep];
      JoinAtRoot(a, b);
    } else {
      JoinAfterTrailingSeparator(a, b);
    }
  }

  /** Joining twice to a non-empty relative path regroups. */
  lemma JoinRegroup(c: string, r: string, b: string)
    requires r != "" && !IsAbsolute(r) && !IsAbsolute(b)
    ensures Join(c, Join(r, b)) == Join(Join(c, r), b)
  {
    var t := if r[|r| - 1] == Sep then b else [Sep] + b;
    var p := if c == "" || c[|c| - 1] == Sep then c else c + [Sep];
    calc {
      Join(c, Join(r, b));
      { assert Join(r, b) == r + t; }
      Join(c, r + t);
      { assert (r + t)[0] == r[0]; }
      p + (r + t);
      { assert p + (r + t) == (p + r) + t; }
      (p + r) + t;
      { assert (p + r)[|p + r| - 1] == r[|r| - 1]; }
      Join(p + r, b);
      { assert Join(c, r) == p + r; }
      Join(Join(c, r), b);
    }
  }

  /**
   * Resolving `join(root, b)` for a relative `b` is resolving `b` from where
   * `root` resolves, whether `root` is absolute, relative or empty.
   */
  lemma AbsJoin(cwd: string, root: string, b: string)
    requires IsAbsolute(cwd) && !IsAbsolute(b)
    ensures var f, g := AbsPath(cwd, root), AbsPath(cwd, Join(root, b));
      && RootLength(g) == RootLength(f)
      && g[..RootLength(f)] == f[..RootLength(f)]
      && Components(g) == Resolve(Components(f), Split(b, Sep))
  {
    if IsAbsolute(root) {
      JoinComponents(root, b);
    } else if root == "" {
      assert Join(root, b) == b;
      JoinComponents(cwd, b);
      JoinComponents(cwd, "");
      assert Split("", Sep) == [""];
    } else {
      JoinRegroup(cwd, root, b);
      JoinComponents(Join(cwd, root), b);
    }
  }

  // ---------------------------------------------------------------------
  // What the containment guard accepts

  /** The root itself (`join(root, ".")`) normalizes to the normalized root. */
  lemma RootContainsItself(cwd: string, root: string)
    requires IsAbsolute(cwd)
    ensures Normalize(cwd, Join(root, ".")) == Normalize(cwd, root)
    ensures Contained(Normalize(cwd, Join(root, ".")), Normalize(cwd, root))
  {
    AbsJoin(cwd, root, ".");
    var f := AbsPath(cwd, root);
    assert Split(".", Sep) == ["."];
    assert Resolve(Components(f), ["."]) == Components(f);
  }

  /** A relative path with no ".." piece never escapes the root. */
  lemma DescendantContained(cwd: string, root: string, rel: string)
    requires IsAbsolute(cwd) && !IsAbsolute(rel)
    requires forall i :: 0 <= i < |Split(rel, Sep)| ==> Split(rel, Sep)[i] != ".."
    ensures Contained(Normalize(cwd, Join(root, rel)), Normalize(cwd, root))
  {
    AbsJoin(cwd, root, rel);
    var f, g := AbsPath(cwd, root), AbsPath(cwd, Join(root, rel));
    var cf, cg := Components(f), Components(g);
    ResolveWithoutParent(cf, Split(rel, Sep));
    assert cg == cf + cg[|cf|..];
    JoinPrefix(cf, cg[|cf|..], Sep);
    var lead := f[..RootLength(f)];
    assert Normalize(cwd, root) == lead + JoinWith(cf, Sep);
    assert Normalize(cwd, Join(root, rel)) == lead + JoinWith(cg, Sep);
    PrefixCancel(lead, JoinWith(cg, Sep), JoinWith(cf, Sep));
  }

  /** An absolute argument replaces the root altogether. */
  lemma AbsoluteArgumentIgnoresRoot(cwd: string, root: string, p: string)
    requires IsAbsolute(cwd) && IsAbsolute(p)
    ensures Normalize(cwd, Join(root, p)) == Normalize(cwd, p)
    ensures Normalize(cwd, Join(root, p)) == Normalize("/", p)
  {
  }

  /** Prefixing both sides with the same string does not change prefix order. */
  lemma PrefixCancel(u: string, v: string, w: string)
    ensures StartsWith(u + v, u + w) <==> StartsWith(v, w)
  {
    if StartsWith(v, w) {
      assert (u + v)[..|u + w|] == u + v[..|w|];
    }
    if StartsWith(u + v, u + w) {
      assert v[..|w|] == (u + v)[|u|..|u + w|];
      assert (u + w)[|u|..] == w;
    }
  }

  /** Joining a list and one more name. */
  lemma JoinLast(parent: seq<string>, x: string)
    ensures JoinWith(parent + [x], Sep)
         == (if parent == [] then "" else JoinWith(parent, Sep) + [Sep]) + x
  {
    if parent == [] {
      assert parent + [x] == [x];
    } else {
      JoinAppend(parent, [x], Sep);
    }
  }

  /** Two joins that differ only in their last name compare as those names do. */
  lemma {:induction false} LastNameDecides(lead: string, names: seq<string>, s: string)
    requires names != []
    ensures StartsWith(lead + JoinWith(names[..|names| - 1] + [s], Sep), lead + JoinWith(names, Sep))
        <==> StartsWith(s, names[|names| - 1])
  {
    var parent, x := names[..|names| - 1], names[|names| - 1];
    assert names == parent + [x];
    var v := if parent == [] then "" else JoinWith(parent, Sep) + [Sep];
    JoinLast(parent, x);
    JoinLast(parent, s);
    assert lead + (v + x) == (lead + v) + x;
    assert lead + (v + s) == (lead + v) + s;
    PrefixCancel(lead + v, s, x);
  }

  /** The pieces of "../s" are ".." and `s`. */
  lemma SplitParentThenName(s: string)
    requires IsSegment(s)
    ensures Split("../" + s, Sep) == ["..", s]
  {
    assert "../" + s == ".." + [Sep] + s;
    SplitAtSeparator("..", s, Sep);
    SplitWithoutSeparator("..", Sep);
    SplitWithoutSeparator(s, Sep);
  }

  /** The pieces of "../s" climb one name and then add `s`. */
  lemma ParentThenName(names: seq<string>, s: string)
    requires AllSegments(names) && names != [] && IsSegment(s)
    ensures Resolve(names, Split("../" + s, Sep)) == names[..|names| - 1] + [s]
  {
    SplitParentThenName(s);
    var parent := names[..|names| - 1];
    assert Step(names, "..") == parent;
    assert ["..", s][1..] == [s];
    ResolveSegments(parent, [s]);
  }

  /** `../s` from the root resolves to the root's parent followed by `s`. */
  lemma SiblingComponents(cwd: string, root: string, s: string)
    requires IsAbsolute(cwd) && IsSegment(s)
    requires Components(AbsPath(cwd, root)) != []
    ensures var f, g := AbsPath(cwd, root), AbsPath(cwd, Join(root, "../" + s));
      var names := Components(f);
      && RootLength(g) == RootLength(f)
      && g[..RootLength(f)] == f[..RootLength(f)]
      && Components(g) == names[..|names| - 1] + [s]
  {
    assert !IsAbsolute("../" + s);
    AbsJoin(cwd, root, "../" + s);
    ParentThenName(Components(AbsPath(cwd, root)), s);
  }

  /**
   * The guard's verdict on a sibling of the root, `../s`: it is accepted
   * exactly when the root's last name is a string prefix of `s`. So
   * `../main.py` from root `calculator` is refused, and `../calc2` from root
   * `calc` is accepted although it lies outside `calc`: the check compares
   * strings, not names.
   */
  lemma SiblingVerdict(cwd: string, root: string, s: string)
    requires IsAbsolute(cwd) && IsSegment(s)
    requires Components(AbsPath(cwd, root)) != []
    ensures var names := Components(AbsPath(cwd, root));
      Contained(Normalize(cwd, Join(root, "../" + s)), Normalize(cwd, root))
      <==> StartsWith(s, names[|names| - 1])
  {
    SiblingComponents(cwd, root, s);
    var f := AbsPath(cwd, root);
    var names := Components(f);
    var lead := f[..RootLength(f)];
    LastNameDecides(lead, names, s);
  }
}
