/**
 The walk from a control group's directory up to the hierarchy root, which every limit reader shares.
 A path is the list of components of a cleaned absolute path; the code's tests are on its text.
 */
module Hierarchy {
  type Path = seq<string>

  /** A control file: absent, unreadable, or its trimmed first line. */
  datatype File = Missing | Unreadable | Line(text: string)

  predicate WellFormed(p: Path) {
    forall i :: 0 <= i < |p| ==> p[i] != "" && '/' !in p[i]
  }

  function Joined(p: Path): string {
    if p == [] then "" else Joined(p[..|p| - 1]) + "/" + p[|p| - 1]
  }

  function Render(p: Path): string {
    if p == [] then "/" else Joined(p)
  }

  /** `filepath.Dir` */
  function Parent(p: Path): Path {
    if p == [] then [] else p[..|p| - 1]
  }

  /** `isSubpath` and `isSafeSubpath`: a test on text. */
  predicate IsSubpath(root: Path, path: Path) {
    || Render(root) == Render(path)
    || Render(root) == "/"
    || Render(root) + "/" <= Render(path)
  }

  lemma {:induction false} JoinedAppend(p: Path, q: Path)
    ensures Joined(p + q) == Joined(p) + Joined(q)
  {
    if q == [] {
      assert p + q == p;
    } else {
      var init, last := q[..|q| - 1], q[|q| - 1];
      JoinedAppend(p, init);
      assert (p + q)[..|p + q| - 1] == p + init && (p + q)[|p + q| - 1] == last;
      assert Joined(p + q) == Joined(p + init) + "/" + last;
      assert Joined(q) == Joined(init) + "/" + last;
      hide Joined;
      assert (Joined(p) + Joined(init)) + "/" + last == Joined(p) + (Joined(init) + "/" + last);
    }
  }

  /** The first component can be read back from the text. */
  lemma JoinedFirst(p: Path)
    requires WellFormed(p) && p != []
    ensures Joined(p) == "/" + p[0] + Joined(p[1..])
    ensures p[1..] == [] || (Joined(p[1..]) != "" && Joined(p[1..])[0] == '/')
  {
    assert p == [p[0]] + p[1..];
    JoinedAppend([p[0]], p[1..]);
    assert [p[0]][..0] == [];
    if p[1..] != [] {
      var q := p[1..];
      assert q == [q[0]] + q[1..];
      JoinedAppend([q[0]], q[1..]);
      assert [q[0]][..0] == [];
    }
  }

  /** Two slash-free words followed by nothing or a slash agree when their texts do. */
  lemma WordsAgree(a: string, x: string, b: string, y: string)
    requires '/' !in a && '/' !in b
    requires x == "" || x[0] == '/'
    requires y == "" || y[0] == '/'
    requires x != "" && a + x <= b + y
    ensures a == b
  {
    var s, t := a + x, b + y;
    assert forall i :: 0 <= i < |b| ==> t[i] == b[i] && b[i] != '/';
    assert forall i :: 0 <= i < |a| ==> t[i] == s[i] == a[i] && a[i] != '/';
    assert t[|a|] == s[|a|] == x[0];
    assert |b| < |t| ==> t[|b|] == y[0];
    assert |a| == |b|;
    assert t[..|a|] == b && s[..|a|] == a;
  }

  lemma PeelComponent(a: string, x: string, b: string, y: string)
    requires '/' !in a && '/' !in b
    requires x != "" && x[0] == '/' && (y == "" || y[0] == '/')
    requires "/" + (a + x) <= "/" + (b + y)
    ensures a == b && x <= y
  {
    var s, t := "/" + (a + x), "/" + (b + y);
    assert s[1..] == a + x && t[1..] == b + y;
    WordsAgree(a, x, b, y);
    assert (a + x)[|a|..] == x && (b + y)[|a|..] == y;
  }

  lemma JoinedEmpty(p: Path)
    requires p == []
    ensures Joined(p) == ""
  {
  }

  lemma {:induction false} TextPrefixIsPathPrefix(root: Path, path: Path)
    requires WellFormed(root) && WellFormed(path)
    requires Joined(root) + "/" <= Joined(path)
    ensures root <= path
    decreases |root|
  {
    assert path == [] ==> Joined(path) == "";
    hide Joined;
    if root != [] && path != [] {
      var r, p := root[1..], path[1..];
      var x, y := Joined(r) + "/", Joined(p);
      assert Joined(root) + "/" == "/" + (root[0] + x) by { JoinedFirst(root); }
      assert Joined(path) == "/" + (path[0] + y) by { JoinedFirst(path); }
      assert x[0] == '/' by { JoinedFirst(root); if r == [] { JoinedEmpty(r); } }
      assert y == "" || y[0] == '/' by { JoinedFirst(path); if p == [] { JoinedEmpty(p); } }
      PeelComponent(root[0], x, path[0], y);
      TextPrefixIsPathPrefix(r, p);
      assert root == [root[0]] + r && path == [path[0]] + p;
    }
  }

  lemma JoinedInjective(p: Path, q: Path)
    requires WellFormed(p) && WellFormed(q) && Joined(p) == Joined(q)
    ensures p == q
  {
    var x := ["x"];
    JoinedAppend(p, x);
    JoinedAppend(q, x);
    assert x[..0] == [];
    assert Joined(x) == "/x";
    assert Joined(q + x) == Joined(p) + "/x" == Joined(p + x);
    TextPrefixIsPathPrefix(p, q + x);
    TextPrefixIsPathPrefix(q, p + x);
    assert p != q + x && q != p + x;
    assert |p| == |q|;
    assert (q + x)[..|p|] == q;
  }

  lemma PrefixIsSubpath(root: Path, path: Path)
    requires WellFormed(root) && WellFormed(path) && root <= path
    ensures IsSubpath(root, path)
  {
    if root != [] && root != path {
      var rest := path[|root|..];
      assert path == root + rest;
      JoinedAppend(root, rest);
      JoinedFirst(rest);
      hide Joined;
      assert Joined(root) + "/" <= Joined(path);
    }
  }

  lemma SubpathHasPrefix(root: Path, path: Path)
    requires WellFormed(root) && WellFormed(path) && IsSubpath(root, path)
    ensures root <= path
  {
    JoinedEmpty([]);
    hide Joined;
    if root != [] { JoinedFirst(root); }
    if path != [] { JoinedFirst(path); }
    if root != [] && path != [] {
      if Joined(root) == Joined(path) { JoinedInjective(root, path); }
      else if Joined(root) + "/" <= Joined(path) { TextPrefixIsPathPrefix(root, path); }
    }
  }

  /** The text test is exactly ancestry: `root` is an ancestor of `path` or `path` itself. */
  lemma SubpathIsPrefix(root: Path, path: Path)
    requires WellFormed(root) && WellFormed(path)
    ensures IsSubpath(root, path) <==> root <= path
  {
    hide IsSubpath;
    if root <= path { PrefixIsSubpath(root, path); }
    if IsSubpath(root, path) { SubpathHasPrefix(root, path); }
  }

  /** The directories a reader visits: up from `target` until the root, or until the parent leaves the root. */
  function Chain(target: Path, root: Path): seq<Path> {
    if target == root || target == [] || !IsSubpath(root, Parent(target)) then [target]
    else [target] + Chain(Parent(target), root)
  }

  /** From a target below the root, the visited directories are exactly the target, its ancestors, and the root. */
  lemma {:induction false} ChainIsAncestry(target: Path, root: Path, p: Path)
    requires WellFormed(target) && WellFormed(root) && root <= target
    ensures p in Chain(target, root) <==> root <= p <= target
    decreases |target|
  {
    if target == root || target == [] {
      assert p in Chain(target, root) <==> p == target;
    } else {
      SubpathIsPrefix(root, Parent(target));
      assert root <= Parent(target);
      ChainIsAncestry(Parent(target), root, p);
      assert p <= Parent(target) ==> p <= target;
      assert p <= target ==> p == target || p <= Parent(target);
    }
  }

  /** One step of the walk: `curr` is visited, and either the walk ends or it goes on from the parent. */
  lemma ChainStep(target: Path, root: Path, seen: seq<Path>, curr: Path)
    requires seen + Chain(curr, root) == Chain(target, root)
    ensures curr in Chain(target, root)
    ensures if curr == root || Parent(curr) == curr || !IsSubpath(root, Parent(curr))
            then seen + [curr] == Chain(target, root)
            else (seen + [curr]) + Chain(Parent(curr), root) == Chain(target, root)
  {
    hide IsSubpath;
    assert curr in Chain(curr, root);
    assert seen + ([curr] + Chain(Parent(curr), root)) == (seen + [curr]) + Chain(Parent(curr), root);
  }
}
