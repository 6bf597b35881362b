/** Path strings of fisopfs: splitting a path into its parent and its last name
    (fisopfs/fs.c), and its depth (fisopfs/fisopfs.c). */
module Paths {

  const ROOT := "/"

  // strrchr(p, '/'), or -1.
  function LastSlash(p: string): (k: int)
    ensures -1 <= k < |p|
    ensures k >= 0 ==> p[k] == '/'
    ensures forall j :: k < j < |p| ==> p[j] != '/'
  {
    if p == "" then -1
    else if p[|p| - 1] == '/' then |p| - 1
    else LastSlash(p[..|p| - 1])
  }

  function FileName(p: string): string {
    var k := LastSlash(p);
    if k >= 0 && k + 1 < |p| then p[k + 1..] else if k >= 0 then ROOT else p
  }

  function PrevPath(p: string): string {
    var k := LastSlash(p);
    if k <= 0 then ROOT else p[..k]
  }

  // The paths that FUSE passes, save the root: absolute, with nonempty names.
  predicate IsPath(p: string) {
    |p| >= 2 && p[0] == '/' && p[|p| - 1] != '/' && forall i :: 0 <= i < |p| - 1 ==> !(p[i] == '/' && p[i + 1] == '/')
  }

  predicate IsDirPath(p: string) { p == ROOT || IsPath(p) }

  function Join(dir: string, name: string): string { if dir == ROOT then ROOT + name else dir + ROOT + name }

  /** A path is its parent's path and its name put together again, and the parent's
      path is a shorter path. */
  lemma SplitJoin(p: string)
    requires IsPath(p)
    ensures Join(PrevPath(p), FileName(p)) == p
    ensures IsDirPath(PrevPath(p)) && |PrevPath(p)| < |p| && FileName(p) != ""
  {
    var k := LastSlash(p);
    assert k >= 0;
    if k > 0 {
      assert p == p[..k] + ROOT + p[k + 1..];
      assert p[k - 1] != '/' by { assert p[k] == '/'; }
      assert p[..k][k - 1] != '/';
    } else {
      assert p == ROOT + p[1..];
    }
  }

  /** The pair of name and parent path that lookups compare identifies a path. */
  lemma SplitInjective(p: string, q: string)
    requires IsPath(p) && IsPath(q)
    ensures FileName(p) == FileName(q) && PrevPath(p) == PrevPath(q) <==> p == q
  {
    SplitJoin(p);
    SplitJoin(q);
  }

  function Slashes(p: string): (n: nat) {
    if p == "" then 0 else Slashes(p[..|p| - 1]) + if p[|p| - 1] == '/' then 1 else 0
  }

  // How many names a path has.
  function Depth(p: string): int {
    (if p != "" && p[0] == '/' then Slashes(p) - 1 else Slashes(p)) + if p != ROOT && p != "" then 1 else 0
  }

  lemma {:induction false} SlashesAtLast(p: string)
    requires LastSlash(p) >= 0
    ensures Slashes(p) == Slashes(p[..LastSlash(p)]) + 1
  {
    var init := p[..|p| - 1];
    if p[|p| - 1] != '/' {
      SlashesAtLast(init);
      assert init[..LastSlash(p)] == p[..LastSlash(p)];
    }
  }

  /** An entry is one deeper than its parent. */
  lemma DepthOfChild(p: string)
    requires IsPath(p)
    ensures Depth(p) == Depth(PrevPath(p)) + 1 && Depth(ROOT) == 0
  {
    SplitJoin(p);
    SlashesAtLast(p);
    assert ROOT[..0] == "" && Slashes(ROOT) == 1;
    if LastSlash(p) > 0 {
      assert PrevPath(p)[0] == '/';
    } else {
      assert p[..0] == "";
    }
  }

  method PathDepth(path: string) returns (depth: int)
    ensures depth == Depth(path)
  {
    depth := 0;
    var i := 0;
    if |path| > 0 && path[0] == '/' {
      i := 1;
    }
    ghost var skipped := i;
    assert path[..i] == if skipped == 1 then ROOT else "";
    assert Slashes(ROOT) == 1 by { assert ROOT[..0] == ""; }
    while i < |path|
      invariant i <= |path|
      invariant depth == Slashes(path[..i]) - skipped
    {
      assert path[..i + 1][..i] == path[..i];
      if path[i] == '/' {
        depth := depth + 1;
      }
      i := i + 1;
    }
    assert path[..i] == path;
    if path != ROOT && |path| > 0 {
      depth := depth + 1;
    }
  }
}
