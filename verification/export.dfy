/** pkg/conform/export.go: the path arithmetic around chart archives and
    overlay links. Paths use '/' as separator, so `filepath.ToSlash` and
    `filepath.FromSlash` change nothing; the file system work around these
    expressions is not part of this model. */
module Export {
  import opened Wrappers
  import opened Strings

  const OverlayDir := "overlay"
  const GeneratedDir := "generated-changes"

  // ---- stripRootPath ----

  /** `stripRootPath`: the text before the first '/' is the root; one
      leading '/' is trimmed, then one occurrence of the root, then one
      '/'. */
  function StripRootPath(path: string): string
  {
    var rootPath := Split(path, '/')[0];
    TrimPrefix(TrimPrefix(TrimPrefix(path, "/"), rootPath), "/")
  }

  /** The first component and its separator are dropped, and only once:
      "chart/templates/a.yaml" gives "templates/a.yaml" and "ab/ab/c" gives
      "ab/c". */
  lemma StripRootPathDropsRoot(root: string, rest: string)
    requires root != "" && '/' !in root
    ensures StripRootPath(root + "/" + rest) == rest
  {
    var path := root + "/" + rest;
    SplitCons(root, '/', rest);
    assert Split(path, '/')[0] == root;
    assert path[0] == root[0];
    assert !HasPrefix(path, "/");
    TrimPrefixOf(root, "/" + rest);
    assert path == root + ("/" + rest);
    TrimPrefixOf("/", rest);
  }

  /** A path of one component strips to "". */
  lemma StripRootPathSingle(c: string)
    requires '/' !in c
    ensures StripRootPath(c) == ""
  {
    SplitNoSeparator(c, '/');
    if |c| > 0 {
      assert c[0] != '/';
    }
    assert !HasPrefix(c, "/");
    TrimPrefixOf(c, "");
    assert c + "" == c;
  }

  /** On a path starting with '/' the root is empty: only the slash goes,
      and the first real component stays. */
  lemma StripRootPathAbsolute(x: string)
    requires !HasPrefix(x, "/")
    ensures StripRootPath("/" + x) == x
  {
    SplitCons("", '/', x);
    assert "" + ['/'] + x == "/" + x;
    TrimPrefixOf("/", x);
    TrimPrefixOf("", x);
    assert "" + x == x;
  }

  // ---- Gunzip ----

  const WrongArchiveType := "Expecting file of type .gz or .tgz"

  /** The extension guard of `Gunzip` as written: a path passes when it
      ends with ".tgz" or begins with ".gz". */
  function GunzipGuard(path: string): Option<string>
  {
    if !HasSuffix(path, ".tgz") && !HasPrefix(path, ".gz") then Some(WrongArchiveType) else None
  }

  /** The guard as its message describes it: a path passes when it ends
      with ".gz" or ".tgz". */
  function GunzipGuardIntended(path: string): Option<string>
  {
    if !HasSuffix(path, ".tgz") && !HasSuffix(path, ".gz") then Some(WrongArchiveType) else None
  }

  /** The guard as written refuses "chart.gz", which the message names as
      accepted, and lets ".gz-notes" through. */
  lemma GunzipGuardDiffers()
    ensures GunzipGuard("chart.gz") == Some(WrongArchiveType)
    ensures GunzipGuardIntended("chart.gz").None?
    ensures GunzipGuard(".gz-notes").None?
    ensures GunzipGuardIntended(".gz-notes") == Some(WrongArchiveType)
  {
    assert "chart.gz"[5..] == ".gz";
    assert !HasPrefix("chart.gz", ".gz") by { assert "chart.gz"[0] != ".gz"[0]; }
    assert !HasSuffix("chart.gz", ".tgz") by { assert "chart.gz"[4] != ".tgz"[0]; }
    assert ".gz-notes"[..3] == ".gz";
    assert !HasSuffix(".gz-notes", ".gz") by { assert ".gz-notes"[6] != ".gz"[0]; }
    assert !HasSuffix(".gz-notes", ".tgz") by { assert ".gz-notes"[5] != ".tgz"[0]; }
  }

  /** The intended guard passes exactly the names with one of the two
      archive extensions, whatever precedes the extension. */
  lemma GunzipGuardIntendedSpec(name: string, path: string)
    ensures GunzipGuardIntended(name + ".gz").None? && GunzipGuardIntended(name + ".tgz").None?
    ensures GunzipGuardIntended(path).None? <==> HasSuffix(path, ".gz") || HasSuffix(path, ".tgz")
  {
    assert (name + ".gz")[|name + ".gz"| - 3..] == ".gz";
    assert (name + ".tgz")[|name + ".tgz"| - 4..] == ".tgz";
  }

  // ---- LinkOverlayFiles ----

  /** The target of the link `LinkOverlayFiles` makes for overlay file
      `file` (relative to the overlay directory): "../" once per segment of
      `file` and once more, then overlay/<file>. */
  function OverlayLinkTarget(file: string): string
  {
    var depth := |Split(file, '/')| + 1;
    Repeat("../", depth) + OverlayDir + "/" + file
  }

  /** `n` parent steps. */
  function Parents(n: nat): (r: seq<string>)
    ensures |r| == n && forall i :: 0 <= i < n ==> r[i] == ".."
  {
    if n == 0 then [] else [".."] + Parents(n - 1)
  }

  /** Where a relative path, as segments, leads from directory `dir`: ".."
      goes up (not above the root), anything else goes down. */
  function Resolve(dir: seq<string>, rel: seq<string>): seq<string>
    decreases |rel|
  {
    if |rel| == 0 then dir
    else if rel[0] == ".." then Resolve(if |dir| > 0 then dir[..|dir| - 1] else dir, rel[1..])
    else Resolve(dir + [rel[0]], rel[1..])
  }

  /** A clean relative path: no empty segment and no "..". */
  predicate Clean(file: string)
  {
    forall i :: 0 <= i < |Split(file, '/')| ==> Split(file, '/')[i] != "" && Split(file, '/')[i] != ".."
  }

  /** `n` copies of `x + sep` in front of `y` split into `n` pieces `x`
      followed by the pieces of `y`. */
  lemma {:induction false} SplitRepeated(x: string, sep: char, n: nat, y: string)
    requires sep !in x
    ensures var parts := Split(Repeat(x + [sep], n) + y, sep);
      |parts| == n + |Split(y, sep)| && parts[n..] == Split(y, sep) && forall i :: 0 <= i < n ==> parts[i] == x
  {
    if n > 0 {
      var rest := Repeat(x + [sep], n - 1) + y;
      SplitRepeated(x, sep, n - 1, y);
      assert Repeat(x + [sep], n) + y == x + [sep] + rest;
      SplitCons(x, sep, rest);
    } else {
      assert Repeat(x + [sep], 0) + y == y;
    }
  }

  lemma SplitParents(n: nat, y: string)
    ensures Split(Repeat("../", n) + y, '/') == Parents(n) + Split(y, '/')
  {
    assert '/' !in "..";
    assert ".." + ['/'] == "../";
    SplitRepeated("..", '/', n, y);
  }

  lemma {:induction false} ResolveUp(dir: seq<string>, n: nat, rest: seq<string>)
    requires n <= |dir|
    ensures Resolve(dir, Parents(n) + rest) == Resolve(dir[..|dir| - n], rest)
  {
    if n > 0 {
      assert (Parents(n) + rest)[1..] == Parents(n - 1) + rest;
      ResolveUp(dir[..|dir| - 1], n - 1, rest);
      assert dir[..|dir| - 1][..|dir| - 1 - (n - 1)] == dir[..|dir| - n];
    } else {
      assert Parents(0) + rest == rest;
      assert dir[..|dir| - 0] == dir;
    }
  }

  lemma {:induction false} ResolveDown(dir: seq<string>, rel: seq<string>)
    requires forall i :: 0 <= i < |rel| ==> rel[i] != ".."
    ensures Resolve(dir, rel) == dir + rel
    decreases |rel|
  {
    if |rel| > 0 {
      ResolveDown(dir + [rel[0]], rel[1..]);
      assert dir + [rel[0]] + rel[1..] == dir + rel;
    }
  }

  /** The segments of the link target: one ".." per segment of `file` and
      one more, then "overlay" and the segments of `file`. */
  lemma OverlayLinkSegments(file: string)
    ensures Split(OverlayLinkTarget(file), '/') == Parents(|Split(file, '/')| + 1) + ([OverlayDir] + Split(file, '/'))
  {
    var n := |Split(file, '/')|;
    var tail := OverlayDir + ['/'] + file;
    assert OverlayLinkTarget(file) == Repeat("../", n + 1) + tail;
    SplitParents(n + 1, tail);
    OverlayDirHasNoSlash();
    SplitCons(OverlayDir, '/', file);
    assert Split(tail, '/') == [OverlayDir] + Split(file, '/');
  }

  lemma OverlayDirHasNoSlash()
    ensures '/' !in OverlayDir
  {
  }

  /** Resolved from the directory that holds the link,
      <package>/generated-changes/overlay/<directory of file>, the target
      reaches <package>/overlay/<file>. */
  lemma OverlayLinkResolves(pkg: seq<string>, file: string)
    requires Clean(file)
    ensures var segs := Split(file, '/');
      Resolve(pkg + [GeneratedDir, OverlayDir] + segs[..|segs| - 1], Split(OverlayLinkTarget(file), '/'))
        == pkg + [OverlayDir] + segs
  {
    var segs := Split(file, '/');
    var n := |segs|;
    var dir := pkg + [GeneratedDir, OverlayDir] + segs[..n - 1];
    var down := [OverlayDir] + segs;
    OverlayLinkSegments(file);
    assert dir[..|dir| - (n + 1)] == pkg;
    assert forall i :: 0 <= i < |down| ==> down[i] != "..";
    ResolveUpThenDown(dir, n + 1, down);
    assert pkg + down == pkg + [OverlayDir] + segs;
  }

  /** `k` parent steps and then only downward steps. */
  lemma ResolveUpThenDown(dir: seq<string>, k: nat, down: seq<string>)
    requires k <= |dir|
    requires forall i :: 0 <= i < |down| ==> down[i] != ".."
    ensures Resolve(dir, Parents(k) + down) == dir[..|dir| - k] + down
  {
    ResolveUp(dir, k, down);
    ResolveDown(dir[..|dir| - k], down);
  }
}
