/** pkg/validate/modification.go: the release validator's comparison of an
    upstream directory tree with the updated one. A tree is a map from the
    path of each entry relative to the root (starting with "/") to a file's
    contents or a directory; checksums become content equality. The order
    in which `filepath.Walk` visits a tree, the outcome of each walk, and
    chart loading and export are parameters. */
module Modification {
  import opened Wrappers
  import opened Strings
  import opened Helm

  datatype Node = File(data: Bytes) | Dir

  type Tree = map<string, Node>

  /** A `DirectoryComparison` as a value: the paths (on the update side)
      of the files in each class, in the order found. */
  datatype Comparison = Comparison(unchangedFiles: seq<string>, modifiedFiles: seq<string>, addedFiles: seq<string>, removedFiles: seq<string>)

  const NoComparison := Comparison([], [], [], [])

  /** `DirectoryComparison`, whose `Merge` appends to it in place. */
  class DirectoryComparison {
    var unchangedFiles: seq<string>
    var modifiedFiles: seq<string>
    var addedFiles: seq<string>
    var removedFiles: seq<string>

    constructor ()
      ensures Value() == NoComparison
    {
      unchangedFiles, modifiedFiles, addedFiles, removedFiles := [], [], [], [];
    }

    function Value(): Comparison
      reads this
    {
      Comparison(unchangedFiles, modifiedFiles, addedFiles, removedFiles)
    }

    /** `Match`: nothing modified, added or removed; unchanged files do not
        count. */
    predicate Match()
      reads this
      ensures Match() <==> modifiedFiles == [] && addedFiles == [] && removedFiles == []
    {
      |modifiedFiles| + |addedFiles| + |removedFiles| == 0
    }

    /** `Merge`: each list grows by the other comparison's list. */
    method Merge(other: Comparison)
      modifies this
      ensures Value() == Merged(old(Value()), other)
    {
      unchangedFiles := unchangedFiles + other.unchangedFiles;
      modifiedFiles := modifiedFiles + other.modifiedFiles;
      addedFiles := addedFiles + other.addedFiles;
      removedFiles := removedFiles + other.removedFiles;
    }
  }

  /** Two comparisons one after the other. */
  function Merged(a: Comparison, b: Comparison): Comparison
  {
    Comparison(a.unchangedFiles + b.unchangedFiles, a.modifiedFiles + b.modifiedFiles, a.addedFiles + b.addedFiles, a.removedFiles + b.removedFiles)
  }

  /** Merging keeps every path of both comparisons, in order, and the result
      shows no change exactly when neither does. */
  lemma MergedSpec(a: Comparison, b: Comparison)
    ensures var m := Merged(a, b);
      && |m.unchangedFiles| == |a.unchangedFiles| + |b.unchangedFiles| && |m.modifiedFiles| == |a.modifiedFiles| + |b.modifiedFiles|
      && |m.addedFiles| == |a.addedFiles| + |b.addedFiles| && |m.removedFiles| == |a.removedFiles| + |b.removedFiles|
      && m.modifiedFiles[..|a.modifiedFiles|] == a.modifiedFiles && m.modifiedFiles[|a.modifiedFiles|..] == b.modifiedFiles
      && ((m.modifiedFiles == [] && m.addedFiles == [] && m.removedFiles == []) <==>
          (a.modifiedFiles == [] && a.addedFiles == [] && a.removedFiles == [] && b.modifiedFiles == [] && b.addedFiles == [] && b.removedFiles == []))
  {
  }

  /** `ChecksumFile`: a file's contents; a directory cannot be read and
      gives the empty checksum, written `None`. */
  function Checksum(n: Node): Option<Bytes>
  {
    if n.File? then Some(n.data) else None
  }

  datatype Class = Removed | Unchanged | Modified

  /** Where an upstream file with contents `data` at `rel` lands: removed
      when the update has nothing there, unchanged when the checksums agree,
      and otherwise modified unless it is a .tgz chart that `tgzMatch` (the
      verdict of `matchHelmCharts` for the two paths) finds equal. */
  function Classify(upstreamPath: string, updatePath: string, rel: string, data: Bytes, update: Tree,
                    tgzMatch: (string, string) -> bool): Class
  {
    if rel !in update then Removed
    else if Some(data) != Checksum(update[rel]) && HasSuffix(upstreamPath + rel, ".tgz") then
      if tgzMatch(upstreamPath + rel, updatePath + rel) then Unchanged else Modified
    else if Some(data) != Checksum(update[rel]) then Modified
    else Unchanged
  }

  /** The comparison after the upstream walk has visited `walk`: each file
      visited is recorded, under its update-side path, in its class;
      directories are skipped. */
  function Walked(upstreamPath: string, updatePath: string, upstream: Tree, update: Tree, walk: seq<string>,
                  tgzMatch: (string, string) -> bool): (r: Comparison)
    requires forall i :: 0 <= i < |walk| ==> walk[i] in upstream
    ensures r.addedFiles == []
  {
    if |walk| == 0 then NoComparison
    else
      var c := Walked(upstreamPath, updatePath, upstream, update, walk[..|walk| - 1], tgzMatch);
      var rel := walk[|walk| - 1];
      match upstream[rel]
      case Dir => c
      case File(data) =>
        match Classify(upstreamPath, updatePath, rel, data, update, tgzMatch)
        case Removed => c.(removedFiles := c.removedFiles + [updatePath + rel])
        case Unchanged => c.(unchangedFiles := c.unchangedFiles + [updatePath + rel])
        case Modified => c.(modifiedFiles := c.modifiedFiles + [updatePath + rel])
  }

  /** The files the update walk reports as added after visiting `walk`:
      those that are not directories and whose relative path the upstream
      walk did not visit. */
  function Additions(updatePath: string, visited: set<string>, update: Tree, walk: seq<string>): seq<string>
    requires forall i :: 0 <= i < |walk| ==> walk[i] in update
  {
    if |walk| == 0 then []
    else
      var a := Additions(updatePath, visited, update, walk[..|walk| - 1]);
      var rel := walk[|walk| - 1];
      if rel !in visited && !update[rel].Dir? then a + [updatePath + rel] else a
  }

  /** The error `os.Stat` reports for a missing path. */
  function NotExist(path: string): string
  {
    "stat " + path + ": no such file or directory"
  }

  function RemovalSearchFailed(path: string, e: string): string
  {
    "failed to search \"" + path + "\" for removed or modified files: " + e
  }

  function AdditionSearchFailed(path: string, e: string): string
  {
    "failed to search \"" + path + "\" for added files: " + e
  }

  datatype Outcome = Outcome(comparison: Comparison, err: Option<string>)

  /** What `CompareDirectories` returns. A missing root (`None`) or a failed
      walk gives the empty comparison and an error. */
  function Compared(upstreamPath: string, updatePath: string, upstream: Option<Tree>, update: Option<Tree>,
                    upstreamWalk: seq<string>, updateWalk: seq<string>,
                    upstreamWalkErr: Option<string>, updateWalkErr: Option<string>,
                    tgzMatch: (string, string) -> bool): Outcome
    requires upstream.Some? ==> Enumerates(upstreamWalk, upstream.value.Keys)
    requires update.Some? ==> Enumerates(updateWalk, update.value.Keys)
  {
    if upstream.None? then Outcome(NoComparison, Some(NotExist(upstreamPath)))
    else if update.None? then Outcome(NoComparison, Some(NotExist(updatePath)))
    else if upstreamWalkErr.Some? then Outcome(NoComparison, Some(RemovalSearchFailed(upstreamPath, upstreamWalkErr.value)))
    else if updateWalkErr.Some? then Outcome(NoComparison, Some(AdditionSearchFailed(updatePath, updateWalkErr.value)))
    else
      var w := Walked(upstreamPath, updatePath, upstream.value, update.value, upstreamWalk, tgzMatch);
      Outcome(w.(addedFiles := Additions(updatePath, upstream.value.Keys, update.value, updateWalk)), None)
  }

  /** `CompareDirectories`: the upstream walk records every file's class
      and the paths it visits, then the update walk records as added every
      file whose path was not visited. */
  method CompareDirectories(upstreamPath: string, updatePath: string, upstream: Option<Tree>, update: Option<Tree>,
                            upstreamWalk: seq<string>, updateWalk: seq<string>,
                            upstreamWalkErr: Option<string>, updateWalkErr: Option<string>,
                            tgzMatch: (string, string) -> bool)
    returns (c: DirectoryComparison, err: Option<string>)
    requires upstream.Some? ==> Enumerates(upstreamWalk, upstream.value.Keys)
    requires update.Some? ==> Enumerates(updateWalk, update.value.Keys)
    ensures fresh(c)
    ensures Outcome(c.Value(), err) ==
      Compared(upstreamPath, updatePath, upstream, update, upstreamWalk, updateWalk, upstreamWalkErr, updateWalkErr, tgzMatch)
  {
    c := new DirectoryComparison();
    if upstream.None? {
      return c, Some(NotExist(upstreamPath));
    }
    if update.None? {
      return c, Some(NotExist(updatePath));
    }
    var up, upd := upstream.value, update.value;
    var checkedSet := WalkUpstream(c, upstreamPath, updatePath, up, upd, upstreamWalk, tgzMatch);
    VisitedAll(upstreamWalk, up.Keys);
    if upstreamWalkErr.Some? {
      c := new DirectoryComparison();
      return c, Some(RemovalSearchFailed(upstreamPath, upstreamWalkErr.value));
    }
    WalkUpdate(c, updatePath, checkedSet, upd, updateWalk);
    if updateWalkErr.Some? {
      c := new DirectoryComparison();
      return c, Some(AdditionSearchFailed(updatePath, updateWalkErr.value));
    }
    err := None;
  }

  /** The upstream walk: every entry visited in turn; the result is the set
      of relative paths visited. */
  method WalkUpstream(c: DirectoryComparison, upstreamPath: string, updatePath: string, up: Tree, upd: Tree,
                      upstreamWalk: seq<string>, tgzMatch: (string, string) -> bool)
    returns (checkedSet: set<string>)
    requires c.Value() == NoComparison
    requires forall i :: 0 <= i < |upstreamWalk| ==> upstreamWalk[i] in up
    modifies c
    ensures c.Value() == Walked(upstreamPath, updatePath, up, upd, upstreamWalk, tgzMatch)
    ensures checkedSet == set j | 0 <= j < |upstreamWalk| :: upstreamWalk[j]
  {
    checkedSet := {};
    var i := 0;
    while i < |upstreamWalk|
      invariant 0 <= i <= |upstreamWalk|
      invariant checkedSet == set j | 0 <= j < i :: upstreamWalk[j]
      invariant c.Value() == Walked(upstreamPath, updatePath, up, upd, upstreamWalk[..i], tgzMatch)
    {
      var relativePath := upstreamWalk[i];
      checkedSet := checkedSet + {relativePath};
      ghost var before := c.Value();
      VisitUpstream(c, upstreamPath, updatePath, relativePath, up[relativePath], upd, tgzMatch);
      WalkedLast(upstreamPath, updatePath, up, upd, upstreamWalk[..i + 1], tgzMatch);
      assert upstreamWalk[..i + 1][..i] == upstreamWalk[..i];
      ExtendsUnique(before, c.Value(), Walked(upstreamPath, updatePath, up, upd, upstreamWalk[..i + 1], tgzMatch),
                    updatePath + relativePath, Kind(upstreamPath, updatePath, relativePath, up[relativePath], upd, tgzMatch));
      i := i + 1;
    }
    assert upstreamWalk[..i] == upstreamWalk;
  }

  /** The update walk: every file whose relative path is not in
      `checkedSet` is recorded as added. */
  method WalkUpdate(c: DirectoryComparison, updatePath: string, checkedSet: set<string>, upd: Tree, updateWalk: seq<string>)
    requires c.addedFiles == []
    requires forall i :: 0 <= i < |updateWalk| ==> updateWalk[i] in upd
    modifies c
    ensures c.Value() == old(c.Value()).(addedFiles := Additions(updatePath, checkedSet, upd, updateWalk))
  {
    var j := 0;
    while j < |updateWalk|
      invariant 0 <= j <= |updateWalk|
      invariant c.unchangedFiles == old(c.unchangedFiles) && c.modifiedFiles == old(c.modifiedFiles)
      invariant c.removedFiles == old(c.removedFiles)
      invariant c.addedFiles == Additions(updatePath, checkedSet, upd, updateWalk[..j])
    {
      var relativePath := updateWalk[j];
      AdditionsLast(updatePath, checkedSet, upd, updateWalk[..j + 1]);
      assert updateWalk[..j + 1][..j] == updateWalk[..j];
      if relativePath !in checkedSet && !upd[relativePath].Dir? {
        c.addedFiles := c.addedFiles + [updatePath + relativePath];
      }
      j := j + 1;
    }
    assert updateWalk[..j] == updateWalk;
  }

  // ---- What the classification promises ----

  /** Where the upstream entry `node` at `rel` lands: nowhere for a
      directory, the class `Classify` names for a file. */
  function Kind(upstreamPath: string, updatePath: string, rel: string, node: Node, update: Tree,
                tgzMatch: (string, string) -> bool): Option<Class>
  {
    match node
    case Dir => None
    case File(data) => Some(Classify(upstreamPath, updatePath, rel, data, update, tgzMatch))
  }

  /** One visit of the upstream walk's callback. */
  method VisitUpstream(c: DirectoryComparison, upstreamPath: string, updatePath: string, relativePath: string, node: Node,
                       upd: Tree, tgzMatch: (string, string) -> bool)
    modifies c
    ensures Extends(old(c.Value()), c.Value(), updatePath + relativePath, Kind(upstreamPath, updatePath, relativePath, node, upd, tgzMatch))
    ensures c.addedFiles == old(c.addedFiles)
  {
    if node.File? {
      var updateFilePath := updatePath + relativePath;
      if relativePath !in upd {
        c.removedFiles := c.removedFiles + [updateFilePath];
      } else {
        var leftCheckSum := Checksum(node);
        var rightCheckSum := Checksum(upd[relativePath]);
        if leftCheckSum != rightCheckSum && HasSuffix(upstreamPath + relativePath, ".tgz") {
          var chartMatch := tgzMatch(upstreamPath + relativePath, updateFilePath);
          if chartMatch {
            c.unchangedFiles := c.unchangedFiles + [updateFilePath];
          } else {
            c.modifiedFiles := c.modifiedFiles + [updateFilePath];
          }
        } else if leftCheckSum != rightCheckSum {
          c.modifiedFiles := c.modifiedFiles + [updateFilePath];
        } else {
          c.unchangedFiles := c.unchangedFiles + [updateFilePath];
        }
      }
    }
  }

  lemma AdditionsLast(updatePath: string, visited: set<string>, update: Tree, walk: seq<string>)
    requires |walk| > 0 && forall i :: 0 <= i < |walk| ==> walk[i] in update
    ensures var rel := walk[|walk| - 1];
      Additions(updatePath, visited, update, walk) ==
        Additions(updatePath, visited, update, walk[..|walk| - 1]) + (if rel !in visited && !update[rel].Dir? then [updatePath + rel] else [])
  {
  }

  lemma ExtendsUnique(c: Comparison, r: Comparison, s: Comparison, p: string, k: Option<Class>)
    requires Extends(c, r, p, k) && Extends(c, s, p, k) && r.addedFiles == s.addedFiles
    ensures r == s
  {
  }

  /** A walk that enumerates `keys` visits all of them. */
  lemma VisitedAll(walk: seq<string>, keys: set<string>)
    requires Enumerates(walk, keys)
    ensures (set j | 0 <= j < |walk| :: walk[j]) == keys
  {
  }

  /** The upstream files visited, under their update-side paths. */
  function FilePaths(updatePath: string, upstream: Tree, walk: seq<string>): multiset<string>
    requires forall i :: 0 <= i < |walk| ==> walk[i] in upstream
  {
    if |walk| == 0 then multiset{}
    else
      var m := FilePaths(updatePath, upstream, walk[..|walk| - 1]);
      if upstream[walk[|walk| - 1]].File? then m + multiset{updatePath + walk[|walk| - 1]} else m
  }

  /** Every file the upstream walk visits lands in exactly one of Removed,
      Unchanged and Modified — the one `Classify` names — under its
      update-side path, and nothing else lands in any of them. */
  lemma {:induction false} WalkedPartition(upstreamPath: string, updatePath: string, upstream: Tree, update: Tree,
                                           walk: seq<string>, tgzMatch: (string, string) -> bool)
    requires forall i :: 0 <= i < |walk| ==> walk[i] in upstream
    requires forall i, j :: 0 <= i < j < |walk| ==> walk[i] != walk[j]
    ensures var r := Walked(upstreamPath, updatePath, upstream, update, walk, tgzMatch);
      && Classified(r) == FilePaths(updatePath, upstream, walk)
      && forall i :: 0 <= i < |walk| && upstream[walk[i]].File? ==>
           Lands(r, updatePath + walk[i], Classify(upstreamPath, updatePath, walk[i], upstream[walk[i]].data, update, tgzMatch))
  {
    WalkedCounts(upstreamPath, updatePath, upstream, update, walk, tgzMatch);
    if |walk| > 0 {
      var init, rel := walk[..|walk| - 1], walk[|walk| - 1];
      WalkedPartition(upstreamPath, updatePath, upstream, update, init, tgzMatch);
      var c := Walked(upstreamPath, updatePath, upstream, update, init, tgzMatch);
      var r := Walked(upstreamPath, updatePath, upstream, update, walk, tgzMatch);
      var p := updatePath + rel;
      var k := Kind(upstreamPath, updatePath, rel, upstream[rel], update, tgzMatch);
      WalkedLast(upstreamPath, updatePath, upstream, update, walk, tgzMatch);
      forall i | 0 <= i < |walk| && upstream[walk[i]].File?
        ensures Lands(r, updatePath + walk[i], Classify(upstreamPath, updatePath, walk[i], upstream[walk[i]].data, update, tgzMatch))
      {
        if i < |walk| - 1 {
          assert init[i] == walk[i];
          PathsDiffer(updatePath, walk[i], rel);
          ExtendsKeeps(c, r, p, k, updatePath + walk[i]);
        } else {
          NotVisitedYet(updatePath, upstream, init, rel, c);
          ExtendsLands(c, r, p, k.value);
        }
      }
    }
  }

  /** The paths of the three classes of the upstream walk, together. */
  function Classified(r: Comparison): multiset<string>
  {
    multiset(r.removedFiles) + multiset(r.unchangedFiles) + multiset(r.modifiedFiles)
  }

  lemma {:induction false} WalkedCounts(upstreamPath: string, updatePath: string, upstream: Tree, update: Tree,
                                        walk: seq<string>, tgzMatch: (string, string) -> bool)
    requires forall i :: 0 <= i < |walk| ==> walk[i] in upstream
    ensures Classified(Walked(upstreamPath, updatePath, upstream, update, walk, tgzMatch)) == FilePaths(updatePath, upstream, walk)
  {
    if |walk| > 0 {
      var rel := walk[|walk| - 1];
      var k := Kind(upstreamPath, updatePath, rel, upstream[rel], update, tgzMatch);
      WalkedCounts(upstreamPath, updatePath, upstream, update, walk[..|walk| - 1], tgzMatch);
      WalkedLast(upstreamPath, updatePath, upstream, update, walk, tgzMatch);
      ExtendsCounts(Walked(upstreamPath, updatePath, upstream, update, walk[..|walk| - 1], tgzMatch),
                    Walked(upstreamPath, updatePath, upstream, update, walk, tgzMatch), updatePath + rel, k);
    }
  }

  lemma ExtendsCounts(c: Comparison, r: Comparison, p: string, k: Option<Class>)
    requires Extends(c, r, p, k)
    ensures Classified(r) == Classified(c) + (if k.Some? then multiset{p} else multiset{})
  {
    match k
    case None =>
      assert r.removedFiles == c.removedFiles && r.unchangedFiles == c.unchangedFiles && r.modifiedFiles == c.modifiedFiles;
    case Some(Removed) =>
      assert multiset(r.removedFiles) == multiset(c.removedFiles) + multiset{p};
      assert r.unchangedFiles == c.unchangedFiles && r.modifiedFiles == c.modifiedFiles;
    case Some(Unchanged) =>
      assert multiset(r.unchangedFiles) == multiset(c.unchangedFiles) + multiset{p};
      assert r.removedFiles == c.removedFiles && r.modifiedFiles == c.modifiedFiles;
    case Some(Modified) =>
      assert multiset(r.modifiedFiles) == multiset(c.modifiedFiles) + multiset{p};
      assert r.removedFiles == c.removedFiles && r.unchangedFiles == c.unchangedFiles;
  }

  /** The path `p` is in exactly the list of class `k`. */
  predicate Lands(r: Comparison, p: string, k: Class)
  {
    && (p in r.removedFiles <==> k == Removed)
    && (p in r.unchangedFiles <==> k == Unchanged)
    && (p in r.modifiedFiles <==> k == Modified)
  }

  /** `r` is `c` with `p` appended to the list of class `k`, if any. */
  predicate Extends(c: Comparison, r: Comparison, p: string, k: Option<Class>)
  {
    && r.removedFiles == c.removedFiles + (if k == Some(Removed) then [p] else [])
    && r.unchangedFiles == c.unchangedFiles + (if k == Some(Unchanged) then [p] else [])
    && r.modifiedFiles == c.modifiedFiles + (if k == Some(Modified) then [p] else [])
  }

  lemma WalkedLast(upstreamPath: string, updatePath: string, upstream: Tree, update: Tree,
                   walk: seq<string>, tgzMatch: (string, string) -> bool)
    requires |walk| > 0 && forall i :: 0 <= i < |walk| ==> walk[i] in upstream
    ensures var rel := walk[|walk| - 1];
      Extends(Walked(upstreamPath, updatePath, upstream, update, walk[..|walk| - 1], tgzMatch),
              Walked(upstreamPath, updatePath, upstream, update, walk, tgzMatch), updatePath + rel,
              Kind(upstreamPath, updatePath, rel, upstream[rel], update, tgzMatch))
  {
  }

  lemma ExtendsKeeps(c: Comparison, r: Comparison, p: string, k: Option<Class>, x: string)
    requires Extends(c, r, p, k) && x != p
    ensures (x in r.removedFiles <==> x in c.removedFiles) && (x in r.unchangedFiles <==> x in c.unchangedFiles)
      && (x in r.modifiedFiles <==> x in c.modifiedFiles)
  {
  }

  lemma ExtendsLands(c: Comparison, r: Comparison, p: string, k: Class)
    requires Extends(c, r, p, Some(k))
    requires p !in c.removedFiles && p !in c.unchangedFiles && p !in c.modifiedFiles
    ensures Lands(r, p, k)
  {
  }

  /** Distinct relative paths give distinct update-side paths. */
  lemma PathsDiffer(root: string, a: string, b: string)
    requires a != b
    ensures root + a != root + b
  {
    assert (root + a)[|root|..] == a;
    assert (root + b)[|root|..] == b;
  }

  /** A path the walk has not visited yet is in no list. */
  lemma {:induction false} NotVisitedYet(updatePath: string, upstream: Tree, walk: seq<string>, rel: string, c: Comparison)
    requires forall i :: 0 <= i < |walk| ==> walk[i] in upstream
    requires Classified(c) == FilePaths(updatePath, upstream, walk)
    requires forall i :: 0 <= i < |walk| ==> walk[i] != rel
    ensures updatePath + rel !in c.removedFiles && updatePath + rel !in c.unchangedFiles && updatePath + rel !in c.modifiedFiles
  {
    FilePathsNotIn(updatePath, upstream, walk, rel);
    assert multiset(c.removedFiles)[updatePath + rel] == 0;
    assert multiset(c.unchangedFiles)[updatePath + rel] == 0;
    assert multiset(c.modifiedFiles)[updatePath + rel] == 0;
  }

  lemma {:induction false} FilePathsNotIn(updatePath: string, upstream: Tree, walk: seq<string>, rel: string)
    requires forall i :: 0 <= i < |walk| ==> walk[i] in upstream
    requires forall i :: 0 <= i < |walk| ==> walk[i] != rel
    ensures FilePaths(updatePath, upstream, walk)[updatePath + rel] == 0
  {
    if |walk| > 0 {
      FilePathsNotIn(updatePath, upstream, walk[..|walk| - 1], rel);
      PathsDiffer(updatePath, walk[|walk| - 1], rel);
    }
  }

  /** A file is reported added exactly when the update has it, it is not a
      directory, and the upstream walk did not visit its path; so a path
      present in both trees is never added. */
  lemma {:induction false} AdditionsSpec(updatePath: string, visited: set<string>, update: Tree, walk: seq<string>)
    requires forall i :: 0 <= i < |walk| ==> walk[i] in update
    ensures forall x :: x in Additions(updatePath, visited, update, walk) <==>
      exists i :: 0 <= i < |walk| && x == updatePath + walk[i] && walk[i] !in visited && update[walk[i]].File?
  {
    if |walk| > 0 {
      var init := walk[..|walk| - 1];
      AdditionsSpec(updatePath, visited, update, init);
      forall x | x in Additions(updatePath, visited, update, walk)
        ensures exists i :: 0 <= i < |walk| && x == updatePath + walk[i] && walk[i] !in visited && update[walk[i]].File?
      {
        if x in Additions(updatePath, visited, update, init) {
          var i :| 0 <= i < |init| && x == updatePath + init[i] && init[i] !in visited && update[init[i]].File?;
          assert init[i] == walk[i];
        } else {
          assert x == updatePath + walk[|walk| - 1];
        }
      }
      forall x | exists i :: 0 <= i < |walk| && x == updatePath + walk[i] && walk[i] !in visited && update[walk[i]].File?
        ensures x in Additions(updatePath, visited, update, walk)
      {
        var i :| 0 <= i < |walk| && x == updatePath + walk[i] && walk[i] !in visited && update[walk[i]].File?;
        if i < |walk| - 1 {
          assert init[i] == walk[i];
        }
      }
    }
  }

  /** Comparing a tree with itself finds nothing modified, added or
      removed, whatever the chart comparison says. */
  lemma SelfComparisonMatches(upstreamPath: string, updatePath: string, t: Tree, walk: seq<string>,
                              tgzMatch: (string, string) -> bool)
    requires Enumerates(walk, t.Keys)
    ensures var r := Compared(upstreamPath, updatePath, Some(t), Some(t), walk, walk, None, None, tgzMatch);
      r.err.None? && r.comparison.modifiedFiles == [] && r.comparison.addedFiles == [] && r.comparison.removedFiles == []
      && |r.comparison.unchangedFiles| == |FilePaths(updatePath, t, walk)|
  {
    SelfWalkUnchanged(upstreamPath, updatePath, t, walk, tgzMatch);
    WalkedPartition(upstreamPath, updatePath, t, t, walk, tgzMatch);
    NothingAdded(updatePath, t, walk);
  }

  lemma {:induction false} SelfWalkUnchanged(upstreamPath: string, updatePath: string, t: Tree, walk: seq<string>,
                                             tgzMatch: (string, string) -> bool)
    requires forall i :: 0 <= i < |walk| ==> walk[i] in t
    ensures var r := Walked(upstreamPath, updatePath, t, t, walk, tgzMatch);
      r.modifiedFiles == [] && r.removedFiles == []
  {
    if |walk| > 0 {
      SelfWalkUnchanged(upstreamPath, updatePath, t, walk[..|walk| - 1], tgzMatch);
    }
  }

  lemma {:induction false} NothingAdded(updatePath: string, t: Tree, walk: seq<string>)
    requires forall i :: 0 <= i < |walk| ==> walk[i] in t
    ensures Additions(updatePath, t.Keys, t, walk) == []
  {
    if |walk| > 0 {
      NothingAdded(updatePath, t, walk[..|walk| - 1]);
    }
  }

  /** A plain file whose contents changed is reported modified, so the
      trees do not match. */
  lemma ChangedFileIsModified(upstreamPath: string, updatePath: string, upstream: Tree, update: Tree,
                              upstreamWalk: seq<string>, updateWalk: seq<string>, tgzMatch: (string, string) -> bool, rel: string)
    requires Enumerates(upstreamWalk, upstream.Keys) && Enumerates(updateWalk, update.Keys)
    requires rel in upstream && upstream[rel].File? && rel in update && update[rel] != upstream[rel]
    requires !HasSuffix(upstreamPath + rel, ".tgz")
    ensures var r := Compared(upstreamPath, updatePath, Some(upstream), Some(update), upstreamWalk, updateWalk, None, None, tgzMatch);
      updatePath + rel in r.comparison.modifiedFiles
  {
    var i :| 0 <= i < |upstreamWalk| && upstreamWalk[i] == rel;
    WalkedPartition(upstreamPath, updatePath, upstream, update, upstreamWalk, tgzMatch);
  }

  /** A file only the update has is reported added. */
  lemma NewFileIsAdded(upstreamPath: string, updatePath: string, upstream: Tree, update: Tree,
                       upstreamWalk: seq<string>, updateWalk: seq<string>, tgzMatch: (string, string) -> bool, rel: string)
    requires Enumerates(upstreamWalk, upstream.Keys) && Enumerates(updateWalk, update.Keys)
    requires rel !in upstream && rel in update && update[rel].File?
    ensures var r := Compared(upstreamPath, updatePath, Some(upstream), Some(update), upstreamWalk, updateWalk, None, None, tgzMatch);
      updatePath + rel in r.comparison.addedFiles
  {
    var i :| 0 <= i < |updateWalk| && updateWalk[i] == rel;
    AdditionsSpec(updatePath, upstream.Keys, update, updateWalk);
  }

  // ---- Charts ----

  /** Annotations the validator ignores. */
  predicate Ignored(key: string)
  {
    HasPrefix(key, "catalog.cattle.io")
  }

  /** The metadata `prepareTgzForComparison` leaves: every annotation whose
      key starts with "catalog.cattle.io" deleted and Deprecated false. */
  function Normalized(m: Metadata): Metadata
  {
    m.(annotations := if m.annotations.None? then None
                      else Some(map k | k in m.annotations.value && !Ignored(k) :: m.annotations.value[k]),
       deprecated := false)
  }

  /** Normalisation removes exactly the ignored annotations and keeps the
      other annotations and fields, and normalising twice changes nothing. */
  lemma NormalizedSpec(m: Metadata)
    ensures Annotations(Normalized(m)).Keys == set k | k in Annotations(m) && !Ignored(k)
    ensures forall k :: k in Annotations(Normalized(m)) ==> Annotations(Normalized(m))[k] == Annotations(m)[k]
    ensures !Normalized(m).deprecated
    ensures Normalized(m).(annotations := m.annotations, deprecated := m.deprecated) == m
    ensures Normalized(Normalized(m)) == Normalized(m)
  {
    if m.annotations.Some? {
      var once := Normalized(m).annotations.value;
      assert Normalized(Normalized(m)).annotations.value == once;
    }
  }

  /** Two charts' metadata normalise alike exactly when they differ in
      nothing but ignored annotations and Deprecated. */
  lemma NormalizedEqualIff(a: Metadata, b: Metadata)
    ensures Normalized(a) == Normalized(b) <==>
      && a.(annotations := None, deprecated := false) == b.(annotations := None, deprecated := false)
      && a.annotations.None? == b.annotations.None?
      && forall k :: !Ignored(k) ==>
           (k in Annotations(a) <==> k in Annotations(b)) && (k in Annotations(a) ==> Annotations(a)[k] == Annotations(b)[k])
  {
    if a.(annotations := None, deprecated := false) == b.(annotations := None, deprecated := false)
       && a.annotations.None? == b.annotations.None?
       && forall k :: !Ignored(k) ==>
            (k in Annotations(a) <==> k in Annotations(b)) && (k in Annotations(a) ==> Annotations(a)[k] == Annotations(b)[k])
    {
      if a.annotations.Some? {
        var na, nb := Normalized(a).annotations.value, Normalized(b).annotations.value;
        assert forall k :: k in na <==> k in nb;
        assert na == nb;
      }
      assert Normalized(a) == Normalized(a).(annotations := Normalized(a).annotations);
    }
    if Normalized(a) == Normalized(b) {
      assert a.(annotations := None, deprecated := false) == Normalized(a).(annotations := None);
      assert b.(annotations := None, deprecated := false) == Normalized(b).(annotations := None);
      forall k | !Ignored(k)
        ensures (k in Annotations(a) <==> k in Annotations(b)) && (k in Annotations(a) ==> Annotations(a)[k] == Annotations(b)[k])
      {
        assert k in Annotations(a) <==> k in Annotations(Normalized(a));
        assert k in Annotations(b) <==> k in Annotations(Normalized(b));
      }
    }
  }

  /** The annotation loop and the Deprecated reset of
      `prepareTgzForComparison`, on the loaded chart. */
  method NormalizeChart(c: Chart)
    modifies c
    ensures c.metadata == Normalized(old(c.metadata))
    ensures c.files == old(c.files)
  {
    ghost var m0 := c.metadata;
    if c.metadata.annotations.Some? {
      var a0 := c.metadata.annotations.value;
      var todo := a0.Keys;
      assert (map k | k in a0 && (k in todo || !Ignored(k)) :: a0[k]) == a0;
      while todo != {}
        invariant todo <= a0.Keys
        invariant c.files == old(c.files) && c.metadata == m0.(annotations := c.metadata.annotations)
        invariant c.metadata.annotations == Some(map k | k in a0 && (k in todo || !Ignored(k)) :: a0[k])
        decreases |todo|
      {
        var annotation :| annotation in todo;
        if Ignored(annotation) {
          c.metadata := c.metadata.(annotations := Some(c.metadata.annotations.value - {annotation}));
        }
        todo := todo - {annotation};
        assert c.metadata.annotations.value == map k | k in a0 && (k in todo || !Ignored(k)) :: a0[k];
      }
      assert c.metadata.annotations.value == map k | k in a0 && !Ignored(k) :: a0[k];
    }
    c.metadata := c.metadata.(deprecated := false);
  }

  /** A chart as `loader.LoadArchive` reads it from a .tgz. */
  datatype LoadedChart = LoadedChart(metadata: Metadata, files: seq<ChartFile>)

  function PrepareFailed(path: string, e: string): string
  {
    "failed to prepare " + path + " for comparison: " + e
  }

  const LoadFailed := "failed to load archive: "
  const ExportFailed := "failed to export chart directory: "
  const CompareFailed := "failed to compare directories: "

  /** The chart directory `prepareTgzForComparison` exports for the archive
      `data`, or its error. `load` stands for `loader.LoadArchive` and
      `exportChart` for `conform.ExportChartDirectory`. */
  function PreparedTree(data: Bytes, load: Bytes -> Result<LoadedChart>, exportChart: LoadedChart -> Result<Tree>): Result<Tree>
  {
    match load(data)
    case Err(e) => Err(LoadFailed + e)
    case Ok(ch) =>
      match exportChart(LoadedChart(Normalized(ch.metadata), ch.files))
      case Err(e) => Err(ExportFailed + e)
      case Ok(t) => Ok(t)
  }

  /** `prepareTgzForComparison`: load, normalise in place, export. */
  method PrepareTgzForComparison(data: Bytes, load: Bytes -> Result<LoadedChart>, exportChart: LoadedChart -> Result<Tree>)
    returns (r: Result<Tree>)
    ensures r == PreparedTree(data, load, exportChart)
  {
    var loaded := load(data);
    if loaded.Err? {
      return Err(LoadFailed + loaded.msg);
    }
    var upstreamChart := new Chart(loaded.value.metadata, loaded.value.files);
    NormalizeChart(upstreamChart);
    var exported := exportChart(LoadedChart(upstreamChart.metadata, upstreamChart.files));
    if exported.Err? {
      return Err(ExportFailed + exported.msg);
    }
    return Ok(exported.value);
  }

  /** `matchHelmCharts`: both archives are prepared, and their exported
      directories (under the temporary paths `upstreamDir` and `updateDir`,
      walked in the order `order` gives) must compare without a modified,
      added or removed file. `nested` decides the .tgz files inside them.
      Any error gives false. */
  method MatchHelmCharts(upstreamPath: string, updatePath: string, upstreamData: Bytes, updateData: Bytes,
                         load: Bytes -> Result<LoadedChart>, exportChart: LoadedChart -> Result<Tree>,
                         order: Tree -> seq<string>, upstreamDir: string, updateDir: string,
                         nested: (string, string) -> bool)
    returns (matched: bool, err: Option<string>)
    requires forall t :: Enumerates(order(t), t.Keys)
    ensures PreparedTree(upstreamData, load, exportChart).Err? ==>
      !matched && err == Some(PrepareFailed(upstreamPath, PreparedTree(upstreamData, load, exportChart).msg))
    ensures PreparedTree(upstreamData, load, exportChart).Ok? && PreparedTree(updateData, load, exportChart).Err? ==>
      !matched && err == Some(PrepareFailed(updatePath, PreparedTree(updateData, load, exportChart).msg))
    ensures PreparedTree(upstreamData, load, exportChart).Ok? && PreparedTree(updateData, load, exportChart).Ok? ==>
      var a, b := PreparedTree(upstreamData, load, exportChart).value, PreparedTree(updateData, load, exportChart).value;
      var r := Compared(upstreamDir, updateDir, Some(a), Some(b), order(a), order(b), None, None, nested).comparison;
      err.None? && (matched <==> r.modifiedFiles == [] && r.addedFiles == [] && r.removedFiles == [])
  {
    var upstreamChartDirectory := PrepareTgzForComparison(upstreamData, load, exportChart);
    if upstreamChartDirectory.Err? {
      return false, Some(PrepareFailed(upstreamPath, upstreamChartDirectory.msg));
    }
    var updateChartDirectory := PrepareTgzForComparison(updateData, load, exportChart);
    if updateChartDirectory.Err? {
      return false, Some(PrepareFailed(updatePath, updateChartDirectory.msg));
    }
    var a, b := upstreamChartDirectory.value, updateChartDirectory.value;
    var directoryComparison, compareErr := CompareDirectories(upstreamDir, updateDir, Some(a), Some(b),
                                                               order(a), order(b), None, None, nested);
    match compareErr {
      case Some(e) => return false, Some(CompareFailed + e);
      case None =>
    }
    return directoryComparison.Match(), None;
  }

  /** Two archives that load to charts differing only in ignored
      annotations and Deprecated, and that export, match. */
  lemma AllowListedChangesMatch(upstreamData: Bytes, updateData: Bytes, load: Bytes -> Result<LoadedChart>,
                                exportChart: LoadedChart -> Result<Tree>, order: Tree -> seq<string>,
                                upstreamDir: string, updateDir: string, nested: (string, string) -> bool)
    requires forall t :: Enumerates(order(t), t.Keys)
    requires load(upstreamData).Ok? && load(updateData).Ok?
    requires Normalized(load(upstreamData).value.metadata) == Normalized(load(updateData).value.metadata)
    requires load(upstreamData).value.files == load(updateData).value.files
    requires PreparedTree(upstreamData, load, exportChart).Ok?
    ensures PreparedTree(updateData, load, exportChart) == PreparedTree(upstreamData, load, exportChart)
    ensures var a := PreparedTree(upstreamData, load, exportChart).value;
      var r := Compared(upstreamDir, updateDir, Some(a), Some(a), order(a), order(a), None, None, nested).comparison;
      r.modifiedFiles == [] && r.addedFiles == [] && r.removedFiles == []
  {
    var a := PreparedTree(upstreamData, load, exportChart).value;
    SelfComparisonMatches(upstreamDir, updateDir, a, order(a), nested);
  }
}
