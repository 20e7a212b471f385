/** main.go: how new chart versions from upstream are integrated with the
    package's existing ones. Each chart is held by a shared `ChartWrapper`
    that records whether it was modified; the new charts get the overlay
    files, the upstream.yaml metadata, the derived Rancher annotations and
    a local icon, and the "featured" annotation is handed from the
    existing charts to the last new one. */
module Integration {
  import opened Wrappers
  import opened Helm
  import Conform
  import Icons
  import Strings
  import ParseYaml

  const AnnotationAutoInstall := "catalog.cattle.io/auto-install"
  const AnnotationCertified := "catalog.cattle.io/certified"
  const AnnotationDisplayName := "catalog.cattle.io/display-name"
  const AnnotationExperimental := "catalog.cattle.io/experimental"
  const AnnotationFeatured := "catalog.cattle.io/featured"
  const AnnotationHidden := "catalog.cattle.io/hidden"
  const AnnotationKubeVersion := "catalog.cattle.io/kube-version"
  const AnnotationNamespace := "catalog.cattle.io/namespace"
  const AnnotationReleaseName := "catalog.cattle.io/release-name"

  /** main.go's PackageWrapper, reduced to what integration reads. It is
      passed by value and never changed here. */
  datatype Package = Package(name: string, displayName: string, upstreamYaml: ParseYaml.UpstreamYaml)

  /** `ChartWrapper`: a chart and whether it has been modified since it was
      loaded or fetched. The chart pointer itself never changes. */
  class ChartWrapper {
    const chart: Chart
    var modified: bool

    /** `NewChartWrapper`: a wrapper starts unmodified. */
    constructor (chart: Chart)
      ensures this.chart == chart && !modified
    {
      this.chart := chart;
      modified := false;
    }
  }

  // ---- Overlay files ----

  function Names(files: seq<ChartFile>): set<string>
  {
    set f | f in files :: f.name
  }

  function PathSet(paths: seq<string>): set<string>
  {
    set p | p in paths
  }

  /** The contents a lookup by name finds: those of the first file with
      that name. */
  function Lookup(files: seq<ChartFile>, name: string): Option<Bytes>
  {
    if |files| == 0 then None
    else if files[0].name == name then Some(files[0].data)
    else Lookup(files[1..], name)
  }

  /** No earlier file has the name of the `i`-th. */
  predicate FirstNamed(files: seq<ChartFile>, i: int)
    requires 0 <= i < |files|
  {
    forall j :: 0 <= j < i ==> files[j].name != files[i].name
  }

  /** One overlay path written into the chart's files: the first file with
      that name gets the contents, or a new file is appended. */
  function Upsert(files: seq<ChartFile>, path: string, data: Bytes): seq<ChartFile>
  {
    if |files| == 0 then [ChartFile(path, data)]
    else if files[0].name == path then [ChartFile(path, data)] + files[1..]
    else [files[0]] + Upsert(files[1..], path, data)
  }

  /** The overlay paths written one after the other in the order `paths`. */
  function UpsertAll(files: seq<ChartFile>, overlay: map<string, Bytes>, paths: seq<string>): seq<ChartFile>
    requires forall i :: 0 <= i < |paths| ==> paths[i] in overlay
  {
    if |paths| == 0 then files
    else
      var last := paths[|paths| - 1];
      Upsert(UpsertAll(files, overlay, paths[..|paths| - 1]), last, overlay[last])
  }

  /** The effect of `applyOverlayFiles`: the overlay written path by path in
      some order (Go's map order is unspecified). */
  ghost predicate Upserted(before: seq<ChartFile>, after: seq<ChartFile>, overlay: map<string, Bytes>)
  {
    exists paths :: Strings.Enumerates(paths, overlay.Keys) && after == UpsertAll(before, overlay, paths)
  }

  lemma NamesCons(files: seq<ChartFile>)
    requires |files| > 0
    ensures Names(files) == {files[0].name} + Names(files[1..])
  {
    forall f | f in files ensures f == files[0] || f in files[1..] {
      var k :| 0 <= k < |files| && files[k] == f;
      if k > 0 { assert files[1..][k - 1] == f; }
    }
    assert files[0] in files;
    forall f | f in files[1..] ensures f in files { }
  }

  /** After writing a path, it reads back the written contents and every
      other path reads what it read before. */
  lemma {:induction false} UpsertLookup(files: seq<ChartFile>, path: string, data: Bytes, name: string)
    ensures Lookup(Upsert(files, path, data), name) == if name == path then Some(data) else Lookup(files, name)
  {
    if |files| > 0 {
      if files[0].name == path {
        assert ([ChartFile(path, data)] + files[1..])[1..] == files[1..];
      } else {
        UpsertLookup(files[1..], path, data, name);
        assert ([files[0]] + Upsert(files[1..], path, data))[1..] == Upsert(files[1..], path, data);
      }
    }
  }

  /** Writing a path adds a file only when no file has that name, keeps
      every name in place, and changes no file but the first one named
      `path`. */
  lemma {:induction false} UpsertShape(files: seq<ChartFile>, path: string, data: Bytes)
    ensures var r := Upsert(files, path, data);
      Names(r) == Names(files) + {path}
      && |r| == |files| + (if path in Names(files) then 0 else 1)
      && (forall i :: 0 <= i < |files| ==> r[i].name == files[i].name)
      && (forall i :: 0 <= i < |files| && (files[i].name != path || !FirstNamed(files, i)) ==> r[i] == files[i])
  {
    var r := Upsert(files, path, data);
    if |files| == 0 {
      assert r == [ChartFile(path, data)];
      assert r[0] in r;
    } else {
      NamesCons(files);
      NamesCons(r);
      var tail := files[1..];
      if files[0].name == path {
        assert r[1..] == tail;
      } else {
        UpsertShape(tail, path, data);
        assert r[1..] == Upsert(tail, path, data);
        forall i | 1 <= i < |files| && (files[i].name != path || !FirstNamed(files, i))
          ensures r[i] == files[i]
        {
          assert r[i] == Upsert(tail, path, data)[i - 1] && files[i] == tail[i - 1];
          if files[i].name == path {
            var j :| 0 <= j < i && files[j].name == files[i].name;
            assert j > 0 && tail[j - 1] == files[j];
          }
        }
        forall i | 1 <= i < |files| ensures r[i].name == files[i].name {
          assert r[i] == Upsert(tail, path, data)[i - 1] && files[i] == tail[i - 1];
        }
      }
    }
  }

  /** Writing the overlay in any order: each written path reads back its
      contents, and every other path reads what it read before. */
  lemma {:induction false} UpsertAllLookup(files: seq<ChartFile>, overlay: map<string, Bytes>, paths: seq<string>, name: string)
    requires forall i :: 0 <= i < |paths| ==> paths[i] in overlay
    ensures Lookup(UpsertAll(files, overlay, paths), name) == if name in paths then Some(overlay[name]) else Lookup(files, name)
  {
    if |paths| > 0 {
      var init, last := paths[..|paths| - 1], paths[|paths| - 1];
      UpsertAllLookup(files, overlay, init, name);
      UpsertLookup(UpsertAll(files, overlay, init), last, overlay[last], name);
      assert name in paths <==> name == last || name in init by {
        assert paths == init + [last];
      }
    }
  }

  /** Writing paths adds their names to the chart's. */
  lemma {:induction false} UpsertAllNames(files: seq<ChartFile>, overlay: map<string, Bytes>, paths: seq<string>)
    requires forall i :: 0 <= i < |paths| ==> paths[i] in overlay
    ensures Names(UpsertAll(files, overlay, paths)) == Names(files) + PathSet(paths)
  {
    if |paths| == 0 {
      assert PathSet(paths) == {};
    } else {
      var init, last := paths[..|paths| - 1], paths[|paths| - 1];
      assert paths == init + [last];
      UpsertAllNames(files, overlay, init);
      var u := UpsertAll(files, overlay, init);
      UpsertShape(u, last, overlay[last]);
      assert PathSet(paths) == PathSet(init) + {last};
    }
  }

  /** Writing distinct paths adds one file per path no file had. */
  lemma {:induction false} UpsertAllSize(files: seq<ChartFile>, overlay: map<string, Bytes>, paths: seq<string>)
    requires forall i :: 0 <= i < |paths| ==> paths[i] in overlay
    requires forall i, j :: 0 <= i < j < |paths| ==> paths[i] != paths[j]
    ensures |UpsertAll(files, overlay, paths)| == |files| + |PathSet(paths) - Names(files)|
  {
    if |paths| == 0 {
      assert PathSet(paths) == {};
    } else {
      var init, last := paths[..|paths| - 1], paths[|paths| - 1];
      assert paths == init + [last];
      UpsertAllSize(files, overlay, init);
      UpsertAllNames(files, overlay, init);
      assert PathSet(paths) == PathSet(init) + {last};
      assert last !in PathSet(init) by {
        forall k | 0 <= k < |init| ensures init[k] != last {
          assert paths[k] == init[k];
        }
      }
      UpsertSizeStep(UpsertAll(files, overlay, init), |files|, Names(files), PathSet(init), last, overlay[last]);
    }
  }

  /** One more new path adds a file exactly when no file had its name. */
  lemma UpsertSizeStep(u: seq<ChartFile>, k: nat, own: set<string>, written: set<string>, last: string, data: Bytes)
    requires Names(u) == own + written && |u| == k + |written - own| && last !in written
    ensures |Upsert(u, last, data)| == k + |(written + {last}) - own|
  {
    UpsertShape(u, last, data);
    CardStep(written, own, last);
  }

  lemma CardStep(pi: set<string>, n: set<string>, last: string)
    requires last !in pi
    ensures |(pi + {last}) - n| == |pi - n| + (if last in n then 0 else 1)
  {
    if last in n {
      assert (pi + {last}) - n == pi - n;
    } else {
      assert (pi + {last}) - n == (pi - n) + {last};
    }
  }

  /** Writing paths keeps the names of the chart's own files and leaves
      unchanged each of them that is not the first file of a written path. */
  lemma {:induction false} UpsertAllKeeps(files: seq<ChartFile>, overlay: map<string, Bytes>, paths: seq<string>)
    requires forall i :: 0 <= i < |paths| ==> paths[i] in overlay
    ensures |files| <= |UpsertAll(files, overlay, paths)|
    ensures forall i :: 0 <= i < |files| ==> UpsertAll(files, overlay, paths)[i].name == files[i].name
    ensures forall i :: 0 <= i < |files| && (files[i].name !in paths || !FirstNamed(files, i)) ==>
      UpsertAll(files, overlay, paths)[i] == files[i]
  {
    if |paths| > 0 {
      var init, last := paths[..|paths| - 1], paths[|paths| - 1];
      assert paths == init + [last];
      UpsertAllKeeps(files, overlay, init);
      var u := UpsertAll(files, overlay, init);
      UpsertShape(u, last, overlay[last]);
      var r := UpsertAll(files, overlay, paths);
      assert r == Upsert(u, last, overlay[last]);
      forall i | 0 <= i < |files| && (files[i].name !in paths || !FirstNamed(files, i))
        ensures r[i] == files[i]
      {
        assert u[i] == files[i];
        if files[i].name == last {
          assert !FirstNamed(u, i) by {
            var j :| 0 <= j < i && files[j].name == files[i].name;
            assert u[j].name == files[j].name;
          }
        }
      }
    }
  }

  /** What `applyOverlayFiles` guarantees, whatever the map order: every
      overlay path reads back the overlay's contents and every other path
      what it read before; the file count grows by the number of overlay
      paths the chart lacked; and only the first file of an overlay path
      changes. */
  lemma UpsertedSpec(before: seq<ChartFile>, after: seq<ChartFile>, overlay: map<string, Bytes>)
    requires Upserted(before, after, overlay)
    ensures forall name :: Lookup(after, name) == if name in overlay then Some(overlay[name]) else Lookup(before, name)
    ensures |after| == |before| + |overlay.Keys - Names(before)|
    ensures forall i :: 0 <= i < |before| ==> after[i].name == before[i].name
    ensures forall i :: 0 <= i < |before| && (before[i].name !in overlay || !FirstNamed(before, i)) ==> after[i] == before[i]
  {
    var paths :| Strings.Enumerates(paths, overlay.Keys) && after == UpsertAll(before, overlay, paths);
    assert PathSet(paths) == overlay.Keys;
    forall name ensures Lookup(after, name) == if name in overlay then Some(overlay[name]) else Lookup(before, name) {
      UpsertAllLookup(before, overlay, paths, name);
    }
    UpsertAllSize(before, overlay, paths);
    UpsertAllKeeps(before, overlay, paths);
  }

  /** Writing a path whose first file is at `i` updates that file. */
  lemma {:induction false} UpsertAt(files: seq<ChartFile>, path: string, data: Bytes, i: int)
    requires 0 <= i < |files| && files[i].name == path
    requires forall j :: 0 <= j < i ==> files[j].name != path
    ensures Upsert(files, path, data) == files[i := ChartFile(path, data)]
  {
    if i > 0 {
      UpsertAt(files[1..], path, data, i - 1);
      assert files[1..][i - 1 := ChartFile(path, data)] == files[i := ChartFile(path, data)][1..];
    }
  }

  /** Writing a path no file has appends a file. */
  lemma {:induction false} UpsertAbsent(files: seq<ChartFile>, path: string, data: Bytes)
    requires forall j :: 0 <= j < |files| ==> files[j].name != path
    ensures Upsert(files, path, data) == files + [ChartFile(path, data)]
  {
    if |files| > 0 {
      UpsertAbsent(files[1..], path, data);
      assert files == [files[0]] + files[1..];
    }
  }

  /** `applyOverlayFiles`: each overlay path, in map order, overwrites the
      data of the first file with that name or is appended as a new file. */
  method ApplyOverlayFiles(overlay: map<string, Bytes>, c: Chart)
    modifies c
    ensures Upserted(old(c.files), c.files, overlay)
    ensures c.metadata == old(c.metadata)
  {
    ghost var before := c.files;
    ghost var visited: seq<string> := [];
    var todo := overlay.Keys;
    while todo != {}
      invariant todo <= overlay.Keys
      invariant forall i :: 0 <= i < |visited| ==> visited[i] in overlay.Keys - todo
      invariant forall k :: k in overlay.Keys - todo ==> k in visited
      invariant forall i, j :: 0 <= i < j < |visited| ==> visited[i] != visited[j]
      invariant c.files == UpsertAll(before, overlay, visited)
      invariant c.metadata == old(c.metadata)
      decreases |todo|
    {
      var relativePath :| relativePath in todo;
      WriteOverlayFile(c, relativePath, overlay[relativePath]);
      assert (visited + [relativePath])[..|visited|] == visited;
      visited := visited + [relativePath];
      todo := todo - {relativePath};
    }
    assert Strings.Enumerates(visited, overlay.Keys);
  }

  /** One overlay file: it overwrites the data of the first file named
      `path`, or is appended when there is none. */
  method WriteOverlayFile(c: Chart, path: string, contents: Bytes)
    modifies c
    ensures c.files == Upsert(old(c.files), path, contents)
    ensures c.metadata == old(c.metadata)
  {
    var i := 0;
    while i < |c.files| && c.files[i].name != path
      invariant 0 <= i <= |c.files|
      invariant forall j :: 0 <= j < i ==> c.files[j].name != path
    {
      i := i + 1;
    }
    if i < |c.files| {
      UpsertAt(c.files, path, contents, i);
      c.files := c.files[i := ChartFile(path, contents)];
    } else {
      UpsertAbsent(c.files, path, contents);
      c.files := c.files + [ChartFile(path, contents)];
    }
  }

  // ---- Annotations ----

  /** The annotations `addAnnotations` derives from the package and the
      chart's own KubeVersion, built in the source's order. */
  function DerivedAnnotations(p: Package, chartKubeVersion: string): map<string, string>
  {
    var y := p.upstreamYaml;
    var a: map<string, string> := map[];
    var a := if y.autoInstall != "" then a[AnnotationAutoInstall := y.autoInstall] else a;
    var a := if y.experimental then a[AnnotationExperimental := "true"] else a;
    var a := if y.hidden then a[AnnotationHidden := "true"] else a;
    var a := a[AnnotationCertified := "partner"];
    var a := a[AnnotationDisplayName := p.displayName];
    var a := a[AnnotationReleaseName := if y.releaseName != "" then y.releaseName else p.name];
    var a := if y.namespace != "" then a[AnnotationNamespace := y.namespace] else a;
    if y.chartYaml.kubeVersion != "" then a[AnnotationKubeVersion := y.chartYaml.kubeVersion]
    else if chartKubeVersion != "" then a[AnnotationKubeVersion := chartKubeVersion]
    else a
  }

  /** Certified, display name and release name (falling back to the package
      name) are always derived; auto-install, experimental, hidden and
      namespace only when configured; the kube version from upstream.yaml,
      else from the chart, else not at all; and never "featured". */
  lemma DerivedAnnotationsSpec(p: Package, chartKubeVersion: string)
    ensures var a := DerivedAnnotations(p, chartKubeVersion); var y := p.upstreamYaml;
      a.Keys <= {AnnotationAutoInstall, AnnotationExperimental, AnnotationHidden, AnnotationCertified,
                 AnnotationDisplayName, AnnotationReleaseName, AnnotationNamespace, AnnotationKubeVersion}
      && AnnotationFeatured !in a
      && AnnotationCertified in a && a[AnnotationCertified] == "partner"
      && AnnotationDisplayName in a && a[AnnotationDisplayName] == p.displayName
      && AnnotationReleaseName in a && a[AnnotationReleaseName] == (if y.releaseName != "" then y.releaseName else p.name)
      && (AnnotationAutoInstall in a <==> y.autoInstall != "")
      && (AnnotationAutoInstall in a ==> a[AnnotationAutoInstall] == y.autoInstall)
      && (AnnotationExperimental in a <==> y.experimental)
      && (AnnotationExperimental in a ==> a[AnnotationExperimental] == "true")
      && (AnnotationHidden in a <==> y.hidden)
      && (AnnotationHidden in a ==> a[AnnotationHidden] == "true")
      && (AnnotationNamespace in a <==> y.namespace != "")
      && (AnnotationNamespace in a ==> a[AnnotationNamespace] == y.namespace)
      && (AnnotationKubeVersion in a <==> y.chartYaml.kubeVersion != "" || chartKubeVersion != "")
      && (AnnotationKubeVersion in a ==>
            a[AnnotationKubeVersion] == if y.chartYaml.kubeVersion != "" then y.chartYaml.kubeVersion else chartKubeVersion)
  {
    AnnotationKeysDiffer();
  }

  /** The annotation keys share the "catalog.cattle.io/" prefix and differ
      in the character after it, so no two of them are equal. */
  lemma AnnotationKeysDiffer()
    ensures |AnnotationAutoInstall| > 18 && AnnotationAutoInstall[18] == 'a'
    ensures |AnnotationCertified| > 18 && AnnotationCertified[18] == 'c'
    ensures |AnnotationDisplayName| > 18 && AnnotationDisplayName[18] == 'd'
    ensures |AnnotationExperimental| > 18 && AnnotationExperimental[18] == 'e'
    ensures |AnnotationFeatured| > 18 && AnnotationFeatured[18] == 'f'
    ensures |AnnotationHidden| > 18 && AnnotationHidden[18] == 'h'
    ensures |AnnotationKubeVersion| > 18 && AnnotationKubeVersion[18] == 'k'
    ensures |AnnotationNamespace| > 18 && AnnotationNamespace[18] == 'n'
    ensures |AnnotationReleaseName| > 18 && AnnotationReleaseName[18] == 'r'
  {
  }

  /** Every dependency's repository pointed at the chart's bundled copy. */
  function LocalDependencies(deps: seq<Dependency>): (r: seq<Dependency>)
  {
    seq(|deps|, i requires 0 <= i < |deps| => deps[i].(repository := "file://./charts/" + deps[i].name))
  }

  /** The version `addAnnotations` leaves, and its error: a non-zero package
      version re-encodes the patch, and a failure leaves "". */
  function PackagedVersion(p: Package, version: string): Result<string>
  {
    if p.upstreamYaml.packageVersion == 0 then Ok(version)
    else Conform.GeneratePackageVersion(version, Some(p.upstreamYaml.packageVersion))
  }

  const GenerateFailed := "failed to generate version: "

  /** The dependency loop of `addAnnotations`: every dependency's
      repository becomes its bundled copy under charts/. */
  method LocalizeDependencies(c: Chart)
    modifies c
    ensures c.metadata == old(c.metadata).(dependencies := LocalDependencies(old(c.metadata.dependencies)))
    ensures c.files == old(c.files)
  {
    var deps := c.metadata.dependencies;
    var i := 0;
    while i < |deps|
      invariant 0 <= i <= |deps| && |deps| == |old(c.metadata.dependencies)|
      invariant forall j :: i <= j < |deps| ==> deps[j] == old(c.metadata.dependencies)[j]
      invariant forall j :: 0 <= j < i ==> deps[j] == LocalDependencies(old(c.metadata.dependencies))[j]
    {
      deps := deps[i := deps[i].(repository := "file://./charts/" + deps[i].name)];
      i := i + 1;
    }
    c.metadata := c.metadata.(dependencies := deps);
  }

  /** The metadata after the dependency rewrite of `addAnnotations`, which
      is skipped when the package keeps remote dependencies. */
  function Localized(p: Package, m: Metadata): Metadata
  {
    if p.upstreamYaml.remoteDependencies then m else m.(dependencies := LocalDependencies(m.dependencies))
  }

  /** The metadata `addAnnotations` leaves when the version can be
      generated: localized dependencies, the packaged version, and the
      derived annotations under the chart's own. */
  function WithAnnotations(p: Package, m: Metadata): Metadata
    requires PackagedVersion(p, m.version).Ok?
  {
    Localized(p, m).(version := PackagedVersion(p, m.version).value,
                     annotations := Some(DerivedAnnotations(p, m.kubeVersion) + Annotations(m)))
  }

  /** `addAnnotations`: rewrites the dependency repositories unless they are
      remote, re-encodes the version, and then applies the derived
      annotations without override. A version error returns before any
      annotation is applied, leaving the version "". */
  method AddAnnotations(p: Package, c: Chart) returns (err: Option<string>)
    modifies c
    ensures c.files == old(c.files)
    ensures PackagedVersion(p, old(c.metadata.version)).Err? ==>
      err == Some(GenerateFailed + PackagedVersion(p, old(c.metadata.version)).msg)
      && c.metadata == Localized(p, old(c.metadata)).(version := "")
    ensures PackagedVersion(p, old(c.metadata.version)).Ok? ==>
      err.None? && c.metadata == WithAnnotations(p, old(c.metadata))
  {
    ghost var m0 := c.metadata;
    var annotations := DerivedAnnotations(p, c.metadata.kubeVersion);
    if !p.upstreamYaml.remoteDependencies {
      LocalizeDependencies(c);
    }
    ghost var m1 := c.metadata;
    assert m1 == Localized(p, m0);
    err := SetPackagedVersion(p, c);
    if err.Some? {
      return;
    }
    ghost var m2 := c.metadata;
    assert m2 == m1.(version := PackagedVersion(p, m0.version).value);
    var _ := Conform.ApplyChartAnnotations(c, annotations, false);
    Conform.AppliedIsUnion(Annotations(m2), annotations);
    assert m2.annotations == m0.annotations;
    err := None;
  }

  /** The version step of `addAnnotations`: with a non-zero package
      version the chart's version is replaced by the generated one, which
      is "" on error. */
  method SetPackagedVersion(p: Package, c: Chart) returns (err: Option<string>)
    modifies c
    ensures c.files == old(c.files)
    ensures PackagedVersion(p, old(c.metadata.version)).Err? ==>
      err == Some(GenerateFailed + PackagedVersion(p, old(c.metadata.version)).msg)
      && c.metadata == old(c.metadata).(version := "")
    ensures PackagedVersion(p, old(c.metadata.version)).Ok? ==>
      err.None? && c.metadata == old(c.metadata).(version := PackagedVersion(p, old(c.metadata.version)).value)
  {
    err := None;
    if p.upstreamYaml.packageVersion != 0 {
      var generated := Conform.GeneratePackageVersion(c.metadata.version, Some(p.upstreamYaml.packageVersion));
      c.metadata := c.metadata.(version := if generated.Ok? then generated.value else "");
      if generated.Err? {
        err := Some(GenerateFailed + generated.msg);
      }
    }
  }

  /** What `addAnnotations` promises: annotations already on the chart win,
      every derived key is added, the version is the packaged one, each
      dependency keeps its name and points at its bundled copy unless
      dependencies are remote, and nothing else changes. */
  lemma WithAnnotationsSpec(p: Package, m: Metadata)
    requires PackagedVersion(p, m.version).Ok?
    ensures var r, d := WithAnnotations(p, m), DerivedAnnotations(p, m.kubeVersion);
      && (forall k :: k in Annotations(m) ==> k in Annotations(r) && Annotations(r)[k] == Annotations(m)[k])
      && (forall k :: k in d && k !in Annotations(m) ==> k in Annotations(r) && Annotations(r)[k] == d[k])
      && Annotations(r).Keys == Annotations(m).Keys + d.Keys
      && r.version == (if p.upstreamYaml.packageVersion == 0 then m.version
                       else Conform.GeneratePackageVersion(m.version, Some(p.upstreamYaml.packageVersion)).value)
      && |r.dependencies| == |m.dependencies|
      && (forall i :: 0 <= i < |m.dependencies| ==>
            r.dependencies[i].(repository := m.dependencies[i].repository) == m.dependencies[i]
            && r.dependencies[i].repository ==
                 if p.upstreamYaml.remoteDependencies then m.dependencies[i].repository
                 else "file://./charts/" + m.dependencies[i].name)
      && r.(dependencies := m.dependencies, version := m.version, annotations := m.annotations) == m
  {
    var r, d := WithAnnotations(p, m), DerivedAnnotations(p, m.kubeVersion);
    assert Annotations(r) == d + Annotations(m);
    LocalizedSpec(p, m);
  }

  /** The dependency rewrite changes only the repositories. */
  lemma LocalizedSpec(p: Package, m: Metadata)
    ensures var r := Localized(p, m);
      && |r.dependencies| == |m.dependencies|
      && (forall i :: 0 <= i < |m.dependencies| ==>
            r.dependencies[i].(repository := m.dependencies[i].repository) == m.dependencies[i]
            && r.dependencies[i].repository ==
                 if p.upstreamYaml.remoteDependencies then m.dependencies[i].repository
                 else "file://./charts/" + m.dependencies[i].name)
      && r.(dependencies := m.dependencies) == m
  {
  }

  // ---- Icon ----

  const DownloadFailed := "failed to download icon: "

  /** The icon `ensureIcon` gives the chart: the package's downloaded icon
      path if one exists, else the `file://` path of a fresh download of the
      chart's icon URL. `local` is what `icons.GetDownloadedIconPath` reports
      for the package and `download` stands for `icons.DownloadIcon`. */
  function EnsuredIcon(local: Result<string>, icon: string, download: string -> Result<string>): Result<string>
  {
    match local
    case Ok(path) => Ok(path)
    case Err(_) =>
      match download(icon)
      case Err(e) => Err(DownloadFailed + e)
      case Ok(path) => Ok("file://" + path)
  }

  /** `ensureIcon`: sets the chart's icon to the local one; on error the
      chart is left as it was. */
  method EnsureIcon(c: Chart, local: Result<string>, download: string -> Result<string>)
    returns (err: Option<string>)
    modifies c
    ensures c.files == old(c.files)
    ensures match EnsuredIcon(local, old(c.metadata.icon), download)
      case Ok(icon) => err.None? && c.metadata == old(c.metadata).(icon := icon)
      case Err(e) => err == Some(e) && c.metadata == old(c.metadata)
  {
    if local.Ok? {
      c.metadata := c.metadata.(icon := local.value);
      return None;
    }
    var localIconPath := download(c.metadata.icon);
    if localIconPath.Err? {
      return Some(DownloadFailed + localIconPath.msg);
    }
    c.metadata := c.metadata.(icon := "file://" + localIconPath.value);
    return None;
  }

  /** An icon already downloaded for the package is used without
      downloading, and a downloaded icon is referenced through a `file://`
      URL. With the package's icon files given by `present`, an icon found
      is `assets/icons/<name><ext>` for a probed extension. */
  lemma EnsuredIconSources(p: Package, icon: string, present: string -> bool, download: string -> Result<string>)
    ensures var local := Icons.GetDownloadedIconPath(present, p.name);
      && (local.Ok? ==>
            && EnsuredIcon(local, icon, download) == local
            && exists i :: 0 <= i < |Icons.ValidExtensions| && local.value == Icons.IconPath(p.name, Icons.ValidExtensions[i]))
      && (local.Err? ==> (EnsuredIcon(local, icon, download).Ok? <==> download(icon).Ok?))
      && (local.Err? && download(icon).Ok? ==> EnsuredIcon(local, icon, download).value == "file://" + download(icon).value)
  {
  }

  // ---- The featured annotation ----

  /** The featured value a chart carries, if any. */
  function FeaturedOf(m: Metadata): Option<string>
  {
    if AnnotationFeatured in Annotations(m) then Some(Annotations(m)[AnnotationFeatured]) else None
  }

  const TwoFeaturedValues := "found two different values for featured annotation "

  /** The scan of `ensureFeaturedAnnotation` over the existing charts, in
      order: the last value carried ("" when none is), or an error at the
      first carried value that differs from a non-empty earlier one. */
  function FeaturedValue(ms: seq<Metadata>): Result<string>
  {
    if |ms| == 0 then Ok("")
    else
      match FeaturedValue(ms[..|ms| - 1])
      case Err(e) => Err(e)
      case Ok(cur) =>
        var val := FeaturedOf(ms[|ms| - 1]);
        if val.None? then Ok(cur)
        else if cur != "" && cur != val.value then
          Err(TwoFeaturedValues + "\"" + cur + "\" and \"" + val.value + "\"")
        else Ok(val.value)
  }

  /** Whether chart `i` carries a non-empty featured value. */
  predicate Featured(ms: seq<Metadata>, i: int)
    requires 0 <= i < |ms|
  {
    FeaturedOf(ms[i]).Some? && FeaturedOf(ms[i]).value != ""
  }

  /** The carried values agree: every chart after one carrying a non-empty
      value carries the same value or none. */
  predicate Consistent(ms: seq<Metadata>)
  {
    forall i, j :: 0 <= i < j < |ms| && Featured(ms, i) && FeaturedOf(ms[j]).Some? ==>
      FeaturedOf(ms[j]).value == FeaturedOf(ms[i]).value
  }

  /** The value carried by the last chart carrying one, "" when none does. */
  function LastFeatured(ms: seq<Metadata>): string
  {
    if |ms| == 0 then ""
    else if FeaturedOf(ms[|ms| - 1]).Some? then FeaturedOf(ms[|ms| - 1]).value
    else LastFeatured(ms[..|ms| - 1])
  }

  /** Whether `ensureFeaturedAnnotation` hands a value over. */
  predicate HandsOver(ms: seq<Metadata>)
  {
    FeaturedValue(ms).Ok? && FeaturedValue(ms).value != ""
  }

  lemma ConsistentSnoc(ms: seq<Metadata>)
    requires |ms| > 0
    ensures var init, m := ms[..|ms| - 1], ms[|ms| - 1];
      Consistent(ms) <==>
        Consistent(init) &&
        (FeaturedOf(m).Some? ==> forall i :: 0 <= i < |init| && Featured(init, i) ==> FeaturedOf(init[i]).value == FeaturedOf(m).value)
  {
    var init, m := ms[..|ms| - 1], ms[|ms| - 1];
    assert forall i :: 0 <= i < |init| ==> init[i] == ms[i];
    if Consistent(ms) {
      forall i, j | 0 <= i < j < |init| && Featured(init, i) && FeaturedOf(init[j]).Some?
        ensures FeaturedOf(init[j]).value == FeaturedOf(init[i]).value
      {
        assert Featured(ms, i);
      }
      if FeaturedOf(m).Some? {
        forall i | 0 <= i < |init| && Featured(init, i)
          ensures FeaturedOf(init[i]).value == FeaturedOf(m).value
        {
          assert Featured(ms, i);
        }
      }
    }
  }

  lemma {:induction false} LastFeaturedAgrees(ms: seq<Metadata>, i: int)
    requires Consistent(ms)
    requires 0 <= i < |ms| && Featured(ms, i)
    ensures LastFeatured(ms) == FeaturedOf(ms[i]).value
  {
    var init := ms[..|ms| - 1];
    if i < |ms| - 1 && FeaturedOf(ms[|ms| - 1]).None? {
      ConsistentSnoc(ms);
      assert init[i] == ms[i];
      LastFeaturedAgrees(init, i);
    }
  }

  lemma {:induction false} LastFeaturedWitness(ms: seq<Metadata>)
    ensures LastFeatured(ms) != "" ==> exists i :: 0 <= i < |ms| && Featured(ms, i) && FeaturedOf(ms[i]).value == LastFeatured(ms)
  {
    if |ms| > 0 && FeaturedOf(ms[|ms| - 1]).None? {
      var init := ms[..|ms| - 1];
      LastFeaturedWitness(init);
      if LastFeatured(init) != "" {
        var i :| 0 <= i < |init| && Featured(init, i) && FeaturedOf(init[i]).value == LastFeatured(init);
        assert init[i] == ms[i];
      }
    }
  }

  /** The scan fails exactly when the carried values disagree, and then
      with the scan's message; otherwise it yields the last value carried. */
  lemma {:induction false} FeaturedValueSpec(ms: seq<Metadata>)
    ensures FeaturedValue(ms).Ok? <==> Consistent(ms)
    ensures FeaturedValue(ms).Ok? ==> FeaturedValue(ms).value == LastFeatured(ms)
  {
    if |ms| > 0 {
      var init, m := ms[..|ms| - 1], ms[|ms| - 1];
      FeaturedValueSpec(init);
      ConsistentSnoc(ms);
      if Consistent(init) {
        forall i | 0 <= i < |init| && Featured(init, i)
          ensures LastFeatured(init) == FeaturedOf(init[i]).value
        {
          LastFeaturedAgrees(init, i);
        }
      }
      LastFeaturedWitness(init);
    }
  }

  /** What the scan means: when it succeeds every chart carrying a
      non-empty value carries the result, a non-empty result is carried by
      some chart, and with no chart carrying the annotation it is "". */
  lemma FeaturedValueMeaning(ms: seq<Metadata>)
    ensures FeaturedValue(ms).Ok? ==>
      forall i :: 0 <= i < |ms| && Featured(ms, i) ==> FeaturedOf(ms[i]).value == FeaturedValue(ms).value
    ensures HandsOver(ms) ==>
      exists i :: 0 <= i < |ms| && Featured(ms, i) && FeaturedOf(ms[i]).value == FeaturedValue(ms).value
    ensures (forall i :: 0 <= i < |ms| ==> FeaturedOf(ms[i]).None?) ==> FeaturedValue(ms) == Ok("")
  {
    FeaturedValueSpec(ms);
    if FeaturedValue(ms).Ok? {
      forall i | 0 <= i < |ms| && Featured(ms, i)
        ensures FeaturedOf(ms[i]).value == FeaturedValue(ms).value
      {
        LastFeaturedAgrees(ms, i);
      }
    }
    LastFeaturedWitness(ms);
    NoneCarried(ms);
  }

  lemma {:induction false} NoneCarried(ms: seq<Metadata>)
    ensures (forall i :: 0 <= i < |ms| ==> FeaturedOf(ms[i]).None?) ==> FeaturedValue(ms) == Ok("")
  {
    if |ms| > 0 {
      var init := ms[..|ms| - 1];
      assert forall i :: 0 <= i < |init| ==> init[i] == ms[i];
      NoneCarried(init);
    }
  }

  /** An error in a prefix of the scan is the scan's error. */
  lemma {:induction false} FeaturedErrorPersists(ms: seq<Metadata>, k: nat)
    requires k <= |ms| && FeaturedValue(ms[..k]).Err?
    ensures FeaturedValue(ms) == FeaturedValue(ms[..k])
    decreases |ms| - k
  {
    if k < |ms| {
      assert ms[..k + 1][..k] == ms[..k];
      FeaturedErrorPersists(ms, k + 1);
    } else {
      assert ms[..k] == ms;
    }
  }

  /** The metadata of each wrapped chart. */
  function Metas(ws: seq<ChartWrapper>): (r: seq<Metadata>)
    reads Charts(ws)
    ensures |r| == |ws| && forall i :: 0 <= i < |ws| ==> r[i] == ws[i].chart.metadata
  {
    seq(|ws|, i requires 0 <= i < |ws| reads Charts(ws) => ws[i].chart.metadata)
  }

  /** The files of each wrapped chart. */
  function Files(ws: seq<ChartWrapper>): (r: seq<seq<ChartFile>>)
    reads Charts(ws)
    ensures |r| == |ws| && forall i :: 0 <= i < |ws| ==> r[i] == ws[i].chart.files
  {
    seq(|ws|, i requires 0 <= i < |ws| reads Charts(ws) => ws[i].chart.files)
  }

  /** The modified flag of each wrapper. */
  function Flags(ws: seq<ChartWrapper>): (r: seq<bool>)
    reads ws
    ensures |r| == |ws| && forall i :: 0 <= i < |ws| ==> r[i] == ws[i].modified
  {
    seq(|ws|, i requires 0 <= i < |ws| reads ws => ws[i].modified)
  }

  /** The charts of the wrappers. */
  function Charts(ws: seq<ChartWrapper>): set<Chart>
  {
    set w | w in ws :: w.chart
  }

  /** No wrapper and no chart occurs twice. */
  predicate Separate(ws: seq<ChartWrapper>)
  {
    forall i, j :: 0 <= i < j < |ws| ==> ws[i] != ws[j] && ws[i].chart != ws[j].chart
  }

  /** No wrapper and no chart is shared between the two lists. */
  predicate Disjoint(ws: seq<ChartWrapper>, vs: seq<ChartWrapper>)
  {
    forall i, j :: 0 <= i < |ws| && 0 <= j < |vs| ==> ws[i] != vs[j] && ws[i].chart != vs[j].chart
  }

  /** A chart's metadata with the featured annotation removed. */
  function Unfeatured(m: Metadata): Metadata
  {
    m.(annotations := Conform.Deannotated(m.annotations, AnnotationFeatured, ""))
  }

  /** A chart's metadata carrying featured value `v`. */
  function Featuring(m: Metadata, v: string): Metadata
  {
    m.(annotations := Some(Conform.Annotated(Annotations(m), AnnotationFeatured, v, true)))
  }

  /** The existing charts after the hand-over. */
  function AllUnfeatured(ms: seq<Metadata>): (r: seq<Metadata>)
    ensures |r| == |ms| && forall i :: 0 <= i < |ms| ==> r[i] == Unfeatured(ms[i])
  {
    seq(|ms|, i requires 0 <= i < |ms| => Unfeatured(ms[i]))
  }

  /** The existing charts' flags after the hand-over: set where the
      annotation was removed. */
  function UnfeaturedFlags(flags: seq<bool>, ms: seq<Metadata>): (r: seq<bool>)
    requires |flags| == |ms|
    ensures |r| == |ms| && forall i :: 0 <= i < |ms| ==> (r[i] <==> flags[i] || FeaturedOf(ms[i]).Some?)
  {
    seq(|ms|, i requires 0 <= i < |ms| => UnfeaturedFlag(flags[i], ms[i]))
  }

  /** After a hand-over of `v` no existing chart carries the featured
      annotation and the chart that received it carries `v`, so a later scan
      of the existing charts followed by that chart finds `v`; nothing but
      the featured annotation differs. */
  lemma HandOverOutcome(ms: seq<Metadata>, m: Metadata, v: string)
    ensures forall i :: 0 <= i < |ms| ==> FeaturedOf(AllUnfeatured(ms)[i]).None?
    ensures FeaturedValue(AllUnfeatured(ms)) == Ok("")
    ensures FeaturedOf(Featuring(m, v)) == Some(v)
    ensures FeaturedValue(AllUnfeatured(ms) + [Featuring(m, v)]) == Ok(v)
    ensures Annotations(Featuring(m, v)) - {AnnotationFeatured} == Annotations(m) - {AnnotationFeatured}
    ensures Featuring(m, v).(annotations := m.annotations) == m
    ensures forall i :: 0 <= i < |ms| ==>
      Annotations(AllUnfeatured(ms)[i]) - {AnnotationFeatured} == Annotations(ms[i]) - {AnnotationFeatured}
      && AllUnfeatured(ms)[i].(annotations := ms[i].annotations) == ms[i]
  {
    var u := AllUnfeatured(ms);
    forall i | 0 <= i < |ms|
      ensures FeaturedOf(u[i]).None?
      ensures Annotations(u[i]) - {AnnotationFeatured} == Annotations(ms[i]) - {AnnotationFeatured}
    {
      var d := Conform.Deannotated(ms[i].annotations, AnnotationFeatured, "");
      assert u[i].annotations == d;
    }
    NoneCarried(u);
    assert (u + [Featuring(m, v)])[..|u|] == u;
  }

  /** `ensureFeaturedAnnotation`. With no featured value among the existing
      charts nothing changes; otherwise the last new chart gets it (with
      override) and every existing chart loses it, and a wrapper becomes
      modified exactly when its annotations changed. Only the annotations
      and the flags change. The source indexes the last new chart
      unguarded, so a hand-over needs a new chart. */
  method EnsureFeaturedAnnotation(existing: seq<ChartWrapper>, newCharts: seq<ChartWrapper>) returns (err: Option<string>)
    requires Separate(existing) && Separate(newCharts) && Disjoint(existing, newCharts)
    requires HandsOver(Metas(existing)) ==> |newCharts| > 0
    modifies existing, newCharts, Charts(existing), Charts(newCharts)
    ensures FeaturedValue(old(Metas(existing))).Err? <==> err.Some?
    ensures err.Some? ==> err.value == FeaturedValue(old(Metas(existing))).msg
    ensures Files(existing) == old(Files(existing)) && Files(newCharts) == old(Files(newCharts))
    ensures !HandsOver(old(Metas(existing))) ==>
      Metas(existing) == old(Metas(existing)) && Flags(existing) == old(Flags(existing))
      && Metas(newCharts) == old(Metas(newCharts)) && Flags(newCharts) == old(Flags(newCharts))
    ensures HandsOver(old(Metas(existing))) ==>
      var v, n := FeaturedValue(old(Metas(existing))).value, |newCharts| - 1;
      && Metas(existing) == AllUnfeatured(old(Metas(existing)))
      && Flags(existing) == UnfeaturedFlags(old(Flags(existing)), old(Metas(existing)))
      && Metas(newCharts) == old(Metas(newCharts))[n := Featuring(old(Metas(newCharts))[n], v)]
      && Flags(newCharts) == old(Flags(newCharts))[n := old(Flags(newCharts))[n] || FeaturedOf(old(Metas(newCharts))[n]) != Some(v)]
  {
    var featured := ScanFeatured(existing);
    if featured.Err? {
      return Some(featured.msg);
    }
    if featured.value == "" {
      return None;
    }
    AnnotateLast(existing, newCharts, featured.value);
    DeannotateAll(existing, newCharts);
    err := None;
  }

  /** The hand-over's first step: the last new chart gets the featured
      value, with override, and is flagged if that changed it. */
  method AnnotateLast(existing: seq<ChartWrapper>, newCharts: seq<ChartWrapper>, v: string)
    requires |newCharts| > 0 && Separate(newCharts) && Disjoint(existing, newCharts)
    modifies newCharts[|newCharts| - 1], newCharts[|newCharts| - 1].chart
    ensures Metas(existing) == old(Metas(existing)) && Flags(existing) == old(Flags(existing))
    ensures Files(existing) == old(Files(existing)) && Files(newCharts) == old(Files(newCharts))
    ensures var n := |newCharts| - 1;
      && Metas(newCharts) == old(Metas(newCharts))[n := Featuring(old(Metas(newCharts))[n], v)]
      && Flags(newCharts) == old(Flags(newCharts))[n := old(Flags(newCharts))[n] || FeaturedOf(old(Metas(newCharts))[n]) != Some(v)]
  {
    var n := |newCharts| - 1;
    ghost var em, ef, eflags := Metas(existing), Files(existing), Flags(existing);
    assert forall i :: 0 <= i < |existing| ==> existing[i] != newCharts[n] && existing[i].chart != newCharts[n].chart;
    AnnotateLastNew(newCharts, v);
    assert Metas(existing) == em && Files(existing) == ef && Flags(existing) == eflags;
  }

  /** That step as seen from the new charts alone. */
  method AnnotateLastNew(newCharts: seq<ChartWrapper>, v: string)
    requires |newCharts| > 0 && Separate(newCharts)
    modifies newCharts[|newCharts| - 1], newCharts[|newCharts| - 1].chart
    ensures Files(newCharts) == old(Files(newCharts))
    ensures var n := |newCharts| - 1;
      && Metas(newCharts) == old(Metas(newCharts))[n := Featuring(old(Metas(newCharts))[n], v)]
      && Flags(newCharts) == old(Flags(newCharts))[n := old(Flags(newCharts))[n] || FeaturedOf(old(Metas(newCharts))[n]) != Some(v)]
  {
    var n := |newCharts| - 1;
    ghost var ms, flags, files := Metas(newCharts), Flags(newCharts), Files(newCharts);
    assert forall i :: 0 <= i < n ==> newCharts[i] != newCharts[n] && newCharts[i].chart != newCharts[n].chart;
    AnnotateOne(newCharts[n], v);
    assert Metas(newCharts) == ms[n := newCharts[n].chart.metadata];
    assert Flags(newCharts) == flags[n := newCharts[n].modified];
    assert newCharts[n].chart.metadata == Featuring(ms[n], v);
    assert newCharts[n].modified == (flags[n] || FeaturedOf(ms[n]) != Some(v));
    assert Files(newCharts) == files;
  }

  /** The chart of `w` gets featured value `v`, and `w` is flagged if that
      changed it. */
  method AnnotateOne(w: ChartWrapper, v: string)
    modifies w, w.chart
    ensures w.chart.metadata == Featuring(old(w.chart.metadata), v) && w.chart.files == old(w.chart.files)
    ensures w.modified == (old(w.modified) || FeaturedOf(old(w.chart.metadata)) != Some(v))
  {
    var wrote := Conform.AnnotateChart(w.chart, AnnotationFeatured, v, true);
    if wrote {
      w.modified := true;
    }
  }

  /** The first loop of `ensureFeaturedAnnotation`: the featured value of
      the existing charts, or the error for two different ones. */
  method ScanFeatured(existing: seq<ChartWrapper>) returns (r: Result<string>)
    ensures r == FeaturedValue(Metas(existing))
  {
    ghost var ms := Metas(existing);
    var featuredAnnotationValue := "";
    var i := 0;
    while i < |existing|
      invariant 0 <= i <= |existing|
      invariant FeaturedValue(ms[..i]) == Ok(featuredAnnotationValue)
    {
      assert ms[..i + 1][..i] == ms[..i];
      var annotations := Annotations(existing[i].chart.metadata);
      if AnnotationFeatured !in annotations {
        i := i + 1;
        continue;
      }
      var val := annotations[AnnotationFeatured];
      if featuredAnnotationValue != "" && featuredAnnotationValue != val {
        FeaturedErrorPersists(ms, i + 1);
        return Err(TwoFeaturedValues + "\"" + featuredAnnotationValue + "\" and \"" + val + "\"");
      }
      featuredAnnotationValue := val;
      i := i + 1;
    }
    assert ms[..|existing|] == ms;
    return Ok(featuredAnnotationValue);
  }

  /** The second loop of `ensureFeaturedAnnotation`: every existing chart
      loses the featured annotation and is flagged if it had one; the new
      charts are not touched. */
  method DeannotateAll(existing: seq<ChartWrapper>, newCharts: seq<ChartWrapper>)
    requires Separate(existing) && Disjoint(existing, newCharts)
    modifies existing, Charts(existing)
    ensures Metas(newCharts) == old(Metas(newCharts)) && Flags(newCharts) == old(Flags(newCharts))
    ensures Files(existing) == old(Files(existing)) && Files(newCharts) == old(Files(newCharts))
    ensures Metas(existing) == AllUnfeatured(old(Metas(existing)))
    ensures Flags(existing) == UnfeaturedFlags(old(Flags(existing)), old(Metas(existing)))
  {
    ghost var ms, flags := Metas(existing), Flags(existing);
    DeannotateEach(existing);
    assert Metas(existing) == AllUnfeatured(ms);
    assert Flags(existing) == UnfeaturedFlags(flags, ms);
  }

  /** The loop itself, chart by chart. */
  method DeannotateEach(existing: seq<ChartWrapper>)
    requires Separate(existing)
    modifies existing, Charts(existing)
    ensures forall i :: 0 <= i < |existing| ==> existing[i].chart.files == old(existing[i].chart.files)
    ensures forall i :: 0 <= i < |existing| ==> existing[i].chart.metadata == Unfeatured(old(existing[i].chart.metadata))
    ensures forall i :: 0 <= i < |existing| ==>
      existing[i].modified == UnfeaturedFlag(old(existing[i].modified), old(existing[i].chart.metadata))
  {
    var j := 0;
    while j < |existing|
      invariant 0 <= j <= |existing|
      invariant forall i :: 0 <= i < |existing| ==> existing[i].chart.files == old(existing[i].chart.files)
      invariant forall i :: 0 <= i < |existing| ==>
        existing[i].chart.metadata == if i < j then Unfeatured(old(existing[i].chart.metadata)) else old(existing[i].chart.metadata)
      invariant forall i :: 0 <= i < |existing| ==>
        existing[i].modified == if i < j then UnfeaturedFlag(old(existing[i].modified), old(existing[i].chart.metadata)) else old(existing[i].modified)
    {
      assert forall i :: 0 <= i < |existing| && i != j ==> existing[i] != existing[j] && existing[i].chart != existing[j].chart;
      DeannotateOne(existing[j]);
      j := j + 1;
    }
  }

  /** The flag of an existing chart after the hand-over. */
  function UnfeaturedFlag(flag: bool, m: Metadata): bool
  {
    flag || Conform.Removes(Annotations(m), AnnotationFeatured, "")
  }

  /** One step of the second loop: the chart of `w` loses the featured
      annotation and `w` is flagged if it had one. */
  method DeannotateOne(w: ChartWrapper)
    modifies w, w.chart
    ensures w.chart.metadata == Unfeatured(old(w.chart.metadata)) && w.chart.files == old(w.chart.files)
    ensures w.modified == UnfeaturedFlag(old(w.modified), old(w.chart.metadata))
  {
    var removed := Conform.DeannotateChart(w.chart, AnnotationFeatured, "");
    if removed {
      w.modified := true;
    }
  }

  // ---- integrateCharts ----

  const OverlayFilesFailed := "failed to get overlay files: "
  const AddAnnotationsFailed := "failed to add annotations to chart "
  const EnsureIconFailed := "failed to ensure icon for chart "
  const FeaturedFailed := "failed to ensure featured annotation: "

  /** The message of a step that failed on a chart with metadata `m`: its
      name and version in double quotes, then the step's error. */
  function ChartFailed(prefix: string, m: Metadata, e: string): string
  {
    prefix + "\"" + m.name + "\" version \"" + m.version + "\": " + e
  }

  /** What integration makes of a new chart with metadata `m`, or the message
      it stops with: the upstream.yaml metadata overlay, then
      `addAnnotations`, then `ensureIcon`. */
  function Prepared(p: Package, m: Metadata, local: Result<string>, download: string -> Result<string>): Result<Metadata>
  {
    var o := Conform.Overlaid(m, p.upstreamYaml.chartYaml);
    if PackagedVersion(p, o.version).Err? then
      Err(ChartFailed(AddAnnotationsFailed, Localized(p, o).(version := ""), GenerateFailed + PackagedVersion(p, o.version).msg))
    else
      var a := WithAnnotations(p, o);
      match EnsuredIcon(local, a.icon, download)
      case Err(e) => Err(ChartFailed(EnsureIconFailed, a, e))
      case Ok(icon) => Ok(a.(icon := icon))
  }

  /** A new chart is prepared exactly when its packaged version can be
      generated and its icon ensured. It then carries the overlaid name, the
      packaged version, the local icon and the certified annotation, and it
      carries the featured annotation exactly when the chart or the
      upstream.yaml metadata did, since none of the derived annotations is
      "featured". */
  lemma PreparedSpec(p: Package, m: Metadata, local: Result<string>, download: string -> Result<string>)
    ensures var y, r := p.upstreamYaml.chartYaml, Prepared(p, m, local, download);
      var version := Conform.OverlayString(m.version, y.version);
      && (r.Ok? <==> PackagedVersion(p, version).Ok?
                     && EnsuredIcon(local, Conform.OverlayString(m.icon, y.icon), download).Ok?)
      && (r.Ok? ==>
            && r.value.name == Conform.OverlayString(m.name, y.name)
            && r.value.version == PackagedVersion(p, version).value
            && r.value.icon == EnsuredIcon(local, Conform.OverlayString(m.icon, y.icon), download).value
            && AnnotationCertified in Annotations(r.value)
            && FeaturedOf(r.value) == FeaturedOf(Conform.Overlaid(m, y)))
      && (r.Err? && PackagedVersion(p, version).Err? ==>
            r.msg == ChartFailed(AddAnnotationsFailed, Localized(p, Conform.Overlaid(m, y)).(version := ""),
                                 GenerateFailed + PackagedVersion(p, version).msg))
  {
    var o := Conform.Overlaid(m, p.upstreamYaml.chartYaml);
    DerivedAnnotationsSpec(p, o.kubeVersion);
    if PackagedVersion(p, o.version).Ok? {
      WithAnnotationsSpec(p, o);
    }
  }

  /** `Prepared` for one package, icon set and downloader. */
  function PrepareWith(p: Package, local: Result<string>, download: string -> Result<string>): Metadata -> Result<Metadata>
  {
    m => Prepared(p, m, local, download)
  }

  /** The new charts' metadata after preparation by `prep`, in order, or
      the message of the first chart that fails. */
  function PreparedAll(prep: Metadata -> Result<Metadata>, ms: seq<Metadata>): (r: Result<seq<Metadata>>)
    ensures r.Ok? ==> |r.value| == |ms|
  {
    if |ms| == 0 then Ok([])
    else
      match PreparedAll(prep, ms[..|ms| - 1])
      case Err(e) => Err(e)
      case Ok(prefix) =>
        match prep(ms[|ms| - 1])
        case Err(e) => Err(e)
        case Ok(m) => Ok(prefix + [m])
  }

  /** All charts are prepared, one by one, exactly when none fails; the
      error is that of the first failing chart. */
  lemma {:induction false} PreparedAllSpec(prep: Metadata -> Result<Metadata>, ms: seq<Metadata>)
    ensures PreparedAll(prep, ms).Ok? <==> forall i :: 0 <= i < |ms| ==> prep(ms[i]).Ok?
    ensures PreparedAll(prep, ms).Ok? ==>
      |PreparedAll(prep, ms).value| == |ms|
      && forall i :: 0 <= i < |ms| ==> PreparedAll(prep, ms).value[i] == prep(ms[i]).value
    ensures PreparedAll(prep, ms).Err? ==>
      exists i :: 0 <= i < |ms| && prep(ms[i]).Err? && PreparedAll(prep, ms).msg == prep(ms[i]).msg
        && forall j :: 0 <= j < i ==> prep(ms[j]).Ok?
  {
    if |ms| > 0 {
      var init := ms[..|ms| - 1];
      PreparedAllSpec(prep, init);
      assert forall i :: 0 <= i < |init| ==> init[i] == ms[i];
      if PreparedAll(prep, init).Err? {
        var i :| 0 <= i < |init| && prep(init[i]).Err? && PreparedAll(prep, init).msg == prep(init[i]).msg
          && forall j :: 0 <= j < i ==> prep(init[j]).Ok?;
        assert init[i] == ms[i];
      }
    }
  }

  /** The prefix of the new charts prepared so far grows by one. */
  lemma PreparedAllSnoc(prep: Metadata -> Result<Metadata>, ms: seq<Metadata>, i: int)
    requires 0 <= i < |ms|
    ensures PreparedAll(prep, ms[..i + 1]) ==
      match PreparedAll(prep, ms[..i])
      case Err(e) => Err(e)
      case Ok(prefix) =>
        match prep(ms[i])
        case Err(e) => Err(e)
        case Ok(m) => Ok(prefix + [m])
  {
    assert ms[..i + 1][..i] == ms[..i];
  }

  /** Once a prefix fails, every longer one fails with the same message. */
  lemma {:induction false} PreparedAllErrorPersists(prep: Metadata -> Result<Metadata>, ms: seq<Metadata>, k: nat)
    requires k <= |ms| && PreparedAll(prep, ms[..k]).Err?
    ensures PreparedAll(prep, ms) == PreparedAll(prep, ms[..k])
    decreases |ms| - k
  {
    if k < |ms| {
      PreparedAllSnoc(prep, ms, k);
      PreparedAllErrorPersists(prep, ms, k + 1);
    } else {
      assert ms[..k] == ms;
    }
  }

  /** The loop body of `integrateCharts` for one new chart: the overlay
      files, the upstream.yaml metadata, the annotations and the icon; a
      chart that gets through all of them is marked modified. The overlay
      files are applied whatever happens next. */
  method PrepareChart(p: Package, w: ChartWrapper, overlay: map<string, Bytes>,
                      local: Result<string>, download: string -> Result<string>) returns (err: Option<string>)
    modifies w, w.chart
    ensures Upserted(old(w.chart.files), w.chart.files, overlay)
    ensures match Prepared(p, old(w.chart.metadata), local, download)
      case Ok(m) => err.None? && w.chart.metadata == m && w.modified
      case Err(e) => err == Some(e) && w.modified == old(w.modified)
  {
    ApplyOverlayFiles(overlay, w.chart);
    Conform.OverlayChartMetadata(w.chart, p.upstreamYaml.chartYaml);
    err := AddAnnotations(p, w.chart);
    if err.Some? {
      return Some(ChartFailed(AddAnnotationsFailed, w.chart.metadata, err.value));
    }
    err := EnsureIcon(w.chart, local, download);
    if err.Some? {
      return Some(ChartFailed(EnsureIconFailed, w.chart.metadata, err.value));
    }
    w.modified := true;
  }

  /** The loop of `integrateCharts` over the new charts: each is prepared in
      turn, and the first failure ends the loop. Existing charts are not
      touched. */
  method PrepareNewCharts(p: Package, existing: seq<ChartWrapper>, newCharts: seq<ChartWrapper>, overlay: map<string, Bytes>,
                          local: Result<string>, download: string -> Result<string>) returns (err: Option<string>)
    requires Separate(newCharts) && Disjoint(existing, newCharts)
    modifies newCharts, Charts(newCharts)
    ensures Metas(existing) == old(Metas(existing)) && Flags(existing) == old(Flags(existing))
    ensures Files(existing) == old(Files(existing))
    ensures var prepared := PreparedAll(PrepareWith(p, local, download), old(Metas(newCharts)));
      && (prepared.Err? ==> err == Some(prepared.msg))
      && (prepared.Ok? ==>
            err.None? && Metas(newCharts) == prepared.value
            && forall i :: 0 <= i < |newCharts| ==>
                 Flags(newCharts)[i] && Upserted(old(Files(newCharts))[i], Files(newCharts)[i], overlay))
  {
    ghost var em, ef, eflags := Metas(existing), Files(existing), Flags(existing);
    assert forall j :: 0 <= j < |existing| ==> existing[j] !in newCharts && existing[j].chart !in Charts(newCharts);
    err := PrepareNew(p, newCharts, overlay, local, download);
    assert forall j :: 0 <= j < |existing| ==>
      existing[j].chart.metadata == em[j] && existing[j].chart.files == ef[j] && existing[j].modified == eflags[j];
    assert Metas(existing) == em && Files(existing) == ef && Flags(existing) == eflags;
  }

  /** That loop as seen from the new charts alone. */
  method PrepareNew(p: Package, newCharts: seq<ChartWrapper>, overlay: map<string, Bytes>,
                    local: Result<string>, download: string -> Result<string>) returns (err: Option<string>)
    requires Separate(newCharts)
    modifies newCharts, Charts(newCharts)
    ensures var prepared := PreparedAll(PrepareWith(p, local, download), old(Metas(newCharts)));
      && (prepared.Err? ==> err == Some(prepared.msg))
      && (prepared.Ok? ==>
            err.None? && Metas(newCharts) == prepared.value
            && forall i :: 0 <= i < |newCharts| ==>
                 Flags(newCharts)[i] && Upserted(old(Files(newCharts))[i], Files(newCharts)[i], overlay))
  {
    ghost var ms := Metas(newCharts);
    ghost var prep := PrepareWith(p, local, download);
    ghost var want := seq(|ms|, j requires 0 <= j < |ms| => Prepared(p, ms[j], local, download));
    err := PrepareEach(p, newCharts, overlay, local, download, ms, Files(newCharts), want);
    OutcomesOfPrepareWith(p, ms, local, download, want);
    PreparedAllOfOutcomes(prep, ms, want, err);
    if err.None? {
      assert Metas(newCharts) == PreparedAll(prep, ms).value;
    }
  }

  /** The outcomes `want` are those of `PrepareWith`, chart by chart. */
  lemma OutcomesOfPrepareWith(p: Package, ms: seq<Metadata>, local: Result<string>, download: string -> Result<string>,
                              want: seq<Result<Metadata>>)
    requires want == seq(|ms|, j requires 0 <= j < |ms| => Prepared(p, ms[j], local, download))
    ensures forall j :: 0 <= j < |ms| ==> PrepareWith(p, local, download)(ms[j]) == want[j]
  {
  }

  /** What the loop's outcome says about `PreparedAll`: no error means every
      chart prepared, with the outcomes `want`; an error after only
      successes is the whole preparation's error. */
  lemma PreparedAllOfOutcomes(prep: Metadata -> Result<Metadata>, ms: seq<Metadata>, want: seq<Result<Metadata>>, err: Option<string>)
    requires |want| == |ms| && forall j :: 0 <= j < |ms| ==> prep(ms[j]) == want[j]
    requires err.None? ==> forall j :: 0 <= j < |want| ==> want[j].Ok?
    requires err.Some? ==> exists i :: 0 <= i < |want| && want[i] == Err(err.value) && forall j :: 0 <= j < i ==> want[j].Ok?
    ensures var prepared := PreparedAll(prep, ms);
      && (prepared.Err? ==> err == Some(prepared.msg))
      && (prepared.Ok? ==> err.None? && |prepared.value| == |ms| && forall j :: 0 <= j < |ms| ==> prepared.value[j] == want[j].value)
  {
    if err.Some? {
      var i :| 0 <= i < |want| && want[i] == Err(err.value) && forall j :: 0 <= j < i ==> want[j].Ok?;
      PreparedAllFirstError(prep, ms, i);
    } else {
      PreparedAllSpec(prep, ms);
    }
  }

  /** The loop itself, chart by chart, against the outcomes `want` of the
      charts' metadata `ms`: on success every chart holds its prepared
      metadata, is flagged and carries the overlay files; on a failure the
      message is that of the first chart that fails. */
  method PrepareEach(p: Package, newCharts: seq<ChartWrapper>, overlay: map<string, Bytes>,
                     local: Result<string>, download: string -> Result<string>,
                     ghost ms: seq<Metadata>, ghost fs: seq<seq<ChartFile>>, ghost want: seq<Result<Metadata>>)
    returns (err: Option<string>)
    requires Separate(newCharts) && |ms| == |fs| == |want| == |newCharts|
    requires forall j :: 0 <= j < |newCharts| ==> newCharts[j].chart.metadata == ms[j] && newCharts[j].chart.files == fs[j]
    requires forall j {:trigger Prepared(p, ms[j], local, download)} :: 0 <= j < |ms| ==> want[j] == Prepared(p, ms[j], local, download)
    modifies newCharts, Charts(newCharts)
    ensures err.None? ==> forall j :: 0 <= j < |newCharts| ==>
      want[j].Ok? && newCharts[j].chart.metadata == want[j].value
    ensures err.None? ==> forall j :: 0 <= j < |newCharts| ==>
      newCharts[j].modified && Upserted(fs[j], newCharts[j].chart.files, overlay)
    ensures err.Some? ==> exists i :: 0 <= i < |want| && want[i] == Err(err.value) && forall j :: 0 <= j < i ==> want[j].Ok?
  {
    err := None;
    var i := 0;
    while i < |newCharts|
      invariant 0 <= i <= |newCharts|
      invariant forall j :: 0 <= j < i ==> want[j].Ok?
      invariant forall j :: 0 <= j < |newCharts| ==>
        newCharts[j].chart.metadata == if j < i then want[j].value else ms[j]
      invariant forall j :: 0 <= j < |newCharts| ==>
        if j < i then newCharts[j].modified && Upserted(fs[j], newCharts[j].chart.files, overlay)
        else newCharts[j].chart.files == fs[j]
      invariant err.None?
    {
      assert forall j :: 0 <= j < |newCharts| && j != i ==> newCharts[j] != newCharts[i] && newCharts[j].chart != newCharts[i].chart;
      err := PrepareOne(p, newCharts[i], overlay, local, download, ms, want, i);
      if err.Some? {
        return;
      }
      i := i + 1;
    }
  }

  /** `PrepareChart` on the chart with metadata `ms[i]`, against its
      expected outcome `want[i]`. */
  method PrepareOne(p: Package, w: ChartWrapper, overlay: map<string, Bytes>,
                    local: Result<string>, download: string -> Result<string>,
                    ghost ms: seq<Metadata>, ghost want: seq<Result<Metadata>>, ghost i: nat)
    returns (err: Option<string>)
    requires i < |ms| == |want| && w.chart.metadata == ms[i]
    requires forall j {:trigger Prepared(p, ms[j], local, download)} :: 0 <= j < |ms| ==> want[j] == Prepared(p, ms[j], local, download)
    modifies w, w.chart
    ensures Upserted(old(w.chart.files), w.chart.files, overlay)
    ensures want[i].Ok? ==> err.None? && w.chart.metadata == want[i].value && w.modified
    ensures want[i].Err? ==> err == Some(want[i].msg)
  {
    err := PrepareChart(p, w, overlay, local, download);
  }

  /** When every chart before `i` prepares and chart `i` fails, the whole
      preparation fails with chart `i`'s message. */
  lemma PreparedAllFirstError(prep: Metadata -> Result<Metadata>, ms: seq<Metadata>, i: int)
    requires 0 <= i < |ms| && prep(ms[i]).Err?
    requires forall j :: 0 <= j < i ==> prep(ms[j]).Ok?
    ensures PreparedAll(prep, ms) == Err(prep(ms[i]).msg)
  {
    PreparedAllSpec(prep, ms[..i]);
    PreparedAllSnoc(prep, ms, i);
    PreparedAllErrorPersists(prep, ms, i + 1);
  }

  /** `integrateCharts`: the overlay files are read (`overlayFiles` is that
      outcome), every new chart is prepared, and the featured annotation is
      handed over. Existing charts change only through the hand-over, and
      on success every new chart is marked modified. */
  method IntegrateCharts(p: Package, existing: seq<ChartWrapper>, newCharts: seq<ChartWrapper>,
                         overlayFiles: Result<map<string, Bytes>>, local: Result<string>, download: string -> Result<string>)
    returns (err: Option<string>)
    requires Separate(existing) && Separate(newCharts) && Disjoint(existing, newCharts)
    requires HandsOver(Metas(existing)) ==> |newCharts| > 0
    modifies existing, newCharts, Charts(existing), Charts(newCharts)
    ensures Files(existing) == old(Files(existing))
    ensures overlayFiles.Err? ==>
      err == Some(OverlayFilesFailed + overlayFiles.msg)
      && Metas(newCharts) == old(Metas(newCharts)) && Flags(newCharts) == old(Flags(newCharts))
      && Files(newCharts) == old(Files(newCharts))
    ensures var prepared := PreparedAll(PrepareWith(p, local, download), old(Metas(newCharts)));
      overlayFiles.Ok? && prepared.Err? ==> err == Some(prepared.msg)
    ensures var prepared := PreparedAll(PrepareWith(p, local, download), old(Metas(newCharts)));
      var featured := FeaturedValue(old(Metas(existing)));
      overlayFiles.Ok? && prepared.Ok? ==>
        && (forall i :: 0 <= i < |newCharts| ==>
              Flags(newCharts)[i] && Upserted(old(Files(newCharts))[i], Files(newCharts)[i], overlayFiles.value))
        && (featured.Err? <==> err.Some?)
        && (featured.Err? ==> err == Some(FeaturedFailed + featured.msg))
        && (!HandsOver(old(Metas(existing))) ==> Metas(newCharts) == prepared.value)
        && (HandsOver(old(Metas(existing))) ==>
              var n := |newCharts| - 1;
              && Metas(existing) == AllUnfeatured(old(Metas(existing)))
              && Flags(existing) == UnfeaturedFlags(old(Flags(existing)), old(Metas(existing)))
              && Metas(newCharts) == prepared.value[n := Featuring(prepared.value[n], featured.value)])
    ensures !(overlayFiles.Ok? && PreparedAll(PrepareWith(p, local, download), old(Metas(newCharts))).Ok?
              && HandsOver(old(Metas(existing)))) ==>
      Metas(existing) == old(Metas(existing)) && Flags(existing) == old(Flags(existing))
  {
    if overlayFiles.Err? {
      return Some(OverlayFilesFailed + overlayFiles.msg);
    }
    err := PrepareNewCharts(p, existing, newCharts, overlayFiles.value, local, download);
    if err.Some? {
      return;
    }
    ghost var prepared := Metas(newCharts);
    err := EnsureFeaturedAnnotation(existing, newCharts);
    if err.Some? {
      err := Some(FeaturedFailed + err.value);
    }
  }
}
