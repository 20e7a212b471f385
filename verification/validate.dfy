/** The repository validators of pkg/validate: duplicate package names,
    index names against package names, icon references, and the layout of
    the packages directory. Loading index.yaml, listing packages, reading
    directories and globbing are outcomes or functions passed in; where the
    source loops over a Go map, the visiting order is a parameter that
    enumerates the map's keys. */
module Validate {
  import opened Wrappers
  import opened Strings
  import opened Helm
  import opened Wrapper
  import opened IndexRemoval

  // ---- duplicatenames.go ----

  function DuplicateNames(first: string, second: string): string
  {
    "duplicate package names " + first + " and " + second
  }

  /** Each package name among `ws` mapped to the full name of the first
      package that has it. */
  function FirstHolders(ws: seq<PackageWrapper>): map<string, string>
    reads set w | w in ws
  {
    if |ws| == 0 then map[]
    else
      var m := FirstHolders(ws[..|ws| - 1]);
      var w := ws[|ws| - 1];
      if w.name in m then m else m[w.name := w.FullName()]
  }

  /** The errors of `findDuplicateNames`: one per package whose name an
      earlier package has, pairing the first holder with it. */
  function DuplicateErrors(ws: seq<PackageWrapper>): seq<string>
    reads set w | w in ws
  {
    if |ws| == 0 then []
    else
      var m := FirstHolders(ws[..|ws| - 1]);
      var w := ws[|ws| - 1];
      DuplicateErrors(ws[..|ws| - 1]) + (if w.name in m then [DuplicateNames(m[w.name], w.FullName())] else [])
  }

  /** `findDuplicateNames`. */
  method FindDuplicateNames(packageWrappers: seq<PackageWrapper>) returns (errors: seq<string>)
    ensures errors == DuplicateErrors(packageWrappers)
  {
    errors := [];
    var packageNames: map<string, string> := map[];
    var i := 0;
    while i < |packageWrappers|
      invariant 0 <= i <= |packageWrappers|
      invariant packageNames == FirstHolders(packageWrappers[..i])
      invariant errors == DuplicateErrors(packageWrappers[..i])
    {
      var packageWrapper := packageWrappers[i];
      assert packageWrappers[..i + 1][..i] == packageWrappers[..i];
      if packageWrapper.name !in packageNames {
        packageNames := packageNames[packageWrapper.name := packageWrapper.FullName()];
      } else {
        errors := errors + [DuplicateNames(packageNames[packageWrapper.name], packageWrapper.FullName())];
      }
      i := i + 1;
    }
    assert packageWrappers[..i] == packageWrappers;
  }

  /** The set of package names. */
  function PackageNames(ws: seq<PackageWrapper>): set<string>
    reads set w | w in ws
  {
    set j | 0 <= j < |ws| :: ws[j].name
  }

  lemma PackageNamesSnoc(ws: seq<PackageWrapper>)
    requires |ws| > 0
    ensures PackageNames(ws) == PackageNames(ws[..|ws| - 1]) + {ws[|ws| - 1].name}
  {
    var init := ws[..|ws| - 1];
    assert forall j :: 0 <= j < |init| ==> init[j] == ws[j];
  }

  /** The first holders are keyed by exactly the distinct names. */
  lemma {:induction false} FirstHoldersKeys(ws: seq<PackageWrapper>)
    ensures FirstHolders(ws).Keys == PackageNames(ws)
  {
    if |ws| > 0 {
      FirstHoldersKeys(ws[..|ws| - 1]);
      PackageNamesSnoc(ws);
    }
  }

  /** A name is held by the first package carrying it: a later package
      with the same name never replaces it. */
  lemma {:induction false} FirstHolderIsFirst(ws: seq<PackageWrapper>, j: int)
    requires 0 <= j < |ws| && forall k :: 0 <= k < j ==> ws[k].name != ws[j].name
    ensures ws[j].name in FirstHolders(ws) && FirstHolders(ws)[ws[j].name] == ws[j].FullName()
  {
    var init := ws[..|ws| - 1];
    FirstHoldersKeys(init);
    if j == |ws| - 1 {
      assert forall k :: 0 <= k < |init| ==> init[k] == ws[k];
      assert ws[j].name !in PackageNames(init);
    } else {
      assert forall k :: 0 <= k <= j ==> init[k] == ws[k];
      FirstHolderIsFirst(init, j);
    }
  }

  /** One error per package beyond the first of each name: the count is
      the number of packages less the number of distinct names. */
  lemma {:induction false} DuplicateErrorsCount(ws: seq<PackageWrapper>)
    ensures |DuplicateErrors(ws)| + |PackageNames(ws)| == |ws|
  {
    FirstHoldersKeys(ws);
    if |ws| > 0 {
      DuplicateErrorsCount(ws[..|ws| - 1]);
      FirstHoldersKeys(ws[..|ws| - 1]);
    }
  }

  /** There is no error exactly when no two packages share a name. */
  lemma DuplicateErrorsNone(ws: seq<PackageWrapper>)
    ensures DuplicateErrors(ws) == [] <==> forall i, j :: 0 <= i < j < |ws| ==> ws[i].name != ws[j].name
  {
    DuplicateErrorsCount(ws);
    if forall i, j :: 0 <= i < j < |ws| ==> ws[i].name != ws[j].name {
      DistinctNamesCount(ws);
    } else {
      var i, j :| 0 <= i < j < |ws| && ws[i].name == ws[j].name;
      FewerNames(ws, i, j);
    }
  }

  lemma {:induction false} DistinctNamesCount(ws: seq<PackageWrapper>)
    requires forall i, j :: 0 <= i < j < |ws| ==> ws[i].name != ws[j].name
    ensures |PackageNames(ws)| == |ws|
  {
    if |ws| > 0 {
      var init := ws[..|ws| - 1];
      assert forall k :: 0 <= k < |init| ==> init[k] == ws[k];
      DistinctNamesCount(init);
      PackageNamesSnoc(ws);
      assert ws[|ws| - 1].name !in PackageNames(init);
    }
  }

  lemma {:induction false} FewerNames(ws: seq<PackageWrapper>, i: int, j: int)
    requires 0 <= i < j < |ws| && ws[i].name == ws[j].name
    ensures |PackageNames(ws)| < |ws|
  {
    var init := ws[..|ws| - 1];
    assert forall k :: 0 <= k < |init| ==> init[k] == ws[k];
    NamesAtMost(init);
    PackageNamesSnoc(ws);
    if j == |ws| - 1 {
      assert ws[j].name in PackageNames(init);
    } else {
      FewerNames(init, i, j);
    }
  }

  lemma {:induction false} NamesAtMost(ws: seq<PackageWrapper>)
    ensures |PackageNames(ws)| <= |ws|
  {
    if |ws| > 0 {
      NamesAtMost(ws[..|ws| - 1]);
      PackageNamesSnoc(ws);
    }
  }

  // ---- the second loop of matchnames.go and icons.go ----

  /** A loop over a map's keys in visiting order `order`, with one error
      `message(k)` for each key that was not marked. */
  function Unmarked(order: seq<string>, marked: set<string>, message: string -> string): seq<string>
  {
    if |order| == 0 then []
    else
      var k := order[|order| - 1];
      Unmarked(order[..|order| - 1], marked, message) + (if k in marked then [] else [message(k)])
  }

  /** Dropping the last key visited leaves an enumeration of the others. */
  lemma EnumeratesInit(order: seq<string>, keys: set<string>)
    requires Enumerates(order, keys) && |order| > 0
    ensures Enumerates(order[..|order| - 1], keys - {order[|order| - 1]})
  {
    var init := order[..|order| - 1];
    forall k | k in keys - {order[|order| - 1]} ensures k in init {
      var i :| 0 <= i < |order| && order[i] == k;
      assert init[i] == k;
    }
  }

  /** Whatever the visiting order, there is one error per key not
      marked. */
  lemma {:induction false} UnmarkedCount(order: seq<string>, keys: set<string>, marked: set<string>, message: string -> string)
    requires Enumerates(order, keys)
    ensures |Unmarked(order, marked, message)| == |keys - marked|
    decreases |order|
  {
    if |order| > 0 {
      var last := order[|order| - 1];
      EnumeratesInit(order, keys);
      UnmarkedCount(order[..|order| - 1], keys - {last}, marked, message);
      if last in marked {
        assert keys - marked == (keys - {last}) - marked;
      } else {
        assert keys - marked == ((keys - {last}) - marked) + {last};
      }
    } else {
      assert keys == {};
    }
  }

  /** Every key not marked is reported. */
  lemma {:induction false} UnmarkedReports(order: seq<string>, marked: set<string>, message: string -> string, k: string)
    requires k in order && k !in marked
    ensures message(k) in Unmarked(order, marked, message)
    decreases |order|
  {
    if order[|order| - 1] != k {
      var i :| 0 <= i < |order| && order[i] == k;
      assert order[..|order| - 1][i] == k;
      UnmarkedReports(order[..|order| - 1], marked, message, k);
    }
  }

  /** Every error reports a visited key that was not marked. */
  lemma {:induction false} UnmarkedOnly(order: seq<string>, marked: set<string>, message: string -> string, e: string)
    requires e in Unmarked(order, marked, message)
    ensures exists k :: k in order && k !in marked && e == message(k)
    decreases |order|
  {
    var init, last := order[..|order| - 1], order[|order| - 1];
    if e in Unmarked(init, marked, message) {
      UnmarkedOnly(init, marked, message, e);
      var k :| k in init && k !in marked && e == message(k);
      var i :| 0 <= i < |init| && init[i] == k;
      assert order[i] == k;
    } else {
      assert last in order;
    }
  }

  /** Only the marks on visited keys matter. */
  lemma {:induction false} UnmarkedWithin(order: seq<string>, keys: set<string>, marked: set<string>, message: string -> string)
    requires forall i :: 0 <= i < |order| ==> order[i] in keys
    ensures Unmarked(order, marked * keys, message) == Unmarked(order, marked, message)
  {
    if |order| > 0 {
      UnmarkedWithin(order[..|order| - 1], keys, marked, message);
    }
  }

  /** `m` has the keys `keys` and marks exactly those in `marked`. */
  predicate Marks(m: map<string, bool>, keys: set<string>, marked: set<string>)
  {
    m.Keys == keys && forall k :: k in m ==> (m[k] <==> k in marked)
  }

  /** Marking a key of the map adds it to the marked set; a name that is
      not a key changes nothing. */
  lemma MarkStep(m: map<string, bool>, keys: set<string>, marked: set<string>, k: string)
    requires Marks(m, keys, marked)
    ensures k in m ==> Marks(m[k := true], keys, marked + {k})
    ensures k !in m ==> Marks(m, keys, marked + (if k in keys then {k} else {}))
  {
  }

  /** The first loop of both validators: a map with every key unmarked. */
  method Unmarks(keys: seq<string>) returns (m: map<string, bool>)
    ensures Marks(m, set k | k in keys, {})
  {
    m := map[];
    for i := 0 to |keys|
      invariant Marks(m, set k | k in keys[..i], {})
    {
      assert keys[..i + 1] == keys[..i] + [keys[i]];
      m := m[keys[i] := false];
    }
    assert keys[..|keys|] == keys;
  }

  /** The last loop of both validators: in `order`, an error for each key
      the map leaves unmarked. */
  method ReportUnmarked(order: seq<string>, m: map<string, bool>, ghost marked: set<string>, message: string -> string)
    returns (errors: seq<string>)
    requires forall k :: k in order ==> k in m
    requires Marks(m, m.Keys, marked)
    ensures errors == Unmarked(order, marked, message)
  {
    errors := [];
    for i := 0 to |order|
      invariant errors == Unmarked(order[..i], marked, message)
    {
      assert order[..i + 1][..i] == order[..i];
      var present := m[order[i]];
      if !present {
        errors := errors + [message(order[i])];
      }
    }
    assert order[..|order|] == order;
  }

  // ---- matchnames.go ----

  function NotInIndex(name: string): string
  {
    "chart name \"" + name + "\" is present in packages/ but not in index.yaml"
  }

  function NotInPackages(name: string): string
  {
    "chart name \"" + name + "\" is present in index.yaml but not in packages/"
  }

  /** The errors of the loop over the packages: one for each package whose
      name is not a chart of the index, in package order. */
  function UnindexedErrors(charts: set<string>, ws: seq<PackageWrapper>): seq<string>
    reads set w | w in ws
  {
    if |ws| == 0 then []
    else
      var w := ws[|ws| - 1];
      UnindexedErrors(charts, ws[..|ws| - 1]) + (if w.name in charts then [] else [NotInIndex(w.name)])
  }

  lemma PackageNamesStep(ws: seq<PackageWrapper>, i: int, keys: set<string>)
    requires 0 <= i < |ws|
    ensures ws[..i + 1][..i] == ws[..i]
    ensures PackageNames(ws[..i + 1]) * keys == PackageNames(ws[..i]) * keys + (if ws[i].name in keys then {ws[i].name} else {})
  {
    assert ws[..i + 1][..i] == ws[..i];
    PackageNamesSnoc(ws[..i + 1]);
  }

  /** The loop over the packages: it marks the index names that are
      package names and reports the package names that are not. */
  method MarkPackages(indexYamlNames: map<string, bool>, packageWrappers: seq<PackageWrapper>)
    returns (marked: map<string, bool>, errors: seq<string>)
    requires Marks(indexYamlNames, indexYamlNames.Keys, {})
    ensures Marks(marked, indexYamlNames.Keys, PackageNames(packageWrappers) * indexYamlNames.Keys)
    ensures errors == UnindexedErrors(indexYamlNames.Keys, packageWrappers)
  {
    marked, errors := indexYamlNames, [];
    ghost var keys := indexYamlNames.Keys;
    assert PackageNames(packageWrappers[..0]) == {};
    for i := 0 to |packageWrappers|
      invariant Marks(marked, keys, PackageNames(packageWrappers[..i]) * keys)
      invariant errors == UnindexedErrors(keys, packageWrappers[..i])
    {
      var packageWrapper := packageWrappers[i];
      PackageNamesStep(packageWrappers, i, keys);
      MarkStep(marked, keys, PackageNames(packageWrappers[..i]) * keys, packageWrapper.name);
      if packageWrapper.name in marked {
        marked := marked[packageWrapper.name := true];
      } else {
        errors := errors + [NotInIndex(packageWrapper.name)];
      }
    }
    assert packageWrappers[..|packageWrappers|] == packageWrappers;
  }

  /** `matchPackageNames`: `index` is index.yaml's chart entries and
      `indexOrder` the order in which the loops over them visit its keys. */
  method MatchPackageNames(index: Entries, indexOrder: seq<string>, packageWrappers: seq<PackageWrapper>)
    returns (errors: seq<string>)
    requires Enumerates(indexOrder, index.Keys)
    ensures errors == UnindexedErrors(index.Keys, packageWrappers) + Unmarked(indexOrder, PackageNames(packageWrappers), NotInPackages)
  {
    var indexYamlNames := Unmarks(indexOrder);
    assert indexYamlNames.Keys == index.Keys;
    var marked, unindexed := MarkPackages(indexYamlNames, packageWrappers);
    var unpackaged := ReportUnmarked(indexOrder, marked, PackageNames(packageWrappers) * index.Keys, NotInPackages);
    UnmarkedWithin(indexOrder, index.Keys, PackageNames(packageWrappers), NotInPackages);
    errors := unindexed + unpackaged;
  }

  /** One error per package whose name is not in the index, duplicates
      included. */
  lemma {:induction false} UnindexedErrorsSpec(charts: set<string>, ws: seq<PackageWrapper>)
    ensures UnindexedErrors(charts, ws) == [] <==> PackageNames(ws) <= charts
    ensures forall i :: 0 <= i < |ws| && ws[i].name !in charts ==> NotInIndex(ws[i].name) in UnindexedErrors(charts, ws)
    ensures |UnindexedErrors(charts, ws)| <= |ws|
  {
    if |ws| > 0 {
      var init := ws[..|ws| - 1];
      UnindexedErrorsSpec(charts, init);
      assert forall i :: 0 <= i < |init| ==> init[i] == ws[i];
      assert PackageNames(ws) == PackageNames(init) + {ws[|ws| - 1].name};
    }
  }

  /** There is no error exactly when the package names and the index's
      chart names are the same set, and the count is the number of
      unmatched packages plus the number of unmatched charts. */
  lemma MatchPackageNamesSpec(index: Entries, indexOrder: seq<string>, ws: seq<PackageWrapper>)
    requires Enumerates(indexOrder, index.Keys)
    ensures var errors := UnindexedErrors(index.Keys, ws) + Unmarked(indexOrder, PackageNames(ws), NotInPackages);
      && (errors == [] <==> PackageNames(ws) == index.Keys)
      && |errors| == |UnindexedErrors(index.Keys, ws)| + |index.Keys - PackageNames(ws)|
  {
    UnindexedErrorsSpec(index.Keys, ws);
    UnmarkedCount(indexOrder, index.Keys, PackageNames(ws), NotInPackages);
    if Unmarked(indexOrder, PackageNames(ws), NotInPackages) == [] {
      assert index.Keys - PackageNames(ws) == {};
    }
  }

  // ---- icons.go ----

  /** The icon file a chart version refers to: its icon with one leading
      "file://" removed. */
  function IconFileOf(v: ChartVersion): string
  {
    TrimPrefix(v.icon, "file://")
  }

  function IconMissing(filePath: string, v: ChartVersion): string
  {
    "icon file " + filePath + " for " + v.name + " version " + v.version + " does not exist"
  }

  function IconUnreferenced(filePath: string): string
  {
    "icon file " + filePath + " is not referenced in index.yaml"
  }

  /** The chart versions of the index, chart by chart in visiting order
      `chartOrder`. */
  function AllVersions(index: Entries, chartOrder: seq<string>): seq<ChartVersion>
    requires forall i :: 0 <= i < |chartOrder| ==> chartOrder[i] in index
  {
    if |chartOrder| == 0 then []
    else AllVersions(index, chartOrder[..|chartOrder| - 1]) + index[chartOrder[|chartOrder| - 1]]
  }

  /** The errors of the loop over the versions: one for each version whose
      icon file is not among `files`, in visiting order. */
  function MissingIcons(vs: seq<ChartVersion>, files: set<string>): seq<string>
  {
    if |vs| == 0 then []
    else
      var v := vs[|vs| - 1];
      MissingIcons(vs[..|vs| - 1], files) + (if IconFileOf(v) in files then [] else [IconMissing(IconFileOf(v), v)])
  }

  /** The icon files some version refers to. */
  function Referenced(vs: seq<ChartVersion>, files: set<string>): set<string>
  {
    set v | v in vs && IconFileOf(v) in files :: IconFileOf(v)
  }

  lemma ReferencedSnoc(vs: seq<ChartVersion>, v: ChartVersion, files: set<string>)
    ensures Referenced(vs + [v], files) == Referenced(vs, files) + (if IconFileOf(v) in files then {IconFileOf(v)} else {})
  {
  }

  /** The loop over one chart's versions: it reports the versions whose
      icon file is missing and marks the icon files referred to. */
  method VisitVersions(iconMap: map<string, bool>, errors: seq<string>, chartVersions: seq<ChartVersion>,
                       ghost done: seq<ChartVersion>, ghost files: set<string>)
    returns (iconMap': map<string, bool>, errors': seq<string>)
    requires Marks(iconMap, files, Referenced(done, files))
    requires errors == MissingIcons(done, files)
    ensures Marks(iconMap', files, Referenced(done + chartVersions, files))
    ensures errors' == MissingIcons(done + chartVersions, files)
  {
    iconMap', errors' := iconMap, errors;
    assert done + chartVersions[..0] == done;
    for j := 0 to |chartVersions|
      invariant Marks(iconMap', files, Referenced(done + chartVersions[..j], files))
      invariant errors' == MissingIcons(done + chartVersions[..j], files)
    {
      var chartVersion := chartVersions[j];
      assert done + chartVersions[..j + 1] == (done + chartVersions[..j]) + [chartVersion];
      ReferencedSnoc(done + chartVersions[..j], chartVersion, files);
      MarkStep(iconMap', files, Referenced(done + chartVersions[..j], files), IconFileOf(chartVersion));
      var filePath := TrimPrefix(chartVersion.icon, "file://");
      if filePath !in iconMap' {
        errors' := errors' + [IconMissing(filePath, chartVersion)];
      } else {
        iconMap' := iconMap'[filePath := true];
      }
    }
    assert chartVersions[..|chartVersions|] == chartVersions;
  }

  /** `validateLoadedIcons`: `chartOrder` is the order in which the loop
      visits the index's charts and `iconOrder` the order in which the loop
      over the icon map visits the icon files (listed twice, a file has one
      key). */
  method ValidateLoadedIcons(index: Entries, chartOrder: seq<string>, iconFiles: seq<string>, iconOrder: seq<string>)
    returns (errors: seq<string>)
    requires Enumerates(chartOrder, index.Keys)
    requires Enumerates(iconOrder, set f | f in iconFiles)
    ensures var vs, files := AllVersions(index, chartOrder), set f | f in iconFiles;
      errors == MissingIcons(vs, files) + Unmarked(iconOrder, Referenced(vs, files), IconUnreferenced)
  {
    ghost var files := set f | f in iconFiles;
    var iconMap := Unmarks(iconFiles);
    errors := [];
    assert Referenced([], files) == {};
    for c := 0 to |chartOrder|
      invariant Marks(iconMap, files, Referenced(AllVersions(index, chartOrder[..c]), files))
      invariant errors == MissingIcons(AllVersions(index, chartOrder[..c]), files)
    {
      assert chartOrder[..c + 1][..c] == chartOrder[..c];
      iconMap, errors := VisitVersions(iconMap, errors, index[chartOrder[c]], AllVersions(index, chartOrder[..c]), files);
    }
    assert chartOrder[..|chartOrder|] == chartOrder;
    ghost var vs := AllVersions(index, chartOrder);
    var unreferenced := ReportUnmarked(iconOrder, iconMap, Referenced(vs, files), IconUnreferenced);
    errors := errors + unreferenced;
  }

  /** One error per version whose icon file is missing, and none
      otherwise. */
  lemma {:induction false} MissingIconsSpec(vs: seq<ChartVersion>, files: set<string>)
    ensures MissingIcons(vs, files) == [] <==> forall v :: v in vs ==> IconFileOf(v) in files
    ensures forall v :: v in vs && IconFileOf(v) !in files ==> IconMissing(IconFileOf(v), v) in MissingIcons(vs, files)
    ensures |MissingIcons(vs, files)| <= |vs|
  {
    if |vs| > 0 {
      var init := vs[..|vs| - 1];
      MissingIconsSpec(init, files);
      assert vs == init + [vs[|vs| - 1]];
    }
  }

  /** There is no error exactly when every version's icon file exists and
      every icon file is referred to; the count is the number of versions
      with a missing icon plus the number of distinct unreferenced files. */
  lemma ValidateLoadedIconsSpec(index: Entries, chartOrder: seq<string>, iconFiles: seq<string>, iconOrder: seq<string>)
    requires Enumerates(chartOrder, index.Keys)
    requires Enumerates(iconOrder, set f | f in iconFiles)
    ensures var vs, files := AllVersions(index, chartOrder), set f | f in iconFiles;
      var errors := MissingIcons(vs, files) + Unmarked(iconOrder, Referenced(vs, files), IconUnreferenced);
      && (errors == [] <==>
            (forall v :: v in vs ==> IconFileOf(v) in files) && (forall f :: f in files ==> exists v :: v in vs && IconFileOf(v) == f))
      && |errors| == |MissingIcons(vs, files)| + |files - Referenced(vs, files)|
  {
    var vs, files := AllVersions(index, chartOrder), set f | f in iconFiles;
    MissingIconsSpec(vs, files);
    UnmarkedCount(iconOrder, files, Referenced(vs, files), IconUnreferenced);
    if Unmarked(iconOrder, Referenced(vs, files), IconUnreferenced) == [] {
      assert files - Referenced(vs, files) == {};
      forall f | f in files ensures exists v :: v in vs && IconFileOf(v) == f {
        assert f in Referenced(vs, files);
      }
    }
    if forall f :: f in files ==> exists v :: v in vs && IconFileOf(v) == f {
      assert files - Referenced(vs, files) == {};
    }
  }

  // ---- packages.go ----

  /** A glob match: the directory it was found in, its base name, and what
      `os.Stat` says of it (whether it is a directory, or the error). */
  datatype Entry = Entry(dir: string, base: string, info: Result<bool>)

  function PathOf(e: Entry): string
  {
    e.dir + "/" + e.base
  }

  function GlobFailed(pattern: string, e: string): string
  {
    "failed to run glob pattern \"" + pattern + "\": " + e
  }

  function StatFailed(path: string, e: string): string
  {
    "failed to stat " + path + ": " + e
  }

  const UpstreamYaml := "upstream.yaml"
  const Overlay := "overlay"

  /** The check on the vendor and package levels: only directories. */
  function ContainerError(e: Entry): Option<string>
  {
    match e.info
    case Err(m) => Some(StatFailed(PathOf(e), m))
    case Ok(isDir) =>
      if !isDir then Some(e.dir + " may contain only directories, but " + PathOf(e) + " is not a directory") else None
  }

  /** The check on the level inside a package: an upstream.yaml file or an overlay
      directory. */
  function PackageEntryError(e: Entry): Option<string>
  {
    match e.info
    case Err(m) => Some(StatFailed(PathOf(e), m))
    case Ok(isDir) =>
      if e.base == UpstreamYaml then (if isDir then Some(PathOf(e) + " must be a file") else None)
      else if e.base == Overlay then (if !isDir then Some(PathOf(e) + " must be a directory") else None)
      else Some("only upstream.yaml and overlay directory may exist in package directories but found " + PathOf(e))
  }

  /** The errors `check` finds in the matches, in order. */
  function Gather(es: seq<Entry>, check: Entry -> Option<string>): seq<string>
  {
    if |es| == 0 then []
    else
      var c := check(es[|es| - 1]);
      Gather(es[..|es| - 1], check) + (if c.Some? then [c.value] else [])
  }

  /** The errors of one glob pattern: the glob's error, or those of its
      matches. */
  function LevelErrors(pattern: string, matches: Result<seq<Entry>>, check: Entry -> Option<string>): seq<string>
  {
    match matches
    case Err(e) => [GlobFailed(pattern, e)]
    case Ok(es) => Gather(es, check)
  }

  /** All errors of `validatePackagesDirectory`: the two container levels,
      then the package level. */
  function PackagesDirectoryErrors(packages: string, glob: string -> Result<seq<Entry>>): seq<string>
  {
    LevelErrors(packages + "/*", glob(packages + "/*"), ContainerError)
    + LevelErrors(packages + "/*/*", glob(packages + "/*/*"), ContainerError)
    + LevelErrors(packages + "/*/*/*", glob(packages + "/*/*/*"), PackageEntryError)
  }

  /** The loop over one glob's matches. */
  method CheckMatches(matches: seq<Entry>, check: Entry -> Option<string>) returns (errors: seq<string>)
    ensures errors == Gather(matches, check)
  {
    errors := [];
    for i := 0 to |matches|
      invariant errors == Gather(matches[..i], check)
    {
      assert matches[..i + 1][..i] == matches[..i];
      var c := check(matches[i]);
      if c.Some? {
        errors := errors + [c.value];
      }
    }
    assert matches[..|matches|] == matches;
  }

  /** `validatePackagesDirectory`, with `glob` standing for
      `filepath.Glob` and the stat of each match. */
  method ValidatePackagesDirectory(packages: string, glob: string -> Result<seq<Entry>>) returns (errors: seq<string>)
    ensures errors == PackagesDirectoryErrors(packages, glob)
  {
    errors := [];
    var globPatterns := [packages + "/*", packages + "/*/*"];
    for k := 0 to 2
      invariant errors == if k == 0 then [] else if k == 1 then LevelErrors(globPatterns[0], glob(globPatterns[0]), ContainerError)
        else LevelErrors(globPatterns[0], glob(globPatterns[0]), ContainerError) + LevelErrors(globPatterns[1], glob(globPatterns[1]), ContainerError)
    {
      var globPattern := globPatterns[k];
      var matches := glob(globPattern);
      if matches.Err? {
        errors := errors + [GlobFailed(globPattern, matches.msg)];
        continue;
      }
      var found := CheckMatches(matches.value, ContainerError);
      errors := errors + found;
    }
    var globPattern := packages + "/*/*/*";
    var matches := glob(globPattern);
    if matches.Err? {
      errors := errors + [GlobFailed(globPattern, matches.msg)];
      return errors;
    }
    var found := CheckMatches(matches.value, PackageEntryError);
    errors := errors + found;
  }

  /** No error is gathered exactly when every match passes; each failing
      match contributes its error. */
  lemma {:induction false} GatherSpec(es: seq<Entry>, check: Entry -> Option<string>)
    ensures Gather(es, check) == [] <==> forall i :: 0 <= i < |es| ==> check(es[i]).None?
    ensures forall i :: 0 <= i < |es| && check(es[i]).Some? ==> check(es[i]).value in Gather(es, check)
    ensures |Gather(es, check)| <= |es|
  {
    if |es| > 0 {
      var init := es[..|es| - 1];
      GatherSpec(init, check);
      assert forall i :: 0 <= i < |init| ==> init[i] == es[i];
    }
  }

  /** A well-formed packages directory: every glob works, vendors and
      packages are directories, and a package holds only an upstream.yaml
      file and an overlay directory. */
  predicate WellFormedPackages(packages: string, glob: string -> Result<seq<Entry>>)
  {
    && glob(packages + "/*").Ok? && glob(packages + "/*/*").Ok? && glob(packages + "/*/*/*").Ok?
    && (forall e :: e in glob(packages + "/*").value ==> e.info == Ok(true))
    && (forall e :: e in glob(packages + "/*/*").value ==> e.info == Ok(true))
    && (forall e :: e in glob(packages + "/*/*/*").value ==>
          (e.base == UpstreamYaml && e.info == Ok(false)) || (e.base == Overlay && e.info == Ok(true)))
  }

  /** One glob level reports nothing exactly when the glob works and every
      match passes. */
  lemma LevelClean(pattern: string, matches: Result<seq<Entry>>, check: Entry -> Option<string>)
    ensures LevelErrors(pattern, matches, check) == [] <==> matches.Ok? && forall e :: e in matches.value ==> check(e).None?
  {
    if matches.Ok? {
      GatherSpec(matches.value, check);
      assert forall i :: 0 <= i < |matches.value| ==> matches.value[i] in matches.value;
    }
  }

  /** The validator finds nothing exactly on a well-formed directory. */
  lemma PackagesDirectorySpec(packages: string, glob: string -> Result<seq<Entry>>)
    ensures PackagesDirectoryErrors(packages, glob) == [] <==> WellFormedPackages(packages, glob)
  {
    var p1, p2, p3 := packages + "/*", packages + "/*/*", packages + "/*/*/*";
    LevelClean(p1, glob(p1), ContainerError);
    LevelClean(p2, glob(p2), ContainerError);
    LevelClean(p3, glob(p3), PackageEntryError);
    assert forall e :: ContainerError(e).None? <==> e.info == Ok(true);
    assert forall e :: PackageEntryError(e).None? <==>
      (e.base == UpstreamYaml && e.info == Ok(false)) || (e.base == Overlay && e.info == Ok(true));
  }
}
