/** `removeVersionFromIndex` of main.go: dropping one released version of
    a chart from the repository's index.yaml. Reading and writing the file
    are outcomes passed in; the index is its map from chart name to the
    chart's versions, in the file's order. */
module IndexRemoval {
  import opened Wrappers
  import opened Helm

  type Entries = map<string, seq<ChartVersion>>

  /** The position of the first entry with version string `v`. */
  function FirstWithVersion(vs: seq<ChartVersion>, v: string): (r: Option<nat>)
    ensures r.Some? ==>
      r.value < |vs| && vs[r.value].version == v && forall j :: 0 <= j < r.value ==> vs[j].version != v
    ensures r.None? <==> forall j :: 0 <= j < |vs| ==> vs[j].version != v
  {
    if |vs| == 0 then None
    else if vs[0].version == v then Some(0)
    else
      match FirstWithVersion(vs[1..], v)
      case None => None
      case Some(i) => Some(i + 1)
  }

  /** The entries with entry `i` cut out. */
  function Without(vs: seq<ChartVersion>, i: nat): seq<ChartVersion>
    requires i < |vs|
  {
    vs[..i] + vs[i + 1..]
  }

  /** How many entries carry version string `v`. */
  function CountVersion(vs: seq<ChartVersion>, v: string): nat
  {
    if |vs| == 0 then 0 else (if vs[0].version == v then 1 else 0) + CountVersion(vs[1..], v)
  }

  lemma {:induction false} CountVersionAppend(a: seq<ChartVersion>, b: seq<ChartVersion>, v: string)
    ensures CountVersion(a + b, v) == CountVersion(a, v) + CountVersion(b, v)
  {
    if |a| > 0 {
      assert (a + b)[1..] == a[1..] + b;
      CountVersionAppend(a[1..], b, v);
    } else {
      assert a + b == b;
    }
  }

  /** Cutting out entry `i` keeps the others in their order, removes one
      copy of that entry and nothing else, and lowers the number of entries
      with its version by one. */
  lemma WithoutSpec(vs: seq<ChartVersion>, i: nat)
    requires i < |vs|
    ensures |Without(vs, i)| == |vs| - 1
    ensures forall j :: 0 <= j < i ==> Without(vs, i)[j] == vs[j]
    ensures forall j :: i <= j < |vs| - 1 ==> Without(vs, i)[j] == vs[j + 1]
    ensures multiset(Without(vs, i)) + multiset{vs[i]} == multiset(vs)
    ensures CountVersion(Without(vs, i), vs[i].version) + 1 == CountVersion(vs, vs[i].version)
  {
    assert vs == vs[..i] + [vs[i]] + vs[i + 1..];
    CountVersionAppend(vs[..i], vs[i + 1..], vs[i].version);
    CountVersionAppend(vs[..i] + [vs[i]], vs[i + 1..], vs[i].version);
    CountVersionAppend(vs[..i], [vs[i]], vs[i].version);
    assert [vs[i]][1..] == [];
  }

  /** `removeVersionFromIndex`: `index` is the outcome of reading
      index.yaml and `written` that of writing it back. The chart must have
      entries, and the first entry whose version string equals that of
      `version` is removed; every other chart's entries are written back as
      read. The result is the index written, or the error. */
  method RemoveVersionFromIndex(index: Result<Entries>, chartName: string, version: ChartVersion, written: Option<string>)
    returns (r: Result<Entries>)
    ensures index.Err? ==> r == Err(index.msg)
    ensures index.Ok? && chartName !in index.value ==> r == Err(chartName + " not present in index entries")
    ensures index.Ok? && chartName in index.value ==>
      match FirstWithVersion(index.value[chartName], version.version)
      case None => r == Err("version " + version.version + " not found for chart " + chartName + " in index")
      case Some(i) =>
        if written.Some? then r == Err(written.value)
        else r == Ok(index.value[chartName := Without(index.value[chartName], i)])
  {
    if index.Err? {
      return Err(index.msg);
    }
    var indexYaml := index.value;
    if chartName !in indexYaml {
      return Err(chartName + " not present in index entries");
    }
    var indexEntries := indexYaml[chartName];
    var entryIndex := 0;
    while entryIndex < |indexEntries| && indexEntries[entryIndex].version != version.version
      invariant 0 <= entryIndex <= |indexEntries|
      invariant forall j :: 0 <= j < entryIndex ==> indexEntries[j].version != version.version
    {
      entryIndex := entryIndex + 1;
    }
    if entryIndex == |indexEntries| {
      return Err("version " + version.version + " not found for chart " + chartName + " in index");
    }
    FirstIsFound(indexEntries, version.version, entryIndex);
    var entries := indexEntries[..entryIndex] + indexEntries[entryIndex + 1..];
    indexYaml := indexYaml[chartName := entries];
    if written.Some? {
      return Err(written.value);
    }
    return Ok(indexYaml);
  }

  /** The first position with the version is the one a left-to-right scan
      stops at. */
  lemma FirstIsFound(vs: seq<ChartVersion>, v: string, i: nat)
    requires i < |vs| && vs[i].version == v
    requires forall j :: 0 <= j < i ==> vs[j].version != v
    ensures FirstWithVersion(vs, v) == Some(i)
  {
  }

  /** After the removal the chart has one entry with that version fewer,
      and every other chart is untouched. */
  lemma RemovalSpec(entries: Entries, chartName: string, v: string)
    requires chartName in entries && FirstWithVersion(entries[chartName], v).Some?
    ensures var i := FirstWithVersion(entries[chartName], v).value;
      var after := entries[chartName := Without(entries[chartName], i)];
      && after.Keys == entries.Keys
      && (forall k :: k in entries && k != chartName ==> after[k] == entries[k])
      && |after[chartName]| + 1 == |entries[chartName]|
      && CountVersion(after[chartName], v) + 1 == CountVersion(entries[chartName], v)
  {
    WithoutSpec(entries[chartName], FirstWithVersion(entries[chartName], v).value);
  }
}
