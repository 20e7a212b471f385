/** pkg/pkg/wrapper.go: a package of the repository and the upstream
    versions it should fetch. The semver parser is SemVer.Parse and stored
    versions are stripped with Conform.StripPackageVersion; the stored
    versions themselves, read from index.yaml by the source, are a
    parameter. */
module Wrapper {
  import opened Wrappers
  import opened Strings
  import opened Helm
  import SemVer
  import Conform
  import opened Selection
  import Fetcher
  import UpstreamYamlFile

  const FetchFailed := "failed to fetch data from upstream: "
  const NoVersions := "No versions available in upstream or all versions are marked pre-release"

  /** Every stored entry can be stripped: `StripPackageVersion` dereferences
      a failed parse otherwise. */
  predicate StoredStrippable(stored: seq<ChartVersion>)
  {
    forall s :: s in stored ==> Conform.StripDefined(s.version)
  }

  /** What `getStoredVersions` hands on: its entries, or none when the
      index could not be loaded. */
  function StoredOrEmpty(storedIndex: Result<seq<ChartVersion>>): seq<ChartVersion>
  {
    if storedIndex.Ok? then storedIndex.value else []
  }

  /** The two buckets of one tracked stream meet the selector's demands. */
  lemma BucketInputs(releases: seq<ChartVersion>, stored: seq<ChartVersion>, t: string)
    requires AllParse(SemVer.Parse, releases) && StoredStrippable(stored)
    ensures NonStoredInputs(SemVer.Parse, TrackedBucket(SemVer.Parse, releases, t), TrackedBucket(SemVer.Parse, stored, t), Conform.StripPackageVersion)
  {
    if SemVer.Parse(t).Some? {
      BucketSpec(SemVer.Parse, releases, SemVer.Parse(t).value);
      BucketSpec(SemVer.Parse, stored, SemVer.Parse(t).value);
    }
  }

  /** The selections of the tracked streams, concatenated in tracked order. */
  function PerStream(releases: seq<ChartVersion>, stored: seq<ChartVersion>, fetch: string, tracked: seq<string>): seq<ChartVersion>
    requires AllParse(SemVer.Parse, releases) && StoredStrippable(stored)
  {
    if |tracked| == 0 then []
    else
      BucketInputs(releases, stored, tracked[0]);
      NonStored(SemVer.Parse, TrackedBucket(SemVer.Parse, releases, tracked[0]), TrackedBucket(SemVer.Parse, stored, tracked[0]),
                Conform.StripPackageVersion, SemVer.Render, fetch)
      + PerStream(releases, stored, fetch, tracked[1..])
  }

  /** `filterVersions`' result: an error when no release survives; with
      tracked streams, the index load error or the per-stream selections;
      without, the selection against the stored versions, an index load
      error counting as nothing stored. */
  function Selected(upstream: seq<ChartVersion>, fetch: string, tracked: seq<string>, storedIndex: Result<seq<ChartVersion>>): Result<seq<ChartVersion>>
    requires StoredStrippable(StoredOrEmpty(storedIndex))
  {
    var releases := Releases(SemVer.Parse, upstream);
    ReleasesParse(SemVer.Parse, upstream);
    if |releases| == 0 then Err(NoVersions)
    else if |tracked| > 0 then
      if storedIndex.Err? then Err(storedIndex.msg)
      else Ok(PerStream(releases, storedIndex.value, fetch, tracked))
    else Ok(NonStored(SemVer.Parse, releases, StoredOrEmpty(storedIndex), Conform.StripPackageVersion, SemVer.Render, fetch))
  }

  /** Each stream's selection comes from its bucket. */
  lemma {:induction false} PerStreamMembers(releases: seq<ChartVersion>, stored: seq<ChartVersion>, fetch: string, tracked: seq<string>)
    requires AllParse(SemVer.Parse, releases) && StoredStrippable(stored)
    ensures forall x :: x in PerStream(releases, stored, fetch, tracked) ==>
      x in releases && exists t :: t in tracked && SemVer.Parse(t).Some? && InStream(SemVer.Parse, x, SemVer.Parse(t).value)
  {
    if |tracked| > 0 {
      var t := tracked[0];
      BucketInputs(releases, stored, t);
      var vs := TrackedBucket(SemVer.Parse, releases, t);
      var st := TrackedBucket(SemVer.Parse, stored, t);
      NonStoredFromSpec(SemVer.Parse, vs, st, Conform.StripPackageVersion, SemVer.Render, fetch, 0);
      assert vs[0..] == vs;
      if SemVer.Parse(t).Some? {
        BucketSpec(SemVer.Parse, releases, SemVer.Parse(t).value);
      }
      PerStreamMembers(releases, stored, fetch, tracked[1..]);
      assert forall u :: u in tracked[1..] ==> u in tracked;
    }
  }

  /** Whatever is selected is an upstream release. Without tracked streams
      the selection keeps upstream order and holds no stored version; with
      them, every selected version belongs to a tracked stream. */
  lemma SelectedVersions(upstream: seq<ChartVersion>, fetch: string, tracked: seq<string>, storedIndex: Result<seq<ChartVersion>>)
    requires StoredStrippable(StoredOrEmpty(storedIndex))
    ensures Selected(upstream, fetch, tracked, storedIndex).Ok? ==>
      forall x :: x in Selected(upstream, fetch, tracked, storedIndex).value ==> x in upstream && IsRelease(SemVer.Parse, x)
    ensures Selected(upstream, fetch, tracked, storedIndex).Ok? && |tracked| == 0 ==>
      IsSubsequence(Selected(upstream, fetch, tracked, storedIndex).value, Releases(SemVer.Parse, upstream))
      && forall x :: x in Selected(upstream, fetch, tracked, storedIndex).value ==>
           !IsStored(SemVer.Parse, x, StoredOrEmpty(storedIndex), Conform.StripPackageVersion, SemVer.Render)
    ensures Selected(upstream, fetch, tracked, storedIndex).Ok? && |tracked| > 0 ==>
      forall x :: x in Selected(upstream, fetch, tracked, storedIndex).value ==>
        exists t :: t in tracked && SemVer.Parse(t).Some? && InStream(SemVer.Parse, x, SemVer.Parse(t).value)
  {
    var releases := Releases(SemVer.Parse, upstream);
    ReleasesExactly(SemVer.Parse, upstream);
    if |releases| > 0 {
      if |tracked| > 0 {
        if storedIndex.Ok? {
          PerStreamMembers(releases, storedIndex.value, fetch, tracked);
        }
      } else {
        NonStoredFromSpec(SemVer.Parse, releases, StoredOrEmpty(storedIndex), Conform.StripPackageVersion, SemVer.Render, fetch, 0);
        assert releases[0..] == releases;
      }
    }
  }

  /** `filterVersions` fails exactly when no release survives, or when
      tracked streams need the index and it could not be loaded. */
  lemma SelectedFails(upstream: seq<ChartVersion>, fetch: string, tracked: seq<string>, storedIndex: Result<seq<ChartVersion>>)
    requires StoredStrippable(StoredOrEmpty(storedIndex))
    ensures Selected(upstream, fetch, tracked, storedIndex).Err? <==>
      (forall x :: x in upstream ==> !IsRelease(SemVer.Parse, x)) || (|tracked| > 0 && storedIndex.Err?)
  {
    ReleasesExactly(SemVer.Parse, upstream);
    var releases := Releases(SemVer.Parse, upstream);
    if |releases| > 0 {
      assert releases[0] in releases;
    }
  }

  /** The versions `filterVersions` warns about: those above the latest
      tracked stream, when there are tracked streams and releases. */
  function UntrackedWarning(upstream: seq<ChartVersion>, tracked: seq<string>): seq<string>
    requires |tracked| > 0 && |Releases(SemVer.Parse, upstream)| > 0 ==> LatestTracked(SemVer.Parse, tracked).Some?
  {
    var releases := Releases(SemVer.Parse, upstream);
    ReleasesParse(SemVer.Parse, upstream);
    if |tracked| > 0 && |releases| > 0 then NewerUntracked(SemVer.Parse, releases, LatestTracked(SemVer.Parse, tracked).value)
    else []
  }

  /** The tracked half of `filterVersions`: the per-stream selections,
      concatenated in tracked order. */
  method SelectPerStream(releases: seq<ChartVersion>, stored: seq<ChartVersion>, fetch: string, tracked: seq<string>)
    returns (filtered: seq<ChartVersion>)
    requires AllParse(SemVer.Parse, releases) && StoredStrippable(stored)
    ensures filtered == PerStream(releases, stored, fetch, tracked)
  {
    var allTrackedVersions := CollectTrackedVersions(SemVer.Parse, releases, tracked);
    var storedTrackedVersions := CollectTrackedVersions(SemVer.Parse, stored, tracked);
    filtered := [];
    ghost var whole := PerStream(releases, stored, fetch, tracked);
    var n := 0;
    while n < |tracked|
      invariant 0 <= n <= |tracked|
      invariant filtered + PerStream(releases, stored, fetch, tracked[n..]) == whole
    {
      var trackedVersion := tracked[n];
      assert trackedVersion in tracked;
      var nonStoredVersions := SelectStream(releases, stored, fetch, trackedVersion,
        allTrackedVersions[trackedVersion], storedTrackedVersions[trackedVersion]);
      PerStreamStep(releases, stored, fetch, tracked, n, filtered, nonStoredVersions);
      filtered := filtered + nonStoredVersions;
      n := n + 1;
    }
    assert tracked[n..] == [];
  }

  /** One stream's selection, from its buckets of releases and stored
      versions. */
  method SelectStream(releases: seq<ChartVersion>, stored: seq<ChartVersion>, fetch: string, t: string,
                      all: seq<ChartVersion>, storedOfStream: seq<ChartVersion>)
    returns (selection: seq<ChartVersion>)
    requires AllParse(SemVer.Parse, releases) && StoredStrippable(stored)
    requires all == TrackedBucket(SemVer.Parse, releases, t) && storedOfStream == TrackedBucket(SemVer.Parse, stored, t)
    ensures NonStoredInputs(SemVer.Parse, all, storedOfStream, Conform.StripPackageVersion)
    ensures selection == NonStored(SemVer.Parse, all, storedOfStream, Conform.StripPackageVersion, SemVer.Render, fetch)
  {
    BucketInputs(releases, stored, t);
    selection := CollectNonStoredVersions(SemVer.Parse, all, storedOfStream, Conform.StripPackageVersion, SemVer.Render, fetch);
  }

  /** Moving stream `n`'s selection from the pending part to the result. */
  lemma PerStreamStep(releases: seq<ChartVersion>, stored: seq<ChartVersion>, fetch: string, tracked: seq<string>, n: nat,
                      filtered: seq<ChartVersion>, selection: seq<ChartVersion>)
    requires AllParse(SemVer.Parse, releases) && StoredStrippable(stored) && n < |tracked|
    requires filtered + PerStream(releases, stored, fetch, tracked[n..]) == PerStream(releases, stored, fetch, tracked)
    requires NonStoredInputs(SemVer.Parse, TrackedBucket(SemVer.Parse, releases, tracked[n]), TrackedBucket(SemVer.Parse, stored, tracked[n]), Conform.StripPackageVersion)
    requires selection == NonStored(SemVer.Parse, TrackedBucket(SemVer.Parse, releases, tracked[n]),
                                    TrackedBucket(SemVer.Parse, stored, tracked[n]), Conform.StripPackageVersion, SemVer.Render, fetch)
    ensures (filtered + selection) + PerStream(releases, stored, fetch, tracked[n + 1..]) == PerStream(releases, stored, fetch, tracked)
  {
    var pending := tracked[n..];
    assert pending[0] == tracked[n] && pending[1..] == tracked[n + 1..];
    PerStreamUnfold(releases, stored, fetch, pending);
    Regroup(filtered, selection, PerStream(releases, stored, fetch, tracked[n + 1..]), PerStream(releases, stored, fetch, tracked));
  }

  lemma Regroup<T>(a: seq<T>, b: seq<T>, c: seq<T>, whole: seq<T>)
    requires a + (b + c) == whole
    ensures (a + b) + c == whole
  {
    assert (a + b) + c == a + (b + c);
  }

  lemma PerStreamUnfold(releases: seq<ChartVersion>, stored: seq<ChartVersion>, fetch: string, ts: seq<string>)
    requires AllParse(SemVer.Parse, releases) && StoredStrippable(stored) && |ts| > 0
    requires NonStoredInputs(SemVer.Parse, TrackedBucket(SemVer.Parse, releases, ts[0]), TrackedBucket(SemVer.Parse, stored, ts[0]), Conform.StripPackageVersion)
    ensures PerStream(releases, stored, fetch, ts)
      == NonStored(SemVer.Parse, TrackedBucket(SemVer.Parse, releases, ts[0]), TrackedBucket(SemVer.Parse, stored, ts[0]),
                   Conform.StripPackageVersion, SemVer.Render, fetch) + PerStream(releases, stored, fetch, ts[1..])
  {
  }

  /** `filterVersions`: the selection (empty alongside an error) and the
      newer untracked versions it warns about. */
  method FilterVersions(upstreamVersions: seq<ChartVersion>, fetch: string, tracked: seq<string>, storedIndex: Result<seq<ChartVersion>>)
    returns (filtered: seq<ChartVersion>, err: Option<string>, newerUntracked: seq<string>)
    requires |upstreamVersions| > 0
    requires StoredStrippable(StoredOrEmpty(storedIndex))
    requires TrackedComparable(SemVer.Parse, tracked)
    requires |tracked| > 0 && |Releases(SemVer.Parse, upstreamVersions)| > 0 ==> LatestTracked(SemVer.Parse, tracked).Some?
    ensures Selected(upstreamVersions, fetch, tracked, storedIndex).Ok? ==>
      err.None? && filtered == Selected(upstreamVersions, fetch, tracked, storedIndex).value
    ensures Selected(upstreamVersions, fetch, tracked, storedIndex).Err? ==>
      err == Some(Selected(upstreamVersions, fetch, tracked, storedIndex).msg) && filtered == []
    ensures newerUntracked == UntrackedWarning(upstreamVersions, tracked)
  {
    var releases := StripPreRelease(SemVer.Parse, upstreamVersions);
    ReleasesExactly(SemVer.Parse, upstreamVersions);
    newerUntracked := [];
    if |tracked| > 0 {
      newerUntracked := CheckNewerUntracked(SemVer.Parse, tracked, releases);
    }
    if |releases| == 0 {
      return [], Some(NoVersions), newerUntracked;
    }
    var allStoredVersions := StoredOrEmpty(storedIndex);
    if |tracked| > 0 {
      if storedIndex.Err? {
        return [], Some(storedIndex.msg), newerUntracked;
      }
      filtered := SelectPerStream(releases, allStoredVersions, fetch, tracked);
    } else {
      filtered := CollectNonStoredVersions(SemVer.Parse, releases, allStoredVersions, Conform.StripPackageVersion, SemVer.Render, fetch);
    }
    err := None;
  }

  /** A package: its vendor and name (the two directories under packages/),
      its upstream.yaml, and what `Populate` learns from upstream. */
  class PackageWrapper {
    var name: string
    var displayName: string
    var fetchVersions: seq<ChartVersion>
    var path: string
    var sourceMetadata: Option<Fetcher.ChartSourceMetadata>
    var upstreamYaml: UpstreamYamlFile.UpstreamYaml
    var displayVendor: string
    var vendor: string

    /** A package as `ListPackageWrappers` builds it, before anything is
        fetched: the display vendor and name come from upstream.yaml when
        it sets them, and from the directory names otherwise. */
    constructor (path: string, vendor: string, name: string, upstreamYaml: UpstreamYamlFile.UpstreamYaml)
      ensures this.path == path && this.vendor == vendor && this.name == name && this.upstreamYaml == upstreamYaml
      ensures displayVendor == (if upstreamYaml.vendor != "" then upstreamYaml.vendor else vendor)
      ensures displayName == (if upstreamYaml.displayName != "" then upstreamYaml.displayName else name)
      ensures fetchVersions == [] && sourceMetadata.None?
    {
      this.path := path;
      this.vendor := vendor;
      this.name := name;
      this.upstreamYaml := upstreamYaml;
      if upstreamYaml.vendor != "" {
        displayVendor := upstreamYaml.vendor;
      } else {
        displayVendor := vendor;
      }
      if upstreamYaml.displayName != "" {
        displayName := upstreamYaml.displayName;
      } else {
        displayName := name;
      }
      fetchVersions := [];
      sourceMetadata := None;
    }

    /** `FullName`: vendor and name joined by '/'. */
    function FullName(): string
      reads this
    {
      vendor + "/" + name
    }

    /** `Populate`: fetches the upstream versions (`fetch` stands for the
        three fetchers), records them, and selects the versions to fetch;
        true exactly when the selection succeeded and is non-empty. The
        source reads the first fetched version, so a successful fetch is
        taken to return at least one. */
    method Populate(fetch: Fetcher.Source -> (Fetcher.ChartSourceMetadata, Option<string>), storedIndex: Result<seq<ChartVersion>>)
      returns (newer: bool, err: Option<string>)
      modifies this
      requires Fetcher.SourceOf(upstreamYaml).Some? && fetch(Fetcher.SourceOf(upstreamYaml).value).1.None? ==>
        |fetch(Fetcher.SourceOf(upstreamYaml).value).0.versions| > 0
      requires StoredStrippable(StoredOrEmpty(storedIndex))
      requires TrackedComparable(SemVer.Parse, upstreamYaml.trackVersions)
      requires |upstreamYaml.trackVersions| > 0 ==> LatestTracked(SemVer.Parse, upstreamYaml.trackVersions).Some?
      ensures name == old(name) && vendor == old(vendor) && path == old(path) && upstreamYaml == old(upstreamYaml)
      ensures displayName == old(displayName) && displayVendor == old(displayVendor)
      ensures Fetcher.SourceOf(upstreamYaml).None? ==>
        !newer && err == Some(FetchFailed + Fetcher.NoRepoOptions)
        && sourceMetadata == old(sourceMetadata) && fetchVersions == old(fetchVersions)
      ensures Fetcher.SourceOf(upstreamYaml).Some? && fetch(Fetcher.SourceOf(upstreamYaml).value).1.Some? ==>
        !newer && err == Some(FetchFailed + fetch(Fetcher.SourceOf(upstreamYaml).value).1.value)
        && sourceMetadata == old(sourceMetadata) && fetchVersions == old(fetchVersions)
      ensures Fetcher.SourceOf(upstreamYaml).Some? && fetch(Fetcher.SourceOf(upstreamYaml).value).1.None? ==>
        sourceMetadata == Some(Fetcher.WithName(fetch(Fetcher.SourceOf(upstreamYaml).value).0, upstreamYaml.chartMetadata.name))
        && var sel := Selected(sourceMetadata.value.versions, upstreamYaml.fetch, upstreamYaml.trackVersions, storedIndex);
           fetchVersions == (if sel.Ok? then sel.value else [])
           && err == (if sel.Ok? then None else Some(sel.msg))
           && newer == (sel.Ok? && |sel.value| > 0)
    {
      var fetchMode, tracked := upstreamYaml.fetch, upstreamYaml.trackVersions;
      var sourceMetadata', fetchErr := Fetcher.FetchUpstream(upstreamYaml, fetch);
      if fetchErr.Some? {
        return false, Some(FetchFailed + fetchErr.value);
      }
      newer, err := Record(sourceMetadata', fetchMode, tracked, storedIndex);
    }

    /** The second half of `Populate`: records the fetched metadata and
        selects from its versions. */
    method Record(meta: Fetcher.ChartSourceMetadata, fetchMode: string, tracked: seq<string>, storedIndex: Result<seq<ChartVersion>>)
      returns (newer: bool, err: Option<string>)
      modifies this
      requires |meta.versions| > 0
      requires StoredStrippable(StoredOrEmpty(storedIndex))
      requires TrackedComparable(SemVer.Parse, tracked)
      requires |tracked| > 0 ==> LatestTracked(SemVer.Parse, tracked).Some?
      ensures name == old(name) && vendor == old(vendor) && path == old(path) && upstreamYaml == old(upstreamYaml)
      ensures displayName == old(displayName) && displayVendor == old(displayVendor)
      ensures sourceMetadata == Some(meta)
      ensures var sel := Selected(meta.versions, fetchMode, tracked, storedIndex);
        fetchVersions == (if sel.Ok? then sel.value else [])
        && err == (if sel.Ok? then None else Some(sel.msg))
        && newer == (sel.Ok? && |sel.value| > 0)
    {
      sourceMetadata := Some(meta);
      var filtered, filterErr, _ := FilterVersions(meta.versions, fetchMode, tracked, storedIndex);
      fetchVersions := filtered;
      if filterErr.Some? {
        return false, filterErr;
      }
      if |fetchVersions| == 0 {
        return false, None;
      }
      return true, None;
    }
  }

  /** The full name splits back into vendor and name when the vendor holds
      no '/' (it is a single directory name). */
  lemma FullNameSplits(p: PackageWrapper)
    requires '/' !in p.vendor
    ensures CutFirst(p.FullName(), '/') == (p.vendor, p.name)
  {
    assert p.FullName() == p.vendor + ['/'] + p.name;
    CutFirstOf(p.vendor, '/', p.name);
  }
}
