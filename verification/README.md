# partner-charts-ci, modelled in Dafny

partner-charts-ci keeps Rancher's partner Helm chart repository in step with the
charts' upstream sources. For every package under `packages/<vendor>/<name>` it:

- reads the package's `upstream.yaml`;
- fetches the upstream chart versions from a Helm repository, a Git repository or
  ArtifactHub;
- selects the versions that are not yet stored in `index.yaml`;
- conforms each selected chart: overlay files, a metadata overlay, the Rancher
  `catalog.cattle.io/*` annotations, a package-encoded version and a local icon;
- hands the "featured" annotation over to the newest chart.

A set of validators checks the repository itself:

- the `configuration.yaml` and `upstream.yaml` rules;
- the layout of `packages/`;
- that icons and index entries refer to each other;
- that package names are unique and match the index;
- most importantly, that a released chart is never modified except in allow-listed
  metadata.

This project models those decision and transformation rules, one module per source
file:

| module | file | source |
|---|---|---|
| `Wrappers` | wrappers.dfy | `Option`, and `Result` for Go's (value, error) pairs |
| `Strings` | strings.dfy | the parts of Go's `strings` and `path` packages in use |
| `SemVer` | semver.dfy | the Masterminds semver parser, renderer and precedence the code relies on |
| `Helm` | helm.dfy | chart metadata, files and index entries; `Chart` is a class because the code edits charts in place |
| `Conform` | conform.dfy | pkg/conform/conform.go |
| `Export` | export.dfy | pkg/conform/export.go |
| `Selection` | selection.dfy | version selection, pkg/pkg/wrapper.go (duplicated in main.go) |
| `Wrapper` | wrapper.dfy | `filterVersions`, `Populate` and `FullName` of pkg/pkg/wrapper.go |
| `Integration` | integration.dfy | `integrateCharts` and its steps in main.go |
| `IndexRemoval` | index.dfy | `removeVersionFromIndex` of main.go |
| `Modification` | modification.dfy | pkg/validate/modification.go |
| `Validate` | validate.dfy | pkg/validate/duplicatenames.go, matchnames.go, icons.go and packages.go |
| `Config` | config.dfy | pkg/validate/config.go |
| `UpstreamYamlFile` | upstreamyaml.dfy | pkg/upstreamyaml/upstreamyaml.go |
| `ParseYaml` | parseyaml.dfy | the options record of pkg/parse/parse.go |
| `Icons` | icons.dfy | pkg/icons/icons.go and download.go |
| `Fetcher` | fetcher.dfy | pkg/fetcher/fetcher.go |
| `Upstream` | upstream.dfy | pkg/upstream/upstream.go and httpshelm.go |

Objects the code updates in place are classes, and the methods on them state their
whole new state:

- `Helm.Chart`;
- `Integration.ChartWrapper`, which adds the `Modified` dirty bit;
- `Modification.DirectoryComparison`;
- `UpstreamYamlFile.UpstreamYaml`;
- `Wrapper.PackageWrapper`.

Loops in the source are loops here, proved against a specification function. The
properties the code promises are lemmas about those functions.

The outside world becomes inputs:

- the network, git and the file system;
- `index.yaml` and Go's map iteration order;
- chart loading and export;
- the glob and stat results.

An outcome becomes a value, such as a `Result` for a fetch or an existence predicate
for files. An operation becomes a function parameter, such as `glob`, `download` or
`load`.

## Model

| member | source | states |
|---|---|---|
| Conform.Annotated | pkg/conform/conform.go:79-90 | The key ends up present, holding the new value exactly when it was absent or (override and different). Every other key is unchanged. |
| Conform.AnnotateChart | pkg/conform/conform.go:79-90 | The return value is true exactly when the value was written. A nil map first becomes empty. Only the named annotation changes, and the files are untouched. |
| Conform.Deannotated | pkg/conform/conform.go:92-117 | A nil map stays nil. The key is deleted iff it is present and `value` is "" or equals the stored value. Every other key is unchanged. |
| Conform.DeannotateChart | pkg/conform/conform.go:92-117 | The return value is true iff the annotation map changed, and that is exactly when a deletion happened. Nothing else changes. |
| Conform.Restrict | pkg/conform/conform.go:119-133 | The restriction of a map to a key set keeps exactly those keys and their values. |
| Conform.Applied | pkg/conform/conform.go:119-133 | The keys after applying annotations are the old keys plus the new ones. |
| Conform.AppliedIsUnion | pkg/conform/conform.go:119-133 | Applying with override is the map union in which the new values win. Without override the existing values win. So the result does not depend on the map's iteration order. |
| Conform.AppliedIdempotent | pkg/conform/conform.go:119-133 | Applying the same annotations twice equals applying them once, and the second application writes nothing. |
| Conform.ApplyChartAnnotations | pkg/conform/conform.go:119-133 | The loop over the annotation map leaves exactly `Applied`. It returns true iff some key was written. |
| Conform.RemovedAll | pkg/conform/conform.go:135-144 | Removal only drops keys and keeps the surviving values. |
| Conform.RemovedAllKeeps | pkg/conform/conform.go:135-144 | A present key survives iff it is not named, or it is named with a non-empty value that differs from the stored one. |
| Conform.RemoveChartAnnotations | pkg/conform/conform.go:135-144 | A nil map stays nil. Otherwise the loop leaves exactly `RemovedAll`, and it returns true iff some key was deleted. |
| Conform.OverlaidSpec | pkg/conform/conform.go:19-77 | The lists become chart list ++ overlay list. Deprecated is only ever turned on. KubeVersion is not overlaid. Overlay annotations win per key, and the other keys are kept. |
| Conform.OverlayScalars | pkg/conform/conform.go:19-55 | Each scalar field takes the overlay's value when that is non-empty, and keeps its own value otherwise. |
| Conform.OverlayEmptyIsIdentity | pkg/conform/conform.go:19-77 | An empty overlay changes nothing. |
| Conform.OverlayChartMetadata | pkg/conform/conform.go:19-77 | The chart's metadata becomes `Overlaid(old, overlay)`. The files are untouched. |
| Conform.StripPackageVersion | pkg/conform/conform.go:146-164 | The result is a version string that parses. |
| Conform.StrippedPatchIsQuotient | pkg/conform/conform.go:152-154 | `(p - p % 2) / 100` is floor division by 100 for every patch p. |
| Conform.GeneratePackageVersionSpec | pkg/conform/conform.go:166-195 | An unparsable version is an error. A nil package version gives the canonical version. A package version outside 0..98 is an error. Any result parses. |
| Conform.PackagePatch | pkg/conform/conform.go:177 | The encoded patch is 100*patch + pv in uint64: below 2^64 it is exactly that value, and a value at or above 2^64 wraps to one below 2^64 that is at least 2^64 smaller. |
| Conform.GeneratePlain | pkg/conform/conform.go:166-186 | For a version without pre-release or build suffix and a package version pv in 0..98, the patch becomes 100*patch + pv wrapped to 64 bits. Below the wrap it is exactly 100*patch + pv. Major and minor are kept. |
| Conform.StripPlain | pkg/conform/conform.go:146-164 | For a plain version, a patch of at least 100 becomes patch div 100. A smaller patch is kept. |
| Conform.EncodedPatch | pkg/conform/conform.go:152-177 | Decoding the uint64 patch 100*patch + pv gives back patch iff it did not wrap and patch >= 1 or pv = 0. |
| Conform.StripGenerateRoundTrip | pkg/conform/conform.go:146-195 | Strip(Generate(v, pv)) = v iff patch(v) >= 1 or pv = 0, and 100*patch(v) + pv < 2^64. A patch whose encoding wraps is not recoverable. |
| Conform.RenderInjective | pkg/conform/conform.go:163 | Two well-formed versions render to the same string only if they are equal. |
| SemVer.NatToString | pkg/conform/conform.go:156 | The `%d` rendering of a number is numeric and reads back as the same number. |
| SemVer.ParseRender | pkg/conform/conform.go:179-186 | Parsing the rendering of a well-formed version gives back that version. This is what makes the split-and-rejoin of the patch safe. |
| SemVer.ParseIsCanonical | pkg/conform/conform.go:189-194 | Re-parsing the canonical rendering of a parsed version gives the same version. |
| SemVer.ParseWellFormed | pkg/conform/conform.go:168 | Every parsed version is well formed. |
| SemVer.Compare | pkg/pkg/wrapper.go:315 | Precedence comparison yields -1, 0 or 1. |
| SemVer.GreaterThanReleases | pkg/pkg/wrapper.go:315 | Without pre-release tags, GreaterThan is the lexicographic order on (major, minor, patch). |
| SemVer.ReleaseAbovePreRelease | pkg/pkg/wrapper.go:380 | A release is greater than a pre-release of the same triple, and not the other way round. |
| SemVer.GreaterThanIrreflexive | pkg/pkg/wrapper.go:380 | No version is greater than itself. |
| Selection.ReleasesExactly | pkg/pkg/wrapper.go:229-243 | The kept versions are exactly the input versions that parse with an empty pre-release tag, in input order, as a subsequence. |
| Selection.StripPreRelease | pkg/pkg/wrapper.go:229-243 | The loop returns exactly `Releases` of its input. main.go:505-519 is the same code. |
| Selection.BucketSpec | pkg/pkg/wrapper.go:245-273 | Each bucket is an in-order subsequence of the input. It holds only versions of the tracked stream (same major.minor). |
| Selection.NewestFirstUnderRewrite | pkg/fetcher/fetcher.go:86-96 | The URL rewrite after SortEntries keeps every version string in place, so a newest-first sorted list stays newest first for the stream scan. |
| Selection.BucketIsStream | pkg/pkg/wrapper.go:262-266 | On newest-first input the early break loses nothing: the bucket is every version of the stream. |
| Selection.CollectTrackedVersions | pkg/pkg/wrapper.go:245-273 | There is one bucket per tracked string and no other. Each bucket is the stream's scan, which stops at the first version below the stream. main.go:416-444 is the same code. |
| Selection.CompareToTracked | pkg/pkg/wrapper.go:251-266 | An unparsable tracked string neither appends nor stops. Otherwise a version is appended iff it is in the stream, and the scan stops iff the version is below the stream. |
| Selection.IsStoredRecords | pkg/pkg/wrapper.go:282-295 | A version counts as stored iff some stored entry records it. |
| Selection.RecordedInExists | pkg/pkg/wrapper.go:284-294 | An entry records a version when its raw version, or its `StripPackageVersion` form, equals the version's canonical string. |
| Selection.FindStored | pkg/pkg/wrapper.go:282-295 | The inner loop answers exactly `IsStored`. |
| Selection.IsNewerThanStoredLatest | pkg/pkg/wrapper.go:308-321 | In newer mode a version is added when there is no stored entry, or when it is greater than the stripped first stored entry (not the maximum). |
| Selection.FetchesLatest | pkg/pkg/wrapper.go:296 | The latest check lowercases: "" and any casing of "latest" count. |
| Selection.NonStoredFromSpec | pkg/pkg/wrapper.go:275-332 | In every mode the result is an in-order subsequence of the input and contains no stored version. |
| Selection.CollectNonStoredVersions | pkg/pkg/wrapper.go:275-332 | The loop, with its break and continue, returns exactly `NonStored`. main.go:446-503 is the same code. |
| Selection.FilterModes | pkg/pkg/wrapper.go:300-323 | Under the case-sensitive "all" the result is every non-stored version. Under "newer" it is every non-stored version newer than the stored latest. |
| Selection.SingleVersionModes | pkg/pkg/wrapper.go:296-299 | In every other mode the result has at most one element. In latest mode it is empty when the newest version is stored; otherwise it is the first non-stored version. |
| Selection.LatestTrackedSome | pkg/pkg/wrapper.go:373-386 | A latest tracked version exists iff some tracked string parses, and it is one of them. |
| Selection.LatestTrackedIsMaximum | pkg/pkg/wrapper.go:373-386 | For release-only tracked strings, no parsed tracked version's triple exceeds the latest tracked one. |
| Selection.GetLatestTracked | pkg/pkg/wrapper.go:373-386 | The loop returns exactly `LatestTracked`. main.go:875-888 is the same code. |
| Selection.NewerUntrackedIsAboveStream | pkg/pkg/wrapper.go:342-353 | On newest-first input, the versions the scan reports are exactly those whose major.minor exceeds the latest tracked stream. |
| Selection.CheckNewerUntracked | pkg/pkg/wrapper.go:334-357 | No tracked streams, or no versions, gives an empty result. Otherwise the result is the scan `NewerUntracked` against the latest tracked version. main.go:521-544 is the same code. |
| Wrapper.SelectPerStream | pkg/pkg/wrapper.go:218-221 | The per-stream loop returns the concatenation, in tracked order, of each stream's non-stored selection. |
| Wrapper.PerStreamMembers | pkg/pkg/wrapper.go:212-221 | Everything the tracked path selects is an upstream version in some tracked stream. |
| Wrapper.SelectedVersions | pkg/pkg/wrapper.go:196-227 | Every selected version is an upstream release. Without tracked streams the selection is an in-order subsequence of the releases with nothing stored. |
| Wrapper.SelectedFails | pkg/pkg/wrapper.go:196-227 | Selection fails iff no upstream version is a release, or there are tracked streams and the stored index failed to load. The load error is ignored on the untracked path. |
| Wrapper.FilterVersions | pkg/pkg/wrapper.go:196-227 | The result, the error and the newer-untracked warning list are those of `Selected` and `CheckNewerUntracked`. main.go:546-577 is the same code. |
| Wrapper.PackageWrapper.constructor | pkg/pkg/wrapper.go:165-188 | A listed package takes its display vendor and display name from upstream.yaml when set, and from its directory names otherwise. It has no source metadata and no fetch versions yet. |
| Wrapper.PackageWrapper.Populate | pkg/pkg/wrapper.go:76-100 | A fetch error is wrapped and leaves the wrapper as it was. Otherwise SourceMetadata is recorded and FetchVersions is the selection. The result is true iff the selection is non-empty. |
| Wrapper.PackageWrapper.Record | pkg/pkg/wrapper.go:84-99 | After the fetch, SourceMetadata is set and FetchVersions becomes the selection. Nothing else changes. |
| Wrapper.FullNameSplits | pkg/pkg/wrapper.go:69-71 | FullName is vendor + "/" + name. Cutting it at the first '/' recovers both parts. |
| Integration.ChartWrapper.constructor | main.go:68 | A new chart wrapper holds the chart and is not modified. |
| Integration.UpsertLookup | main.go:729-745 | After one overlay file, that path reads the new data and every other path reads as before. |
| Integration.UpsertShape | main.go:735-741 | The first file of that name is overwritten in place, or the file is appended. Names and order are kept, and no other file changes. |
| Integration.UpsertAllSize | main.go:729-745 | The file count grows by the number of overlay paths not already present. |
| Integration.UpsertedSpec | main.go:729-745 | After all overlay files: each overlay path reads its overlay data and every other name reads as before. The count grows by the new paths. Existing positions keep their names, and only first-named files of overlay paths change. |
| Integration.WriteOverlayFile | main.go:731-742 | One overlay path overwrites the data of the first file with that name, or is appended as a new file, exactly as `Upsert` says. The metadata is kept. |
| Integration.ApplyOverlayFiles | main.go:729-745 | The loop leaves the chart's files `Upserted` and its metadata unchanged. |
| Integration.DerivedAnnotationsSpec | main.go:771-811 | certified = "partner", display-name and release-name (falling back to the package name) are always set. auto-install, experimental, hidden, namespace and kube-version are set iff configured; kube-version prefers upstream.yaml, then the chart. featured is never set. |
| Integration.LocalizeDependencies | main.go:787-791 | Each dependency's repository becomes file://./charts/<name>. Nothing else changes. |
| Integration.SetPackagedVersion | main.go:813-819 | With a package version the chart version becomes the generated one. On error it becomes "" and the error is returned. |
| Integration.AddAnnotations | main.go:768-824 | On a version error the error is returned, the dependencies are localized and the version is "". Otherwise the metadata becomes `WithAnnotations`. |
| Integration.WithAnnotationsSpec | main.go:768-824 | Existing annotations win over the derived ones (override false). The keys are the union of both. The version is the generated one, and every dependency is localized iff RemoteDependencies is off. |
| Integration.EnsureIcon | main.go:751-764 | The chart icon becomes the outcome of `EnsuredIcon`. On error the chart is unchanged. |
| Integration.EnsuredIconSources | main.go:751-764 | A previously downloaded icon wins and is one of the probed paths. Otherwise the download decides, and the icon becomes file:// + the downloaded path. |
| Integration.FeaturedValueSpec | main.go:832-843 | The scan succeeds iff all existing featured values agree. Its value is the last one found. |
| Integration.FeaturedValueMeaning | main.go:832-847 | A successful scan's value is the value of every featured existing chart. When no chart is featured the value is "". |
| Integration.ScanFeatured | main.go:832-843 | The loop returns exactly `FeaturedValue`. |
| Integration.HandOverOutcome | main.go:849-872 | After the hand-over no existing chart is featured, and the last new chart carries the value. Only the featured annotation differs anywhere. |
| Integration.DeannotateAll | main.go:866-870 | Every existing chart loses featured. Modified is set exactly on those that carried it. New charts are untouched. |
| Integration.AnnotateOne | main.go:858-860 | One chart gets featured = v. Its wrapper is flagged iff the chart did not already carry that value. Its files are kept. |
| Integration.DeannotateOne | main.go:866-869 | One chart loses featured. Its wrapper is flagged iff the chart carried the annotation. Its files are kept. |
| Integration.DeannotateEach | main.go:866-870 | Chart by chart, each existing chart loses featured and is flagged iff it carried it. Files are kept. |
| Integration.AnnotateLast | main.go:858-861 | Only the last new chart changes. It gets featured = v, and Modified is set iff the annotation changed. |
| Integration.EnsureFeaturedAnnotation | main.go:831-873 | It errors iff two existing values differ. Without a featured value nothing changes, not even Modified. Otherwise the value moves to the last new chart. |
| Integration.PreparedSpec | main.go:706-717 | A new chart prepares iff its version and icon steps succeed. The prepared metadata has the overlaid name, the packaged version, the ensured icon, the certified annotation, and the featured value of the overlay. |
| Integration.PreparedAllSpec | main.go:706-718 | Preparing all new charts succeeds iff each one does. The error is that of the first chart that fails. |
| Integration.PrepareChart | main.go:706-717 | Overlay files are upserted, and the metadata becomes `Prepared`. On success Modified is set; on error it is left as it was. |
| Integration.PreparedAllFirstError | main.go:706-718 | When every chart before the i-th prepares and the i-th fails, the whole preparation fails with the i-th chart's message. |
| Integration.PrepareEach | main.go:706-718 | On success every new chart holds its prepared metadata, is flagged and carries the overlay files. On failure the error is that of a chart whose predecessors all prepared. |
| Integration.PrepareNew | main.go:706-718 | Seen from the new charts alone, the loop leaves them as `PreparedAll` says, flagged and overlaid, and returns its first error. |
| Integration.PrepareNewCharts | main.go:706-718 | The loop leaves the new charts as `PreparedAll` says and stops at the first error. Existing charts are untouched. |
| Integration.IntegrateCharts | main.go:700-725 | On success every new chart is prepared and Modified. Existing charts change only through the featured hand-over. Errors are wrapped and returned. |
| IndexRemoval.FirstWithVersion | main.go:966-971 | The position found is the first entry with the version. None means there is no such entry. |
| IndexRemoval.WithoutSpec | main.go:973 | Cutting out the entry keeps the others in order, and removes one copy of it and nothing else. |
| IndexRemoval.RemoveVersionFromIndex | main.go:953-979 | An absent chart or version is an error. Otherwise exactly the first matching entry is removed, and read and write errors are returned. |
| IndexRemoval.RemovalSpec | main.go:953-979 | Only the chart's own list changes. It shrinks by one entry carrying that version. |
| Modification.DirectoryComparison.constructor | pkg/validate/modification.go:116 | A new comparison has all four lists empty. |
| Modification.DirectoryComparison.Match | pkg/validate/modification.go:27-29 | True iff Modified, Added and Removed are empty. Unchanged is ignored. |
| Modification.DirectoryComparison.Merge | pkg/validate/modification.go:31-36 | Each of the four lists gets the other's list appended. |
| Modification.MergedSpec | pkg/validate/modification.go:31-36 | The list lengths add up and the order is kept. The merge matches iff both parts match. |
| Modification.Walked | pkg/validate/modification.go:127-169 | The upstream walk never records an addition. |
| Modification.WalkedPartition | pkg/validate/modification.go:127-169 | Every regular upstream file lands in exactly one of Removed, Unchanged or Modified, under its update-side path, in the class `Classify` gives. |
| Modification.WalkedCounts | pkg/validate/modification.go:127-169 | The classified paths, as a multiset, are the walked files' update-side paths. |
| Modification.AdditionsSpec | pkg/validate/modification.go:171-182 | Added holds exactly the update-side regular files whose relative path was not visited upstream. |
| Modification.CompareDirectories | pkg/validate/modification.go:114-192 | A missing root, or a walk error, gives an empty comparison and the error. Otherwise the upstream walk classifies and the update walk adds. |
| Modification.SelfComparisonMatches | pkg/validate/modification.go:114-192 | A tree compared with itself matches: nothing is modified, added or removed. |
| Modification.NothingAdded | pkg/validate/modification.go:177 | A file present in both trees is never Added. |
| Modification.ChangedFileIsModified | pkg/validate/modification.go:162-163 | A differing non-.tgz file is Modified. |
| Modification.NewFileIsAdded | pkg/validate/modification.go:177-178 | A file only in the update tree is Added. |
| Modification.NormalizedSpec | pkg/validate/modification.go:211-219 | Every annotation with prefix catalog.cattle.io is dropped and every other one kept. Deprecated becomes false and nothing else changes. Normalizing twice is normalizing once. |
| Modification.NormalizedEqualIff | pkg/validate/modification.go:211-219 | Two charts normalize equal iff they differ only in catalog.cattle.io annotations and Deprecated. |
| Modification.NormalizeChart | pkg/validate/modification.go:211-219 | The deletion loop leaves the metadata `Normalized`. |
| Modification.PrepareTgzForComparison | pkg/validate/modification.go:199-231 | The result is load, normalize and export, or the error of the first step that fails. |
| Modification.MatchHelmCharts | pkg/validate/modification.go:233-252 | A preparation or compare error gives false with the error. Otherwise the result is true iff the exported trees compare without a modified, added or removed file. |
| Modification.AllowListedChangesMatch | pkg/validate/modification.go:199-252 | Archives differing only in allow-listed metadata export to the same tree, and that tree matches itself. |
| Validate.FindDuplicateNames | pkg/validate/duplicatenames.go:22-34 | The loop returns exactly `DuplicateErrors`: one error per later occurrence of a name, pairing the first holder's FullName with its own, in input order. |
| Validate.FirstHolderIsFirst | pkg/validate/duplicatenames.go:25-31 | The name is held by the FullName of its first occurrence, which is never replaced. |
| Validate.FirstHoldersKeys | pkg/validate/duplicatenames.go:24-31 | The map's keys are exactly the package names. |
| Validate.DuplicateErrorsCount | pkg/validate/duplicatenames.go:22-34 | The error count is n minus the number of distinct names. |
| Validate.DuplicateErrorsNone | pkg/validate/duplicatenames.go:22-34 | There are no errors iff the names are pairwise distinct. |
| Validate.UnmarkedReports | pkg/validate/matchnames.go:38-43 | Every unmarked key yields its message. |
| Validate.UnmarkedOnly | pkg/validate/matchnames.go:38-43 | Every message belongs to an unmarked key. |
| Validate.UnmarkedCount | pkg/validate/icons.go:61-66 | One error per distinct unmarked key, in any iteration order. |
| Validate.MatchPackageNames | pkg/validate/matchnames.go:24-46 | The errors are the unindexed packages, in input order, followed by the index names matched by no package. |
| Validate.UnindexedErrorsSpec | pkg/validate/matchnames.go:30-37 | Each package absent from the index yields an error, and no other does. There are none iff all names are indexed. |
| Validate.MatchPackageNamesSpec | pkg/validate/matchnames.go:24-46 | There are no errors iff the package names equal the index keys, with duplicates allowed. The count is unmatched packages plus unmatched names. |
| Validate.ValidateLoadedIcons | pkg/validate/icons.go:39-69 | The errors are the missing icons, in index order, followed by the unreferenced files. The file:// prefix is trimmed once. |
| Validate.MissingIconsSpec | pkg/validate/icons.go:48-54 | Each version whose icon is not an icon file yields one "does not exist" error. |
| Validate.ValidateLoadedIconsSpec | pkg/validate/icons.go:39-69 | There are no errors iff every icon exists and every file is referenced. The count is missing icons plus distinct unreferenced files. |
| Validate.ValidatePackagesDirectory | pkg/validate/packages.go:11-72 | The loops return exactly `PackagesDirectoryErrors`. A glob error at the first two levels is recorded and skipped; at depth 3 it ends the check. |
| Validate.GatherSpec | pkg/validate/packages.go:23-34 | Each entry that fails to stat yields one error, each entry the check rejects yields one error, and nothing else does. |
| Validate.LevelClean | pkg/validate/packages.go:45-68 | A level yields no errors iff its glob succeeds and every entry stats and passes. |
| Validate.PackagesDirectorySpec | pkg/validate/packages.go:11-72 | No errors iff the tree is well formed. That means only directories under packages/ and packages/<vendor>/, and in package directories only an upstream.yaml file and an overlay directory. |
| Config.Validate | pkg/validate/config.go:22-33 | An empty list, an empty branch (checked first) and an empty URL each give their message. The result is nil iff the first entry has both. |
| Config.ValidateReadsOnlyFirst | pkg/validate/config.go:26-31 | Only the first entry is inspected. |
| UpstreamYamlFile.UpstreamYaml.constructor | pkg/upstreamyaml/upstreamyaml.go:107 | A freshly decoded record starts with every field zero. |
| UpstreamYamlFile.UpstreamYaml.SetDefaults | pkg/upstreamyaml/upstreamyaml.go:42-50 | An empty Fetch becomes "latest" and an empty ReleaseName becomes HelmChart. Every other field is kept, and applying it again changes nothing. |
| UpstreamYamlFile.ValidateAcceptsWellConfigured | pkg/upstreamyaml/upstreamyaml.go:52-98 | The first-failure chain accepts exactly the files meeting all the rules (Fetch, TrackVersions, pairs, Git options, some upstream). |
| UpstreamYamlFile.Parse | pkg/upstreamyaml/upstreamyaml.go:100-119 | Defaults come before validation, so an omitted Fetch never trips the Fetch rules. A rule failure is wrapped as "invalid upstream.yaml". |
| Export.StripRootPathDropsRoot | pkg/conform/export.go:205-213 | root/rest strips to rest, and only one occurrence of the root is dropped. |
| Export.StripRootPathSingle | pkg/conform/export.go:207-210 | A single-component path strips to "". |
| Export.StripRootPathAbsolute | pkg/conform/export.go:207-210 | On a path starting with '/' only the slash goes. |
| Export.GunzipGuardDiffers | pkg/conform/export.go:216-218 | The guard as written rejects "chart.gz" and accepts ".gz-notes". |
| Export.GunzipGuardIntendedSpec | pkg/conform/export.go:216-218 | The corrected guard accepts exactly the names ending in .gz or .tgz. |
| Export.OverlayLinkResolves | pkg/conform/export.go:121-128 | The link target, "../" repeated (segments + 1) times then overlay/<file>, resolves from generated-changes/overlay/<dir> to <package>/overlay/<file>. |
| Icons.FirstExisting | pkg/icons/icons.go:19-25 | The result is the first candidate extension whose file exists. None means no candidate exists. |
| Icons.GetDownloadedIconPath | pkg/icons/icons.go:19-28 | It returns assets/icons/<name><ext> for the first existing ext of .png, .jpg, .jpeg, .svg, .ico, and errors iff none exists. |
| Icons.SniffedExtensionTable | pkg/icons/icons.go:80-104 | Only image/jpeg, png, gif and svg+xml map to an extension (.jpg, .png, .gif, .svg). Everything else maps to "". download.go:79-103 uses the same table. |
| Icons.GifIconNeverFound | pkg/icons/icons.go:14 | A .gif icon, which a download can produce, is never found by the probe. |
| Icons.EnsureIconDownloaded | pkg/icons/icons.go:33-65 | An existing icon is returned without a download. Otherwise a get error is wrapped. A URL or sniffed extension and a successful save give assets/icons/<name><ext>. |
| Icons.DownloadedIconIsFound | pkg/icons/icons.go:33-65 | After a successful download with a probed extension, the probe finds an icon. |
| Icons.DownloadFiles | pkg/icons/download.go:15-64 | Exactly the entries whose icon existed or was saved are returned, re-pointed at file://<dir>/<name><ext>. The URL's extension is preferred over sniffing. |
| Fetcher.GitHubUserAndRepo | pkg/fetcher/fetcher.go:142-154 | It errors iff the URL lacks the https://github.com prefix. pkg/upstream/githelm.go:90-102 is the same code. |
| Fetcher.GitHubUserAndRepoOfCloneUrl | pkg/fetcher/fetcher.go:148-152 | https://github.com/u/r.git gives (u, r). |
| Fetcher.GitHubUserAndRepoOfPageUrl | pkg/fetcher/fetcher.go:148-152 | https://github.com/u/r without .git gives (u, r). |
| Fetcher.ValidatedHasSource | pkg/fetcher/fetcher.go:316-325 | Every upstream.yaml that passes validation selects a source. |
| Fetcher.OverrideNames | pkg/fetcher/fetcher.go:327-331 | Every version gets the configured name, and nothing else changes. |
| Fetcher.FetchUpstream | pkg/fetcher/fetcher.go:313-334 | The precedence is ArtifactHub > Helm > Git, with "no valid repo options found" otherwise. The name override applies even when the fetch errors. |
| Fetcher.HttpIndexHasHttpBase | pkg/fetcher/fetcher.go:53-61 | An accepted index URL has an http repository base. |
| Fetcher.AbsoluteChartUrl | pkg/fetcher/fetcher.go:89-94 | A URLs[0] without http becomes base + "/" + url. Everything else is untouched, and over an http base the result starts with http. |
| Fetcher.RewriteChartUrls | pkg/fetcher/fetcher.go:89-94 | The loop rewrites every version by `AbsoluteChartUrl`. |
| Fetcher.FetchUpstreamHelmrepo | pkg/fetcher/fetcher.go:52-99 | A non-http index URL is rejected before any request. Get errors, status >= 300 and a missing chart are errors. The versions come back in the order SortEntries gives them, with the same version strings and absolute URLs. |
| Upstream.FetchUpstream | pkg/upstream/upstream.go:81-105 | The same precedence applies, with "failed to get upstream" otherwise. A fetch error is wrapped and overrides nothing. On success the configured name overrides every version. |
| Upstream.FetchUpstreamHelmRepo | pkg/upstream/httpshelm.go:26-70 | A non-http URL is rejected. There is no status check, and a missing chart is "not found". The entries come in SortEntries order, and relative URLs[0] are rewritten against the repository. |

## Left out

- Network, git, logging and the CLI: HTTP requests, cloning, the GitHub release paging, ArtifactHub and logrus output. Fetched version lists, responses and chart objects are inputs.
- Go's map iteration order: index entries, icon files and annotation maps are enumerated by an order given as input (`Enumerates`). The properties that order could affect are stated as counts and membership.
- GetOverlayFiles walk, loadExistingCharts and writeCharts: overlay files are an input outcome (`Result<map<...>>`) and charts are given objects.
- icons.DownloadIcon, which main.go calls and which is not part of this model, is a function parameter `download`. `GetDownloadedIconPath`'s outcome for a package is taken once per integration.
- The index file: reading and writing `index.yaml` (readIndex, writeIndex, getStoredVersions) are outcomes passed in. The stored versions are a sequence.
- The error text uses plain double quotes for Go's `%q`, so escaping inside names is not modelled. `%w` wrapping is string concatenation.
- Integration.ApplyOverlayFiles: it cannot fail (main.go:729-745 always returns nil), so the error branch at main.go:707-709 is not modelled.
- Integration.EnsureFeaturedAnnotation requires at least one new chart whenever an existing chart is featured. With none, Go indexes `newCharts[-1]` and panics.
- Integration.IntegrateCharts inherits that requirement, and requires that distinct wrappers hold distinct charts (`Separate`, `Disjoint`). Shared chart pointers between wrappers are not modelled.
- Fetcher.GitHubUserAndRepo requires at least three `/`-separated pieces once the prefix matches. Go indexes out of range on `https://github.com` alone. The values returned for a longer path are stated only for the two URL shapes in the lemmas.
- Fetcher.FetchUpstreamHelmrepo and Upstream.FetchUpstreamHelmRepo require every listed version to have a URL, because Go indexes `URLs[0]`.
- Fetcher.FetchUpstreamHelmrepo and Upstream.FetchUpstreamHelmRepo take Helm's `IndexFile.SortEntries` as a parameter `sort`, applied to the chart's list. The Helm library is not part of this model, so its newest-first order is not proved here. Selection.NewestFirstUnderRewrite carries that order over to the fetched list when `sort` provides it.
- Wrapper.FilterVersions and Wrapper.PackageWrapper.Populate require a non-empty fetched version list, because Go reads `upstreamVersions[0]`.
- Wrapper.FilterVersions and Wrapper.PackageWrapper.Populate require that stored versions strip and that tracked strings compare. Go dereferences a nil semver pointer otherwise.
- Selection.CollectNonStoredVersions, Selection.FindStored and Selection.CheckNewerUntracked likewise require the versions they dereference to parse, and the stored versions to strip (the Go code panics on a nil version there).
- Selection is parameterised by the version parser and by the strip function. Wrapper instantiates them with SemVer.Parse and Conform.StripPackageVersion.
- Semver parsing is a lenient model of Masterminds' NewVersion (one to three numeric parts, optional "v", pre-release and build). Its edge cases (leading zeros, the exact character classes) are not modelled.
- SemVer.Parse accepts numeric components of any size. Masterminds rejects components above 2^64-1, and that limit is not modelled. The uint64 wrap of the encoded patch is modelled (Conform.PackagePatch).
- PatchNumMultiplier is computed in Go from a float power of ten. Here it is the constant 100.
- Conform.GeneratePlain, Conform.StripPlain and Conform.StripGenerateRoundTrip are stated for versions without pre-release or build suffix. The split-on-"." rewrite misplaces the patch on dotted suffixes.
- Modification: SHA-256 checksums become content equality, so hash collisions are not modelled. A checksum read error is not modelled either.
- Modification: the walk order and walk errors are inputs, and path.Join cleaning is concatenation. ToSlash and FromSlash are the identity.
- Modification: matchHelmCharts' comparison of .tgz files nested inside the exported charts is a parameter. This avoids unbounded recursion.
- Modification: loading and export are parameters (`load`, `exportChart`), and temp-directory failures are not modelled.
- Modification.AllowListedChangesMatch is stated in one direction only. The converse, that any other difference is detected, depends on the export function's injectivity, which is a parameter here.
- PreventReleasedChartModifications and CloneRepo: the git clone and the driver loop around CompareDirectories are I/O and are not modelled.
- Validate.ValidatePackagesDirectory: filepath.Glob and os.Stat are a parameter (`glob`). filepath.Dir and Base are an entry's `dir` and `base` fields.
- Icons.DownloadFiles: `failedURLs` is only logged, so it is not part of the result. Saving is a parameter.
- UpstreamYamlFile.Parse: reading and decoding the file are one input outcome, whose error message is passed through.
- Export: the mkdir and symlink calls of LinkOverlayFiles and the gzip and tar bodies of Gunzip are I/O. Only the target path and the guard are modelled.
- pkg/parse/parse.go (beyond its options record), pkg/paths/paths.go, pkg/icons/upstreamyaml.go, pkg/validate/validate.go and pkg/upstream/artifacthub.go are not part of this model. They are YAML and file-system plumbing or a network call.

## Findings

| source | as written | input that shows it | evidently intended | confidence | as-written member | corrected member |
|---|---|---|---|---|---|---|
| pkg/conform/export.go:216 | `Gunzip` accepts a path that ends with ".tgz" or *begins* with ".gz" (`strings.HasPrefix`) | "chart.gz" is rejected with "Expecting file of type .gz or .tgz", while ".gz-notes" passes | accept paths ending in ".gz" or ".tgz", as the message says | not executed | Export.GunzipGuardDiffers | Export.GunzipGuardIntendedSpec |
