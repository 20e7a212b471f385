/** pkg/upstreamyaml/upstreamyaml.go: a package's upstream.yaml, the
    defaults filled in after decoding and the rules a decoded file must
    satisfy. */
module UpstreamYamlFile {
  import opened Wrappers
  import opened Helm

  /** The messages of the two Fetch rules of `validate`. */
  const FetchNeedsHelmChart := "Fetch is latest but HelmChart is not set"
  const FetchNeedsHelmRepo := "Fetch is latest but HelmRepo is not set"
  const InvalidPrefix := "invalid upstream.yaml: "

  /** The decoded upstream.yaml. `setDefaults` assigns two of its fields in
      place. */
  class UpstreamYaml {
    var artifactHubPackage: string
    var artifactHubRepo: string
    var autoInstall: string
    var chartMetadata: Metadata
    var deprecated: bool
    var displayName: string
    var experimental: bool
    var fetch: string
    var gitBranch: string
    var gitHubRelease: bool
    var gitRepo: string
    var gitSubdirectory: string
    var helmChart: string
    var helmRepo: string
    var hidden: bool
    var namespace: string
    var packageVersion: int
    var trackVersions: seq<string>
    var releaseName: string
    var vendor: string

    /** `&UpstreamYaml{}`: every field at its zero value, as before decoding. */
    constructor ()
      ensures fetch == "" && releaseName == "" && helmChart == "" && helmRepo == ""
      ensures gitRepo == "" && artifactHubPackage == "" && artifactHubRepo == "" && trackVersions == []
    {
      artifactHubPackage := "";
      artifactHubRepo := "";
      autoInstall := "";
      chartMetadata := EmptyMetadata;
      deprecated := false;
      displayName := "";
      experimental := false;
      fetch := "";
      gitBranch := "";
      gitHubRelease := false;
      gitRepo := "";
      gitSubdirectory := "";
      helmChart := "";
      helmRepo := "";
      hidden := false;
      namespace := "";
      packageVersion := 0;
      trackVersions := [];
      releaseName := "";
      vendor := "";
    }

    /** What `setDefaults` establishes: a fetch mode, and a release name
        unless there is no Helm chart to take it from. */
    predicate HasDefaults()
      reads this
    {
      fetch != "" && (releaseName != "" || helmChart == "")
    }

    /** `setDefaults`: an empty Fetch becomes "latest" and an empty
        ReleaseName becomes HelmChart; nothing else changes, and a file that
        already has its defaults is left as it is. */
    method SetDefaults()
      modifies this
      ensures fetch == (if old(fetch) == "" then "latest" else old(fetch))
      ensures releaseName == (if old(releaseName) == "" then old(helmChart) else old(releaseName))
      ensures HasDefaults()
      ensures old(HasDefaults()) ==> fetch == old(fetch) && releaseName == old(releaseName)
      ensures artifactHubPackage == old(artifactHubPackage) && artifactHubRepo == old(artifactHubRepo)
      ensures autoInstall == old(autoInstall) && chartMetadata == old(chartMetadata)
      ensures deprecated == old(deprecated) && displayName == old(displayName)
      ensures experimental == old(experimental) && gitBranch == old(gitBranch)
      ensures gitHubRelease == old(gitHubRelease) && gitRepo == old(gitRepo)
      ensures gitSubdirectory == old(gitSubdirectory) && helmChart == old(helmChart)
      ensures helmRepo == old(helmRepo) && hidden == old(hidden) && namespace == old(namespace)
      ensures packageVersion == old(packageVersion) && trackVersions == old(trackVersions)
      ensures vendor == old(vendor)
    {
      if fetch == "" {
        fetch := "latest";
      }
      if releaseName == "" {
        releaseName := helmChart;
      }
    }

    /** `validate`: the first rule, in source order, that the file breaks. */
    function Validate(): Option<string>
      reads this
    {
      if fetch != "latest" && helmChart == "" then Some(FetchNeedsHelmChart)
      else if fetch != "latest" && helmRepo == "" then Some(FetchNeedsHelmRepo)
      else RestRules()
    }

    /** The rules of `validate` after the two Fetch rules, in source order. */
    function RestRules(): Option<string>
      reads this
    {
      if |trackVersions| != 0 && helmChart == "" then Some("TrackVersions is set but HelmChart is not set")
      else if |trackVersions| != 0 && helmRepo == "" then Some("TrackVersions is set but HelmRepo is not set")
      else if artifactHubPackage != "" && artifactHubRepo == "" then Some("ArtifactHubPackage is set but ArtifactHubRepo is not set")
      else if artifactHubRepo != "" && artifactHubPackage == "" then Some("ArtifactHubRepo is set but ArtifactHubPackage is not set")
      else if gitBranch != "" && gitRepo == "" then Some("GitBranch is set but GitRepo is not set")
      else if gitHubRelease && gitRepo == "" then Some("GitHubRelease is set but GitRepo is not set")
      else if gitSubdirectory != "" && gitRepo == "" then Some("GitSubdirectory is set but GitRepo is not set")
      else if helmChart != "" && helmRepo == "" then Some("HelmChart is set but HelmRepo is not set")
      else if helmRepo != "" && helmChart == "" then Some("HelmRepo is set but HelmChart is not set")
      else if !((artifactHubPackage != "" && artifactHubRepo != "") || gitRepo != "" || (helmRepo != "" && helmChart != "")) then
        Some("must define upstream")
      else None
    }

    /** A file the rules accept, stated field by field: a fetch mode other
        than "latest" or tracked streams need the Helm pair; the ArtifactHub
        pair and the Helm pair are both-or-neither; the Git options need a
        Git repository; and some upstream is given. */
    predicate WellConfigured()
      reads this
    {
      (fetch != "latest" ==> helmChart != "" && helmRepo != "")
      && (|trackVersions| != 0 ==> helmChart != "" && helmRepo != "")
      && ((artifactHubPackage != "") == (artifactHubRepo != ""))
      && (gitBranch != "" ==> gitRepo != "")
      && (gitHubRelease ==> gitRepo != "")
      && (gitSubdirectory != "" ==> gitRepo != "")
      && ((helmChart != "") == (helmRepo != ""))
      && (artifactHubPackage != "" || gitRepo != "" || helmRepo != "")
    }
  }

  /** The rules accept exactly the well-configured files. */
  lemma ValidateAcceptsWellConfigured(y: UpstreamYaml)
    ensures y.Validate().None? <==> y.WellConfigured()
  {
    if y.Validate().None? {
      assert (y.artifactHubPackage != "") == (y.artifactHubRepo != "");
      assert (y.helmChart != "") == (y.helmRepo != "");
    }
  }

  /** `Parse`: the decoded file (or the read or decode error) gets its
      defaults and is then validated; a rule violation is wrapped as
      "invalid upstream.yaml: ...". Because defaults come first, a file that
      omits Fetch never trips the Fetch rules. */
  method Parse(decoded: Result<UpstreamYaml>) returns (r: Result<UpstreamYaml>)
    modifies if decoded.Ok? then {decoded.value} else {}
    ensures decoded.Err? ==> r == Err(decoded.msg)
    ensures decoded.Ok? ==> decoded.value.HasDefaults()
    ensures decoded.Ok? ==> decoded.value.fetch == (if old(decoded.value.fetch) == "" then "latest" else old(decoded.value.fetch))
    ensures decoded.Ok? ==> decoded.value.releaseName == (if old(decoded.value.releaseName) == "" then old(decoded.value.helmChart) else old(decoded.value.releaseName))
    ensures decoded.Ok? ==> (r.Ok? <==> decoded.value.WellConfigured())
    ensures decoded.Ok? && r.Ok? ==> r.value == decoded.value
    ensures decoded.Ok? && r.Err? ==> decoded.value.Validate().Some? && r.msg == InvalidPrefix + decoded.value.Validate().value
    ensures decoded.Ok? && old(decoded.value.fetch) == "" ==> decoded.value.Validate() == decoded.value.RestRules()
  {
    if decoded.Err? {
      return Err(decoded.msg);
    }
    var upstreamYaml := decoded.value;
    upstreamYaml.SetDefaults();
    var err := upstreamYaml.Validate();
    ValidateAcceptsWellConfigured(upstreamYaml);
    if err.Some? {
      return Err(InvalidPrefix + err.value);
    }
    return Ok(upstreamYaml);
  }
}
