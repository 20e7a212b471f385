/** The package options record of pkg/parse/parse.go (its own
    `UpstreamYaml`), as main.go and pkg/upstream read it. Reading and
    decoding the file are not part of this model. */
module ParseYaml {
  import opened Helm

  datatype UpstreamYaml = UpstreamYaml(
    ahPackageName: string,
    ahRepoName: string,
    autoInstall: string,
    chartYaml: Metadata,
    displayName: string,
    experimental: bool,
    fetch: string,
    gitBranch: string,
    gitHubRelease: bool,
    gitRepoUrl: string,
    gitSubDirectory: string,
    helmChart: string,
    helmRepoUrl: string,
    hidden: bool,
    namespace: string,
    packageVersion: int,
    remoteDependencies: bool,
    trackVersions: seq<string>,
    releaseName: string,
    vendor: string)
}
