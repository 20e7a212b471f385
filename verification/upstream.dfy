/** pkg/upstream: the successor of the fetcher, reading the package options
    of pkg/parse. The dispatch order, the GitHub URL split and the relative
    chart URL rewrite are the fetcher's; what differs is the error handling. */
module Upstream {
  import opened Wrappers
  import opened Strings
  import opened Helm
  import opened Fetcher
  import ParseYaml

  function SourceOf(y: ParseYaml.UpstreamYaml): Option<Source>
  {
    SelectSource(y.ahRepoName, y.ahPackageName, y.helmRepoUrl, y.helmChart, y.gitRepoUrl)
  }

  /** `FetchUpstream`: fetches from the selected source (`fetch` stands for
      the three upstream kinds). A failed fetch is wrapped and yields no
      metadata, so the name override only happens on success. */
  method FetchUpstream(y: ParseYaml.UpstreamYaml, fetch: Source -> Result<ChartSourceMetadata>)
    returns (r: Result<ChartSourceMetadata>)
    ensures SourceOf(y).None? ==> r == Err("failed to get upstream")
    ensures SourceOf(y).Some? && fetch(SourceOf(y).value).Err? ==>
      r == Err("failed to fetch data from upstream: " + fetch(SourceOf(y).value).msg)
    ensures r.Ok? <==> SourceOf(y).Some? && fetch(SourceOf(y).value).Ok?
    ensures r.Ok? ==>
      var m := fetch(SourceOf(y).value).value;
      r.value.commit == m.commit && r.value.source == m.source && r.value.subDirectory == m.subDirectory
      && |r.value.versions| == |m.versions|
      && forall i :: 0 <= i < |m.versions| ==>
           r.value.versions[i] == if y.chartYaml.name != "" then m.versions[i].(name := y.chartYaml.name) else m.versions[i]
  {
    var source := SourceOf(y);
    if source.None? {
      return Err("failed to get upstream");
    }
    var fetched := fetch(source.value);
    if fetched.Err? {
      return Err("failed to fetch data from upstream: " + fetched.msg);
    }
    var meta := fetched.value;
    if y.chartYaml.name != "" {
      var renamed := OverrideNames(meta.versions, y.chartYaml.name);
      meta := meta.(versions := renamed);
    }
    return Ok(meta);
  }

  /** `fetchUpstreamHelmRepo`: as the fetcher's Helm fetch, but without the
      status check and with the request, read and decode errors returned
      as they are. The chart's entries are ordered by `sort`, Helm's
      `IndexFile.SortEntries`, before the rewrite. */
  method FetchUpstreamHelmRepo(y: ParseYaml.UpstreamYaml, get: Result<IndexResponse>,
                               sort: seq<ChartVersion> -> seq<ChartVersion>)
    returns (meta: ChartSourceMetadata, err: Option<string>)
    requires ResponseHasUrls(get, y.helmChart, sort)
    ensures !IsHttpUrl(IndexUrl(y.helmRepoUrl)) ==>
      meta == NoMetadata && err == Some(y.vendor + " (" + y.helmChart + ") invalid URL: " + IndexUrl(y.helmRepoUrl))
    ensures IsHttpUrl(IndexUrl(y.helmRepoUrl)) ==> meta.source == "HelmRepo"
    ensures IsHttpUrl(IndexUrl(y.helmRepoUrl)) && get.Err? ==> err == Some(get.msg)
    ensures err.None? <==>
      IsHttpUrl(IndexUrl(y.helmRepoUrl)) && get.Ok? && get.value.body.Entries?
      && y.helmChart in get.value.body.entries
    ensures err.None? ==>
      var entries := sort(get.value.body.entries[y.helmChart]);
      |meta.versions| == |entries|
      && (forall i :: 0 <= i < |entries| ==> meta.versions[i] == AbsoluteChartUrl(RepoBase(y.helmRepoUrl), entries[i]))
      && (forall i :: 0 <= i < |entries| ==> meta.versions[i].version == entries[i].version)
      && (forall i :: 0 <= i < |entries| ==> HasPrefix(meta.versions[i].urls[0], "http"))
    ensures err.Some? ==> meta.versions == []
  {
    var repo := RepoBase(y.helmRepoUrl);
    var url := repo + "/index.yaml";
    meta := NoMetadata;
    if !IsHttpUrl(url) {
      return meta, Some(y.vendor + " (" + y.helmChart + ") invalid URL: " + url);
    }
    meta := meta.(source := "HelmRepo");
    if get.Err? {
      return meta, Some(get.msg);
    }
    match get.value.body {
      case ReadFailed(msg) =>
        return meta, Some(msg);
      case Undecodable(msg) =>
        return meta, Some(msg);
      case Entries(entries) =>
        if y.helmChart !in entries {
          return meta, Some("Helm chart: " + repo + "/" + y.helmChart + " not found");
        }
        HttpIndexHasHttpBase(y.helmRepoUrl);
        var upstreamVersions := RewriteChartUrls(sort(entries[y.helmChart]), repo);
        meta := meta.(versions := upstreamVersions);
        err := None;
    }
  }
}
