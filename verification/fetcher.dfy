/** pkg/fetcher/fetcher.go: where a package's upstream charts come from.
    The HTTP requests, the GitHub API and git are not modelled: what they
    return is a parameter. */
module Fetcher {
  import opened Wrappers
  import opened Strings
  import opened Helm
  import UpstreamYamlFile

  /** What a fetch yields: the commit and sub-directory for git sources,
      the kind of source, and the upstream versions, newest first. */
  datatype ChartSourceMetadata = ChartSourceMetadata(commit: string, source: string, subDirectory: string, versions: seq<ChartVersion>)

  const NoMetadata := ChartSourceMetadata("", "", "", [])

  // ---- GitHub URLs ----

  const GitHubPrefix := "https://github.com"

  /** The '/'-pieces of a git URL after dropping "https://" and one ".git". */
  function GitHubPath(gitUrl: string): seq<string>
  {
    Split(TrimSuffix(TrimPrefix(gitUrl, "https://"), ".git"), '/')
  }

  /** `getGitHubUserAndRepo`: the second and third pieces of a GitHub URL.
      A URL with fewer pieces makes the source index out of range, so it
      is excluded. */
  function GitHubUserAndRepo(gitUrl: string): (r: Result<(string, string)>)
    requires HasPrefix(gitUrl, GitHubPrefix) ==> |GitHubPath(gitUrl)| >= 3
    ensures r.Err? <==> !HasPrefix(gitUrl, GitHubPrefix)
    ensures r.Err? ==> r.msg == gitUrl + " is not a GitHub URL"
  {
    if !HasPrefix(gitUrl, GitHubPrefix) then Err(gitUrl + " is not a GitHub URL")
    else
      var split := GitHubPath(gitUrl);
      Ok((split[1], split[2]))
  }

  /** The pieces of "github.com/user/repo". */
  lemma GitHubPathPieces(user: string, repo: string)
    requires '/' !in user && '/' !in repo
    ensures Split("github.com/" + user + "/" + repo, '/') == ["github.com", user, repo]
  {
    var rest := user + ['/'] + repo;
    assert "github.com/" + user + "/" + repo == "github.com" + ['/'] + rest;
    SplitCons("github.com", '/', rest);
    SplitCons(user, '/', repo);
    SplitNoSeparator(repo, '/');
  }

  /** A clone URL ending in ".git" yields its user and repository. */
  lemma GitHubUserAndRepoOfCloneUrl(user: string, repo: string)
    requires '/' !in user && '/' !in repo
    ensures HasPrefix(GitHubPrefix + "/" + user + "/" + repo + ".git", GitHubPrefix)
    ensures |GitHubPath(GitHubPrefix + "/" + user + "/" + repo + ".git")| >= 3
    ensures GitHubUserAndRepo(GitHubPrefix + "/" + user + "/" + repo + ".git") == Ok((user, repo))
  {
    var base := "github.com/" + user + "/" + repo;
    var url := GitHubPrefix + "/" + user + "/" + repo + ".git";
    assert url == "https://" + (base + ".git");
    assert url[..|GitHubPrefix|] == GitHubPrefix;
    TrimPrefixOf("https://", base + ".git");
    TrimSuffixOf(base, ".git");
    GitHubPathPieces(user, repo);
  }

  /** A URL without ".git" yields its user and repository too, provided the
      repository name does not itself end in ".git". */
  lemma GitHubUserAndRepoOfPageUrl(user: string, repo: string)
    requires '/' !in user && '/' !in repo
    requires |repo| >= 4 && !HasSuffix(repo, ".git")
    ensures HasPrefix(GitHubPrefix + "/" + user + "/" + repo, GitHubPrefix)
    ensures |GitHubPath(GitHubPrefix + "/" + user + "/" + repo)| >= 3
    ensures GitHubUserAndRepo(GitHubPrefix + "/" + user + "/" + repo) == Ok((user, repo))
  {
    var base := "github.com/" + user + "/" + repo;
    var url := GitHubPrefix + "/" + user + "/" + repo;
    assert url == "https://" + base;
    assert url[..|GitHubPrefix|] == GitHubPrefix;
    TrimPrefixOf("https://", base);
    assert base[|base| - 4..] == repo[|repo| - 4..];
    GitHubPathPieces(user, repo);
  }

  // ---- Dispatch ----

  /** The three kinds of upstream. */
  datatype Source = ArtifactHub | HelmRepo | Git

  /** The dispatch order: an ArtifactHub pair, then a Helm pair, then a git
      repository. */
  function SelectSource(ahRepo: string, ahPackage: string, helmRepo: string, helmChart: string, gitRepo: string): Option<Source>
  {
    if ahRepo != "" && ahPackage != "" then Some(ArtifactHub)
    else if helmRepo != "" && helmChart != "" then Some(HelmRepo)
    else if gitRepo != "" then Some(Git)
    else None
  }

  function SourceOf(y: UpstreamYamlFile.UpstreamYaml): Option<Source>
    reads y
  {
    SelectSource(y.artifactHubRepo, y.artifactHubPackage, y.helmRepo, y.helmChart, y.gitRepo)
  }

  /** Every upstream.yaml that passes validation names a source to fetch
      from. */
  lemma ValidatedHasSource(y: UpstreamYamlFile.UpstreamYaml)
    requires y.Validate().None?
    ensures SourceOf(y).Some?
    ensures SourceOf(y) == Some(Git) ==> y.helmRepo == "" && y.artifactHubRepo == ""
  {
    UpstreamYamlFile.ValidateAcceptsWellConfigured(y);
  }

  /** The name override loop: every version gets `name`; nothing else
      about it changes. */
  method OverrideNames(versions: seq<ChartVersion>, name: string) returns (renamed: seq<ChartVersion>)
    ensures |renamed| == |versions|
    ensures forall i :: 0 <= i < |versions| ==> renamed[i] == versions[i].(name := name)
  {
    renamed := versions;
    var i := 0;
    while i < |renamed|
      invariant 0 <= i <= |renamed| == |versions|
      invariant forall j :: 0 <= j < i ==> renamed[j] == versions[j].(name := name)
      invariant forall j :: i <= j < |renamed| ==> renamed[j] == versions[j]
    {
      renamed := renamed[i := renamed[i].(name := name)];
      i := i + 1;
    }
  }

  const NoRepoOptions := "no valid repo options found"

  /** `meta` with every version renamed to `name`; unchanged when `name` is
      empty. */
  function WithName(meta: ChartSourceMetadata, name: string): ChartSourceMetadata
  {
    if name == "" then meta
    else meta.(versions := seq(|meta.versions|, i requires 0 <= i < |meta.versions| => meta.versions[i].(name := name)))
  }

  /** `FetchUpstream`: fetches from the selected source (`fetch` stands for
      the three fetchers) and, when the options carry a chart name, gives it
      to every version, even when the fetch failed. */
  method FetchUpstream(y: UpstreamYamlFile.UpstreamYaml, fetch: Source -> (ChartSourceMetadata, Option<string>))
    returns (meta: ChartSourceMetadata, err: Option<string>)
    ensures SourceOf(y).None? ==> meta == NoMetadata && err == Some(NoRepoOptions)
    ensures SourceOf(y).Some? ==> err == fetch(SourceOf(y).value).1
    ensures SourceOf(y).Some? ==>
      var m := fetch(SourceOf(y).value).0;
      meta.commit == m.commit && meta.source == m.source && meta.subDirectory == m.subDirectory
      && |meta.versions| == |m.versions|
      && forall i :: 0 <= i < |m.versions| ==>
           meta.versions[i] == if y.chartMetadata.name != "" then m.versions[i].(name := y.chartMetadata.name) else m.versions[i]
    ensures SourceOf(y).Some? ==> meta == WithName(fetch(SourceOf(y).value).0, y.chartMetadata.name)
  {
    var source := SourceOf(y);
    if source.None? {
      return NoMetadata, Some(NoRepoOptions);
    }
    meta, err := fetch(source.value).0, fetch(source.value).1;
    if y.chartMetadata.name != "" {
      var renamed := OverrideNames(meta.versions, y.chartMetadata.name);
      meta := meta.(versions := renamed);
    }
  }

  // ---- Helm repository index ----

  /** The repository URL without one trailing '/'. */
  function RepoBase(helmRepo: string): string
  {
    TrimSuffix(helmRepo, "/")
  }

  function IndexUrl(helmRepo: string): string
  {
    RepoBase(helmRepo) + "/index.yaml"
  }

  /** The `^https?://` check. */
  predicate IsHttpUrl(url: string)
  {
    HasPrefix(url, "http://") || HasPrefix(url, "https://")
  }

  /** An index URL that passes the check comes from a base that starts
      with "http". */
  lemma HttpIndexHasHttpBase(helmRepo: string)
    requires IsHttpUrl(IndexUrl(helmRepo))
    ensures HasPrefix(RepoBase(helmRepo), "http")
  {
    var base, url := RepoBase(helmRepo), IndexUrl(helmRepo);
    ShortBaseIsNotHttp(base);
    assert url[..4] == base[..4];
  }

  /** A base shorter than "http" leaves a '/' among the first four
      characters of its index URL. */
  lemma ShortBaseIsNotHttp(base: string)
    ensures |base| < 4 ==> !HasPrefix(base + "/index.yaml", "http")
  {
    if |base| < 4 {
      var url := base + "/index.yaml";
      assert url[|base|] == '/';
    }
  }

  /** The rewrite of a relative chart URL: one that does not start with
      "http" is put under the repository base. */
  function AbsoluteChartUrl(base: string, cv: ChartVersion): (r: ChartVersion)
    requires |cv.urls| > 0
    ensures r.name == cv.name && r.version == cv.version && r.icon == cv.icon
    ensures |r.urls| == |cv.urls| && r.urls[1..] == cv.urls[1..]
    ensures HasPrefix(cv.urls[0], "http") ==> r == cv
    ensures !HasPrefix(cv.urls[0], "http") ==> r.urls[0] == base + "/" + cv.urls[0]
    ensures HasPrefix(base, "http") ==> HasPrefix(r.urls[0], "http")
  {
    if HasPrefix(cv.urls[0], "http") then cv
    else
      var url := base + "/" + cv.urls[0];
      assert HasPrefix(base, "http") ==> HasPrefix(url, "http") by {
        if HasPrefix(base, "http") {
          assert url[..4] == base[..4];
        }
      }
      cv.(urls := cv.urls[0 := url])
  }

  predicate AllHaveUrls(versions: seq<ChartVersion>)
  {
    forall i :: 0 <= i < |versions| ==> |versions[i].urls| > 0
  }

  /** The rewrite loop over the chart's index entries, in place. */
  method RewriteChartUrls(versions: seq<ChartVersion>, base: string) returns (rewritten: seq<ChartVersion>)
    requires AllHaveUrls(versions)
    ensures |rewritten| == |versions|
    ensures forall i :: 0 <= i < |versions| ==> rewritten[i] == AbsoluteChartUrl(base, versions[i])
  {
    rewritten := versions;
    var i := 0;
    while i < |rewritten|
      invariant 0 <= i <= |rewritten| == |versions|
      invariant forall j :: 0 <= j < i ==> rewritten[j] == AbsoluteChartUrl(base, versions[j])
      invariant forall j :: i <= j < |rewritten| ==> rewritten[j] == versions[j]
    {
      var chartUrl := rewritten[i].urls[0];
      if !HasPrefix(chartUrl, "http") {
        rewritten := rewritten[i := rewritten[i].(urls := rewritten[i].urls[0 := base + "/" + chartUrl])];
      }
      i := i + 1;
    }
  }

  /** The body of the index response: unreadable, undecodable, or the
      index's entries by chart name, in the order the response lists them. */
  datatype IndexBody = ReadFailed(msg: string) | Undecodable(msg: string) | Entries(entries: map<string, seq<ChartVersion>>)

  /** An HTTP response to the index request. */
  datatype IndexResponse = IndexResponse(statusCode: int, status: string, body: IndexBody)

  /** The entries the fetch rewrites, once sorted, must all carry a chart
      URL. */
  predicate ResponseHasUrls(get: Result<IndexResponse>, helmChart: string, sort: seq<ChartVersion> -> seq<ChartVersion>)
  {
    get.Ok? && get.value.body.Entries? && helmChart in get.value.body.entries ==>
      AllHaveUrls(sort(get.value.body.entries[helmChart]))
  }

  /** `fetchUpstreamHelmrepo`: one trailing '/' is dropped from the
      repository, the index at "<repo>/index.yaml" is requested (`get` is
      the response, or the request error), and the chart's entries come back
      in the order `sort` gives them, with relative chart URLs made
      absolute. A URL that is not http(s), a failed request, a status of 300
      or more, an unreadable or undecodable body and a missing chart are
      errors. `sort` is Helm's `IndexFile.SortEntries` on one chart's list
      (newest first by semantic version); the Helm library is not part of
      this model. */
  method FetchUpstreamHelmrepo(helmRepo: string, helmChart: string, vendor: string, get: Result<IndexResponse>,
                               sort: seq<ChartVersion> -> seq<ChartVersion>)
    returns (meta: ChartSourceMetadata, err: Option<string>)
    requires ResponseHasUrls(get, helmChart, sort)
    ensures !IsHttpUrl(IndexUrl(helmRepo)) ==>
      meta == NoMetadata && err == Some(vendor + " (" + helmChart + ") invalid URL: " + IndexUrl(helmRepo))
    ensures IsHttpUrl(IndexUrl(helmRepo)) ==> meta.source == "HelmRepo"
    ensures IsHttpUrl(IndexUrl(helmRepo)) && get.Err? ==>
      err == Some("request to " + IndexUrl(helmRepo) + " failed: " + get.msg)
    ensures IsHttpUrl(IndexUrl(helmRepo)) && get.Ok? && get.value.statusCode >= 300 ==>
      err == Some("request to " + IndexUrl(helmRepo) + " returned response \"" + get.value.status + "\"")
    ensures err.None? <==>
      IsHttpUrl(IndexUrl(helmRepo)) && get.Ok? && get.value.statusCode < 300
      && get.value.body.Entries? && helmChart in get.value.body.entries
    ensures err.None? ==>
      var entries := sort(get.value.body.entries[helmChart]);
      |meta.versions| == |entries|
      && (forall i :: 0 <= i < |entries| ==> meta.versions[i] == AbsoluteChartUrl(RepoBase(helmRepo), entries[i]))
      && (forall i :: 0 <= i < |entries| ==> meta.versions[i].version == entries[i].version)
      && (forall i :: 0 <= i < |entries| ==> HasPrefix(meta.versions[i].urls[0], "http"))
    ensures err.Some? ==> meta.versions == []
  {
    var repo := RepoBase(helmRepo);
    var url := repo + "/index.yaml";
    meta := NoMetadata;
    if !IsHttpUrl(url) {
      return meta, Some(vendor + " (" + helmChart + ") invalid URL: " + url);
    }
    meta := meta.(source := "HelmRepo");
    if get.Err? {
      return meta, Some("request to " + url + " failed: " + get.msg);
    }
    var resp := get.value;
    if resp.statusCode >= 300 {
      return meta, Some("request to " + url + " returned response \"" + resp.status + "\"");
    }
    match resp.body {
      case ReadFailed(msg) =>
        return meta, Some("failed to read response body: " + msg);
      case Undecodable(msg) =>
        return meta, Some("failed to unmarshal response body: " + msg);
      case Entries(entries) =>
        if helmChart !in entries {
          return meta, Some("Helm chart: " + repo + "/" + helmChart + " not found");
        }
        HttpIndexHasHttpBase(helmRepo);
        var upstreamVersions := RewriteChartUrls(sort(entries[helmChart]), repo);
        meta := meta.(versions := upstreamVersions);
        err := None;
    }
  }
}
