/** pkg/validate/config.go: the validation section of configuration.yaml. */
module Config {
  import opened Wrappers

  /** One upstream repository to validate against. */
  datatype ValidateUpstream = ValidateUpstream(url: string, branch: string)

  datatype ConfigurationYaml = ConfigurationYaml(validateUpstreams: seq<ValidateUpstream>)

  /** `ConfigurationYaml.Validate`: only the first entry is inspected, its
      branch before its URL. `None` is success. */
  function Validate(c: ConfigurationYaml): (r: Option<string>)
    ensures |c.validateUpstreams| == 0 ==> r == Some("must provide validation configuration")
    ensures |c.validateUpstreams| > 0 && c.validateUpstreams[0].branch == "" ==>
      r == Some("must provide branch in validation configuration")
    ensures |c.validateUpstreams| > 0 && c.validateUpstreams[0].branch != "" && c.validateUpstreams[0].url == "" ==>
      r == Some("must provide URL in validation configuration")
    ensures r.None? <==> |c.validateUpstreams| > 0 && c.validateUpstreams[0].branch != "" && c.validateUpstreams[0].url != ""
  {
    if |c.validateUpstreams| == 0 then Some("must provide validation configuration")
    else if c.validateUpstreams[0].branch == "" then Some("must provide branch in validation configuration")
    else if c.validateUpstreams[0].url == "" then Some("must provide URL in validation configuration")
    else None
  }

  /** Entries after the first never change the verdict. */
  lemma ValidateReadsOnlyFirst(c: ConfigurationYaml, rest: seq<ValidateUpstream>)
    requires |c.validateUpstreams| > 0
    ensures Validate(ConfigurationYaml([c.validateUpstreams[0]] + rest)) == Validate(c)
  {
  }
}
