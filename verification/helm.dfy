/** The Helm records the repository manipulates: chart metadata
    (Chart.yaml), chart files, index entries, and the chart object that the
    integration steps edit in place. */
module Helm {
  import opened Wrappers

  newtype byte = x: int | 0 <= x < 256
  type Bytes = seq<byte>

  datatype Maintainer = Maintainer(name: string, email: string, url: string)

  datatype Dependency = Dependency(name: string, version: string, repository: string, condition: string)

  /** chart.Metadata. A nil annotation map is `None`; the list fields are
      plain sequences because appending to a nil or an empty list gives the
      same contents. */
  datatype Metadata = Metadata(
    name: string,
    home: string,
    sources: seq<string>,
    version: string,
    description: string,
    keywords: seq<string>,
    maintainers: seq<Maintainer>,
    icon: string,
    apiVersion: string,
    condition: string,
    tags: string,
    appVersion: string,
    deprecated: bool,
    annotations: Option<map<string, string>>,
    kubeVersion: string,
    dependencies: seq<Dependency>,
    chartType: string)

  /** The metadata with every field at its zero value. */
  const EmptyMetadata := Metadata("", "", [], "", "", [], [], "", "", "", "", "", false, None, "", [], "")

  /** The annotations a lookup sees: reading a nil map finds nothing. */
  function Annotations(m: Metadata): map<string, string>
  {
    if m.annotations.None? then map[] else m.annotations.value
  }

  /** chart.File: a path relative to the chart root and its contents. */
  datatype ChartFile = ChartFile(name: string, data: Bytes)

  /** repo.ChartVersion, an entry of index.yaml, reduced to the fields the
      modelled rules read or write. */
  datatype ChartVersion = ChartVersion(name: string, version: string, icon: string, urls: seq<string>)

  /** chart.Chart: the metadata and the files that the integration steps
      edit in place. */
  class Chart {
    var metadata: Metadata
    var files: seq<ChartFile>

    constructor (metadata: Metadata, files: seq<ChartFile>)
      ensures this.metadata == metadata && this.files == files
    {
      this.metadata := metadata;
      this.files := files;
    }
  }
}
