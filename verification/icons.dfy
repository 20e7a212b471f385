/** pkg/icons: where a package's downloaded icon lives and how the file
    extension and path of a new icon are chosen. The filesystem is an
    existence predicate (or a set of existing paths), an HTTP response is
    its error or the content type sniffed from its body, and writing a
    file is an outcome passed in. */
module Icons {
  import opened Wrappers
  import opened Strings

  /** The extensions probed for an already downloaded icon, in order. */
  const ValidExtensions: seq<string> := [".png", ".jpg", ".jpeg", ".svg", ".ico"]

  const IconsDir := "assets/icons/"

  function IconPath(name: string, ext: string): string
  {
    IconsDir + name + ext
  }

  /** The icon path for the first of `exts` whose file exists. */
  function FirstExisting(present: string -> bool, name: string, exts: seq<string>): (r: Option<string>)
    ensures r.Some? <==> exists i :: 0 <= i < |exts| && present(IconPath(name, exts[i]))
    ensures r.Some? ==>
      exists i :: 0 <= i < |exts| && r.value == IconPath(name, exts[i]) && present(r.value)
        && forall j :: 0 <= j < i ==> !present(IconPath(name, exts[j]))
  {
    if |exts| == 0 then None
    else if present(IconPath(name, exts[0])) then Some(IconPath(name, exts[0]))
    else
      var r := FirstExisting(present, name, exts[1..]);
      assert forall i :: 1 <= i < |exts| ==> exts[i] == exts[1..][i - 1];
      r
  }

  /** `GetDownloadedIconPath`: the first existing `assets/icons/<name><ext>`
      in probe order, or an error when there is none. */
  function GetDownloadedIconPath(present: string -> bool, name: string): (r: Result<string>)
    ensures r.Ok? <==> exists i :: 0 <= i < |ValidExtensions| && present(IconPath(name, ValidExtensions[i]))
    ensures r.Ok? ==>
      exists i :: 0 <= i < |ValidExtensions| && r.value == IconPath(name, ValidExtensions[i]) && present(r.value)
        && forall j :: 0 <= j < i ==> !present(IconPath(name, ValidExtensions[j]))
    ensures r.Err? ==> r.msg == "no icon found for package \"" + name + "\""
  {
    match FirstExisting(present, name, ValidExtensions)
    case Some(p) => Ok(p)
    case None => Err("no icon found for package \"" + name + "\"")
  }

  /** The extension of a sniffed content type: the four image types the
      repository knows, and "" for every other type. */
  function MimeExtension(mime: string): string
  {
    if mime == "image/jpeg" then ".jpg"
    else if mime == "image/png" then ".png"
    else if mime == "image/gif" then ".gif"
    else if mime == "image/svg+xml" then ".svg"
    else ""
  }

  /** `getExtension` and `detectMIMEType`: `sniffed` is the content type
      detected from the first 512 bytes of the body, `None` when reading
      them fails. */
  function SniffedExtension(sniffed: Option<string>): string
  {
    if sniffed.None? then "" else MimeExtension(sniffed.value)
  }

  /** The table: exactly the four image types get an extension, and it is
      one of four. */
  lemma SniffedExtensionTable(sniffed: Option<string>)
    ensures SniffedExtension(sniffed) != "" <==>
      sniffed.Some? && sniffed.value in {"image/jpeg", "image/png", "image/gif", "image/svg+xml"}
    ensures SniffedExtension(sniffed) in {"", ".jpg", ".png", ".gif", ".svg"}
    ensures sniffed == Some("image/gif") ==> SniffedExtension(sniffed) == ".gif"
  {
  }

  /** ".gif" can be produced by sniffing but is not probed: a package
      whose only icon is a .gif has no downloaded icon. */
  lemma GifIconNeverFound(present: string -> bool, name: string)
    requires forall p :: present(p) <==> p == IconPath(name, ".gif")
    ensures GetDownloadedIconPath(present, name).Err?
  {
    forall i | 0 <= i < |ValidExtensions|
      ensures !present(IconPath(name, ValidExtensions[i]))
    {
      var e := ValidExtensions[i];
      var p, g := IconPath(name, e), IconPath(name, ".gif");
      if |p| == |g| {
        assert p[|p| - 1] == e[|e| - 1];
        assert g[|g| - 1] == 'f';
      }
    }
  }

  /** The extension a download uses: the URL's own, or else the sniffed one. */
  function DownloadExtension(iconUrl: string, sniffed: Option<string>): string
  {
    if Ext(iconUrl) != "" then Ext(iconUrl) else SniffedExtension(sniffed)
  }

  /** The outcome of creating the icon file and copying the body into it. */
  datatype SaveOutcome = Saved | CreateFailed(msg: string) | CopyFailed(msg: string)

  /** `EnsureIconDownloaded`: an icon already downloaded is returned without
      a request; otherwise the body of `get` (the GET of `iconUrl`) is saved
      under the URL's extension or the sniffed one. An unknown extension
      wraps a nil error, which formats as "%!w(<nil>)". */
  function EnsureIconDownloaded(present: string -> bool, iconUrl: string, name: string,
                                get: Result<Option<string>>, save: SaveOutcome): (r: Result<string>)
    ensures GetDownloadedIconPath(present, name).Ok? ==> r == GetDownloadedIconPath(present, name)
    ensures GetDownloadedIconPath(present, name).Err? && get.Err? ==>
      r == Err("failed to http get \"" + iconUrl + "\": " + get.msg)
    ensures GetDownloadedIconPath(present, name).Err? && get.Ok? ==>
      (r.Ok? <==> DownloadExtension(iconUrl, get.value) != "" && save.Saved?)
    ensures GetDownloadedIconPath(present, name).Err? && r.Ok? ==>
      r.value == IconPath(name, DownloadExtension(iconUrl, get.value))
  {
    match GetDownloadedIconPath(present, name)
    case Ok(p) => Ok(p)
    case Err(_) =>
      if get.Err? then Err("failed to http get \"" + iconUrl + "\": " + get.msg)
      else
        var ext := DownloadExtension(iconUrl, get.value);
        if ext == "" then Err("failed to get file extension: %!w(<nil>)")
        else
          var localIconPath := IconPath(name, ext);
          match save
          case CreateFailed(msg) => Err("failed to create local icon file \"" + localIconPath + "\": " + msg)
          case CopyFailed(msg) => Err("failed to copy response to dest file: " + msg)
          case Saved => Ok(localIconPath)
  }

  /** Once an icon with a probed extension has been downloaded, the next
      lookup finds an icon for the package. */
  lemma DownloadedIconIsFound(present: string -> bool, iconUrl: string, name: string,
                              get: Result<Option<string>>, save: SaveOutcome, after: string -> bool)
    requires EnsureIconDownloaded(present, iconUrl, name, get, save).Ok?
    requires forall p :: present(p) ==> after(p)
    requires after(EnsureIconDownloaded(present, iconUrl, name, get, save).value)
    requires GetDownloadedIconPath(present, name).Err? ==> DownloadExtension(iconUrl, get.value) in ValidExtensions
    ensures GetDownloadedIconPath(after, name).Ok?
  {
    var r := EnsureIconDownloaded(present, iconUrl, name, get, save);
    if GetDownloadedIconPath(present, name).Ok? {
      var i :| 0 <= i < |ValidExtensions| && present(IconPath(name, ValidExtensions[i]));
      assert after(IconPath(name, ValidExtensions[i]));
    } else {
      var e := DownloadExtension(iconUrl, get.value);
      var i :| 0 <= i < |ValidExtensions| && ValidExtensions[i] == e;
      assert after(IconPath(name, ValidExtensions[i]));
    }
  }

  // ---- Downloading the icons of index.yaml ----

  /** A package's icon entry: the chart name, the package path and the
      icon URL (after downloading, the local `file://` path). */
  datatype PackageIcon = PackageIcon(name: string, path: string, icon: string)

  /** Where `DownloadFiles` saves the icon of `e` with extension `ext`. */
  function TargetPath(downloadDir: string, e: PackageIcon, ext: string): string
  {
    downloadDir + "/" + e.name + ext
  }

  /** Whether the icon of `e` gets an extension: the GET succeeds and the URL
      or the sniffed content type gives one. */
  predicate HasExtension(e: PackageIcon, get: string -> Result<Option<string>>)
  {
    get(e.icon).Ok? && DownloadExtension(e.icon, get(e.icon).value) != ""
  }

  function TargetOf(downloadDir: string, e: PackageIcon, get: string -> Result<Option<string>>): string
    requires HasExtension(e, get)
  {
    TargetPath(downloadDir, e, DownloadExtension(e.icon, get(e.icon).value))
  }

  /** Whether `DownloadFiles` keeps the entry: its file already exists or is
      saved. */
  predicate Downloads(downloadDir: string, e: PackageIcon, present: set<string>,
                      get: string -> Result<Option<string>>, save: string -> bool)
  {
    HasExtension(e, get) && (TargetOf(downloadDir, e, get) in present || save(TargetOf(downloadDir, e, get)))
  }

  /** `DownloadFiles`: visits the entries in an unspecified order and keeps
      those whose icon exists or could be saved, pointing them at the local
      file. `present` holds the files that exist beforehand and `save`
      whether writing a path succeeds. */
  method DownloadFiles(entries: map<string, PackageIcon>, downloadDir: string, present: set<string>,
                       get: string -> Result<Option<string>>, save: string -> bool)
    returns (downloaded: map<string, PackageIcon>)
    ensures downloaded.Keys <= entries.Keys
    ensures forall k :: k in entries ==> (k in downloaded <==> Downloads(downloadDir, entries[k], present, get, save))
    ensures forall k :: k in downloaded ==>
      HasExtension(entries[k], get) &&
      downloaded[k] == PackageIcon(entries[k].name, entries[k].path, "file://" + TargetOf(downloadDir, entries[k], get))
  {
    downloaded := map[];
    var onDisk := present;
    var todo := entries.Keys;
    while todo != {}
      invariant todo <= entries.Keys
      invariant downloaded.Keys <= entries.Keys - todo
      invariant present <= onDisk
      invariant forall p :: p in onDisk ==> p in present || save(p)
      invariant forall k :: k in entries && k !in todo ==> (k in downloaded <==> Downloads(downloadDir, entries[k], present, get, save))
      invariant forall k :: k in downloaded ==>
        HasExtension(entries[k], get) &&
        downloaded[k] == PackageIcon(entries[k].name, entries[k].path, "file://" + TargetOf(downloadDir, entries[k], get))
      decreases |todo|
    {
      var key :| key in todo;
      todo := todo - {key};
      var value := entries[key];
      var url := value.icon;
      var ext := Ext(url);
      var resp := get(url);
      if resp.Err? {
        continue;
      }
      if ext == "" {
        ext := SniffedExtension(resp.value);
        if ext == "" {
          continue;
        }
      }
      var filePath := downloadDir + "/" + value.name + ext;
      assert filePath == TargetOf(downloadDir, value, get);
      if filePath in onDisk {
        downloaded := downloaded[key := PackageIcon(value.name, value.path, "file://" + filePath)];
        continue;
      }
      if !save(filePath) {
        continue;
      }
      onDisk := onDisk + {filePath};
      downloaded := downloaded[key := PackageIcon(value.name, value.path, "file://" + filePath)];
    }
  }
}
