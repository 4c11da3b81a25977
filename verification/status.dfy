/** `CheckIfInstalled`: whether a version's SDK file set is present in a game's
    plugin folder, either as one boolean (simple mode) or as a per-file
    report (detailed mode). Always recomputed from the filesystem. */
module InstallStatus {

  import opened Paths
  import opened Files
  import opened Catalog

  datatype Status = Simple(installed: bool) | Detailed(report: map<string, bool>)

  /** One SDK file of the set is present under the game's plugin folder. */
  predicate Present(fs: FileSystem, game: Path, file: string) {
    Exists(fs, PluginFile(game, file))
  }

  /** The loop of lines 49-62 over the remaining `files`, with the report
      built so far in `acc`. Simple mode stops at the first missing file. */
  function Scan(fs: FileSystem, game: Path, files: seq<string>, detailed: bool, acc: map<string, bool>): (r: Status)
    ensures r.Detailed? == detailed
    ensures !detailed ==> (r.installed <==> forall f :: f in files ==> Present(fs, game, f))
    ensures detailed ==> r.report.Keys == acc.Keys + (set f | f in files)
    ensures detailed ==> forall f :: f in r.report ==>
      r.report[f] == (if f in files then Present(fs, game, f) else acc[f])
    decreases |files|
  {
    if |files| == 0 then
      if detailed then Detailed(acc) else Simple(true)
    else if Present(fs, game, files[0]) then
      Scan(fs, game, files[1..], detailed, acc[files[0] := true])
    else if !detailed then
      Simple(false)
    else
      Scan(fs, game, files[1..], detailed, acc[files[0] := false])
  }

  /** Lines 38-62. Simple mode: the plugin folder exists and every file of the
      set exists under it. Detailed mode: one entry per file of the set, true
      exactly when the folder and that file exist. */
  function CheckIfInstalled(fs: FileSystem, catalog: Catalog, game: Path, version: Version, detailed: bool): (r: Status)
    ensures r.Detailed? == detailed
    ensures !detailed ==>
      (r.installed <==>
        Exists(fs, PluginDir(game)) && forall f :: f in GetFilesForVersion(catalog, version) ==> Present(fs, game, f))
    ensures detailed ==> r.report.Keys == (set f | f in GetFilesForVersion(catalog, version))
    ensures detailed ==> forall f :: f in r.report ==>
      (r.report[f] <==> Exists(fs, PluginDir(game)) && Present(fs, game, f))
  {
    var files := GetFilesForVersion(catalog, version);
    if !Exists(fs, PluginDir(game)) then
      if !detailed then Simple(false)
      else Detailed(map f | f in files :: false)
    else
      Scan(fs, game, files, detailed, map[])
  }

  /** `CheckIfInstalled(path, version)` with the default `detailed=False`. */
  function IsInstalled(fs: FileSystem, catalog: Catalog, game: Path, version: Version): (r: bool)
    ensures r <==> Exists(fs, PluginDir(game)) && forall f :: f in GetFilesForVersion(catalog, version) ==> Present(fs, game, f)
  {
    CheckIfInstalled(fs, catalog, game, version, false).installed
  }

  /** The detailed report of the same call. */
  function Report(fs: FileSystem, catalog: Catalog, game: Path, version: Version): map<string, bool> {
    CheckIfInstalled(fs, catalog, game, version, true).report
  }

  /** The two modes agree: installed in simple mode exactly when the folder
      exists and every entry of the detailed report is true. */
  lemma SimpleAgreesWithDetailed(fs: FileSystem, catalog: Catalog, game: Path, version: Version)
    ensures IsInstalled(fs, catalog, game, version) <==>
      Exists(fs, PluginDir(game)) &&
      forall f :: f in Report(fs, catalog, game, version) ==> Report(fs, catalog, game, version)[f]
  {
    var files := GetFilesForVersion(catalog, version);
    var report := Report(fs, catalog, game, version);
    if Exists(fs, PluginDir(game)) {
      assert forall f :: f in files ==> f in report;
    }
  }

  /** Without the plugin folder nothing is installed, even for an empty file
      set, and every report entry is false. */
  lemma MissingFolderNothingInstalled(fs: FileSystem, catalog: Catalog, game: Path, version: Version)
    requires !Exists(fs, PluginDir(game))
    ensures !IsInstalled(fs, catalog, game, version)
    ensures forall f :: f in Report(fs, catalog, game, version) ==> !Report(fs, catalog, game, version)[f]
    ensures Report(fs, catalog, game, version).Keys == (set f | f in GetFilesForVersion(catalog, version))
  {
  }

  /** With an empty file set (an unknown version, for one) the report is
      empty and the simple result is whether the folder exists. */
  lemma EmptySetInstalledIffFolder(fs: FileSystem, catalog: Catalog, game: Path, version: Version)
    requires GetFilesForVersion(catalog, version) == []
    ensures IsInstalled(fs, catalog, game, version) <==> Exists(fs, PluginDir(game))
    ensures Report(fs, catalog, game, version) == map[]
  {
  }
}
