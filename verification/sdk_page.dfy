/** The SDK settings page: the two parallel lists of discovered games and
    their detected versions, the install and uninstall actions, adding a game
    by hand, the onboarding gate, and the per-game status the page shows. */
module SdkPage {

  import opened Common
  import opened Paths
  import opened Files
  import opened Catalog
  import opened InstallStatus

  /** What version detection reports for a directory it cannot classify. */
  const UnknownVersion: Version := "Unknown"

  /** `games` and `game_versions`: index `i` of one belongs to index `i` of the other. */
  datatype Games = Games(paths: seq<Path>, versions: seq<Version>)

  predicate Aligned(g: Games) {
    |g.paths| == |g.versions|
  }

  /** `game_versions[games.index(game)]`: the version recorded with the first
      occurrence of `game`. */
  function VersionOf(g: Games, game: Path): (v: Version)
    requires Aligned(g) && game in g.paths
    ensures forall i :: 0 <= i < |g.paths| && g.paths[i] == game && (forall k :: 0 <= k < i ==> g.paths[k] != game) ==>
      v == g.versions[i]
  {
    var i := IndexOf(g.paths, game);
    assert forall j :: 0 <= j < |g.paths| && g.paths[j] == game && (forall k :: 0 <= k < j ==> g.paths[k] != game) ==> j == i by {
      forall j | 0 <= j < |g.paths| && g.paths[j] == game && (forall k :: 0 <= k < j ==> g.paths[k] != game) {
        IndexOfUnique(g.paths, game, j);
      }
    }
    g.versions[i]
  }

  /** How an install or uninstall ended: skipped for an undetected version,
      nothing to do, every file handled (success popup), or aborted by a
      filesystem error (error popup). */
  datatype Outcome = SkippedUnknown | NothingToDo | Completed | Failed

  datatype Step = Step(fs: FileSystem, outcome: Outcome)

  /** The filesystem after a loop over the file list and how many files the
      loop handled before it stopped. */
  datatype Progress = Progress(fs: FileSystem, done: nat)

  /** The copy loop of lines 94-97: each file is written in catalog order;
      the first write that fails aborts the rest. */
  function CopyFiles(fs: FileSystem, game: Path, files: seq<string>, locked: set<Path>): (r: Progress)
    ensures r.done <= |files|
    ensures forall j :: 0 <= j < r.done ==> Writable(fs, PluginFile(game, files[j]), locked)
    ensures r.done < |files| ==> !Writable(fs, PluginFile(game, files[r.done]), locked)
    ensures r.fs == fs.(files := fs.files + PluginFiles(game, files[..r.done]))
    decreases |files|
  {
    if |files| == 0 then
      Progress(fs, 0)
    else
      var p := PluginFile(game, files[0]);
      if !Writable(fs, p, locked) then
        Progress(fs, 0)
      else
        var rest := CopyFiles(fs.(files := fs.files + {p}), game, files[1..], locked);
        assert files[..rest.done + 1] == [files[0]] + files[1..][..rest.done];
        Progress(rest.fs, rest.done + 1)
  }

  /** The removal loop of lines 116-117: each file is removed in catalog
      order; the first removal that fails aborts the rest. */
  function RemoveFiles(fs: FileSystem, game: Path, files: seq<string>, locked: set<Path>): (r: Progress)
    ensures r.done <= |files|
    ensures forall j :: 0 <= j < r.done ==> Removable(fs, PluginFile(game, files[j]), locked)
    ensures forall j, k :: 0 <= k < j < r.done ==> files[k] != files[j]
    ensures r.done < |files| ==> !Removable(r.fs, PluginFile(game, files[r.done]), locked)
    ensures r.fs == fs.(files := fs.files - PluginFiles(game, files[..r.done]))
    decreases |files|
  {
    if |files| == 0 then
      Progress(fs, 0)
    else
      var p := PluginFile(game, files[0]);
      if !Removable(fs, p, locked) then
        Progress(fs, 0)
      else
        var rest := RemoveFiles(fs.(files := fs.files - {p}), game, files[1..], locked);
        assert files[..rest.done + 1] == [files[0]] + files[1..][..rest.done];
        Progress(rest.fs, rest.done + 1)
  }

  /** Lines 83-104. `locked` holds the paths the operating system refuses to
      open for writing (a running game holds its plugin DLLs open). */
  function InstallSDK(g: Games, catalog: Catalog, fs: FileSystem, game: Path, locked: set<Path>): (r: Step)
    requires Aligned(g) && game in g.paths
    ensures VersionOf(g, game) == UnknownVersion ==> r == Step(fs, SkippedUnknown)
    ensures VersionOf(g, game) != UnknownVersion && IsInstalled(fs, catalog, game, VersionOf(g, game)) ==>
      r == Step(fs, NothingToDo)
    ensures r.outcome == Completed ==> IsInstalled(r.fs, catalog, game, VersionOf(g, game))
    ensures r.outcome == Completed ==>
      forall f :: f in GetFilesForVersion(catalog, VersionOf(g, game)) ==> Writable(fs, PluginFile(game, f), locked)
    ensures r.outcome == Completed ==>
      r.fs == FileSystem(fs.dirs + Ancestors(PluginDir(game)),
                         fs.files + PluginFiles(game, GetFilesForVersion(catalog, VersionOf(g, game))))
    ensures fs.files <= r.fs.files <= fs.files + PluginFiles(game, GetFilesForVersion(catalog, VersionOf(g, game)))
    ensures fs.dirs <= r.fs.dirs <= fs.dirs + Ancestors(PluginDir(game))
    ensures Valid(fs) ==> Valid(r.fs)
  {
    var version := VersionOf(g, game);
    if version == UnknownVersion then
      Step(fs, SkippedUnknown)
    else if IsInstalled(fs, catalog, game, version) then
      Step(fs, NothingToDo)
    else
      match MakeDirs(fs, PluginDir(game))
      case None => Step(fs, Failed)
      case Some(fs1) =>
        var files := GetFilesForVersion(catalog, version);
        var p := CopyFiles(fs1, game, files, locked);
        assert files[..|files|] == files;
        PluginDirInAncestors(game);
        assert forall f :: f in files ==> PluginFile(game, f) !in Ancestors(PluginDir(game)) by {
          forall f | f in files {
            PluginFileNotAncestor(game, f);
          }
        }
        Step(p.fs, if p.done == |files| then Completed else Failed)
  }

  /** Lines 106-124. `locked` holds the paths the operating system refuses to
      delete. */
  function UninstallSDK(g: Games, catalog: Catalog, fs: FileSystem, game: Path, locked: set<Path>): (r: Step)
    requires Aligned(g) && game in g.paths
    ensures VersionOf(g, game) == UnknownVersion ==> r == Step(fs, SkippedUnknown)
    ensures VersionOf(g, game) != UnknownVersion && !IsInstalled(fs, catalog, game, VersionOf(g, game)) ==>
      r == Step(fs, NothingToDo)
    ensures r.fs.dirs == fs.dirs
    ensures fs.files - PluginFiles(game, GetFilesForVersion(catalog, VersionOf(g, game))) <= r.fs.files <= fs.files
    ensures r.outcome == Completed ==>
      r.fs.files == fs.files - PluginFiles(game, GetFilesForVersion(catalog, VersionOf(g, game)))
    ensures r.outcome == Completed && Valid(fs) ==>
      forall f :: f in GetFilesForVersion(catalog, VersionOf(g, game)) ==> !Present(r.fs, game, f)
    ensures Valid(fs) ==> Valid(r.fs)
  {
    var version := VersionOf(g, game);
    if version == UnknownVersion then
      Step(fs, SkippedUnknown)
    else if !IsInstalled(fs, catalog, game, version) then
      Step(fs, NothingToDo)
    else
      var files := GetFilesForVersion(catalog, version);
      var p := RemoveFiles(fs, game, files, locked);
      assert files[..|files|] == files;
      Step(p.fs, if p.done == |files| then Completed else Failed)
  }

  /** Lines 126-136, after the directory dialog: `detected` is what version
      detection reported for the chosen `path`. The lists only ever grow, and
      they grow together. */
  function AddGame(g: Games, path: Path, detected: Version): (r: Games)
    requires Aligned(g)
    ensures Aligned(r)
    ensures g.paths <= r.paths && g.versions <= r.versions
    ensures detected == UnknownVersion ==> r == g
    ensures detected != UnknownVersion ==>
      |r.paths| == |g.paths| + 1 && r.paths[|g.paths|] == path && r.versions[|g.paths|] == detected
  {
    if detected == UnknownVersion then g
    else Games(g.paths + [path], g.versions + [detected])
  }

  /** The version each game is looked up with after `AddGame`: unchanged for
      games already listed (the first occurrence wins, even when `path` is
      one of them), and the detected one for a new path. */
  lemma AddGameLookup(g: Games, path: Path, detected: Version, game: Path)
    requires Aligned(g) && detected != UnknownVersion
    requires game in g.paths || game == path
    ensures game in AddGame(g, path, detected).paths
    ensures VersionOf(AddGame(g, path, detected), game) ==
      if game in g.paths then VersionOf(g, game) else detected
  {
    if game in g.paths {
      IndexOfAppend(g.paths, path, game);
    }
  }

  /** The loop of lines 71-75 from position `k` on. */
  function InstalledFrom(g: Games, catalog: Catalog, fs: FileSystem, k: nat): (r: bool)
    requires Aligned(g) && k <= |g.paths|
    ensures r <==> exists i :: k <= i < |g.paths| && IsInstalled(fs, catalog, g.paths[i], VersionOf(g, g.paths[i]))
    decreases |g.paths| - k
  {
    if k == |g.paths| then false
    else if IsInstalled(fs, catalog, g.paths[k], VersionOf(g, g.paths[k])) then true
    else InstalledFrom(g, catalog, fs, k + 1)
  }

  /** Lines 70-75: onboarding may continue once some listed game has the SDK
      installed for the version found at that game's first index. */
  function CanContinue(g: Games, catalog: Catalog, fs: FileSystem): (r: bool)
    requires Aligned(g)
    ensures r <==> exists game :: game in g.paths && IsInstalled(fs, catalog, game, VersionOf(g, game))
  {
    InstalledFrom(g, catalog, fs, 0)
  }

  /** The two per-game flags the page derives (lines 164-178). */
  datatype Row = Row(notSupported: bool, isInstalled: bool)

  /** A version without a catalog entry is unsupported and never shown as
      installed; otherwise the game counts as installed when the detailed
      report has `True` for every file of the set. */
  function RenderRow(fs: FileSystem, catalog: Catalog, game: Path, version: Version): (r: Row)
    ensures r.notSupported <==> version !in catalog
    ensures r.isInstalled ==> !r.notSupported
  {
    if version !in catalog then
      Row(true, false)
    else
      var files := GetFilesForVersion(catalog, version);
      var report := Report(fs, catalog, game, version);
      Row(false, forall i :: 0 <= i < |files| ==> report[files[i]])
  }

  /** The page's flag agrees with simple `CheckIfInstalled` for a supported
      version, except for an empty file set, which the page shows as
      installed whether or not the plugin folder exists. */
  lemma RenderInstalledIff(fs: FileSystem, catalog: Catalog, game: Path, version: Version)
    ensures RenderRow(fs, catalog, game, version).isInstalled <==>
      version in catalog && (catalog[version] == [] || IsInstalled(fs, catalog, game, version))
  {
    if version in catalog && catalog[version] != [] {
      var files := catalog[version];
      var report := Report(fs, catalog, game, version);
      assert files[0] in report;
      assert forall f :: f in files ==> f in report;
      assert (forall i :: 0 <= i < |files| ==> report[files[i]]) <==> (forall f :: f in files ==> report[f]);
    }
  }

  /** The exception in `RenderInstalledIff`: a catalog entry with no files
      and no plugin folder reads "installed" on the page, while
      `CheckIfInstalled` says it is not. */
  lemma RenderEmptySetShownInstalled(fs: FileSystem, catalog: Catalog, game: Path, version: Version)
    requires version in catalog && catalog[version] == [] && !Exists(fs, PluginDir(game))
    ensures RenderRow(fs, catalog, game, version).isInstalled
    ensures !IsInstalled(fs, catalog, game, version)
  {
  }
}
