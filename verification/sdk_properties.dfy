/** Properties that relate several calls of the page's actions: repeating an
    action, undoing it, and what a completed action lets the page conclude. */
module SdkProperties {

  import opened Common
  import opened Paths
  import opened Files
  import opened Catalog
  import opened InstallStatus
  import opened SdkPage

  /** Running the copy loop again over its own result adds nothing: it stops
      at the same file, having rewritten only files already there. */
  lemma CopyFilesRepeat(fs: FileSystem, game: Path, files: seq<string>, locked: set<Path>)
    ensures CopyFiles(CopyFiles(fs, game, files, locked).fs, game, files, locked).fs == CopyFiles(fs, game, files, locked).fs
  {
  }

  /** With every target writable the copy loop handles the whole list. */
  lemma CopyAllSucceeds(fs: FileSystem, game: Path, files: seq<string>, locked: set<Path>)
    requires forall f :: f in files ==> Writable(fs, PluginFile(game, f), locked)
    ensures CopyFiles(fs, game, files, locked).done == |files|
  {
  }

  /** With a duplicate-free list and every target an unlocked file, the
      removal loop handles the whole list. */
  lemma {:induction false} RemoveAllSucceeds(fs: FileSystem, game: Path, files: seq<string>, locked: set<Path>)
    requires NoDuplicates(files)
    requires forall f :: f in files ==> Removable(fs, PluginFile(game, f), locked)
    ensures RemoveFiles(fs, game, files, locked).done == |files|
    decreases |files|
  {
    if |files| > 0 {
      var p := PluginFile(game, files[0]);
      var rest := files[1..];
      forall f | f in rest
        ensures Removable(fs.(files := fs.files - {p}), PluginFile(game, f), locked)
      {
        if PluginFile(game, f) == p {
          PluginFileInjective(game, f, files[0]);
        }
      }
      RemoveAllSucceeds(fs.(files := fs.files - {p}), game, rest, locked);
    }
  }

  /** Installing twice leaves the same filesystem as installing once,
      whatever the first run ended with. */
  lemma InstallIdempotent(g: Games, catalog: Catalog, fs: FileSystem, game: Path, locked: set<Path>)
    requires Aligned(g) && game in g.paths
    ensures InstallSDK(g, catalog, InstallSDK(g, catalog, fs, game, locked).fs, game, locked).fs ==
      InstallSDK(g, catalog, fs, game, locked).fs
  {
  }

  /** Uninstalling twice leaves the same filesystem as uninstalling once: a
      run that removed anything leaves the set incomplete, so the second run
      finds nothing installed. */
  lemma UninstallIdempotent(g: Games, catalog: Catalog, fs: FileSystem, game: Path, locked: set<Path>)
    requires Aligned(g) && game in g.paths
    ensures UninstallSDK(g, catalog, UninstallSDK(g, catalog, fs, game, locked).fs, game, locked).fs ==
      UninstallSDK(g, catalog, fs, game, locked).fs
  {
  }

  /** The converse of the install guard: a known version that is not yet
      installed, whose plugin folder can be created and whose targets are all
      writable, installs completely. */
  lemma InstallCompletes(g: Games, catalog: Catalog, fs: FileSystem, game: Path, locked: set<Path>)
    requires Aligned(g) && game in g.paths
    requires VersionOf(g, game) != UnknownVersion
    requires !IsInstalled(fs, catalog, game, VersionOf(g, game))
    requires Ancestors(PluginDir(game)) !! fs.files
    requires forall f :: f in GetFilesForVersion(catalog, VersionOf(g, game)) ==> Writable(fs, PluginFile(game, f), locked)
    ensures InstallSDK(g, catalog, fs, game, locked).outcome == Completed
  {
  }

  /** The converse of the uninstall guard: an installed set of distinct
      files, all of them unlocked files, uninstalls completely. */
  lemma UninstallCompletes(g: Games, catalog: Catalog, fs: FileSystem, game: Path, locked: set<Path>)
    requires Aligned(g) && game in g.paths
    requires VersionOf(g, game) != UnknownVersion
    requires IsInstalled(fs, catalog, game, VersionOf(g, game))
    requires NoDuplicates(GetFilesForVersion(catalog, VersionOf(g, game)))
    requires forall f :: f in GetFilesForVersion(catalog, VersionOf(g, game)) ==> Removable(fs, PluginFile(game, f), locked)
    ensures UninstallSDK(g, catalog, fs, game, locked).outcome == Completed
  {
    RemoveAllSucceeds(fs, game, GetFilesForVersion(catalog, VersionOf(g, game)), locked);
  }

  /** Round trip: after a completed install, uninstalling with the same locks
      completes, takes every file of the set away again and keeps the plugin
      folder; only the files of the set differ from before the install. */
  lemma InstallThenUninstall(g: Games, catalog: Catalog, fs: FileSystem, game: Path, locked: set<Path>)
    requires Aligned(g) && game in g.paths && Valid(fs) && WellFormed(catalog)
    requires InstallSDK(g, catalog, fs, game, locked).outcome == Completed
    ensures UninstallSDK(g, catalog, InstallSDK(g, catalog, fs, game, locked).fs, game, locked).outcome == Completed
    ensures UninstallSDK(g, catalog, InstallSDK(g, catalog, fs, game, locked).fs, game, locked).fs ==
      FileSystem(fs.dirs + Ancestors(PluginDir(game)),
                 fs.files - PluginFiles(game, GetFilesForVersion(catalog, VersionOf(g, game))))
    ensures forall f :: f in GetFilesForVersion(catalog, VersionOf(g, game)) ==>
      !Present(UninstallSDK(g, catalog, InstallSDK(g, catalog, fs, game, locked).fs, game, locked).fs, game, f)
  {
    var installed := InstallSDK(g, catalog, fs, game, locked).fs;
    var files := GetFilesForVersion(catalog, VersionOf(g, game));
    assert forall f :: f in files ==> PluginFile(game, f) in installed.files;
    UninstallCompletes(g, catalog, installed, game, locked);
  }

  /** After a completed install every entry of the detailed report is true;
      after a completed uninstall every entry is false. */
  lemma DetailedAfterInstallAndUninstall(g: Games, catalog: Catalog, fs: FileSystem, game: Path, locked: set<Path>)
    requires Aligned(g) && game in g.paths && Valid(fs)
    ensures var r := InstallSDK(g, catalog, fs, game, locked);
      r.outcome == Completed ==>
        forall f :: f in Report(r.fs, catalog, game, VersionOf(g, game)) ==> Report(r.fs, catalog, game, VersionOf(g, game))[f]
    ensures var r := UninstallSDK(g, catalog, fs, game, locked);
      r.outcome == Completed ==>
        forall f :: f in Report(r.fs, catalog, game, VersionOf(g, game)) ==> !Report(r.fs, catalog, game, VersionOf(g, game))[f]
  {
  }

  /** A completed install lets onboarding continue. */
  lemma InstallEnablesContinue(g: Games, catalog: Catalog, fs: FileSystem, game: Path, locked: set<Path>)
    requires Aligned(g) && game in g.paths
    requires InstallSDK(g, catalog, fs, game, locked).outcome == Completed
    ensures CanContinue(g, catalog, InstallSDK(g, catalog, fs, game, locked).fs)
  {
  }

  /** Install checks only for "Unknown", not for catalog membership: for a
      detected version the catalog lacks, a missing plugin folder is created
      and the run completes with no file copied. */
  lemma UnsupportedInstallCreatesFolder(g: Games, catalog: Catalog, fs: FileSystem, game: Path, locked: set<Path>)
    requires Aligned(g) && game in g.paths
    requires VersionOf(g, game) != UnknownVersion && VersionOf(g, game) !in catalog
    requires !Exists(fs, PluginDir(game)) && Ancestors(PluginDir(game)) !! fs.files
    ensures InstallSDK(g, catalog, fs, game, locked) ==
      Step(fs.(dirs := fs.dirs + Ancestors(PluginDir(game))), Completed)
  {
  }
}
