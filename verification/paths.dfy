/** Windows-style path strings as the installer builds them: by plain string
    concatenation of the game root, the fixed plugin suffix and a file name. */
module Paths {

  type Path = string

  const Separator: char := '\\'

  /** The plugin folder, relative to a game installation root. */
  const TargetPath: string := "\\bin\\win_x64\\plugins"

  /** `game + target_path`: the folder the SDK files go into. */
  function PluginDir(game: Path): Path {
    game + TargetPath
  }

  /** `game + target_path + "\\" + file`: where one SDK file goes. */
  function PluginFile(game: Path, file: string): Path {
    PluginDir(game) + [Separator] + file
  }

  /** The target paths of a whole file set. */
  function PluginFiles(game: Path, files: seq<string>): set<Path> {
    set f | f in files :: PluginFile(game, f)
  }

  /** `q` is a folder on the way to `p`: a non-empty prefix of `p` that is
      `p` itself or is followed in `p` by a separator. */
  predicate IsAncestor(q: Path, p: Path) {
    0 < |q| <= |p| && q == p[..|q|] && (|q| == |p| || p[|q|] == Separator)
  }

  /** The directories `os.makedirs(p)` needs: every prefix of `p` that ends
      just before a separator, together with `p` itself. */
  function Ancestors(p: Path): (a: set<Path>)
    ensures forall q :: q in a <==> IsAncestor(q, p)
    ensures |p| > 0 ==> p in a
  {
    var a := set i | 0 < i <= |p| && (i == |p| || p[i] == Separator) :: p[..i];
    assert forall q :: IsAncestor(q, p) ==> q in a by {
      forall q | IsAncestor(q, p)
        ensures q in a
      {
        assert q == p[..|q|];
      }
    }
    assert p[..|p|] == p;
    assert |p| > 0 ==> IsAncestor(p, p);
    a
  }

  /** Distinct file names land on distinct target paths. */
  lemma PluginFileInjective(game: Path, f: string, g: string)
    requires PluginFile(game, f) == PluginFile(game, g)
    ensures f == g
  {
    var n := |PluginDir(game)| + 1;
    assert PluginFile(game, f)[n..] == f;
    assert PluginFile(game, g)[n..] == g;
  }

  /** No target file path is one of the directories created for the plugin
      folder: each is strictly longer than the folder path. */
  lemma PluginFileNotAncestor(game: Path, f: string)
    ensures PluginFile(game, f) !in Ancestors(PluginDir(game))
    ensures PluginFile(game, f) != PluginDir(game)
  {
  }

  /** The plugin folder is among the directories `os.makedirs` creates for it. */
  lemma PluginDirInAncestors(game: Path)
    ensures PluginDir(game) in Ancestors(PluginDir(game))
  {
  }
}
