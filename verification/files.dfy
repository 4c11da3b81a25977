/** The filesystem as the installer sees it: which paths exist as directories
    and which as files. File contents are not modelled. */
module Files {

  import opened Common
  import opened Paths

  datatype FileSystem = FileSystem(dirs: set<Path>, files: set<Path>)

  /** No path is both a directory and a file. */
  predicate Valid(fs: FileSystem) {
    fs.dirs !! fs.files
  }

  /** `os.path.exists`: true for a directory as well as for a file. */
  predicate Exists(fs: FileSystem, p: Path) {
    p in fs.dirs || p in fs.files
  }

  /** `os.makedirs(dir, exist_ok=True)`: creates `dir` and every missing
      ancestor; raises when one of them already exists as a file. */
  function MakeDirs(fs: FileSystem, dir: Path): (r: Option<FileSystem>)
    ensures r.None? <==> exists q :: q in Ancestors(dir) && q in fs.files
    ensures r.Some? ==> r.value.files == fs.files && r.value.dirs == fs.dirs + Ancestors(dir)
    ensures r.Some? && |dir| > 0 ==> dir in r.value.dirs
    ensures r.Some? && Valid(fs) ==> Valid(r.value)
  {
    if Ancestors(dir) !! fs.files then Some(fs.(dirs := fs.dirs + Ancestors(dir)))
    else None
  }

  /** `exist_ok=True`: a second `makedirs` of the same folder changes nothing. */
  lemma MakeDirsIdempotent(fs: FileSystem, dir: Path)
    requires MakeDirs(fs, dir).Some?
    ensures MakeDirs(MakeDirs(fs, dir).value, dir) == MakeDirs(fs, dir)
  {
  }

  /** Opening `p` with mode "wb" fails on an existing directory and on a path
      another process holds open (`locked`); otherwise the file exists
      afterwards, created or overwritten. */
  predicate Writable(fs: FileSystem, p: Path, locked: set<Path>) {
    p !in fs.dirs && p !in locked
  }

  /** `os.remove(p)` succeeds only on an existing file nobody holds open. */
  predicate Removable(fs: FileSystem, p: Path, locked: set<Path>) {
    p in fs.files && p !in locked
  }
}
