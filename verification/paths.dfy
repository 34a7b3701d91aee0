/** File-system paths as sequences of components, with the three
    `os.path` operations the pipeline relies on. A path's components are
    the directory names from the root down; the empty path stands for the
    root itself. */
module Paths {

  type Path = seq<string>

  /** `os.path.join(dir, name)` for a single file or directory name. */
  function Join(dir: Path, name: string): (p: Path)
    ensures |p| == |dir| + 1
    ensures p[..|dir|] == dir && p[|dir|] == name
  {
    dir + [name]
  }

  /** `os.path.dirname`: the path without its last component; the root is
      its own directory name. */
  function Dirname(p: Path): (d: Path)
    ensures |p| > 0 ==> |d| == |p| - 1 && d == p[..|p| - 1]
    ensures |p| == 0 ==> d == []
  {
    if |p| == 0 then [] else p[..|p| - 1]
  }

  /** `os.path.basename`: the last component; the root has the empty name. */
  function Basename(p: Path): (b: string)
    ensures |p| > 0 ==> b == p[|p| - 1]
    ensures |p| == 0 ==> b == ""
  {
    if |p| == 0 then "" else p[|p| - 1]
  }

  /** Splitting a joined path gives back the directory and the name. */
  lemma SplitJoin(dir: Path, name: string)
    ensures Dirname(Join(dir, name)) == dir
    ensures Basename(Join(dir, name)) == name
  {
  }
}
