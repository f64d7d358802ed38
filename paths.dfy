/** Paths as sequences of segments, and the destination-path construction of
    the component generator: one `components/<name>` pair per component name,
    outermost first, followed by the template's path relative to the clone root. */
module Paths {

  type Segment = string
  type Path = seq<Segment>

  /** The directory that holds every generated component. */
  const ComponentsDir: Segment := "components"

  /** `root` names a directory that contains `p` (or is `p`). */
  predicate IsPrefix(root: Path, p: Path)
  {
    |root| <= |p| && p[..|root|] == root
  }

  /** `path.relative(root, p)` for a `p` found under `root`. */
  function RelativeTo(root: Path, p: Path): (rel: Path)
    requires IsPrefix(root, p)
    ensures root + rel == p
    ensures |rel| == |p| - |root|
  {
    p[|root|..]
  }

  /** `path.dirname(p)`: every segment but the last. */
  function Parent(p: Path): (dir: Path)
    requires |p| > 0
    ensures |dir| == |p| - 1 && dir + [p[|p| - 1]] == p
  {
    p[..|p| - 1]
  }

  /** Every directory on the way to `dir`, `dir` itself included
      (what `mkdirp(dir)` makes sure exists). */
  function Prefixes(dir: Path): set<Path>
  {
    set k | 0 <= k <= |dir| :: dir[..k]
  }

  /** The `components/<name>` pairs for the names, outermost first. */
  function ComponentDirs(names: seq<Segment>): (r: Path)
    ensures |r| == 2 * |names|
    ensures forall i :: 0 <= i < |names| ==> r[2 * i] == ComponentsDir && r[2 * i + 1] == names[i]
  {
    if names == [] then []
    else
      var tail := ComponentDirs(names[1..]);
      var r := [ComponentsDir, names[0]] + tail;
      assert forall i :: 0 <= i < |names| ==> r[2 * i] == ComponentsDir && r[2 * i + 1] == names[i] by {
        forall i | 0 <= i < |names| ensures r[2 * i] == ComponentsDir && r[2 * i + 1] == names[i] {
          if i > 0 {
            var j := i - 1;
            assert r[2 * i] == tail[2 * j] && r[2 * i + 1] == tail[2 * j + 1];
            assert names[1..][j] == names[i];
          }
        }
      }
      r
  }

  /** `ComponentFile._getWriteFilepath`: the nested component directories
      joined with the template's path relative to the clone root. */
  function WritePath(names: seq<Segment>, cloneRoot: Path, source: Path): (r: Path)
    requires IsPrefix(cloneRoot, source)
    ensures |r| == 2 * |names| + (|source| - |cloneRoot|)
    ensures forall i :: 0 <= i < |names| ==> r[2 * i] == ComponentsDir && r[2 * i + 1] == names[i]
    ensures r[2 * |names|..] == RelativeTo(cloneRoot, source)
  {
    ComponentDirs(names) + RelativeTo(cloneRoot, source)
  }

  /** Two templates under the same clone root never share a destination. */
  lemma WritePathInjective(names: seq<Segment>, cloneRoot: Path, s1: Path, s2: Path)
    requires IsPrefix(cloneRoot, s1) && IsPrefix(cloneRoot, s2)
    requires WritePath(names, cloneRoot, s1) == WritePath(names, cloneRoot, s2)
    ensures s1 == s2
  {
  }

  /** The path written with `/` separators, as it appears in messages. */
  function Join(p: Path): string
  {
    if p == [] then ""
    else if |p| == 1 then p[0]
    else p[0] + "/" + Join(p[1..])
  }
}
