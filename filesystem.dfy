/** The target directory tree the generator writes into, and the
    no-overwrite writer (`ComponentFile.writeFile`, with `fileExists`). */
module FileStore {
  import opened Paths
  import opened Outcomes

  /** A snapshot of the tree: file contents by path, and the directories.
      The empty path is the working directory. */
  datatype Disk = Disk(files: map<Path, string>, dirs: set<Path>)
  {
    /** The working directory exists, every directory's parents exist,
        every file lives in an existing directory, and nothing is both. */
    predicate Valid()
    {
      && [] in dirs
      && (forall d, k :: d in dirs && 0 <= k <= |d| ==> d[..k] in dirs)
      && (forall f :: f in files ==> |f| > 0 && f[..|f| - 1] in dirs)
      && (forall f :: f in files ==> f !in dirs)
    }

    /** `fileExists(p)`: `stat` succeeds, for a file or a directory. */
    predicate Exists(p: Path)
    {
      p in files || p in dirs
    }

    /** Some directory on the way to `dir`, or `dir` itself, is a file, so
        `mkdirp(dir)` fails. */
    predicate HasFileOnPath(dir: Path)
    {
      exists k :: 0 <= k <= |dir| && dir[..k] in files
    }
  }

  /** The outcome of writing `text` to `dest` without overwriting: refuse an
      existing destination, else create the parent directories and write. */
  function Write(d: Disk, dest: Path, text: string): (res: (Disk, Result<Path>))
    ensures res.1.Ok? <==> !d.Exists(dest) && |dest| > 0 && !d.HasFileOnPath(Parent(dest))
    ensures res.1.Ok? ==> res.1.value == dest
    ensures d.Exists(dest) ==> res.1 == Err(Collision(dest))
    ensures res.1.Err? ==> res.0 == d
    ensures res.1.Ok? ==> dest in res.0.files && res.0.files[dest] == text && Parent(dest) in res.0.dirs
    ensures res.1.Ok? ==> res.0.files.Keys == d.files.Keys + {dest}
    ensures res.1.Ok? ==> res.0.dirs == d.dirs + Prefixes(Parent(dest))
    ensures forall p :: p in d.files ==> p in res.0.files && res.0.files[p] == d.files[p]
    ensures d.dirs <= res.0.dirs
  {
    if d.Exists(dest) then (d, Err(Collision(dest)))
    else if |dest| == 0 || d.HasFileOnPath(Parent(dest)) then (d, Err(IOError(dest)))
    else
      assert Parent(dest)[..|Parent(dest)|] == Parent(dest);
      (Disk(d.files[dest := text], d.dirs + Prefixes(Parent(dest))), Ok(dest))
  }

  /** Writing keeps the tree well formed. */
  lemma WritePreservesValid(d: Disk, dest: Path, text: string)
    requires d.Valid()
    ensures Write(d, dest, text).0.Valid()
  {
    var (d', r) := Write(d, dest, text);
    if r.Ok? {
      var dir := Parent(dest);
      assert d'.files == d.files[dest := text];
      assert d'.dirs == d.dirs + Prefixes(dir);
      forall e, k | e in d'.dirs && 0 <= k <= |e| ensures e[..k] in d'.dirs {
        if e !in d.dirs {
          var n :| 0 <= n <= |dir| && e == dir[..n];
          assert e[..k] == dir[..k];
        }
      }
      assert dest[..|dest| - 1] == dir && dir[..|dir|] == dir;
    }
  }

  /** The working tree, updated in place. */
  class FileSystem {
    var files: map<Path, string>
    var dirs: set<Path>

    function State(): Disk
      reads this
    {
      Disk(files, dirs)
    }

    ghost predicate Valid()
      reads this
    {
      State().Valid()
    }

    /** An empty working directory. */
    constructor ()
      ensures Valid() && files == map[] && dirs == {[]}
    {
      files := map[];
      dirs := {[]};
    }

    /** `fileExists(p)`. */
    method FileExists(p: Path) returns (b: bool)
      ensures b <==> p in files || p in dirs
    {
      b := p in files || p in dirs;
    }

    /** `mkdirp(dir)`: make every missing directory on the way to `dir`;
        fails, changing nothing, when one of them is a file. */
    method MakeDirs(dir: Path) returns (r: Result<()>)
      requires Valid()
      modifies this
      ensures Valid()
      ensures files == old(files)
      ensures r.Ok? <==> !old(State()).HasFileOnPath(dir)
      ensures r.Ok? ==> dirs == old(dirs) + Prefixes(dir)
      ensures r.Err? ==> r.error == IOError(dir) && dirs == old(dirs)
    {
      if exists k :: 0 <= k <= |dir| && dir[..k] in files {
        r := Err(IOError(dir));
      } else {
        ghost var before := dirs;
        dirs := dirs + Prefixes(dir);
        forall e, k | e in dirs && 0 <= k <= |e| ensures e[..k] in dirs {
          if e !in before {
            var n :| 0 <= n <= |dir| && e == dir[..n];
            assert e[..k] == dir[..k];
          }
        }
        r := Ok(());
      }
    }

    /** `fs.writeFile(p, text)`: replaces whatever file is at `p`; fails
        when `p` is a directory or its parent directory is missing. */
    method WriteText(p: Path, text: string) returns (r: Result<()>)
      requires Valid()
      modifies this
      ensures Valid()
      ensures dirs == old(dirs)
      ensures r.Ok? <==> |p| > 0 && p !in old(dirs) && Parent(p) in old(dirs)
      ensures r.Ok? ==> files == old(files)[p := text]
      ensures r.Err? ==> r.error == IOError(p) && files == old(files)
    {
      if |p| > 0 && p !in dirs && Parent(p) in dirs {
        files := files[p := text];
        r := Ok(());
      } else {
        r := Err(IOError(p));
      }
    }

    /** `ComponentFile.writeFile`: refuse an existing destination, then make
        its directory, then write the text; returns the destination. */
    method WriteFile(dest: Path, text: string) returns (r: Result<Path>)
      requires Valid()
      modifies this
      ensures Valid()
      ensures (State(), r) == Write(old(State()), dest, text)
    {
      WritePreservesValid(State(), dest, text);
      var taken := FileExists(dest);
      if taken {
        return Err(Collision(dest));
      }
      var made := MakeDirs(Parent(dest));
      if made.Err? {
        return Err(IOError(dest));
      }
      assert Parent(dest)[..|Parent(dest)|] == Parent(dest);
      var written := WriteText(dest, text);
      assert written.Ok?;
      r := Ok(dest);
    }
  }
}
