/** The disk as the metadata tool sees it through pathlib and shutil: a set of
    directories, a map from file paths to their contents, and the paths the host
    refuses to touch (permissions, I/O faults), on which every operation fails. */
module FileSys {
  import opened Wrappers

  /** A path as its sequence of components. */
  type Path = seq<string>

  /** path / name: joining an empty name leaves the path as it is. */
  function Child(p: Path, name: string): (r: Path)
    ensures name != "" ==> |r| == |p| + 1 && r[..|p|] == p && r[|p|] == name
    ensures name == "" ==> r == p
  {
    if name == "" then p else p + [name]
  }

  /** Path.name: the last component. */
  function Name(p: Path): string {
    if p == [] then "" else p[|p| - 1]
  }

  /** a is p itself or one of the directories above p. */
  predicate Within(p: Path, a: Path) {
    |a| <= |p| && p[..|a|] == a
  }

  /** Neither path is the other or below it: the two trees share no path. */
  predicate Apart(a: Path, b: Path) {
    !Within(a, b) && !Within(b, a)
  }

  /** An entry of a directory lies apart from every path apart from that directory. */
  lemma ApartChild(a: Path, b: Path, name: string)
    requires Apart(a, b) && name != ""
    ensures Apart(Child(a, name), b)
  {
  }

  /** Being below is transitive. */
  lemma WithinTrans(p: Path, m: Path, d: Path)
    requires Within(p, m) && Within(m, d)
    ensures Within(p, d)
  {
    assert p[..|d|] == p[..|m|][..|d|];
  }

  /** A change confined below m is confined below every directory above m. */
  lemma SameOutsideWiden(before: map<Path, string>, after: map<Path, string>, m: Path, d: Path)
    requires Within(m, d) && SameOutside(before, after, m)
    ensures SameOutside(before, after, d)
  {
    forall q | !Within(q, d)
      ensures (q in before <==> q in after) && (q in before ==> before[q] == after[q])
    {
      if Within(q, m) {
        WithinTrans(q, m, d);
      }
    }
  }

  /** Every directory above a path below d is d, above d or below d. */
  lemma AncestorsAround(m: Path, d: Path)
    requires Within(m, d)
    ensures forall q :: q in Ancestors(m) ==> Within(q, d) || Within(d, q)
  {
    forall q | q in Ancestors(m)
      ensures Within(q, d) || Within(d, q)
    {
      var i :| 1 <= i <= |m| && q == m[..i];
      if i <= |d| {
        assert d[..i] == m[..i];
      }
    }
  }

  /** Every path outside d is as it was: in both maps with the same content,
      or in neither. */
  ghost predicate SameOutside(before: map<Path, string>, after: map<Path, string>, d: Path) {
    forall q :: !Within(q, d) ==> (q in before <==> q in after) && (q in before ==> before[q] == after[q])
  }

  /** Changes confined to d, one after the other, stay confined to d. */
  lemma SameOutsideTrans(a: map<Path, string>, b: map<Path, string>, c: map<Path, string>, d: Path)
    requires SameOutside(a, b, d) && SameOutside(b, c, d)
    ensures SameOutside(a, c, d)
  {
  }

  /** Path.parent: the directory that holds p. */
  function Parent(p: Path): (r: Path)
    ensures p != [] ==> |r| == |p| - 1 && Within(p, r)
  {
    if p == [] then [] else p[..|p| - 1]
  }

  /** Where shutil.copy2(src, dst) puts the copy: into dst, under the source's
      name, when dst is a directory, and at dst itself otherwise. */
  function CopyTarget(dirs: set<Path>, src: Path, dst: Path): (r: Path)
    ensures Within(r, dst)
    ensures dst !in dirs ==> r == dst
  {
    if dst in dirs then Child(dst, Name(src)) else dst
  }

  /** p and every directory above it (what mkdir(parents=True) creates). */
  function Ancestors(p: Path): set<Path> {
    set i | 1 <= i <= |p| :: p[..i]
  }

  /** Path.mkdir(parents=True) can make p: p is not faulty and neither p nor
      any directory above it is a file. */
  predicate CanMakeDirs(faulty: set<Path>, files: map<Path, string>, p: Path) {
    p !in faulty && forall i :: 1 <= i <= |p| ==> p[..i] !in files
  }

  const PermissionDenied := "permission denied"
  const NoSuchFile := "no such file or directory"
  const IsADirectory := "is a directory"
  const NotADirectory := "not a directory"
  const FileExists := "file exists"

  /** The messages of the OSErrors the operations below raise. */
  const IoErrors := {PermissionDenied, NoSuchFile, IsADirectory, NotADirectory, FileExists}

  class FileSystem {
    var files: map<Path, string>
    var dirs: set<Path>
    const faulty: set<Path>

    constructor (files0: map<Path, string>, dirs0: set<Path>, faulty0: set<Path>)
      ensures files == files0 && dirs == dirs0 && faulty == faulty0
    {
      files, dirs, faulty := files0, dirs0, faulty0;
    }

    /** Path.exists() */
    predicate Exists(p: Path)
      reads this
    {
      p in files || p in dirs
    }

    /** names is what Path.iterdir() yields for d, by name: each entry of d
        exactly once. */
    ghost predicate Listing(d: Path, names: seq<string>)
      reads this
    {
      (forall i, j :: 0 <= i < j < |names| ==> names[i] != names[j])
      && (forall i :: 0 <= i < |names| ==> names[i] != "" && Exists(Child(d, names[i])))
      && (forall q :: Exists(q) && |q| == |d| + 1 && q[..|d|] == d ==> q[|d|] in names)
    }

    /** Reading a text file; fails on a faulty or absent path. */
    function ReadText(p: Path): (r: Result<string>)
      reads this
      ensures r.Ok? <==> p !in faulty && p in files
      ensures r.Ok? ==> r.value == files[p]
    {
      if p in faulty then Err(PermissionDenied)
      else if p !in files then Err(NoSuchFile)
      else Ok(files[p])
    }

    /** Path.mkdir(parents=True, exist_ok=True): fails when p or one of the
        directories above it is a file. */
    method MakeDirs(p: Path) returns (r: Outcome)
      modifies this
      ensures r.Pass? <==> CanMakeDirs(faulty, old(files), p)
      ensures r.Pass? ==> dirs == old(dirs) + Ancestors(p) && files == old(files)
      ensures r.Fail? ==> dirs == old(dirs) && files == old(files) && r.error in IoErrors
    {
      if p in faulty {
        return Fail(PermissionDenied);
      }
      for i := 1 to |p| + 1
        invariant forall j :: 1 <= j < i ==> p[..j] !in files
      {
        if p[..i] in files {
          return Fail(if i == |p| then FileExists else NotADirectory);
        }
      }
      dirs := dirs + Ancestors(p);
      r := Pass;
    }

    /** shutil.copy2(src, dst): the copy lands at CopyTarget, which must not
        be a directory and whose parent must be one. */
    method Copy(src: Path, dst: Path) returns (r: Outcome)
      modifies this
      ensures var t := CopyTarget(old(dirs), src, dst);
        r.Fail? <==> src in faulty || t in faulty || src !in old(files) || t in old(dirs) || Parent(t) !in old(dirs)
      ensures r.Pass? ==> files == old(files)[CopyTarget(old(dirs), src, dst) := old(files)[src]] && dirs == old(dirs)
      ensures r.Fail? ==> files == old(files) && dirs == old(dirs) && r.error in IoErrors
    {
      var target := CopyTarget(dirs, src, dst);
      if src in faulty || target in faulty {
        return Fail(PermissionDenied);
      }
      if src !in files {
        return Fail(if src in dirs then IsADirectory else NoSuchFile);
      }
      if target in dirs {
        return Fail(IsADirectory);
      }
      if Parent(target) !in dirs {
        return Fail(NoSuchFile);
      }
      files := files[target := files[src]];
      r := Pass;
    }

    /** Path.unlink() */
    method Unlink(p: Path) returns (r: Outcome)
      modifies this
      ensures r.Fail? <==> p in faulty || p !in old(files)
      ensures r.Pass? ==> files == old(files) - {p} && dirs == old(dirs)
      ensures r.Fail? ==> files == old(files) && dirs == old(dirs) && r.error in IoErrors
    {
      if p in faulty {
        return Fail(PermissionDenied);
      }
      if p !in files {
        return Fail(if p in dirs then IsADirectory else NoSuchFile);
      }
      files := files - {p};
      r := Pass;
    }

    /** shutil.rmtree(p): the directory and everything below it. */
    method RemoveTree(p: Path) returns (r: Outcome)
      modifies this
      ensures r.Fail? <==> p in faulty || p !in old(dirs)
      ensures r.Pass? ==> files == map q | q in old(files) && !Within(q, p) :: old(files)[q]
      ensures r.Pass? ==> dirs == set q | q in old(dirs) && !Within(q, p)
      ensures r.Fail? ==> files == old(files) && dirs == old(dirs) && r.error in IoErrors
    {
      if p in faulty {
        return Fail(PermissionDenied);
      }
      if p !in dirs {
        return Fail(if p in files then NotADirectory else NoSuchFile);
      }
      files := map q | q in files && !Within(q, p) :: files[q];
      dirs := set q | q in dirs && !Within(q, p);
      r := Pass;
    }

    /** Writing a whole text file, replacing what was there. */
    method WriteText(p: Path, content: string) returns (r: Outcome)
      modifies this
      ensures r.Fail? <==> p in faulty || p in old(dirs)
      ensures r.Pass? ==> files == old(files)[p := content] && dirs == old(dirs)
      ensures r.Fail? ==> files == old(files) && dirs == old(dirs) && r.error in IoErrors
    {
      if p in faulty {
        return Fail(PermissionDenied);
      }
      if p in dirs {
        return Fail(IsADirectory);
      }
      files := files[p := content];
      r := Pass;
    }
  }
}
