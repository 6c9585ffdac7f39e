/** An abstract filesystem and the operating-system calls the engine makes on
    it, each decided by the shape of the tree alone. */
module FileSystem {
  import opened Results
  import opened Paths

  datatype Node = Dir | File(bytes: Bytes)

  /** Every present path mapped to its node; the base directory itself is not
      a key. */
  type FileSystem = map<Path, Node>

  /** The tree is a tree: no key for the base, and every other entry sits in a
      directory. */
  predicate WellFormed(fs: FileSystem) {
    && [] !in fs
    && forall p :: p in fs && |p| > 1 ==> Parent(p) in fs && fs[Parent(p)] == Dir
  }

  predicate IsDir(fs: FileSystem, p: Path) {
    p in fs && fs[p] == Dir
  }

  predicate IsFile(fs: FileSystem, p: Path) {
    p in fs && fs[p].File?
  }

  /** `p` is present in both trees with the same node, or absent from both. */
  predicate SameAt(fs: FileSystem, fs': FileSystem, p: Path) {
    (p in fs <==> p in fs') && (p in fs ==> fs[p] == fs'[p])
  }

  /** The ancestors of `dir` and `dir` itself (the base excluded). */
  function Prefixes(dir: Path): (r: set<Path>)
    ensures forall q :: q in r <==> 0 < |q| && IsPrefix(q, dir)
  {
    var r := set i | 1 <= i <= |dir| :: dir[..i];
    assert forall q :: 0 < |q| && IsPrefix(q, dir) ==> q == dir[..|q|];
    r
  }

  /** Why a file or directory cannot be created at `p`: ENOTDIR when some
      ancestor of `p` is a regular file, ENOENT when the parent is merely
      missing. */
  function ParentError(fs: FileSystem, p: Path): (r: Option<Error>)
    ensures r == None <==> |p| <= 1 || IsDir(fs, Parent(p))
    ensures r == Some(NotADirectory) <==>
      |p| > 1 && !IsDir(fs, Parent(p)) && exists q :: q in Prefixes(Parent(p)) && IsFile(fs, q)
    ensures r == Some(NotFound) <==>
      |p| > 1 && !IsDir(fs, Parent(p)) && !exists q :: q in Prefixes(Parent(p)) && IsFile(fs, q)
  {
    if |p| <= 1 || IsDir(fs, Parent(p)) then None
    else if exists q :: q in Prefixes(Parent(p)) && IsFile(fs, q) then Some(NotADirectory)
    else Some(NotFound)
  }

  /** os.Mkdir: create one directory whose parent exists. */
  function Mkdir(fs: FileSystem, p: Path): (r: Result<FileSystem>)
    requires |p| > 0 && p !in fs
    ensures r.Ok? <==> |p| == 1 || IsDir(fs, Parent(p))
    ensures r.Ok? ==> r.value == fs[p := Dir]
    ensures r.Err? ==> Some(r.error) == ParentError(fs, p)
  {
    match ParentError(fs, p)
    case Some(e) => Err(e)
    case None => Ok(fs[p := Dir])
  }

  /** os.MkdirAll: succeed when `dir` already is a directory, fail when any of
      its prefixes is a regular file, and otherwise create every missing
      prefix as a directory. */
  function MkdirAll(fs: FileSystem, dir: Path): (r: Result<FileSystem>)
    ensures r.Err? <==> exists q :: q in Prefixes(dir) && IsFile(fs, q)
    ensures r.Err? ==> r.error == NotADirectory
    ensures r.Ok? ==> forall q :: q in Prefixes(dir) ==> IsDir(r.value, q)
    ensures r.Ok? ==> forall q :: q !in Prefixes(dir) ==> SameAt(fs, r.value, q)
    ensures r.Ok? ==> forall q :: q in fs ==> q in r.value && r.value[q] == fs[q]
  {
    if exists q :: q in Prefixes(dir) && IsFile(fs, q) then Err(NotADirectory)
    else Ok(map q | q in fs.Keys + Prefixes(dir) :: if q in fs then fs[q] else Dir)
  }

  /** os.WriteFile: create or truncate a regular file whose parent exists. */
  function WriteFile(fs: FileSystem, p: Path, data: Bytes): (r: Result<FileSystem>)
    ensures r.Ok? <==> ParentError(fs, p) == None && !IsDir(fs, p)
    ensures r.Err? && ParentError(fs, p) == None ==> r.error == IsADirectory
    ensures ParentError(fs, p).Some? ==> r == Err(ParentError(fs, p).value)
    ensures r.Ok? ==> r.value == fs[p := File(data)]
  {
    match ParentError(fs, p)
    case Some(e) => Err(e)
    case None => if IsDir(fs, p) then Err(IsADirectory) else Ok(fs[p := File(data)])
  }

  /** os.Rename of a regular file within one directory: it replaces a regular
      file or nothing at `to`, and refuses to replace a directory with EEXIST
      (the check os.Rename makes before calling rename(2)). */
  function RenameFile(fs: FileSystem, from: Path, to: Path): (r: Result<FileSystem>)
    requires IsFile(fs, from)
    ensures r.Err? <==> from != to && IsDir(fs, to)
    ensures r.Err? ==> r.error == AlreadyExists
    ensures r.Ok? ==> to in r.value && r.value[to] == fs[from]
    ensures r.Ok? && from != to ==> from !in r.value
    ensures r.Ok? ==> forall q :: q != from && q != to ==> SameAt(fs, r.value, q)
  {
    if from == to then Ok(fs)
    else if IsDir(fs, to) then Err(AlreadyExists)
    else Ok((fs - {from})[to := fs[from]])
  }

  /** os.RemoveAll: remove `p` and everything under it; a missing `p` is not an
      error. The base directory is the path ".", which os.RemoveAll refuses
      with EINVAL. */
  function RemoveAll(fs: FileSystem, p: Path): (r: Result<FileSystem>)
    ensures r.Err? <==> p == []
    ensures r.Err? ==> r.error == InvalidPath
    ensures r.Ok? ==> forall q :: q in r.value <==> q in fs && !IsPrefix(p, q)
    ensures r.Ok? ==> forall q :: q in r.value ==> r.value[q] == fs[q]
  {
    if p == [] then Err(InvalidPath)
    else Ok(map q | q in fs && !IsPrefix(p, q) :: fs[q])
  }

  /** os.ReadFile: the bytes of a regular file. */
  function ReadFile(fs: FileSystem, p: Path): (r: Result<Bytes>)
    ensures r.Ok? <==> IsFile(fs, p)
    ensures r.Ok? ==> r.value == fs[p].bytes
    ensures r.Err? ==> r.error == (if p in fs then IsADirectory else NotFound)
  {
    if p !in fs then Err(NotFound)
    else match fs[p]
      case Dir => Err(IsADirectory)
      case File(b) => Ok(b)
  }

  /** The names of the entries directly inside `dir`. */
  function Children(fs: FileSystem, dir: Path): (r: set<string>)
    ensures forall n :: n in r <==> dir + [n] in fs
  {
    var r := set p | p in fs && |p| == |dir| + 1 && p[..|dir|] == dir :: p[|dir|];
    assert forall n :: dir + [n] in fs ==> (dir + [n])[..|dir|] == dir;
    assert forall p :: |p| == |dir| + 1 && p[..|dir|] == dir ==> p == dir + [p[|dir|]];
    r
  }

  /** Removing a subtree keeps the tree well formed. */
  lemma RemoveSubtreeWellFormed(fs: FileSystem, fs': FileSystem, p: Path)
    requires WellFormed(fs)
    requires forall q :: q in fs' <==> q in fs && !IsPrefix(p, q)
    requires forall q :: q in fs' ==> fs'[q] == fs[q]
    ensures WellFormed(fs')
  {
    forall q | q in fs' && |q| > 1 ensures Parent(q) in fs' && fs'[Parent(q)] == Dir {
      assert Parent(q) in fs;
      assert !IsPrefix(p, Parent(q));
    }
  }

  /** Creating a directory inside an existing one keeps the tree well formed. */
  lemma MkdirWellFormed(fs: FileSystem, p: Path)
    requires WellFormed(fs) && |p| > 0 && p !in fs
    ensures Mkdir(fs, p).Ok? ==> WellFormed(Mkdir(fs, p).value)
  {
  }
}
