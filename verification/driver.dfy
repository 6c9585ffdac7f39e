/** The storage engine: a driver over a store root, its filesystem and its
    lock registry. Each operation is a transition from one driver state to
    the next together with the operation's result. */
module Driver {
  import opened Results
  import opened Paths
  import opened FileSystem
  import opened Order
  import opened Locks

  /** `root` is the cleaned directory given to `New`; the empty path is the
      current directory ".", the root the demo program uses. */
  datatype Driver = Driver(root: Path, fs: FileSystem, registry: Registry)

  /** The driver after an operation, and what the operation returned. */
  datatype Step<T> = Step(driver: Driver, result: Result<T>)

  const JsonSuffix := ".json"
  const TempSuffix := ".tmp"

  /** `<root>/<collection>` */
  function CollectionPath(root: Path, collection: string): Path {
    Join(root, collection)
  }

  /** `<root>/<collection>/<resource>`: the path Read and Delete resolve. */
  function RecordPath(root: Path, collection: string, resource: string): Path {
    Join(Join(root, collection), resource)
  }

  /** `<root>/<collection>/<resource>.json`: where Write stores a resource. */
  function ResourcePath(root: Path, collection: string, resource: string): Path {
    Join(CollectionPath(root, collection), resource + JsonSuffix)
  }

  /** `<root>/<collection>/<resource>.json.tmp`: where Write stages it. */
  function TempPath(root: Path, collection: string, resource: string): Path {
    WithSuffix(ResourcePath(root, collection, resource), TempSuffix)
  }

  /** For non-empty names, the resource file is the record path with the
      `.json` suffix, and the three paths are distinct files of the
      collection directory. */
  lemma PathsOfResource(root: Path, c: string, r: string)
    requires c != "" && r != ""
    ensures ResourcePath(root, c, r) == WithSuffix(RecordPath(root, c, r), JsonSuffix)
    ensures ResourcePath(root, c, r) == root + [c, r + JsonSuffix]
    ensures TempPath(root, c, r) == root + [c, r + JsonSuffix + TempSuffix]
    ensures RecordPath(root, c, r) == root + [c, r]
    ensures ResourcePath(root, c, r) != TempPath(root, c, r)
    ensures RecordPath(root, c, r) != ResourcePath(root, c, r)
    ensures RecordPath(root, c, r) != TempPath(root, c, r)
  {
    assert |r + JsonSuffix| != |r| && |r + JsonSuffix + TempSuffix| != |r + JsonSuffix|;
    assert |r + JsonSuffix + TempSuffix| != |r|;
  }

  /** Some ancestor of `dir`, or `dir` itself, is a regular file, so MkdirAll
      on it fails. */
  predicate Blocked(fs: FileSystem, dir: Path) {
    exists q :: q in Prefixes(dir) && IsFile(fs, q)
  }

  /** New: reuse the root when anything is there already (the current
      directory always is), otherwise create it as one directory. The
      registry always starts empty. */
  function New(fs: FileSystem, root: Path): (s: Step<()>)
    ensures s.driver.root == root && s.driver.registry == Empty()
    ensures root == [] || root in fs ==> s.result == Ok(()) && s.driver.fs == fs
    ensures root != [] && root !in fs ==> (s.result.Ok? <==> |root| == 1 || IsDir(fs, Parent(root)))
    ensures root != [] && root !in fs && s.result.Ok? ==> s.driver.fs == fs[root := Dir]
    ensures root != [] && root !in fs && s.result.Err? ==>
      s.result.error == (if Blocked(fs, Parent(root)) then NotADirectory else NotFound)
    ensures s.result.Err? ==> s.driver.fs == fs
  {
    var d := Driver(root, fs, Empty());
    if root == [] || root in fs then Step(d, Ok(()))
    else match Mkdir(fs, root)
      case Err(e) => Step(d, Err(e))
      case Ok(fs') => Step(d.(fs := fs'), Ok(()))
  }

  /** stat: the node at `p`, or, only when `p` is absent, the node at
      `p + ".json"`. The current directory always exists. */
  function Stat(fs: FileSystem, p: Path): (r: Result<Node>)
    ensures p == [] ==> r == Ok(Dir)
    ensures p != [] ==> (r.Ok? <==> p in fs || WithSuffix(p, JsonSuffix) in fs)
    ensures p != [] && p in fs ==> r.value == fs[p]
    ensures p != [] && p !in fs && r.Ok? ==> r.value == fs[WithSuffix(p, JsonSuffix)]
    ensures r.Err? ==> r.error == NotFound
  {
    if p == [] then Ok(Dir)
    else if p in fs then Ok(fs[p])
    else if WithSuffix(p, JsonSuffix) in fs then Ok(fs[WithSuffix(p, JsonSuffix)])
    else Err(NotFound)
  }

  /** `fs'` agrees with `fs` everywhere except at `except` paths, and at the
      directories created along `dir`. */
  ghost predicate ChangedOnly(fs: FileSystem, fs': FileSystem, dir: Path, except: set<Path>) {
    && (forall q :: q in Prefixes(dir) ==> IsDir(fs', q))
    && forall p :: p !in except ==> SameAt(fs, fs', p) || (p in Prefixes(dir) && p !in fs)
  }

  /** The first half of Write: validate the names, take the collection's
      lock, create the collection directory, encode and stage the document in
      the temporary file. This is also the state a crash before the rename
      leaves behind. */
  function StageWrite<V>(d: Driver, c: string, r: string, v: V, encode: V -> Option<Bytes>): (s: Step<()>)
    ensures c == "" ==> s == Step(d, Err(MissingCollection))
    ensures c != "" && r == "" ==> s == Step(d, Err(MissingResource))
    ensures c != "" && r != "" ==>
      s.driver.root == d.root && s.driver.registry == Acquire(d.registry, c).0
    ensures s.result.Ok? <==>
      && c != "" && r != ""
      && !Blocked(d.fs, CollectionPath(d.root, c))
      && encode(v).Some?
      && !IsDir(d.fs, TempPath(d.root, c, r))
    ensures s.result.Ok? ==>
      && TempPath(d.root, c, r) in s.driver.fs
      && s.driver.fs[TempPath(d.root, c, r)] == File(encode(v).value + [Newline])
      && ChangedOnly(d.fs, s.driver.fs, CollectionPath(d.root, c), {TempPath(d.root, c, r)})
    ensures c != "" && r != "" && Blocked(d.fs, CollectionPath(d.root, c)) ==>
      s.result == Err(NotADirectory) && s.driver.fs == d.fs
    ensures c != "" && r != "" && !Blocked(d.fs, CollectionPath(d.root, c)) && encode(v).None? ==>
      && s.result == Err(EncodeFailed)
      && ChangedOnly(d.fs, s.driver.fs, CollectionPath(d.root, c), {})
    ensures c != "" && r != "" && !Blocked(d.fs, CollectionPath(d.root, c)) && encode(v).Some?
            && IsDir(d.fs, TempPath(d.root, c, r)) ==>
      && s.result == Err(IsADirectory)
      && ChangedOnly(d.fs, s.driver.fs, CollectionPath(d.root, c), {})
    ensures SameAt(d.fs, s.driver.fs, ResourcePath(d.root, c, r))
  {
    if c == "" then Step(d, Err(MissingCollection))
    else if r == "" then Step(d, Err(MissingResource))
    else
      var d1 := d.(registry := Acquire(d.registry, c).0);
      var dir := CollectionPath(d.root, c);
      var tmp := TempPath(d.root, c, r);
      PathsOfResource(d.root, c, r);
      match MkdirAll(d.fs, dir)
      case Err(e) => Step(d1, Err(e))
      case Ok(fs1) =>
        match encode(v)
        case None => Step(d1.(fs := fs1), Err(EncodeFailed))
        case Some(b) =>
          assert Parent(tmp) == dir && IsDir(fs1, dir);
          match WriteFile(fs1, tmp, b + [Newline])
          case Err(e) => Step(d1.(fs := fs1), Err(e))
          case Ok(fs2) => Step(d1.(fs := fs2), Ok(()))
  }

  /** Renaming the staged file onto the resource file adds no change beyond
      those two paths. */
  lemma RenameFrame(fs: FileSystem, fs2: FileSystem, fs3: FileSystem, dir: Path, tmp: Path, final: Path)
    requires |final| == |dir| + 1 && |tmp| == |dir| + 1
    requires ChangedOnly(fs, fs2, dir, {tmp})
    requires forall q :: q != tmp && q != final ==> SameAt(fs2, fs3, q)
    ensures ChangedOnly(fs, fs3, dir, {final, tmp})
  {
    forall q | q in Prefixes(dir) ensures IsDir(fs3, q) {
      assert |q| <= |dir| && q != tmp && q != final;
      assert IsDir(fs2, q) && SameAt(fs2, fs3, q);
    }
    forall q | q != final && q != tmp
      ensures SameAt(fs, fs3, q) || (q in Prefixes(dir) && q !in fs)
    {
      assert SameAt(fs2, fs3, q);
    }
  }

  /** The conditions under which Write succeeds: non-empty names, no regular
      file in the way of the collection directory, an encodable value, and
      neither the temporary nor the final path taken by a directory. */
  predicate CanWrite<V>(d: Driver, c: string, r: string, v: V, encode: V -> Option<Bytes>) {
    && c != "" && r != ""
    && !Blocked(d.fs, CollectionPath(d.root, c))
    && encode(v).Some?
    && !IsDir(d.fs, TempPath(d.root, c, r))
    && !IsDir(d.fs, ResourcePath(d.root, c, r))
  }

  /** Write: StageWrite, then rename the temporary file onto the resource
      file. */
  function Write<V>(d: Driver, c: string, r: string, v: V, encode: V -> Option<Bytes>): (s: Step<()>)
    ensures c == "" ==> s == Step(d, Err(MissingCollection))
    ensures c != "" && r == "" ==> s == Step(d, Err(MissingResource))
    ensures c != "" && r != "" ==>
      s.driver.root == d.root && s.driver.registry == Acquire(d.registry, c).0
    ensures s.result.Ok? <==> CanWrite(d, c, r, v, encode)
    ensures s.result.Ok? ==>
      && IsDir(s.driver.fs, CollectionPath(d.root, c))
      && ResourcePath(d.root, c, r) in s.driver.fs
      && s.driver.fs[ResourcePath(d.root, c, r)] == File(encode(v).value + [Newline])
      && TempPath(d.root, c, r) !in s.driver.fs
      && ChangedOnly(d.fs, s.driver.fs, CollectionPath(d.root, c),
                     {ResourcePath(d.root, c, r), TempPath(d.root, c, r)})
    ensures c != "" && r != "" && Blocked(d.fs, CollectionPath(d.root, c)) ==>
      s.result == Err(NotADirectory) && s.driver.fs == d.fs
    ensures c != "" && r != "" && !Blocked(d.fs, CollectionPath(d.root, c)) && encode(v).None? ==>
      && s.result == Err(EncodeFailed)
      && ChangedOnly(d.fs, s.driver.fs, CollectionPath(d.root, c), {})
    ensures c != "" && r != "" && !Blocked(d.fs, CollectionPath(d.root, c)) && encode(v).Some?
            && IsDir(d.fs, TempPath(d.root, c, r)) ==>
      && s.result == Err(IsADirectory)
      && ChangedOnly(d.fs, s.driver.fs, CollectionPath(d.root, c), {})
    ensures c != "" && r != "" && !Blocked(d.fs, CollectionPath(d.root, c)) && encode(v).Some?
            && !IsDir(d.fs, TempPath(d.root, c, r)) && IsDir(d.fs, ResourcePath(d.root, c, r)) ==>
      && s.result == Err(AlreadyExists)
      && TempPath(d.root, c, r) in s.driver.fs
      && s.driver.fs[TempPath(d.root, c, r)] == File(encode(v).value + [Newline])
      && ChangedOnly(d.fs, s.driver.fs, CollectionPath(d.root, c), {TempPath(d.root, c, r)})
    ensures s.result.Err? ==> SameAt(d.fs, s.driver.fs, ResourcePath(d.root, c, r))
  {
    var staged := StageWrite(d, c, r, v, encode);
    if staged.result.Err? then staged
    else
      PathsOfResource(d.root, c, r);
      var tmp := TempPath(d.root, c, r);
      var final := ResourcePath(d.root, c, r);
      match RenameFile(staged.driver.fs, tmp, final)
      case Err(e) => Step(staged.driver, Err(e))
      case Ok(fs3) =>
        RenameFrame(d.fs, staged.driver.fs, fs3, CollectionPath(d.root, c), tmp, final);
        Step(staged.driver.(fs := fs3), Ok(()))
  }

  /** Read up to the decoding step: the raw bytes of the resource file. */
  function ReadBytes(d: Driver, c: string, r: string): (res: Result<Bytes>)
    ensures c == "" ==> res == Err(MissingCollection)
    ensures c != "" && r == "" ==> res == Err(MissingResource)
    ensures res.Ok? <==> c != "" && r != "" && IsFile(d.fs, ResourcePath(d.root, c, r))
    ensures res.Ok? ==> res.value == d.fs[ResourcePath(d.root, c, r)].bytes
    ensures c != "" && r != "" && ResourcePath(d.root, c, r) !in d.fs ==> res == Err(NotFound)
    ensures c != "" && r != "" && IsDir(d.fs, ResourcePath(d.root, c, r)) ==> res == Err(IsADirectory)
  {
    if c == "" then Err(MissingCollection)
    else if r == "" then Err(MissingResource)
    else
      PathsOfResource(d.root, c, r);
      var record := RecordPath(d.root, c, r);
      if Stat(d.fs, record).Err? then Err(NotFound)
      else ReadFile(d.fs, WithSuffix(record, JsonSuffix))
  }

  /** Read: the decoded resource. */
  function Read<V>(d: Driver, c: string, r: string, decode: Bytes -> Option<V>): (res: Result<V>)
    ensures c == "" ==> res == Err(MissingCollection)
    ensures c != "" && r == "" ==> res == Err(MissingResource)
    ensures res.Ok? <==>
      && c != "" && r != ""
      && IsFile(d.fs, ResourcePath(d.root, c, r))
      && decode(d.fs[ResourcePath(d.root, c, r)].bytes).Some?
    ensures res.Ok? ==> decode(d.fs[ResourcePath(d.root, c, r)].bytes) == Some(res.value)
    ensures c != "" && r != "" && IsFile(d.fs, ResourcePath(d.root, c, r))
            && decode(d.fs[ResourcePath(d.root, c, r)].bytes).None? ==>
      res == Err(DecodeFailed)
    ensures c != "" && r != "" && ResourcePath(d.root, c, r) !in d.fs ==> res == Err(NotFound)
    ensures c != "" && r != "" && IsDir(d.fs, ResourcePath(d.root, c, r)) ==> res == Err(IsADirectory)
  {
    match ReadBytes(d, c, r)
    case Err(e) => Err(e)
    case Ok(b) =>
      match decode(b)
      case None => Err(DecodeFailed)
      case Some(v) => Ok(v)
  }

  /** Delete: no name validation; remove the directory `stat` finds together
      with everything under it, or, when `stat` finds a regular file, remove
      `<path>.json` whichever of the two paths matched. When both names are
      empty and the root is the current directory, os.RemoveAll refuses. */
  function Delete(d: Driver, c: string, r: string): (s: Step<()>)
    ensures s.driver.root == d.root && s.driver.registry == Acquire(d.registry, c).0
    ensures RecordPath(d.root, c, r) == [] ==> s.result == Err(InvalidPath)
    ensures RecordPath(d.root, c, r) != [] ==> (s.result.Err? <==>
      RecordPath(d.root, c, r) !in d.fs && WithSuffix(RecordPath(d.root, c, r), JsonSuffix) !in d.fs)
    ensures RecordPath(d.root, c, r) != [] && s.result.Err? ==> s.result.error == NotFound
    ensures s.result.Err? ==> s.driver.fs == d.fs
    ensures RecordPath(d.root, c, r) != [] && Stat(d.fs, RecordPath(d.root, c, r)) == Ok(Dir) ==>
      forall q :: q in s.driver.fs <==> q in d.fs && !IsPrefix(RecordPath(d.root, c, r), q)
    ensures Stat(d.fs, RecordPath(d.root, c, r)).Ok? && Stat(d.fs, RecordPath(d.root, c, r)).value.File? ==>
      forall q :: q in s.driver.fs <==>
        q in d.fs && !IsPrefix(WithSuffix(RecordPath(d.root, c, r), JsonSuffix), q)
    ensures forall q :: q in s.driver.fs ==> q in d.fs && s.driver.fs[q] == d.fs[q]
  {
    var comp := RecordPath(d.root, c, r);
    var d1 := d.(registry := Acquire(d.registry, c).0);
    match Stat(d.fs, comp)
    case Err(_) => Step(d1, Err(NotFound))
    case Ok(Dir) =>
      (match RemoveAll(d.fs, comp)
       case Err(e) => Step(d1, Err(e))
       case Ok(fs') => Step(d1.(fs := fs'), Ok(())))
    case Ok(File(_)) =>
      (match RemoveAll(d.fs, WithSuffix(comp, JsonSuffix))
       case Err(e) => Step(d1, Err(e))
       case Ok(fs') => Step(d1.(fs := fs'), Ok(())))
  }

  /** The raw contents of the entries `names` of `dir`, in order; the first
      entry that is not a regular file aborts the whole read with its error. */
  function ReadEach(fs: FileSystem, dir: Path, names: seq<string>): (r: Result<seq<Bytes>>)
    ensures r.Ok? <==> forall i :: 0 <= i < |names| ==> IsFile(fs, dir + [names[i]])
    ensures r.Ok? ==> |r.value| == |names|
    ensures r.Ok? ==> forall i :: 0 <= i < |names| ==> r.value[i] == fs[dir + [names[i]]].bytes
    ensures r.Err? ==> exists i ::
      && 0 <= i < |names|
      && (forall j :: 0 <= j < i ==> IsFile(fs, dir + [names[j]]))
      && ReadFile(fs, dir + [names[i]]).Err?
      && r.error == ReadFile(fs, dir + [names[i]]).error
  {
    if names == [] then Ok([])
    else match ReadFile(fs, dir + [names[0]])
      case Err(e) => Err(e)
      case Ok(b) =>
        match ReadEach(fs, dir, names[1..])
        case Err(e) =>
          ghost var i :| && 0 <= i < |names[1..]|
                         && (forall j :: 0 <= j < i ==> IsFile(fs, dir + [names[1..][j]]))
                         && ReadFile(fs, dir + [names[1..][i]]).Err?
                         && e == ReadFile(fs, dir + [names[1..][i]]).error;
          assert forall j :: 0 <= j < i + 1 ==> IsFile(fs, dir + [names[j]]) by {
            forall j | 0 <= j < i + 1 ensures IsFile(fs, dir + [names[j]]) {
              if j > 0 { assert names[j] == names[1..][j - 1]; }
            }
          }
          assert names[i + 1] == names[1..][i];
          Err(e)
        case Ok(bs) =>
          assert forall i :: 0 < i < |names| ==> names[i] == names[1..][i - 1];
          Ok([b] + bs)
  }

  /** os.ReadDir's listing of `dir`: every entry name once, sorted by name. */
  method ListDir(fs: FileSystem, dir: Path) returns (names: seq<string>)
    ensures Sorted(names)
    ensures forall n :: n in names <==> n in Children(fs, dir)
    ensures |names| == |Children(fs, dir)|
  {
    var rest := Children(fs, dir);
    names := [];
    while rest != {}
      invariant Sorted(names)
      invariant forall n :: n in Children(fs, dir) <==> n in names || n in rest
      invariant forall n :: n in names ==> n !in rest
      invariant |names| + |rest| == |Children(fs, dir)|
      decreases rest
    {
      var n :| n in rest;
      names := Insert(names, n);
      assert rest == (rest - {n}) + {n};
      rest := rest - {n};
    }
  }

  /** ReadAll: the raw content of every entry of the collection directory in
      filename order, temporary files included. A failed listing is ignored
      and reads as an empty directory. */
  method ReadAll(d: Driver, c: string) returns (r: Result<seq<Bytes>>)
    ensures c == "" ==> r == Err(MissingCollection)
    ensures c != "" && Stat(d.fs, CollectionPath(d.root, c)).Err? ==> r == Err(NotFound)
    ensures c != "" && Stat(d.fs, CollectionPath(d.root, c)).Ok? && !IsDir(d.fs, CollectionPath(d.root, c)) ==>
      r == Ok([])
    ensures c != "" && IsDir(d.fs, CollectionPath(d.root, c)) ==>
      forall names :: Sorted(names) && (forall n :: n in names <==> n in Children(d.fs, CollectionPath(d.root, c))) ==>
        r == ReadEach(d.fs, CollectionPath(d.root, c), names)
    ensures c != "" && IsDir(d.fs, CollectionPath(d.root, c)) && r.Ok? ==>
      |r.value| == |Children(d.fs, CollectionPath(d.root, c))|
    ensures c != "" && IsDir(d.fs, CollectionPath(d.root, c)) && Children(d.fs, CollectionPath(d.root, c)) == {} ==>
      r == Ok([])
  {
    if c == "" {
      return Err(MissingCollection);
    }
    var dir := CollectionPath(d.root, c);
    if Stat(d.fs, dir).Err? {
      return Err(NotFound);
    }
    if !IsDir(d.fs, dir) {
      return Ok([]);
    }
    var names := ListDir(d.fs, dir);
    r := ReadEach(d.fs, dir, names);
    forall other | Sorted(other) && (forall n :: n in other <==> n in Children(d.fs, dir))
      ensures r == ReadEach(d.fs, dir, other)
    {
      SortedUnique(names, other);
    }
  }
}
