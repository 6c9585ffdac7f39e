/** Properties that relate several operations of the storage engine: the
    write/read round trip, atomicity of a write interrupted before its
    rename, the effects of Delete, and the invariants every operation keeps. */
module Properties {
  import opened Results
  import opened Paths
  import opened FileSystem
  import opened Order
  import opened Locks
  import opened Driver

  /** What every reachable driver state satisfies: a well-formed tree and a
      registry that hands out distinct, allocated locks. */
  predicate Valid(d: Driver) {
    WellFormed(d.fs) && d.registry.Valid() && d.registry.Distinct()
  }

  // ---------------------------------------------------------------- Write/Read

  /** After a successful Write, Read of the same names yields exactly the
      bytes Write stored: the encoding followed by a newline. */
  lemma WriteThenReadBytes<V>(d: Driver, c: string, r: string, v: V, encode: V -> Option<Bytes>)
    requires CanWrite(d, c, r, v, encode)
    ensures ReadBytes(Write(d, c, r, v, encode).driver, c, r) == Ok(encode(v).value + [Newline])
  {
  }

  /** Write then Read returns the written value whenever the decoder inverts
      the encoder on it. */
  lemma WriteThenRead<V>(d: Driver, c: string, r: string, v: V,
                         encode: V -> Option<Bytes>, decode: Bytes -> Option<V>)
    requires CanWrite(d, c, r, v, encode)
    requires decode(encode(v).value + [Newline]) == Some(v)
    ensures Read(Write(d, c, r, v, encode).driver, c, r, decode) == Ok(v)
  {
    WriteThenReadBytes(d, c, r, v, encode);
  }

  /** A successful Write leaves the resource, and not its temporary file, in
      the collection's directory listing. */
  lemma WriteListsResource<V>(d: Driver, c: string, r: string, v: V, encode: V -> Option<Bytes>)
    requires CanWrite(d, c, r, v, encode)
    ensures r + JsonSuffix in Children(Write(d, c, r, v, encode).driver.fs, CollectionPath(d.root, c))
    ensures r + JsonSuffix + TempSuffix !in Children(Write(d, c, r, v, encode).driver.fs, CollectionPath(d.root, c))
  {
    PathsOfResource(d.root, c, r);
  }

  // ----------------------------------------------------------- crash atomicity

  /** ReadBytes looks at two paths only: the record path and the resource file. */
  lemma ReadBytesLocal(d: Driver, d': Driver, c: string, r: string)
    requires d.root == d'.root
    requires SameAt(d.fs, d'.fs, RecordPath(d.root, c, r))
    requires SameAt(d.fs, d'.fs, ResourcePath(d.root, c, r))
    ensures ReadBytes(d, c, r) == ReadBytes(d', c, r)
  {
    if c != "" && r != "" {
      PathsOfResource(d.root, c, r);
    }
  }

  /** Crash atomicity: in the state between the temporary-file write and the
      rename, the resource file still holds its prior content (or is still
      absent), so a reader sees exactly what it saw before the Write began. */
  lemma CrashBeforeRenameReadsOld<V>(d: Driver, c: string, r: string, v: V,
                                     encode: V -> Option<Bytes>, decode: Bytes -> Option<V>)
    ensures SameAt(d.fs, StageWrite(d, c, r, v, encode).driver.fs, ResourcePath(d.root, c, r))
    ensures Read(StageWrite(d, c, r, v, encode).driver, c, r, decode) == Read(d, c, r, decode)
  {
    var mid := StageWrite(d, c, r, v, encode).driver;
    if c != "" && r != "" {
      PathsOfResource(d.root, c, r);
      var dir := CollectionPath(d.root, c);
      var record := RecordPath(d.root, c, r);
      assert record !in Prefixes(dir);
      assert record != TempPath(d.root, c, r);
      ReadBytesLocal(d, mid, c, r);
    }
  }

  /** A Write is the staged state followed by one rename: whichever of the
      two states a crash leaves, the resource file is either untouched or
      holds the complete new document. */
  lemma WriteIsAllOrNothing<V>(d: Driver, c: string, r: string, v: V, encode: V -> Option<Bytes>)
    requires c != "" && r != "" && encode(v).Some?
    ensures var final := ResourcePath(d.root, c, r);
      && SameAt(d.fs, StageWrite(d, c, r, v, encode).driver.fs, final)
      && (|| SameAt(d.fs, Write(d, c, r, v, encode).driver.fs, final)
          || (final in Write(d, c, r, v, encode).driver.fs
              && Write(d, c, r, v, encode).driver.fs[final] == File(encode(v).value + [Newline])))
  {
  }

  // -------------------------------------------------------------------- Delete

  /** Delete(c, "") on an existing collection removes the collection directory
      and everything inside it, and nothing else. */
  lemma DeleteCollection(d: Driver, c: string)
    requires c != "" && IsDir(d.fs, CollectionPath(d.root, c))
    ensures Delete(d, c, "").result == Ok(())
    ensures forall q :: q in Delete(d, c, "").driver.fs <==>
      q in d.fs && !IsPrefix(CollectionPath(d.root, c), q)
  {
  }

  /** After Delete(c, ""), the collection is gone for ReadAll: `stat` finds
      nothing, unless a stray `<root>/<c>.json` sits beside it. */
  lemma DeleteCollectionThenNotFound(d: Driver, c: string)
    requires c != "" && IsDir(d.fs, CollectionPath(d.root, c))
    requires WithSuffix(CollectionPath(d.root, c), JsonSuffix) !in d.fs
    ensures Stat(Delete(d, c, "").driver.fs, CollectionPath(d.root, c)) == Err(NotFound)
  {
    var dir := CollectionPath(d.root, c);
    assert IsPrefix(dir, dir);
  }

  /** Write leaves the record path as it was and puts the new document at
      `<r>.json`. */
  lemma WriteKeepsRecordPath<V>(d: Driver, c: string, r: string, v: V, encode: V -> Option<Bytes>)
    requires CanWrite(d, c, r, v, encode)
    ensures SameAt(d.fs, Write(d, c, r, v, encode).driver.fs, RecordPath(d.root, c, r))
    ensures IsFile(Write(d, c, r, v, encode).driver.fs, ResourcePath(d.root, c, r))
    ensures Write(d, c, r, v, encode).driver.fs[ResourcePath(d.root, c, r)].bytes
            == encode(v).value + [Newline]
  {
    PathsOfResource(d.root, c, r);
    assert RecordPath(d.root, c, r) !in Prefixes(CollectionPath(d.root, c));
  }

  /** Delete of a resource whose record path is not a directory removes
      `<r>.json`; Read then fails with NotFound. */
  lemma DeleteRemovesResourceFile(w: Driver, c: string, r: string)
    requires c != "" && r != ""
    requires IsFile(w.fs, ResourcePath(w.root, c, r)) && !IsDir(w.fs, RecordPath(w.root, c, r))
    ensures Delete(w, c, r).result == Ok(())
    ensures ResourcePath(w.root, c, r) !in Delete(w, c, r).driver.fs
    ensures ReadBytes(Delete(w, c, r).driver, c, r) == Err(NotFound)
  {
    PathsOfResource(w.root, c, r);
    var final := ResourcePath(w.root, c, r);
    assert IsPrefix(final, final);
  }

  /** Delete of a resource whose record path is a directory removes that
      directory and leaves `<r>.json` readable. */
  lemma DeleteRemovesRecordDirectory(w: Driver, c: string, r: string)
    requires c != "" && r != ""
    requires IsFile(w.fs, ResourcePath(w.root, c, r)) && IsDir(w.fs, RecordPath(w.root, c, r))
    ensures Delete(w, c, r).result == Ok(())
    ensures RecordPath(w.root, c, r) !in Delete(w, c, r).driver.fs
    ensures ReadBytes(Delete(w, c, r).driver, c, r) == Ok(w.fs[ResourcePath(w.root, c, r)].bytes)
  {
    PathsOfResource(w.root, c, r);
    var record := RecordPath(w.root, c, r);
    assert IsPrefix(record, record);
    assert !IsPrefix(record, ResourcePath(w.root, c, r));
  }

  /** Deleting a resource just written removes its file, unless the record
      path itself is a directory; Read then fails with NotFound. */
  lemma DeleteAfterWrite<V>(d: Driver, c: string, r: string, v: V, encode: V -> Option<Bytes>)
    requires CanWrite(d, c, r, v, encode)
    requires !IsDir(d.fs, RecordPath(d.root, c, r))
    ensures Delete(Write(d, c, r, v, encode).driver, c, r).result == Ok(())
    ensures ResourcePath(d.root, c, r) !in Delete(Write(d, c, r, v, encode).driver, c, r).driver.fs
    ensures ReadBytes(Delete(Write(d, c, r, v, encode).driver, c, r).driver, c, r) == Err(NotFound)
  {
    WriteKeepsRecordPath(d, c, r, v, encode);
    DeleteRemovesResourceFile(Write(d, c, r, v, encode).driver, c, r);
  }

  /** When the record path is a directory, `stat` matches it and Delete
      removes that directory instead: the document just written survives and
      Read still returns it, although Delete reports success. */
  lemma DeleteAfterWriteKeepsFileBesideDirectory<V>(d: Driver, c: string, r: string, v: V, encode: V -> Option<Bytes>)
    requires CanWrite(d, c, r, v, encode)
    requires IsDir(d.fs, RecordPath(d.root, c, r))
    ensures Delete(Write(d, c, r, v, encode).driver, c, r).result == Ok(())
    ensures RecordPath(d.root, c, r) !in Delete(Write(d, c, r, v, encode).driver, c, r).driver.fs
    ensures ReadBytes(Delete(Write(d, c, r, v, encode).driver, c, r).driver, c, r)
            == Ok(encode(v).value + [Newline])
  {
    WriteKeepsRecordPath(d, c, r, v, encode);
    DeleteRemovesRecordDirectory(Write(d, c, r, v, encode).driver, c, r);
  }

  /** When `stat` matches the exact record path as a regular file, Delete
      still removes `<record>.json`: the matched file stays where it was. */
  lemma DeleteKeepsMatchedFile(d: Driver, c: string, r: string)
    requires c != "" && r != "" && IsFile(d.fs, RecordPath(d.root, c, r))
    ensures Delete(d, c, r).result == Ok(())
    ensures RecordPath(d.root, c, r) in Delete(d, c, r).driver.fs
    ensures Delete(d, c, r).driver.fs[RecordPath(d.root, c, r)] == d.fs[RecordPath(d.root, c, r)]
    ensures ResourcePath(d.root, c, r) !in Delete(d, c, r).driver.fs
  {
    PathsOfResource(d.root, c, r);
    var final := ResourcePath(d.root, c, r);
    assert IsPrefix(final, final);
    assert !IsPrefix(final, RecordPath(d.root, c, r));
  }

  /** Delete("", "") finds the store root itself and removes the whole store. */
  lemma DeleteEmptyNamesRemovesStore(d: Driver)
    requires d.root != [] && IsDir(d.fs, d.root)
    ensures Delete(d, "", "").result == Ok(())
    ensures forall q :: q in Delete(d, "", "").driver.fs <==> q in d.fs && !IsPrefix(d.root, q)
  {
  }

  /** With the current directory as root, Delete("", "") resolves to "." and
      os.RemoveAll refuses it: nothing is removed. */
  lemma DeleteEmptyNamesAtCurrentDirectoryFails(d: Driver)
    requires d.root == []
    ensures Delete(d, "", "").result == Err(InvalidPath)
    ensures Delete(d, "", "").driver.fs == d.fs
  {
  }

  // ---------------------------------------------------------------- invariants

  /** A tree that changed only at directories created along `dir` and at
      regular files directly inside `dir` is still well formed. */
  lemma ChangedOnlyWellFormed(fs: FileSystem, fs': FileSystem, dir: Path, except: set<Path>)
    requires WellFormed(fs) && |dir| > 0
    requires ChangedOnly(fs, fs', dir, except)
    requires forall e :: e in except ==>
      |e| == |dir| + 1 && Parent(e) == dir && !IsDir(fs, e) && (e in fs' ==> fs'[e].File?)
    ensures WellFormed(fs')
  {
    assert dir in Prefixes(dir);
    forall p | p in fs' && |p| > 1 ensures Parent(p) in fs' && fs'[Parent(p)] == Dir {
      if p in except {
        assert IsDir(fs', dir);
      } else if p in Prefixes(dir) && p !in fs {
        assert Parent(p) in Prefixes(dir);
      } else {
        var q := Parent(p);
        assert SameAt(fs, fs', p);
        assert q in fs && fs[q] == Dir;
        assert q !in except;
        assert SameAt(fs, fs', q);
      }
    }
    assert [] !in except && [] !in Prefixes(dir);
    assert SameAt(fs, fs', []);
  }

  lemma NewValid(fs: FileSystem, root: Path)
    requires WellFormed(fs)
    ensures Valid(New(fs, root).driver)
  {
    if root != [] && root !in fs {
      MkdirWellFormed(fs, root);
    }
  }

  /** The state a crash between the two halves of Write leaves is valid. */
  lemma StageWriteValid<V>(d: Driver, c: string, r: string, v: V, encode: V -> Option<Bytes>)
    requires Valid(d)
    ensures Valid(StageWrite(d, c, r, v, encode).driver)
  {
    if c != "" && r != "" {
      AcquirePreservesDistinct(d.registry, c);
      PathsOfResource(d.root, c, r);
      var s := StageWrite(d, c, r, v, encode);
      var dir := CollectionPath(d.root, c);
      var tmp := TempPath(d.root, c, r);
      if s.result.Ok? {
        ChangedOnlyWellFormed(d.fs, s.driver.fs, dir, {tmp});
      } else if s.driver.fs != d.fs {
        ChangedOnlyWellFormed(d.fs, s.driver.fs, dir, {});
      }
    }
  }

  /** A failed Write leaves the staged state: either StageWrite failed, or
      the rename did and the temporary file remains. */
  lemma WriteFailureIsStaged<V>(d: Driver, c: string, r: string, v: V, encode: V -> Option<Bytes>)
    requires Write(d, c, r, v, encode).result.Err?
    ensures Write(d, c, r, v, encode).driver == StageWrite(d, c, r, v, encode).driver
  {
  }

  lemma WriteSuccessWellFormed<V>(d: Driver, c: string, r: string, v: V, encode: V -> Option<Bytes>)
    requires WellFormed(d.fs)
    requires CanWrite(d, c, r, v, encode)
    ensures WellFormed(Write(d, c, r, v, encode).driver.fs)
  {
    var fs' := Write(d, c, r, v, encode).driver.fs;
    PathsOfResource(d.root, c, r);
    ReplacedFileWellFormed(d.fs, fs', CollectionPath(d.root, c),
                           ResourcePath(d.root, c, r), TempPath(d.root, c, r));
  }

  /** Creating directories along `dir`, then a regular file `final` inside
      it while removing `tmp`, keeps the tree well formed. */
  lemma ReplacedFileWellFormed(fs: FileSystem, fs': FileSystem, dir: Path, final: Path, tmp: Path)
    requires WellFormed(fs) && |dir| > 0
    requires |final| == |dir| + 1 && Parent(final) == dir && !IsDir(fs, final)
    requires |tmp| == |dir| + 1 && Parent(tmp) == dir && !IsDir(fs, tmp)
    requires final in fs' && fs'[final].File? && tmp !in fs'
    requires ChangedOnly(fs, fs', dir, {final, tmp})
    ensures WellFormed(fs')
  {
    ChangedOnlyWellFormed(fs, fs', dir, {final, tmp});
  }

  lemma WriteValid<V>(d: Driver, c: string, r: string, v: V, encode: V -> Option<Bytes>)
    requires Valid(d)
    ensures Valid(Write(d, c, r, v, encode).driver)
  {
    var s := Write(d, c, r, v, encode);
    if s.result.Err? {
      WriteFailureIsStaged(d, c, r, v, encode);
      StageWriteValid(d, c, r, v, encode);
    } else {
      WriteSuccessWellFormed(d, c, r, v, encode);
      AcquirePreservesDistinct(d.registry, c);
    }
  }

  lemma DeleteValid(d: Driver, c: string, r: string)
    requires Valid(d)
    ensures Valid(Delete(d, c, r).driver)
  {
    AcquirePreservesDistinct(d.registry, c);
    var comp := RecordPath(d.root, c, r);
    var s := Delete(d, c, r);
    match Stat(d.fs, comp)
    case Err(_) =>
    case Ok(Dir) =>
      if s.result.Ok? {
        RemoveSubtreeWellFormed(d.fs, s.driver.fs, comp);
      }
    case Ok(File(_)) =>
      RemoveSubtreeWellFormed(d.fs, s.driver.fs, WithSuffix(comp, JsonSuffix));
  }

  /** Calling New again on the root a successful New left behind reuses it
      and changes nothing. */
  lemma NewIsIdempotent(fs: FileSystem, root: Path)
    requires New(fs, root).result.Ok?
    ensures New(New(fs, root).driver.fs, root) == New(fs, root)
  {
  }
}
