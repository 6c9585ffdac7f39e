# go-db storage engine — Dafny model

This project models the storage engine of go-db, a minimal embedded document
store that keeps one JSON file per record at `<root>/<collection>/<resource>.json`.
The engine (`Driver` in `main.go`) offers `Write`, `Read`, `ReadAll` and
`Delete`, resolves paths with a `stat` helper that falls back from `p` to
`p + ".json"`, writes crash-safely by staging `<resource>.json.tmp` and renaming
it over the final file, and hands out one lock per collection from a lazily
grown registry.

The model is a functional state machine:

- `FileSystem` is an immutable `map<Path, Node>` where a `Path` is a sequence of
  name segments below an implicit base directory and a `Node` is `Dir` or
  `File(bytes)`. The operating-system calls the engine makes (`os.Mkdir`,
  `os.MkdirAll`, `os.WriteFile`, `os.Rename`, `os.RemoveAll`, `os.ReadFile`,
  `os.ReadDir`) are pure functions over that map. Each call's outcome is
  decided by the shape of the tree: ENOENT for a missing parent or file,
  ENOTDIR when an ancestor is a regular file, EISDIR when a file operation
  meets a directory, EEXIST when a rename targets a directory and EINVAL when
  `os.RemoveAll` is given `.`.
- The empty path stands for `.`, the current directory the engine runs in
  (the demo passes `"./"`, main.go:233). It always exists and is never an
  entry of the map.
- `Driver` holds the store root, the filesystem and the lock registry. Every
  mutating operation returns a `Step`, which is the next driver state together
  with the result. `Read` and `ReadAll` return only a result, because they
  change nothing.
- `Write` is split into `StageWrite` and the final rename. `StageWrite` covers
  validation, locking, `MkdirAll`, encoding and the temp-file write. The state
  between the two halves is the state a crash before the rename leaves behind.
- JSON encoding and decoding are parameters: `encode: V -> Option<Bytes>` and
  `decode: Bytes -> Option<V>`. The round trip is assumed only where a lemma
  needs it.
- `os.ReadDir` returns entries sorted by filename, so `ReadAll` lists the
  collection in lexicographic order (`Order.Sorted`). That listing is unique
  (`Order.SortedUnique`).

Modules: `Results` (errors, bytes), `Paths`, `FileSystem`, `Order`, `Locks`
(the registry), `Driver` (the engine) and `Properties` (lemmas relating
several operations, and the invariants).

Behaviours of `main.go` that the model keeps as written:

- `ReadAll` returns records in filename order, because `os.ReadDir` sorts its
  entries (main.go:184).
- `ReadAll` also returns the `<r>.json.tmp` files that an interrupted `Write`
  leaves behind, because it reads every entry of the directory
  (main.go:188-193).
- `ReadAll` succeeds with no records when the collection directory is absent
  but a file `<root>/<collection>.json` exists. This happens because `stat`
  falls back to that path and the `os.ReadDir` error is discarded
  (main.go:179-184).
- `Delete` on a regular file removes `<path>.json` whichever path `stat`
  matched. When `<root>/c/r` is itself a regular file, that file stays in place
  and the call still reports success (main.go:134-135).
- `Delete` on a directory match removes the directory that `stat` found. When
  `<root>/c/r` is a directory, `Delete(c, r)` removes it, reports success and
  leaves `<r>.json` in place, so a later `Read` still returns the document
  (main.go:129-133).
- `Write` creates the collection directory before it encodes the value. A
  value that fails to encode therefore still leaves the directory behind
  (main.go:101-108).
- `Delete("", "")` resolves to the store root itself and removes it with
  `os.RemoveAll` (main.go:127-133). With the store at `.`, as in the demo, that
  call fails with EINVAL and removes nothing.

## Model

| member | source | states |
|---|---|---|
| Driver.Stat | main.go:72-78 | `.` is always a directory; for any other path, the node at `p` when `p` exists, otherwise the node at `p + ".json"`; NotFound exactly when both are absent |
| Driver.New | main.go:41-70 | reuses `.` and any root where a node already is, leaving the tree unchanged; otherwise creates the root as one directory, which succeeds exactly when its parent is a directory, and fails with ENOTDIR when an ancestor is a regular file and ENOENT otherwise; the registry starts empty |
| Driver.PathsOfResource | main.go:95-99 | for non-empty names the record path, `<r>.json` and `<r>.json.tmp` are three distinct entries of the collection directory, and the `stat` suffix of the record path is the resource file |
| Driver.StageWrite | main.go:80-114 | empty collection or resource names fail with the state untouched (no lock taken); otherwise the lock is registered; succeeds exactly when no prefix of the collection path is a file, the value encodes and the temp path is not a directory; on success the temp file holds encoding plus newline and only created directories and the temp file changed; a file among the collection's prefixes gives ENOTDIR with the tree unchanged; an encode failure gives EncodeFailed and leaves only the created collection directories; a directory at the temp path gives EISDIR and leaves only those directories; the resource file is never touched |
| Driver.Write | main.go:80-117 | same validation; succeeds exactly when StageWrite would and the resource path is not a directory; on success the collection is a directory, `<r>.json` holds encoding plus newline, no temp file remains, and every other path is unchanged apart from newly created ancestor directories; each failure gives its own error: ENOTDIR with the tree unchanged, EncodeFailed leaving the created directories, EISDIR on a directory at the temp path, and EEXIST when the rename meets a directory at `<r>.json`, which leaves the staged temp file behind; on any failure the resource file is unchanged |
| Driver.RenameFrame | main.go:116 | the rename adds no change beyond the temp and resource paths to the staged state's changes |
| Driver.ReadBytes | main.go:143-164 | rejects empty names; succeeds exactly when `<r>.json` is a regular file and returns its bytes; NotFound when it is absent (whether or not `stat` matched the record path), IsADirectory when it is a directory |
| Driver.Read | main.go:143-170 | rejects empty names; succeeds exactly when `<r>.json` is a regular file whose bytes decode, and then returns the decoded value; DecodeFailed when that file's bytes do not decode; NotFound when `<r>.json` is absent; IsADirectory when it is a directory |
| Driver.Delete | main.go:119-141 | no name validation; the collection lock is registered; with the store at `.` and both names empty, EINVAL with the tree unchanged; otherwise NotFound with the tree unchanged exactly when neither the path nor its `.json` sibling exists; a directory match removes that subtree; a file match removes the `.json` subtree; nothing is ever added or altered |
| Driver.ReadEach | main.go:186-194 | all entries are regular files exactly when the read succeeds, and then record i is entry i's bytes; otherwise the error is that of the first entry that is not a regular file, so no partial results |
| Driver.ListDir | main.go:184 | the directory's entry names, each exactly once, in strictly increasing filename order |
| Driver.ReadAll | main.go:172-199 | empty name rejected; NotFound when `stat` finds nothing; no records when `stat` matched something that is not a directory (listing error ignored); otherwise the records of every entry, temp files included, in filename order, one per entry, and none for an empty directory |
| Locks.Acquire | main.go:201-214 | the lock returned is the one registered for the name afterwards; a known name leaves the registry unchanged; an unknown name adds exactly one entry with a lock no other collection holds; existing entries are kept |
| Locks.AcquireIdempotent | main.go:205-212 | asking twice for the same name returns the same lock and changes nothing |
| Locks.AcquireKeepsIdentity | main.go:205-212 | registering other names never replaces a collection's lock |
| Locks.AcquirePreservesDistinct | main.go:207-210 | distinct collections keep distinct locks |
| FileSystem.Mkdir | main.go:68 | creates one directory exactly when its parent is a directory; otherwise ENOTDIR when an ancestor is a regular file and ENOENT when one is missing |
| FileSystem.MkdirAll | main.go:101-103 | fails with NotADirectory exactly when a prefix is a regular file; otherwise every prefix is a directory and nothing else changes |
| FileSystem.WriteFile | main.go:112-114 | creates or truncates the file exactly when its parent is a directory and the path is not a directory; ENOTDIR or ENOENT from the parent chain, EISDIR on a directory |
| FileSystem.RenameFile | main.go:116 | moves the file onto the target unless the target is a directory, which gives EEXIST; only those two paths change |
| FileSystem.RemoveAll | main.go:133-135 | removes the path and exactly the paths below it, keeping every other entry's content; a missing path is no error; `.` gives EINVAL |
| FileSystem.ReadFile | main.go:159-164 | the bytes of a regular file; NotFound when absent, IsADirectory on a directory |
| FileSystem.Children | main.go:184 | a name is listed exactly when the directory has an entry of that name |
| FileSystem.RemoveSubtreeWellFormed | main.go:133 | removing a subtree keeps every remaining entry inside a directory |
| Paths.Join | main.go:95-97 | an empty name joins to the base path itself; any other name adds one segment |
| Paths.WithSuffix | main.go:74 | `path + suffix` extends the last segment and keeps the parent |
| Paths.WithSuffixDiffers | main.go:73-74 | the `.json` fallback path always differs from the path tried first |
| Order.Insert | main.go:184 | inserting a new name into a sorted listing keeps it sorted and adds exactly that name |
| Order.SortedUnique | main.go:184 | two sorted listings of the same names are equal, so the `os.ReadDir` order is determined |
| Properties.WriteThenReadBytes | main.go:95-164 | after a successful Write, the byte read of the same names yields exactly the encoding plus newline |
| Properties.WriteThenRead | main.go:105-166 | Write then Read returns the written value whenever decode inverts encode on it |
| Properties.WriteListsResource | main.go:97-116 | after a successful Write the collection listing holds `<r>.json` and not `<r>.json.tmp` |
| Properties.ReadBytesLocal | main.go:153-159 | Read depends only on the record path and the resource file |
| Properties.CrashBeforeRenameReadsOld | main.go:112-116 | between the temp write and the rename, the resource file keeps its prior content or stays absent, and Read returns what it returned before the Write |
| Properties.WriteIsAllOrNothing | main.go:112-116 | in both the staged state and the final state the resource file is either untouched or holds the complete new document |
| Properties.WriteFailureIsStaged | main.go:112-116 | a failed Write leaves exactly the staged state, so a failed rename leaves the temp file behind |
| Properties.DeleteCollection | main.go:127-133 | Delete(c, "") on an existing collection succeeds and removes the collection directory and everything in it, nothing else |
| Properties.DeleteCollectionThenNotFound | main.go:127-133 | after Delete(c, "") `stat` finds no collection, so ReadAll fails with NotFound, unless a stray `<c>.json` file sits in the root |
| Properties.WriteKeepsRecordPath | main.go:95-116 | a successful Write leaves the record path `<root>/c/r` as it was and puts the document at `<r>.json` |
| Properties.DeleteRemovesResourceFile | main.go:127-135 | when `<r>.json` is a regular file and `<root>/c/r` is not a directory, Delete succeeds, removes `<r>.json`, and the byte read then fails with NotFound |
| Properties.DeleteRemovesRecordDirectory | main.go:127-133 | when `<root>/c/r` is a directory, Delete succeeds by removing that directory, and `<r>.json` still reads back its bytes |
| Properties.DeleteAfterWrite | main.go:95-135 | deleting a resource just written removes its file, and a subsequent read fails with NotFound, unless `<root>/c/r` is a directory |
| Properties.DeleteAfterWriteKeepsFileBesideDirectory | main.go:95-135 | when `<root>/c/r` is a directory, deleting a resource just written reports success and removes that directory, yet the read still returns the document just written |
| Properties.DeleteKeepsMatchedFile | main.go:134-135 | when `stat` matches `<root>/c/r` as a regular file, Delete reports success yet leaves that file and removes only `<r>.json` |
| Properties.DeleteEmptyNamesRemovesStore | main.go:119-133 | for a store root other than `.`, Delete("", "") resolves to the store root and removes the whole store |
| Properties.DeleteEmptyNamesAtCurrentDirectoryFails | main.go:127-133 | with the store at `.`, Delete("", "") fails with EINVAL and leaves the tree unchanged |
| Properties.NewValid | main.go:62-68 | New on a well-formed tree yields a valid driver |
| Properties.StageWriteValid | main.go:95-114 | the crash state between the temp write and the rename is valid |
| Properties.WriteSuccessWellFormed | main.go:101-116 | a successful Write keeps the tree well formed |
| Properties.ReplacedFileWellFormed | main.go:101-116 | creating the collection directories, then the resource file while the temp file goes away, keeps every entry inside a directory |
| Properties.WriteValid | main.go:80-117 | Write keeps the driver valid: well-formed tree, registry with allocated, distinct locks |
| Properties.DeleteValid | main.go:119-141 | Delete keeps the driver valid |
| Properties.NewIsIdempotent | main.go:62-65 | calling New again on the root a successful New left behind reuses it and changes nothing |

## Left out

- Locking and unlocking, and all concurrency (`sync.Mutex`, main.go:91-93, 123-125, 203-204): only the registry map is modelled. Mutual exclusion between callers is not sequential behaviour.
- JSON encoding and decoding (`json.MarshalIndent`, `json.Unmarshal`): these are the `encode` and `decode` parameters. The tab indentation of the output is not modelled.
- `filepath.Clean` and `filepath.Join` normalisation: names are assumed to be single segments with no separator, `.` or `..`. An empty name joins to the parent path. The store root is `.` (the empty path) or a path of such segments.
- OS failures that the tree shape does not decide (permissions, a full disk, file modes 0755/0644, symbolic links, special files) are not modelled. Delete's fall-through for a node that is neither a directory nor a regular file (main.go:138) cannot arise, because `Node` has only `Dir` and `File`.
- Driver.Stat: every failure is reported as NotFound. In Go a regular file among the ancestors gives ENOTDIR instead, which `ReadAll` passes on unchanged (main.go:179-181); `Read` and `Delete` replace any `stat` error with their own message, so only `ReadAll` sees the difference. In Go an ENOTDIR on the exact path also skips the `.json` fallback; in a well-formed tree the fallback path has the same parent, so it is absent too and the verdict is the same.
- FileSystem.RenameFile: models only the case `Write` uses, which is a regular file renamed within its own directory. Renaming a directory is not modelled.
- Error values are modelled by kind (`Results.Error`), not by message text.
- `ReadAll` returns each record as bytes rather than as a Go `string` of those bytes.
- The logger (`Logger`, `Options`, `lumber`, the debug messages in `New`), the `Version` constant, the demo types `User`/`Address` and `main`: these are not part of the engine.
