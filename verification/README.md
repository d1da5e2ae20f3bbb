# AppFS: filesystem, overlay and service protocols

AppFS keeps a POSIX-like filesystem in SQLite tables and mounts it, through FUSE, NFS or WinFsp, for
agents that a dashboard starts, watches and resumes. This project models the parts of it with the
most state and proves what they keep. A table is a map, a statement an update of it, a public call
one step.

| files | what they model |
|---|---|
| `chunk_store.dfy`, `whole_file.dfy`, `file.dfy` | file data in fixed-size chunks, refining one flat byte sequence; every run of it, careful or not; open file handles |
| `paths.dfy`, `tables.dfy`, `resolution.dfy` | path strings, the inode, dentry, data and symlink tables, symlink-following resolution |
| `namespace.dfy`, `rename.dfy`, `rename_exact.dfy`, `filesystem.dfy` | the namespace calls as functions on the tables, whole runs of them, what Rename does to every path and when it succeeds; the class that carries them out |
| `effects.dfy`, `call_effects.dfy` | all that each call changes in the tables, for all paths |
| `rename_view.dfy`, `errors.dfy` | Rename on a tree of paths; which error a call fails with |
| `view.dfy`, `overlay.dfy`, `overlay_exact.dfy`, `overlay_runs.dfy`, `overlay_fs.dfy` | what is at each path, the copy-on-write overlay over it, what its calls leave when they fail, runs of them, the class that carries it out |
| `overlay_inodes.dfy`, `overlay_join.dfy`, `delta_evolution.dfy`, `joined_runs.dfy` | the overlay's inode numbers; lookups through them against lookups by path, along whole runs |
| `number_changes.dfy`, `listing.dfy`, `overlay_modes.dfy` | which calls change the number of a path; directory listings by number; the modes of directories made |
| `common.dfy` | what all parts share |
| `wildcard.dfy`, `reparse.dfy` | the NT wildcard matcher with its memo; symlink reparse buffers |
| `event_bus.dfy`, `event_delivery.dfy` | event replay; what each client receives until its connection ends |
| `worker_pool.dfy`, `spawn_table.dfy`, `spawn_runs.dfy` | bounded-concurrency resume; the managed-agent table, and its runs told from their events |
| `nfs_paging.dfy`, `kv_like.dfy` | directory listing in pages; key prefixes as LIKE patterns |

Where the source changes state step by step the model is a class or a method with the source's loops,
proved equal to a function of the old state; the theorems are about those functions. `dafny verify
dfyconfig.toml` checks everything.

Words used below. A file is *tidy* when every stored chunk lies inside it and has the length its
place gives it, *dense* when no chunk is missing either. A path is *shown* when the overlay's union
has something there. The overlay's *closure* says that a whiteout covers a base entry together with
all its base children, that the delta has nothing at it, and that base children behind a delta file
are covered.

## Where the code does less than expected

Each of these is a theorem with its exact condition or its whole failing family.

- `Truncate(0)` keeps chunk 0, and growing again brings its bytes back.
- A write past the end of a file whose stored last chunk is short, or one that ends inside a missing
  chunk, leaves a short chunk; a read across it repeats a step of zero bytes for ever.
- `ReadFile` joins the stored rows, so it is right exactly when they are dense: no chunk missing, none
  short, and none left behind by `Truncate(0)`.
- A rename between two spellings of one entry, `Rename(p, p)` or one through a symlink, removes a file
  or an empty directory; every other successful rename leaves the entry at its destination.
- The textual subtree test of `Rename` does not see symlinks, and takes the leading `..` of a relative
  path for a name: a directory can be moved below itself and is then cut off from the root. When that
  happens is told from the tables before the call.
- The overlay's `WriteFile` on a directory that only the base has puts a file in front of it, and on a
  file that only the base has resets mode and owner.
- A failing overlay `Mkdir`, `MkdirAll` or `WriteFile` has already removed whiteouts, so deleted base
  entries can come back. For each of them the entry that comes back, and when none does, is told from
  the layers before the call. `Mkdir` fails when the parent is in the base only.
- A `WriteFile` changes the inode numbers of a written file that only the base has and of every such
  directory above it; a failing one, `Mkdir`, `MkdirAll` and the removals change exactly those told from
  the layers before them, and copy-up changes none. Until it is looked up again, a directory so
  renumbered is listed without what only the delta has.
- `Unlink`, `Rmdir` and `Rename` of a path directly below a file answer ENOENT, where looking it up answers
  ENOTDIR.
- A symlink target that starts with the NT prefix does not survive the reparse buffer.
- A client whose replay breaks off stays registered and misses events.
- NFS paging relies on distinct ids; two hard links in one directory can make it loop.
- Prefix queries on keys ignore ASCII case, although the key column is case-sensitive.

## Model

| member | source | states |
|---|---|---|
| `ChunkStore.RunRefines` | appfs/sdk/go/file.go:147-374 | Every run of positioned writes, truncations, replacements and truncating opens whose steps are safe, judged from the rows before each step, has the contents of the same run on a flat byte sequence, stays tidy, and can serve every read inside the file |
| `ChunkStore.StepRefines` | appfs/sdk/go/file.go:231-374 | One step on a tidy file gives the flat result for every argument, and leaves the file tidy if and only if the step is safe |
| `ChunkStore.PwriteSplices` | appfs/sdk/go/file.go:231-324 | On a tidy file a positioned write at any offset equals splicing the data into the flat sequence, with zeros in a gap |
| `ChunkStore.PwriteTidyExactly` | appfs/sdk/go/file.go:231-324 | The file stays tidy if and only if the write neither starts in a later chunk than a stored short last chunk nor ends inside a missing chunk that has more file behind it |
| `ChunkStore.PwriteInsideIsSafe` | appfs/sdk/go/file.go:231-324 | In a file without holes, a write at an offset up to the size leaves no short chunk |
| `ChunkStore.PwriteInsideIsDense` | appfs/sdk/go/file.go:231-324 | Such a write keeps the chunk indices exactly 0 to ceil(size / chunk size) - 1 and every chunk at its due length |
| `ChunkStore.LeftShortChunkBlocksReads` | appfs/sdk/go/file.go:205-218 | After a write that leaves a short chunk, no read that covers the end of that chunk can be served, whatever its offset and length |
| `ChunkStore.TruncateResizes` | appfs/sdk/go/file.go:327-375 | On a tidy file, Truncate gives the prefix, or the zero-extended sequence, of the flat contents |
| `ChunkStore.TruncateTidyExactly` | appfs/sdk/go/file.go:327-375 | Truncate keeps the file tidy if and only if it neither empties a file whose chunk 0 is stored nor grows a file whose stored last chunk is short |
| `ChunkStore.TruncateKeepsDense` | appfs/sdk/go/file.go:327-375 | Shrinking to a positive size keeps a file without holes so |
| `ChunkStore.TruncateToZeroResurrects` | appfs/sdk/go/file.go:337-363 | Truncating to 0 and growing again brings back the old bytes of chunk 0 where zeros are due |
| `WholeFile.ReadFileExactly` | appfs/sdk/go/filesystem.go:201-241 | Joining all rows gives the contents if and only if the rows are dense, for every file whose rows are as short as writes and truncations leave them |
| `WholeFile.ReadFileEveryRun` | appfs/sdk/go/file.go:231-374 | In every run of writes, truncations and replacements from a new file, safe or not, the rows stay so: ReadFile is right if and only if they are dense |
| `WholeFile.TruncatedToZeroReadsOld` | appfs/sdk/go/file.go:337-363 | After Truncate(0) of a file whose chunk 0 is stored, ReadFile returns that chunk and not the empty contents |
| `WholeFile.EveryRunContents` | appfs/sdk/go/file.go:231-374 | After every run of writes, truncations and replacements from a new file, safe or not, size and contents are told from the calls alone: each byte is that of the last write there, or zero if a truncation below it came later, except that Truncate(0) spares the first chunk |
| `ChunkStore.CutIsDense` | appfs/sdk/go/filesystem.go:1116-1132 | Data cut into rows is dense, has the data as its contents, and joins back to the data |
| `ChunkStore.CutRows` | appfs/sdk/go/filesystem.go:1116-1132 | The writeChunks loop stores exactly the slices of the data, one per chunk index |
| `ChunkStore.TidyReadable` | appfs/sdk/go/file.go:147-225 | Every read inside a tidy file meets only chunks that reach as far as it does |
| `FileHandle.File.Pread` | appfs/sdk/go/file.go:147-225 | The read copies the clipped slice of the flat contents and leaves the rest of the buffer alone, or reports the missing inode, or is recorded as a loop without progress or a slice out of range, each exactly when the rows are so |
| `FileHandle.File.ReadRange` | appfs/sdk/go/file.go:191-224 | The chunk loop returns if and only if every chunk met reaches far enough; it fails by a crossed slice exactly when the first chunk ends before the offset, else it repeats for ever |
| `FileHandle.NextPiece` | appfs/sdk/go/file.go:195-218 | One round of the read loop: a positive step yields the next slice of the contents; a zero or negative step means the read cannot be served |
| `FileHandle.File.Pwrite` | appfs/sdk/go/file.go:231-324 | The write loop leaves the rows and size of the specification, returns the number of bytes, and touches nothing when the inode is gone or the data is empty |
| `FileHandle.MergeChunk` | appfs/sdk/go/file.go:271-309 | One round of the write loop: the old chunk zero-extended as far as the data reaches, with the data on top |
| `FileHandle.File.Truncate` | appfs/sdk/go/file.go:327-375 | The row deletions and the cut of the last chunk leave the rows and size of the specification |
| `FileHandle.File.Read` | appfs/sdk/go/file.go:64-74 | A sequential read is a positioned read at the offset, advances it by what was copied, and says end of file exactly on an empty read |
| `FileHandle.File.Write` | appfs/sdk/go/file.go:78-82 | A sequential write is a positioned write at the offset and advances it by what was written |
| `FileHandle.File.Seek` | appfs/sdk/go/file.go:90-116 | The new offset counts from start, position or size; a negative result, a bad whence or a missing inode leaves the offset alone |
| `FileHandle.TidyReadsReturn` | appfs/sdk/go/file.go:147-225 | A tidy file serves every read, with any buffer at any offset, with the clipped number of bytes |
| `FileHandle.ReadBack` | appfs/sdk/go/file.go:147-324 | After a safe write the same range reads back the data, and the bytes before it are as they were |
| `FileHandle.InodeRows.ReadAll` | appfs/sdk/go/filesystem.go:217-234 | The ReadFile loop joins all rows in index order |
| `FileHandle.InodeRows.Replace` | appfs/sdk/go/filesystem.go:281-296 | WriteFile on an existing file replaces all its rows and its size |
| `Paths.NormalizeIdempotent` | appfs/sdk/go/filesystem.go:969-978 | Normalizing a normalized absolute path changes nothing, through the string form |
| `Paths.SplitPathToPath` | appfs/sdk/go/filesystem.go:981-987 | The string form of a component list splits back into the list |
| `Paths.NormalizeToPath` | appfs/sdk/go/filesystem.go:969-978 | Normalizing the string form of a list is cleaning the list |
| `Paths.RedirectPathIsRedirect` | appfs/sdk/go/filesystem.go:1058-1076 | The string built at a symlink, once normalized, is the resolved prefix (for a relative target), the target and the components not yet walked, cleaned together |
| `Paths.PrefixTestIsSubtree` | appfs/sdk/go/filesystem.go:455-458 | The textual prefix test of Rename holds if and only if the old components are a strict prefix of the new ones |
| `Paths.CleanFromAny` | appfs/sdk/go/filesystem.go:969-978 | A path without a leading slash, cleaned, means from every directory what it meant uncleaned: the leading parent components are kept |
| `Resolution.ResolveExactly` | appfs/sdk/go/filesystem.go:1022-1100 | Resolution succeeds with an inode if and only if at most the budget of leftmost-symlink rewrites leads to a path whose plain walk reaches that inode |
| `Resolution.LoopExactly` | appfs/sdk/go/filesystem.go:1047-1051 | It fails with ELOOP if and only if one symlink more than the budget is met (the budget is 40, appfs/sdk/go/constants.go:63) |
| `Resolution.ResolveCases` | appfs/sdk/go/filesystem.go:1022-1100 | Every resolution either answers from the settled path, ENOENT and ENOTDIR included, or is ELOOP |
| `Resolution.ResolveLive` | appfs/sdk/go/filesystem.go:1022-1100 | What is returned is a live inode, and no symlink when the last component is followed |
| `Resolution.ResolvePlain` | appfs/sdk/go/filesystem.go:1036-1098 | Without symlinks on the way, resolution succeeds if and only if the plain walk does, with the same inode |
| `Resolution.RestartIsContinue` | appfs/sdk/go/filesystem.go:1029-1099 | Restarting from the root after each rewrite gives the same inode or error as a resolver that goes on from the directory it is in, when every name that a parent component takes back is a directory reached without a link |
| `Resolution.LookupIsContinue` | appfs/sdk/go/filesystem.go:1029-1099 | The same for the public call, from the root and with the whole budget |
| `Resolution.RestartSkipsMissing` | appfs/sdk/go/filesystem.go:1068-1076 | A target that names a missing entry and then its parent resolves by restarting, where the resolver that goes on answers ENOENT |
| `Resolution.ScanFromRoot` | appfs/sdk/go/filesystem.go:1036-1094 | One pass stops at a symlink if and only if some component on the way is one that must be followed |
| `Namespace.FreshDatabaseRunValid` | appfs/sdk/go/filesystem.go:112-784 | In every run from a fresh database, whether or not the calls succeed: nlink equals the dentries naming the inode, root has nlink 1, other directories have one dentry, every dentry hangs below a live directory, and no data or symlink row outlives its inode |
| `Namespace.RunValid` | appfs/sdk/go/filesystem.go:112-784 | The same from any valid tables, for every sequence of calls with the paths as the caller wrote them |
| `Namespace.CallValid` | appfs/sdk/go/filesystem.go:112-784 | Each single call keeps these invariants, on its error paths too |
| `Namespace.MkdirAllFound` | appfs/sdk/go/filesystem.go:171-198 | A successful MkdirAll leaves a directory at the end of the path |
| `Namespace.ParentMade` | appfs/sdk/go/filesystem.go:254-262 | The parent that every creating call makes is a live directory of valid tables |
| `Namespace.RenameValid` | appfs/sdk/go/filesystem.go:437-518 | Rename keeps the invariants in every stage it can stop at |
| `Namespace.LinkValid` | appfs/sdk/go/filesystem.go:521-573 | Link keeps the invariants, the link count included |
| `Namespace.UnlinkValid` | appfs/sdk/go/filesystem.go:325-381 | Unlink keeps the invariants: the inode and its rows go with its last dentry and not before |
| `Namespace.RmdirValid` | appfs/sdk/go/filesystem.go:384-434 | Rmdir keeps the invariants |
| `Namespace.WriteFileValid` | appfs/sdk/go/filesystem.go:244-322 | WriteFile keeps the invariants, for a new and for an existing file |
| `Namespace.SymlinkValid` | appfs/sdk/go/filesystem.go:576-629 | Symlink keeps the invariants: exactly the symlinks have a target row |
| `Namespace.MknodValid` | appfs/sdk/go/filesystem.go:723-784 | Mknod keeps the invariants |
| `Tables.DropCounts` | appfs/sdk/go/filesystem.go:352-378 | Dropping a dentry removes the inode if and only if no other dentry names it |
| `Tables.DirPathUnique` | appfs/sdk/go/filesystem.go:112-168 | A directory is reached by one path only |
| `RenameTree.MoveTreeExactly` | appfs/sdk/go/filesystem.go:512-515 | Moving one dentry keeps the tree if and only if the new parent is not below what moves |
| `RenamePaths.RenameMovesSubtree` | appfs/sdk/go/filesystem.go:437-518 | When oldPath differs from newPath and neither parent crosses a symlink: every path below newPath resolves as it did below oldPath, oldPath is gone, every other path resolves as before, and the only new paths are directories towards the new parent |
| `RenamePaths.MkdirAllGrown` | appfs/sdk/go/filesystem.go:171-198 | Along a path without symlinks MkdirAll adds directories on that path and nothing else |
| `MadeParents.ParentMadeExactly` | appfs/sdk/go/filesystem.go:171-198 | MkdirAll succeeds if and only if the longest prefix that resolves is a directory, its next name is free and no name to be made is too long; the directory at the end is the one found, or new and empty, and is below exactly what the found prefix is below |
| `MadeParents.ResolveSnoc` | appfs/sdk/go/filesystem.go:1022-1100 | Resolving one component more gives the same error, ENOTDIR behind a file, or ENOENT where the directory found has no such entry |
| `RenameExact.RenameSucceedsExactly` | appfs/sdk/go/filesystem.go:437-518 | Rename succeeds if and only if, in the tables before the call, the old entry is there, the new path is not textually below it, the new parent is there or can be made, and the destination is free or can be replaced |
| `RenameExact.RenameArrivesExactly` | appfs/sdk/go/filesystem.go:437-518 | After a successful rename the destination names what the source named if and only if the two paths, symlinks included, did not name one entry; otherwise the entry is gone and nothing else changed |
| `RenameExact.RenameOntoItself` | appfs/sdk/go/filesystem.go:480-515 | Two paths that name one entry: a file or an empty directory is removed, a directory with entries is refused |
| `RenameExact.RenameThroughLinkRemoves` | appfs/sdk/go/filesystem.go:480-515 | Renaming /d/f to /l/f with l a symlink to /d succeeds and removes the file |
| `RenameExact.RenameTreeExactly` | appfs/sdk/go/filesystem.go:437-518 | Rename keeps every inode reachable from the root if and only if, in the tables before the call, it does not succeed with the moved entry at or above the directory at which the new parent is found or made |
| `RenameExact.CallTreeExactly` | appfs/sdk/go/filesystem.go:112-784 | Every other call always keeps every inode reachable |
| `RenameExact.FreshDatabaseRunTree` | appfs/sdk/go/filesystem.go:112-784 | From a fresh database, every run of calls without Symlink and with absolute paths to Rename keeps every inode reachable, whether or not the calls succeed |
| `RenameExact.PlainRenameOutside` | appfs/sdk/go/filesystem.go:455-458 | When neither parent path crosses a symlink, the textual test keeps the new parent out of the moved directory, and the namespace stays a tree |
| `RenameExact.RenameThroughLinkCutsOff` | appfs/sdk/go/filesystem.go:455-515 | Through a symlink to the moved directory the textual test is blind: the rename succeeds and the directory is cut off the root |
| `RenameExact.RelativeRenameCutsOff` | appfs/sdk/go/filesystem.go:969-978 | A relative new path keeps its leading parent component through normalization, which the textual test takes for a name: the rename moves a directory into itself without any symlink |
| `RenameExact.ThreeCallsCutOff` | appfs/sdk/go/filesystem.go:437-518 | Three successful calls on a fresh database cut a directory off: mkdir a, symlink l to a, rename a to l/b |
| `Effects.MkdirAllLeaves` | appfs/sdk/go/filesystem.go:171-198 | MkdirAll succeeds if and only if the rest of the path can be made; whether it succeeds or stops, it has made so many empty directories in a chain from where the path was found, told from the tables before it, and nothing else in the tables differs |
| `Effects.ResolveStep` | appfs/sdk/go/filesystem.go:1036-1098 | A path one component longer resolves to what the entry names, through whatever symlinks its parent was found |
| `Effects.EntryFound` | appfs/sdk/go/filesystem.go:1022-1100 | A clean path leads to the inode that its entry names, a symlink if it is not followed |
| `CallEffects.RenameExactly` | appfs/sdk/go/filesystem.go:437-518 | For all paths: Rename succeeds exactly as told before it, the entry is then at its new slot, what it replaced there has lost one link or is gone with its rows, and no other entry and no other row differs, data and targets included, but for the directories made |
| `CallEffects.RenameKeepsRows` | appfs/sdk/go/filesystem.go:505-517 | After a successful Rename every inode but a replaced one has the attributes, link count, data rows and target it had |
| `CallEffects.LinkExactly` | appfs/sdk/go/filesystem.go:521-573 | Link succeeds if and only if the existing path leads to a live inode that is no directory, the name fits, the parent is there or can be made and the slot is free; the new path then leads to that inode, which has one link more and otherwise its old row, and nothing else differs but for the directories made |
| `CallEffects.SymlinkExactly` | appfs/sdk/go/filesystem.go:576-629 | Symlink succeeds if and only if the parent is there or can be made and the slot is free; the path then leads to a new inode with the target, its length and mode 0777, and nothing else differs but for the directories made |
| `CallEffects.MknodExactly` | appfs/sdk/go/filesystem.go:723-784 | Mknod succeeds for the four special types only, in a directory that is there; the new inode has the type, mode bits and device number given, and nothing else differs |
| `CallEffects.MkdirExactly` | appfs/sdk/go/filesystem.go:112-168 | Mkdir succeeds if and only if the parent is a directory and the slot is free; the new inode has the permission bits given, and nothing else differs; when it fails nothing differs |
| `CallEffects.WriteFileExactly` | appfs/sdk/go/filesystem.go:244-322 | WriteFile succeeds exactly as told before it; it replaces the data and the size of the inode that the entry names, under whatever other names it is known, or adds a file with the data, the permission bits and the size; nothing else differs but for the directories made |
| `CallEffects.UnlinkExactly` | appfs/sdk/go/filesystem.go:325-381 | Unlink takes the entry, and the inode with its rows exactly when it has no other name; else that keeps its data and has one link less; nothing else differs |
| `CallEffects.RmdirExactly` | appfs/sdk/go/filesystem.go:384-434 | Rmdir takes the entry and the directory with it, exactly when it is an empty directory; nothing else differs |
| `CallEffects.FailedWriteLeaves` | appfs/sdk/go/filesystem.go:244-322 | A WriteFile that fails has changed nothing or only made directories above its path, told from the tables before it |
| `CallEffects.FailedRenameLeaves` | appfs/sdk/go/filesystem.go:437-518 | The same for Rename: no failure loses an entry or a row |
| `CallEffects.FailedLinkLeaves` | appfs/sdk/go/filesystem.go:521-573 | The same for Link |
| `CallEffects.FailedSymlinkLeaves` | appfs/sdk/go/filesystem.go:576-629 | The same for Symlink |
| `CallEffects.AddingKeepsPaths` | appfs/sdk/go/filesystem.go:112-784 | Whatever call but Unlink, Rmdir and Rename, and however it ends: every path that led to an inode, through symlinks too, still leads to it |
| `FilesystemClass.Filesystem.ResolvePathFollow` | appfs/sdk/go/filesystem.go:1022-1100 | The loop that rebuilds the path string and starts over returns exactly the specified resolution; it terminates by the symlinks left to follow |
| `FilesystemClass.Filesystem.ScanComponents` | appfs/sdk/go/filesystem.go:1036-1094 | The inner loop stops where the specification does, with the path of the directory it stopped in |
| `FilesystemClass.Filesystem.Mkdir` | appfs/sdk/go/filesystem.go:112-168 | The tables and the result are those of the specification |
| `FilesystemClass.Filesystem.MkdirAll` | appfs/sdk/go/filesystem.go:171-198 | The loop over the growing path leaves the tables and the result of the specification |
| `FilesystemClass.Filesystem.WriteFile` | appfs/sdk/go/filesystem.go:244-322 | Parents, inode, dentry and rows as specified, error paths included |
| `FilesystemClass.Filesystem.Unlink` | appfs/sdk/go/filesystem.go:325-381 | Dentry, link count and, with the last link, inode and rows as specified |
| `FilesystemClass.Filesystem.Rmdir` | appfs/sdk/go/filesystem.go:384-434 | Tables and result as specified |
| `FilesystemClass.Filesystem.Rename` | appfs/sdk/go/filesystem.go:437-518 | Every stage of the statements leaves the tables and the result of the specification |
| `FilesystemClass.Filesystem.Link` | appfs/sdk/go/filesystem.go:521-573 | Tables and result as specified |
| `FilesystemClass.Filesystem.Symlink` | appfs/sdk/go/filesystem.go:576-629 | Tables and result as specified |
| `FilesystemClass.Filesystem.Mknod` | appfs/sdk/go/filesystem.go:723-784 | Tables and result as specified |
| `PlainView.WriteFileLaw` | appfs/sdk/go/filesystem.go:244-322 | On directories and files with one name each, WriteFile puts the data at the path, makes the missing directories above it, keeps the attributes of an existing file, and changes nothing else |
| `PlainView.WriteFileExactly` | appfs/sdk/go/filesystem.go:244-322 | WriteFile succeeds if and only if its name is short, the path is no directory and every directory above is there or can be made; a failing call has at most made some of these |
| `PlainView.MkdirAllLaw` | appfs/sdk/go/filesystem.go:171-198 | MkdirAll adds directories on the path and nothing else, and on success the whole path is there |
| `PlainView.MkdirLaw` | appfs/sdk/go/filesystem.go:112-168 | Mkdir adds one directory, if and only if the parent is a directory, nothing is there and the name fits |
| `PlainView.UnlinkLaw` | appfs/sdk/go/filesystem.go:325-381 | Unlink removes exactly the named file |
| `PlainView.RmdirLaw` | appfs/sdk/go/filesystem.go:384-434 | Rmdir removes exactly the named empty directory |
| `PlainView.ReadPathLaw` | appfs/sdk/go/filesystem.go:201-241 | ReadFile returns the bytes of exactly the files of the tree |
| `RenameView.RenameLaw` | appfs/sdk/go/filesystem.go:437-518 | On a tree of directories and files Rename succeeds if and only if the old path is there, the new one is not below it, what is above the new one is there or can be made, and what is at the new one can be replaced; the subtree is then at the new path with all its data and attributes, gone from the old one, directories lead there, and every other path is as before; a failing Rename may have added directories |
| `PlainErrors.MkdirError` | appfs/sdk/go/filesystem.go:112-168 | Which error Mkdir fails with, told from the tree: root, name, missing or blocked parent, parent that is a file, entry that is there |
| `PlainErrors.MkdirAllError` | appfs/sdk/go/filesystem.go:171-198 | MkdirAll fails at the first component that is a file, with ENOTDIR, or that has to be made and has too long a name |
| `PlainErrors.WriteFileError` | appfs/sdk/go/filesystem.go:244-322 | Which error WriteFile fails with: the name, what stops the parents, or a directory at the path |
| `PlainErrors.UnlinkError` | appfs/sdk/go/filesystem.go:325-381 | Which error Unlink fails with, told from the tree; directly below a file it is ENOENT |
| `PlainErrors.RmdirError` | appfs/sdk/go/filesystem.go:384-434 | Which error Rmdir fails with, told from the tree |
| `PlainErrors.RenameError` | appfs/sdk/go/filesystem.go:437-518 | Which error Rename fails with, in the order of its tests, told from the tree |
| `PlainErrors.LinkError` | appfs/sdk/go/filesystem.go:521-573 | Which error Link fails with; a directory is refused before the parents are made |
| `PlainErrors.SymlinkError` | appfs/sdk/go/filesystem.go:576-629 | Which error Symlink fails with |
| `PlainErrors.MknodError` | appfs/sdk/go/filesystem.go:723-784 | Which error Mknod fails with |
| `Overlay.LookupPathShown` | appfs/sdk/go/overlay.go:978-1015 | Looking a path up answers from the union of delta over base minus whiteouts |
| `Overlay.ReadFileShown` | appfs/sdk/go/overlay.go:932-956 | ReadFile returns the bytes of exactly the files shown |
| `Overlay.CoveredBelow` | appfs/sdk/go/overlay.go:287-336 | Everything the base has below a whiteout is whiteout itself |
| `OverlayLaws.WriteThenRead` | appfs/sdk/go/overlay.go:901-956 | After a successful WriteFile the path reads as the data, and any other file that could be read reads as before if and only if it is not below the path |
| `OverlayLaws.MkdirAllLawful` | appfs/sdk/go/overlay.go:1051-1085 | A successful MkdirAll shows the directories of the path, changes nothing else and keeps the closure |
| `OverlayLaws.MkdirLawful` | appfs/sdk/go/overlay.go:1018-1048 | Mkdir succeeds if and only if the delta has the parent and nothing is shown; it then shows one new directory and keeps the closure |
| `OverlayLaws.UnlinkLawful` | appfs/sdk/go/overlay.go:1088-1122 | Unlink succeeds if and only if a file is shown, takes away that path and no other, and keeps the closure |
| `OverlayLaws.RmdirLawful` | appfs/sdk/go/overlay.go:1125-1168 | Rmdir succeeds if and only if a directory with nothing shown in it is shown, takes away that path and no other, and keeps the closure |
| `OverlayLaws.CopyUpLawful` | appfs/sdk/go/overlay.go:413-609 | Copying a shown file up succeeds and changes nothing that is shown: contents, mode, uid and gid of every file stay, and the file is then in the delta |
| `OverlayLaws.WriteHidesFiles` | appfs/sdk/go/overlay.go:901-929 | Writing over a directory that is shown only through the base makes ReadFile of every path shown below it fail with ENOTDIR |
| `OverlayExact.WriteSucceedsExactly` | appfs/sdk/go/overlay.go:901-929 | WriteFile succeeds if and only if MkdirAll of the parent meets no obstacle, the delta has no directory at the path, and no name that the delta does not have is too long |
| `OverlayExact.WriteFileExactly` | appfs/sdk/go/overlay.go:901-929 | It then shows the data with the attributes the delta had at the path or new ones, directories above, and every other path as before; the closure stays if and only if no base entry below the path was shown |
| `OverlayExact.WriteResetsAttributes` | appfs/sdk/go/overlay.go:901-929 | Writing a file that only the base has gives it the new mode and owner 0:0 |
| `OverlayExact.MkdirAllExactly` | appfs/sdk/go/overlay.go:1051-1085 | MkdirAll succeeds if and only if no round stops it, told from the layers before the call; whether it succeeds or not, it leaves the directories of the rounds passed and the base entry whose whiteout it removed last, and keeps the closure |
| `OverlayExact.FailedMkdirExactly` | appfs/sdk/go/overlay.go:1018-1048 | A failing Mkdir has removed the whiteout of its path and done nothing else; what is shown is as before if and only if that reveals nothing, and the closure stays too if and only if there was no whiteout |
| `OverlayExact.FailedMkdirAllExactly` | appfs/sdk/go/overlay.go:1051-1085 | A failing MkdirAll shows nothing anew if and only if the directory it got to was shown and the component it stops at was no whiteout |
| `OverlayExact.FailedWriteExactly` | appfs/sdk/go/overlay.go:901-929 | A failing WriteFile leaves what the MkdirAll of its parent leaves, and the base entry at its path if and only if that was a whiteout and no whiteout further up was out of reach; nothing at the path changes and the closure stays if and only if the path was no whiteout |
| `OverlayExact.OpenParentIsMkdirAll` | appfs/sdk/go/overlay.go:909-923 | The lookup of the parent before its MkdirAll changes neither the result nor the layers |
| `OverlayExact.UnlinkThenMkdirBringsBack` | appfs/sdk/go/overlay.go:1022-1047 | On a fresh mount, unlinking a base file in a base directory and then Mkdir of its path fails and shows the file again |
| `OverlayExact.FailedMkdirAllUncovers` | appfs/sdk/go/overlay.go:1060-1082 | MkdirAll at or below a deleted base file fails and shows the file again |
| `OverlayExact.WriteBelowFileUncovers` | appfs/sdk/go/overlay.go:901-923 | A WriteFile below a delta file that covers a base directory fails, shows the deleted base entry at its path again, and loses the closure |
| `OverlayExact.WriteBelowDeletedFile` | appfs/sdk/go/overlay.go:901-923 | A WriteFile below a deleted base file fails and shows that file again |
| `OverlayRuns.FailureIsHarmlessExactly` | appfs/sdk/go/overlay.go:901-1168 | For every failing call: the closure stays and nothing but directories of its path is shown anew if and only if the call met no whiteout at its path or at the component it stopped at |
| `OverlayRuns.RunRefines` | appfs/sdk/go/overlay.go:901-1168 | Every run of calls, successful ones that are no write over shown entries and failing ones that met no whiteout, is a run of one plain writable tree, and the closure holds all along |
| `OverlayRuns.NeverReappears` | appfs/sdk/go/overlay.go:287-336 | In such a run what is not shown stays so until a call makes it: deleted base entries never come back |
| `OverlayRuns.RemadeDirectoryIsEmpty` | appfs/sdk/go/overlay.go:1018-1168 | Rmdir followed by a successful Mkdir gives an empty directory |
| `OverlayRuns.MountInv` | appfs/sdk/go/overlay.go:104-155 | An empty delta without whiteouts over any base has the closure and shows the base |
| `OverlayModes.CallDirModes` | appfs/sdk/go/overlay.go:413-1168 | Whatever the sound call and however it ends: the directories it makes in the delta have the mode asked of Mkdir and MkdirAll and else 0755, and no directory's row changes |
| `OverlayErrors.MkdirError` | appfs/sdk/go/overlay.go:1018-1048 | Which error Mkdir fails with: what is shown is in the way, else the delta alone decides |
| `OverlayErrors.UnlinkError` | appfs/sdk/go/overlay.go:1088-1122 | Which error Unlink fails with, told from what is shown |
| `OverlayErrors.RmdirError` | appfs/sdk/go/overlay.go:1125-1168 | Which error Rmdir fails with, told from what is shown |
| `OverlayJoin.LookupByInodesExactly` | appfs/sdk/go/overlay.go:636-745 | LookupPath through the inode map, one component at a time and ending in Stat, answers as the lookup by path does, except ENOENT for a base entry whose record names a delta inode that is gone; it keeps the maps joined to the layers |
| `OverlayJoin.ChildLaw` | appfs/sdk/go/overlay.go:636-720 | One Lookup from the current number of a directory finds what the delta, else the base, has at the path, and hands out its number |
| `JoinedRuns.LookupsShowAlways` | appfs/sdk/go/overlay.go:636-1015 | In every run of lookups, listings, remounts and sound calls (sound as in RunRefines, failing ones among them) from a fresh mount on, LookupPath through the inode maps answers exactly what is shown: no path that is shown has a record of a delta inode that is gone |
| `JoinedRuns.UncoveredLookup` | appfs/sdk/go/overlay.go:1060-1068 | Right after MkdirAll removed a whiteout, the lookup through the inode maps answers what the round takes it to answer, the missed paths being those whose record names a delta inode that is gone |
| `JoinedRuns.MountJoined` | appfs/sdk/go/overlay.go:104-143 | A fresh mount with an empty delta over any base without hard links has its inode maps joined to its layers |
| `JoinedRuns.RemountSane` | appfs/sdk/go/overlay.go:146-155 | A new mount over the layers and origin records as a run left them is joined to its layers and has no path whose record is of a delta inode that is gone |
| `NumberChanges.NumberAfterCall` | appfs/sdk/go/overlay.go:167-231 | Whether a numbered path keeps its number over a sound call, failing ones included, is told from the layers and origin records before it: the number changes if and only if the path enters the delta by anything but copy-up, or its delta inode goes and is no copy; the path itself goes if and only if it is removed from the delta and the base does not have it |
| `NumberChanges.WriteMovesNumbers` | appfs/sdk/go/overlay.go:901-929 | A successful WriteFile changes the numbers of exactly the paths at or above it that only the base has, the written file included |
| `NumberChanges.PutsExactly` | appfs/sdk/go/overlay.go:413-1085 | Which paths a sound call puts into the delta, the directories that a failing WriteFile or MkdirAll makes before it stops included, is told from the layers before it |
| `NumberChanges.TakesExactly` | appfs/sdk/go/overlay.go:1088-1168 | A path leaves the delta if and only if it is the file of an Unlink or the directory, shown empty, of an Rmdir |
| `Listing.ReaddirExactly` | appfs/sdk/go/overlay.go:748-813 | A listing by any recorded number gives exactly the names shown below the path of its record, except that a record of the base misses what the base does not have |
| `Listing.ListingsShowAlways` | appfs/sdk/go/overlay.go:748-813 | In every such run, the lookup of a shown path ends at a number whose listing has exactly the names shown below the path |
| `Listing.RmdirSeesEmpty` | appfs/sdk/go/overlay.go:1139-1146 | The listing that Rmdir asks for by number is empty if and only if nothing is listed by path |
| `Listing.OldNumberMissesFile` | appfs/sdk/go/overlay.go:757-766 | The number of a base directory that was looked up before a WriteFile put a new file into it goes on listing the base only, and misses the file, which is shown |
| `OverlayClass.OverlayFS.IsWhiteout` | appfs/sdk/go/overlay.go:323-336 | The loop up the ancestors finds a whiteout if and only if the path or an ancestor is one |
| `OverlayClass.OverlayFS.LookupPath` | appfs/sdk/go/overlay.go:978-1015 | Whiteout, then delta, then base, as specified |
| `OverlayClass.OverlayFS.Mkdir` | appfs/sdk/go/overlay.go:1018-1048 | State and result as specified, with the delta's own Mkdir inside |
| `OverlayClass.OverlayFS.MkdirAll` | appfs/sdk/go/overlay.go:1051-1085 | The loop over the growing path leaves the specified layers, on failure too |
| `OverlayClass.OverlayFS.WriteFile` | appfs/sdk/go/overlay.go:901-929 | Layers and result as specified, on failure too |
| `OverlayClass.OverlayFS.Unlink` | appfs/sdk/go/overlay.go:1088-1122 | Layers and result as specified |
| `OverlayClass.OverlayFS.Rmdir` | appfs/sdk/go/overlay.go:1125-1168 | Layers and result as specified |
| `OverlayClass.OverlayFS.EnsureParentDirs` | appfs/sdk/go/overlay.go:413-496 | The loop makes the delta directories above the path as specified |
| `OverlayClass.OverlayFS.CopyUp` | appfs/sdk/go/overlay.go:500-609 | Parents, inode with the base attributes, rows and dentry as specified |
| `OverlayInodes.NumbersAreStable` | appfs/sdk/go/overlay.go:167-231 | Whatever lookups, listings and copy-ups happen between, two lookups or listings of one entry answer with the same number, and a lookup agrees with a listing |
| `OverlayInodes.CopyUpKeepsNumber` | appfs/sdk/go/overlay.go:500-720 | The base entry looked up before a copy-up and the delta entry found in its place later have the same number |
| `OverlayInodes.NumbersAreUnambiguous` | appfs/sdk/go/overlay.go:198-231 | Two entries get the same number if and only if they are the same layer inode or are linked by an origin record |
| `OverlayInodes.RunKeeps` | appfs/sdk/go/overlay.go:167-231 | Every number once given to a key is kept through every run, and the maps stay consistent |
| `OverlayInodes.InodeNumbers.GetOrCreateOverlayIno` | appfs/sdk/go/overlay.go:172-195 | The maps and the number are those of the specification |
| `OverlayInodes.InodeNumbers.GetOrCreateOverlayInoWithOrigin` | appfs/sdk/go/overlay.go:198-231 | The maps and the number are those of the specification, for a known and a new origin |
| `OverlayInodes.InodeNumbers.NumberFound` | appfs/sdk/go/overlay.go:636-720 | The number a lookup answers with, through the origin record if there is one |
| `OverlayInodes.InodeNumbers.NumberListed` | appfs/sdk/go/overlay.go:816-897 | The number a listing gives, through the origin record if there is one |
| `Wildcard.MatchIsCuts` | appfs/cli/src/winfsp.rs:520-592 | The matcher accepts a name if and only if the pattern cuts it into consecutive pieces, one for each pattern character, each acceptable to its character (section 2.1.4.4 of [MS-FSA]) |
| `Wildcard.QmRun` | appfs/cli/src/winfsp.rs:548-560 | Skipping a run of DOS_QM at once equals skipping its members one by one |
| `Wildcard.Matcher.Matches` | appfs/cli/src/winfsp.rs:520-592 | The memoised recursion returns the unmemoised answer, every memo entry holds such an answer, and the pattern left shrinks with every call |
| `Wildcard.DirectoryPatternMatches` | appfs/cli/src/winfsp.rs:505-518 | The query pattern is cut to its last part; the empty pattern and the two shortcuts accept everything, else the matcher decides on lower-cased names |
| `Wildcard.AcceptsExactly` | appfs/cli/src/winfsp.rs:500-518 | For every way to see a pattern as directory part, leaf and trailing NULs: the name is accepted if and only if the leaf is one of the three that accept everything or, lower-cased, cuts up the lower-cased name |
| `Wildcard.PartsExist` | appfs/cli/src/winfsp.rs:500-503 | Every pattern has such parts |
| `Wildcard.ShortcutsCompared` | appfs/cli/src/winfsp.rs:511-514 | The matcher itself accepts every name for the star, but for star-dot-star only names with a dot, so that shortcut, as its comment intends, admits more |
| `Reparse.BuildParse` | appfs/cli/src/winfsp.rs:818-946 | Whenever a buffer is built, parsing it returns the target with slashes turned into backslashes if and only if that form does not start with the NT prefix (section 2.1.2.4 of [MS-FSCC]) |
| `Reparse.SubstituteAlone` | appfs/cli/src/winfsp.rs:808-946 | For an absolute target the substitute name alone decodes to the same target |
| `Reparse.BuildIs` | appfs/cli/src/winfsp.rs:811-872 | Every built buffer has the right tag, lengths and offsets, the backslashed target as print name, flags 1 if and only if the target is relative, and as substitute name the print name itself if that is relative or has the NT prefix, else a name with the NT prefix (the UNC form exactly for a share) that strips to it |
| `Reparse.BuildFits` | appfs/cli/src/winfsp.rs:825-845 | A buffer is built if and only if both names, the prefix included, fit the 16-bit lengths |
| `Reparse.SubstituteIsEnough` | appfs/cli/src/winfsp.rs:808-946 | With the print length of a built buffer set to 0, parsing gives an absolute target back from the substitute name |
| `Reparse.RelativeExactly` | appfs/cli/src/winfsp.rs:794-806 | A target is relative if and only if it starts with neither a separator nor a drive |
| `Reparse.ParseLayout` | appfs/cli/src/winfsp.rs:875-946 | Whatever two names and flag are laid out, parsing finds them |
| `Reparse.ParseExactly` | appfs/cli/src/winfsp.rs:875-946 | On every byte string: parsing gives a target if and only if tag and length are right and two well-formed names lie inside the data at the offsets given, in whatever order, and the target is the print name, or the substitute name if that is empty, with the flag off freed of its NT prefix |
| `Reparse.DecodeEncode` | appfs/cli/src/winfsp.rs:832-833 | UTF-16 encoding, surrogate pairs included, decodes to the same string |
| `Reparse.EncodeDecode` | appfs/cli/src/winfsp.rs:919-925 | Only well-formed units decode, each sequence to the one string that encodes to it |
| `Reparse.BuildBuffer` | appfs/cli/src/winfsp.rs:818-873 | The buffer filled with cursor loops is the specified layout, and is refused exactly when the data would exceed 65535 bytes |
| `Reparse.ParseBuffer` | appfs/cli/src/winfsp.rs:875-946 | On every byte string the parser stays in bounds and returns the specified result |
| `Reparse.ReadUtf16` | appfs/cli/src/winfsp.rs:902-926 | A name is read if and only if it is even, inside the data and well-formed |
| `EventReplay.ReconnectSeesTail` | dashboard/server/src/event-bus.ts:32-84 | A client that registers after any run, whose replay writes all succeed, and that stays, receives every event from one fixed number on, once each and in order, across the replay and the live part |
| `EventReplay.ReconnectIsSeamless` | dashboard/server/src/event-bus.ts:32-84 | With a Last-Event-ID below the next id and not older than the history reaches, the ids received are the next one, the one after it and so on to the last broadcast |
| `EventReplay.SeenBy` | dashboard/server/src/event-bus.ts:134-144 | Replay starts right behind the id the client sent if and only if that id is not ahead of the stream and not older than the history reaches |
| `EventReplay.HistoryIsTail` | dashboard/server/src/event-bus.ts:127-132 | After every run the history is the last min(n, limit) events, with consecutive ids up to nextEventId - 1 |
| `EventReplay.LiveRun` | dashboard/server/src/event-bus.ts:52-84 | A connected client whose writes succeed receives exactly the events broadcast meanwhile, pings and legacy frames aside |
| `EventReplay.BrokenReplayLeavesGap` | dashboard/server/src/event-bus.ts:134-144 | When a replay write throws the client stays registered and goes on with live events; those in between never come |
| `EventDelivery.NoGap` | dashboard/server/src/event-bus.ts:32-112 | Whatever follows a registration whose replay completes, and however the connection ends: until it registers again the client has received, once each and in order, the events from one number on up to the end of its connection |
| `EventDelivery.DeliveredExactly` | dashboard/server/src/event-bus.ts:52-125 | A connected client receives exactly the frames due to it up to the call that ends its connection, and nothing behind that until it registers again; it is connected at the end if and only if no call ended it |
| `EventDelivery.DeadIsDropped` | dashboard/server/src/event-bus.ts:68-83 | A client that has been ended or whose write fails is unregistered and ended by the broadcast or ping, which leaves its log alone |
| `EventDelivery.OthersStay` | dashboard/server/src/event-bus.ts:66-83 | Every other registered client stays, and a client that is not registered is not written to |
| `EventDelivery.EndedIsSilent` | dashboard/server/src/event-bus.ts:52-144 | Once a connection has ended its log never changes again, whatever is called |
| `EventDelivery.LiveFrames` | dashboard/server/src/event-bus.ts:52-112 | A client that stays receives for every broadcast the envelope, and the old form behind it for four kinds only, and for every heartbeat a ping |
| `EventDelivery.RegisterFrames` | dashboard/server/src/event-bus.ts:134-144 | A registration writes the frames of the first events owed, as many as writes succeed |
| `EventDelivery.ShutdownEnds` | dashboard/server/src/event-bus.ts:114-125 | A shutdown ends and unregisters every client and writes to none |
| `EventReplay.EventBus.RegisterClient` | dashboard/server/src/event-bus.ts:32-50 | Fields and socket logs are those of the specification |
| `EventReplay.EventBus.ReplayAfter` | dashboard/server/src/event-bus.ts:134-144 | The replay loop writes the retained newer events until a write fails |
| `EventReplay.EventBus.Broadcast` | dashboard/server/src/event-bus.ts:52-84 | One new id, the history trimmed, and one write to every client that can take it; the others are dropped and ended |
| `EventReplay.EventBus.Heartbeat` | dashboard/server/src/event-bus.ts:86-112 | One ping to every client that can take it; the others are dropped and ended |
| `EventReplay.EventBus.Remember` | dashboard/server/src/event-bus.ts:127-132 | The history is the last events up to the limit |
| `EventReplay.EventBus.Shutdown` | dashboard/server/src/event-bus.ts:114-125 | The loop ends every client and clears the set |
| `WorkerPool.EveryRun` | dashboard/server/src/principal-lifecycle.ts:625-646 | However the workers interleave: the callback is called with 0, 1, 2 and so on, at most min(max(1, concurrency), n) calls are in flight, and a result once there is the outcome of its own item |
| `WorkerPool.FullLoad` | dashboard/server/src/principal-lifecycle.ts:632-646 | The bound is reached: as many items as the concurrency allows, at least one, and as there are, can be in flight at once |
| `WorkerPool.FinishedExactly` | dashboard/server/src/principal-lifecycle.ts:625-646 | Once all workers have ended, the call succeeds if and only if no item throws, and then every item was taken exactly once and results[i] is the outcome of items[i] |
| `WorkerPool.Terminates` | dashboard/server/src/principal-lifecycle.ts:632-643 | No schedule of effective steps is longer than 2n + workers, and one that cannot go on has ended every worker |
| `BootstrapResume.ResumeReportsEveryCandidate` | dashboard/server/src/principal-lifecycle.ts:324-365 | Whatever the interleaving and however each resume ends, there is one report per candidate, in the candidates' order, with its session and the outcome its branch gives |
| `BootstrapResume.ReportExactly` | dashboard/server/src/principal-lifecycle.ts:324-358 | A report is a resume, an error or a skip with its reason exactly as the candidate can be resumed and the resume comes out |
| `BootstrapResume.SortOutcomes` | dashboard/server/src/principal-lifecycle.ts:367-375 | The loop puts every report in the list of its kind, and merging the three lists by kind gives the reports back in order |
| `SpawnTable.RunInv` | dashboard/server/src/process-manager.ts:161-288 | In every run of spawns, start errors, session starts, exits and timeouts with fresh ids: no two live agents share a principal and project, every waiter belongs to a live agent without a session and has an armed timer, and no waiter is settled twice |
| `SpawnTable.WaiterHearsFirstEvent` | dashboard/server/src/process-manager.ts:266-288 | A waiting caller is told the verdict of the first event of its agent, once and nothing else ever, and waits on exactly as long as there is none |
| `SpawnTable.NoWaiterLeftBehind` | dashboard/server/src/process-manager.ts:878-943 | In every reachable state a waiter has a live agent and a timer, and its error, exit or timeout settles it |
| `SpawnTable.ScopeIsUnique` | dashboard/server/src/process-manager.ts:69-76 | Within a named project the lookup by principal has at most one answer |
| `SpawnTable.ScopeDependsOnOrder` | dashboard/server/src/process-manager.ts:69-76 | An agent without a project and then one in a project both start; the other way round the second is refused |
| `SpawnRuns.LiveExactly` | dashboard/server/src/process-manager.ts:161-264 | After every run with fresh ids an agent is in the table if and only if its spawn started it and it has neither failed nor exited since |
| `SpawnRuns.SpawnStartsExactly` | dashboard/server/src/process-manager.ts:161-226 | A spawn of a good configuration starts if and only if every agent started before in its scope has ended |
| `SpawnRuns.AgentExactly` | dashboard/server/src/process-manager.ts:690-697 | An agent has the principal and project of its spawn, and the session published last while it was in the table |
| `SpawnRuns.CallersHear` | dashboard/server/src/process-manager.ts:266-288 | In every run the caller of a spawn that waits is told the first event of its agent, once; the caller of one that does not wait is told nothing |
| `SpawnTable.ProcessManager.FindByPrincipalScope` | dashboard/server/src/process-manager.ts:595-602 | The loop finds an agent in scope if and only if there is one |
| `SpawnTable.ProcessManager.Spawn` | dashboard/server/src/process-manager.ts:161-264 | An agent starts if and only if the configuration holds and no live agent is in scope; the table is as specified |
| `SpawnTable.ProcessManager.SpawnAndWaitStarted` | dashboard/server/src/process-manager.ts:266-288 | Table, waiter and timer as specified |
| `SpawnTable.ProcessManager.HandleSessionStarted` | dashboard/server/src/process-manager.ts:690-752 | A session id is recorded and resolves the waiter; a start without one rejects it; an unknown agent is ignored |
| `SpawnTable.ProcessManager.HandleManagedExit` | dashboard/server/src/process-manager.ts:878-923 | The agent leaves the table, and its waiter is rejected if it had no session |
| `SpawnTable.ProcessManager.HandleError` | dashboard/server/src/process-manager.ts:244-261 | The agent leaves the table and its waiter is rejected |
| `SpawnTable.ProcessManager.StartTimedOut` | dashboard/server/src/process-manager.ts:277-280 | The waiter leaves the table and is rejected |
| `NfsPaging.ListingIsComplete` | appfs/cli/src/nfs.rs:473-526 | Over distinct nonzero ids and for every page size, the pages together are the directory, each entry once and in order, and the end is reported on the last page only (section 3.3.16 of RFC 1813) |
| `NfsPaging.ListsAllExactly` | appfs/cli/src/nfs.rs:473-526 | Every page is its slice and reports the end rightly if and only if each entry before a page boundary is the first with its id and the id is not zero |
| `NfsPaging.Readdir` | appfs/cli/src/nfs.rs:491-525 | The loop returns the entries behind the first one with the given id, at most max of them, and says end exactly when nothing is left |
| `NfsPaging.StaleCookieEndsListing` | appfs/cli/src/nfs.rs:496-523 | When the entry a client stopped at is gone, the next page is empty and reports the end |
| `NfsPaging.LinkedTwiceLoops` | appfs/cli/src/nfs.rs:496-523 | With two names of one file in the directory and pages of one entry, the listing goes round for ever and never lists the last entry |
| `KvLike.EscapeIsOnePass` | appfs/sdk/go/kvstore.go:162-167 | The three successive replacements equal one pass that puts a backslash before every special character |
| `KvLike.PatternMatchesPrefix` | appfs/sdk/go/schema.go:286-299 | The pattern made of a prefix accepts a key if and only if the key starts with the prefix up to ASCII case |
| `KvLike.ExactWithoutLetters` | appfs/sdk/go/schema.go:286-299 | The pattern accepts exactly the keys that start with the prefix if and only if the prefix has no ASCII letter |
| `KvLike.KVStore.Keys` | appfs/sdk/go/kvstore.go:87-113 | Every stored key that starts with the prefix up to ASCII case, once each and in ascending order, and no other |
| `KvLike.KVStore.List` | appfs/sdk/go/kvstore.go:116-142 | The entries of exactly those keys, with their times, in order |
| `KvLike.KVStore.Clear` | appfs/sdk/go/kvstore.go:145-159 | Exactly those keys go; the others keep their rows |

## Left out

- FileHandle.File.Pread: negative offsets; offsets are natural numbers here.
- FileHandle.File.Pwrite: negative offsets, likewise.
- FileHandle.File.Truncate: negative sizes, likewise.
- FilesystemClass.Filesystem.ResolvePathFollow: paths without a leading slash; the other calls of the class take absolute paths too.
- OverlayClass.OverlayFS.LookupPath: the class looks up by path; that this is what the inode maps answer is proved of the maps beside it (OverlayJoin, JoinedRuns).
- OverlayClass.OverlayFS.MkdirAll: the paths whose inode record names a removed delta inode are a parameter (`stale`); JoinedRuns takes them from the maps.
- OverlayClass.OverlayFS.WriteFile: the same parameter.
- OverlayClass.OverlayFS.EnsureParentDirs: the owner of the directories made is not part of a directory's value; their origin records are in OverlayInodes and JoinedRuns.
- OverlayClass.OverlayFS.CopyUp: regular files only; the origin record is in OverlayInodes and JoinedRuns.
- JoinedRuns.LookupsShowAlways: the numbers that a call hands out by its own lookups are handed out by lookups before or after it.
- OverlayClass.OverlayFS.Rmdir: whether the directory is empty is asked by path; that Readdir by number answers the same is proved of the maps beside it (Listing).
- NumberChanges.NumberAfterCall: calls that are sound in the sense of RunRefines.
- RenamePaths.RenameMovesSubtree: walks along dentries; for paths that cross a symlink CallEffects tells what becomes of every entry and row.
- PlainErrors.MkdirError: trees of directories and files only, like the other lemmas on errors.
- RenameExact.RenameSucceedsExactly: name lengths count characters, where `len(name)` counts bytes; the success conditions of the other calls likewise.
- Reparse.BuildBuffer: the twenty header bytes are written as one value, not field by field.
- EventReplay.EventBus.RegisterClient: the Last-Event-ID header comes in parsed; which write throws is a parameter.
- SpawnTable.ProcessManager.Spawn: checking the configuration, resolving the model and launching the child are one outcome; spawn ids are taken not to repeat; turn status, prompts and the registry are not in the table.
- KvLike.KVStore.Keys: SQLite's limit on the length of a pattern, and keys that hold a NUL character.
- Wildcard.DirectoryPatternMatches: Unicode lower-casing is a parameter.
- Failing SQL statements, transactions, schema creation and migration, connection pools.
- Timestamps, chown, chmod, utimens and tool-call records: field updates with no hard property.
- Overlay rename, link and symlink, base layers with symlinks or hard links, and the overlay's LRU path cache.
- Concurrent calls on one filesystem or overlay: calls are sequential steps.
- The order and the choice of resume candidates (orderBootstrapResumeAgents, latestResumableAgentPerPrincipal): sorting by simple keys.
- Callback plumbing of FUSE, NFS and WinFsp, error-code tables, attribute conversion, the metadata cache.
- File watching, JSON parsing, the daemon, HTTP routes, the user interface, process termination and logging.
