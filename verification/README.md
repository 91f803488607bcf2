# tgfs: a verified model of its core

tgfs presents mutable POSIX files on top of immutable, content-addressed, reference-counted blobs. This project models
the parts of it that carry that weight and proves what they promise, for every input, every reachable state and every
interleaving of the steps that the code leaves open.

The model follows the source file by file. Objects that the source updates in place are classes with the same fields;
their methods are proved against value-level functions, and the theorems are about those functions and about whole runs.

| file | models |
|---|---|
| `Bytes.dfy`, `Sums.dfy` | byte strings, sparse files, chunk arithmetic; sums of multisets over a table |
| `Blobs.dfy`, `Plan.dfy`, `Tables.dfy` | chunk rows and what they stand for; the list `put_file` computes; the chunk, size and blob tables |
| `Store.dfy` | the content tables of `Meta`, `MemoryBackend`, and `Store`: put, free, read |
| `PutProtocol.dfy`, `PutRuns.dfy` | any number of `put_file` and `free_file` calls on distinct inodes, interleaved step by step |
| `SparseFile.dfy`, `FlushFile.dfy` | the byte array that a writeback state stands for, and how it and the stored rows become each other |
| `Exposure.dfy`, `Fetches.dfy` | chunks that were cut off and have come back; what each step downloads |
| `FileState.dfy`, `Writeback.dfy` | `_FileState` and `WritebackManager` as classes |
| `Traces.dfy` | what each operation may do to what is seen of one inode, and what whole runs of operations preserve |
| `Runs.dfy`, `Histories.dfy`, `Laziness.dfy` | whole runs of one state against a plain byte array; when their flushes are right, by their operations alone; what they download |
| `Paths.dfy`, `Tree.dfy` | the directory graph, link counts, and the inode and dirent tables |
| `FsCore.dfy` | names, handles and deferred free, over the real tree, writeback manager and store |
| `ReadCache.dfy`, `Singleflight.dfy` | the LRU cache; concurrent misses as a step machine |
| `Parts.dfy` | parallel part transfer as a step machine |

Every method of `WritebackManager` and every content operation of `FsCore` says what it does to one inode by an act of
`Traces` (`Does`), and that all other inodes look as before. So what an inode looks like along any run of them is a trace,
and the theorems of `Traces` are about all traces.

How the world is represented:

- A digest is the injective function that SHA-256 is taken to be: `Hash(data)` wraps the bytes and `Pre` unwraps them.
- An upload may fail at any call. Downloads succeed and pass the integrity check, backend deletes succeed, and raw files
  are read in full. A put source yields exactly the number of bytes announced.
- Each method of `Meta` is one atomic update of its tables. The tables of `Meta` are held by two classes: `Store.Meta` has
  chunk rows, sizes and blobs, `Tree.Tree` inodes and names; `FsCore.FsCore.Valid` ties the two sets of rows together.
- The clock of the reaper is the set of inodes whose delay has elapsed, an arbitrary argument. Flushing and dropping a state
  in `release` and in the reaper is one step.
- `Bytes.Look` always holds. It is a guard that keeps large invariants folded in proofs that do not need their contents.

## What was found

- A chunk that a truncate cut off and that came back, by growing the file, without a flush or a rewrite is compared with
  the row still stored for it (`tgfs/store.py:93-96`), not with the state's own list. If offset and length match, the old
  bytes are stored again: `FlushFile.Stale` is that condition and `Runs.RegrowStoresOldByte` the smallest case. After such
  a flush the chunk is clean but its temp bytes differ from its row, so a later flush is wrong too, without being stale.
  `FlushFile.Storable` covers both: `FlushFile.FlushStoresView` proves that a flush is right if and only if it holds, in any
  reachable state. `Histories.HistoryDecides` decides it for whole runs by their operations: every flush is right if and
  only if at none of them a chunk is back that had been cut off and was not rewritten or flushed over since, while the
  store has a row of its place and length that is not all zeros. A file that is never extended over a gap while more is
  stored than it holds is never exposed to this (`Traces.NothingLost`); a file that is never shrunk is such a file
  (`Traces.GrowingRunKeeps`).
- The alignment test (`tgfs/cache.py:214-217`) does not bound the last stored chunk by the chunk size.
  `FlushFile.MaterializeFaithful` proves that entering write mode is right if and only if there is no such chunk, and
  `FlushFile.LongTailIsSingle` that lists stored by `put_file` have one only when they are a single row.
- A write of no bytes past the end moves the size but not the temp file, so a read there comes up short
  (`Runs.EmptyWriteReadsShort`). Reads after a write are all exact again if and only if the write was not of that kind
  (`SparseFile.WriteReadsExactIff`). A kernel does not issue such a write.
- `release` drops a state before flushing it (`tgfs/cache.py:374-377`). A last close that fails loses the pending changes,
  and an unlinked file whose last close fails so is never freed (`FsCore.FsCore.Release`, the set `stranded`). A close fails
  only if it is the last one, changes are pending and there is no flush delay (`Traces.CloseFails`); that and discarding the
  inode are the only ways to lose pending changes (`Traces.DirtyGoes`).
- Setting a file's size does nothing when the size asked for is the stored one (`tgfs/fuse_ops.py:77`), although unflushed
  changes may have made the file longer or shorter since. The file, open or closed, ends up as asked if and only if
  the size is not the stored one or is the file's own (`FsCore.FsCore.SetSize`); a new file, written and cut to nothing before a flush, keeps
  what it had (`FsCore.CutIgnored`).
- A prefetch is documented as never waiting on another download (`tgfs/cache.py:127`). It can, because it asks before it
  registers (`Singleflight.PrefetchMayWait`): it waits if and only if its blob is in flight when it registers
  (`Singleflight.PrefetchWaitsIff`), which takes another thread that registered it in between
  (`Singleflight.WaitsOnlyOvertaken`).
- A removed directory keeps its inode row, with link count 1 (`FsCore.FsCore.Rmdir`).
- `unlink_dirent` does not ask whether a directory is empty; the tree stays sound if and only if it is
  (`Tree.DropWholeIff`). Neither does `rename` ask what hangs below the name it replaces, or whether it puts a directory
  below itself; the tree stays sound if and only if neither is a problem (`Tree.RenameWholeIff`). Callers ask.

## Model

| member | source | states |
|---|---|---|
| SparseFile.WriteRefines | tgfs/cache.py:299-311 | a write on the sparse state is, on the bytes it stands for, a write on a plain array: holes read as zeros, nothing else changes; the layout invariant is kept |
| SparseFile.TruncateRefines | tgfs/cache.py:313-330 | truncate is ftruncate on those bytes, shrinking and growing, and keeps every invariant, including agreement of clean chunks with the store |
| SparseFile.ReadRefines | tgfs/cache.py:287-297 | a read returns exactly the slice of those bytes, clamped at the end, and changes none of them |
| SparseFile.WriteCoherent | tgfs/cache.py:241-266 | a write leaves every clean byte agreeing with what a flush would keep for it |
| SparseFile.WriteBacked | tgfs/cache.py:257-311 | after a write no later read can come up short, unless the write is empty and past the end |
| SparseFile.EmptyWriteUnbacks | tgfs/cache.py:299-311 | that exception does leave the temp file short |
| SparseFile.ReadsExactIff | tgfs/cache.py:287-297 | all reads are exact if and only if the temp file reaches over everything loaded or new |
| SparseFile.WriteReadsExactIff | tgfs/cache.py:299-311 | from a state with exact reads, all reads after a write are exact if and only if it is not an empty one past the end |
| SparseFile.PrepareKeeps | tgfs/cache.py:241-255 | loading a range, with fully overwritten chunks only flagged, keeps the layout; loading for a read changes no byte |
| SparseFile.GrowKeeps | tgfs/cache.py:257-266 | growing keeps the layout although the partial last chunk's stored length no longer fits |
| SparseFile.LoadKeeps | tgfs/cache.py:226-239 | pulling stored chunks into the temp file changes no byte of the file |
| FlushFile.FlushStoresView | tgfs/cache.py:332-344 | in any reachable state the rows after a flush stand for the file if and only if clean loaded chunks hold their blobs' bytes and no chunk is stale |
| FlushFile.FlushStoresChunk | tgfs/store.py:91-136 | whatever happened before, each chunk that is dirty or has no matching stored row is stored exactly, and so is a clean one below `base` that is not loaded or holds its blob's bytes |
| FlushFile.FlushKeepsView | tgfs/cache.py:339-344 | the running file is the same after a flush, and its state is laid out over the new rows |
| FlushFile.FlushCoherent | tgfs/cache.py:332-344 | clean chunks agree with the store again, ready for the next flush, under the same condition and no other |
| FlushFile.StorableIsReuse | tgfs/store.py:91-103 | that condition is that every row put_file keeps has the bytes of the file at its place |
| FlushFile.MaterializeKeeps | tgfs/cache.py:204-224 | entering write mode stands for the stored bytes, aligned or not |
| FlushFile.MaterializeFaithful | tgfs/cache.py:214-217 | and that for all reads if and only if the aligned list has no over-long last row |
| FlushFile.LongTailIsSingle | tgfs/store.py:91-92 | a list stored at any chunk size has an over-long last row only as its single row |
| FlushFile.LongTailShort | tgfs/cache.py:214-217 | with one, the first byte past the chunk size is never loaded and a read of it returns nothing |
| Exposure.StaleIsExposed | tgfs/store.py:93-96 | a chunk is stale if and only if it is exposed, cut off and back without being rewritten, and its stored row passes for it |
| Exposure.WriteTight | tgfs/cache.py:299-311 | a write exposes nothing unless it leaves a gap behind the end of a file of which more is stored |
| Exposure.TruncateTight | tgfs/cache.py:313-330 | nor does a truncate: a shrink never, growing only when more is stored than the file holds |
| Runs.RunRefines | tgfs/cache.py:204-356 | after any run of writes, truncates, reads and syncs the state stands for what the same operations make of a plain byte array |
| Runs.ReadsAreExact | tgfs/cache.py:287-297 | every read of such a run, without an empty write past the end, returns exactly that array's slice |
| Runs.ReadsExactAt | tgfs/cache.py:287-311 | at any point of any run, all reads that could follow return that array's slices if and only if the temp file reaches far enough |
| Runs.EmptyWriteReadsShort | tgfs/cache.py:299-311 | from any state, an empty write past the end makes a read return nothing where the array has a zero |
| Runs.RunStores | tgfs/cache.py:332-344 | as long as no sync meets a stale chunk, whenever nothing is pending the store holds the plain array |
| Runs.SyncStoresIff | tgfs/cache.py:332-344 | at any point of any run, a sync stores the plain array if and only if the state is storable |
| Runs.RunStoresIff | tgfs/cache.py:332-344 | from a state that agrees with the store, every sync of a run stores the plain array if and only if none meets a stale chunk |
| Runs.RunAhead | tgfs/cache.py:313-330 | a run that never shrinks the file exposes nothing, and the file stays at least as long as what is stored |
| Runs.RechunkKeepsContent | tgfs/cache.py:218-223 | remounted with any chunk size, a run without a shrink that ends in a sync stores the plain array, laid out at the new size |
| Runs.RegrowStoresOldByte | tgfs/store.py:93-96 | two equal bytes x other than 0, cut to one and regrown: the file reads [x, 0] and a flush stores [x, x] |
| Histories.LostIff | tgfs/cache.py:204-344 | the operations so far tell exactly which chunks with a stored row at their place the state has given up |
| Histories.StaleIff | tgfs/store.py:93-96 | a flush at any point of a run meets a stale chunk if and only if by its operations a lost chunk is back over a row that passes for it |
| Histories.HistoryDecides | tgfs/cache.py:332-344 | every sync of a run stores the plain array if and only if no lost chunk is back at any of them |
| Histories.MountStarts | tgfs/cache.py:204-224 | every stored file, but one with an over-long single row, is where such runs can start |
| Laziness.DownloadsOnce | tgfs/cache.py:226-266 | in any run each base chunk index is downloaded at most once, and one overwritten whole before that never; downloads are what the methods of the state return as fetched |
| Laziness.StepSpends | tgfs/cache.py:241-344 | an operation downloads only what is not done with; what it downloads or replaces is done with from then on |
| Fetches.FetchIsNeed | tgfs/cache.py:228-231 | the list of indexes to load is the set downloaded, each index once |
| Laziness.UploadsAreDirty | tgfs/store.py:93-133 | a digest that a flush uploads is that of a chunk that is dirty or has no matching stored row |
| FileState.FileState.constructor | tgfs/cache.py:159-171 | a new state is clean and not in write mode |
| FileState.FileState.Materialize | tgfs/cache.py:204-224 | write mode is entered with the file's bytes unchanged |
| FileState.FileState.LoadRange | tgfs/cache.py:226-239 | the temp file and the loaded set become those of the loading function; each needed chunk is downloaded once, in order, no other |
| FileState.FileState.PrepareRange | tgfs/cache.py:241-255 | the fields become those of the preparing function, and what is downloaded is what it needs |
| FileState.FileState.GrowTo | tgfs/cache.py:257-266 | the fields become those of the growing function, and what is downloaded is what it needs |
| FileState.FileState.Read | tgfs/cache.py:287-297 | the file's bytes in the range, in write mode and on the read-only path; the file is unchanged, and the chunks downloaded are given exactly |
| FileState.FileState.Write | tgfs/cache.py:299-311 | the file becomes the plain overwrite of what it was; no chunk is exposed unless a gap is left while more is stored; the chunks downloaded are given exactly |
| FileState.FileState.Truncate | tgfs/cache.py:313-330 | the file becomes the plain resize of what it was; no chunk is exposed unless it grows while more is stored; the chunks downloaded are given exactly |
| FileState.FileState.Flush | tgfs/cache.py:332-344 | the file is unchanged; the store holds it exactly if and only if it was storable; a failed upload changes nothing and keeps everything pending |
| Traces.DirtyGoes | tgfs/cache.py:332-425 | pending changes go only into the store, with a discarded inode, or with a last close that fails undelayed |
| Traces.CloseFails | tgfs/cache.py:366-377 | a close fails only if it is the last one, something is pending and there is no flush delay |
| Traces.FlushExactIff | tgfs/cache.py:332-344 | what any flush stores, by sync, close or reaper, is the file if and only if it was faithful and not stale |
| Traces.CleanRunKeeps | tgfs/cache.py:287-425 | over any run with no discard, no failed close and no stale flush, readers see the plain byte array, and with nothing pending the store holds it |
| Traces.StaysTight | tgfs/cache.py:287-425 | a run that extends the file over no gap while more is stored than it holds meets no stale chunk |
| Traces.NothingLost | tgfs/cache.py:287-425 | over any run of opens, reads, writes, truncates, syncs, closes, reaps and unmounts of one inode with no discard, no failed close and no such gap, its readers see the plain byte array, and with nothing pending the store holds it |
| Traces.StoredAtLast | tgfs/cache.py:419-425 | at the end of such a run, with the state gone, the store holds the plain byte array |
| Traces.GrowingRun | tgfs/cache.py:287-425 | a run that never shrinks the file has no such gap |
| Traces.GrowingRunKeeps | tgfs/cache.py:287-425 | so over such a run, without a discard or a failed close, nothing is lost |
| Traces.ExactIff | tgfs/cache.py:332-344 | every flush of a run stores the plain byte array if and only if none meets a stale chunk |
| Traces.StaysWhole | tgfs/cache.py:287-330 | every read of a run without empty writes past the end is complete |
| Traces.StaysWriting | tgfs/cache.py:204-211 | write mode is kept as long as the state is |
| Traces.UnmountStores | tgfs/cache.py:419-425 | an unmount that gets through stores what is pending exactly if and only if it was faithful and not stale |
| Traces.TruncatedView | tgfs/cache.py:428-434 | after a truncate by path the file is the resized one wherever its state survives, which under a delay is always, and otherwise if the flushes got through and, before the call, the file was faithful, nothing was exposed, and it does not grow while more is stored |
| Writeback.WritebackManager.constructor | tgfs/cache.py:175-199 | starts without states |
| Writeback.WritebackManager.Open | tgfs/cache.py:268-279 | one state per inode, one more handle counted on it, write mode if asked for; contents, stored rows, what is pending and which reads are complete stay, for every inode |
| Writeback.WritebackManager.LiveSize | tgfs/cache.py:281-284 | the length of what readers see, exactly while in write mode |
| Writeback.WritebackManager.Read | tgfs/cache.py:287-297 | a prefix of the file's bytes in the range, all of them unless an empty write past the end came before; nothing else changes and what was complete stays so |
| Writeback.WritebackManager.Write | tgfs/cache.py:299-311 | the file becomes the plain overwrite, pending and in write mode; reads stay complete unless the write is empty and past the end; nothing gets stale unless it leaves a gap while more is stored; no other inode is affected |
| Writeback.WritebackManager.Truncate | tgfs/cache.py:313-330 | the file becomes the plain resize, pending and in write mode, with all reads complete; nothing gets stale unless it grows while more is stored; no other inode is affected |
| Writeback.WritebackManager.Sync | tgfs/cache.py:353-356 | what is pending reaches the store, exactly if and only if faithful and not stale; the file reads as before and completely; a failure keeps it pending; no other inode is affected |
| Writeback.WritebackManager.FlushOnClose | tgfs/cache.py:346-351 | does nothing under a flush delay, else a sync |
| Writeback.WritebackManager.Release | tgfs/cache.py:366-377 | the last close drops the state after a flush, or keeps a dirty one as it is under a delay; a failed undelayed flush loses the changes; no other inode is affected |
| Writeback.WritebackManager.Discard | tgfs/cache.py:379-385 | one inode's state goes unflushed, what is stored stays, and all other inodes look as before |
| Writeback.WritebackManager.ReapState | tgfs/cache.py:403-417 | an idle state is flushed and dropped; a failed flush keeps the state, its contents and all that is pending |
| Writeback.WritebackManager.ReapOnce | tgfs/cache.py:395-417 | each inode is as before, or reaped as above; a forced round that gets through leaves no idle state |
| Writeback.WritebackManager.Shutdown | tgfs/cache.py:419-425 | each inode is as before but for its handles, or reaped; on success no state is left and what was pending is stored exactly if and only if faithful and not stale |
| Writeback.WritebackManager.TruncatePath | tgfs/cache.py:428-434 | the inode goes through opening for writing, the truncate, under no delay a sync, and a close, in that order, and it reports success exactly when the flushes got through; nobody else is affected |
| Plan.PutRowsAligned | tgfs/store.py:89-136 | the list put_file builds tiles the file at the chunk size with only the last row short, whatever is reused |
| Plan.PutRowsFull | tgfs/store.py:89-156 | storing any bytes afresh at any chunk size gives rows that stand for exactly those bytes |
| Plan.SparsePutRefinesFull | tgfs/store.py:67-156 | put with a dirty set and a sparse source equals full put of the intended bytes if and only if every reused row agrees with them |
| Plan.AlignedInjective | tgfs/store.py:91-136 | two lists laid out alike stand for the same bytes only if they are the same list |
| Store.Meta.SetChunks | tgfs/meta.py:339-348 | one inode's rows are replaced; an empty list leaves none |
| Store.Meta.SetSize | tgfs/meta.py:317-323 | updates the size of an inode that has a row, else nothing |
| Store.Meta.BlobCreate | tgfs/meta.py:357-363 | a new blob row with one reference |
| Store.Meta.BlobIncref | tgfs/meta.py:365-370 | one reference more, handle and length kept |
| Store.Meta.BlobDecref | tgfs/meta.py:372-389 | one reference less; the last one drops the row and yields the handle |
| Store.MemoryBackend.Upload | tgfs/backend.py:39-45 | a fresh handle for the bytes, or a failure that changes nothing |
| Store.MemoryBackend.Delete | tgfs/backend.py:55-58 | exactly that handle is gone |
| Store.Store.constructor | tgfs/store.py:24-43 | a store over any tables in order is valid, and so over empty ones |
| Store.Store.PutFile | tgfs/store.py:67-156 | all or nothing: the planned rows and size for this inode and nothing else, or tables, refcounts and live handles as before; refcounts equal row occurrences again; kept blobs keep their handle, and as many uploads as there are new digests |
| Store.Store.Scan | tgfs/store.py:87-136 | the loop builds the planned list, reads the source always at the chunk's own offset, and holds one reference per row bar repeats |
| Store.Store.UploadBlob | tgfs/store.py:50-59 | a chunk is uploaded and registered with one reference, or its copy deleted again and a reference taken on the registered one, or nothing happens |
| Store.Store.Release | tgfs/store.py:61-65 | one reference less, and with the last one the handle is deleted |
| Store.Store.Publish | tgfs/store.py:152-156 | rows and size are replaced and the old references dropped; refcounts are row occurrences |
| Store.Store.FreeFile | tgfs/store.py:158-162 | an inode's rows go and every other inode's blobs stay |
| Store.Store.ReadChunk | tgfs/store.py:179-185 | a slice of the blob's bytes; an error only for a digest without a row |
| Store.Store.IterChunks | tgfs/store.py:187-200 | every chunk's bytes, in the order asked for |
| Store.Store.ReadRange | tgfs/store.py:225-261 | exactly the stored bytes from offset to offset + length, clamped, for all arguments |
| Store.Store.BlobHasRow | tgfs/meta.py:357-389 | between calls no blob row is without a chunk row naming it |
| Store.AllHeld | tgfs/store.py:116-136 | once repeats are settled the call holds exactly one reference per row it built |
| PutProtocol.StepKeeps | tgfs/store.py:50-162 | every step of every interleaving, with look-up and submission apart, keeps: each refcount is the chunk rows naming the digest plus references taken and unpublished plus old ones unreleased; each live handle is named by its blob row or in exactly one call's hands |
| PutProtocol.ActFair | tgfs/store.py:50-162 | each kind of step changes refcounts by what the acting call's account changes, and moves handles only between backend, blob rows and that call |
| PutRuns.RunKeeps | tgfs/store.py:50-162 | the conservation law holds at every moment of every run |
| PutRuns.RowsResolve | tgfs/store.py:116-156 | at every moment every chunk row of every inode not itself being freed resolves to a live handle with bytes of that digest, in the release phase and in rollback too |
| PutRuns.QuietIsExact | tgfs/store.py:137-156 | with no call under way refcounts are row occurrences and blob rows match live handles one to one |
| PutRuns.QuietStart | tgfs/store.py:67-162 | with no call under way the law holds if and only if refcounts are row occurrences and blobs and live handles match, so runs can start wherever puts and frees have left off |
| PutRuns.PublishesPlan | tgfs/store.py:152-153 | whatever interleaves, a call publishes the planned list for its source |
| PutRuns.CleanChunkKnown | tgfs/store.py:97-103 | the "blob missing" error of a clean chunk cannot occur |
| PutRuns.HandleStable | tgfs/store.py:111-116 | a blob known before and after a step is never uploaded again |
| PutRuns.FailedRunRestores | tgfs/store.py:140-150 | any number of interleaved calls that all fail leave rows, sizes, refcounts and live handles exactly as they were, with repeats, cancelled tasks and finished uploads |
| PutRuns.StepWithinWorkers | tgfs/store.py:128-131 | no call has more uploads running than there are workers |
| Paths.MoveSubtree | tgfs/meta.py:241-293 | below the new name every path resolves to what it resolved to below the old one |
| Paths.MoveElsewhere | tgfs/meta.py:241-293 | every path that asks for neither name resolves as before |
| Paths.OldNameGone | tgfs/meta.py:286-289 | nothing resolves below the old name any more |
| Paths.MoveKeepsTree | tgfs/meta.py:241-293 | the graph stays acyclic and reachable from the root |
| Paths.RemoveLeaf | tgfs/meta.py:207-239 | so it does when an empty directory's or a file's name goes |
| Tree.PlusNameCounts | tgfs/meta.py:169-205 | adding a name with its count updates leaves every link count exact |
| Tree.MinusNameCounts | tgfs/meta.py:207-239 | so does taking one away |
| Tree.GoneCounts | tgfs/meta.py:236-237 | dropping a row at count 0 leaves no dangling name, and the row is never a directory's |
| Tree.CreateWhole | tgfs/meta.py:169-192 | creating keeps the tree sound: counts, no dangling name, one tree |
| Tree.LinkWhole | tgfs/meta.py:194-205 | so does linking |
| Tree.DropWhole | tgfs/meta.py:207-239 | so does unlinking |
| Tree.DropWholeIff | tgfs/meta.py:207-239 | removing a name keeps the tree sound if and only if nothing hangs below it |
| Tree.RenameWhole | tgfs/meta.py:241-293 | so does renaming, over an existing destination too, below which nothing but the name moved may hang |
| Tree.RenameWholeIff | tgfs/meta.py:241-293 | a rename keeps the tree sound if and only if it puts no directory below itself and nothing else hangs below what it replaces |
| Tree.RenameMovesSubtree | tgfs/meta.py:241-293 | a rename of a sound tree moves every path below the old name to the new one and leaves none behind |
| Tree.Tree.constructor | tgfs/meta.py:102-116 | the root alone, with count 2, is a sound tree |
| Tree.Tree.LinksExact | tgfs/meta.py:169-293 | in every reachable state a file's count is its names and at least 1, a directory's 1 + names + child directories, the root's one more; a name leads to a row |
| Tree.Tree.Resolve | tgfs/meta.py:141-151 | the inode that walking the names from the root leads to |
| Tree.Tree.Create | tgfs/meta.py:169-192 | a number never used before, one name, counts adjusted |
| Tree.Tree.Link | tgfs/meta.py:194-205 | one name and one count more |
| Tree.Tree.UnlinkDirent | tgfs/meta.py:207-239 | the name goes, counts follow, the row goes exactly at 0; an unknown name changes nothing; the tree is sound afterwards if and only if nothing hung below the name |
| Tree.Tree.Rename | tgfs/meta.py:241-293 | the entry is moved, the destination vacated; the replaced inode is yielded exactly when it lost its row; the tree is sound afterwards if and only if the rename was harmless |
| FsCore.FsCore.constructor | tgfs/fuse_ops.py:30-39 | any index with its tables in order can be mounted: no handle is open and nothing waits to be freed |
| FsCore.Format | tgfs/fuse_ops.py:30-39 | made from nothing, everything is in order and empty |
| FsCore.FsCore.MakeNode | tgfs/fuse_ops.py:87-121 | EEXIST exactly for a taken name, else a fresh empty inode; no file's contents change |
| FsCore.FsCore.Link | tgfs/fuse_ops.py:129-137 | ENOENT, EPERM, EEXIST in that order, else one more name |
| FsCore.FsCore.Rmdir | tgfs/fuse_ops.py:97-105 | ENOENT, ENOTDIR, ENOTEMPTY exactly when due, else only the name goes and the row stays |
| FsCore.FsCore.Unlink | tgfs/fuse_ops.py:139-152 | ENOENT, EISDIR exactly when due; a file without names is freed now exactly if it is not open, else kept with its contents; nobody else is freed |
| FsCore.FsCore.Rename | tgfs/fuse_ops.py:154-166 | ENOENT, ENOTEMPTY exactly when due; a replaced file that lost its last name is freed now or kept for its handles |
| FsCore.FsCore.Open | tgfs/fuse_ops.py:191-201 | ENOENT, EISDIR exactly when due, else a fresh handle on the inode's shared state, in write mode if opened for writing; contents and what is pending stay |
| FsCore.FsCore.Create | tgfs/fuse_ops.py:203-216 | EEXIST exactly for an exclusive create of a taken name, else a handle in write mode on the named or a fresh empty file |
| FsCore.FsCore.GetSize | tgfs/fuse_ops.py:41-53 | ENOENT exactly for a missing inode; a file's size is the length of what its readers see, pending changes included |
| FsCore.FsCore.SetSize | tgfs/fuse_ops.py:67-84 | ENOENT exactly for a missing inode; a file ends up with the size asked for if and only if that is not the stored size or is the file's own, wherever its state survives, and where it does not, as for a closed file, if the flush got through; the size reported is the length of what readers see |
| FsCore.CutIgnored | tgfs/fuse_ops.py:76-78 | create, write and set the size to 0: the file keeps what was written |
| FsCore.SavedOnClose | tgfs/fuse_ops.py:203-244 | create, write, close with no flush delay: what was written is stored if the close got through, else nothing is |
| FsCore.FsCore.Read | tgfs/fuse_ops.py:218-220 | EBADF exactly for an unknown handle, else a prefix of the file's bytes, linked or not, and all of them where no empty write past the end came before |
| FsCore.FsCore.Write | tgfs/fuse_ops.py:222-224 | EBADF exactly for an unknown handle, else the plain overwrite of the file's contents as by the manager, still in write mode, and no other file affected |
| FsCore.FsCore.Flush | tgfs/fuse_ops.py:226-232 | EBADF exactly for an unknown handle; flush does nothing under a delay, else both push what is pending as the manager does, and no other inode is affected |
| FsCore.FsCore.Release | tgfs/fuse_ops.py:234-244 | an unlinked file is freed exactly when its last handle closes, once; if that close fails it is stranded; a close fails only undelayed, with changes pending and no other handle open; otherwise the inode is closed as by the manager, and no other is affected |
| FsCore.FsCore.Reap | tgfs/cache.py:395-417 | a background flush reaps one inode as the manager does and interferes with no handle, name or unlinked file |
| FsCore.FsCore.Free | tgfs/fuse_ops.py:240-244 | state and rows of one inode go, it counts as freed, every other file reads as before |
| FsCore.FsCore.BlobsBelong | tgfs/fuse_ops.py:139-166 | every blob row belongs to a file that has a name, or has an open handle, or whose last close failed; never to a freed one |
| FsCore.KeptOn | tgfs/fuse_ops.py:146-148 | an open inode that loses its row is still accounted for: each number is in the tree, held, or freed, exactly one of them |
| FsCore.SetFree | tgfs/fuse_ops.py:241-244 | so is one that is freed, and it was not freed before |
| FsCore.HandleGiven | tgfs/fuse_ops.py:173-177 | each state counts exactly its handles when one is added |
| FsCore.HandleTaken | tgfs/fuse_ops.py:234-239 | and when one is closed; a state dropped had no other |
| FsCore.StateReaped | tgfs/cache.py:411-417 | a state dropped by the reaper had no handle |
| ReadCache.ReadCache.constructor | tgfs/cache.py:44-56 | the accounting starts exact over the files found |
| ReadCache.ReadCache.ReadCached | tgfs/cache.py:61-78 | a hit is the slice of the blob and makes it most recent; a vanished file is a miss and leaves the accounting |
| ReadCache.ReadCache.Store | tgfs/cache.py:131-144 | afterwards the index is the most recent blobs that fit, as many as possible, the one just stored at any rate; the total is exact |
| ReadCache.ReadCache.Evict | tgfs/cache.py:146-153 | the oldest entries go until the rest fits or is one |
| ReadCache.ReadCache.GetRange | tgfs/cache.py:103-120 | a caller alone gets the slice of the blob whatever was cached, or the loader's error |
| ReadCache.KeptIs | tgfs/cache.py:146-153 | what eviction leaves is the longest most recent part within the cap, or one entry |
| ReadCache.TouchNewest | tgfs/cache.py:65-142 | the index, newest first, stays a prefix of the true order of last accesses |
| Singleflight.ActKeeps | tgfs/cache.py:80-129 | every step keeps: registered events belong to one leader each, waiters wait for an event that is set or will be, and data is the blob asked for |
| Singleflight.OneLeader | tgfs/cache.py:86-101 | at most one thread per digest runs the loader |
| Singleflight.WaiterHasLeader | tgfs/cache.py:91-101 | an unset event has exactly one thread that will set it, and that one is not blocked |
| Singleflight.SomeoneCanAct | tgfs/cache.py:80-120 | as long as a thread is unfinished some thread can act |
| Singleflight.RankDrops | tgfs/cache.py:111-120 | each step brings its thread nearer to its end and leaves the others |
| Singleflight.EveryRun | tgfs/cache.py:106-129 | under every schedule a thread takes at most its three rounds and a direct load, and returns the blob it asked for or raises |
| Singleflight.EveryFreshRun | tgfs/cache.py:80-129 | from a fresh start a thread takes at most 21 steps, returns the blob it asked for or raises, and nobody is stuck at the end |
| Singleflight.StuckIsFinished | tgfs/cache.py:94-101 | when nobody can act everyone is finished and nothing is in flight |
| Singleflight.PrefetchMayWait | tgfs/cache.py:126-129 | two threads and four steps make a prefetch wait |
| Singleflight.PrefetchWaitsIff | tgfs/cache.py:126-129 | under every schedule a prefetch waits if and only if its blob is in flight when it takes its registering step |
| Singleflight.WaitsOnlyOvertaken | tgfs/cache.py:126-129 | it never waits unless another thread registers its blob between its question and its registration |
| Parts.RunKeeps | tgfs/fasttransfer.py:90-107 | moved, in progress and not yet issued partition the indexes, for any workers and interleaving |
| Parts.EveryPartOnce | tgfs/fasttransfer.py:90-107 | a transfer that returns has moved every part exactly once |
| Parts.UploadExact | tgfs/fasttransfer.py:110-130 | parts arriving in any order make up the document |
| Parts.DownloadExact | tgfs/fasttransfer.py:133-157 | parts written in any order fill the buffer with the document |
| Parts.TransferRoundTrip | tgfs/fasttransfer.py:90-157 | upload then download, each under any schedule, gives the original bytes |
| Parts.PartLimit | tgfs/fasttransfer.py:114-116 | the part limit rejects exactly the documents larger than that many parts |

## Left out

- Downloads that fail in the middle of a write: `_prepare` marks replaced chunks as loaded before the bytes are written
  (`tgfs/cache.py:250-255`); the model takes downloads to succeed.
- The two critical sections of the reaper and of `release` are one step each; a reopen between them is not modelled.
- `FsCore.open` with O_TRUNC is a truncate to 0 by path and an open; it has no member of its own.
- FlushFile.MaterializeKeeps: assumes no single stored row longer than the chunk size; with one it is not true, and
  `FlushFile.MaterializeFaithful` has the exact condition.
- FileState.FileState.Materialize: the same assumption, for the same reason.
- Runs.RechunkKeepsContent: the same assumption on the list found at the remount.
- Writeback.WritebackManager.Open: for writing, the same assumption, and that the inode has a row, as `FsCore` sees to.
- FsCore.FsCore.Create: the same assumption on the file named.
- FsCore.FsCore.SetSize: the same assumption.
- FsCore.FsCore.constructor: chunk rows of inodes without a row, as a crash with an unlinked file open leaves them, are
  excluded; nothing in the source ever looks for them.
- Runs.ReadsAreExact: excludes runs with an empty write past the end; `Runs.ReadsExactAt` has the exact condition for any run.
- Tree.Tree.Rename: a rename onto the same inode, which the kernel refuses, is excluded, as is a directory that is not in the
  tree.
- FsCore.FsCore.Rename: the kernel's refusals, a rename onto the same inode and of a directory below itself, are
  preconditions, as is that new names go to directories that are in the tree.
- FsCore.FsCore.Open: opening for writing requires that the stored list has no over-long single row; see above.
- ReadCache.ReadCache.GetRange: is the caller alone; concurrent callers, with cache contents as a set of digests, are in
  `Singleflight`. Prefetch queueing in `Store._prefetch` and read-ahead are performance only.
- ReadCache.TouchNewest: the recency order is kept as long as no cached file vanishes.
- The step machine of `PutProtocol` has at most one call per inode at a time, as the writeback state's lock arranges.
- Short reads of a put source and of raw files, failing backend deletes, and failing cache file deletes.
- Telethon sessions, flood waits, retries, connection pools, the asyncio bridge, the FUSE adapter, the command line and
  configuration: network and plumbing.
- SQL and its persistence; times, modes, owners, symlink targets and statfs: they would add only easy members.
