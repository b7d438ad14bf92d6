# sqlfuse: a verified model of the filesystem

sqlfuse keeps a filesystem in three tables of an SQLite database (`metadata`, `direntries`, `filedata`) and serves it
through FUSE. This project models the code that edits those tables, and proves what the code is relied upon for: that
blocks in a table behave like files, that rows in a table stay a tree, that every operation happens completely or not
at all, that inodes live exactly as long as somebody needs them, and that a directory read in pieces is read once.

| file | contents |
|---|---|
| `Timestamps.dfy` | nanosecond timestamps in a 64-bit column |
| `Schema.dfy` | the tables, keys and error codes |
| `Blocks.dfy` | how a flat byte sequence is laid out over `filedata` rows |
| `Store.dfy` | class `Sqlfs`: the database, its savepoint stack, and one method for each SQL statement |
| `Files.dfy` | read, write, resize and set_attr, as loops over arrays and rows |
| `Tree.dfy` | what `direntries` must look like, and the theory of climbing to the root |
| `Operations.dfy` | net effect and refusals of create, remove, rename and purge, and exactly when each keeps the tree |
| `Outcomes.dfy` | exactly when operations succeed and how they fail, in terms of names and rows |
| `Directories.dfy` | the same operations statement by statement, with savepoints and rollback |
| `Runs.dfy` | every reachable state, and the flat files that a run implements |
| `Limits.dfy` | reachable states and inputs for which the code fails what it relies on its callers for |
| `Lookups.dfy` | class `Intmap`, the table of lookup counts |
| `Fuse.dfy` | lookup accounting over whole FUSE sessions, and the request handlers |
| `Readdir.dfy` | reading a directory in pieces |

How to read it:

- The three tables are maps, and a state of the database is a value of type `Tables`. Functions such as `Created`,
  `Removed`, `Renamed` and `Purged` give the net effect of an operation, and functions such as `RemoveOutcome` give its
  result when no statement fails. The methods in `Directories.dfy`, `Files.dfy` and `Fuse.dfy` follow the C code
  statement by statement and are proved to have just that effect and result.
- Each SQL statement that writes can fail at any time when the medium may fail (`mayFail`), and then has no effect.
  Every operation is proved to leave the tables and the stack of savepoints as they were unless it returns `OK`, whichever
  statement fails, including `remove_impl` inside a rename and `sqlfs_purge` inside `sqlfs_purge_all`. Conversely, `EIO`
  is returned only when the medium may fail.
- A failed `CHECK()` is the result `ABORT`: the process ends, and the database undoes the outermost transaction. Where a
  `CHECK()` can never fail, this is proved; where it can fail, the theorem says exactly when.
- `Inv` is a consistent filesystem: the directories form a tree, link counts are exact, files are laid out as the
  schema says, and no row is an orphan. `Runs.EveryRun` proves it for every reachable state, and that the files have
  exactly the contents that a map from inodes to byte sequences would have after the same operations.

Where the code does not do what its comments say, the model follows the code, and a theorem says exactly when it
matters:

- `timespec_to_nanos` is documented as clamping. It returns INT64_MIN for times within the lowest partial second of the
  range, too (`Timestamps.ClampsIff`).
- `stat_dir` is documented as rejecting unlinked directories. It never does, because `fill_stat` has already counted the
  "." entry, so mkdir and mknod break the tree in a directory without links, and only there
  (`Operations.CreateKeepsInvIff`, `Limits.MkdirInRemovedDirectory`).
- `sqlfs_rename` does not check the link count of the new parent either, and documents that it does not look for cycles.
  `Operations.RenameKeepsInvIff` shows that these two are the only ways in which it can break the tree;
  `Limits.RenameIntoRemovedDirectory` and `Limits.RenameIntoItself` are runs in which it does.
- `sqlfs_write` of zero bytes at an offset that is not on a block boundary fails a `CHECK()` (`Files.Write`,
  `Limits.EmptyWriteAborts`).
- `sqlfs_set_attr` promises EINVAL for an invalid size, but tests the old size. A negative new size fails a `CHECK()`
  (`Files.SetAttr`, `Limits.NegativeSizeAborts`).
- `sqlfuse_readdir` expects to make progress. It fails a `CHECK()` if everything from the remembered name on has been
  deleted since the previous call (`Readdir.ResumeAbortsIff`, `Limits.ResumeAfterRemovalAborts`).

## Model

| member | source | states |
|---|---|---|
| Timestamps.FromNanos | sqlfs.c:431-442 | the pair is normalised and denotes the same instant, although C division truncates toward zero |
| Timestamps.ClampsIff | sqlfs.c:411-424 | conversion to nanoseconds is clamping, except in one partial second at the bottom of the range, where it gives INT64_MIN and is off by less than 854775808 ns |
| Timestamps.ClampFails | sqlfs.c:411-424 | a concrete time that is in range and still becomes INT64_MIN |
| Timestamps.ToNanosMonotone | sqlfs.c:411-424 | later times never become smaller numbers |
| Timestamps.RewrittenExactIff | sqlfs.c:411-442 | reading a stored time and writing it back is exact if and only if it is at least -9223372036000000000 or INT64_MIN itself, and gives INT64_MIN otherwise |
| Timestamps.RewrittenIdempotent | sqlfs.c:1777-1780 | the clamping done by set_attr is stable under later rewrites of the row |
| Schema.KindOfIs | sqlfs.c:249-257 | exactly three strings are special, "", "." and "..", and every other name is regular, hidden files included |
| Blocks.RepresentsLayout | sqlfs_schema.h:46-49 | rows that represent a byte sequence have the documented layout: full rows, then one row for the remainder, none empty |
| Blocks.LayoutRepresents | sqlfs_schema.h:46-49 | conversely, rows with the documented layout represent the sequence that they join up to |
| Blocks.RepresentsJoined | sqlfs_schema.h:46-49 | and no other sequence |
| Blocks.OverwrittenAt | sqlfs.h:309-318 | what a write should do, byte by byte: new bytes, old bytes, and zeroes in the gap |
| Blocks.ResizedTwice | sqlfs.h:279-283 | shrinking and growing never brings back what was cut off |
| Blocks.PatchStep | sqlfs.c:1701-1713 | replacing block i of a file that is rewritten from left to right moves the boundary between new and old by one block |
| Blocks.PatchEnd | sqlfs.c:1895-1971 | when the boundary has passed the end of the new contents, or what follows is the same in both, the rewritten rows represent the new contents |
| Blocks.RewroteContents | sqlfs.c:1860-1991 | after a rewrite of one file, the file has its new contents, all other files have their old contents, and the schema still holds |
| Blocks.RewroteUnique | sqlfs.c:1860-1991 | the contract of write and resize fixes every row of the new state |
| Store.Sqlfs.Savepoint | sqlfs.c:332-336 | pushes the current tables |
| Store.Sqlfs.ReleaseSavepoint | sqlfs.c:338-342 | pops the innermost savepoint and keeps the changes |
| Store.Sqlfs.RollbackToSavepoint | sqlfs.c:344-348 | restores the tables of the innermost savepoint, which stays open |
| Store.Sqlfs.Finish | sqlfs.c:1406-1411 | keeps the changes of a successful operation, undoes those of a failed one, and pops its own savepoint only |
| Store.Sqlfs.CheckFailed | sqlfs.c:27-30 | a failed check undoes everything since the outermost savepoint |
| Store.Sqlfs.StatInode | sqlfs.c:482-520 | attributes of an inode, with the "." link of a directory counted |
| Store.Sqlfs.StatEntryRow | sqlfs.c:522-527 | the same through the join with direntries |
| Store.Sqlfs.InsertMetadata | sqlfs.c:538-568 | a new row under some unused positive number, maybe one that was in use before, and the attributes that go with it |
| Store.Sqlfs.UpdateMetadata | sqlfs.c:582-604 | changes size and time of an existing row |
| Store.Sqlfs.UpdateNlink | sqlfs.c:627-651 | adds to the link count of an existing row |
| Store.Sqlfs.InsertDirentry | sqlfs.c:703-722 | adds a row, or EEXIST if the key is taken |
| Store.Sqlfs.CountDirentries | sqlfs.c:728-738 | number of rows of a directory, including the parent link |
| Store.Sqlfs.ReparentDirectory | sqlfs.c:765-773 | changes the parent link of a directory, and fails if it has none |
| Store.Sqlfs.RenameRow | sqlfs.c:803-815 | moves a row to a free key, and fails otherwise |
| Store.Sqlfs.UpdateFiledata | sqlfs.c:889-898 | stores one block |
| Store.Sqlfs.DeleteFiledata | sqlfs.c:906-917 | deletes the blocks of one file from an index on |
| Files.CopyChunk | sqlfs.c:871-876 | one row's share of a read extends what is in place by exactly that row's bytes |
| Files.ReadFiledata | sqlfs.c:828-884 | fills the buffer with exactly the requested slice of the file and nothing beyond it, and fails if and only if the file is too short |
| Files.ChunkBounds | sqlfs.c:836-848 | chunk arithmetic stays in 64 bits; only the first chunk of a read may start before the requested range |
| Files.ExtendByBlock | sqlfs.c:1701-1713 | one round of growing stores the right block and leaves the right scratch block for the next round |
| Files.StartExtension | sqlfs.c:1690-1700 | growing starts at the block boundary below the old size, with the old bytes of that block |
| Files.ExtendFiledata | sqlfs.c:1690-1713 | growing appends zeroes |
| Files.TruncateFiledata | sqlfs.c:1714-1736 | shrinking keeps a prefix and leaves no stale rows or bytes |
| Files.ResizeFiledata | sqlfs.c:1670-1747 | the file becomes its first min(old, new) bytes and then zeroes, and other files keep their rows |
| Files.ChunkChecks | sqlfs.c:1902-1960 | the sizes checked for each chunk are positive and in bounds, except that there is nothing to copy if and only if the write is empty |
| Files.AtMostTwoMixed | sqlfs.c:1915-1936 | only the first and the last chunk of a write take the path through the scratch buffer |
| Files.PlainChunk | sqlfs.c:1915-1917 | a chunk on the easy path is the corresponding part of the new contents |
| Files.MixedChunk | sqlfs.c:1938-1963 | whatever the scratch buffer held before, all of the chunk that is stored is old or new file contents |
| Files.CopyNewData | sqlfs.c:1952-1961 | copying stays in bounds, completes the chunk, and aborts if and only if there is no data |
| Files.ReadOldData | sqlfs.c:1938-1950 | the buffer filled with -1 starts with the old bytes of the chunk, and the read cannot fail |
| Files.BuildChunk | sqlfs.c:1896-1964 | on either path the chunk is the block of the new contents, and a scratch buffer that will be used again is large enough |
| Files.CopyOver | sqlfs.c:1952-1961 | copying the new bytes over the old ones completes the chunk |
| Files.WriteBlocks | sqlfs.c:1895-1971 | the loop rewrites all blocks from the first one on, and touches no other file |
| Files.WriteFiledata | sqlfs.c:1895-1971 | the loop as a whole overwrites the file in the table |
| Files.WriteContents | sqlfs.c:1882-1971 | the same when the file is first extended up to the offset |
| Files.Write | sqlfs.c:1860-1991 | write is flat overwrite for every offset, size, block size and old length; it is refused, fails without effect, or aborts exactly when said |
| Files.Read | sqlfs.c:1821-1858 | read returns the slice of the contents that exists, leaves the rest of the buffer alone, and never fails on a regular file |
| Files.ReadSlice | sqlfs.c:1841-1848 | how many bytes a read returns, and which |
| Files.ReadBack | sqlfs.c:1821-1991 | what was written is read back, and reads elsewhere see the old bytes, zero-padded |
| Files.ApplyAttr | sqlfs.c:1761-1809 | the new size, time and reported attributes, before they are kept or undone |
| Files.AttrSetMtime | sqlfs.c:1777-1806 | a requested time is stored, clamped; a new size alone stores the current time; any other change keeps the time, each except for the lowest partial second |
| Files.SetAttr | sqlfs.c:1749-1819 | set_attr resizes like the flat file, sets the right time, reports the attributes that are now stored, and is all or nothing |
| Tree.ReferredIsLinked | sqlfs_schema.h:60-74 | a directory that any row refers to is part of the tree |
| Tree.LinkedIff | sqlfs_schema.h:17-24 | a directory has a positive link count if and only if it is part of the tree |
| Tree.NoCycle | sqlfs.h:336-339 | no directory is below itself |
| Tree.ClimbsMoved | sqlfs.c:759-762 | a new parent that is not below the moved directory keeps every path to the root |
| Tree.LoopNeverClimbs | sqlfs.h:336-339 | a new parent below the moved directory cuts everything below it off from the root |
| Operations.StatDirMissesUnlinked | sqlfs.c:1308-1320 | the test for unlinked directories lets every directory through |
| Operations.CreatedRows | sqlfs.c:1370-1412 | creation adds at most two rows, which are the only ones about the new inode, even if its number was used before |
| Operations.CreatedInodes | sqlfs.c:538-568 | the new inode has one link and the asked-for type, block size and time; of the others, only a parent directory gains a link |
| Operations.CreatedFiles | sqlfs.c:529-568 | a new file is empty whatever used its number before, and all other files keep their contents |
| Operations.CreatedLinks | sqlfs.c:1385-1403 | creation keeps link counts exact |
| Operations.CreatedLookups | sqlfs.c:1370-1412 | afterwards the new name and the new ".." lead where they should, and every other name leads where it did |
| Operations.CreateKeepsInvIff | sqlfs.c:1308-1412 | mkdir and mknod keep the filesystem consistent if and only if the parent has a positive link count |
| Operations.RemoveFacts | sqlfs.c:1442-1500 | a removal that is not refused had a regular name, and a removed directory was empty, with its parent link pointing back |
| Operations.DotsRefused | sqlfs.c:1442-1486 | "." and ".." are always refused, with which error in which case; the parent of a directory is the root, or has at least two rows |
| Operations.RemoveCheckHolds | sqlfs.c:1461-1468 | the check on the entry count never fails |
| Operations.RemovedLinks | sqlfs.c:1469-1498 | removal keeps link counts exact |
| Operations.RemovedInodes | sqlfs.c:1469-1498 | the removed inode loses a link, as does the parent of a removed directory, and no inode changes otherwise |
| Operations.RemovedInv | sqlfs.c:1435-1508 | removal keeps the filesystem consistent, and all file contents |
| Operations.RemovedLookups | sqlfs.c:1435-1508 | afterwards the name is gone, and no other name outside a removed directory is affected |
| Operations.MovedLinks | sqlfs.c:2059-2080 | moving keeps link counts exact |
| Operations.MovedNames | sqlfs.c:2059-2080 | names of directories and parent links still mirror each other one to one after a move |
| Operations.RenameKeepsInvIff | sqlfs.c:1993-2091 | rename keeps the filesystem consistent if and only if the new parent has a positive link count and nothing moves below itself, and then keeps all file contents |
| Operations.RenameRows | sqlfs.c:2028-2080 | apart from both names, only the parent links of the moved and of the displaced directory change |
| Operations.RenamedInodes | sqlfs.c:2051-2080 | of the inodes, a rename changes nothing but link counts |
| Operations.WalkFirst | sqlfs.c:671-695 | a path is walked name by name |
| Operations.WalkKept | sqlfs.c:2028-2080 | a walk from a directory sees only rows of directories at or below it |
| Operations.RenameKeepsSubtree | sqlfs.c:2028-2080 | every path from the moved inode leads where it did before |
| Operations.RenameKeepsPaths | sqlfs.c:2028-2080 | every path through the old name now works through the new name, and the old name leads nowhere |
| Operations.RenameUndone | sqlfs.c:1993-2091 | a rename to a free name is undone by the opposite rename, table for table |
| Operations.CreateUndone | sqlfs.c:1370-1642 | create, remove and purge together leave the tables exactly as they were |
| Operations.NobodyRefers | sqlfs.c:1622-1624 | an inode with link count zero has no entries and is in no directory |
| Operations.PurgedIs | sqlfs.c:1605-1642 | purge removes an unlinked inode with all of its blocks, and nothing else |
| Operations.PurgedInv | sqlfs.c:1605-1642 | purge keeps the filesystem consistent, and all other files |
| Operations.PurgedAllIsPurgedEach | sqlfs.h:252-254 | purge_all is the same as purging all inodes one by one, in any order and with any repetition |
| Operations.PurgedAllExact | sqlfs.c:1644-1664 | exactly the unlinked inodes and their blocks go, all else stays, and there is nothing left to purge |
| Outcomes.LookupIs | sqlfs.c:1330-1350 | what each name leads to: "" nowhere, "." to the directory, ".." to its parent, any other to its row |
| Outcomes.StatEntryOutcomeIs | sqlfs.c:1352-1368 | exactly when the attributes behind a name are found, and how it fails otherwise |
| Outcomes.CreateOutcomeIs | sqlfs.c:1370-1397 | creation succeeds if and only if the name is none of "", "." and "..", the directory exists, and it does not have the name; which error belongs to which other case |
| Outcomes.RemoveOutcomeIs | sqlfs.c:1435-1486 | unlink succeeds if and only if the entry exists and is no directory, rmdir if and only if it is an empty directory; which error belongs to which other case |
| Outcomes.RenameOutcomeIs | sqlfs.c:1993-2057 | rename succeeds if and only if the old name exists, and the new name is free, or names the same inode, or a file is replaced by a file, or an empty directory by a directory |
| Outcomes.RenameErrors | sqlfs.h:341-349 | which error belongs to which other case |
| Outcomes.DisplacedIs | sqlfs.h:332-334 | which inode a rename reports as unlinked |
| Outcomes.ReadOutcomeIs | sqlfs.h:301-306 | reading succeeds if and only if the inode is a regular file, and how it fails otherwise |
| Outcomes.WriteOutcomeIs | sqlfs.c:1866-1961 | writing succeeds if and only if the inode is a regular file and the write is not an empty one within a block |
| Outcomes.SetAttrOutcomeIs | sqlfs.c:1749-1803 | exactly when setting attributes succeeds, and how it fails otherwise |
| Outcomes.PurgeOutcomeIs | sqlfs.h:246-249 | purging fails if and only if the inode does not exist |
| Outcomes.StatIs | sqlfs.c:482-501 | what is reported about an inode is true: its link count is the number of entries that lead to it, plus "." for a directory; its size is the length of its contents |
| Outcomes.ReportedIs | sqlfs.h:274-275 | what set_attr reports is what stat() would report afterwards |
| Outcomes.DirectoryLinks | sqlfs_schema.h:17-24 | the reported link count of a directory is two more than the number of its subdirectories |
| Directories.StatDir | sqlfs.c:1308-1320 | result of the directory check, with all attributes of the directory |
| Directories.StatEntry | sqlfs.c:1352-1368 | attributes of the inode that a name, "." or ".." leads to |
| Directories.FindEntry | sqlfs.c:1330-1350 | the row that a name, "." or ".." leads to |
| Directories.Mkdir | sqlfs.c:1370-1412 | mkdir has the effect and result described by Operations, or fails without effect; it reports the new directory as stat() would, with the unclamped time |
| Directories.Mknod | sqlfs.c:1564-1599 | mknod, likewise |
| Directories.CheckRemove | sqlfs.c:1439-1486 | the order in which a removal is refused; its check is proved |
| Directories.RemoveRows | sqlfs.c:1469-1498 | the statements of a removal have its net effect |
| Directories.Remove | sqlfs.c:1435-1512 | rmdir and unlink, all or nothing, reporting the removed inode |
| Directories.VacatedReady | sqlfs.c:2051-2080 | once the new name is vacated, no statement of a rename can fail on its own account |
| Directories.MoveStatements | sqlfs.c:2059-2080 | the statements that move an entry have its net effect |
| Directories.CheckRename | sqlfs.c:2010-2032 | the order in which a rename is refused before it touches anything |
| Directories.RenameChecked | sqlfs.c:2032-2080 | what follows the first checks of a rename: nothing for two names of one inode, else removal and move |
| Directories.Rename | sqlfs.c:1993-2091 | rename, all or nothing, including the nested removal of the displaced entry, whose inode is reported |
| Directories.Purge | sqlfs.c:1605-1642 | purge, all or nothing |
| Directories.PurgeNext | sqlfs.c:1651-1657 | one round of purge_all makes progress toward the same result |
| Directories.PurgeAll | sqlfs.c:1644-1664 | purge_all, all or nothing, although each inode is purged in a savepoint of its own |
| Runs.InitialInv | sqlfs.c:449-480 | a new filesystem is consistent and has no files |
| Runs.StepKeeps | sqlfs.c:1370-2091 | every operation that succeeds keeps the filesystem consistent, and changes the files exactly as the same operation changes flat files |
| Runs.PurgeAllStep | sqlfs.c:1644-1664 | garbage collection removes just the unlinked files |
| Runs.EveryRun | sqlfs.c:1370-2091 | in every reachable state the tree, the link counts and the block layout are right, and the files have exactly the contents that the operations that succeeded so far give to flat files |
| Runs.ReachableStep | sqlfs.c:1370-2091 | an operation that succeeds in a reachable state leads to a reachable, consistent state |
| Limits.MkdirInRemovedDirectory | sqlfs.c:1298-1320 | a reachable state in which mkdir succeeds and breaks the tree |
| Limits.RenameIntoItself | sqlfs.h:336-339 | a reachable state in which a rename into a directory's own subtree succeeds and breaks the tree |
| Limits.RenameIntoRemovedDirectory | sqlfs.c:2019-2027 | a reachable state in which a rename into a removed directory succeeds and breaks the tree |
| Limits.EmptyWriteAborts | sqlfs.c:1895-1959 | a write of zero bytes at offset 1 of an empty file with block size 4096 fails a check |
| Limits.NegativeSizeAborts | sqlfs.c:1790-1797 | asking for size -1 of a regular file fails a check |
| Limits.EndOverflows | sqlfs.c:1861-1883 | a write that passes both range checks, and whose end does not fit in 64 bits |
| Limits.ResumeAfterRemovalAborts | sqlfuse.c:470-483 | two requests on one handle; the remembered entry is removed in between, and the second request fails a check |
| Lookups.BumpedCounts | intmap.c:92-108 | an update adds to one key, and never stores a zero |
| Lookups.CountsDetermine | intmap.c:41-69 | tables that give the same counts are the same |
| Lookups.Intmap.Update | intmap.c:92-108 | adds to a count and returns it, storing nonzero counts only |
| Lookups.Intmap.Size | intmap.c:110-117 | number of nonzero keys, which is zero if and only if all counts are |
| Lookups.Intmap.RetrieveOne | intmap.c:119-132 | finds some key unless there is none |
| Fuse.ForgetSafe | sqlfuse.c:108-124 | forgetting never removes an inode that the kernel still knows, and a successful purge leaves no garbage |
| Fuse.RemovedUnlinks | sqlfuse.c:338-358 | a removal takes the last link from at most the removed inode, so purging that one is enough |
| Fuse.RenamedUnlinks | sqlfuse.c:360-370 | a rename takes the last link from at most the displaced inode |
| Fuse.CreateSafe | sqlfuse.c:308-336 | a new inode starts without lookups, and is not garbage |
| Fuse.HandleKeeps | sqlfuse.c:234-400 | every request keeps counts positive and known inodes alive, even when a purge fails; when purges succeed, no garbage is left |
| Fuse.RootLinked | sqlfs_schema.h:17-24 | the root directory always has a positive link count |
| Fuse.JustMountedKeeps | main.c:100-103 | purging before mounting establishes both |
| Fuse.HandleCounts | sqlfuse.c:108-189 | each request changes the table of lookups by what its reply tells the kernel, and by what the kernel forgets |
| Fuse.LookupTells | sqlfuse.c:234-247 | a lookup tells the kernel the inode that the name leads to, and changes no table |
| Fuse.ForgetCollects | sqlfuse.c:108-120 | whatever the count was, if no lookup is left and the purge succeeds, the inode is not garbage; if some are left, no table changes |
| Fuse.ForgetOutcomeIs | sqlfuse.c:108-120 | while counts are right, forgetting fails only for inodes that do not exist, unless the medium fails |
| Fuse.EverySession | sqlfuse.c:108-400 | at any time in any session, the table of lookups equals a ledger of the replies that the kernel got and the lookups that it gave back |
| Fuse.HeldInodesExist | sqlfuse.c:108-400 | in terms of that ledger: what the kernel holds exists; unless a purge failed, what has no links exists only while the kernel holds it |
| Fuse.Init | sqlfuse.c:126-133 | the session starts with one lookup of the root |
| Fuse.DropLookups | sqlfuse.c:108-124 | forget, with its purge |
| Fuse.ReplyEntry | sqlfuse.c:176-189 | a lookup is counted if and only if the reply got through |
| Fuse.HandleLookup | sqlfuse.c:234-247 | lookup request as a step of the session, with the attributes in the reply; it fails if and only if the name leads nowhere |
| Fuse.HandleMkdir | sqlfuse.c:323-336 | mkdir request, likewise |
| Fuse.HandleMknod | sqlfuse.c:308-321 | mknod request, likewise |
| Fuse.HandleUnlink | sqlfuse.c:338-358 | unlink and rmdir requests; if only the purge fails, EIO is reported although the entry is gone |
| Fuse.HandleRename | sqlfuse.c:360-370 | rename request, with its result, likewise |
| Fuse.HandleForget | sqlfuse.c:249-259 | forget request as a step of the session; EIO means that the medium failed |
| Fuse.HandleWrite | sqlfuse.c:393-403 | write request as a step that leaves lookups alone |
| Fuse.HandleSetattr | sqlfuse.c:274-306 | setattr request, likewise |
| Fuse.DestroyStep | sqlfuse.c:142-147 | each round removes one key, and the inode if it has no links and its purge does not fail |
| Fuse.Destroy | sqlfuse.c:135-149 | unmounting terminates with no lookups left; of the inodes the kernel knew, exactly those without links are gone, except those whose purge failed, and nothing else has changed |
| Fuse.DestroyCollects | sqlfuse.c:135-149 | if no purge failed in a session, what remains is the same as after a complete garbage collection |
| Readdir.NamesInIs | sqlfs.c:194-203 | the names of a directory are those of its rows |
| Readdir.LessIs | sqlfs.c:194-206 | names are compared character by character |
| Readdir.SortedIncreasing | sqlfs.c:194-206 | ordering by name lists every name once, in strictly increasing order |
| Readdir.TailIsFrom | sqlfs.c:203-206 | what a scan has not delivered yet is what a new scan from the first undelivered name delivers |
| Readdir.StartAtIs | sqlfs.c:1514-1532 | a scan that is given a regular name begins at that name or the next one, and any other scan at the beginning |
| Readdir.ShownTells | sqlfs.c:1539-1543 | an entry is shown with the inode and type of its row, and the parent link as ".." |
| Readdir.DirOpen | sqlfs.c:1514-1532 | a scan starts at the given name, or at the beginning if the name is not a regular one |
| Readdir.DirNext | sqlfs.c:1534-1554 | delivers the next name, with the parent link as "..", until there is none |
| Readdir.ResumesAt | sqlfuse.c:459-465 | the name that is remembered resumes the scan where it stopped, also when it is ".." |
| Readdir.RowsNamesRegular | sqlfs_schema.h:66 | in a consistent filesystem, no stored name is "." or ".." |
| Readdir.FitIsMost | sqlfuse.c:457-466 | what counts as fitting: a number of entries is delivered if and only if their sizes add up to no more than the room |
| Readdir.FillBuffer | sqlfuse.c:443-468 | one scan delivers as many entries as fit, and remembers the next one |
| Readdir.ReplyIsFull | sqlfuse.c:457-466 | the entries of a reply fit in the buffer, and the next one, if any, would not have |
| Readdir.FirstReplyIs | sqlfuse.c:432-475 | the first request aborts if and only if "." does not fit, and fails if and only if the directory has no rows |
| Readdir.ReaddirRequest | sqlfuse.c:412-486 | one request delivers as much of what remains as fits, and the handle remembers the rest |
| Readdir.ListingShape | sqlfuse.c:432-467 | the listing is ".", "..", and then every row once with its own inode and type, in strictly increasing order of names |
| Readdir.ParentFirst | sqlfs_schema.h:63-64 | the empty name sorts first |
| Readdir.ChunkedListing | sqlfuse.c:412-486 | whatever the buffer sizes, the replies so far and what remains make up the one listing, and each reply makes progress |
| Readdir.ChunkedComplete | sqlfuse.c:412-486 | after enough requests the replies are exactly the listing, and further replies are empty |
| Readdir.Resumes | sqlfuse.c:443-468 | a request on a directory that may have changed delivers, in order, exactly the rows between where it resumes and what it remembers, with their inodes and types |
| Readdir.ChangingListing | sqlfuse.c:412-486 | however the directory changes between requests, the names delivered increase strictly, each comes with the inode and type its row had at the request that delivered it, and none that was always there is left out |
| Readdir.DeliveredOnce | sqlfuse.c:412-486 | a name that is there throughout an enumeration is delivered exactly once |
| Readdir.ResumeAbortsIff | sqlfuse.c:470-483 | a request that resumes aborts if and only if all names from the remembered one on are gone, or the next entry does not fit |

## Left out

- SQLite and SQLCipher: opening, keys, pragmas, write-ahead log, vacuum, rekey, migration; savepoints are a stack, a failed statement has no effect, and SQLite's own rollback of a whole transaction after some errors is not modelled.
- Statements that read are taken to succeed, as the source aborts on most of their failures; only the query of purge_all may fail midway.
- The choice of inode numbers: a new inode gets any positive number that is not in use.
- main.c, except that garbage is collected before mounting; libfuse, except whether a reply got through and how large a directory entry is.
- Permission bits, umask, uid, gid, st_blocks, access times, and the bits of a mode other than the file type.
- sqlfs_sync and durability; tracing, logging and failed memory allocation.
- The FUSE handlers for read, getattr, opendir, releasedir and fsync, which only pass arguments on.
- Integer widths of inode numbers, link counts and entry counts, which are unbounded here; lookup counts are assumed to be less than INT64_MAX, which intmap_update checks.
- Names are sequences of characters that compare like bytes; names with a slash or a zero byte are not excluded.
- sqlfs_dir_next treats every directory row as readable; sqlfuse_readdir's silent end of directory after a read error is not modelled.
- The loops of sqlfs_write, resize_filedata, sqlfuse_readdir and sqlfuse_destroy keep their structure, but one round of each is a method of its own.
- Write: requires that the end of the write, and the old size, each rounded up to a whole block fit in 64 bits, because the source checks offset and size only separately; beyond that its signed arithmetic overflows, which C leaves undefined (`Limits.EndOverflows` has an input).
- SetAttr: requires the same of a new size.
- HandleWrite: requires the same as Write, and HandleSetattr the same as SetAttr.
- Session: a failed CHECK() ends the process, so no step follows it.
