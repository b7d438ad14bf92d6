/** The operations on directories, statement by statement. Each runs in a savepoint, rolls back on any error, and
    otherwise has the net effect that Operations describes. */
module Directories {
  import opened Timestamps
  import opened Schema
  import opened Store
  import opened Tree
  import opened Operations

  method StatDir(fs: Sqlfs, ino: int) returns (err: Errno, stat: Stat)
    ensures err == StatDirOutcome(fs.State(), ino)
    ensures err == OK ==> IsDir(fs.State(), ino) && stat == FillStat(ino, fs.metadata[ino], fs.blocksize)
  {
    err, stat := fs.StatInode(ino);
    if err == OK {
      if stat.ftype != Directory {
        err := ENOTDIR;
      } else if stat.nlink == 0 {
        err := ENOENT;
      }
    }
  }

  method StatEntry(fs: Sqlfs, dir: int, name: Name) returns (err: Errno, stat: Stat)
    requires RowsOk(fs.State())
    ensures var found := Lookup(fs.State(), dir, name);
            err == StatEntryOutcome(fs.State(), dir, name) &&
            (err == OK ==> found.entry.ino in fs.metadata && stat == FillStat(found.entry.ino, fs.metadata[found.entry.ino], fs.blocksize))
  {
    match KindOf(name) {
      case NameDot => err, stat := fs.StatInode(dir);
      case NameDotDot => err, stat := fs.StatEntryRow(dir, "");
      case NameRegular => err, stat := fs.StatEntryRow(dir, name);
      case NameEmpty => err, stat := EINVAL, NO_STAT;
    }
  }

  method FindEntry(fs: Sqlfs, dir: int, name: Name) returns (err: Errno, entry: Entry)
    ensures Found(err, if err == OK then entry else Entry(NONE, Other)) == Lookup(fs.State(), dir, name)
  {
    match KindOf(name) {
      case NameDot => err, entry := OK, Entry(dir, Directory);
      case NameDotDot => err, entry := fs.LookupRow(dir, "");
      case NameRegular => err, entry := fs.LookupRow(dir, name);
      case NameEmpty => err, entry := EINVAL, Entry(NONE, Other);
    }
  }

  /** The statements of mkdir, which report the new directory as stat() would, but for the clamping of its time. If one fails, the tables are left as they happen to be. */
  method MkdirRows(fs: Sqlfs, dir: int, name: Name, now: Timespec) returns (err: Errno, stat: Stat)
    requires RowsOk(fs.State()) && StatDirOutcome(fs.State(), dir) == OK
    modifies fs`metadata, fs`direntries
    ensures if Row(dir, name) in old(fs.direntries) then err == EEXIST || (err == EIO && fs.mayFail)
            else err == OK || (err == EIO && fs.mayFail)
    ensures err == OK ==> stat.ino > 0 && stat.ino !in old(fs.metadata) && stat.ino in fs.metadata
    ensures err == OK ==> stat == FillStat(stat.ino, fs.metadata[stat.ino], fs.blocksize).(mtim := now)
    ensures err == OK ==> fs.State() == Created(old(fs.State()), dir, name, stat.ino, Directory, fs.blocksize, ToNanos(now))
  {
    stat := NO_STAT;
    NoRowsOfNewInode(fs.State());
    hide RowsOk;
    err := fs.UpdateNlink(dir, 1);
    if err != OK {
      return;
    }
    err, stat := fs.InsertMetadata(Directory, 1, now);
    if err != OK {
      return;
    }
    err := fs.InsertDirentry(dir, name, stat.ino, Directory);
    if err != OK {
      return;
    }
    err := fs.InsertDirentry(stat.ino, "", dir, Directory);
  }

  method Mkdir(fs: Sqlfs, dir: int, name: Name, now: Timespec) returns (err: Errno, stat: Stat)
    requires RowsOk(fs.State())
    modifies fs`metadata, fs`direntries, fs`filedata, fs`savepoints
    ensures fs.savepoints == old(fs.savepoints)
    ensures err == CreateOutcome(old(fs.State()), dir, name) || (err == EIO && fs.mayFail)
    ensures err == OK ==> stat.ino > 0 && stat.ino !in old(fs.metadata) && stat.ino in fs.metadata
    ensures err == OK ==> stat == FillStat(stat.ino, fs.metadata[stat.ino], fs.blocksize).(mtim := now)
    ensures fs.State() == if err == OK then Created(old(fs.State()), dir, name, stat.ino, Directory, fs.blocksize, ToNanos(now)) else old(fs.State())
  {
    hide RowsOk, KindOf, Created, StatDirOutcome, FillStat, ToNanos, IsDir;
    if KindOf(name) != NameRegular {
      return EINVAL, NO_STAT;
    }
    stat := NO_STAT;
    fs.Savepoint();
    var dirStat;
    err, dirStat := StatDir(fs, dir);
    if err == OK {
      err, stat := MkdirRows(fs, dir, name, now);
    }
    fs.Finish(err);
  }

  lemma NoRowsOfNewInode(t: Tables)
    requires RowsOk(t)
    ensures forall i :: i !in t.metadata ==> Up(i) !in t.direntries
  {
    assert forall i :: Up(i) in t.direntries ==> IsDir(t, Up(i).dir);
  }

  /** The mode has to be that of a regular file, with no more than permission bits. */
  method Mknod(fs: Sqlfs, dir: int, name: Name, plainFile: bool, now: Timespec) returns (err: Errno, stat: Stat)
    modifies fs`metadata, fs`direntries, fs`filedata, fs`savepoints
    ensures fs.savepoints == old(fs.savepoints)
    ensures err == (if !plainFile then EINVAL else CreateOutcome(old(fs.State()), dir, name)) || (err == EIO && fs.mayFail)
    ensures err == OK ==> stat.ino > 0 && stat.ino !in old(fs.metadata) && stat.ino in fs.metadata
    ensures err == OK ==> stat == FillStat(stat.ino, fs.metadata[stat.ino], fs.blocksize).(mtim := now)
    ensures fs.State() == if err == OK then Created(old(fs.State()), dir, name, stat.ino, Regular, fs.blocksize, ToNanos(now)) else old(fs.State())
  {
    hide KindOf, StatDirOutcome, ToNanos, FromNanos, IsDir;
    stat := NO_STAT;
    if KindOf(name) != NameRegular {
      return EINVAL, NO_STAT;
    }
    if !plainFile {
      return EINVAL, NO_STAT;
    }
    fs.Savepoint();
    var dirStat;
    err, dirStat := StatDir(fs, dir);
    if err == OK {
      err, stat := fs.InsertMetadata(Regular, 1, now);
    }
    if err == OK {
      err := fs.InsertDirentry(dir, name, stat.ino, Regular);
    }
    fs.Finish(err);
  }

  /** Whether an entry can be removed. The CHECK() on the entry count never fails. */
  method CheckRemove(fs: Sqlfs, dir: int, name: Name, isDir: bool) returns (err: Errno, child: int)
    requires TreeOk(fs.State())
    ensures err == RemoveOutcome(fs.State(), dir, name, isDir)
    ensures err == OK ==> child == Lookup(fs.State(), dir, name).entry.ino
  {
    var entry;
    err, entry := FindEntry(fs, dir, name);
    child := entry.ino;
    if err != OK {
      return;
    }
    if !isDir {
      // The type in the row stands for the type of the inode.
      err := if entry.ftype == Directory then EISDIR else OK;
      return;
    }
    if entry.ftype != Directory {
      return ENOTDIR, child;
    }
    if child == ROOT {
      return EBUSY, child;
    }
    if child == dir {
      return EINVAL, child;
    }
    var entryCount := fs.CountDirentries(child);
    if entryCount > 1 {
      return ENOTEMPTY, child;
    }
    RemoveCheckHolds(fs.State(), dir, name);
    assert entryCount == 1;
  }

  /** The statements of remove_impl. If one fails, the tables are left as they happen to be. */
  method RemoveRows(fs: Sqlfs, dir: int, name: Name, isDir: bool, child: int) returns (err: Errno)
    requires TreeOk(fs.State()) && RemoveOutcome(fs.State(), dir, name, isDir) == OK
    requires child == Lookup(fs.State(), dir, name).entry.ino
    modifies fs`metadata, fs`direntries
    ensures err == OK || (err == EIO && fs.mayFail)
    ensures err == OK ==> fs.State() == Removed(old(fs.State()), dir, name, isDir)
  {
    RemoveFacts(fs.State(), dir, name, isDir);
    hide TreeOk, RemoveOutcome, RowsOf;
    if isDir {
      err := fs.DeleteDirentries(child);
      if err != OK {
        return;
      }
      err := fs.UpdateNlink(dir, -1);
      if err != OK {
        return;
      }
    }
    err := fs.DeleteDirentry(dir, name);
    if err != OK {
      return;
    }
    err := fs.UpdateNlink(child, -1);
  }

  /** Unlinks a file or removes an empty directory. */
  method Remove(fs: Sqlfs, dir: int, name: Name, isDir: bool) returns (err: Errno, child: int)
    requires TreeOk(fs.State())
    modifies fs`metadata, fs`direntries, fs`filedata, fs`savepoints
    ensures fs.savepoints == old(fs.savepoints)
    ensures err == RemoveOutcome(old(fs.State()), dir, name, isDir) || (err == EIO && fs.mayFail)
    ensures fs.State() == if err == OK then Removed(old(fs.State()), dir, name, isDir) else old(fs.State())
    ensures err == OK ==> child == Lookup(old(fs.State()), dir, name).entry.ino
  {
    hide TreeOk, RemoveOutcome, Removed, Lookup;
    fs.Savepoint();
    err, child := CheckRemove(fs, dir, name, isDir);
    if err == OK {
      err := RemoveRows(fs, dir, name, isDir, child);
    }
    fs.Finish(err);
  }

  /** Why none of the statements of a rename can fail on its own account. */
  lemma VacatedReady(t: Tables, r: Row, q: Row)
    requires TreeOk(t) && r in t.direntries && r.name != "" && q.name != ""
    requires q in t.direntries ==> t.direntries[q].ino != t.direntries[r].ino
    requires q in t.direntries ==> RemoveOutcome(t, q.dir, q.name, t.direntries[r].ftype == Directory) == OK
    ensures var de1, m := Vacated(t, r, q).direntries, t.direntries[r].ino;
            && r in de1 && de1[r] == t.direntries[r] && q !in de1
            && (de1[r].ftype == Directory ==> Up(m) in de1 && de1[Up(m)].ftype == Directory)
    ensures Vacated(t, r, q).metadata.Keys == t.metadata.Keys
  {
    var de, isDir := t.direntries, t.direntries[r].ftype == Directory;
    assert NamesDir(de, r) <==> isDir;
    assert isDir ==> Up(de[r].ino) in de && de[Up(de[r].ino)].ftype == Directory;
    if q in de {
      RemoveFacts(t, q.dir, q.name, isDir);
      hide TreeOk, RemoveOutcome, KindOf, RowsOf;
      assert Vacated(t, r, q).direntries == RemovedRows(de, q, isDir);
    }
  }

  /** The statements of a rename. The displaced entry is removed in a nested savepoint. */
  method RenameStatements(fs: Sqlfs, r: Row, q: Row, m: int, isDir: bool) returns (err: Errno, oldIno: int)
    requires TreeOk(fs.State()) && r in fs.direntries && r.name != "" && q.name != "" && m == fs.direntries[r].ino
    requires q in fs.direntries ==> fs.direntries[q].ino != m
    requires r.dir in fs.metadata && q.dir in fs.metadata && (isDir <==> fs.direntries[r].ftype == Directory)
    modifies fs`metadata, fs`direntries, fs`filedata, fs`savepoints
    ensures fs.savepoints == old(fs.savepoints)
    ensures (err == if q in old(fs.direntries) then RemoveOutcome(old(fs.State()), q.dir, q.name, isDir) else OK)
            || (err == EIO && fs.mayFail)
    ensures err == OK ==> fs.State() == Moved(Vacated(old(fs.State()), r, q), r, q)
    ensures err == OK ==> oldIno == if q in old(fs.direntries) then Lookup(old(fs.State()), q.dir, q.name).entry.ino else NONE
  {
    oldIno := NONE;
    ghost var t := fs.State();
    hide TreeOk, RemoveOutcome, Lookup, Removed;
    if q in fs.direntries {
      // Undone by the enclosing savepoint, if a later statement fails.
      err, oldIno := Remove(fs, q.dir, q.name, isDir);
      if err != OK {
        return;
      }
    }
    assert fs.State() == Vacated(t, r, q);
    VacatedReady(t, r, q);
    err := MoveStatements(fs, r, q, m, isDir);
  }

  /** Moves an entry to a name that is free. */
  method MoveStatements(fs: Sqlfs, r: Row, q: Row, m: int, isDir: bool) returns (err: Errno)
    requires r in fs.direntries && q !in fs.direntries && m == fs.direntries[r].ino && r.name != "" && q.name != ""
    requires r.dir in fs.metadata && q.dir in fs.metadata && (isDir <==> fs.direntries[r].ftype == Directory)
    requires isDir ==> Up(m) in fs.direntries && fs.direntries[Up(m)].ftype == Directory
    modifies fs`metadata, fs`direntries
    ensures err == OK || (err == EIO && fs.mayFail)
    ensures err == OK ==> fs.State() == Moved(old(fs.State()), r, q)
  {
    err := fs.RenameRow(r.dir, r.name, q.dir, q.name);
    if err != OK {
      return;
    }
    if isDir && r.dir != q.dir {
      // A directory that moves counts as a link of its new parent.
      err := fs.ReparentDirectory(m, q.dir);
      if err != OK {
        return;
      }
      err := fs.UpdateNlink(r.dir, -1);
      if err != OK {
        return;
      }
      err := fs.UpdateNlink(q.dir, 1);
    }
  }

  method CheckRename(fs: Sqlfs, r: Row, q: Row) returns (err: Errno, entry: Stat)
    requires RowsOk(fs.State()) && KindOf(r.name) == NameRegular
    ensures err == RenameChecks(fs.State(), r, q)
    ensures err == OK ==> entry.ino == fs.direntries[r].ino && entry.ftype == fs.direntries[r].ftype
  {
    var parent;
    err, parent := fs.StatInode(r.dir);
    entry := parent;
    if err != OK {
      return;
    }
    if parent.ftype != Directory {
      return ENOTDIR, entry;
    }
    err, parent := fs.StatInode(q.dir);
    if err != OK {
      return;
    }
    if parent.ftype != Directory {
      return ENOTDIR, entry;
    }
    err, entry := StatEntry(fs, r.dir, r.name);
  }

  /** What a regular name leads to. */
  lemma RegularLookup(t: Tables, dir: int, name: Name)
    requires KindOf(name) == NameRegular
    ensures var found := Lookup(t, dir, name);
            && StatEntryOutcome(t, dir, name) == found.err && name != ""
            && found == if Row(dir, name) in t.direntries then Found(OK, t.direntries[Row(dir, name)]) else Found(ENOENT, Entry(NONE, Other))
  {
  }

  lemma CheckedRename(t: Tables, r: Row, q: Row)
    requires RenameChecks(t, r, q) == OK
    ensures r in t.direntries && r.dir in t.metadata && q.dir in t.metadata
  {
  }

  /** A rename that has passed its first checks, up to the point where it is kept or undone. */
  method RenameChecked(fs: Sqlfs, r: Row, q: Row, m: int, isDir: bool) returns (err: Errno, oldIno: int)
    requires TreeOk(fs.State()) && KindOf(r.name) == NameRegular && KindOf(q.name) == NameRegular
    requires RenameChecks(fs.State(), r, q) == OK && r in fs.direntries
    requires m == fs.direntries[r].ino && (isDir <==> fs.direntries[r].ftype == Directory)
    modifies fs`metadata, fs`direntries, fs`filedata, fs`savepoints
    ensures fs.savepoints == old(fs.savepoints)
    ensures err == RenameOutcome(old(fs.State()), r, q) || (err == EIO && fs.mayFail)
    ensures err == OK ==> fs.State() == Renamed(old(fs.State()), r, q) && oldIno == Displaced(old(fs.State()), r, q)
  {
    hide RowsOk, ParentsOk, NamesOk, ClimbsOk, KindOf, Lookup, StatEntryOutcome, RenameChecks, RemoveOutcome, Moved, Vacated, FromNanos;
    CheckedRename(fs.State(), r, q);
    RegularLookup(fs.State(), r.dir, r.name);
    RegularLookup(fs.State(), q.dir, q.name);
    oldIno := NONE;
    var target;
    err, target := StatEntry(fs, q.dir, q.name);
    if err == OK && m == target.ino {
      // The outcome and the new state are those of a rename that finds nothing to do.
    } else if err == OK || err == ENOENT {
      err, oldIno := RenameStatements(fs, r, q, m, isDir);
    }
  }

  /** An inode that the new name referred to before is returned, so that the caller can purge it. */
  method Rename(fs: Sqlfs, oldParent: int, oldName: Name, newParent: int, newName: Name) returns (err: Errno, oldIno: int)
    requires TreeOk(fs.State())
    modifies fs`metadata, fs`direntries, fs`filedata, fs`savepoints
    ensures fs.savepoints == old(fs.savepoints)
    ensures err == RenameOutcome(old(fs.State()), Row(oldParent, oldName), Row(newParent, newName)) || (err == EIO && fs.mayFail)
    ensures fs.State() == if err == OK then Renamed(old(fs.State()), Row(oldParent, oldName), Row(newParent, newName)) else old(fs.State())
    ensures err == OK ==> oldIno == Displaced(old(fs.State()), Row(oldParent, oldName), Row(newParent, newName))
  {
    oldIno := NONE;
    hide RowsOk, ParentsOk, NamesOk, ClimbsOk, KindOf, RenameOutcome, RenameChecks, Renamed, Displaced;
    RefusedRename(fs.State(), Row(oldParent, oldName), Row(newParent, newName));
    if KindOf(oldName) != NameRegular || KindOf(newName) != NameRegular {
      return EINVAL, NONE;
    }
    fs.Savepoint();
    var entry;
    err, entry := CheckRename(fs, Row(oldParent, oldName), Row(newParent, newName));
    if err == OK {
      CheckedRename(fs.State(), Row(oldParent, oldName), Row(newParent, newName));
      err, oldIno := RenameChecked(fs, Row(oldParent, oldName), Row(newParent, newName), entry.ino, entry.ftype == Directory);
    }
    fs.Finish(err);
  }

  lemma RefusedRename(t: Tables, r: Row, q: Row)
    ensures KindOf(r.name) != NameRegular || KindOf(q.name) != NameRegular ==> RenameOutcome(t, r, q) == EINVAL
    ensures KindOf(r.name) == NameRegular && KindOf(q.name) == NameRegular && RenameChecks(t, r, q) != OK ==>
              RenameOutcome(t, r, q) == RenameChecks(t, r, q)
  {
    hide KindOf, RenameChecks, RemoveOutcome;
  }

  method Purge(fs: Sqlfs, ino: int) returns (err: Errno)
    modifies fs`metadata, fs`direntries, fs`filedata, fs`savepoints
    ensures fs.savepoints == old(fs.savepoints)
    ensures err == PurgeOutcome(old(fs.State()), ino) || (err == EIO && fs.mayFail)
    ensures fs.State() == if err == OK then Purged(old(fs.State()), ino) else old(fs.State())
  {
    fs.Savepoint();
    var stat;
    err, stat := fs.StatInode(ino);
    if err == OK && stat.nlink <= DotLink(stat.ftype) {
      if stat.ftype != Directory {
        // Indices are never negative, so this deletes all blocks.
        err := fs.DeleteFiledata(ino, INT64_MIN as int);
      }
      if err == OK {
        err := fs.DeleteMetadata(ino);
      }
    }
    fs.Finish(err);
  }

  /** One step of the query for inodes with a link count of zero, which may fail midway, and the purge of its result. */
  method PurgeNext(fs: Sqlfs) returns (err: Errno)
    requires Inv(fs.State()) && Unlinked(fs.State()) != {}
    modifies fs`metadata, fs`direntries, fs`filedata, fs`savepoints
    ensures fs.savepoints == old(fs.savepoints)
    ensures err == OK || (err == EIO && fs.mayFail)
    ensures err == OK ==> Inv(fs.State()) && PurgedAll(fs.State()) == PurgedAll(old(fs.State()))
    ensures err == OK ==> Unlinked(fs.State()) < Unlinked(old(fs.State()))
  {
    var failed: bool := *;
    if fs.mayFail && failed {
      return EIO;
    }
    var unlinked := Unlinked(fs.State());
    UnlinkedExists(fs.State());
    var ino :| ino in unlinked;
    PurgeOne(fs.State(), ino);
    assert PurgeOutcome(fs.State(), ino) == OK;
    hide Inv, PurgedAll, Purged, Unlinked;
    err := Purge(fs, ino);
  }

  method PurgeUnlinked(fs: Sqlfs) returns (err: Errno)
    requires Inv(fs.State())
    modifies fs`metadata, fs`direntries, fs`filedata, fs`savepoints
    ensures fs.savepoints == old(fs.savepoints)
    ensures err == OK || (err == EIO && fs.mayFail)
    ensures err == OK ==> fs.State() == PurgedAll(old(fs.State()))
  {
    hide Inv, PurgedAll, Unlinked;
    ghost var all, stack := PurgedAll(fs.State()), fs.savepoints;
    var left := Unlinked(fs.State());
    err := OK;
    while left != {}
      invariant fs.savepoints == stack && err == OK
      invariant Inv(fs.State()) && PurgedAll(fs.State()) == all && left == Unlinked(fs.State())
      decreases left
    {
      err := PurgeNext(fs);
      if err != OK {
        return;
      }
      left := Unlinked(fs.State());
    }
    PurgedAllDone(fs.State());
  }

  method PurgeAll(fs: Sqlfs) returns (err: Errno)
    requires Inv(fs.State())
    modifies fs`metadata, fs`direntries, fs`filedata, fs`savepoints
    ensures fs.savepoints == old(fs.savepoints)
    ensures err == OK || (err == EIO && fs.mayFail)
    ensures fs.State() == if err == OK then PurgedAll(old(fs.State())) else old(fs.State())
  {
    hide Inv, PurgedAll;
    fs.Savepoint();
    err := PurgeUnlinked(fs);
    fs.Finish(err);
  }
}
