/** The database connection. Each sql_* helper of the source is one method. A statement that writes may fail
    at any time, and then has no effect. Statements that read are taken to succeed. */
module Store {
  import opened Timestamps
  import opened Schema

  /** What stat() reports. For a directory the link count includes its "." entry, which the table does not count. */
  datatype Stat = Stat(ino: int, ftype: FileType, nlink: int, size: int, blksize: int, mtim: Timespec)

  const NO_STAT := Stat(NONE, Other, 0, 0, 0, Timespec(0, 0))

  function DotLink(ftype: FileType): int { if ftype == Directory then 1 else 0 }

  function FillStat(ino: int, row: Inode, defaultBlocksize: int): Stat {
    Stat(ino, row.ftype, row.nlink + DotLink(row.ftype), row.size,
         if row.ftype == Directory then defaultBlocksize else row.blksize, FromNanos(row.mtime))
  }

  function AddLinks(md: Metadata, ino: int, delta: int): Metadata {
    if ino in md then md[ino := md[ino].(nlink := md[ino].nlink + delta)] else md
  }

  function RowsOf(de: Direntries, dir: int): set<Row> { set r | r in de && r.dir == dir }

  function BlocksFrom(fd: Filedata, ino: int, from: int): set<Blk> { set k | k in fd && k.ino == ino && k.idx >= from }

  lemma {:induction false} FreshInoExists(used: set<int>, lo: int)
    ensures exists i :: i >= lo && i !in used
    decreases |used|
  {
    if lo in used {
      FreshInoExists(used - {lo}, lo + 1);
      var i :| i >= lo + 1 && i !in used - {lo};
      assert i !in used;
    }
  }

  /** The rows of a directory that an ordered scan has not reached yet. */
  datatype Cursor = Cursor(dir: int, left: set<Name>)

  class Sqlfs {
    var metadata: Metadata
    var direntries: Direntries
    var filedata: Filedata
    /** The stack of open savepoints. All of them are named "tx", so a name always means the innermost one. */
    var savepoints: seq<Tables>
    var blocksize: int
    /** The one directory that can be open at a time. */
    var dirStmt: Option<Cursor>
    /** Whether the medium can refuse a write now: it is mounted read-only, or full, or broken. */
    var mayFail: bool

    function State(): Tables
      reads this
    {
      Tables(metadata, direntries, filedata)
    }

    method Savepoint()
      modifies this`savepoints
      ensures savepoints == old(savepoints) + [State()]
    {
      savepoints := savepoints + [State()];
    }

    method ReleaseSavepoint()
      requires savepoints != []
      modifies this`savepoints
      ensures savepoints == old(savepoints)[..|old(savepoints)| - 1]
    {
      savepoints := savepoints[..|savepoints| - 1];
    }

    /** Undoes all changes since the innermost savepoint, which stays open. */
    method RollbackToSavepoint()
      requires savepoints != []
      modifies this`metadata, this`direntries, this`filedata
      ensures State() == savepoints[|savepoints| - 1]
    {
      var t := savepoints[|savepoints| - 1];
      metadata, direntries, filedata := t.metadata, t.direntries, t.filedata;
    }

    /** How every operation ends: changes are discarded on error, and its savepoint is released. */
    method Finish(err: Errno)
      requires savepoints != []
      modifies this`metadata, this`direntries, this`filedata, this`savepoints
      ensures State() == if err == OK then old(State()) else old(savepoints)[|old(savepoints)| - 1]
      ensures savepoints == old(savepoints)[..|old(savepoints)| - 1]
    {
      if err != OK {
        RollbackToSavepoint();
      }
      ReleaseSavepoint();
    }

    /** A failed CHECK() ends the process, and the database undoes the outermost transaction. */
    method CheckFailed()
      modifies this`metadata, this`direntries, this`filedata, this`savepoints
      ensures State() == (old(savepoints) + [old(State())])[0] && savepoints == []
    {
      var t := (savepoints + [State()])[0];
      metadata, direntries, filedata, savepoints := t.metadata, t.direntries, t.filedata, [];
    }

    method StatInode(ino: int) returns (err: Errno, stat: Stat)
      ensures err == if ino in metadata then OK else ENOENT
      ensures err == OK ==> stat == FillStat(ino, metadata[ino], blocksize)
    {
      if ino in metadata {
        return OK, FillStat(ino, metadata[ino], blocksize);
      }
      return ENOENT, NO_STAT;
    }

    /** Joins metadata and direntries on the inode number. */
    method StatEntryRow(dir: int, name: Name) returns (err: Errno, stat: Stat)
      ensures var r := Row(dir, name);
              if r in direntries && direntries[r].ino in metadata
              then err == OK && stat == FillStat(direntries[r].ino, metadata[direntries[r].ino], blocksize)
              else err == ENOENT
    {
      if Row(dir, name) in direntries {
        err, stat := StatInode(direntries[Row(dir, name)].ino);
        return;
      }
      return ENOENT, NO_STAT;
    }

    method LookupRow(dir: int, name: Name) returns (err: Errno, entry: Entry)
      ensures err == if Row(dir, name) in direntries then OK else ENOENT
      ensures err == OK ==> entry == direntries[Row(dir, name)]
    {
      if Row(dir, name) in direntries {
        return OK, direntries[Row(dir, name)];
      }
      return ENOENT, Entry(NONE, Other);
    }

    method CountDirentries(dir: int) returns (n: nat)
      ensures n == |RowsOf(direntries, dir)|
    {
      n := |RowsOf(direntries, dir)|;
    }

    /** The database picks the inode number: any positive number that is not in use now, even if it was before. */
    method InsertMetadata(ftype: FileType, nlink: int, now: Timespec) returns (err: Errno, stat: Stat)
      modifies this`metadata
      ensures err == OK || (err == EIO && mayFail && metadata == old(metadata))
      ensures err == OK ==> stat.ino > 0 && stat.ino !in old(metadata)
      ensures err == OK ==> stat == Stat(stat.ino, ftype, nlink + DotLink(ftype), 0, blocksize, now)
      ensures err == OK ==> metadata == old(metadata)[stat.ino := Inode(ftype, nlink, 0, if ftype == Directory then 0 else blocksize, ToNanos(now))]
    {
      var refused: bool := *;
      if mayFail && refused {
        return EIO, NO_STAT;
      }
      FreshInoExists(metadata.Keys, 1);
      var ino :| ino >= 1 && ino !in metadata.Keys;
      metadata := metadata[ino := Inode(ftype, nlink, 0, if ftype == Directory then 0 else blocksize, ToNanos(now))];
      return OK, Stat(ino, ftype, nlink + DotLink(ftype), 0, blocksize, now);
    }

    method UpdateMetadata(stat: Stat) returns (err: Errno)
      modifies this`metadata
      ensures err == OK || metadata == old(metadata)
      ensures err == OK || (err == EIO && mayFail) || (err == ENOENT && stat.ino !in metadata)
      ensures err == OK ==> stat.ino in old(metadata) && metadata == old(metadata)[stat.ino := old(metadata)[stat.ino].(
                ftype := stat.ftype, mtime := ToNanos(stat.mtim), size := if stat.ftype == Directory then 0 else stat.size)]
    {
      var refused: bool := *;
      if mayFail && refused {
        return EIO;
      }
      if stat.ino !in metadata {
        return ENOENT;
      }
      metadata := metadata[stat.ino := metadata[stat.ino].(
        ftype := stat.ftype, mtime := ToNanos(stat.mtim), size := if stat.ftype == Directory then 0 else stat.size)];
      return OK;
    }

    method DeleteMetadata(ino: int) returns (err: Errno)
      modifies this`metadata
      ensures err == OK || (err == EIO && mayFail && metadata == old(metadata))
      ensures err == OK ==> metadata == old(metadata) - {ino}
    {
      var refused: bool := *;
      if mayFail && refused {
        return EIO;
      }
      metadata := metadata - {ino};
      return OK;
    }

    method UpdateNlink(ino: int, delta: int) returns (err: Errno)
      modifies this`metadata
      ensures err == OK || metadata == old(metadata)
      ensures err == OK || (err == EIO && mayFail) || (err == ENOENT && ino !in metadata)
      ensures err == OK ==> ino in old(metadata) && metadata == AddLinks(old(metadata), ino, delta)
    {
      var refused: bool := *;
      if mayFail && refused {
        return EIO;
      }
      if ino !in metadata {
        return ENOENT;
      }
      metadata := AddLinks(metadata, ino, delta);
      return OK;
    }

    method InsertDirentry(dir: int, name: Name, ino: int, ftype: FileType) returns (err: Errno)
      modifies this`direntries
      ensures err == OK || direntries == old(direntries)
      ensures err == OK || (err == EIO && mayFail) || (err == EEXIST && Row(dir, name) in direntries)
      ensures err == OK ==> Row(dir, name) !in old(direntries) && direntries == old(direntries)[Row(dir, name) := Entry(ino, ftype)]
    {
      var refused: bool := *;
      if mayFail && refused {
        return EIO;
      }
      if Row(dir, name) in direntries {
        return EEXIST;
      }
      direntries := direntries[Row(dir, name) := Entry(ino, ftype)];
      return OK;
    }

    method DeleteDirentry(dir: int, name: Name) returns (err: Errno)
      modifies this`direntries
      ensures err == OK || (err == EIO && mayFail && direntries == old(direntries))
      ensures err == OK ==> direntries == old(direntries) - {Row(dir, name)}
    {
      var refused: bool := *;
      if mayFail && refused {
        return EIO;
      }
      direntries := direntries - {Row(dir, name)};
      return OK;
    }

    method DeleteDirentries(dir: int) returns (err: Errno)
      modifies this`direntries
      ensures err == OK || (err == EIO && mayFail && direntries == old(direntries))
      ensures err == OK ==> direntries == old(direntries) - RowsOf(old(direntries), dir)
    {
      var refused: bool := *;
      if mayFail && refused {
        return EIO;
      }
      direntries := direntries - RowsOf(direntries, dir);
      return OK;
    }

    /** Fails, too, when the child has no link to a parent. */
    method ReparentDirectory(child: int, parent: int) returns (err: Errno)
      modifies this`direntries
      ensures err == OK || (err == EIO && direntries == old(direntries) && (mayFail || Row(child, "") !in direntries))
      ensures err == OK ==> Row(child, "") in old(direntries)
      ensures err == OK ==> direntries == old(direntries)[Row(child, "") := old(direntries)[Row(child, "")].(ino := parent)]
    {
      var refused: bool := *;
      if (mayFail && refused) || Row(child, "") !in direntries {
        return EIO;
      }
      direntries := direntries[Row(child, "") := direntries[Row(child, "")].(ino := parent)];
      return OK;
    }

    /** Fails, too, when the old row is missing or the new key is taken by another row. */
    method RenameRow(dir: int, name: Name, newDir: int, newName: Name) returns (err: Errno)
      modifies this`direntries
      ensures err == OK || (err == EIO && direntries == old(direntries))
      ensures err == EIO ==> mayFail || Row(dir, name) !in direntries || (Row(newDir, newName) in direntries && Row(newDir, newName) != Row(dir, name))
      ensures err == OK ==> Row(dir, name) in old(direntries)
      ensures err == OK ==> direntries == (old(direntries) - {Row(dir, name)})[Row(newDir, newName) := old(direntries)[Row(dir, name)]]
    {
      var refused: bool := *;
      var was, now := Row(dir, name), Row(newDir, newName);
      if (mayFail && refused) || was !in direntries || (now in direntries && now != was) {
        return EIO;
      }
      direntries := (direntries - {was})[now := direntries[was]];
      return OK;
    }

    method UpdateFiledata(ino: int, idx: int, data: seq<byte>) returns (err: Errno)
      modifies this`filedata
      ensures err == OK || (err == EIO && mayFail && filedata == old(filedata))
      ensures err == OK ==> filedata == old(filedata)[Blk(ino, idx) := data]
    {
      var refused: bool := *;
      if mayFail && refused {
        return EIO;
      }
      filedata := filedata[Blk(ino, idx) := data];
      return OK;
    }

    method DeleteFiledata(ino: int, from: int) returns (err: Errno)
      modifies this`filedata
      ensures err == OK || (err == EIO && mayFail && filedata == old(filedata))
      ensures err == OK ==> filedata == old(filedata) - BlocksFrom(old(filedata), ino, from)
    {
      var refused: bool := *;
      if mayFail && refused {
        return EIO;
      }
      filedata := filedata - BlocksFrom(filedata, ino, from);
      return OK;
    }
  }
}
