/** When operations succeed and how they fail, in terms of names, rows and inodes. */
module Outcomes {
  import opened Timestamps
  import opened Schema
  import opened Store
  import opened Blocks
  import opened Tree
  import opened Operations
  import opened Files

  // --- Names

  /** What a name leads to. */
  lemma LookupIs(t: Tables, dir: int, name: Name)
    ensures name == "" ==> Lookup(t, dir, name) == Found(EINVAL, Entry(NONE, Other))
    ensures name == "." ==> Lookup(t, dir, name) == Found(OK, Entry(dir, Directory))
    ensures name == ".." ==>
              Lookup(t, dir, name) == if Row(dir, "") in t.direntries then Found(OK, t.direntries[Row(dir, "")]) else Found(ENOENT, Entry(NONE, Other))
    ensures Plain(name) ==>
              Lookup(t, dir, name) == if Row(dir, name) in t.direntries then Found(OK, t.direntries[Row(dir, name)]) else Found(ENOENT, Entry(NONE, Other))
  {
    KindOfIs(name);
    hide KindOf;
  }

  lemma StatEntryOutcomeIs(t: Tables, dir: int, name: Name)
    ensures StatEntryOutcome(t, dir, name) == OK <==>
              || (name == "." && dir in t.metadata)
              || (name == ".." && Row(dir, "") in t.direntries)
              || (Plain(name) && Row(dir, name) in t.direntries)
    ensures StatEntryOutcome(t, dir, name) == EINVAL <==> name == ""
    ensures StatEntryOutcome(t, dir, name) in {OK, EINVAL, ENOENT}
  {
    KindOfIs(name);
    hide KindOf, Lookup;
    LookupIs(t, dir, name);
  }

  // --- Creating

  /** mkdir and mknod succeed for every name but three, in every directory that does not have it yet. */
  lemma CreateOutcomeIs(t: Tables, dir: int, name: Name)
    requires Inv(t)
    ensures CreateOutcome(t, dir, name) == OK <==> Plain(name) && IsDir(t, dir) && Row(dir, name) !in t.direntries
    ensures CreateOutcome(t, dir, name) == EINVAL <==> !Plain(name)
    ensures CreateOutcome(t, dir, name) == ENOENT <==> Plain(name) && dir !in t.metadata
    ensures CreateOutcome(t, dir, name) == ENOTDIR <==> Plain(name) && dir in t.metadata && !IsDir(t, dir)
    ensures CreateOutcome(t, dir, name) == EEXIST <==> Plain(name) && IsDir(t, dir) && Row(dir, name) in t.direntries
  {
    KindOfIs(name);
    if IsDir(t, dir) { StatDirMissesUnlinked(t, dir); }
    hide Inv, KindOf;
  }

  // --- Removing

  /** A directory is empty when it has no row but the link to its parent. */
  predicate Empty(de: Direntries, d: int) { forall r :: r in de && r.dir == d ==> r.name == "" }

  /** unlink succeeds for every entry that is not a directory, and rmdir for every one that is an empty directory. */
  lemma RemoveOutcomeIs(t: Tables, dir: int, name: Name, isDir: bool)
    requires TreeOk(t)
    ensures RemoveOutcome(t, dir, name, isDir) == OK <==>
              && Plain(name) && Row(dir, name) in t.direntries
              && var e := t.direntries[Row(dir, name)];
                 if isDir then e.ftype == Directory && Empty(t.direntries, e.ino) else e.ftype != Directory
    ensures name == "" ==> RemoveOutcome(t, dir, name, isDir) == EINVAL
    ensures Plain(name) && Row(dir, name) !in t.direntries ==> RemoveOutcome(t, dir, name, isDir) == ENOENT
    ensures Plain(name) && Row(dir, name) in t.direntries ==>
              var e := t.direntries[Row(dir, name)];
              && (!isDir && e.ftype == Directory ==> RemoveOutcome(t, dir, name, isDir) == EISDIR)
              && (isDir && e.ftype != Directory ==> RemoveOutcome(t, dir, name, isDir) == ENOTDIR)
              && (isDir && e.ftype == Directory && !Empty(t.direntries, e.ino) ==> RemoveOutcome(t, dir, name, isDir) == ENOTEMPTY)
  {
    hide RowsOk, ParentsOk, NamesOk, ClimbsOk, KindOf, Lookup, RowsOf;
    KindOfIs(name);
    LookupIs(t, dir, name);
    if name == "." || name == ".." {
      DotsRefused(t, dir, name, isDir);
    } else if Plain(name) && Row(dir, name) in t.direntries && t.direntries[Row(dir, name)].ftype == Directory {
      NamedDirectory(t, Row(dir, name));
      EmptyIs(t.direntries, t.direntries[Row(dir, name)].ino);
    }
  }

  /** An entry never names the root directory, or the directory that it is in. */
  lemma NamedDirectory(t: Tables, r: Row)
    requires TreeOk(t) && r in t.direntries && r.name != "" && t.direntries[r].ftype == Directory
    ensures t.direntries[r].ino != ROOT && t.direntries[r].ino != r.dir && Up(t.direntries[r].ino) in t.direntries
  {
    var m := t.direntries[r].ino;
    assert NamesDir(t.direntries, r);
    hide RowsOk, ParentsOk;
    ParentApart(t.direntries, r);
    WithinSelf(t.direntries, m);
  }

  lemma EmptyIs(de: Direntries, d: int)
    requires Up(d) in de
    ensures Empty(de, d) <==> |RowsOf(de, d)| <= 1
  {
    OneRow(de, d);
    hide RowsOf;
    if r :| r in de && r.dir == d && r.name != "" {
      assert r != Up(d) && |RowsOf(de, d)| >= 2;
    } else {
      OnlyUp(de, d);
    }
  }

  lemma OnlyUp(de: Direntries, d: int)
    requires Up(d) in de && Empty(de, d)
    ensures |RowsOf(de, d)| == 1
  {
    assert forall r :: r in RowsOf(de, d) ==> r == Up(d);
    assert RowsOf(de, d) == {Up(d)};
  }

  // --- Renaming

  /** The old and the new name are names that entries can have, in existing directories, and the old one exists. */
  predicate Renamable(t: Tables, r: Row, q: Row) {
    Plain(r.name) && Plain(q.name) && IsDir(t, r.dir) && IsDir(t, q.dir) && r in t.direntries
  }

  /** What an existing entry of the new name must be, if it is not another name of the same inode: a file is replaced by a
      file, and an empty directory by a directory. */
  predicate Replaceable(de: Direntries, moved: Entry, target: Entry) {
    (moved.ftype == Directory <==> target.ftype == Directory) && (target.ftype == Directory ==> Empty(de, target.ino))
  }

  /** Exactly when a rename succeeds. */
  lemma RenameOutcomeIs(t: Tables, r: Row, q: Row)
    requires TreeOk(t)
    ensures RenameOutcome(t, r, q) == OK <==>
              && Renamable(t, r, q)
              && (q in t.direntries && t.direntries[q].ino != t.direntries[r].ino ==> Replaceable(t.direntries, t.direntries[r], t.direntries[q]))
  {
    hide RowsOk, ParentsOk, NamesOk, ClimbsOk, KindOf, Empty, RemoveOutcome;
    KindOfIs(r.name);
    KindOfIs(q.name);
    if Renamable(t, r, q) { RemoveOutcomeIs(t, q.dir, q.name, t.direntries[r].ftype == Directory); }
  }

  /** How it fails otherwise. */
  lemma RenameErrors(t: Tables, r: Row, q: Row)
    requires TreeOk(t)
    ensures !Plain(r.name) || !Plain(q.name) ==> RenameOutcome(t, r, q) == EINVAL
    ensures Plain(r.name) && Plain(q.name) && !IsDir(t, r.dir) ==>
              RenameOutcome(t, r, q) == if r.dir in t.metadata then ENOTDIR else ENOENT
    ensures Plain(r.name) && Plain(q.name) && IsDir(t, r.dir) && !IsDir(t, q.dir) ==>
              RenameOutcome(t, r, q) == if q.dir in t.metadata then ENOTDIR else ENOENT
    ensures Plain(r.name) && Plain(q.name) && IsDir(t, r.dir) && IsDir(t, q.dir) && r !in t.direntries ==>
              RenameOutcome(t, r, q) == ENOENT
    ensures Renamable(t, r, q) && q in t.direntries && t.direntries[q].ino != t.direntries[r].ino ==>
              var moved, target := t.direntries[r], t.direntries[q];
              && (moved.ftype != Directory && target.ftype == Directory ==> RenameOutcome(t, r, q) == EISDIR)
              && (moved.ftype == Directory && target.ftype != Directory ==> RenameOutcome(t, r, q) == ENOTDIR)
              && (moved.ftype == Directory && target.ftype == Directory && !Empty(t.direntries, target.ino) ==>
                    RenameOutcome(t, r, q) == ENOTEMPTY)
  {
    hide RowsOk, ParentsOk, NamesOk, ClimbsOk, KindOf, Empty, RemoveOutcome;
    KindOfIs(r.name);
    KindOfIs(q.name);
    if Renamable(t, r, q) { RemoveOutcomeIs(t, q.dir, q.name, t.direntries[r].ftype == Directory); }
  }

  /** A rename reports the inode that the new name referred to before, unless that is the renamed one. */
  lemma DisplacedIs(t: Tables, r: Row, q: Row)
    requires Inv(t) && r in t.direntries
    ensures Displaced(t, r, q) != NONE <==> q in t.direntries && t.direntries[q].ino != t.direntries[r].ino
    ensures Displaced(t, r, q) != NONE ==> Displaced(t, r, q) == t.direntries[q].ino
  {
    hide LinksOk, FilesOk, ParentsOk, NamesOk, ClimbsOk;
  }

  // --- Files

  lemma ReadOutcomeIs(t: Tables, ino: int)
    ensures ReadOutcome(t, ino) == OK <==> IsFile(t, ino)
    ensures ReadOutcome(t, ino) == ENOENT <==> ino !in t.metadata
    ensures ReadOutcome(t, ino) == EISDIR <==> IsDir(t, ino)
    ensures ReadOutcome(t, ino) in {OK, ENOENT, EISDIR, EINVAL}
  {
  }

  /** A write to a regular file succeeds, unless it is empty and within a block. */
  lemma WriteOutcomeIs(t: Tables, ino: int, off: nat, size: nat)
    requires FilesOk(t)
    ensures WriteOutcome(t, ino, off, size) == OK <==> IsFile(t, ino) && (size == 0 ==> off % t.metadata[ino].blksize == 0)
    ensures WriteOutcome(t, ino, off, size) == ABORT <==> IsFile(t, ino) && size == 0 && off % t.metadata[ino].blksize != 0
    ensures !IsFile(t, ino) ==> WriteOutcome(t, ino, off, size) == ReadOutcome(t, ino)
  {
    hide Layout;
  }

  /** Attributes can be set on any inode, and the size of regular files, to anything that is not negative. */
  lemma SetAttrOutcomeIs(t: Tables, ino: int, toSet: set<Attr>, size: int)
    ensures SetAttrOutcome(t, ino, toSet, size) == OK <==>
              SetUnknown !in toSet && ino in t.metadata && (SetSize in toSet ==> IsFile(t, ino) && size >= 0)
    ensures SetAttrOutcome(t, ino, toSet, size) == ENOENT <==> SetUnknown !in toSet && ino !in t.metadata
    ensures SetAttrOutcome(t, ino, toSet, size) == EISDIR <==> SetUnknown !in toSet && SetSize in toSet && IsDir(t, ino)
    ensures SetAttrOutcome(t, ino, toSet, size) == ABORT <==> SetUnknown !in toSet && SetSize in toSet && IsFile(t, ino) && size < 0
    ensures SetUnknown in toSet ==> SetAttrOutcome(t, ino, toSet, size) == EINVAL
  {
  }

  lemma PurgeOutcomeIs(t: Tables, ino: int)
    ensures PurgeOutcome(t, ino) == OK <==> ino in t.metadata
    ensures PurgeOutcome(t, ino) == ENOENT <==> ino !in t.metadata
  {
  }

  // --- Attributes

  /** What stat() reports is true: the number of entries that lead to the inode, counting "." in a directory; the length of
      a file; and the stored time. */
  lemma StatIs(t: Tables, ino: int, defaultBlocksize: int)
    requires Inv(t) && ino in t.metadata
    ensures var f, s := t.metadata[ino], FillStat(ino, t.metadata[ino], defaultBlocksize);
            && s.ino == ino && s.ftype == f.ftype
            && s.nlink == |Refs(t.direntries, ino)| + (if IsDir(t, ino) then 1 else 0)
            && (IsFile(t, ino) ==> FileOk(t, ino) && s.size == |Contents(t, ino)| && s.blksize == f.blksize)
            && (IsDir(t, ino) ==> s.size == 0 && s.blksize == defaultBlocksize)
            && Normalised(s.mtim) && Instant(s.mtim) == f.mtime as int
  {
    hide TreeOk, Refs, Layout, FromNanos;
  }

  /** What set_attr reports is what stat() would report afterwards, but for the time, which is the one that is stored
      unless it still has to be clamped. */
  lemma ReportedIs(t: Tables, blocksize: int, ino: int, toSet: set<Attr>, attr: Stat)
    requires Inv(t) && Reported(t, blocksize, ino, toSet, attr)
    ensures ino in t.metadata && attr.ino == ino && attr.ftype == t.metadata[ino].ftype
    ensures attr.nlink == |Refs(t.direntries, ino)| + if IsDir(t, ino) then 1 else 0
    ensures IsFile(t, ino) ==> FileOk(t, ino) && attr.size == |Contents(t, ino)| && attr.blksize == t.metadata[ino].blksize
    ensures if toSet == {} then Instant(attr.mtim) == t.metadata[ino].mtime as int else ToNanos(attr.mtim) == t.metadata[ino].mtime
  {
    hide Inv, FillStat, Refs, FileOk, IsFile, IsDir, ToNanos;
    StatIs(t, ino, blocksize);
  }

  /** The rows in which subdirectories link to their parent d. */
  function Subdirectories(de: Direntries, d: int): set<Row> {
    set r | r in de && r.name == "" && r.dir != ROOT && de[r].ino == d
  }

  /** The link count of a directory is two more than the number of its subdirectories. */
  lemma DirectoryLinks(t: Tables, d: int, defaultBlocksize: int)
    requires Inv(t) && Up(d) in t.direntries
    ensures IsDir(t, d) && FillStat(d, t.metadata[d], defaultBlocksize).nlink == 2 + |Subdirectories(t.direntries, d)|
  {
    hide TreeOk, FilesOk, Refs, FromNanos, Subdirectories;
    LinkedRefs(t, d);
  }

  lemma LinkedRefs(t: Tables, d: int)
    requires TreeOk(t) && Up(d) in t.direntries
    ensures IsDir(t, d) && |Refs(t.direntries, d)| == 1 + |Subdirectories(t.direntries, d)|
  {
    hide RowsOk, ParentsOk, NamesOk, ClimbsOk, Refs, NamesDir;
    assert IsDir(t, d) by { UpRow(t, d); }
    var de := t.direntries;
    if d == ROOT {
      RootRefs(t);
      OneMore(Subdirectories(de, d), Up(ROOT));
    } else {
      var r := NameOf(de, d);
      NamedRefs(t, r);
      OneMore(Subdirectories(de, d), r);
    }
  }

  lemma UpRow(t: Tables, d: int)
    requires RowsOk(t) && Up(d) in t.direntries
    ensures IsDir(t, d)
  {
    assert IsDir(t, Up(d).dir);
  }

  lemma NameOf(de: Direntries, d: int) returns (r: Row)
    requires NamesOk(de) && Up(d) in de && d != ROOT
    ensures NamesDir(de, r) && r in de && r.name != "" && de[r].ino == d
  {
    r :| NamesDir(de, r) && de[r].ino == d;
  }

  lemma OneMore(rows: set<Row>, r: Row)
    requires r !in rows
    ensures |{r} + rows| == 1 + |rows|
  {
  }

  lemma RootRefs(t: Tables)
    requires TreeOk(t)
    ensures Refs(t.direntries, ROOT) == {Up(ROOT)} + Subdirectories(t.direntries, ROOT)
  {
    var de := t.direntries;
    forall x | x in de && de[x].ino == ROOT && x.name != "" ensures false {
      OnlyDirsAreRoot(t, x);
      NamedDirectory(t, x);
    }
    forall x: Row | x.name == "" && x.dir == ROOT ensures x == Up(ROOT) {}
    hide RowsOk, NamesOk, ClimbsOk;
  }

  lemma OnlyDirsAreRoot(t: Tables, x: Row)
    requires RowsOk(t) && ParentsOk(t.direntries) && x in t.direntries && t.direntries[x].ino == ROOT
    ensures t.direntries[x].ftype == Directory
  {
    assert IsDir(t, Up(ROOT).dir);
  }

  lemma NamedRefs(t: Tables, r: Row)
    requires TreeOk(t) && NamesDir(t.direntries, r)
    ensures Refs(t.direntries, t.direntries[r].ino) == {r} + Subdirectories(t.direntries, t.direntries[r].ino)
  {
    var de, d := t.direntries, t.direntries[r].ino;
    NamedDirectory(t, r);
    forall x | x in de && de[x].ino == d && x.name != "" ensures x == r {
      SameType(t, x, r);
      assert NamesDir(de, x);
    }
    forall x | x in de && de[x].ino == d && x.name == "" ensures x.dir != ROOT {
      assert x == Up(x.dir);
    }
    hide RowsOk, NamesOk, ClimbsOk;
  }

  lemma SameType(t: Tables, x: Row, r: Row)
    requires RowsOk(t) && x in t.direntries && r in t.direntries && t.direntries[x].ino == t.direntries[r].ino
    ensures t.direntries[x].ftype == t.direntries[r].ftype
  {
  }
}
