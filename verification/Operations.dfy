/** What each operation on directories does to the tables when it succeeds, when it is refused, and exactly when it
    keeps the filesystem consistent. */
module Operations {
  import opened Timestamps
  import opened Schema
  import opened Store
  import opened Blocks
  import opened Tree

  /** A consistent filesystem. */
  ghost predicate Inv(t: Tables) {
    TreeOk(t) && LinksOk(t) && FilesOk(t) && forall i :: i in t.metadata ==> i > 0
  }

  /** Same inodes, except for their link counts. */
  ghost predicate OnlyLinksDiffer(md: Metadata, md': Metadata) {
    md.Keys == md'.Keys && forall i :: i in md ==> md'[i] == md[i].(nlink := md'[i].nlink)
  }

  /** All files but one exist in both states, with the same contents. */
  ghost predicate SameFiles(t: Tables, t': Tables, but: int)
    requires FilesOk(t) && FilesOk(t')
  {
    forall i :: i != but ==> (IsFile(t, i) <==> IsFile(t', i)) && (IsFile(t, i) ==> Contents(t', i) == Contents(t, i))
  }

  lemma SameFilesTrans(t: Tables, t': Tables, t'': Tables, but: int)
    requires FilesOk(t) && FilesOk(t') && FilesOk(t'') && SameFiles(t, t', but) && SameFiles(t', t'', but)
    ensures SameFiles(t, t'', but)
  {
    hide FilesOk, FileOk, Contents;
  }

  lemma FilesKept(t: Tables, t': Tables, but: int)
    requires FilesOk(t) && OnlyLinksDiffer(t.metadata, t'.metadata) && t'.filedata == t.filedata
    ensures FilesOk(t') && SameFiles(t, t', but)
  {
    hide Layout, Bytes;
  }

  // --- Creating files and directories

  /** The directory check of mkdir and mknod. Its last test compares the link count that stat() reports with zero. */
  function StatDirOutcome(t: Tables, dir: int): Errno {
    if dir !in t.metadata then ENOENT
    else if t.metadata[dir].ftype != Directory then ENOTDIR
    else if t.metadata[dir].nlink + DotLink(Directory) == 0 then ENOENT
    else OK
  }

  function CreateOutcome(t: Tables, dir: int, name: Name): Errno {
    if KindOf(name) != NameRegular then EINVAL
    else if StatDirOutcome(t, dir) != OK then StatDirOutcome(t, dir)
    else if Row(dir, name) in t.direntries then EEXIST
    else OK
  }

  function Created(t: Tables, dir: int, name: Name, ino: int, ftype: FileType, blksize: int, mtime: int64): Tables {
    var node := Inode(ftype, 1, 0, if ftype == Directory then 0 else blksize, mtime);
    var named := t.direntries[Row(dir, name) := Entry(ino, ftype)];
    if ftype == Directory then
      Tables(AddLinks(t.metadata, dir, 1)[ino := node], named[Up(ino) := Entry(dir, Directory)], t.filedata)
    else
      Tables(t.metadata[ino := node], named, t.filedata)
  }

  ghost predicate CanCreate(t: Tables, dir: int, name: Name, ino: int, ftype: FileType, blksize: int) {
    && Inv(t) && CreateOutcome(t, dir, name) == OK
    && ino > 0 && ino !in t.metadata && ftype != Other && (ftype == Regular ==> blksize > 0)
  }

  /** The test for an unlinked directory never succeeds: stat() counts the "." entry that is always there. */
  lemma StatDirMissesUnlinked(t: Tables, dir: int)
    requires Inv(t) && IsDir(t, dir)
    ensures StatDirOutcome(t, dir) == OK
  {
    assert t.metadata[dir].nlink >= 0;
  }

  /** All old rows stay, none of them has to do with the new inode, and at most two rows are new. */
  lemma CreatedRows(t: Tables, dir: int, name: Name, ino: int, ftype: FileType, blksize: int, mtime: int64)
    requires CanCreate(t, dir, name, ino, ftype, blksize)
    ensures var de, de' := t.direntries, Created(t, dir, name, ino, ftype, blksize, mtime).direntries;
            && (forall r :: r in de ==> r in de' && de'[r] == de[r] && r.dir != ino && de[r].ino != ino)
            && (forall r :: r in de' && r !in de ==> r == Row(dir, name) || (ftype == Directory && r == Up(ino)))
            && Row(dir, name) in de' && de'[Row(dir, name)] == Entry(ino, ftype)
            && (Up(ino) in de' <==> ftype == Directory) && (ftype == Directory ==> de'[Up(ino)] == Entry(dir, Directory))
    ensures dir != ino && ino != ROOT && name != ""
  {
    hide LinksOk, FilesOk, NamesOk, ClimbsOk;
    assert IsDir(t, Up(ROOT).dir);
    hide KindOf;
  }

  lemma CreatedRowsOk(t: Tables, dir: int, name: Name, ino: int, ftype: FileType, blksize: int, mtime: int64)
    requires RowsOk(t) && IsDir(t, dir) && ino !in t.metadata && KindOf(name) == NameRegular
    ensures RowsOk(Created(t, dir, name, ino, ftype, blksize, mtime))
  {
    assert name != "";
    hide KindOf;
  }

  /** The new inode has one link, and the asked-for block size and time. Among the old ones, a parent directory gains the
      link from its new child, and nothing else changes. */
  lemma CreatedInodes(t: Tables, dir: int, name: Name, ino: int, ftype: FileType, blksize: int, mtime: int64)
    requires CanCreate(t, dir, name, ino, ftype, blksize)
    ensures var md, md' := t.metadata, Created(t, dir, name, ino, ftype, blksize, mtime).metadata;
            && md'.Keys == md.Keys + {ino} && md'[ino] == Inode(ftype, 1, 0, if ftype == Directory then 0 else blksize, mtime)
            && forall i :: i in md ==> md'[i] == md[i].(nlink := md[i].nlink + if i == dir && ftype == Directory then 1 else 0)
  {
    hide Inv, KindOf;
  }

  lemma CreatedNames(de: Direntries, de': Direntries, dir: int, name: Name, ino: int, ftype: FileType)
    requires ParentsOk(de) && NamesOk(de) && Up(dir) in de && name != "" && ino != dir && ino != ROOT
    requires forall r :: r in de ==> r in de' && de'[r] == de[r] && r.dir != ino && de[r].ino != ino
    requires forall r :: r in de' && r !in de ==> r == Row(dir, name) || (ftype == Directory && r == Up(ino))
    requires Row(dir, name) in de' && de'[Row(dir, name)] == Entry(ino, ftype) && Row(dir, name) !in de
    requires (Up(ino) in de' <==> ftype == Directory) && (ftype == Directory ==> de'[Up(ino)] == Entry(dir, Directory))
    ensures ParentsOk(de') && NamesOk(de')
  {
    forall d | Up(d) in de' && d != ROOT ensures exists r :: NamesDir(de', r) && de'[r].ino == d {
      if d == ino {
        assert NamesDir(de', Row(dir, name));
      } else {
        var r :| NamesDir(de, r) && de[r].ino == d;
        assert NamesDir(de', r);
      }
    }
    forall r | NamesDir(de', r) ensures de'[r].ino != ROOT && Up(de'[r].ino) in de' && de'[Up(de'[r].ino)].ino == r.dir {
      if r in de { assert NamesDir(de, r); }
    }
    forall r, q | NamesDir(de', r) && NamesDir(de', q) && de'[r].ino == de'[q].ino ensures r == q {
      if r in de { assert NamesDir(de, r); }
      if q in de { assert NamesDir(de, q); }
    }
  }

  lemma CreatedClimbs(de: Direntries, de': Direntries, dir: int, ino: int)
    requires ClimbsOk(de) && Up(dir) in de && ino != dir
    requires forall r :: r in de ==> r in de' && de'[r] == de[r] && r.dir != ino && de[r].ino != ino
    requires forall d :: Up(d) in de' ==> Up(d) in de || (d == ino && de'[Up(d)].ino == dir)
    ensures ClimbsOk(de')
  {
    forall d | Up(d) in de' ensures exists n: nat :: Climbs(de', d, n) {
      var c := if d == ino then dir else d;
      var n: nat :| Climbs(de, c, n);
      ClimbsLeaf(de, de', ino, c, n);
      assert d == ino ==> Climbs(de', d, n + 1);
    }
  }

  lemma CreatedTree(t: Tables, dir: int, name: Name, ino: int, ftype: FileType, blksize: int, mtime: int64)
    requires CanCreate(t, dir, name, ino, ftype, blksize) && Up(dir) in t.direntries
    ensures TreeOk(Created(t, dir, name, ino, ftype, blksize, mtime))
  {
    var t' := Created(t, dir, name, ino, ftype, blksize, mtime);
    hide LinksOk, FilesOk, RowsOk, ParentsOk, NamesOk, ClimbsOk, Created, CreateOutcome;
    CreatedRows(t, dir, name, ino, ftype, blksize, mtime);
    CreatableDir(t, dir, name);
    CreatedRowsOk(t, dir, name, ino, ftype, blksize, mtime);
    CreatedNames(t.direntries, t'.direntries, dir, name, ino, ftype);
    CreatedClimbs(t.direntries, t'.direntries, dir, ino);
  }

  lemma CreatedLinks(t: Tables, dir: int, name: Name, ino: int, ftype: FileType, blksize: int, mtime: int64)
    requires CanCreate(t, dir, name, ino, ftype, blksize)
    ensures LinksOk(Created(t, dir, name, ino, ftype, blksize, mtime))
  {
    var t' := Created(t, dir, name, ino, ftype, blksize, mtime);
    var de := t.direntries;
    forall i | i in t'.metadata ensures t'.metadata[i].nlink == |Refs(t'.direntries, i)| {
      var e := Entry(ino, ftype);
      RefsInsert(de, Row(dir, name), e, i);
      if ftype == Directory {
        assert Up(ino) !in de;
        RefsInsert(de[Row(dir, name) := e], Up(ino), Entry(dir, Directory), i);
      }
      if i == ino { assert Refs(de, ino) == {}; }
    }
  }

  /** A new inode has no contents, whatever used the same number before it. */
  lemma CreatedFiles(t: Tables, dir: int, name: Name, ino: int, ftype: FileType, blksize: int, mtime: int64)
    requires FilesOk(t) && dir in t.metadata && ino !in t.metadata && (ftype == Regular ==> blksize > 0)
    ensures var t' := Created(t, dir, name, ino, ftype, blksize, mtime);
            && t'.metadata.Keys == t.metadata.Keys + {ino} && FilesOk(t') && SameFiles(t, t', ino)
            && (if ftype == Regular then IsFile(t', ino) && Contents(t', ino) == [] else !IsFile(t', ino))
  {
    var t' := Created(t, dir, name, ino, ftype, blksize, mtime);
    var md := if ftype == Directory then AddLinks(t.metadata, dir, 1) else t.metadata;
    hide FilesOk, SameFiles, Contents;
    FilesKept(t, t.(metadata := md), ino);
    FilesAdded(t.(metadata := md), t', ino, Inode(ftype, 1, 0, if ftype == Directory then 0 else blksize, mtime));
    SameFilesTrans(t, t.(metadata := md), t', ino);
  }

  lemma FilesAdded(t: Tables, t': Tables, ino: int, node: Inode)
    requires FilesOk(t) && ino !in t.metadata && t'.metadata == t.metadata[ino := node] && t'.filedata == t.filedata
    requires node.size == 0 && (node.ftype == Regular ==> node.blksize > 0)
    ensures FilesOk(t') && SameFiles(t, t', ino) && (node.ftype == Regular ==> IsFile(t', ino) && Contents(t', ino) == [])
  {
    if node.ftype == Regular { NoBlocks(t, ino, node.blksize); }
    hide Layout, Bytes;
  }

  lemma NoBlocks(t: Tables, ino: int, b: int)
    requires FilesOk(t) && ino !in t.metadata && 0 < b
    ensures Layout(t.filedata, ino, 0, b) && Bytes(t.filedata, ino, 0, b) == []
  {
    forall i ensures Blk(ino, i) !in t.filedata {
      assert Blk(ino, i).ino == ino;
    }
    hide FilesOk;
    assert Represents(t.filedata, ino, b, []);
    BytesUnique(t.filedata, ino, b, []);
  }

  lemma CreatedInv(t: Tables, dir: int, name: Name, ino: int, ftype: FileType, blksize: int, mtime: int64)
    requires CanCreate(t, dir, name, ino, ftype, blksize) && Up(dir) in t.direntries
    ensures Inv(Created(t, dir, name, ino, ftype, blksize, mtime))
  {
    hide TreeOk, LinksOk, FilesOk, SameFiles, Created, CreateOutcome;
    CreatedTree(t, dir, name, ino, ftype, blksize, mtime);
    CreatedLinks(t, dir, name, ino, ftype, blksize, mtime);
    assert dir in t.metadata by { CreatableDir(t, dir, name); }
    CreatedFiles(t, dir, name, ino, ftype, blksize, mtime);
  }

  lemma CreatableDir(t: Tables, dir: int, name: Name)
    requires CreateOutcome(t, dir, name) == OK
    ensures IsDir(t, dir) && Row(dir, name) !in t.direntries && KindOf(name) == NameRegular && name != ""
  {
  }

  /** mkdir and mknod in a directory that has been removed, but is still held open, are let through. They keep the
      filesystem consistent exactly when the caller names a directory that is still linked. */
  lemma CreateKeepsInvIff(t: Tables, dir: int, name: Name, ino: int, ftype: FileType, blksize: int, mtime: int64)
    requires CanCreate(t, dir, name, ino, ftype, blksize)
    ensures Inv(Created(t, dir, name, ino, ftype, blksize, mtime)) <==> t.metadata[dir].nlink > 0
  {
    var t' := Created(t, dir, name, ino, ftype, blksize, mtime);
    LinkedIff(t, dir);
    if t.metadata[dir].nlink > 0 {
      CreatedInv(t, dir, name, ino, ftype, blksize, mtime);
    } else {
      CreatedRows(t, dir, name, ino, ftype, blksize, mtime);
      hide LinksOk, FilesOk, RowsOk, NamesOk, ClimbsOk, Created;
      assert Row(dir, name) in t'.direntries && Up(dir) !in t'.direntries;
    }
  }

  // --- Removing files and empty directories

  datatype Found = Found(err: Errno, entry: Entry)

  /** A directory contains itself as "." and its parent, which the table calls "", as "..". */
  function Lookup(t: Tables, dir: int, name: Name): Found {
    var row := Row(dir, if KindOf(name) == NameDotDot then "" else name);
    if KindOf(name) == NameDot then Found(OK, Entry(dir, Directory))
    else if KindOf(name) == NameEmpty then Found(EINVAL, Entry(NONE, Other))
    else if row in t.direntries then Found(OK, t.direntries[row])
    else Found(ENOENT, Entry(NONE, Other))
  }

  function StatEntryOutcome(t: Tables, dir: int, name: Name): Errno {
    if KindOf(name) == NameDot then (if dir in t.metadata then OK else ENOENT) else Lookup(t, dir, name).err
  }

  function RemoveOutcome(t: Tables, dir: int, name: Name, isDir: bool): Errno {
    var found := Lookup(t, dir, name);
    if found.err != OK then found.err
    else if !isDir then (if found.entry.ftype == Directory then EISDIR else OK)
    else if found.entry.ftype != Directory then ENOTDIR
    else if found.entry.ino == ROOT then EBUSY
    else if found.entry.ino == dir then EINVAL
    else if |RowsOf(t.direntries, found.entry.ino)| > 1 then ENOTEMPTY
    else OK
  }

  function RemovedRows(de: Direntries, r: Row, isDir: bool): Direntries {
    if r in de && isDir then de - {Up(de[r].ino)} - {r} else de - {r}
  }

  function Removed(t: Tables, dir: int, name: Name, isDir: bool): Tables {
    var r := Row(dir, name);
    var md := if isDir then AddLinks(t.metadata, dir, -1) else t.metadata;
    Tables(if r in t.direntries then AddLinks(md, t.direntries[r].ino, -1) else md, RemovedRows(t.direntries, r, isDir), t.filedata)
  }

  /** Nothing but the parent link is left in a directory that counts one row. */
  lemma OneRow(de: Direntries, d: int)
    requires Up(d) in de
    ensures |RowsOf(de, d)| >= 1
    ensures |RowsOf(de, d)| == 1 ==> RowsOf(de, d) == {Up(d)}
    ensures forall r :: r in de && r.dir == d && r != Up(d) ==> |RowsOf(de, d)| >= 2
  {
    var rows := RowsOf(de, d);
    assert Up(d) in rows;
    assert |rows - {Up(d)}| == |rows| - 1;
    forall r | r in de && r.dir == d && r != Up(d) ensures |rows| >= 2 {
      assert r in rows - {Up(d)};
    }
  }

  /** What the caller may rely on when a removal is not refused. In particular, it had a regular name: "." is the
      directory itself, and the directory that ".." leads to is root or has at least two rows. */
  lemma RemoveFacts(t: Tables, dir: int, name: Name, isDir: bool)
    requires TreeOk(t) && RemoveOutcome(t, dir, name, isDir) == OK
    ensures KindOf(name) == NameRegular && name != "" && Row(dir, name) in t.direntries && Up(dir) in t.direntries
    ensures Lookup(t, dir, name) == Found(OK, t.direntries[Row(dir, name)])
    ensures var e := t.direntries[Row(dir, name)];
            && IsDir(t, dir) && e.ino in t.metadata && (e.ftype == Directory <==> isDir)
            && (isDir ==> e.ino != ROOT && e.ino != dir && RowsOf(t.direntries, e.ino) == {Up(e.ino)})
            && (isDir ==> Up(e.ino) in t.direntries && t.direntries[Up(e.ino)].ino == dir)
  {
    var de := t.direntries;
    if KindOf(name) == NameDotDot {
      DotsRefused(t, dir, name, isDir);
    }
    var r := Row(dir, name);
    if isDir {
      assert NamesDir(de, r);
      OneRow(de, de[r].ino);
    }
  }

  /** No directory can be removed by one of the names that it does not store. The parent of a directory is root or
      has at least two rows. */
  lemma DotsRefused(t: Tables, dir: int, name: Name, isDir: bool)
    requires KindOf(name) == NameDot || (KindOf(name) == NameDotDot && TreeOk(t))
    ensures RemoveOutcome(t, dir, name, isDir) ==
              if KindOf(name) == NameDot then (if !isDir then EISDIR else if dir == ROOT then EBUSY else EINVAL)
              else if !IsDir(t, dir) || Up(dir) !in t.direntries then ENOENT
              else if !isDir then EISDIR
              else if t.direntries[Up(dir)].ino == ROOT then EBUSY
              else ENOTEMPTY
  {
    var de := t.direntries;
    if KindOf(name) == NameDotDot && Up(dir) in de && dir != ROOT {
      var q :| NamesDir(de, q) && de[q].ino == dir;
      var p := de[Up(dir)].ino;
      assert q.dir == p;
      OneRow(de, p);
      if p == dir {
        var n: nat :| Climbs(de, dir, n);
        WithinSelf(de, dir);
        NoCycle(de, dir, dir, 0, n);
      }
    }
  }

  /** The CHECK() on the number of entries of a directory that is about to be removed. */
  lemma RemoveCheckHolds(t: Tables, dir: int, name: Name)
    requires TreeOk(t) && Lookup(t, dir, name).err == OK
    requires var e := Lookup(t, dir, name).entry; e.ftype == Directory && e.ino != ROOT && e.ino != dir
    ensures |RowsOf(t.direntries, Lookup(t, dir, name).entry.ino)| >= 1
  {
    var r := Row(dir, if KindOf(name) == NameDotDot then "" else name);
    ReferredIsLinked(t, r);
    OneRow(t.direntries, t.direntries[r].ino);
  }

  lemma RemovedParents(de: Direntries, r: Row, isDir: bool)
    requires ParentsOk(de) && r in de && r.name != ""
    requires isDir ==> de[r].ino != ROOT && RowsOf(de, de[r].ino) == {Up(de[r].ino)}
    ensures ParentsOk(RemovedRows(de, r, isDir))
  {
    var de' := RemovedRows(de, r, isDir);
    assert isDir ==> forall x :: x in de && x.dir == de[r].ino ==> x in RowsOf(de, de[r].ino);
    hide RowsOf;
    assert forall x :: x in de' ==> Up(x.dir) in de';
  }

  lemma RemovedNames(de: Direntries, r: Row, isDir: bool)
    requires NamesOk(de) && r in de && r.name != "" && (de[r].ftype == Directory <==> isDir)
    ensures NamesOk(RemovedRows(de, r, isDir))
  {
    var de' := RemovedRows(de, r, isDir);
    assert isDir ==> NamesDir(de, r);
    assert forall x :: NamesDir(de', x) ==> NamesDir(de, x) && de'[x] == de[x] && x != r;
    forall d | Up(d) in de' && d != ROOT ensures exists x :: NamesDir(de', x) && de'[x].ino == d {
      var x :| NamesDir(de, x) && de[x].ino == d;
      assert NamesDir(de', x);
    }
  }

  lemma NobodysParent(de: Direntries, x: int)
    requires NamesOk(de) && ParentsOk(de) && x != ROOT && RowsOf(de, x) == {Up(x)}
    ensures forall c :: c != x && Up(c) in de ==> de[Up(c)].ino != x
  {
    assert forall q :: q in de && q.dir == x ==> q in RowsOf(de, x);
    forall c | c != x && Up(c) in de ensures de[Up(c)].ino != x {
      if c != ROOT {
        var q :| NamesDir(de, q) && de[q].ino == c;
      }
    }
  }

  lemma RemovedClimbs(de: Direntries, r: Row, isDir: bool)
    requires ParentsOk(de) && NamesOk(de) && ClimbsOk(de) && r in de && r.name != ""
    requires isDir ==> de[r].ino != ROOT && RowsOf(de, de[r].ino) == {Up(de[r].ino)}
    ensures ClimbsOk(RemovedRows(de, r, isDir))
  {
    var de' := RemovedRows(de, r, isDir);
    var x := if isDir then de[r].ino else NONE;
    if isDir { NobodysParent(de, x); }
    forall d | Up(d) in de' ensures exists n: nat :: Climbs(de', d, n) {
      var n: nat :| Climbs(de, d, n);
      if isDir {
        ClimbsLeaf(de, de', x, d, n);
      } else {
        ClimbsSame(de, de', d, n);
      }
    }
  }

  lemma RemovedLinks(t: Tables, dir: int, name: Name, isDir: bool)
    requires TreeOk(t) && LinksOk(t) && RemoveOutcome(t, dir, name, isDir) == OK
    ensures dir in t.metadata && Row(dir, name) in t.direntries && t.direntries[Row(dir, name)].ino in t.metadata
    ensures LinksOk(Removed(t, dir, name, isDir))
  {
    hide TreeOk, LinksOk, RemoveOutcome, RowsOf, Removed;
    RemoveFacts(t, dir, name, isDir);
    LessLinks(t, dir, name, isDir);
  }

  lemma RemovedRefs(de: Direntries, r: Row, isDir: bool, i: int)
    requires r in de && r.name != "" && (isDir ==> Up(de[r].ino) in de)
    ensures |Refs(RemovedRows(de, r, isDir), i)| == |Refs(de, i)| -
              (if de[r].ino == i then 1 else 0) - (if isDir && de[Up(de[r].ino)].ino == i then 1 else 0)
  {
    hide Refs;
    if isDir {
      RefsDelete(de, Up(de[r].ino), i);
      RefsDelete(de - {Up(de[r].ino)}, r, i);
    } else {
      RefsDelete(de, r, i);
    }
  }

  lemma LessLinks(t: Tables, dir: int, name: Name, isDir: bool)
    requires LinksOk(t) && dir in t.metadata && Row(dir, name) in t.direntries && name != ""
    requires var c := t.direntries[Row(dir, name)].ino;
             c in t.metadata && (isDir ==> Up(c) in t.direntries && t.direntries[Up(c)].ino == dir)
    ensures LinksOk(Removed(t, dir, name, isDir))
  {
    hide Refs, RemovedRows;
    var t' := Removed(t, dir, name, isDir);
    forall i | i in t'.metadata ensures t'.metadata[i].nlink == |Refs(t'.direntries, i)| {
      RemovedRefs(t.direntries, Row(dir, name), isDir, i);
    }
  }

  lemma RemovedRowsOk(t: Tables, dir: int, name: Name, isDir: bool)
    requires RowsOk(t) && dir in t.metadata && Row(dir, name) in t.direntries && t.direntries[Row(dir, name)].ino in t.metadata
    ensures RowsOk(Removed(t, dir, name, isDir))
    ensures OnlyLinksDiffer(t.metadata, Removed(t, dir, name, isDir).metadata)
  {
    OnlyLinksRemoved(t, dir, name, isDir);
    hide KindOf, AddLinks;
  }

  /** The removed inode loses one link, as does the parent of a removed directory, and nothing else changes. */
  lemma RemovedInodes(t: Tables, dir: int, name: Name, isDir: bool)
    requires TreeOk(t) && RemoveOutcome(t, dir, name, isDir) == OK
    ensures Row(dir, name) in t.direntries
    ensures var md, md', c := t.metadata, Removed(t, dir, name, isDir).metadata, t.direntries[Row(dir, name)].ino;
            && md'.Keys == md.Keys
            && forall i :: i in md ==>
                 md'[i] == md[i].(nlink := md[i].nlink - (if i == c then 1 else 0) - if isDir && i == dir then 1 else 0)
  {
    hide RowsOk, ParentsOk, NamesOk, ClimbsOk, RemoveOutcome, RemovedRows, RowsOf, KindOf, Lookup;
    RemoveFacts(t, dir, name, isDir);
  }

  lemma OnlyLinksRemoved(t: Tables, dir: int, name: Name, isDir: bool)
    requires dir in t.metadata && Row(dir, name) in t.direntries && t.direntries[Row(dir, name)].ino in t.metadata
    ensures OnlyLinksDiffer(t.metadata, Removed(t, dir, name, isDir).metadata)
  {
    hide RemovedRows;
  }

  lemma RemovedTree(t: Tables, dir: int, name: Name, isDir: bool)
    requires TreeOk(t) && RemoveOutcome(t, dir, name, isDir) == OK
    ensures TreeOk(Removed(t, dir, name, isDir))
  {
    hide RowsOk, ParentsOk, NamesOk, ClimbsOk, RemoveOutcome, RowsOf, KindOf, RemovedRows, AddLinks;
    RemoveFacts(t, dir, name, isDir);
    RemovedRowsOk(t, dir, name, isDir);
    RemovedParents(t.direntries, Row(dir, name), isDir);
    RemovedNames(t.direntries, Row(dir, name), isDir);
    RemovedClimbs(t.direntries, Row(dir, name), isDir);
  }

  lemma RemovedInv(t: Tables, dir: int, name: Name, isDir: bool)
    requires Inv(t) && RemoveOutcome(t, dir, name, isDir) == OK
    ensures dir in t.metadata && Row(dir, name) in t.direntries && t.direntries[Row(dir, name)].ino in t.metadata
    ensures Inv(Removed(t, dir, name, isDir)) && SameFiles(t, Removed(t, dir, name, isDir), NONE)
  {
    hide TreeOk, LinksOk, FilesOk, SameFiles, RemoveOutcome, Removed;
    RemovedLinks(t, dir, name, isDir);
    RemovedTree(t, dir, name, isDir);
    RemovedFiles(t, dir, name, isDir);
  }

  lemma RemovedFiles(t: Tables, dir: int, name: Name, isDir: bool)
    requires TreeOk(t) && FilesOk(t) && dir in t.metadata && Row(dir, name) in t.direntries && t.direntries[Row(dir, name)].ino in t.metadata
    ensures FilesOk(Removed(t, dir, name, isDir)) && SameFiles(t, Removed(t, dir, name, isDir), NONE)
    ensures Removed(t, dir, name, isDir).metadata.Keys == t.metadata.Keys
  {
    hide FilesOk, SameFiles, RowsOk, ParentsOk, NamesOk, ClimbsOk, RemovedRows;
    RemovedRowsOk(t, dir, name, isDir);
    FilesKept(t, Removed(t, dir, name, isDir), NONE);
  }

  // --- Renaming

  /** Moves the entry at row r to row q, which is free, and gives a moved directory its new parent. */
  function MovedRows(de: Direntries, r: Row, q: Row): Direntries {
    if r !in de then de
    else if de[r].ftype == Directory && r.dir != q.dir then (de - {r})[q := de[r]][Up(de[r].ino) := Entry(q.dir, Directory)]
    else (de - {r})[q := de[r]]
  }

  function Moved(t: Tables, r: Row, q: Row): Tables {
    var md := if r in t.direntries && t.direntries[r].ftype == Directory && r.dir != q.dir
              then AddLinks(AddLinks(t.metadata, r.dir, -1), q.dir, 1) else t.metadata;
    Tables(md, MovedRows(t.direntries, r, q), t.filedata)
  }

  ghost predicate CanMove(de: Direntries, r: Row, q: Row) {
    && ParentsOk(de) && NamesOk(de) && ClimbsOk(de)
    && r in de && r.name != "" && q !in de && q.name != "" && Up(q.dir) in de
  }

  /** The condition that the kernel guarantees: a directory does not move to a place within itself. */
  ghost predicate Apart(de: Direntries, r: Row, q: Row) {
    r in de && de[r].ftype == Directory ==> !Within(de, q.dir, de[r].ino)
  }

  /** A directory can always be renamed in place. */
  lemma ParentApart(de: Direntries, r: Row)
    requires NamesOk(de) && ClimbsOk(de) && NamesDir(de, r)
    ensures !Within(de, r.dir, de[r].ino)
  {
    var m := de[r].ino;
    if Within(de, r.dir, m) {
      var n: nat :| Climbs(de, m, n);
      WithinSelf(de, m);
      var k: nat :| Meets(de, m, m, k);
      NoCycle(de, m, m, k, n);
    }
  }

  /** The rows after a move, one by one. */
  lemma MovedFacts(de: Direntries, r: Row, q: Row)
    requires CanMove(de, r, q)
    ensures var de' := MovedRows(de, r, q);
            && (forall d :: Up(d) in de <==> Up(d) in de')
            && (forall d :: Up(d) in de && !(NamesDir(de, r) && d == de[r].ino) ==> de'[Up(d)] == de[Up(d)])
            && (NamesDir(de, r) ==> de'[Up(de[r].ino)].ino == q.dir)
            && (forall x: Row :: x.name != "" && x != q ==> (x in de' <==> x in de && x != r) && (x in de' ==> de'[x] == de[x]))
            && q in de' && de'[q] == de[r]
  {
    hide ClimbsOk;
    assert NamesDir(de, r) <==> de[r].ftype == Directory;
  }

  lemma MovedParents(de: Direntries, r: Row, q: Row)
    requires CanMove(de, r, q)
    ensures ParentsOk(MovedRows(de, r, q))
  {
    MovedFacts(de, r, q);
    hide ClimbsOk, MovedRows;
    var de' := MovedRows(de, r, q);
    forall x | x in de' ensures Up(x.dir) in de' {
      if x.name == "" { assert x == Up(x.dir); }
    }
  }

  lemma MovedNames(de: Direntries, r: Row, q: Row)
    requires CanMove(de, r, q)
    ensures NamesOk(MovedRows(de, r, q))
  {
    hide CanMove, MovedRows, NamesDir;
    MovedMirror(de, r, q);
    MovedOnce(de, r, q);
  }

  lemma MovedMirror(de: Direntries, r: Row, q: Row)
    requires CanMove(de, r, q)
    ensures var de' := MovedRows(de, r, q);
            && (forall x :: NamesDir(de', x) ==> de'[x].ino != ROOT && Up(de'[x].ino) in de' && de'[Up(de'[x].ino)].ino == x.dir)
            && forall d :: Up(d) in de' && d != ROOT ==> exists x :: NamesDir(de', x) && de'[x].ino == d
  {
    MovedFacts(de, r, q);
    hide ClimbsOk, ParentsOk, MovedRows;
    var de' := MovedRows(de, r, q);
    forall x | NamesDir(de', x) ensures de'[x].ino != ROOT && Up(de'[x].ino) in de' && de'[Up(de'[x].ino)].ino == x.dir {
      if x == q { assert NamesDir(de, r); } else { assert NamesDir(de, x); }
    }
    forall d | Up(d) in de' && d != ROOT ensures exists x :: NamesDir(de', x) && de'[x].ino == d {
      var x :| NamesDir(de, x) && de[x].ino == d;
      assert NamesDir(de', if x == r then q else x);
    }
  }

  lemma MovedOnce(de: Direntries, r: Row, q: Row)
    requires CanMove(de, r, q)
    ensures var de' := MovedRows(de, r, q);
            forall x, y :: NamesDir(de', x) && NamesDir(de', y) && de'[x].ino == de'[y].ino ==> x == y
  {
    MovedFacts(de, r, q);
    hide ClimbsOk, ParentsOk, MovedRows;
    var de' := MovedRows(de, r, q);
    forall x, y | NamesDir(de', x) && NamesDir(de', y) && de'[x].ino == de'[y].ino ensures x == y {
      assert NamesDir(de, if x == q then r else x) && NamesDir(de, if y == q then r else y);
    }
  }

  lemma MovedClimbs(de: Direntries, r: Row, q: Row)
    requires CanMove(de, r, q) && Apart(de, r, q)
    ensures ClimbsOk(MovedRows(de, r, q))
  {
    var de' := MovedRows(de, r, q);
    var m := de[r].ino;
    assert NamesDir(de, r) <==> de[r].ftype == Directory;
    forall d | Up(d) in de' ensures exists k: nat :: Climbs(de', d, k) {
      var n: nat :| Climbs(de, d, n);
      if de[r].ftype == Directory && r.dir != q.dir {
        ClimbsMoved(de, de', m, q.dir, d, n);
      } else {
        ClimbsSame(de, de', d, n);
      }
    }
  }

  lemma MovedBreaks(de: Direntries, r: Row, q: Row)
    requires CanMove(de, r, q) && !Apart(de, r, q)
    ensures !ClimbsOk(MovedRows(de, r, q))
  {
    var de' := MovedRows(de, r, q);
    var m := de[r].ino;
    ParentApart(de, r);
    WithinSelf(de, m);
    forall n: nat ensures !Climbs(de', m, n) {
      LoopNeverClimbs(de, de', m, q.dir, m, n);
    }
    assert Up(m) in de';
  }

  lemma MovedRefs(de: Direntries, r: Row, q: Row, i: int)
    requires r in de && q !in de && q.name != ""
    requires de[r].ftype == Directory && r.dir != q.dir ==> Up(de[r].ino) in de && de[Up(de[r].ino)].ino == r.dir && r.name != ""
    ensures |Refs(MovedRows(de, r, q), i)| == |Refs(de, i)| +
              if de[r].ftype == Directory && r.dir != q.dir then (if i == q.dir then 1 else 0) - (if i == r.dir then 1 else 0) else 0
  {
    var up := Up(de[r].ino);
    var moved := (de - {r})[q := de[r]];
    RefsDelete(de, r, i);
    RefsInsert(de - {r}, q, de[r], i);
    if de[r].ftype == Directory && r.dir != q.dir {
      RefsDelete(moved, up, i);
      RefsInsert(moved - {up}, up, Entry(q.dir, Directory), i);
      assert (moved - {up})[up := Entry(q.dir, Directory)] == MovedRows(de, r, q);
    }
  }

  lemma MovedLinks(t: Tables, r: Row, q: Row)
    requires LinksOk(t) && CanMove(t.direntries, r, q) && r.dir in t.metadata && q.dir in t.metadata
    ensures LinksOk(Moved(t, r, q))
  {
    var de, t' := t.direntries, Moved(t, r, q);
    assert NamesDir(de, r) <==> de[r].ftype == Directory;
    forall i | i in t'.metadata ensures t'.metadata[i].nlink == |Refs(t'.direntries, i)| {
      MovedRefs(de, r, q, i);
      hide CanMove, MovedRows, Refs;
    }
    hide CanMove, MovedRows, Refs, Moved;
  }

  function IsDirOutcome(t: Tables, dir: int): Errno {
    if dir !in t.metadata then ENOENT
    else if t.metadata[dir].ftype != Directory then ENOTDIR
    else OK
  }

  /** The checks of a rename that come before it touches anything. */
  function RenameChecks(t: Tables, r: Row, q: Row): Errno {
    if IsDirOutcome(t, r.dir) != OK then IsDirOutcome(t, r.dir)
    else if IsDirOutcome(t, q.dir) != OK then IsDirOutcome(t, q.dir)
    else if r !in t.direntries then ENOENT
    else OK
  }

  function RenameOutcome(t: Tables, r: Row, q: Row): Errno {
    if KindOf(r.name) != NameRegular || KindOf(q.name) != NameRegular then EINVAL
    else if RenameChecks(t, r, q) != OK then RenameChecks(t, r, q)
    else if q !in t.direntries || t.direntries[q].ino == t.direntries[r].ino then OK
    else RemoveOutcome(t, q.dir, q.name, t.direntries[r].ftype == Directory)
  }

  /** The state in between: the new name is free. */
  function Vacated(t: Tables, r: Row, q: Row): Tables {
    if r in t.direntries && q in t.direntries then Removed(t, q.dir, q.name, t.direntries[r].ftype == Directory) else t
  }

  function Renamed(t: Tables, r: Row, q: Row): Tables {
    if r in t.direntries && q in t.direntries && t.direntries[q].ino == t.direntries[r].ino then t else Moved(Vacated(t, r, q), r, q)
  }

  /** The inode that loses its name to a rename, if any. */
  function Displaced(t: Tables, r: Row, q: Row): int {
    if r in t.direntries && q in t.direntries && t.direntries[q].ino != t.direntries[r].ino then t.direntries[q].ino else NONE
  }

  /** A rename that is not refused and has something to do. */
  ghost predicate CanRename(t: Tables, r: Row, q: Row) {
    && Inv(t) && RenameOutcome(t, r, q) == OK
    && (q in t.direntries ==> t.direntries[q].ino != t.direntries[r].ino)
  }

  lemma VacatedFacts(t: Tables, r: Row, q: Row)
    requires CanRename(t, r, q)
    ensures var t1 := Vacated(t, r, q);
            Inv(t1) && SameFiles(t, t1, NONE) && OnlyLinksDiffer(t.metadata, t1.metadata)
    ensures var de, de1 := t.direntries, Vacated(t, r, q).direntries;
            && r in de1 && de1[r] == de[r] && q !in de1 && r.name != "" && q.name != ""
            && (Up(q.dir) in de1 <==> Up(q.dir) in de)
  {
    VacatedRows(t, r, q);
    hide TreeOk, LinksOk, FilesOk, SameFiles, RemoveOutcome, KindOf, RowsOf, RemovedRows;
    if q in t.direntries {
      var isDir := t.direntries[r].ftype == Directory;
      RemovedInv(t, q.dir, q.name, isDir);
      RemovedRowsOk(t, q.dir, q.name, isDir);
    } else {
      FilesKept(t, t, NONE);
    }
  }

  lemma VacatedRows(t: Tables, r: Row, q: Row)
    requires CanRename(t, r, q)
    ensures var de, de1 := t.direntries, Vacated(t, r, q).direntries;
            && r in de1 && de1[r] == de[r] && q !in de1 && r.name != "" && q.name != ""
            && (Up(q.dir) in de1 <==> Up(q.dir) in de)
  {
    hide TreeOk, LinksOk, FilesOk, RowsOf, KindOf, RemoveOutcome, RemovedRows;
    RenameIs(t, r, q);
    if q in t.direntries {
      RemoveFacts(t, q.dir, q.name, t.direntries[r].ftype == Directory);
      VacatedOf(t.direntries, r, q, t.direntries[r].ftype == Directory);
    }
  }

  lemma VacatedOf(de: Direntries, r: Row, q: Row, isDir: bool)
    requires r in de && q in de && r != q && r.name != "" && q.name != "" && (isDir ==> de[q].ino != q.dir)
    requires isDir ==> RowsOf(de, de[q].ino) == {Up(de[q].ino)}
    ensures var de1 := RemovedRows(de, q, isDir);
            r in de1 && de1[r] == de[r] && q !in de1 && (Up(q.dir) in de1 <==> Up(q.dir) in de)
  {
    hide RowsOf;
  }

  /** Moving a directory within itself is the same mistake before and after the new name is vacated. */
  lemma VacatedApart(t: Tables, r: Row, q: Row)
    requires CanRename(t, r, q)
    ensures r in Vacated(t, r, q).direntries
    ensures Apart(t.direntries, r, q) <==> Apart(Vacated(t, r, q).direntries, r, q)
  {
    VacatedRows(t, r, q);
    if q in t.direntries && t.direntries[r].ftype == Directory {
      RemoveFacts(t, q.dir, q.name, true);
      hide LinksOk, FilesOk, RowsOk, NamesOk, ParentsOk, ClimbsOk, RemoveOutcome, KindOf, RowsOf;
      RemovedWithin(t.direntries, q, q.dir, t.direntries[r].ino);
    }
  }

  lemma RemovedWithin(de: Direntries, q: Row, d: int, m: int)
    requires ParentsOk(de) && NamesOk(de) && q in de && q.name != ""
    requires de[q].ino != ROOT && d != de[q].ino && RowsOf(de, de[q].ino) == {Up(de[q].ino)}
    ensures Within(de, d, m) <==> Within(RemovedRows(de, q, true), d, m)
  {
    var de1 := RemovedRows(de, q, true);
    NobodysParent(de, de[q].ino);
    hide ParentsOk, NamesOk, RowsOf;
    if n: nat :| Meets(de, d, m, n) { MeetsLeaf(de, de1, de[q].ino, d, m, n); }
    if n: nat :| Meets(de1, d, m, n) { MeetsMore(de1, de, d, m, n); }
  }

  lemma MovedTree(t: Tables, r: Row, q: Row)
    requires TreeOk(t) && CanMove(t.direntries, r, q) && Apart(t.direntries, r, q) && KindOf(q.name) == NameRegular
    ensures TreeOk(Moved(t, r, q))
  {
    hide RowsOk, ParentsOk, NamesOk, ClimbsOk, CanMove, Apart, KindOf, MovedRows, AddLinks;
    MovableRow(t, r, q);
    MovedRowsOk(t, r, q);
    MovedParents(t.direntries, r, q);
    MovedNames(t.direntries, r, q);
    MovedClimbs(t.direntries, r, q);
  }

  lemma MovedFiles(t: Tables, r: Row, q: Row)
    requires FilesOk(t) && RowsOk(t) && CanMove(t.direntries, r, q) && KindOf(q.name) == NameRegular
    ensures r.dir in t.metadata && q.dir in t.metadata
    ensures FilesOk(Moved(t, r, q)) && SameFiles(t, Moved(t, r, q), NONE) && OnlyLinksDiffer(t.metadata, Moved(t, r, q).metadata)
  {
    hide FilesOk, SameFiles, RowsOk, CanMove, KindOf, MovedRows, AddLinks, OnlyLinksDiffer;
    MovableRow(t, r, q);
    MovedRowsOk(t, r, q);
    FilesKept(t, Moved(t, r, q), NONE);
  }

  lemma MovedInv(t: Tables, r: Row, q: Row)
    requires Inv(t) && CanMove(t.direntries, r, q) && Apart(t.direntries, r, q) && KindOf(q.name) == NameRegular
    ensures r.dir in t.metadata && q.dir in t.metadata
    ensures Inv(Moved(t, r, q)) && SameFiles(t, Moved(t, r, q), NONE) && OnlyLinksDiffer(t.metadata, Moved(t, r, q).metadata)
  {
    hide TreeOk, LinksOk, FilesOk, SameFiles, CanMove, Apart, KindOf, Moved;
    assert RowsOk(t) by { TreeRows(t); }
    MovedFiles(t, r, q);
    MovedTree(t, r, q);
    MovedLinks(t, r, q);
  }

  lemma TreeRows(t: Tables)
    requires TreeOk(t)
    ensures RowsOk(t)
  {
  }

  lemma MovableRow(t: Tables, r: Row, q: Row)
    requires RowsOk(t) && CanMove(t.direntries, r, q)
    ensures IsDir(t, r.dir) && IsDir(t, q.dir) && r in t.direntries && r.name != "" && q.name != ""
    ensures t.direntries[r].ftype == Directory ==> Up(t.direntries[r].ino) in t.direntries
  {
    assert IsDir(t, Up(q.dir).dir);
    assert NamesDir(t.direntries, r) <==> t.direntries[r].ftype == Directory;
  }

  lemma MovedRowsOk(t: Tables, r: Row, q: Row)
    requires RowsOk(t) && r in t.direntries && r.name != "" && IsDir(t, q.dir) && q.name != "" && KindOf(q.name) == NameRegular
    requires t.direntries[r].ftype == Directory ==> Up(t.direntries[r].ino) in t.direntries
    ensures RowsOk(Moved(t, r, q)) && OnlyLinksDiffer(t.metadata, Moved(t, r, q).metadata)
  {
    hide KindOf;
    var de, t' := t.direntries, Moved(t, r, q);
    var up := Up(de[r].ino);
    var md := t'.metadata;
    assert forall i :: i in t.metadata <==> i in md;
    assert forall i :: i in t.metadata ==> md[i] == t.metadata[i].(nlink := md[i].nlink);
    forall x | x in t'.direntries
      ensures IsDir(t', x.dir) && t'.direntries[x].ino in md && md[t'.direntries[x].ino].ftype == t'.direntries[x].ftype
      ensures (x.name == "" ==> t'.direntries[x].ftype == Directory) && (x.name == "" || KindOf(x.name) == NameRegular)
    {
      if x == up {
        assert de[r].ftype == Directory && r.dir != q.dir ==> t'.direntries[x] == Entry(q.dir, Directory);
      } else if x == q {
        assert t'.direntries[x] == de[r];
      } else {
        assert x in de && t'.direntries[x] == de[x];
      }
    }
  }

  /** What the premise of the following theorems amounts to. */
  lemma RenameIs(t: Tables, r: Row, q: Row)
    requires CanRename(t, r, q)
    ensures Inv(t) && r in t.direntries && r.name != "" && q.name != "" && KindOf(q.name) == NameRegular && IsDir(t, q.dir)
    ensures Renamed(t, r, q) == Moved(Vacated(t, r, q), r, q)
  {
    hide TreeOk, LinksOk, FilesOk, RemoveOutcome, Moved, Vacated;
  }

  lemma TreeCanMove(t: Tables, r: Row, q: Row)
    requires TreeOk(t) && r in t.direntries && r.name != "" && q !in t.direntries && q.name != "" && Up(q.dir) in t.direntries
    ensures CanMove(t.direntries, r, q)
  {
    hide RowsOk, ParentsOk, NamesOk, ClimbsOk;
  }

  lemma NotATree(t: Tables)
    requires !ParentsOk(t.direntries) || !ClimbsOk(t.direntries)
    ensures !Inv(t)
  {
    hide RowsOk, ParentsOk, NamesOk, ClimbsOk, LinksOk, FilesOk;
  }

  lemma InvParts(t: Tables)
    requires Inv(t)
    ensures TreeOk(t) && LinksOk(t) && FilesOk(t)
  {
    hide TreeOk, LinksOk, FilesOk;
  }

  /** A rename keeps the filesystem consistent exactly when the new parent is still linked and the old entry does not
      move within itself. The code checks neither: both are left to the caller. */
  lemma RenameKeepsInvIff(t: Tables, r: Row, q: Row)
    requires CanRename(t, r, q)
    ensures FilesOk(t) && q.dir in t.metadata
    ensures Inv(Renamed(t, r, q)) <==> t.metadata[q.dir].nlink > 0 && Apart(t.direntries, r, q)
    ensures Inv(Renamed(t, r, q)) ==> FilesOk(Renamed(t, r, q)) && SameFiles(t, Renamed(t, r, q), NONE)
  {
    hide CanRename, Inv, TreeOk, LinksOk, FilesOk, SameFiles, Apart, Renamed, Vacated, KindOf, CanMove, MovedRows, OnlyLinksDiffer;
    var t1, t' := Vacated(t, r, q), Renamed(t, r, q);
    RenameIs(t, r, q);
    InvParts(t);
    VacatedFacts(t, r, q);
    InvParts(t1);
    VacatedApart(t, r, q);
    LinkedIff(t, q.dir);
    if Up(q.dir) !in t.direntries {
      RenamedUnlinked(t1, r, q);
      NotATree(t');
    } else {
      TreeCanMove(t1, r, q);
      if Apart(t.direntries, r, q) {
        MovedInv(t1, r, q);
        InvParts(t');
        SameFilesTrans(t, t1, t', NONE);
      } else {
        MovedBreaks(t1.direntries, r, q);
        NotATree(t');
      }
    }
  }

  lemma RenamedUnlinked(t: Tables, r: Row, q: Row)
    requires TreeOk(t) && r in t.direntries && r.name != "" && q.name != "" && Up(q.dir) !in t.direntries
    ensures !ParentsOk(MovedRows(t.direntries, r, q))
  {
    var de' := MovedRows(t.direntries, r, q);
    assert NamesDir(t.direntries, r) <==> t.direntries[r].ftype == Directory;
    assert q in de' && Up(q.dir) !in de';
  }

  /** What a rename does, row by row. Besides the two names, only the parent links of the moved and of the displaced
      directory change. */
  lemma RenameRows(t: Tables, r: Row, q: Row)
    requires CanRename(t, r, q) && Up(q.dir) in t.direntries
    ensures var de, de' := t.direntries, Renamed(t, r, q).direntries;
            && r !in de' && q in de' && de'[q] == de[r]
            && (NamesDir(de, r) ==> Up(de[r].ino) in de' && de'[Up(de[r].ino)].ino == q.dir)
            && (NamesDir(de, q) ==> Up(de[q].ino) !in de')
            && forall x :: x != r && x != q && !(NamesDir(de, r) && x == Up(de[r].ino)) && !(NamesDir(de, q) && x == Up(de[q].ino))
                 ==> (x in de <==> x in de') && (x in de ==> de'[x] == de[x])
    ensures Renamed(t, r, q).filedata == t.filedata
  {
    var t1 := Vacated(t, r, q);
    var de := t.direntries;
    VacatedFacts(t, r, q);
    if q in de {
      RemoveFacts(t, q.dir, q.name, de[r].ftype == Directory);
      assert NamesDir(de, q) <==> de[r].ftype == Directory;
      assert t1.direntries == RemovedRows(de, q, de[r].ftype == Directory);
      if NamesDir(de, r) && de[q].ino == de[r].ino { assert false; }
    }
    hide LinksOk, FilesOk, RenameOutcome, RemoveOutcome, KindOf, RowsOf, SameFiles;
    MovedFacts(t1.direntries, r, q);
    RenameRowsFrom(de, t1.direntries, r, q);
  }

  /** Of the inodes, only link counts change. */
  lemma RenamedInodes(t: Tables, r: Row, q: Row)
    requires CanRename(t, r, q) && Up(q.dir) in t.direntries
    ensures OnlyLinksDiffer(t.metadata, Renamed(t, r, q).metadata)
  {
    hide CanRename, Inv, TreeOk, LinksOk, FilesOk, SameFiles, Renamed, Vacated, Moved, KindOf, CanMove, OnlyLinksDiffer;
    var t1 := Vacated(t, r, q);
    RenameIs(t, r, q);
    VacatedFacts(t, r, q);
    InvParts(t1);
    TreeCanMove(t1, r, q);
    TreeRows(t1);
    MovedFiles(t1, r, q);
    LinksTwice(t.metadata, t1.metadata, Renamed(t, r, q).metadata);
  }

  lemma LinksTwice(md: Metadata, md1: Metadata, md2: Metadata)
    requires OnlyLinksDiffer(md, md1) && OnlyLinksDiffer(md1, md2)
    ensures OnlyLinksDiffer(md, md2)
  {
  }

  lemma RenameRowsFrom(de: Direntries, de1: Direntries, r: Row, q: Row)
    requires r in de && r in de1 && de1[r] == de[r] && CanMove(de1, r, q)
    requires if q in de then de1 == RemovedRows(de, q, NamesDir(de, q)) else de1 == de
    requires q in de ==> de[q].ino != de[r].ino
    ensures var de' := MovedRows(de1, r, q);
            && r !in de' && q in de' && de'[q] == de[r]
            && (NamesDir(de, r) ==> Up(de[r].ino) in de' && de'[Up(de[r].ino)].ino == q.dir)
            && (NamesDir(de, q) ==> Up(de[q].ino) !in de')
            && forall x :: x != r && x != q && !(NamesDir(de, r) && x == Up(de[r].ino)) && !(NamesDir(de, q) && x == Up(de[q].ino))
                 ==> (x in de <==> x in de') && (x in de ==> de'[x] == de[x])
  {
    hide ClimbsOk;
    MovedFacts(de1, r, q);
    assert NamesDir(de1, r) <==> NamesDir(de, r);
    hide NamesOk, ParentsOk;
  }

  // --- Walking down a path

  /** The inode at the end of a path of regular names. */
  ghost function Walk(de: Direntries, ino: int, path: seq<Name>): Option<int>
    decreases |path|
  {
    if path == [] then Some(ino)
    else if path[0] != "" && Row(ino, path[0]) in de then Walk(de, de[Row(ino, path[0])].ino, path[1..])
    else Option.None
  }

  /** The named rows of all directories within m are the same. (Directories outside the tree have none.) */
  ghost predicate SameWithin(de: Direntries, de': Direntries, m: int) {
    forall r: Row :: r.name != "" && (Up(r.dir) in de ==> Within(de, r.dir, m)) ==>
      (r in de <==> r in de') && (r in de ==> de'[r] == de[r])
  }

  /** A walk that starts at m or below sees only rows of directories within m. */
  lemma {:induction false} WalkKept(t: Tables, de': Direntries, m: int, d: int, path: seq<Name>)
    requires TreeOk(t) && (Up(d) in t.direntries ==> Within(t.direntries, d, m)) && SameWithin(t.direntries, de', m)
    ensures Walk(de', d, path) == Walk(t.direntries, d, path)
    decreases |path|
  {
    var de := t.direntries;
    if path != [] && path[0] != "" && Row(d, path[0]) in de {
      var r := Row(d, path[0]);
      var c := de[r].ino;
      if Up(c) in de {
        assert NamesDir(de, r) by { assert IsDir(t, Up(c).dir); }
        WithinStepUp(de, c, m);
      }
      WalkKept(t, de', m, c, path[1..]);
    }
  }

  lemma WithinStepUp(de: Direntries, c: int, m: int)
    requires Up(c) in de && c != ROOT && Within(de, de[Up(c)].ino, m)
    ensures Within(de, c, m)
  {
    var n: nat :| Meets(de, de[Up(c)].ino, m, n);
    assert Meets(de, c, m, n + 1);
  }

  /** Everything below a renamed file or directory is reached by the same paths as before. */
  lemma RenameKeepsSubtree(t: Tables, r: Row, q: Row, path: seq<Name>)
    requires CanRename(t, r, q) && Up(q.dir) in t.direntries && Apart(t.direntries, r, q)
    ensures var m := t.direntries[r].ino;
            Walk(Renamed(t, r, q).direntries, m, path) == Walk(t.direntries, m, path)
  {
    var de, de', m := t.direntries, Renamed(t, r, q).direntries, t.direntries[r].ino;
    assert r.name != "" && q.name != "" && Up(r.dir) in de;
    RenameRows(t, r, q);
    hide Inv, RenameOutcome, Renamed, KindOf, Apart, Within, Walk;
    BothOutside(t, r, q);
    WithinSelf(de, m);
    OthersWithin(de, de', r, q, m);
    hide SameWithin, NamesDir;
    WalkKept(t, de', m, m, path);
  }

  lemma OthersWithin(de: Direntries, de': Direntries, r: Row, q: Row, m: int)
    requires Up(r.dir) in de && Up(q.dir) in de && !Within(de, r.dir, m) && !Within(de, q.dir, m)
    requires forall x: Row :: x.name != "" && x != r && x != q ==> (x in de <==> x in de') && (x in de ==> de'[x] == de[x])
    ensures SameWithin(de, de', m)
  {
  }

  /** In particular, every path through the old name works with the new name, and no longer with the old one. */
  lemma RenameKeepsPaths(t: Tables, r: Row, q: Row, path: seq<Name>)
    requires CanRename(t, r, q) && Up(q.dir) in t.direntries && Apart(t.direntries, r, q)
    ensures Walk(Renamed(t, r, q).direntries, q.dir, [q.name] + path) == Walk(t.direntries, r.dir, [r.name] + path)
    ensures Walk(Renamed(t, r, q).direntries, r.dir, [r.name] + path) == Option.None
  {
    assert r.name != "" && q.name != "" && r in t.direntries;
    hide CanRename, Renamed, KindOf, Apart, NamesDir, Walk;
    RenameRows(t, r, q);
    RenameKeepsSubtree(t, r, q, path);
    WalkFirst(t.direntries, r, path);
    WalkFirst(Renamed(t, r, q).direntries, q, path);
    WalkFirst(Renamed(t, r, q).direntries, r, path);
  }

  /** A path is walked name by name. */
  lemma WalkFirst(de: Direntries, r: Row, path: seq<Name>)
    requires r.name != ""
    ensures Walk(de, r.dir, []) == Some(r.dir)
    ensures Walk(de, r.dir, [r.name] + path) == if r in de then Walk(de, de[r].ino, path) else Option.None
  {
    assert ([r.name] + path)[1..] == path;
  }

  /** Neither parent of a rename lies within what is moved. */
  lemma BothOutside(t: Tables, r: Row, q: Row)
    requires TreeOk(t) && r in t.direntries && r.name != "" && Up(q.dir) in t.direntries && Apart(t.direntries, r, q)
    ensures !Within(t.direntries, r.dir, t.direntries[r].ino) && !Within(t.direntries, q.dir, t.direntries[r].ino)
  {
    hide RowsOk, ParentsOk, NamesOk, ClimbsOk, Within;
    MovedIsNamed(t, r);
    if NamesDir(t.direntries, r) {
      ParentApart(t.direntries, r);
    } else {
      UpClosed(t, r);
      NothingWithin(t.direntries, r.dir, t.direntries[r].ino);
      NothingWithin(t.direntries, q.dir, t.direntries[r].ino);
    }
  }

  /** The parent of a directory in the tree is in the tree. */
  lemma UpClosed(t: Tables, r: Row)
    requires TreeOk(t) && r in t.direntries
    ensures Up(r.dir) in t.direntries && forall c :: Up(c) in t.direntries ==> Up(t.direntries[Up(c)].ino) in t.direntries
  {
    hide RowsOk, NamesOk, ClimbsOk;
    forall c | Up(c) in t.direntries ensures Up(t.direntries[Up(c)].ino) in t.direntries {
      hide ParentsOk;
      UpIsDir(t, c);
      ReferredIsLinked(t, Up(c));
    }
  }

  lemma UpIsDir(t: Tables, c: int)
    requires RowsOk(t) && Up(c) in t.direntries
    ensures IsDir(t, t.direntries[Up(c)].ino)
  {
    hide KindOf;
  }

  lemma MovedIsNamed(t: Tables, r: Row)
    requires RowsOk(t) && NamesOk(t.direntries) && r in t.direntries && r.name != ""
    ensures NamesDir(t.direntries, r) <==> Up(t.direntries[r].ino) in t.direntries
  {
    if Up(t.direntries[r].ino) in t.direntries { assert IsDir(t, Up(t.direntries[r].ino).dir); }
  }

  lemma NothingWithin(de: Direntries, d: int, m: int)
    requires Up(m) !in de && Up(d) in de && forall c :: Up(c) in de ==> Up(de[Up(c)].ino) in de
    ensures !Within(de, d, m)
  {
    forall n: nat ensures !Meets(de, d, m, n) { NeverMeets(de, d, m, n); }
  }

  lemma {:induction false} NeverMeets(de: Direntries, d: int, m: int, n: nat)
    requires Up(m) !in de && Up(d) in de && forall c :: Up(c) in de ==> Up(de[Up(c)].ino) in de
    ensures !Meets(de, d, m, n)
    decreases n
  {
    if n > 0 { NeverMeets(de, de[Up(d)].ino, m, n - 1); }
  }

  // --- Purging

  function PurgeOutcome(t: Tables, ino: int): Errno { if ino in t.metadata then OK else ENOENT }

  /** Nothing happens to an inode that still has links, not counting the "." of a directory. */
  function Purged(t: Tables, ino: int): Tables {
    if ino !in t.metadata then t else
    var f := t.metadata[ino];
    if f.nlink + DotLink(f.ftype) > DotLink(f.ftype) then t
    else Tables(t.metadata - {ino}, t.direntries,
                if f.ftype == Directory then t.filedata else t.filedata - BlocksFrom(t.filedata, ino, INT64_MIN as int))
  }

  /** The tables without some inodes and their blocks. */
  function Without(t: Tables, gone: set<int>): Tables {
    Tables(t.metadata - gone, t.direntries, t.filedata - set k | k in t.filedata && k.ino in gone)
  }

  function Unlinked(t: Tables): set<int> { set i | i in t.metadata && t.metadata[i].nlink == 0 }

  lemma UnlinkedExists(t: Tables)
    ensures Unlinked(t) != {} ==> exists i :: i in Unlinked(t)
  {
    if forall i :: i !in Unlinked(t) { assert Unlinked(t) == {}; }
  }

  /** What a complete garbage collection leaves. */
  function PurgedAll(t: Tables): Tables { Without(t, Unlinked(t)) }

  lemma WithoutBoth(t: Tables, a: set<int>, b: set<int>)
    ensures Without(Without(t, a), b) == Without(t, a + b)
  {
    assert (t.metadata - a) - b == t.metadata - (a + b);
    assert Without(Without(t, a), b).filedata == Without(t, a + b).filedata;
  }

  lemma PurgedIs(t: Tables, ino: int)
    requires LinksOk(t) && FilesOk(t) && ino in t.metadata
    ensures Purged(t, ino) == if t.metadata[ino].nlink > 0 then t else Without(t, {ino})
  {
    if t.metadata[ino].nlink <= 0 {
      forall k | k in t.filedata && k.ino == ino ensures k in BlocksFrom(t.filedata, ino, INT64_MIN as int) {
        assert FileOk(t, ino) && k == Blk(ino, k.idx);
      }
      assert Purged(t, ino).filedata == Without(t, {ino}).filedata;
    }
  }

  lemma NobodyRefers(t: Tables, ino: int)
    requires TreeOk(t) && LinksOk(t) && ino in t.metadata && t.metadata[ino].nlink <= 0
    ensures forall r :: r in t.direntries ==> r.dir != ino && t.direntries[r].ino != ino
  {
    if IsDir(t, ino) { LinkedIff(t, ino); }
    forall r | r in t.direntries ensures r.dir != ino && t.direntries[r].ino != ino {
      RefsMember(t.direntries, r);
      assert IsDir(t, r.dir) && Up(r.dir) in t.direntries;
    }
  }

  /** Removing an unlinked inode leaves a consistent filesystem, in which all other files are untouched. */
  lemma PurgedInv(t: Tables, ino: int)
    requires Inv(t) && ino in t.metadata
    ensures Inv(Purged(t, ino)) && SameFiles(t, Purged(t, ino), ino)
  {
    PurgedIs(t, ino);
    if t.metadata[ino].nlink > 0 {
      FilesKept(t, t, ino);
    } else {
      hide KindOf, RowsOk, NamesOk, ParentsOk, ClimbsOk, LinksOk, FilesOk, SameFiles, Purged;
      NobodyRefers(t, ino);
      WithoutRowsOk(t, ino);
      PurgedFiles(t, ino);
    }
  }

  lemma WithoutRowsOk(t: Tables, ino: int)
    requires RowsOk(t) && LinksOk(t) && forall r :: r in t.direntries ==> r.dir != ino && t.direntries[r].ino != ino
    ensures RowsOk(Without(t, {ino})) && LinksOk(Without(t, {ino}))
  {
    hide KindOf, Refs;
  }

  lemma PurgedFiles(t: Tables, ino: int)
    requires FilesOk(t)
    ensures FilesOk(Without(t, {ino})) && SameFiles(t, Without(t, {ino}), ino)
  {
    var t' := Without(t, {ino});
    forall i | i != ino && IsFile(t, i) ensures FileOk(t', i) && Contents(t', i) == Contents(t, i) {
      LayoutElsewhere(t.filedata, t'.filedata, ino, i, t.metadata[i].size, t.metadata[i].blksize);
    }
    hide Layout, Bytes;
  }

  /** Purging one inode brings the tables closer to what purging all of them gives. */
  lemma PurgedAllStep(t: Tables, ino: int)
    requires Inv(t) && ino in t.metadata
    ensures PurgedAll(Purged(t, ino)) == PurgedAll(t) && Unlinked(Purged(t, ino)) == Unlinked(t) - {ino}
  {
    hide TreeOk, FilesOk, Purged, Without, Refs;
    PurgedIs(t, ino);
    assert t.metadata[ino].nlink >= 0;
    hide LinksOk;
    if t.metadata[ino].nlink == 0 {
      UnlinkedWithout(t, ino);
    } else {
      assert ino !in Unlinked(t);
      hide Unlinked;
      assert Unlinked(t) == Unlinked(t) - {ino};
    }
  }

  lemma UnlinkedWithout(t: Tables, ino: int)
    requires ino in Unlinked(t)
    ensures PurgedAll(Without(t, {ino})) == PurgedAll(t) && Unlinked(Without(t, {ino})) == Unlinked(t) - {ino}
  {
    var unlinked := Unlinked(t);
    assert Unlinked(Without(t, {ino})) == unlinked - {ino};
    hide Unlinked, Without;
    WithoutBoth(t, {ino}, unlinked - {ino});
    assert {ino} + (unlinked - {ino}) == unlinked;
  }

  lemma PurgedAllDone(t: Tables)
    requires Unlinked(t) == {}
    ensures PurgedAll(t) == t
  {
    assert t.metadata - {} == t.metadata;
    assert PurgedAll(t).filedata == t.filedata;
  }

  /** Calling purge on each inode of a list in turn. */
  function PurgedEach(t: Tables, inos: seq<int>): Tables
    decreases |inos|
  {
    if inos == [] then t
    else PurgedEach(Purged(t, inos[0]), inos[1..])
  }

  lemma PurgeOne(t: Tables, ino: int)
    requires Inv(t)
    ensures Inv(Purged(t, ino)) && PurgedAll(Purged(t, ino)) == PurgedAll(t) && Unlinked(Purged(t, ino)) == Unlinked(t) - {ino}
  {
    hide Inv, PurgedAll, Purged, Unlinked, SameFiles, FilesOk;
    if ino in t.metadata {
      PurgedInv(t, ino);
      PurgedAllStep(t, ino);
    } else {
      PurgedAbsent(t, ino);
    }
  }

  lemma PurgedAbsent(t: Tables, ino: int)
    requires ino !in t.metadata
    ensures Purged(t, ino) == t && Unlinked(t) - {ino} == Unlinked(t)
  {
  }

  /** purge_all is the same as purging, one by one and in any order, all inodes of a list that has the unlinked ones. */
  lemma {:induction false} PurgedAllIsPurgedEach(t: Tables, inos: seq<int>)
    requires Inv(t) && forall i :: i in Unlinked(t) ==> i in inos
    ensures PurgedEach(t, inos) == PurgedAll(t) && Inv(PurgedAll(t))
    decreases |inos|
  {
    hide Inv, PurgedAll, Purged, Unlinked;
    if inos == [] {
      assert forall i :: i !in Unlinked(t);
      PurgedAllDone(t);
    } else {
      PurgeOne(t, inos[0]);
      forall j | j in Unlinked(Purged(t, inos[0])) ensures j in inos[1..] {
        assert j in Unlinked(t) && j != inos[0] && inos == [inos[0]] + inos[1..];
      }
      PurgedAllIsPurgedEach(Purged(t, inos[0]), inos[1..]);
    }
  }

  /** Afterwards exactly the unlinked inodes and their blocks are gone, and there is nothing left to do. */
  lemma PurgedAllExact(t: Tables)
    requires Inv(t)
    ensures var t' := PurgedAll(t);
            && t'.direntries == t.direntries
            && (forall i :: i in t'.metadata <==> i in t.metadata && t.metadata[i].nlink > 0)
            && (forall i :: i in t'.metadata ==> t'.metadata[i] == t.metadata[i])
            && (forall k :: k in t'.filedata <==> k in t.filedata && t.metadata[k.ino].nlink > 0)
            && (forall k :: k in t'.filedata ==> t'.filedata[k] == t.filedata[k])
            && PurgedAll(t') == t'
  {
    assert forall i :: i in t.metadata ==> t.metadata[i].nlink >= 0;
    assert forall k :: k in t.filedata ==> k.ino in t.metadata;
    hide Inv;
    assert Unlinked(PurgedAll(t)) == {};
    PurgedAllDone(PurgedAll(t));
  }

  // --- What a caller sees of creating and removing

  /** After mkdir or mknod, the name leads to the new inode, which leads back if it is a directory. No other name leads
      anywhere else than before. */
  lemma CreatedLookups(t: Tables, dir: int, name: Name, ino: int, ftype: FileType, blksize: int, mtime: int64, d: int, n: Name)
    requires CanCreate(t, dir, name, ino, ftype, blksize)
    ensures var t' := Created(t, dir, name, ino, ftype, blksize, mtime);
            Lookup(t', d, n) ==
              if d == dir && n == name then Found(OK, Entry(ino, ftype))
              else if d == ino && KindOf(n) == NameDotDot && ftype == Directory then Found(OK, Entry(dir, Directory))
              else Lookup(t, d, n)
  {
    CreatedRows(t, dir, name, ino, ftype, blksize, mtime);
    hide Inv, Created, Lookup, RowsOk;
    CreatableDir(t, dir, name);
    LookupWith(t, Created(t, dir, name, ino, ftype, blksize, mtime), dir, name, ino, ftype, d, n);
  }

  lemma LookupWith(t: Tables, t': Tables, dir: int, name: Name, ino: int, ftype: FileType, d: int, n: Name)
    requires KindOf(name) == NameRegular && name != "" && dir != ino
    requires forall r :: r in t.direntries ==> r in t'.direntries && t'.direntries[r] == t.direntries[r] && r.dir != ino
    requires forall r :: r in t'.direntries && r !in t.direntries ==> r == Row(dir, name) || (ftype == Directory && r == Up(ino))
    requires Row(dir, name) in t'.direntries && t'.direntries[Row(dir, name)] == Entry(ino, ftype)
    requires ftype == Directory ==> Up(ino) in t'.direntries && t'.direntries[Up(ino)] == Entry(dir, Directory)
    ensures Lookup(t', d, n) ==
              if d == dir && n == name then Found(OK, Entry(ino, ftype))
              else if d == ino && KindOf(n) == NameDotDot && ftype == Directory then Found(OK, Entry(dir, Directory))
              else Lookup(t, d, n)
  {
  }

  /** After unlink or rmdir, the name is gone, and so is everything in a removed directory. No other name is affected. */
  lemma RemovedLookups(t: Tables, dir: int, name: Name, isDir: bool, d: int, n: Name)
    requires TreeOk(t) && RemoveOutcome(t, dir, name, isDir) == OK
    ensures Row(dir, name) in t.direntries
    ensures var t', e := Removed(t, dir, name, isDir), t.direntries[Row(dir, name)];
            Lookup(t', d, n) ==
              if d == dir && n == name then Found(ENOENT, Entry(NONE, Other))
              else if isDir && d == e.ino && KindOf(n) == NameDotDot then Found(ENOENT, Entry(NONE, Other))
              else Lookup(t, d, n)
  {
    hide TreeOk, RemoveOutcome, RowsOf, KindOf, Removed, Lookup;
    RemoveFacts(t, dir, name, isDir);
    LookupWithout(t, dir, name, isDir, d, n);
  }

  lemma LookupWithout(t: Tables, dir: int, name: Name, isDir: bool, d: int, n: Name)
    requires KindOf(name) == NameRegular && name != "" && Row(dir, name) in t.direntries
    ensures var t', e := Removed(t, dir, name, isDir), t.direntries[Row(dir, name)];
            Lookup(t', d, n) ==
              if d == dir && n == name then Found(ENOENT, Entry(NONE, Other))
              else if isDir && d == e.ino && KindOf(n) == NameDotDot then Found(ENOENT, Entry(NONE, Other))
              else Lookup(t, d, n)
  {
    assert KindOf("") == NameEmpty;
    hide KindOf, AddLinks;
  }

  // --- What one operation does, another can undo

  /** A file or directory that is created, removed, and purged leaves no trace. */
  lemma CreateUndone(t: Tables, dir: int, name: Name, ino: int, ftype: FileType, blksize: int, mtime: int64)
    requires CanCreate(t, dir, name, ino, ftype, blksize)
    ensures var t1, isDir := Created(t, dir, name, ino, ftype, blksize, mtime), ftype == Directory;
            RemoveOutcome(t1, dir, name, isDir) == OK && Purged(Removed(t1, dir, name, isDir), ino) == t
  {
    hide Inv, Created, RemoveOutcome, Removed, Purged, KindOf;
    assert Inv(t) && KindOf(name) == NameRegular;
    CreatableDir(t, dir, name);
    CreatedRows(t, dir, name, ino, ftype, blksize, mtime);
    NoBlocksOf(t, ino);
    CreatedRemovable(t, dir, name, ino, ftype, blksize, mtime);
    RemovedPurged(t, dir, name, ino, ftype, blksize, mtime);
  }

  lemma NoBlocksOf(t: Tables, ino: int)
    requires Inv(t) && ino !in t.metadata
    ensures forall k :: k in t.filedata ==> k.ino != ino
  {
    hide TreeOk, LinksOk, FileOk;
  }

  lemma CreatedRemovable(t: Tables, dir: int, name: Name, ino: int, ftype: FileType, blksize: int, mtime: int64)
    requires KindOf(name) == NameRegular && ino != ROOT && ino != dir && ino !in t.metadata
    requires forall r :: r in t.direntries ==> r.dir != ino
    ensures RemoveOutcome(Created(t, dir, name, ino, ftype, blksize, mtime), dir, name, ftype == Directory) == OK
  {
    var de1 := Created(t, dir, name, ino, ftype, blksize, mtime).direntries;
    if ftype == Directory {
      assert RowsOf(de1, ino) == {Up(ino)};
    }
    hide KindOf, RowsOf;
    assert de1[Row(dir, name)] == Entry(ino, ftype) by { KindOfIs(name); }
  }

  lemma RemovedPurged(t: Tables, dir: int, name: Name, ino: int, ftype: FileType, blksize: int, mtime: int64)
    requires dir in t.metadata && ino !in t.metadata && name != "" && Row(dir, name) !in t.direntries
    requires (forall r :: r in t.direntries ==> r.dir != ino) && forall k :: k in t.filedata ==> k.ino != ino
    ensures Purged(Removed(Created(t, dir, name, ino, ftype, blksize, mtime), dir, name, ftype == Directory), ino) == t
  {
    var t2 := Removed(Created(t, dir, name, ino, ftype, blksize, mtime), dir, name, ftype == Directory);
    assert t2.direntries == t.direntries;
    assert t2.metadata - {ino} == t.metadata;
    assert t2.filedata - BlocksFrom(t2.filedata, ino, INT64_MIN as int) == t.filedata;
  }

  /** A rename to a free name can be taken back by another rename. */
  lemma RenameUndone(t: Tables, r: Row, q: Row)
    requires CanRename(t, r, q) && q !in t.direntries
    ensures RenameOutcome(Renamed(t, r, q), q, r) == OK && Renamed(Renamed(t, r, q), q, r) == t
  {
    hide CanRename, RenameOutcome, Renamed, Moved, MovedRows, KindOf;
    RenamableRow(t, r, q);
    MovedBackRows(t.direntries, r, q);
    MovedBack(t, r, q);
    RenamedFree(t, r, q);
    MoveAllowed(t, r, q);
    RenamedFree(Moved(t, r, q), q, r);
  }

  lemma RenamedFree(t: Tables, r: Row, q: Row)
    requires q !in t.direntries
    ensures Renamed(t, r, q) == Moved(t, r, q)
  {
    hide Moved, Removed;
  }

  lemma MovedBack(t: Tables, r: Row, q: Row)
    requires r.dir in t.metadata && q.dir in t.metadata && r in t.direntries
    requires var de1 := MovedRows(t.direntries, r, q); q in de1 && de1[q] == t.direntries[r] && MovedRows(de1, q, r) == t.direntries
    ensures Moved(Moved(t, r, q), q, r) == t && Moved(t, r, q).direntries == MovedRows(t.direntries, r, q)
  {
    hide MovedRows;
    assert Moved(Moved(t, r, q), q, r).metadata == t.metadata;
  }

  lemma MoveAllowed(t: Tables, r: Row, q: Row)
    requires KindOf(r.name) == NameRegular && KindOf(q.name) == NameRegular && IsDir(t, r.dir) && IsDir(t, q.dir)
    requires var de1 := MovedRows(t.direntries, r, q); q in de1 && r !in de1
    ensures RenameOutcome(Moved(t, r, q), q, r) == OK
  {
    hide MovedRows, KindOf, RemoveOutcome;
  }

  lemma RenamableRow(t: Tables, r: Row, q: Row)
    requires CanRename(t, r, q)
    ensures r in t.direntries && KindOf(r.name) == NameRegular && KindOf(q.name) == NameRegular && r.name != "" && q.name != ""
    ensures IsDir(t, r.dir) && IsDir(t, q.dir) && t.direntries[r].ino in t.metadata
    ensures t.direntries[r].ftype == Directory ==> Up(t.direntries[r].ino) in t.direntries && t.direntries[Up(t.direntries[r].ino)] == Entry(r.dir, Directory)
  {
    hide LinksOk, FilesOk, ClimbsOk, RemoveOutcome;
    assert NamesDir(t.direntries, r) <==> t.direntries[r].ftype == Directory;
  }

  lemma MovedBackRows(de: Direntries, r: Row, q: Row)
    requires r in de && q !in de && r.name != "" && q.name != ""
    requires de[r].ftype == Directory ==> Up(de[r].ino) in de && de[Up(de[r].ino)] == Entry(r.dir, Directory)
    ensures MovedRows(MovedRows(de, r, q), q, r) == de && q in MovedRows(de, r, q) && r !in MovedRows(de, r, q)
    ensures MovedRows(de, r, q)[q] == de[r]
  {
  }
}
