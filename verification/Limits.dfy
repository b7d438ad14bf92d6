/** Where the code relies on its callers: for each assumption, a state that can be reached and an input for which the code
    fails. */
module Limits {
  import opened Timestamps
  import opened Schema
  import opened Store
  import opened Blocks
  import opened Tree
  import opened Operations
  import opened Files
  import opened Runs
  import opened Readdir

  const EPOCH := Timespec(0, 0)

  // --- Directories

  /** A filesystem with one directory, "a" in the root directory. */
  function OneDirectory(): Tables { Created(Initial(0), ROOT, "a", 2, Directory, 0, 0) }

  lemma OneDirectoryReachable()
    ensures Reachable(OneDirectory()) && Inv(OneDirectory())
  {
    assert ToNanos(EPOCH) == 0;
    assert CreateOutcome(Initial(0), ROOT, "a") == OK && Initial(0).metadata[ROOT].nlink > 0 && 2 !in Initial(0).metadata;
    hide Inv, Reachable, ToNanos, Created, CreateOutcome, Initial;
    InitialReachable(0);
    InitialInv(0);
    ReachableStep(Initial(0), Mkdir(ROOT, "a", 2, EPOCH), OneDirectory());
  }

  lemma OneDirectoryIs()
    ensures var t := OneDirectory();
            && Row(ROOT, "a") in t.direntries && t.direntries[Row(ROOT, "a")] == Entry(2, Directory) && Row(2, "b") !in t.direntries
            && Up(2) in t.direntries && IsDir(t, ROOT) && IsDir(t, 2)
  {
  }

  /** The same filesystem after rmdir of "a", which the kernel still holds. */
  function RemovedDirectory(): Tables {
    Tables(map[ROOT := Inode(Directory, 1, 0, 0, 0), 2 := Inode(Directory, 0, 0, 0, 0)], map[Up(ROOT) := Entry(ROOT, Directory)], map[])
  }

  lemma RemovedDirectoryReachable()
    ensures Reachable(RemovedDirectory()) && Inv(RemovedDirectory())
  {
    hide Inv, Reachable, OneDirectory, Removed, RemovedDirectory, RemoveOutcome;
    OneDirectoryReachable();
    RemovedDirectoryIs();
    ReachableStep(OneDirectory(), Remove(ROOT, "a", true), RemovedDirectory());
  }

  lemma RemovedDirectoryIs()
    ensures RemoveOutcome(OneDirectory(), ROOT, "a", true) == OK && Removed(OneDirectory(), ROOT, "a", true) == RemovedDirectory()
  {
    var t, t' := OneDirectory(), Removed(OneDirectory(), ROOT, "a", true);
    assert RowsOf(t.direntries, 2) == {Up(2)};
    assert t'.metadata == RemovedDirectory().metadata;
    assert t'.direntries == RemovedDirectory().direntries;
  }

  /** mkdir in a directory that was removed succeeds, and creates an unreachable directory. */
  lemma MkdirInRemovedDirectory()
    ensures var t := RemovedDirectory();
            Reachable(t) && CreateOutcome(t, 2, "b") == OK && !Inv(Created(t, 2, "b", 3, Directory, 0, 0))
  {
    RemovedDirectoryReachable();
    hide TreeOk, LinksOk, FilesOk, Reachable;
    CreateKeepsInvIff(RemovedDirectory(), 2, "b", 3, Directory, 0, 0);
  }

  /** Renaming a directory to a name within itself succeeds, and cuts it off from the root. */
  lemma RenameIntoItself()
    ensures var t, r, q := OneDirectory(), Row(ROOT, "a"), Row(2, "b");
            Reachable(t) && RenameOutcome(t, r, q) == OK && !Inv(Renamed(t, r, q))
  {
    var t, r, q := OneDirectory(), Row(ROOT, "a"), Row(2, "b");
    hide Inv, OneDirectory, Reachable;
    OneDirectoryReachable();
    OneDirectoryIs();
    WithinSelf(t.direntries, 2);
    RenameKeepsInvIff(t, r, q);
  }

  /** A file "b" beside the removed directory. */
  function FileBesideRemoved(): Tables { Created(RemovedDirectory(), ROOT, "b", 3, Regular, 4096, 0) }

  lemma FileBesideRemovedReachable()
    ensures Reachable(FileBesideRemoved()) && Inv(FileBesideRemoved())
  {
    assert ToNanos(EPOCH) == 0;
    assert CreateOutcome(RemovedDirectory(), ROOT, "b") == OK;
    assert RemovedDirectory().metadata[ROOT].nlink > 0 && 3 !in RemovedDirectory().metadata;
    hide Inv, Reachable, ToNanos, Created, CreateOutcome, RemovedDirectory;
    RemovedDirectoryReachable();
    ReachableStep(RemovedDirectory(), Mknod(ROOT, "b", 3, 4096, EPOCH), FileBesideRemoved());
  }

  /** Renaming a file into a directory that was removed succeeds, and leaves the file unreachable. */
  lemma RenameIntoRemovedDirectory()
    ensures var t, r, q := FileBesideRemoved(), Row(ROOT, "b"), Row(2, "c");
            Reachable(t) && RenameOutcome(t, r, q) == OK && !Inv(Renamed(t, r, q))
  {
    var t, r, q := FileBesideRemoved(), Row(ROOT, "b"), Row(2, "c");
    FileBesideRemovedReachable();
    hide TreeOk, LinksOk, FilesOk, Reachable, Apart;
    assert RenameOutcome(t, r, q) == OK && q !in t.direntries && t.metadata[2].nlink == 0;
    RenameKeepsInvIff(t, r, q);
  }

  // --- Files

  /** A filesystem with one empty file. */
  function OneFile(): Tables { Created(Initial(0), ROOT, "a", 2, Regular, 4096, 0) }

  lemma OneFileReachable()
    ensures Reachable(OneFile()) && Inv(OneFile())
  {
    assert ToNanos(EPOCH) == 0;
    assert CreateOutcome(Initial(0), ROOT, "a") == OK && Initial(0).metadata[ROOT].nlink > 0 && 2 !in Initial(0).metadata;
    hide Inv, Reachable, ToNanos, Created, CreateOutcome, Initial;
    InitialReachable(0);
    InitialInv(0);
    ReachableStep(Initial(0), Mknod(ROOT, "a", 2, 4096, EPOCH), OneFile());
  }

  /** Writing nothing within a block fails a CHECK(). */
  lemma EmptyWriteAborts()
    ensures Reachable(OneFile()) && IsFile(OneFile(), 2) && OneFile().metadata[2].blksize == 4096
    ensures WriteOutcome(OneFile(), 2, 1, 0) == ABORT
  {
    hide Reachable, Inv, Initial;
    OneFileReachable();
  }

  /** Asking for a negative size fails a CHECK(). */
  lemma NegativeSizeAborts()
    ensures Reachable(OneFile()) && IsFile(OneFile(), 2) && SetAttrOutcome(OneFile(), 2, {SetSize}, -1) == ABORT
  {
    hide Reachable, Inv, Initial;
    OneFileReachable();
  }

  /** The source checks an offset and a size separately, and lets through a write whose end does not fit in 64 bits. */
  lemma EndOverflows()
    ensures var off, size := INT64_MAX as int - 1, 2;
            && Reachable(OneFile()) && IsFile(OneFile(), 2) && WriteOutcome(OneFile(), 2, off, size) == OK
            && 0 <= off < INT64_MAX as int && size < INT64_MAX as int && !InInt64(off + size) && !NoOverflow(OneFile(), 2, off + size)
  {
    hide Reachable, Inv, Initial;
    OneFileReachable();
  }

  // --- Reading a directory in pieces

  /** The names "" and "a" in order, and what is left of them from "a" on. */
  lemma TwoNames()
    ensures Least({"", "a"}) == "" && Least({"a"}) == "a" && {"", "a"} - {""} == {"a"} && {"a"} - {"a"} == {}
    ensures StartAt({"", "a"}, "a") == {"a"} && StartAt({""}, "a") == {}
  {
    assert Less("", "a") && !Less("a", "") && !Less("a", "a") && !Less("", "");
    LeastUnique("", Least({"", "a"}), {"", "a"});
    LeastUnique("a", Least({"a"}), {"a"});
  }

  lemma TwoEntries(de: Direntries, dir: int, room: int)
    ensures Tail(de, dir, {}) == [] && Tail(de, dir, {"a"}) == [Shown(de, dir, "a")]
    ensures Tail(de, dir, {"", "a"}) == [Shown(de, dir, ""), Shown(de, dir, "a")]
  {
    hide Tail, Shown, Fit;
    TwoNames();
    TailStep(de, dir, {}, room);
    TailStep(de, dir, {"a"}, room);
    TailStep(de, dir, {"", "a"}, room);
  }

  lemma TwoOfThreeFit(x: Dirent, y: Dirent, z: Dirent)
    requires |x.name| == 1 && |y.name| == 2
    ensures Fit([x, y, z], 64) == 2
  {
    assert [x, y, z][1..] == [y, z] && [y, z][1..] == [z];
    assert EntrySize(x.name) == 32 && EntrySize(y.name) == 32;
    assert Fit([z], 0) == 0;
    assert Fit([y, z], 32) == 1;
  }

  lemma NamesBeforeAndAfter()
    ensures NamesIn(OneDirectory().direntries, ROOT) == {"", "a"} && NamesIn(RemovedDirectory().direntries, ROOT) == {""}
    ensures Shown(OneDirectory().direntries, ROOT, "") == Dirent("..", ROOT, Directory)
    ensures Shown(OneDirectory().direntries, ROOT, "a") == Dirent("a", 2, Directory)
  {
    var de := OneDirectory().direntries;
    assert Up(ROOT) in de && Row(ROOT, "a") in de;
    assert forall r :: r in de <==> r == Up(ROOT) || r == Row(ROOT, "a") || r == Up(2);
    assert de[Up(ROOT)] == Entry(ROOT, Directory) && de[Row(ROOT, "a")] == Entry(2, Directory);
    hide OneDirectory;
    assert NamesIn(de, ROOT) == {"", "a"};
    assert Up(ROOT) in RemovedDirectory().direntries;
  }

  lemma FirstReads(de: Direntries)
    requires NamesIn(de, ROOT) == {"", "a"}
    requires Shown(de, ROOT, "") == Dirent("..", ROOT, Directory) && Shown(de, ROOT, "a") == Dirent("a", 2, Directory)
    ensures Reads(de, ROOT, OPENED, 64, Buf([Dirent(".", ROOT, Directory), Dirent("..", ROOT, Directory)]), Handle(Some("a"), false))
  {
    hide NamesIn, Tail, StartAt, Fit, Shown;
    TwoNames();
    TwoEntries(de, ROOT, 64);
    TwoOfThreeFit(Dirent(".", ROOT, Directory), Dirent("..", ROOT, Directory), Dirent("a", 2, Directory));
    var rest := Remaining(de, ROOT, OPENED);
    assert rest == [Dirent(".", ROOT, Directory), Dirent("..", ROOT, Directory), Dirent("a", 2, Directory)];
    assert rest[..2] == [Dirent(".", ROOT, Directory), Dirent("..", ROOT, Directory)];
    assert rest[2..] == [Dirent("a", 2, Directory)];
  }

  lemma NextAborts(de: Direntries, h': Handle)
    requires NamesIn(de, ROOT) == {""}
    ensures Reads(de, ROOT, Handle(Some("a"), false), 64, Aborted, h')
  {
    hide NamesIn, Tail, StartAt, Fit;
    TwoNames();
    TwoEntries(de, ROOT, 64);
    TailStep(de, ROOT, {}, 64);
  }

  /** A buffer of 64 bytes holds the first two entries of the root directory. The name "a" is remembered, and if it is
      removed before the next request, then that one fails a CHECK(). */
  lemma ResumeAfterRemovalAborts(h': Handle)
    ensures Reachable(OneDirectory()) && RemoveOutcome(OneDirectory(), ROOT, "a", true) == OK
    ensures var de, de' := OneDirectory().direntries, Removed(OneDirectory(), ROOT, "a", true).direntries;
            && Reads(de, ROOT, OPENED, 64, Buf([Dirent(".", ROOT, Directory), Dirent("..", ROOT, Directory)]), Handle(Some("a"), false))
            && Reads(de', ROOT, Handle(Some("a"), false), 64, Aborted, h')
  {
    OneDirectoryReachable();
    RemovedDirectoryIs();
    hide Reachable, OneDirectory, RemovedDirectory, Removed, RemoveOutcome, NamesIn, Shown, Reads;
    NamesBeforeAndAfter();
    FirstReads(OneDirectory().direntries);
    NextAborts(RemovedDirectory().direntries, h');
  }
}
