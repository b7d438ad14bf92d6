/** Whole runs of filesystem operations: what holds in every reachable state, and which simple model of files the
    stored blocks implement. */
module Runs {
  import opened Timestamps
  import opened Schema
  import opened Store
  import opened Blocks
  import opened Tree
  import opened Operations
  import opened Files

  /** A newly created filesystem, which consists of the root directory. */
  function Initial(mtime: int64): Tables {
    Tables(map[ROOT := Inode(Directory, 1, 0, 0, mtime)], map[Up(ROOT) := Entry(ROOT, Directory)], map[])
  }

  /** The operations that change the database. The inode number of a new file or directory is the database's choice. */
  datatype Op =
    | Mkdir(dir: int, name: Name, newIno: int, now: Timespec)
    | Mknod(dir: int, name: Name, newIno: int, blksize: int, now: Timespec)
    | Remove(dir: int, name: Name, isDir: bool)
    | Rename(was: Row, will: Row)
    | Purge(ino: int)
    | PurgeAll
    | Write(ino: int, off: nat, data: seq<byte>, now: Timespec)
    | SetAttr(ino: int, toSet: set<Attr>, size: int, asked: Timespec, now: Timespec)

  /** The effect of an operation that reports success. */
  ghost predicate Succeeds(t: Tables, op: Op, t': Tables)
    requires Inv(t)
  {
    match op
    case Mkdir(dir, name, ino, now) =>
      CreateOutcome(t, dir, name) == OK && ino > 0 && ino !in t.metadata && t' == Created(t, dir, name, ino, Directory, 0, ToNanos(now))
    case Mknod(dir, name, ino, blksize, now) =>
      CreateOutcome(t, dir, name) == OK && ino > 0 && ino !in t.metadata && t' == Created(t, dir, name, ino, Regular, blksize, ToNanos(now))
    case Remove(dir, name, isDir) => RemoveOutcome(t, dir, name, isDir) == OK && t' == Removed(t, dir, name, isDir)
    case Rename(r, q) => RenameOutcome(t, r, q) == OK && t' == Renamed(t, r, q)
    case Purge(ino) => PurgeOutcome(t, ino) == OK && t' == Purged(t, ino)
    case PurgeAll => t' == PurgedAll(t)
    case Write(ino, off, data, now) =>
      WriteOutcome(t, ino, off, |data|) == OK && Rewrote(t, t', ino, Overwritten(Contents(t, ino), off, data), ToNanos(now))
    case SetAttr(ino, toSet, size, asked, now) =>
      SetAttrOutcome(t, ino, toSet, size) == OK && AttrSet(t, t', ino, toSet, size, asked, now)
  }

  /** An operation that is refused, or that fails, changes nothing. */
  ghost predicate Step(t: Tables, op: Op, success: bool, t': Tables) {
    if success then Inv(t) && Succeeds(t, op, t') else t' == t
  }

  /** What callers owe: new entries go into directories that are still linked, and nothing moves within itself.
      Block sizes are positive, as sqlfs_set_blocksize() checks. */
  ghost predicate Respects(t: Tables, op: Op) {
    match op
    case Mkdir(dir, _, _, _) => dir in t.metadata ==> t.metadata[dir].nlink > 0
    case Mknod(dir, _, _, blksize, _) => (dir in t.metadata ==> t.metadata[dir].nlink > 0) && blksize > 0
    case Rename(r, q) => (q.dir in t.metadata ==> t.metadata[q.dir].nlink > 0) && Apart(t.direntries, r, q)
    case _ => true
  }

  // --- Files, as everybody thinks of them

  type Flat = map<int, seq<byte>>

  ghost function FlatFiles(t: Tables): Flat
    requires FilesOk(t)
  {
    map i | i in t.metadata && IsFile(t, i) :: Contents(t, i)
  }

  /** The same operation on flat files. Garbage collection is told which inodes have no links. */
  function FlatAfter(m: Flat, unlinked: set<int>, op: Op): Flat {
    match op
    case Mknod(_, _, ino, _, _) => m[ino := []]
    case Write(ino, off, data, _) => if ino in m then m[ino := Overwritten(m[ino], off, data)] else m
    case SetAttr(ino, toSet, size, _, _) => if SetSize in toSet && ino in m && size >= 0 then m[ino := Resized(m[ino], size)] else m
    case Purge(ino) => if ino in unlinked then m - {ino} else m
    case PurgeAll => m - unlinked
    case _ => m
  }

  /** When an operation makes sense on flat files: a new file does not replace another one, and only files have bytes. */
  predicate FlatAllows(m: Flat, op: Op) {
    match op
    case Mknod(_, _, ino, _, _) => ino !in m
    case Write(ino, _, _, _) => ino in m
    case SetAttr(ino, toSet, size, _, _) => SetSize in toSet ==> ino in m && size >= 0
    case _ => true
  }

  lemma FlatSame(t: Tables, t': Tables)
    requires FilesOk(t) && FilesOk(t') && SameFiles(t, t', NONE) && NONE !in t.metadata && NONE !in t'.metadata
    ensures FlatFiles(t') == FlatFiles(t)
  {
    hide FilesOk, Contents;
  }

  lemma FlatChanged(t: Tables, t': Tables, ino: int, s: seq<byte>)
    requires FilesOk(t) && FilesOk(t') && SameFiles(t, t', ino) && IsFile(t', ino) && Contents(t', ino) == s
    ensures FlatFiles(t') == FlatFiles(t)[ino := s]
  {
    hide FilesOk, Contents;
  }

  lemma FlatGone(t: Tables, t': Tables, ino: int)
    requires FilesOk(t) && FilesOk(t') && SameFiles(t, t', ino) && !IsFile(t', ino)
    ensures FlatFiles(t') == FlatFiles(t) - {ino}
  {
    hide FilesOk, Contents;
  }

  // --- One step

  lemma CreateStep(t: Tables, dir: int, name: Name, ino: int, ftype: FileType, blksize: int, now: Timespec)
    requires Inv(t) && CreateOutcome(t, dir, name) == OK && ino > 0 && ino !in t.metadata && t.metadata[dir].nlink > 0
    requires ftype != Other && (ftype == Regular ==> blksize > 0)
    ensures var t' := Created(t, dir, name, ino, ftype, blksize, ToNanos(now));
            Inv(t') && FlatFiles(t') == if ftype == Regular then FlatFiles(t)[ino := []] else FlatFiles(t)
  {
    var mtime := ToNanos(now);
    CreatableDir(t, dir, name);
    hide CreateOutcome, TreeOk, LinksOk, FilesOk, SameFiles, Created, FlatFiles, Contents;
    CreateKeepsInvIff(t, dir, name, ino, ftype, blksize, mtime);
    CreatedFiles(t, dir, name, ino, ftype, blksize, mtime);
    if ftype == Regular {
      FlatChanged(t, Created(t, dir, name, ino, ftype, blksize, mtime), ino, []);
    } else {
      FlatGone(t, Created(t, dir, name, ino, ftype, blksize, mtime), ino);
      FlatAbsent(t, ino);
    }
  }

  lemma FlatAbsent(t: Tables, ino: int)
    requires FilesOk(t) && !IsFile(t, ino)
    ensures ino !in FlatFiles(t) && FlatFiles(t) - {ino} == FlatFiles(t)
  {
    hide FilesOk, Contents;
  }

  lemma RenameNothing(t: Tables, r: Row, q: Row)
    requires Inv(t) && RenameOutcome(t, r, q) == OK && !CanRename(t, r, q)
    ensures Renamed(t, r, q) == t
  {
    hide TreeOk, LinksOk, FilesOk, KindOf, RemoveOutcome, Moved, Vacated;
  }

  lemma RenameLinked(t: Tables, r: Row, q: Row)
    requires CanRename(t, r, q) && Respects(t, Rename(r, q))
    ensures Up(q.dir) in t.direntries && IsDir(t, q.dir) && t.metadata[q.dir].nlink > 0 && Apart(t.direntries, r, q)
  {
    hide LinksOk, FilesOk, Apart;
    assert IsDir(t, q.dir);
    hide RenameOutcome, RowsOk, NamesOk, ClimbsOk, ParentsOk;
    LinkedIff(t, q.dir);
  }

  lemma RenameStep(t: Tables, r: Row, q: Row)
    requires Inv(t) && RenameOutcome(t, r, q) == OK && Respects(t, Rename(r, q))
    ensures Inv(Renamed(t, r, q)) && FlatFiles(Renamed(t, r, q)) == FlatFiles(t)
  {
    hide TreeOk, LinksOk, FilesOk, SameFiles, RenameOutcome, Renamed, CanRename, Apart, FlatFiles, Respects;
    if CanRename(t, r, q) {
      RenameLinked(t, r, q);
      RenameKeepsInvIff(t, r, q);
      FlatSame(t, Renamed(t, r, q));
    } else {
      RenameNothing(t, r, q);
    }
  }

  lemma PurgeStep(t: Tables, ino: int)
    requires Inv(t) && ino in t.metadata
    ensures Inv(Purged(t, ino))
    ensures FlatFiles(Purged(t, ino)) == if ino in Unlinked(t) then FlatFiles(t) - {ino} else FlatFiles(t)
  {
    hide TreeOk, FilesOk, FlatFiles, Purged, Refs;
    PurgedIs(t, ino);
    if ino in Unlinked(t) {
      hide LinksOk;
      PurgedFlat(t, ino);
    }
  }

  lemma {:induction false} PurgeAllStep(t: Tables)
    requires Inv(t)
    ensures Inv(PurgedAll(t)) && FlatFiles(PurgedAll(t)) == FlatFiles(t) - Unlinked(t)
    decreases Unlinked(t)
  {
    hide TreeOk, LinksOk, FilesOk, FlatFiles, PurgedAll, Purged, Unlinked;
    if Unlinked(t) == {} {
      PurgedAllDone(t);
      assert FlatFiles(t) - {} == FlatFiles(t);
    } else {
      UnlinkedExists(t);
      var i :| i in Unlinked(t);
      PurgeOne(t, i);
      PurgedFlat(t, i);
      PurgeAllStep(Purged(t, i));
      MinusTwice(FlatFiles(t), i, Unlinked(t));
    }
  }

  lemma PurgedFlat(t: Tables, ino: int)
    requires Inv(t) && ino in Unlinked(t)
    ensures Inv(Purged(t, ino)) && FlatFiles(Purged(t, ino)) == FlatFiles(t) - {ino}
  {
    PurgedInv(t, ino);
    PurgedIs(t, ino);
    FlatGone(t, Purged(t, ino), ino);
  }

  lemma MinusTwice(m: Flat, i: int, gone: set<int>)
    requires i in gone
    ensures m - {i} - (gone - {i}) == m - gone
  {
  }

  /** Sizes and times do not matter for the tree. */
  lemma TreeFrame(t: Tables, t': Tables, ino: int)
    requires TreeOk(t) && LinksOk(t) && ino in t.metadata && t'.direntries == t.direntries
    requires exists size, mtime :: t'.metadata == t.metadata[ino := t.metadata[ino].(size := size, mtime := mtime)]
    ensures TreeOk(t') && LinksOk(t')
  {
    hide KindOf, ParentsOk, NamesOk, ClimbsOk, Refs;
  }

  lemma RewroteStep(t: Tables, t': Tables, ino: int, s: seq<byte>, mtime: int64)
    requires Inv(t) && IsFile(t, ino) && Rewrote(t, t', ino, s, mtime)
    ensures Inv(t') && FlatFiles(t') == FlatFiles(t)[ino := s]
  {
    hide TreeOk, LinksOk, FlatFiles, SameElsewhere, Represents;
    TreeFrame(t, t', ino);
    RewroteContents(t, t', ino, s, mtime);
    FlatChanged(t, t', ino, s);
  }

  lemma TouchStep(t: Tables, t': Tables, ino: int, mtime: int64)
    requires Inv(t) && ino in t.metadata && t' == t.(metadata := t.metadata[ino := t.metadata[ino].(mtime := mtime)])
    ensures Inv(t') && FlatFiles(t') == FlatFiles(t)
  {
    assert t.metadata[ino].(mtime := mtime) == t.metadata[ino].(size := t.metadata[ino].size, mtime := mtime);
    hide TreeOk, LinksOk, FilesOk, SameFiles, FlatFiles;
    TreeFrame(t, t', ino);
    TouchFiles(t, t', ino, mtime);
    FlatSame(t, t');
  }

  lemma TouchFiles(t: Tables, t': Tables, ino: int, mtime: int64)
    requires FilesOk(t) && ino in t.metadata && t' == t.(metadata := t.metadata[ino := t.metadata[ino].(mtime := mtime)])
    ensures FilesOk(t') && SameFiles(t, t', NONE)
  {
    hide Layout, Bytes;
  }

  lemma ResizeStep(t: Tables, t': Tables, ino: int, size: int, mtime: int64)
    requires Inv(t) && IsFile(t, ino) && size >= 0 && Rewrote(t, t', ino, Resized(Contents(t, ino), size), mtime)
    ensures Inv(t') && ino in FlatFiles(t) && FlatFiles(t') == FlatFiles(t)[ino := Resized(FlatFiles(t)[ino], size)]
  {
    assert FileOk(t, ino);
    hide TreeOk, LinksOk, FilesOk, FileOk, Resized, Rewrote, FlatFiles;
    RewroteStep(t, t', ino, Resized(Contents(t, ino), size), mtime);
    FlatHas(t, ino);
  }

  lemma FlatHas(t: Tables, ino: int)
    requires FilesOk(t) && IsFile(t, ino)
    ensures ino in FlatFiles(t) && FlatFiles(t)[ino] == Contents(t, ino)
  {
    hide FilesOk, Contents;
  }

  lemma SetAttrStep(t: Tables, t': Tables, op: Op)
    requires op.SetAttr? && Inv(t) && SetAttrOutcome(t, op.ino, op.toSet, op.size) == OK
    requires AttrSet(t, t', op.ino, op.toSet, op.size, op.asked, op.now)
    ensures Inv(t') && FlatAllows(FlatFiles(t), op) && FlatFiles(t') == FlatAfter(FlatFiles(t), Unlinked(t), op)
  {
    hide TreeOk, LinksOk, FilesOk, Resized, Rewrote, FlatFiles, MtimeAfter, Contents;
    var mtime := MtimeAfter(t.metadata[op.ino].mtime, op.toSet, op.asked, op.now);
    if SetSize in op.toSet {
      ResizeStep(t, t', op.ino, op.size, mtime);
    } else if op.toSet != {} {
      TouchStep(t, t', op.ino, mtime);
    }
  }

  /** Every operation that succeeds keeps the filesystem consistent, and does to the files what the same operation does
      to flat files. */
  lemma StepKeeps(t: Tables, op: Op, t': Tables)
    requires Inv(t) && Succeeds(t, op, t') && Respects(t, op)
    ensures Inv(t') && FlatAllows(FlatFiles(t), op) && FlatFiles(t') == FlatAfter(FlatFiles(t), Unlinked(t), op)
  {
    hide Inv, FlatFiles, CreateOutcome, RemoveOutcome, RenameOutcome, PurgeOutcome, WriteOutcome, SetAttrOutcome;
    hide Created, Removed, Renamed, Purged, PurgedAll, Rewrote, AttrSet, Apart, Contents, Unlinked;
    match op {
      case Mkdir(dir, name, ino, now) => CreatableDir(t, dir, name); CreateStep(t, dir, name, ino, Directory, 0, now);
      case Mknod(dir, name, ino, blksize, now) => CreatableDir(t, dir, name); MknodStep(t, dir, name, ino, blksize, now);
      case Remove(dir, name, isDir) => RemoveStep(t, dir, name, isDir);
      case Rename(r, q) => RenameStep(t, r, q);
      case Purge(ino) => PurgeableIno(t, ino); PurgeStep(t, ino);
      case PurgeAll => PurgeAllStep(t);
      case Write(ino, off, data, now) => WriteStep(t, t', ino, off, data, now);
      case SetAttr(_, _, _, _, _) => SetAttrStep(t, t', op);
    }
  }

  lemma PurgeableIno(t: Tables, ino: int)
    requires PurgeOutcome(t, ino) == OK
    ensures ino in t.metadata
  {
  }

  lemma RemoveStep(t: Tables, dir: int, name: Name, isDir: bool)
    requires Inv(t) && RemoveOutcome(t, dir, name, isDir) == OK
    ensures Inv(Removed(t, dir, name, isDir)) && FlatFiles(Removed(t, dir, name, isDir)) == FlatFiles(t)
  {
    hide TreeOk, LinksOk, FilesOk, SameFiles, RemoveOutcome, Removed, FlatFiles;
    RemovedInv(t, dir, name, isDir);
    FlatSame(t, Removed(t, dir, name, isDir));
  }

  lemma MknodStep(t: Tables, dir: int, name: Name, ino: int, blksize: int, now: Timespec)
    requires Inv(t) && CreateOutcome(t, dir, name) == OK && ino > 0 && ino !in t.metadata && t.metadata[dir].nlink > 0 && blksize > 0
    ensures var t' := Created(t, dir, name, ino, Regular, blksize, ToNanos(now));
            Inv(t') && ino !in FlatFiles(t) && FlatFiles(t') == FlatFiles(t)[ino := []]
  {
    CreateStep(t, dir, name, ino, Regular, blksize, now);
    FlatAbsent(t, ino);
  }

  lemma WriteStep(t: Tables, t': Tables, ino: int, off: nat, data: seq<byte>, now: Timespec)
    requires Inv(t) && WriteOutcome(t, ino, off, |data|) == OK
    requires Rewrote(t, t', ino, Overwritten(Contents(t, ino), off, data), ToNanos(now))
    ensures Inv(t') && ino in FlatFiles(t) && FlatFiles(t') == FlatFiles(t)[ino := Overwritten(FlatFiles(t)[ino], off, data)]
  {
    assert IsFile(t, ino) && FileOk(t, ino);
    hide TreeOk, LinksOk, FilesOk, FileOk, Overwritten, Rewrote, WriteOutcome, FlatFiles;
    RewroteStep(t, t', ino, Overwritten(Contents(t, ino), off, data), ToNanos(now));
    FlatHas(t, ino);
  }

  // --- Whole runs

  lemma InitialInv(mtime: int64)
    ensures Inv(Initial(mtime)) && FlatFiles(Initial(mtime)) == map[]
    ensures Initial(mtime).metadata.Keys == {ROOT} && Initial(mtime).metadata[ROOT].mtime == mtime
  {
    hide TreeOk, LinksOk, FilesOk;
    InitialTree(mtime);
    InitialFiles(mtime);
  }

  lemma InitialTree(mtime: int64)
    ensures TreeOk(Initial(mtime)) && LinksOk(Initial(mtime))
  {
    var t := Initial(mtime);
    assert Refs(t.direntries, ROOT) == {Up(ROOT)};
    assert Climbs(t.direntries, ROOT, 0);
    hide Refs;
  }

  lemma InitialFiles(mtime: int64)
    ensures FilesOk(Initial(mtime)) && FlatFiles(Initial(mtime)) == map[]
  {
  }

  /** States that follow one another by operations whose callers keep their side of the contract. For each operation it
      is recorded whether it succeeded. */
  ghost predicate Run(states: seq<Tables>, ops: seq<Op>, successes: seq<bool>) {
    && |states| == |ops| + 1 == |successes| + 1
    && (exists mtime :: states[0] == Initial(mtime))
    && forall i :: 0 <= i < |ops| ==> Step(states[i], ops[i], successes[i], states[i + 1]) && Respects(states[i], ops[i])
  }

  /** The flat files after those of the first k operations that succeeded. */
  function FlatRun(states: seq<Tables>, ops: seq<Op>, successes: seq<bool>, k: nat): Flat
    requires k <= |ops| == |successes| < |states|
  {
    if k == 0 then map[]
    else
      var m := FlatRun(states, ops, successes, k - 1);
      if successes[k - 1] then FlatAfter(m, Unlinked(states[k - 1]), ops[k - 1]) else m
  }

  /** In every state that can be reached, the directories form a tree, link counts are exact, every file has the layout
      of the schema, and the files have the contents that the operations so far give to flat files. */
  lemma {:induction false} EveryRun(states: seq<Tables>, ops: seq<Op>, successes: seq<bool>, k: nat)
    requires Run(states, ops, successes) && k <= |ops|
    ensures Inv(states[k]) && FlatFiles(states[k]) == FlatRun(states, ops, successes, k)
    ensures k < |ops| && successes[k] ==> FlatAllows(FlatRun(states, ops, successes, k), ops[k])
  {
    hide Inv, Succeeds, FlatFiles, FlatAfter, FlatAllows, Respects, Unlinked;
    if k == 0 {
      var mtime :| states[0] == Initial(mtime);
      InitialInv(mtime);
    } else {
      EveryRun(states, ops, successes, k - 1);
      assert Step(states[k - 1], ops[k - 1], successes[k - 1], states[k]);
      if successes[k - 1] {
        StepKeeps(states[k - 1], ops[k - 1], states[k]);
      }
    }
    if k < |ops| && successes[k] {
      assert Step(states[k], ops[k], successes[k], states[k + 1]);
      StepKeeps(states[k], ops[k], states[k + 1]);
    }
  }

  /** A state at the end of some run. */
  ghost predicate Reachable(t: Tables) {
    exists states, ops, successes :: Run(states, ops, successes) && states[|ops|] == t
  }

  lemma InitialReachable(mtime: int64)
    ensures Reachable(Initial(mtime))
  {
    var ops: seq<Op> := [];
    assert Run([Initial(mtime)], ops, []) && [Initial(mtime)][|ops|] == Initial(mtime);
  }

  lemma ReachableInv(t: Tables)
    requires Reachable(t)
    ensures Inv(t)
  {
    var states, ops, successes :| Run(states, ops, successes) && states[|ops|] == t;
    hide Inv, Run;
    EveryRun(states, ops, successes, |ops|);
  }

  lemma ReachableStep(t: Tables, op: Op, t': Tables)
    requires Reachable(t) && Inv(t) && Succeeds(t, op, t') && Respects(t, op)
    ensures Reachable(t') && Inv(t')
  {
    hide Inv, Succeeds, Respects;
    var states, ops, successes :| Run(states, ops, successes) && states[|ops|] == t;
    assert Run(states + [t'], ops + [op], successes + [true]);
    assert (states + [t'])[|ops + [op]|] == t';
    ReachableInv(t');
  }
}
