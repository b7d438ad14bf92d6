/** The FUSE layer: how long an inode without links stays in the database depends on how often the kernel looked it up. */
module Fuse {
  import opened Timestamps
  import opened Schema
  import opened Store
  import opened Blocks
  import opened Tree
  import opened Operations
  import opened Runs
  import opened Lookups
  import Directories
  import Files
  import Outcomes

  datatype Mounted = Mounted(tables: Tables, lookups: Counts)

  /** Requests of the kernel, as far as they change the state. `delivered` tells whether the reply got through, and a
      lookup is recorded with the inode number in its reply. */
  datatype Event =
    | Lookup(parent: int, name: Name, ino: int, delivered: bool)
    | Create(op: Op, delivered: bool)
    | Unlink(op: Op)
    | Move(op: Op)
    | Change(op: Op)
    | Forget(ino: int, nlookup: int)

  /** Lookup accounting: drops some lookups of an inode, and purges it when none are left. The purge may fail. */
  ghost predicate Forgets(s: Mounted, ino: int, nlookup: int, purges: bool, s': Mounted) {
    && s'.lookups == Bumped(s.lookups, ino, -nlookup)
    && s'.tables == if Count(s'.lookups, ino) <= 0 && purges then Purged(s.tables, ino) else s.tables
  }

  /** The result of dropping lookups, if the purge does not fail. */
  function ForgetOutcome(s: Mounted, ino: int, nlookup: int): Errno {
    if Count(s.lookups, ino) - nlookup > 0 then OK else PurgeOutcome(s.tables, ino)
  }

  ghost predicate Replies(s: Mounted, ino: int, delivered: bool, s': Mounted) {
    s'.tables == s.tables && s'.lookups == if delivered then Bumped(s.lookups, ino, 1) else s.lookups
  }

  function RemovedIno(t: Tables, op: Op): int
    requires op.Remove?
  {
    Operations.Lookup(t, op.dir, op.name).entry.ino
  }

  ghost predicate Displaces(s: Mounted, ino: int, purges: bool, s': Mounted) {
    if ino == NONE then s' == s else Forgets(s, ino, 0, purges, s')
  }

  /** The effect of a request that succeeds. `purges` tells whether a purge that is attempted succeeds, too. */
  ghost predicate Acts(s: Mounted, e: Event, purges: bool, s': Mounted)
    requires Inv(s.tables)
  {
    match e
    case Lookup(parent, name, ino, delivered) =>
      var found := Operations.Lookup(s.tables, parent, name);
      found.err == OK && found.entry.ino == ino && ino in s.tables.metadata && Replies(s, ino, delivered, s')
    case Create(op, delivered) =>
      (op.Mkdir? || op.Mknod?) && exists t :: Succeeds(s.tables, op, t) && Replies(s.(tables := t), op.newIno, delivered, s')
    case Unlink(op) =>
      op.Remove? && exists t :: Succeeds(s.tables, op, t) && Forgets(s.(tables := t), RemovedIno(s.tables, op), 0, purges, s')
    case Move(op) =>
      op.Rename? && exists t :: Succeeds(s.tables, op, t) && Displaces(s.(tables := t), Displaced(s.tables, op.was, op.will), purges, s')
    case Change(op) =>
      (op.Write? || op.SetAttr?) && s'.lookups == s.lookups && Succeeds(s.tables, op, s'.tables)
    case Forget(ino, nlookup) => Forgets(s, ino, nlookup, purges, s')
  }

  /** A request that fails changes nothing. Forgetting is not refused. */
  ghost predicate Handles(s: Mounted, e: Event, success: bool, purges: bool, s': Mounted) {
    if success then Inv(s.tables) && Acts(s, e, purges, s') else s' == s && !e.Forget?
  }

  /** How many more lookups of an inode the kernel holds after a request that succeeded: one for each reply that tells it
      about the inode, and fewer by what it forgets. */
  function Granted(e: Event, i: int): int {
    match e
    case Lookup(_, _, ino, delivered) => if delivered && ino == i then 1 else 0
    case Create(op, delivered) => if delivered && (op.Mkdir? || op.Mknod?) && op.newIno == i then 1 else 0
    case Forget(ino, nlookup) => if ino == i then -nlookup else 0
    case _ => 0
  }

  /** How many lookups of an inode the kernel holds after the first k requests. This counts replies and knows nothing of
      the table of lookups. */
  function Ledger(events: seq<Event>, successes: seq<bool>, k: nat, i: int): int
    requires k <= |events| == |successes|
  {
    if k == 0 then (if i == ROOT then 1 else 0)
    else Ledger(events, successes, k - 1, i) + if successes[k - 1] then Granted(events[k - 1], i) else 0
  }

  /** What the kernel guarantees: it forgets no more than it holds, and respects the rules for directories. */
  ghost predicate KernelKeeps(t: Tables, events: seq<Event>, successes: seq<bool>, k: nat)
    requires k < |events| == |successes|
  {
    match events[k]
    case Forget(ino, nlookup) => 0 <= nlookup <= Ledger(events, successes, k, ino)
    case Create(op, _) => Respects(t, op)
    case Move(op) => Respects(t, op)
    case _ => true
  }

  /** The same for one request, in a state whose table of lookups is right. */
  ghost predicate Fair(s: Mounted, e: Event) {
    match e
    case Forget(ino, nlookup) => 0 <= nlookup <= Count(s.lookups, ino)
    case Create(op, _) => Respects(s.tables, op)
    case Move(op) => Respects(s.tables, op)
    case _ => true
  }

  /** Counts are never negative, and an inode that the kernel knows exists. */
  ghost predicate Safe(s: Mounted) {
    Inv(s.tables) && forall i :: i in s.lookups ==> s.lookups[i] > 0 && i in s.tables.metadata
  }

  /** An inode without links remains only while the kernel knows it. */
  ghost predicate Collected(s: Mounted) {
    forall i :: i in Unlinked(s.tables) ==> i in s.lookups
  }

  /** The same, but for one inode that is about to be collected. */
  ghost predicate CollectedBut(s: Mounted, ino: int) {
    forall i :: i in Unlinked(s.tables) ==> i in s.lookups || i == ino
  }

  lemma CollectedAfter(s: Mounted, t: Tables, ino: int)
    requires Collected(s) && Unlinked(t) <= Unlinked(s.tables) + {ino}
    ensures CollectedBut(s.(tables := t), ino)
  {
    hide Unlinked;
  }

  lemma SafeAfter(s: Mounted, t: Tables)
    requires Safe(s) && Inv(t) && t.metadata.Keys == s.tables.metadata.Keys
    ensures Safe(s.(tables := t))
  {
    hide Inv;
  }

  // --- Which inodes lose their last link

  /** The metadata after an operation is as before, but for the link counts of some inodes. */
  ghost predicate SameBut(md: Metadata, md': Metadata, but: set<int>) {
    md'.Keys == md.Keys && forall i :: i in md && i !in but ==> md'[i] == md[i]
  }

  lemma OnlyOneUnlinked(t: Tables, t': Tables, but: set<int>, c: int)
    requires SameBut(t.metadata, t'.metadata, but)
    requires forall i :: i in but && i != c ==> i in t'.metadata && t'.metadata[i].nlink > 0
    ensures t'.metadata.Keys == t.metadata.Keys && Unlinked(t') <= Unlinked(t) + {c}
  {
  }

  lemma RemovedMetadata(t: Tables, dir: int, name: Name, isDir: bool)
    requires Row(dir, name) in t.direntries
    ensures SameBut(t.metadata, Removed(t, dir, name, isDir).metadata,
              {t.direntries[Row(dir, name)].ino} + if isDir then {dir} else {})
  {
  }

  lemma RemovedUnlinks(t: Tables, dir: int, name: Name, isDir: bool)
    requires Inv(t) && RemoveOutcome(t, dir, name, isDir) == OK
    ensures var t', c := Removed(t, dir, name, isDir), Operations.Lookup(t, dir, name).entry.ino;
            Inv(t') && t'.metadata.Keys == t.metadata.Keys && c in t.metadata && Unlinked(t') <= Unlinked(t) + {c}
  {
    hide TreeOk, LinksOk, FilesOk, RemoveOutcome, SameFiles, RowsOf, Removed, Unlinked, SameBut, KindOf, Operations.Lookup;
    RemoveFacts(t, dir, name, isDir);
    var t', c := Removed(t, dir, name, isDir), t.direntries[Row(dir, name)].ino;
    RemovedInv(t, dir, name, isDir);
    RemovedMetadata(t, dir, name, isDir);
    if isDir {
      RemovedParentLinked(t, dir, name);
    }
    OnlyOneUnlinked(t, t', {c} + if isDir then {dir} else {}, c);
  }

  lemma RemovedParentLinked(t: Tables, dir: int, name: Name)
    requires TreeOk(t) && RemoveOutcome(t, dir, name, true) == OK && Inv(Removed(t, dir, name, true))
    ensures IsDir(Removed(t, dir, name, true), dir) && Removed(t, dir, name, true).metadata[dir].nlink > 0
  {
    hide TreeOk, LinksOk, FilesOk, RemoveOutcome, RowsOf, KindOf, Operations.Lookup;
    RemoveFacts(t, dir, name, true);
    assert Up(dir) in Removed(t, dir, name, true).direntries;
    hide Removed;
    UpLinked(Removed(t, dir, name, true), dir);
  }

  lemma UpLinked(t: Tables, d: int)
    requires Inv(t) && Up(d) in t.direntries
    ensures IsDir(t, d) && t.metadata[d].nlink > 0
  {
    assert IsDir(t, Up(d).dir);
    LinkedIff(t, d);
  }

  lemma RenamedMetadata(t: Tables, r: Row, q: Row)
    requires r in t.direntries
    ensures SameBut(t.metadata, Renamed(t, r, q).metadata, {r.dir, q.dir, Displaced(t, r, q)})
  {
    if Displaced(t, r, q) != NONE {
      RemovedMetadata(t, q.dir, q.name, t.direntries[r].ftype == Directory);
    }
    hide RemovedRows;
  }

  lemma RenamedParentsLinked(t: Tables, r: Row, q: Row)
    requires CanRename(t, r, q) && Up(q.dir) in t.direntries && Inv(Renamed(t, r, q))
    ensures var t' := Renamed(t, r, q);
            IsDir(t', r.dir) && IsDir(t', q.dir) && t'.metadata[r.dir].nlink > 0 && t'.metadata[q.dir].nlink > 0
  {
    var t', de1 := Renamed(t, r, q), Vacated(t, r, q).direntries;
    assert t'.direntries == MovedRows(de1, r, q) by { RenameIs(t, r, q); }
    hide LinksOk, FilesOk, RowsOk, NamesOk, ClimbsOk, RenameOutcome, SameFiles, Renamed, Vacated, KindOf, OnlyLinksDiffer;
    VacatedFacts(t, r, q);
    MovedFacts(de1, r, q);
    assert Up(r.dir) in de1;
    hide TreeOk, MovedRows;
    UpLinked(t', r.dir);
    UpLinked(t', q.dir);
  }

  lemma RenamedUnlinks(t: Tables, r: Row, q: Row)
    requires Inv(t) && RenameOutcome(t, r, q) == OK && Respects(t, Rename(r, q))
    ensures var t' := Renamed(t, r, q);
            Inv(t') && t'.metadata.Keys == t.metadata.Keys && Unlinked(t') <= Unlinked(t) + {Displaced(t, r, q)}
    ensures Displaced(t, r, q) != NONE ==> Displaced(t, r, q) in t.metadata
  {
    hide TreeOk, LinksOk, FilesOk, RenameOutcome, Apart, Unlinked, KindOf;
    if CanRename(t, r, q) {
      RenameLinked(t, r, q);
      hide Renamed, Displaced, CanRename, Respects;
      RealRenameUnlinks(t, r, q);
    }
  }

  lemma RealRenameUnlinks(t: Tables, r: Row, q: Row)
    requires CanRename(t, r, q) && Apart(t.direntries, r, q)
    requires Up(q.dir) in t.direntries && IsDir(t, q.dir) && t.metadata[q.dir].nlink > 0
    ensures var t' := Renamed(t, r, q);
            Inv(t') && t'.metadata.Keys == t.metadata.Keys && Unlinked(t') <= Unlinked(t) + {Displaced(t, r, q)}
    ensures Displaced(t, r, q) != NONE ==> Displaced(t, r, q) in t.metadata
  {
    hide CanRename, SameFiles, Renamed, Apart, Displaced, Unlinked, SameBut, Inv;
    DisplacedExists(t, r, q);
    RenameKeepsInvIff(t, r, q);
    RenamedMetadata(t, r, q);
    RenamedParentsLinked(t, r, q);
    OnlyOneUnlinked(t, Renamed(t, r, q), {r.dir, q.dir, Displaced(t, r, q)}, Displaced(t, r, q));
  }

  lemma DisplacedExists(t: Tables, r: Row, q: Row)
    requires CanRename(t, r, q)
    ensures r in t.direntries && (Displaced(t, r, q) != NONE ==> Displaced(t, r, q) in t.metadata)
  {
    hide KindOf, RemoveOutcome, ParentsOk, NamesOk, ClimbsOk, LinksOk, FilesOk;
  }

  // --- One request

  lemma BumpSafe(s: Mounted, ino: int, s': Mounted, delivered: bool)
    requires Safe(s) && ino in s.tables.metadata && Replies(s, ino, delivered, s')
    ensures Safe(s') && (Collected(s) ==> Collected(s'))
  {
    hide Inv, Unlinked;
  }

  /** Dropping lookups never removes an inode that the kernel still knows. If the purge succeeds, an inode that lost its
      last link and its last lookup is gone. */
  lemma ForgetSafe(s: Mounted, ino: int, nlookup: int, purges: bool, s': Mounted)
    requires Safe(s) && 0 <= nlookup <= Count(s.lookups, ino) && Forgets(s, ino, nlookup, purges, s')
    ensures Safe(s')
    ensures purges && CollectedBut(s, ino) ==> Collected(s')
  {
    hide TreeOk, LinksOk, FilesOk, Unlinked, Purged;
    PurgeOne(s.tables, ino);
    PurgedKeys(s.tables, ino);
  }

  /** Whatever the count was: if no lookup is left, and the purge succeeds, then the inode is not garbage. Otherwise the
      tables stay as they are. */
  lemma ForgetCollects(s: Mounted, ino: int, nlookup: int, purges: bool, s': Mounted)
    requires Forgets(s, ino, nlookup, purges, s')
    ensures Count(s.lookups, ino) <= nlookup && purges ==> ino !in Unlinked(s'.tables)
    ensures Count(s.lookups, ino) > nlookup || !purges ==> s'.tables == s.tables
  {
    BumpedCount(s.lookups, ino, -nlookup, ino);
    hide Bumped, Count;
  }

  lemma PurgedKeys(t: Tables, ino: int)
    ensures t.metadata.Keys - {ino} <= Purged(t, ino).metadata.Keys
    ensures ino in Purged(t, ino).metadata ==> ino in t.metadata
  {
  }

  lemma CreateSafe(s: Mounted, op: Op, t: Tables)
    requires Safe(s) && (op.Mkdir? || op.Mknod?) && Succeeds(s.tables, op, t) && Respects(s.tables, op)
    ensures Safe(s.(tables := t)) && (Collected(s) ==> Collected(s.(tables := t)))
    ensures op.newIno in t.metadata && op.newIno !in s.lookups
  {
    var ftype := if op.Mkdir? then Directory else Regular;
    hide TreeOk, LinksOk, FilesOk, CreateOutcome, FlatFiles, KindOf;
    CreatableDir(s.tables, op.dir, op.name);
    CreateStep(s.tables, op.dir, op.name, op.newIno, ftype, if op.Mkdir? then 0 else op.blksize, op.now);
    hide Inv;
    CreatedKeys(s.tables, op.dir, op.name, op.newIno, ftype, if op.Mkdir? then 0 else op.blksize, ToNanos(op.now));
  }

  lemma CreatedKeys(t: Tables, dir: int, name: Name, ino: int, ftype: FileType, blksize: int, mtime: int64)
    requires dir in t.metadata && ino !in t.metadata && t.metadata[dir].nlink > 0
    ensures var t' := Created(t, dir, name, ino, ftype, blksize, mtime);
            t'.metadata.Keys == t.metadata.Keys + {ino} && Unlinked(t') <= Unlinked(t)
  {
  }

  lemma ChangeSafe(s: Mounted, op: Op, t: Tables)
    requires Safe(s) && (op.Write? || op.SetAttr?) && Succeeds(s.tables, op, t)
    ensures Safe(s.(tables := t)) && (Collected(s) ==> Collected(s.(tables := t)))
  {
    hide Inv, FlatFiles, FlatAfter, FlatAllows, Succeeds, Unlinked;
    assert Respects(s.tables, op);
    StepKeeps(s.tables, op, t);
    ChangeKeys(s.tables, op, t);
  }

  lemma ChangeKeys(t: Tables, op: Op, t': Tables)
    requires Inv(t) && (op.Write? || op.SetAttr?) && Succeeds(t, op, t')
    ensures t'.metadata.Keys == t.metadata.Keys && Unlinked(t') == Unlinked(t)
  {
    hide TreeOk, LinksOk, Contents, Overwritten, Resized, Represents, SameElsewhere;
  }

  /** Every request keeps lookup counts and inodes in step, even when a purge fails; and when purges succeed, no garbage
      is left behind. */
  lemma HandleKeeps(s: Mounted, e: Event, success: bool, purges: bool, s': Mounted)
    requires Safe(s) && Handles(s, e, success, purges, s') && Fair(s, e)
    ensures Safe(s') && (purges && Collected(s) ==> Collected(s'))
  {
    hide Safe, Collected, Acts, Respects, Inv;
    if success {
      match e {
        case Lookup(_, _, _, _) => LookupKeeps(s, e, purges, s');
        case Create(op, delivered) => CreateKeeps(s, op, delivered, purges, s');
        case Unlink(op) => UnlinkKeeps(s, op, purges, s');
        case Move(op) => MoveKeeps(s, op, purges, s');
        case Change(op) => ChangeKeeps(s, op, purges, s');
        case Forget(ino, nlookup) => ForgetKeeps(s, ino, nlookup, purges, s');
      }
    }
  }

  /** The table of lookups changes by what the replies to the kernel say. */
  lemma HandleCounts(s: Mounted, e: Event, success: bool, purges: bool, s': Mounted, i: int)
    requires Handles(s, e, success, purges, s')
    ensures Count(s'.lookups, i) == Count(s.lookups, i) + if success then Granted(e, i) else 0
  {
    hide Inv, Succeeds, Operations.Lookup, Purged, RemovedIno, Displaced;
    if success {
      match e {
        case Lookup(_, _, ino, _) => BumpedCount(s.lookups, ino, 1, i);
        case Create(op, _) => BumpedCount(s.lookups, op.newIno, 1, i);
        case Unlink(op) => BumpedCount(s.lookups, RemovedIno(s.tables, op), 0, i);
        case Move(op) => BumpedCount(s.lookups, Displaced(s.tables, op.was, op.will), 0, i);
        case Change(_) =>
        case Forget(ino, nlookup) => BumpedCount(s.lookups, ino, -nlookup, i);
      }
    }
  }

  /** A lookup tells the kernel the inode that the name leads to, and changes nothing else. */
  lemma LookupTells(s: Mounted, parent: int, name: Name, ino: int, delivered: bool, purges: bool, s': Mounted)
    requires Inv(s.tables) && Acts(s, Lookup(parent, name, ino, delivered), purges, s')
    ensures s'.tables == s.tables && name != "" && (name == "." ==> ino == parent)
    ensures var r := Row(parent, if name == ".." then "" else name);
            name != "." ==> r in s.tables.direntries && s.tables.direntries[r].ino == ino
  {
    hide Inv, Operations.Lookup;
    Outcomes.LookupIs(s.tables, parent, name);
  }

  /** In a safe state, forgetting reports an error only if the inode does not exist. */
  lemma ForgetOutcomeIs(s: Mounted, ino: int, nlookup: int)
    requires Safe(s) && 0 <= nlookup <= Count(s.lookups, ino)
    ensures ForgetOutcome(s, ino, nlookup) == ENOENT <==> ino !in s.tables.metadata
    ensures ForgetOutcome(s, ino, nlookup) in {OK, ENOENT}
    ensures ForgetOutcome(s, ino, nlookup) == OK <==> ino in s.tables.metadata
  {
    hide Inv;
  }

  lemma BumpedCount(m: Counts, key: int, add: int, i: int)
    ensures Count(Bumped(m, key, add), i) == Count(m, i) + if i == key then add else 0
  {
  }

  lemma LookupKeeps(s: Mounted, e: Event, purges: bool, s': Mounted)
    requires e.Lookup? && Safe(s) && Inv(s.tables) && Acts(s, e, purges, s')
    ensures Safe(s') && (Collected(s) ==> Collected(s'))
  {
    hide Inv, Safe, Collected, Replies, Operations.Lookup;
    BumpSafe(s, e.ino, s', e.delivered);
  }

  lemma CreateKeeps(s: Mounted, op: Op, delivered: bool, purges: bool, s': Mounted)
    requires Safe(s) && Inv(s.tables) && Acts(s, Create(op, delivered), purges, s') && Respects(s.tables, op)
    ensures Safe(s') && (Collected(s) ==> Collected(s'))
  {
    hide Inv, Safe, Collected, Succeeds, Respects, Replies;
    var t :| Succeeds(s.tables, op, t) && Replies(s.(tables := t), op.newIno, delivered, s');
    CreateSafe(s, op, t);
    BumpSafe(s.(tables := t), op.newIno, s', delivered);
  }

  lemma ChangeKeeps(s: Mounted, op: Op, purges: bool, s': Mounted)
    requires Safe(s) && Inv(s.tables) && Acts(s, Change(op), purges, s')
    ensures Safe(s') && (Collected(s) ==> Collected(s'))
  {
    hide Inv, Safe, Collected, Succeeds;
    ChangeSafe(s, op, s'.tables);
  }

  lemma ForgetKeeps(s: Mounted, ino: int, nlookup: int, purges: bool, s': Mounted)
    requires Safe(s) && Inv(s.tables) && Acts(s, Forget(ino, nlookup), purges, s') && 0 <= nlookup <= Count(s.lookups, ino)
    ensures Safe(s') && (purges && Collected(s) ==> Collected(s'))
  {
    hide Inv, Safe, Collected, CollectedBut, Forgets;
    if Collected(s) { CollectedAfter(s, s.tables, ino); }
    ForgetSafe(s, ino, nlookup, purges, s');
  }

  lemma UnlinkIs(s: Mounted, op: Op, purges: bool, s': Mounted)
    requires Inv(s.tables) && Acts(s, Unlink(op), purges, s')
    ensures op.Remove? && RemoveOutcome(s.tables, op.dir, op.name, op.isDir) == OK
    ensures Forgets(s.(tables := Removed(s.tables, op.dir, op.name, op.isDir)), RemovedIno(s.tables, op), 0, purges, s')
  {
    hide Inv, RemoveOutcome, Removed, Forgets, RemovedIno;
  }

  lemma UnlinkKeeps(s: Mounted, op: Op, purges: bool, s': Mounted)
    requires Safe(s) && Inv(s.tables) && Acts(s, Unlink(op), purges, s')
    ensures Safe(s') && (purges && Collected(s) ==> Collected(s'))
  {
    hide Inv, RemoveOutcome, Removed, Unlinked, Forgets, Acts, Collected, CollectedBut;
    UnlinkIs(s, op, purges, s');
    hide Safe;
    var t := Removed(s.tables, op.dir, op.name, op.isDir);
    RemovedUnlinks(s.tables, op.dir, op.name, op.isDir);
    SafeAfter(s, t);
    if Collected(s) { CollectedAfter(s, t, RemovedIno(s.tables, op)); }
    ForgetZero(s.(tables := t), RemovedIno(s.tables, op), purges, s');
  }

  lemma ForgetZero(s: Mounted, ino: int, purges: bool, s': Mounted)
    requires Safe(s) && Forgets(s, ino, 0, purges, s')
    ensures Safe(s') && (purges && CollectedBut(s, ino) ==> Collected(s'))
  {
    ForgetSafe(s, ino, 0, purges, s');
  }

  lemma MoveIs(s: Mounted, op: Op, purges: bool, s': Mounted)
    requires Inv(s.tables) && Acts(s, Move(op), purges, s')
    ensures op.Rename? && RenameOutcome(s.tables, op.was, op.will) == OK
    ensures Displaces(s.(tables := Renamed(s.tables, op.was, op.will)), Displaced(s.tables, op.was, op.will), purges, s')
  {
    hide Inv, RenameOutcome, Renamed, Displaces, Displaced;
  }

  lemma MoveKeeps(s: Mounted, op: Op, purges: bool, s': Mounted)
    requires Safe(s) && Inv(s.tables) && Acts(s, Move(op), purges, s') && Respects(s.tables, op)
    ensures Safe(s') && (purges && Collected(s) ==> Collected(s'))
  {
    hide Inv, RenameOutcome, Renamed, Unlinked, Forgets, Displaced, Acts, Respects, Collected, CollectedBut;
    MoveIs(s, op, purges, s');
    hide Safe;
    var t, x := Renamed(s.tables, op.was, op.will), Displaced(s.tables, op.was, op.will);
    assert op == Rename(op.was, op.will);
    RenamedUnlinks(s.tables, op.was, op.will);
    SafeAfter(s, t);
    if Collected(s) { CollectedAfter(s, t, x); }
    if x == NONE {
      if Collected(s) { NoneUnlinked(s.(tables := t)); }
    } else {
      ForgetZero(s.(tables := t), x, purges, s');
    }
  }

  lemma NoneUnlinked(s: Mounted)
    requires Inv(s.tables) && CollectedBut(s, NONE)
    ensures Collected(s)
  {
    hide TreeOk, LinksOk, FilesOk;
    assert NONE !in Unlinked(s.tables);
  }

  // --- From mount to unmount

  /** Before mounting, all inodes without links are purged; at the start, the kernel knows the root directory. */
  function JustMounted(t: Tables): Mounted { Mounted(PurgedAll(t), Bumped(map[], ROOT, 1)) }

  lemma JustMountedKeeps(t: Tables)
    requires Inv(t)
    ensures Safe(JustMounted(t)) && Collected(JustMounted(t))
  {
    hide Inv, FlatFiles, PurgedAll, Bumped;
    RootLinked(t);
    PurgeAllStep(t);
    PurgedAllKeeps(t, ROOT);
    RootCounted();
  }

  lemma PurgedAllKeeps(t: Tables, ino: int)
    requires ino in t.metadata && t.metadata[ino].nlink > 0
    ensures ino in PurgedAll(t).metadata && forall i :: i !in Unlinked(PurgedAll(t))
  {
  }

  lemma RootCounted()
    ensures forall i :: i in Bumped(map[], ROOT, 1) ==> i == ROOT && Bumped(map[], ROOT, 1)[i] == 1
  {
  }

  lemma RootLinked(t: Tables)
    requires Inv(t)
    ensures IsDir(t, ROOT) && t.metadata[ROOT].nlink > 0
  {
    hide LinksOk, FilesOk, RowsOk, NamesOk, ClimbsOk;
    UpLinked(t, ROOT);
  }

  /** What happens between mount and unmount, for a kernel that keeps its side of the contract. */
  ghost predicate Session(t: Tables, states: seq<Mounted>, events: seq<Event>, successes: seq<bool>, purges: seq<bool>) {
    && Inv(t) && |states| == |events| + 1 && |successes| == |purges| == |events| && states[0] == JustMounted(t)
    && forall i :: 0 <= i < |events| ==>
         KernelKeeps(states[i].tables, events, successes, i) && Handles(states[i], events[i], successes[i], purges[i], states[i + 1])
  }

  /** At any time, the table of lookups is what the kernel holds: a positive number of lookups, of inodes that exist. If
      no purge has failed so far, an inode without links is there only because the kernel holds it. */
  lemma {:induction false} EverySession(t: Tables, states: seq<Mounted>, events: seq<Event>, successes: seq<bool>, purges: seq<bool>, k: nat)
    requires Session(t, states, events, successes, purges) && k <= |events|
    ensures Safe(states[k]) && forall i :: Count(states[k].lookups, i) == Ledger(events, successes, k, i)
    ensures (forall i :: 0 <= i < k ==> purges[i]) ==> Collected(states[k])
  {
    hide Inv, Handles, Safe, Collected, JustMounted, Granted, Respects;
    if k == 0 {
      JustMountedKeeps(t);
      forall i ensures Count(states[0].lookups, i) == Ledger(events, successes, 0, i) { JustMountedCounts(t, i); }
    } else {
      EverySession(t, states, events, successes, purges, k - 1);
      assert KernelKeeps(states[k - 1].tables, events, successes, k - 1);
      HandleKeeps(states[k - 1], events[k - 1], successes[k - 1], purges[k - 1], states[k]);
      forall i ensures Count(states[k].lookups, i) == Ledger(events, successes, k, i) {
        HandleCounts(states[k - 1], events[k - 1], successes[k - 1], purges[k - 1], states[k], i);
      }
    }
  }

  lemma JustMountedCounts(t: Tables, i: int)
    ensures Count(JustMounted(t).lookups, i) == if i == ROOT then 1 else 0
  {
  }

  /** So whatever the kernel holds exists, it never holds a negative number of lookups, and nothing else is kept alive
      without links. */
  lemma HeldInodesExist(t: Tables, states: seq<Mounted>, events: seq<Event>, successes: seq<bool>, purges: seq<bool>, k: nat, i: int)
    requires Session(t, states, events, successes, purges) && k <= |events|
    ensures Ledger(events, successes, k, i) >= 0
    ensures Ledger(events, successes, k, i) > 0 ==> i in states[k].tables.metadata
    ensures (forall j :: 0 <= j < k ==> purges[j]) && i in states[k].tables.metadata && states[k].tables.metadata[i].nlink == 0 ==>
              Ledger(events, successes, k, i) > 0
  {
    hide Inv, Handles, JustMounted, KernelKeeps, Ledger;
    EverySession(t, states, events, successes, purges, k);
  }

  // --- The request handlers

  class Userdata {
    const sqlfs: Sqlfs
    const lookups: Intmap

    constructor (sqlfs: Sqlfs, lookups: Intmap)
      ensures this.sqlfs == sqlfs && this.lookups == lookups
    {
      this.sqlfs, this.lookups := sqlfs, lookups;
    }

    function State(): Mounted
      reads this, sqlfs, lookups
    {
      Mounted(sqlfs.State(), lookups.rows)
    }
  }

  predicate CountsFit(m: Counts) { forall k :: k in m ==> 0 < m[k] < INT64_MAX as int }

  /** sqlfuse_init: the kernel always knows the root directory. */
  method Init(u: Userdata)
    requires u.lookups.rows == map[]
    modifies u.lookups
    ensures u.lookups.rows == Bumped(map[], ROOT, 1)
  {
    var _ := u.lookups.Update(ROOT, 1);
  }

  method DropLookups(u: Userdata, ino: int, nlookup: int) returns (err: Errno)
    requires NoZeros(u.lookups.rows) && 0 <= nlookup < INT64_MAX as int
    requires INT64_MIN as int <= Count(u.lookups.rows, ino) - nlookup <= INT64_MAX as int
    modifies u.sqlfs`metadata, u.sqlfs`direntries, u.sqlfs`filedata, u.sqlfs`savepoints, u.lookups
    ensures u.sqlfs.savepoints == old(u.sqlfs.savepoints) && NoZeros(u.lookups.rows)
    ensures Forgets(old(u.State()), ino, nlookup, err != EIO, u.State())
    ensures err == ForgetOutcome(old(u.State()), ino, nlookup) || (err == EIO && u.sqlfs.mayFail)
  {
    var newCount := u.lookups.Update(ino, -nlookup);
    if newCount > 0 {
      return OK;
    }
    err := Directories.Purge(u.sqlfs, ino);
  }

  /** Whether fuse_reply_entry() succeeds is up to the environment. */
  method ReplyEntry(u: Userdata, ino: int) returns (delivered: bool)
    requires NoZeros(u.lookups.rows) && INT64_MIN as int <= Count(u.lookups.rows, ino) < INT64_MAX as int
    modifies u.lookups
    ensures Replies(old(u.State()), ino, delivered, u.State())
    ensures Count(u.lookups.rows, ino) == old(Count(u.lookups.rows, ino)) + if delivered then 1 else 0
  {
    delivered := *;
    if delivered {
      var _ := u.lookups.Update(ino, 1);
    }
  }

  lemma FitFacts(m: Counts)
    requires CountsFit(m)
    ensures NoZeros(m) && forall i :: 0 <= Count(m, i) < INT64_MAX as int
  {
  }

  method HandleLookup(u: Userdata, parent: int, name: Name) returns (err: Errno, attr: Stat, delivered: bool)
    requires Safe(u.State()) && CountsFit(u.lookups.rows)
    modifies u.lookups
    ensures err == StatEntryOutcome(u.sqlfs.State(), parent, name)
    ensures err == OK ==> attr.ino == Operations.Lookup(u.sqlfs.State(), parent, name).entry.ino && attr.ino in u.sqlfs.metadata
    ensures err == OK ==> attr == FillStat(attr.ino, u.sqlfs.metadata[attr.ino], u.sqlfs.blocksize)
    ensures err == OK ==> Acts(old(u.State()), Lookup(parent, name, attr.ino, delivered), true, u.State())
    ensures err != OK ==> u.State() == old(u.State())
  {
    FitFacts(u.lookups.rows);
    delivered := false;
    err, attr := Directories.StatEntry(u.sqlfs, parent, name);
    hide Inv, Operations.Lookup, CountsFit;
    if err == OK {
      delivered := ReplyEntry(u, attr.ino);
    }
  }

  lemma MkdirActs(s: Mounted, parent: int, name: Name, ino: int, now: Timespec, s1: Mounted, delivered: bool, s': Mounted)
    requires Inv(s.tables) && CreateOutcome(s.tables, parent, name) == OK && ino > 0 && ino !in s.tables.metadata
    requires s1 == s.(tables := Created(s.tables, parent, name, ino, Directory, 0, ToNanos(now))) && Replies(s1, ino, delivered, s')
    ensures Acts(s, Create(Mkdir(parent, name, ino, now), delivered), true, s')
  {
    hide Inv, CreateOutcome, Created, Replies;
    assert Succeeds(s.tables, Mkdir(parent, name, ino, now), s1.tables);
  }

  lemma MknodActs(s: Mounted, parent: int, name: Name, ino: int, blksize: int, now: Timespec, s1: Mounted, delivered: bool, s': Mounted)
    requires Inv(s.tables) && CreateOutcome(s.tables, parent, name) == OK && ino > 0 && ino !in s.tables.metadata
    requires s1 == s.(tables := Created(s.tables, parent, name, ino, Regular, blksize, ToNanos(now))) && Replies(s1, ino, delivered, s')
    ensures Acts(s, Create(Mknod(parent, name, ino, blksize, now), delivered), true, s')
  {
    hide Inv, CreateOutcome, Created, Replies;
    assert Succeeds(s.tables, Mknod(parent, name, ino, blksize, now), s1.tables);
  }

  method HandleMkdir(u: Userdata, parent: int, name: Name, now: Timespec) returns (err: Errno, stat: Stat, delivered: bool)
    requires Safe(u.State()) && CountsFit(u.lookups.rows)
    modifies u.sqlfs`metadata, u.sqlfs`direntries, u.sqlfs`filedata, u.sqlfs`savepoints, u.lookups
    ensures err == CreateOutcome(old(u.sqlfs.State()), parent, name) || (err == EIO && u.sqlfs.mayFail)
    ensures err == OK ==> Acts(old(u.State()), Create(Mkdir(parent, name, stat.ino, now), delivered), true, u.State())
    ensures err != OK ==> u.State() == old(u.State())
  {
    ghost var s := u.State();
    FitFacts(u.lookups.rows);
    delivered := false;
    err, stat := Directories.Mkdir(u.sqlfs, parent, name, now);
    hide Inv, CreateOutcome, CountsFit, Acts, Replies;
    if err == OK {
      ghost var s1 := u.State();
      assert s1.tables == Created(s.tables, parent, name, stat.ino, Directory, 0, ToNanos(now));
      hide Created;
      delivered := ReplyEntry(u, stat.ino);
      MkdirActs(s, parent, name, stat.ino, now, s1, delivered, u.State());
    }
  }

  method HandleMknod(u: Userdata, parent: int, name: Name, plainFile: bool, now: Timespec)
    returns (err: Errno, stat: Stat, delivered: bool)
    requires Safe(u.State()) && CountsFit(u.lookups.rows)
    modifies u.sqlfs`metadata, u.sqlfs`direntries, u.sqlfs`filedata, u.sqlfs`savepoints, u.lookups
    ensures err == (if plainFile then CreateOutcome(old(u.sqlfs.State()), parent, name) else EINVAL) || (err == EIO && u.sqlfs.mayFail)
    ensures err == OK ==> Acts(old(u.State()), Create(Mknod(parent, name, stat.ino, u.sqlfs.blocksize, now), delivered), true, u.State())
    ensures err != OK ==> u.State() == old(u.State())
  {
    ghost var s := u.State();
    FitFacts(u.lookups.rows);
    delivered := false;
    err, stat := Directories.Mknod(u.sqlfs, parent, name, plainFile, now);
    hide Inv, CreateOutcome, CountsFit, Created, Acts, Replies;
    if err == OK {
      ghost var s1 := u.State();
      delivered := ReplyEntry(u, stat.ino);
      MknodActs(s, parent, name, stat.ino, u.sqlfs.blocksize, now, s1, delivered, u.State());
    }
  }

  /** If the entry is removed, but its inode cannot be purged, then the caller is told EIO. */
  method HandleUnlink(u: Userdata, parent: int, name: Name, isDir: bool) returns (err: Errno)
    requires Safe(u.State()) && CountsFit(u.lookups.rows)
    modifies u.sqlfs`metadata, u.sqlfs`direntries, u.sqlfs`filedata, u.sqlfs`savepoints, u.lookups
    ensures err == RemoveOutcome(old(u.sqlfs.State()), parent, name, isDir) || (err == EIO && u.sqlfs.mayFail)
    ensures err == OK ==> Acts(old(u.State()), Unlink(Remove(parent, name, isDir)), true, u.State())
    ensures err != OK ==> u.State() == old(u.State()) || (err == EIO && Acts(old(u.State()), Unlink(Remove(parent, name, isDir)), false, u.State()))
  {
    ghost var s := u.State();
    FitFacts(u.lookups.rows);
    var child;
    hide TreeOk, LinksOk, FilesOk, RemoveOutcome, Removed, CountsFit, Operations.Lookup, Forgets, Acts;
    err, child := Directories.Remove(u.sqlfs, parent, name, isDir);
    if err == OK {
      RemovedUnlinks(s.tables, parent, name, isDir);
      ghost var s1 := u.State();
      err := DropLookups(u, child, 0);
      UnlinkActs(s, parent, name, isDir, s1, err != EIO, u.State());
    }
  }

  lemma UnlinkActs(s: Mounted, parent: int, name: Name, isDir: bool, s1: Mounted, purges: bool, s': Mounted)
    requires Inv(s.tables) && RemoveOutcome(s.tables, parent, name, isDir) == OK
    requires s1 == s.(tables := Removed(s.tables, parent, name, isDir))
    requires Forgets(s1, Operations.Lookup(s.tables, parent, name).entry.ino, 0, purges, s')
    ensures Acts(s, Unlink(Remove(parent, name, isDir)), purges, s')
  {
    hide Inv, RemoveOutcome, Removed, Operations.Lookup, Forgets;
    assert Succeeds(s.tables, Remove(parent, name, isDir), s1.tables);
  }

  lemma MoveActs(s: Mounted, r: Row, q: Row, s1: Mounted, purges: bool, s': Mounted)
    requires Inv(s.tables) && RenameOutcome(s.tables, r, q) == OK && s1 == s.(tables := Renamed(s.tables, r, q))
    requires if Displaced(s.tables, r, q) == NONE then s' == s1 else Forgets(s1, Displaced(s.tables, r, q), 0, purges, s')
    ensures Acts(s, Move(Rename(r, q)), purges, s')
  {
    hide Inv, RenameOutcome, Renamed, Displaced, Forgets;
    assert Succeeds(s.tables, Rename(r, q), s1.tables);
  }

  lemma DisplacedStays(t: Tables, r: Row, q: Row)
    requires Inv(t) && RenameOutcome(t, r, q) == OK
    ensures Displaced(t, r, q) != NONE ==> Displaced(t, r, q) in Renamed(t, r, q).metadata
  {
    if Displaced(t, r, q) != NONE {
      assert CanRename(t, r, q);
      hide CanRename, Inv, Renamed, RenameOutcome, Displaced;
      DisplacedExists(t, r, q);
      RenamedMetadata(t, r, q);
    }
  }

  method HandleRename(u: Userdata, parent: int, name: Name, newParent: int, newName: Name) returns (err: Errno)
    requires Safe(u.State()) && CountsFit(u.lookups.rows)
    modifies u.sqlfs`metadata, u.sqlfs`direntries, u.sqlfs`filedata, u.sqlfs`savepoints, u.lookups
    ensures err == RenameOutcome(old(u.sqlfs.State()), Row(parent, name), Row(newParent, newName)) || (err == EIO && u.sqlfs.mayFail)
    ensures err == OK ==> Acts(old(u.State()), Move(Rename(Row(parent, name), Row(newParent, newName))), true, u.State())
    ensures err != OK ==> (u.State() == old(u.State()) ||
              (err == EIO && Acts(old(u.State()), Move(Rename(Row(parent, name), Row(newParent, newName))), false, u.State())))
  {
    ghost var s := u.State();
    var unlinked;
    hide TreeOk, LinksOk, FilesOk, RenameOutcome, Renamed, CountsFit, Forgets, Displaced, Acts;
    FitFacts(u.lookups.rows);
    err, unlinked := Directories.Rename(u.sqlfs, parent, name, newParent, newName);
    if err == OK {
      ghost var s1 := u.State();
      DisplacedStays(s.tables, Row(parent, name), Row(newParent, newName));
      if unlinked != NONE {
        err := DropLookups(u, unlinked, 0);
      }
      MoveActs(s, Row(parent, name), Row(newParent, newName), s1, err != EIO, u.State());
    }
  }

  method HandleForget(u: Userdata, ino: int, nlookup: int) returns (err: Errno)
    requires Safe(u.State()) && CountsFit(u.lookups.rows) && 0 <= nlookup < INT64_MAX as int
    modifies u.sqlfs`metadata, u.sqlfs`direntries, u.sqlfs`filedata, u.sqlfs`savepoints, u.lookups
    ensures Acts(old(u.State()), Forget(ino, nlookup), err != EIO, u.State())
    ensures err == ForgetOutcome(old(u.State()), ino, nlookup) || (err == EIO && u.sqlfs.mayFail)
  {
    hide Inv, CountsFit, Forgets, Bumped;
    FitFacts(u.lookups.rows);
    err := DropLookups(u, ino, nlookup);
  }

  /** Unless it aborts, a write request is a step that leaves lookups alone. */
  method HandleWrite(u: Userdata, ino: int, off: int, data: seq<byte>, now: Timespec) returns (err: Errno)
    requires Inv(u.sqlfs.State()) && 0 <= off < INT64_MAX as int && |data| < INT64_MAX as int
    requires Files.NoOverflow(u.sqlfs.State(), ino, off + |data|)
    modifies u.sqlfs`metadata, u.sqlfs`direntries, u.sqlfs`filedata, u.sqlfs`savepoints
    ensures err == Files.WriteOutcome(old(u.sqlfs.State()), ino, off, |data|) || (err == EIO && u.sqlfs.mayFail)
    ensures err == OK ==> Acts(old(u.State()), Change(Write(ino, off, data, now)), true, u.State())
    ensures err != OK && err != ABORT ==> u.State() == old(u.State())
  {
    hide TreeOk, LinksOk, FilesOk, Contents, Rewrote, Overwritten, RoundDown;
    err := Files.Write(u.sqlfs, ino, off, data, now);
  }

  method HandleSetattr(u: Userdata, ino: int, attr: Stat, toSet: set<Files.Attr>, now: Timespec) returns (err: Errno, newAttr: Stat)
    requires Inv(u.sqlfs.State()) && (Files.SetSize in toSet ==> Files.NoOverflow(u.sqlfs.State(), ino, attr.size))
    modifies u.sqlfs`metadata, u.sqlfs`direntries, u.sqlfs`filedata, u.sqlfs`savepoints
    ensures err == Files.SetAttrOutcome(old(u.sqlfs.State()), ino, toSet, attr.size) || (err == EIO && u.sqlfs.mayFail)
    ensures err == OK ==> Acts(old(u.State()), Change(SetAttr(ino, toSet, attr.size, attr.mtim, now)), true, u.State())
    ensures err != OK && err != ABORT ==> u.State() == old(u.State())
  {
    hide TreeOk, LinksOk, FilesOk, Files.AttrSet;
    err, newAttr := Files.SetAttr(u.sqlfs, ino, attr, toSet, now);
  }

  /** sqlfuse_destroy: the kernel is gone, so everything it still knew is forgotten. Of the inodes that it knew, exactly
      those without links go, except those whose purge failed. */
  method Destroy(u: Userdata) returns (ghost failed: set<int>)
    requires Safe(u.State()) && CountsFit(u.lookups.rows)
    modifies u.sqlfs`metadata, u.sqlfs`direntries, u.sqlfs`filedata, u.sqlfs`savepoints, u.lookups
    ensures u.lookups.rows == map[] && Safe(u.State())
    ensures failed <= old(u.lookups.rows.Keys) && (!u.sqlfs.mayFail ==> failed == {})
    ensures u.sqlfs.State() == Without(old(u.sqlfs.State()), Unlinked(old(u.sqlfs.State())) * old(u.lookups.rows.Keys) - failed)
  {
    hide Safe, Without, Unlinked, CountsFit, Gone;
    ghost var s := u.State();
    failed := {};
    NothingGone(s);
    var found, key, value := u.lookups.RetrieveOne();
    while found
      invariant Safe(u.State()) && CountsFit(u.lookups.rows)
      invariant found <==> u.lookups.rows != map[]
      invariant found ==> key in u.lookups.rows && value == u.lookups.rows[key]
      invariant u.lookups.rows.Keys <= s.lookups.Keys && failed <= s.lookups.Keys - u.lookups.rows.Keys
      invariant !u.sqlfs.mayFail ==> failed == {}
      invariant u.sqlfs.State() == Without(s.tables, Gone(s, u.lookups.rows, failed))
      decreases |u.lookups.rows|
    {
      ghost var before := u.State();
      KnownExists(before, key);
      var err := DestroyStep(u, key, value);
      ghost var was := failed;
      if err == EIO {
        failed := failed + {key};
      }
      OneMoreGone(s, before, key, was, err == EIO, u.State());
      found, key, value := u.lookups.RetrieveOne();
    }
    AllGone(s, failed);
  }

  /** The inodes that have been purged when only the given lookups are left, and the purges in `failed` have failed. */
  ghost function Gone(s: Mounted, left: Counts, failed: set<int>): set<int> {
    Unlinked(s.tables) * (s.lookups.Keys - left.Keys) - failed
  }

  lemma KnownExists(s: Mounted, key: int)
    requires Safe(s) && key in s.lookups
    ensures key in s.tables.metadata
  {
    hide Inv;
  }

  lemma NothingGone(s: Mounted)
    ensures s.tables == Without(s.tables, Gone(s, s.lookups, {}))
  {
    hide Unlinked;
    var gone := Gone(s, s.lookups, {});
    assert gone == {};
    assert s.tables.metadata - {} == s.tables.metadata;
    assert Without(s.tables, {}).filedata == s.tables.filedata;
  }

  lemma AllGone(s: Mounted, failed: set<int>)
    ensures Gone(s, map[], failed) == Unlinked(s.tables) * s.lookups.Keys - failed
  {
    hide Unlinked;
    var none: Counts := map[];
    assert s.lookups.Keys - none.Keys == s.lookups.Keys;
  }

  lemma OneMoreGone(s: Mounted, before: Mounted, key: int, failed: set<int>, fails: bool, after: Mounted)
    requires before.tables == Without(s.tables, Gone(s, before.lookups, failed)) && before.lookups.Keys <= s.lookups.Keys
    requires key in before.lookups && key in before.tables.metadata && after.lookups == before.lookups - {key}
    requires after.tables == if key in Unlinked(before.tables) && !fails then Without(before.tables, {key}) else before.tables
    requires failed <= s.lookups.Keys - before.lookups.Keys
    ensures after.tables == Without(s.tables, Gone(s, after.lookups, if fails then failed + {key} else failed))
  {
    var gone, gone' := Gone(s, before.lookups, failed), Gone(s, after.lookups, if fails then failed + {key} else failed);
    assert key in Unlinked(before.tables) <==> key in Unlinked(s.tables);
    if key in Unlinked(before.tables) && !fails {
      assert gone' == gone + {key};
      WithoutBoth(s.tables, gone, {key});
    } else {
      assert gone' == gone;
    }
  }

  /** If no purge fails, a session that began without garbage ends without garbage. */
  lemma DestroyCollects(s: Mounted)
    requires Collected(s)
    ensures Without(s.tables, Unlinked(s.tables) * s.lookups.Keys - {}) == PurgedAll(s.tables)
  {
    hide Without, Unlinked;
    var unlinked: set<int> := Unlinked(s.tables);
    assert forall i :: i in unlinked ==> i in s.lookups.Keys;
    assert unlinked * s.lookups.Keys - {} == unlinked;
  }

  method DestroyStep(u: Userdata, key: int, value: int) returns (err: Errno)
    requires Safe(u.State()) && CountsFit(u.lookups.rows) && key in u.lookups.rows && value == u.lookups.rows[key]
    modifies u.sqlfs`metadata, u.sqlfs`direntries, u.sqlfs`filedata, u.sqlfs`savepoints, u.lookups
    ensures err == OK || (err == EIO && u.sqlfs.mayFail)
    ensures Safe(u.State()) && CountsFit(u.lookups.rows) && u.lookups.rows == old(u.lookups.rows) - {key}
    ensures u.sqlfs.State() == if key in Unlinked(old(u.sqlfs.State())) && err == OK then Without(old(u.sqlfs.State()), {key}) else old(u.sqlfs.State())
  {
    hide TreeOk, LinksOk, FilesOk, Purged, Without;
    ghost var s := u.State();
    FitFacts(u.lookups.rows);
    err := DropLookups(u, key, value);
    ForgetSafe(s, key, value, err != EIO, u.State());
    PurgedWithout(s.tables, key);
  }

  lemma PurgedWithout(t: Tables, ino: int)
    requires Inv(t) && ino in t.metadata
    ensures Purged(t, ino) == if ino in Unlinked(t) then Without(t, {ino}) else t
  {
    hide TreeOk, FilesOk, Purged, Without, Refs;
    PurgedIs(t, ino);
  }
}
