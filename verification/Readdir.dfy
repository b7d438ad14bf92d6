/** Reading a directory in pieces: each call fills one buffer, and remembers the name at which the next call resumes. */
module Readdir {
  import opened Schema
  import opened Store
  import opened Tree

  // --- The order of names

  /** Byte-wise lexicographic order, which is how the database sorts entry names. */
  predicate Less(a: Name, b: Name) {
    b != "" && (a == "" || a[0] < b[0] || (a[0] == b[0] && Less(a[1..], b[1..])))
  }

  /** a and b agree on their first k characters, and then a either ends or has the smaller one. */
  ghost predicate DiffersAt(a: Name, b: Name, k: nat) {
    k <= |a| && k < |b| && a[..k] == b[..k] && (k == |a| || a[k] < b[k])
  }

  lemma {:induction false} LessIs(a: Name, b: Name)
    ensures Less(a, b) <==> exists k: nat :: DiffersAt(a, b, k)
    decreases |a|
  {
    if a == "" || b == "" || a[0] < b[0] {
      if b != "" { assert DiffersAt(a, b, 0); }
    } else if a[0] == b[0] {
      LessIs(a[1..], b[1..]);
      if k: nat :| DiffersAt(a, b, k) {
        assert a[1..][..k - 1] == a[..k][1..] && b[1..][..k - 1] == b[..k][1..];
        assert DiffersAt(a[1..], b[1..], k - 1);
      }
      if k: nat :| DiffersAt(a[1..], b[1..], k) {
        assert a[..k + 1] == [a[0]] + a[1..][..k] && b[..k + 1] == [b[0]] + b[1..][..k];
        assert DiffersAt(a, b, k + 1);
      }
    } else {
      forall k: nat ensures !DiffersAt(a, b, k) {
        if k > 0 && k <= |a| && k < |b| { assert a[..k][0] != b[..k][0]; }
      }
    }
  }

  lemma {:induction false} LessTotal(a: Name, b: Name)
    ensures Less(a, b) || a == b || Less(b, a)
    decreases |a|
  {
    if a != "" && b != "" && a[0] == b[0] {
      LessTotal(a[1..], b[1..]);
      assert a == [a[0]] + a[1..] && b == [b[0]] + b[1..];
    }
  }

  lemma {:induction false} LessTrans(a: Name, b: Name, c: Name)
    requires Less(a, b) && Less(b, c)
    ensures Less(a, c)
    decreases |a|
  {
    if a != "" && a[0] == b[0] && b[0] == c[0] { LessTrans(a[1..], b[1..], c[1..]); }
  }

  lemma {:induction false} LessIrreflexive(a: Name)
    ensures !Less(a, a)
    decreases |a|
  {
    if a != "" { LessIrreflexive(a[1..]); }
  }

  lemma LessNotAfter(a: Name, b: Name)
    ensures Less(a, b) ==> !Less(b, a)
    ensures !Less(a, a)
  {
    LessIrreflexive(a);
    if Less(a, b) && Less(b, a) { LessTrans(a, b, a); }
  }

  /** m comes first among the names. */
  predicate IsLeast(m: Name, names: set<Name>) {
    m in names && forall n :: n in names ==> !Less(n, m)
  }

  lemma {:induction false} LeastExists(names: set<Name>)
    requires names != {}
    ensures exists m :: IsLeast(m, names)
    decreases |names|
  {
    var x :| x in names;
    if names == {x} {
      LessIrreflexive(x);
      assert IsLeast(x, names);
    } else {
      LeastExists(names - {x});
      var m :| IsLeast(m, names - {x});
      LessTotal(x, m);
      LessIrreflexive(x);
      if Less(x, m) {
        forall n | n in names ensures !Less(n, x) {
          if Less(n, x) { LessTrans(n, x, m); }
        }
        assert IsLeast(x, names);
      } else {
        assert IsLeast(m, names);
      }
    }
  }

  lemma LeastUnique(m: Name, n: Name, names: set<Name>)
    requires IsLeast(m, names) && IsLeast(n, names)
    ensures m == n
  {
    LessTotal(m, n);
  }

  ghost function Least(names: set<Name>): (m: Name)
    requires names != {}
    ensures IsLeast(m, names)
  {
    LeastExists(names);
    var m :| IsLeast(m, names);
    m
  }

  /** The names in the order in which the database lists them. */
  ghost function Sorted(names: set<Name>): (s: seq<Name>)
    ensures |s| == |names| && forall n :: n in s <==> n in names
    decreases |names|
  {
    if names == {} then []
    else
      var m := Least(names);
      assert names == (names - {m}) + {m};
      [m] + Sorted(names - {m})
  }

  /** Every name once, in strictly increasing order. */
  lemma {:induction false} SortedIncreasing(names: set<Name>, i: nat, j: nat)
    requires i < j < |names|
    ensures Less(Sorted(names)[i], Sorted(names)[j])
    decreases |names|
  {
    var m := Least(names);
    var rest := Sorted(names - {m});
    if i == 0 {
      assert Sorted(names)[j] == rest[j - 1] && rest[j - 1] in names - {m};
      LessTotal(m, rest[j - 1]);
    } else {
      SortedIncreasing(names - {m}, i - 1, j - 1);
    }
  }

  /** The names from n on. */
  function From(names: set<Name>, n: Name): set<Name> { set x | x in names && !Less(x, n) }

  /** A set of names from which some initial part of the order is missing. */
  ghost predicate IsTail(left: set<Name>, names: set<Name>) {
    left <= names && forall x, y :: x in left && y in names && Less(x, y) ==> y in left
  }

  lemma FromIsTail(names: set<Name>, n: Name)
    ensures IsTail(From(names, n), names)
  {
    forall x, y | x in From(names, n) && y in names && Less(x, y) ensures y in From(names, n) {
      if Less(y, n) { LessTrans(x, y, n); }
    }
  }

  lemma TailWithoutLeast(left: set<Name>, names: set<Name>)
    requires IsTail(left, names) && left != {}
    ensures IsTail(left - {Least(left)}, names)
  {
  }

  /** So a scan that stopped can be resumed from the first name that it did not deliver. */
  lemma TailIsFrom(left: set<Name>, names: set<Name>)
    requires IsTail(left, names) && left != {}
    ensures From(names, Least(left)) == left && (Least(left) == "" ==> left == names)
  {
    forall x | x in names && !Less(x, Least(left)) ensures x in left {
      LessTotal(x, Least(left));
    }
  }

  // --- Directory cursors

  function NamesIn(de: Direntries, dir: int): set<Name> { set r | r in de && r.dir == dir :: r.name }

  lemma NamesInIs(de: Direntries, dir: int)
    ensures forall n :: n in NamesIn(de, dir) <==> Row(dir, n) in de
  {
    forall n ensures n in NamesIn(de, dir) <==> Row(dir, n) in de {
      if Row(dir, n) in de { assert Row(dir, n).name == n; }
    }
  }

  datatype Dirent = Dirent(name: Name, ino: int, ftype: FileType)

  /** An entry as the kernel sees it. The parent link is stored under the empty name. */
  function Shown(de: Direntries, dir: int, name: Name): Dirent {
    var e := if Row(dir, name) in de then de[Row(dir, name)] else Entry(NONE, Other);
    Dirent(if name == "" then ".." else name, e.ino, e.ftype)
  }

  /** The name under which an entry is stored. */
  function Stored(name: Name): Name { if name == ".." then "" else name }

  /** An entry has the inode and the type that its row in the table has. */
  predicate Tells(de: Direntries, dir: int, e: Dirent) {
    var r := Row(dir, Stored(e.name));
    r in de && e.ino == de[r].ino && e.ftype == de[r].ftype
  }

  lemma ShownTells(de: Direntries, dir: int, name: Name)
    requires Row(dir, name) in de && name != ".."
    ensures Tells(de, dir, Shown(de, dir, name)) && Stored(Shown(de, dir, name).name) == name
    ensures Shown(de, dir, name).name == if name == "" then ".." else name
  {
  }

  function ShownAll(de: Direntries, dir: int, names: seq<Name>): (s: seq<Dirent>)
    ensures |s| == |names| && forall i :: 0 <= i < |names| ==> s[i] == Shown(de, dir, names[i])
  {
    if names == [] then [] else [Shown(de, dir, names[0])] + ShownAll(de, dir, names[1..])
  }

  /** The names that are read when a directory is opened at a name. */
  function StartAt(names: set<Name>, start: Name): set<Name> {
    if KindOf(start) == NameRegular then From(names, start) else names
  }

  /** A scan starts with the parent link, unless it is given a name that an entry can have. */
  lemma StartAtIs(names: set<Name>, start: Name)
    ensures !Plain(start) ==> StartAt(names, start) == names
    ensures Plain(start) ==> forall n :: n in StartAt(names, start) <==> n in names && (n == start || Less(start, n))
  {
    KindOfIs(start);
    hide KindOf, Less;
    forall n ensures !Less(n, start) <==> n == start || Less(start, n) {
      LessTotal(n, start);
      LessNotAfter(n, start);
    }
  }

  method DirOpen(fs: Sqlfs, ino: int, start: Name)
    requires fs.dirStmt == None
    modifies fs`dirStmt
    ensures fs.dirStmt == Some(Cursor(ino, StartAt(NamesIn(fs.direntries, ino), start)))
  {
    fs.dirStmt := Some(Cursor(ino, StartAt(NamesIn(fs.direntries, ino), start)));
  }

  method DirNext(fs: Sqlfs) returns (entry: Option<Dirent>)
    requires fs.dirStmt.Some?
    modifies fs`dirStmt
    ensures fs.dirStmt.Some? && fs.dirStmt.value.dir == old(fs.dirStmt.value.dir)
    ensures var left := old(fs.dirStmt.value.left);
            if left == {} then entry == None && fs.dirStmt == old(fs.dirStmt)
            else entry == Some(Shown(fs.direntries, fs.dirStmt.value.dir, Least(left))) && fs.dirStmt.value.left == left - {Least(left)}
  {
    var cursor := fs.dirStmt.value;
    if cursor.left == {} {
      return None;
    }
    LeastExists(cursor.left);
    var name :| IsLeast(name, cursor.left);
    LeastUnique(name, Least(cursor.left), cursor.left);
    fs.dirStmt := Some(cursor.(left := cursor.left - {name}));
    entry := Some(Shown(fs.direntries, cursor.dir, name));
  }

  method DirClose(fs: Sqlfs)
    requires fs.dirStmt.Some?
    modifies fs`dirStmt
    ensures fs.dirStmt == None
  {
    fs.dirStmt := None;
  }

  // --- The readdir request

  const MAX_BUF_SIZE := 256 * 1024

  /** The room that fuse_add_direntry() takes for an entry: a fixed header and the name, padded to 8 bytes. */
  function EntrySize(name: Name): (n: nat)
    ensures n % 8 == 0 && 24 + |name| <= n < 32 + |name|
  {
    (24 + |name| + 7) / 8 * 8
  }

  datatype Handle = Handle(nextName: Option<Name>, atEnd: bool)
  const OPENED := Handle(None, false)

  datatype Reply = Buf(entries: seq<Dirent>) | Err(err: Errno) | Aborted

  /** What a directory contains. */
  ghost function Listing(de: Direntries, dir: int): seq<Dirent> {
    [Dirent(".", dir, Directory)] + Tail(de, dir, NamesIn(de, dir))
  }

  /** What a handle has yet to deliver. */
  ghost function Remaining(de: Direntries, dir: int, h: Handle): seq<Dirent> {
    if h.atEnd then []
    else match h.nextName
      case None => Listing(de, dir)
      case Some(start) => Tail(de, dir, StartAt(NamesIn(de, dir), start))
  }

  /** How many entries fit in a buffer. */
  function Fit(entries: seq<Dirent>, room: int): (k: nat)
    ensures k <= |entries|
  {
    if entries == [] || EntrySize(entries[0].name) > room then 0
    else 1 + Fit(entries[1..], room - EntrySize(entries[0].name))
  }

  /** The room that entries take together. */
  function RoomFor(entries: seq<Dirent>): nat {
    if entries == [] then 0 else EntrySize(entries[0].name) + RoomFor(entries[1..])
  }

  /** No fewer entries are delivered than fit, and no more. */
  lemma {:induction false} FitIsMost(entries: seq<Dirent>, room: nat, k: nat)
    requires k <= |entries|
    ensures k <= Fit(entries, room) <==> RoomFor(entries[..k]) <= room
    decreases |entries|
  {
    hide EntrySize;
    if k > 0 {
      assert entries[..k][1..] == entries[1..][..k - 1];
      if EntrySize(entries[0].name) <= room { FitIsMost(entries[1..], room - EntrySize(entries[0].name), k - 1); }
    }
  }

  /** The handle once the first k of the remaining entries are delivered: it keeps the name of the next one. */
  function After(rest: seq<Dirent>, k: nat): Handle {
    if k < |rest| then Handle(Some(rest[k].name), false) else Handle(None, true)
  }

  /** One readdir request. It delivers as much as fits, and remembers from where the rest can be read. It aborts when
      nothing fits, or when it resumes and nothing is left. */
  ghost predicate Reads(de: Direntries, dir: int, h: Handle, size: nat, reply: Reply, h': Handle) {
    var rest := Remaining(de, dir, h);
    var k := Fit(rest, Min(size, MAX_BUF_SIZE));
    if h.atEnd then reply == Buf([]) && h' == h
    else if k == 0 then reply == Aborted
    else if h.nextName == None && NamesIn(de, dir) == {} then reply == Err(ENOTDIR) && h' == Handle(None, true)
    else reply == Buf(rest[..k]) && h' == After(rest, k) && Remaining(de, dir, h') == rest[k..]
  }

  /** A reply uses its buffer: the entries fit, and if something is left, the next entry would not have. */
  lemma ReplyIsFull(de: Direntries, dir: int, h: Handle, size: nat, reply: Reply, h': Handle)
    requires Reads(de, dir, h, size, reply, h') && reply.Buf? && !h.atEnd
    ensures reply.entries != [] && RoomFor(reply.entries) <= Min(size, MAX_BUF_SIZE)
    ensures var next := Remaining(de, dir, h');
            reply.entries + next == Remaining(de, dir, h) && (next != [] ==> RoomFor(reply.entries + [next[0]]) > Min(size, MAX_BUF_SIZE))
  {
    hide Remaining, RoomFor, EntrySize, Fit, NamesIn;
    var rest, room := Remaining(de, dir, h), Min(size, MAX_BUF_SIZE);
    var k := Fit(rest, room);
    FitIsMost(rest, room, k);
    if k < |rest| {
      FitIsMost(rest, room, k + 1);
      assert rest[..k + 1] == rest[..k] + [rest[k..][0]];
    }
  }

  /** The first request fails if the directory has no rows, and aborts if not even its first entry fits. */
  lemma FirstReplyIs(de: Direntries, dir: int, size: nat, reply: Reply, h': Handle)
    requires Reads(de, dir, OPENED, size, reply, h')
    ensures reply == Aborted <==> Min(size, MAX_BUF_SIZE) < 32
    ensures reply == Err(ENOTDIR) <==> Min(size, MAX_BUF_SIZE) >= 32 && forall n :: Row(dir, n) !in de
    ensures reply.Buf? || reply == Aborted || reply == Err(ENOTDIR)
  {
    NamesInIs(de, dir);
    assert EntrySize(".") == 32;
    hide Tail, NamesIn, EntrySize;
    if NamesIn(de, dir) != {} { var n :| n in NamesIn(de, dir); }
  }

  class DirHandle {
    var nextName: Option<Name>
    var atEnd: bool

    constructor ()
      ensures State() == OPENED
    {
      nextName, atEnd := None, false;
    }

    function State(): Handle
      reads this
    {
      Handle(nextName, atEnd)
    }
  }

  /** The names in a directory other than its parent link are regular, so the name ".." is not ambiguous. */
  ghost predicate NamesRegular(names: set<Name>) {
    forall n :: n in names && n != "" ==> KindOf(n) == NameRegular
  }

  lemma RowsNamesRegular(t: Tables, dir: int)
    requires RowsOk(t)
    ensures NamesRegular(NamesIn(t.direntries, dir))
  {
    hide KindOf;
    forall n | n in NamesIn(t.direntries, dir) && n != "" ensures KindOf(n) == NameRegular {
      assert Row(dir, n) in t.direntries;
    }
  }

  /** Where the next request resumes is where this one stopped. */
  lemma ResumesAt(de: Direntries, dir: int, left: set<Name>)
    requires IsTail(left, NamesIn(de, dir)) && left != {} && NamesRegular(NamesIn(de, dir))
    ensures StartAt(NamesIn(de, dir), Shown(de, dir, Least(left)).name) == left
  {
    TailIsFrom(left, NamesIn(de, dir));
  }

  lemma StartIsTail(names: set<Name>, start: Name)
    ensures IsTail(StartAt(names, start), names)
  {
    FromIsTail(names, start);
  }

  /** The entries of the names that a scan has left. */
  ghost function Tail(de: Direntries, dir: int, left: set<Name>): seq<Dirent> {
    ShownAll(de, dir, Sorted(left))
  }

  lemma TailStep(de: Direntries, dir: int, left: set<Name>, room: int)
    ensures left == {} ==> Tail(de, dir, left) == [] && Fit([], room) == 0
    ensures left != {} ==>
              var e, rest := Shown(de, dir, Least(left)), Tail(de, dir, left - {Least(left)});
              Tail(de, dir, left) == [e] + rest &&
              Fit(Tail(de, dir, left), room) == if EntrySize(e.name) > room then 0 else 1 + Fit(rest, room - EntrySize(e.name))
  {
    hide Shown, EntrySize;
    if left != {} {
      var e, rest := Shown(de, dir, Least(left)), Tail(de, dir, left - {Least(left)});
      assert Sorted(left)[1..] == Sorted(left - {Least(left)});
      assert ([e] + rest)[1..] == rest;
    }
  }

  /** What one scan delivers: as many of the remaining entries as fit, and the name of the next one, if any. */
  ghost predicate Filled(de: Direntries, dir: int, left: set<Name>, room: int, entries: seq<Dirent>, next: Option<Name>) {
    var rest := Tail(de, dir, left);
    var k := Fit(rest, room);
    && entries == rest[..k] && Handle(next, next == None) == After(rest, k)
    && (next.Some? ==> Tail(de, dir, StartAt(NamesIn(de, dir), next.value)) == rest[k..])
  }

  /** Fills a buffer, of which `used` bytes are taken, from an open directory. Returns the name of the entry that did not
      fit, if any. */
  method FillBuffer(fs: Sqlfs, ino: int, room: int, used: int) returns (entries: seq<Dirent>, next: Option<Name>)
    requires fs.dirStmt.Some? && fs.dirStmt.value.dir == ino && used <= room && NamesRegular(NamesIn(fs.direntries, ino))
    requires IsTail(fs.dirStmt.value.left, NamesIn(fs.direntries, ino))
    modifies fs`dirStmt
    ensures fs.dirStmt.Some?
    ensures Filled(fs.direntries, ino, old(fs.dirStmt.value.left), room - used, entries, next)
  {
    hide IsTail, StartAt, Tail, Fit, NamesRegular, NamesIn, Shown, EntrySize;
    ghost var left := fs.dirStmt.value.left;
    ghost var rest := Tail(fs.direntries, ino, left);
    var pos := used;
    entries, next := [], None;
    while true
      invariant fs.dirStmt == Some(Cursor(ino, left)) && IsTail(left, NamesIn(fs.direntries, ino))
      invariant next == None && pos <= room
      invariant entries + Tail(fs.direntries, ino, left) == rest
      invariant Fit(rest, room - used) == |entries| + Fit(Tail(fs.direntries, ino, left), room - pos)
      decreases |left|
    {
      TailStep(fs.direntries, ino, left, room - pos);
      var entry := DirNext(fs);
      if entry == None {
        // All of the scan has been delivered.
        return;
      }
      var len := EntrySize(entry.value.name);
      if len > room - pos {
        // The name of the least entry that is left says where to resume.
        ResumesAt(fs.direntries, ino, left);
        next := Some(entry.value.name);
        return;
      }
      TailWithoutLeast(left, NamesIn(fs.direntries, ino));
      entries, pos, left := entries + [entry.value], pos + len, left - {Least(left)};
    }
  }

  lemma FirstRequest(de: Direntries, dir: int, size: nat, more: seq<Dirent>, next: Option<Name>)
    requires var room := Min(size, MAX_BUF_SIZE);
             EntrySize(".") <= room && Filled(de, dir, NamesIn(de, dir), room - EntrySize("."), more, next)
    ensures Reads(de, dir, OPENED, size,
              if more == [] && next == None then Err(ENOTDIR) else Buf([Dirent(".", dir, Directory)] + more), Handle(next, next == None))
  {
    hide EntrySize, StartAt, Fit, Tail, NamesIn;
    var rest, dot, room := Tail(de, dir, NamesIn(de, dir)), Dirent(".", dir, Directory), Min(size, MAX_BUF_SIZE);
    FirstFit(dot, rest, room);
    SplitAfterFirst(dot, rest, Fit(rest, room - EntrySize(".")));
    TailEmpty(de, dir, NamesIn(de, dir));
  }

  lemma SplitAfterFirst(e: Dirent, rest: seq<Dirent>, k: nat)
    requires k <= |rest|
    ensures ([e] + rest)[..1 + k] == [e] + rest[..k] && ([e] + rest)[1 + k..] == rest[k..]
  {
  }

  lemma TailEmpty(de: Direntries, dir: int, left: set<Name>)
    ensures Tail(de, dir, left) == [] <==> left == {}
  {
  }

  lemma NothingMore(de: Direntries, dir: int, h: Handle, size: nat)
    requires h.atEnd
    ensures Reads(de, dir, h, size, Buf([]), h)
  {
  }

  lemma DotTooLarge(de: Direntries, dir: int, size: nat, h': Handle)
    requires EntrySize(".") > Min(size, MAX_BUF_SIZE)
    ensures Reads(de, dir, OPENED, size, Aborted, h')
  {
    hide EntrySize, Tail, NamesIn;
  }

  lemma NextRequest(de: Direntries, dir: int, start: Name, size: nat, more: seq<Dirent>, next: Option<Name>)
    requires Filled(de, dir, StartAt(NamesIn(de, dir), start), Min(size, MAX_BUF_SIZE), more, next)
    ensures Reads(de, dir, Handle(Some(start), false), size, if more == [] then Aborted else Buf(more), Handle(next, next == None))
  {
    hide Tail, StartAt, NamesIn;
  }

  method ReaddirRequest(fs: Sqlfs, handle: DirHandle, ino: int, size: nat) returns (reply: Reply)
    requires fs.dirStmt == None && NamesRegular(NamesIn(fs.direntries, ino))
    modifies handle, fs`dirStmt
    ensures Reads(fs.direntries, ino, old(handle.State()), size, reply, handle.State())
    ensures reply != Aborted ==> fs.dirStmt == None
  {
    hide Reads, Fit, Tail, StartAt, NamesIn, NamesRegular, EntrySize, IsTail, Filled, Shown;
    if handle.atEnd {
      // Nothing remains.
      NothingMore(fs.direntries, ino, handle.State(), size);
      return Buf([]);
    }
    var room := Min(size, MAX_BUF_SIZE);
    var atBeginning := handle.nextName == None;
    if atBeginning && EntrySize(".") > room {
      DotTooLarge(fs.direntries, ino, size, handle.State());
      return Aborted;
    }
    // The scan does not deliver the directory itself.
    var pos := if atBeginning then EntrySize(".") else 0;
    var start := if atBeginning then "" else handle.nextName.value;
    StartAtEmpty(NamesIn(fs.direntries, ino));
    DirOpen(fs, ino, start);
    StartIsTail(NamesIn(fs.direntries, ino), start);
    var more, next := FillBuffer(fs, ino, room, pos);
    DirClose(fs);
    handle.nextName := next;
    handle.atEnd := next == None;
    if atBeginning {
      FirstRequest(fs.direntries, ino, size, more, next);
      // Without even the parent link, this is not a directory.
      return if more == [] && next == None then Err(ENOTDIR) else Buf([Dirent(".", ino, Directory)] + more);
    }
    NextRequest(fs.direntries, ino, start, size, more, next);
    return if more == [] then Aborted else Buf(more);
  }

  lemma StartAtEmpty(names: set<Name>)
    ensures StartAt(names, "") == names
  {
  }

  lemma FirstFit(e: Dirent, rest: seq<Dirent>, room: int)
    ensures Fit([e] + rest, room) == if EntrySize(e.name) > room then 0 else 1 + Fit(rest, room - EntrySize(e.name))
  {
    assert ([e] + rest)[1..] == rest;
  }

  // --- A whole enumeration

  /** The listing of a directory: itself, its parent, and then every other row once, with the inode and the type that the
      row has, in increasing order of names. */
  lemma ListingShape(de: Direntries, dir: int)
    requires Up(dir) in de
    ensures var list := Listing(de, dir);
            && |list| >= 2 && list[0] == Dirent(".", dir, Directory)
            && list[1] == Dirent("..", de[Up(dir)].ino, de[Up(dir)].ftype)
            && (forall i :: 2 <= i < |list| ==>
                  var r := Row(dir, list[i].name); r.name != "" && r in de && list[i] == Dirent(r.name, de[r].ino, de[r].ftype))
            && (forall i, j :: 2 <= i < j < |list| ==> Less(list[i].name, list[j].name))
            && (forall n :: n != "" && Row(dir, n) in de ==> exists i :: 2 <= i < |list| && list[i].name == n)
  {
    hide Less, Sorted, NamesIn, Shown;
    var names := NamesIn(de, dir);
    NamesInIs(de, dir);
    SortedShape(names);
    forall n | n in names && n != "" ensures exists i :: 2 <= i < |Listing(de, dir)| && Listing(de, dir)[i].name == n {
      ListedAt(de, dir, n);
    }
    ShownParent(de, dir);
    forall i | 2 <= i < |Listing(de, dir)|
      ensures Row(dir, Sorted(names)[i - 1]) in de && Listing(de, dir)[i].name == Sorted(names)[i - 1] != ""
      ensures var e := de[Row(dir, Sorted(names)[i - 1])]; Listing(de, dir)[i] == Dirent(Sorted(names)[i - 1], e.ino, e.ftype)
    {
      assert Sorted(names)[i - 1] in names;
      ShownRow(de, dir, Sorted(names)[i - 1]);
    }
  }

  lemma ShownRow(de: Direntries, dir: int, name: Name)
    requires Row(dir, name) in de && name != ""
    ensures Shown(de, dir, name) == Dirent(name, de[Row(dir, name)].ino, de[Row(dir, name)].ftype)
  {
  }

  lemma ShownParent(de: Direntries, dir: int)
    requires Up(dir) in de
    ensures Shown(de, dir, "") == Dirent("..", de[Up(dir)].ino, de[Up(dir)].ftype)
  {
  }

  lemma ShownName(de: Direntries, dir: int, name: Name)
    requires name != ""
    ensures Shown(de, dir, name).name == name
  {
  }

  lemma ListedAt(de: Direntries, dir: int, n: Name)
    requires "" in NamesIn(de, dir) && n in NamesIn(de, dir) && n != ""
    ensures exists i :: 2 <= i < |Listing(de, dir)| && Listing(de, dir)[i].name == n
  {
    hide Less, Sorted, NamesIn, Shown;
    var order := Sorted(NamesIn(de, dir));
    ParentFirst(NamesIn(de, dir));
    var k :| 0 <= k < |order| && order[k] == n;
    ShownName(de, dir, n);
    assert Listing(de, dir)[k + 1] == Shown(de, dir, n);
  }

  lemma SortedShape(names: set<Name>)
    requires "" in names
    ensures var s := Sorted(names);
            && |s| > 0 && s[0] == "" && (forall i :: 1 <= i < |s| ==> s[i] != "")
            && forall i, j :: 0 <= i < j < |s| ==> Less(s[i], s[j])
  {
    hide Less, Sorted;
    ParentFirst(names);
    forall i, j | 0 <= i < j < |names| ensures Less(Sorted(names)[i], Sorted(names)[j]) {
      SortedIncreasing(names, i, j);
    }
    forall i | 1 <= i < |names| ensures Sorted(names)[i] != "" {
      LessIrreflexive("");
      SortedIncreasing(names, 0, i);
    }
  }

  lemma ParentFirst(names: set<Name>)
    requires "" in names
    ensures Sorted(names) != [] && Sorted(names)[0] == ""
  {
    LessTotal("", Least(names));
  }

  /** Requests on one open handle, during which the directory does not change. */
  ghost predicate Requests(de: Direntries, dir: int, sizes: seq<nat>, replies: seq<Reply>, handles: seq<Handle>) {
    && |handles| == |sizes| + 1 == |replies| + 1 && handles[0] == OPENED
    && forall i :: 0 <= i < |sizes| ==> Reads(de, dir, handles[i], sizes[i], replies[i], handles[i + 1])
  }

  /** Every buffer has room for the next entry, if there is one. */
  ghost predicate RoomForNext(de: Direntries, dir: int, sizes: seq<nat>, handles: seq<Handle>)
    requires |handles| == |sizes| + 1
  {
    forall i :: 0 <= i < |sizes| ==>
      var rest := Remaining(de, dir, handles[i]);
      rest != [] ==> EntrySize(rest[0].name) <= Min(sizes[i], MAX_BUF_SIZE)
  }

  /** All entries delivered in the first n replies. */
  function Delivered(replies: seq<Reply>, n: nat): seq<Dirent>
    requires n <= |replies|
  {
    if n == 0 then []
    else Delivered(replies, n - 1) + match replies[n - 1] case Buf(entries) => entries case _ => []
  }

  lemma ReadsStep(de: Direntries, dir: int, h: Handle, size: nat, reply: Reply, h': Handle)
    requires Reads(de, dir, h, size, reply, h') && NamesIn(de, dir) != {} && (h.atEnd <==> Remaining(de, dir, h) == [])
    requires var rest := Remaining(de, dir, h); rest != [] ==> EntrySize(rest[0].name) <= Min(size, MAX_BUF_SIZE)
    ensures reply.Buf? && reply.entries + Remaining(de, dir, h') == Remaining(de, dir, h)
    ensures reply.entries == [] <==> Remaining(de, dir, h) == []
    ensures h'.atEnd <==> Remaining(de, dir, h') == []
  {
    hide EntrySize, Tail, NamesIn, StartAt;
  }

  /** However the buffers are sized, the replies together are an initial part of one listing, and each of them makes
      progress until the listing is complete. */
  lemma {:induction false} ChunkedListing(de: Direntries, dir: int, sizes: seq<nat>, replies: seq<Reply>, handles: seq<Handle>, n: nat)
    requires Requests(de, dir, sizes, replies, handles) && RoomForNext(de, dir, sizes, handles) && NamesIn(de, dir) != {} && n <= |sizes|
    ensures Delivered(replies, n) + Remaining(de, dir, handles[n]) == Listing(de, dir)
    ensures |Delivered(replies, n)| >= Min(n, |Listing(de, dir)|)
    ensures handles[n].atEnd <==> Remaining(de, dir, handles[n]) == []
    ensures forall i :: 0 <= i < n ==> replies[i].Buf?
  {
    hide Reads, NamesIn, EntrySize, Tail, Remaining;
    if n == 0 {
      assert Remaining(de, dir, OPENED) == Listing(de, dir) by { OpenedRemaining(de, dir); }
    } else {
      ChunkedListing(de, dir, sizes, replies, handles, n - 1);
      ReadsStep(de, dir, handles[n - 1], sizes[n - 1], replies[n - 1], handles[n]);
    }
  }

  lemma OpenedRemaining(de: Direntries, dir: int)
    ensures Remaining(de, dir, OPENED) == Listing(de, dir) != []
  {
  }

  /** After enough requests the whole listing has been delivered, and all further replies are empty. */
  lemma ChunkedComplete(de: Direntries, dir: int, sizes: seq<nat>, replies: seq<Reply>, handles: seq<Handle>, n: nat)
    requires Requests(de, dir, sizes, replies, handles) && RoomForNext(de, dir, sizes, handles) && NamesIn(de, dir) != {}
    requires |Listing(de, dir)| <= n <= |sizes|
    ensures Delivered(replies, n) == Listing(de, dir)
    ensures n < |sizes| ==> replies[n] == Buf([])
  {
    hide NamesIn, EntrySize, Tail, Remaining, Listing;
    ChunkedListing(de, dir, sizes, replies, handles, n);
    assert Remaining(de, dir, handles[n]) == [];
    if n < |sizes| {
      assert Reads(de, dir, handles[n], sizes[n], replies[n], handles[n + 1]);
    }
  }

  /** Between two requests, entries may disappear. A request that resumes aborts exactly when none of the names from the
      remembered one on is left, or the first that is left does not fit. */
  lemma ResumeAbortsIff(de: Direntries, dir: int, start: Name, size: nat, reply: Reply, h': Handle)
    requires Reads(de, dir, Handle(Some(start), false), size, reply, h')
    ensures reply == Aborted <==>
              var left := StartAt(NamesIn(de, dir), start);
              left == {} || EntrySize(Shown(de, dir, Least(left)).name) > Min(size, MAX_BUF_SIZE)
  {
    hide NamesIn, StartAt, EntrySize, Shown;
    TailStep(de, dir, StartAt(NamesIn(de, dir), start), Min(size, MAX_BUF_SIZE));
  }

  // --- An enumeration while the directory changes

  /** Requests on one open handle. Between them, the directory may change in any way. */
  ghost predicate Rereads(des: seq<Direntries>, dir: int, sizes: seq<nat>, replies: seq<Reply>, handles: seq<Handle>) {
    && |handles| == |sizes| + 1 == |replies| + 1 == |des| + 1 && handles[0] == OPENED
    && forall i :: 0 <= i < |sizes| ==>
         NamesRegular(NamesIn(des[i], dir)) && Reads(des[i], dir, handles[i], sizes[i], replies[i], handles[i + 1])
  }

  /** The handle has passed the place of a name in the order. */
  predicate Passed(h: Handle, x: Name) { h.atEnd || (h.nextName.Some? && Less(x, Stored(h.nextName.value))) }

  /** What a handle that has delivered something remembers: a name that an entry can have. */
  predicate Resumable(h: Handle) {
    h.atEnd || (h.nextName.Some? && (h.nextName.value == ".." || KindOf(h.nextName.value) == NameRegular))
  }

  ghost predicate Increasing(entries: seq<Dirent>) {
    forall i, j :: 0 <= i < j < |entries| ==> Less(Stored(entries[i].name), Stored(entries[j].name))
  }

  predicate Has(entries: seq<Dirent>, x: Name) { exists i :: 0 <= i < |entries| && Stored(entries[i].name) == x }

  /** The stored names of the entries that a scan delivers. */
  lemma TailNames(de: Direntries, dir: int, left: set<Name>)
    requires NamesRegular(left)
    ensures var rest, s := Tail(de, dir, left), Sorted(left);
            |rest| == |s| && forall i :: 0 <= i < |rest| ==> rest[i].name == (if s[i] == "" then ".." else s[i]) && Stored(rest[i].name) == s[i] && s[i] in left
  {
    hide Sorted;
    assert KindOf("..") == NameDotDot;
  }

  lemma TailTells(de: Direntries, dir: int, left: set<Name>)
    requires NamesRegular(left) && left <= NamesIn(de, dir)
    ensures var rest := Tail(de, dir, left); forall i :: 0 <= i < |rest| ==> Tells(de, dir, rest[i])
  {
    NamesInIs(de, dir);
    KindOfIs("..");
    hide Sorted, KindOf, Shown, NamesIn, Tells, Stored;
    var s := Sorted(left);
    forall i | 0 <= i < |s| ensures Tells(de, dir, Shown(de, dir, s[i])) {
      assert s[i] in left;
      ShownTells(de, dir, s[i]);
    }
  }

  /** A scan that delivers the first k of the names that are left passes exactly those. */
  lemma Segment(de: Direntries, dir: int, left: set<Name>, k: nat)
    requires NamesRegular(left) && k <= |Tail(de, dir, left)|
    ensures var rest := Tail(de, dir, left); var h := After(rest, k);
            && Increasing(rest[..k]) && Resumable(h)
            && (forall i :: 0 <= i < k ==> Stored(rest[i].name) in left && Passed(h, Stored(rest[i].name)))
            && (forall x :: x in left && Passed(h, x) ==> Has(rest[..k], x))
            && (h.nextName.Some? ==> Stored(h.nextName.value) in left)
            && (left <= NamesIn(de, dir) ==> forall i :: 0 <= i < k ==> Tells(de, dir, rest[i]))
  {
    hide Tail, Sorted, Less, KindOf, After, Stored, NamesIn, Tells;
    TailNames(de, dir, left);
    if left <= NamesIn(de, dir) { TailTells(de, dir, left); }
    var rest, s := Tail(de, dir, left), Sorted(left);
    forall i, j | 0 <= i < j < |s| ensures Less(s[i], s[j]) {
      SortedIncreasing(left, i, j);
    }
    SegmentNames(rest, s, k);
    forall x | x in left && Passed(After(rest, k), x) ensures Has(rest[..k], x) {
      SegmentHas(rest, s, k, x);
    }
    AfterIs(rest, k);
    if k < |rest| { DotDotOrRegular(left, rest[k].name); }
  }

  lemma AfterIs(rest: seq<Dirent>, k: nat)
    ensures After(rest, k) == if k < |rest| then Handle(Some(rest[k].name), false) else Handle(None, true)
  {
  }

  lemma DotDotOrRegular(left: set<Name>, name: Name)
    requires NamesRegular(left) && Stored(name) in left && (Stored(name) == "" ==> name == "..")
    ensures name == ".." || KindOf(name) == NameRegular
  {
    hide KindOf;
  }

  lemma SegmentNames(rest: seq<Dirent>, s: seq<Name>, k: nat)
    requires |rest| == |s| && k <= |rest| && forall i, j :: 0 <= i < j < |s| ==> Less(s[i], s[j])
    requires forall i :: 0 <= i < |rest| ==> Stored(rest[i].name) == s[i]
    ensures Increasing(rest[..k]) && forall i :: 0 <= i < k ==> Passed(After(rest, k), Stored(rest[i].name))
  {
    hide Less, Stored;
  }

  lemma SegmentHas(rest: seq<Dirent>, s: seq<Name>, k: nat, x: Name)
    requires |rest| == |s| && k <= |rest| && forall i, j :: 0 <= i < j < |s| ==> Less(s[i], s[j])
    requires forall i :: 0 <= i < |rest| ==> Stored(rest[i].name) == s[i]
    requires x in s && Passed(After(rest, k), x)
    ensures Has(rest[..k], x)
  {
    hide Less, Stored;
    var j :| 0 <= j < |s| && s[j] == x;
    if k <= j { LessNotAfter(s[k], x); }
    assert Stored(rest[..k][j].name) == x;
  }

  /** A scan that resumes at a name begins with the names that have not been passed. */
  lemma StartsAtNotPassed(names: set<Name>, h: Handle)
    requires Resumable(h) && !h.atEnd
    ensures forall x :: x in StartAt(names, h.nextName.value) <==> x in names && !Passed(h, x)
  {
    assert KindOf("..") == NameDotDot;
  }

  /** One request that resumes delivers, in order, all names that it passes and that were not passed before. */
  lemma Resumes(de: Direntries, dir: int, h: Handle, size: nat, reply: Reply, h': Handle)
    requires Reads(de, dir, h, size, reply, h') && reply.Buf? && Resumable(h) && NamesRegular(NamesIn(de, dir))
    ensures Resumable(h') && Increasing(reply.entries)
    ensures forall e :: e in reply.entries ==> !Passed(h, Stored(e.name)) && Passed(h', Stored(e.name)) && Tells(de, dir, e)
    ensures forall x :: Row(dir, x) in de && Passed(h', x) && !Passed(h, x) ==> Has(reply.entries, x)
    ensures forall x :: Passed(h, x) ==> Passed(h', x)
  {
    if !h.atEnd {
      var names := NamesIn(de, dir);
      var left := StartAt(names, h.nextName.value);
      NamesInIs(de, dir);
      StartsAtNotPassed(names, h);
      var rest := Tail(de, dir, left);
      hide NamesIn, StartAt, Tail, KindOf, Less, EntrySize, Tells, Stored;
      Segment(de, dir, left, |reply.entries|);
      forall x | Passed(h, x) ensures Passed(h', x) {
        if h'.nextName.Some? { PassedOn(x, Stored(h.nextName.value), Stored(h'.nextName.value)); }
      }
    }
  }

  lemma PassedOn(x: Name, a: Name, b: Name)
    requires Less(x, a) && !Less(b, a)
    ensures Less(x, b)
  {
    LessTotal(a, b);
    if Less(a, b) { LessTrans(x, a, b); }
  }

  /** The first request delivers the directory itself, and then all names that it passes. */
  lemma Begins(de: Direntries, dir: int, size: nat, reply: Reply, h': Handle)
    requires Reads(de, dir, OPENED, size, reply, h') && reply.Buf? && NamesRegular(NamesIn(de, dir))
    ensures reply.entries != [] && reply.entries[0] == Dirent(".", dir, Directory)
    ensures Resumable(h') && Increasing(reply.entries[1..])
    ensures forall e :: e in reply.entries[1..] ==> Passed(h', Stored(e.name)) && Tells(de, dir, e)
    ensures forall x :: Row(dir, x) in de && Passed(h', x) ==> Has(reply.entries[1..], x)
  {
    NamesInIs(de, dir);
    hide NamesIn, StartAt, Tail, KindOf, Less, EntrySize, Tells, Stored;
    var rest, k := Tail(de, dir, NamesIn(de, dir)), |reply.entries| - 1;
    SplitAfterFirst(Dirent(".", dir, Directory), rest, k);
    Segment(de, dir, NamesIn(de, dir), k);
    assert reply.entries[1..] == rest[..k];
  }

  /** However the directory changes between requests: apart from "." at the beginning, the names that are delivered
      increase strictly, each comes with the inode and the type that its row had at the request that delivered it, and a
      name that was always there is not left out. */
  lemma {:induction false} ChangingListing(des: seq<Direntries>, dir: int, sizes: seq<nat>, replies: seq<Reply>, handles: seq<Handle>, n: nat)
    requires Rereads(des, dir, sizes, replies, handles) && 0 < n <= |sizes| && forall i :: 0 <= i < n ==> replies[i].Buf?
    ensures Resumable(handles[n]) && Delivered(replies, n) != [] && Delivered(replies, n)[0] == Dirent(".", dir, Directory)
    ensures var d := Delivered(replies, n)[1..];
            && Increasing(d) && (forall e :: e in d ==> Passed(handles[n], Stored(e.name)))
            && (forall e :: e in d ==> exists i :: 0 <= i < n && e in replies[i].entries && Tells(des[i], dir, e))
            && forall x :: Passed(handles[n], x) && (forall i :: 0 <= i < n ==> Row(dir, x) in des[i]) ==> Has(d, x)
  {
    hide Reads, NamesIn, Stored, KindOf, Passed, Resumable, NamesRegular, Tells;
    if n == 1 {
      Begins(des[0], dir, sizes[0], replies[0], handles[1]);
      assert Delivered(replies, 1) == replies[0].entries;
    } else {
      ChangingListing(des, dir, sizes, replies, handles, n - 1);
      Resumes(des[n - 1], dir, handles[n - 1], sizes[n - 1], replies[n - 1], handles[n]);
      var before, entries := Delivered(replies, n - 1)[1..], replies[n - 1].entries;
      assert Delivered(replies, n)[1..] == before + entries;
      Joins(before, entries, handles[n - 1]);
    }
  }

  lemma Joins(before: seq<Dirent>, entries: seq<Dirent>, h: Handle)
    requires Increasing(before) && Increasing(entries) && Resumable(h)
    requires forall e :: e in before ==> Passed(h, Stored(e.name))
    requires forall e :: e in entries ==> !Passed(h, Stored(e.name))
    ensures Increasing(before + entries)
    ensures forall x :: Has(before, x) || Has(entries, x) ==> Has(before + entries, x)
  {
    hide Less, Stored, KindOf;
    var all := before + entries;
    forall i, j | 0 <= i < j < |all| ensures Less(Stored(all[i].name), Stored(all[j].name)) {
      if i < |before| <= j {
        assert all[i] in before && all[j] in entries;
        PassedOn(Stored(all[i].name), Stored(h.nextName.value), Stored(all[j].name));
      }
    }
    forall x | Has(before, x) || Has(entries, x) ensures Has(all, x) {
      if i :| 0 <= i < |before| && Stored(before[i].name) == x {
        assert Stored(all[i].name) == x;
      } else {
        var i :| 0 <= i < |entries| && Stored(entries[i].name) == x;
        assert Stored(all[|before| + i].name) == x;
      }
    }
  }

  /** The j-th of the entries, which begin with ".", is the only one that is stored as x. */
  ghost predicate OnlyAt(entries: seq<Dirent>, x: Name, j: int) {
    && 0 < j < |entries| && Stored(entries[j].name) == x
    && forall i :: 0 < i < |entries| && Stored(entries[i].name) == x ==> i == j
  }

  lemma HasOnce(entries: seq<Dirent>, x: Name)
    requires entries != [] && Increasing(entries[1..]) && Has(entries[1..], x)
    ensures exists j :: OnlyAt(entries, x, j)
  {
    hide Stored, Less;
    var k :| 0 <= k < |entries[1..]| && Stored(entries[1..][k].name) == x;
    LessNotAfter(x, x);
    forall i | 0 < i < |entries| && Stored(entries[i].name) == x ensures i == k + 1 {
      assert entries[i] == entries[1..][i - 1];
    }
    assert OnlyAt(entries, x, k + 1);
  }

  /** So a name that is there throughout an enumeration is delivered exactly once. */
  lemma DeliveredOnce(des: seq<Direntries>, dir: int, sizes: seq<nat>, replies: seq<Reply>, handles: seq<Handle>, n: nat, x: Name)
    requires Rereads(des, dir, sizes, replies, handles) && 0 < n <= |sizes| && forall i :: 0 <= i < n ==> replies[i].Buf?
    requires handles[n].atEnd && forall i :: 0 <= i < n ==> Row(dir, x) in des[i]
    ensures exists j :: OnlyAt(Delivered(replies, n), x, j)
  {
    hide Reads, NamesIn, Stored, Less, NamesRegular, Delivered, Has, Increasing, OnlyAt, Tells;
    ChangingListing(des, dir, sizes, replies, handles, n);
    HasOnce(Delivered(replies, n), x);
  }
}
