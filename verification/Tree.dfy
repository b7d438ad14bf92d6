/** What the direntries table must look like: a tree of directories, with a correct link count on every inode. */
module Tree {
  import opened Schema

  predicate IsDir(t: Tables, ino: int) {
    ino in t.metadata && t.metadata[ino].ftype == Directory
  }

  /** The row that makes a directory part of the tree: its link to the parent. */
  function Up(dir: int): Row { Row(dir, "") }

  /** Rows join directories to inodes of the type that the row says, and their names are regular or "". */
  ghost predicate RowsOk(t: Tables) {
    forall r :: r in t.direntries ==>
      && IsDir(t, r.dir)
      && t.direntries[r].ino in t.metadata
      && t.metadata[t.direntries[r].ino].ftype == t.direntries[r].ftype
      && (r.name == "" ==> t.direntries[r].ftype == Directory)
      && (r.name == "" || KindOf(r.name) == NameRegular)
  }

  /** Root is its own parent, and only directories in the tree have entries. */
  ghost predicate ParentsOk(de: Direntries) {
    && Up(ROOT) in de && de[Up(ROOT)].ino == ROOT
    && forall r :: r in de ==> Up(r.dir) in de
  }

  /** r is a named entry for a directory. */
  predicate NamesDir(de: Direntries, r: Row) {
    r in de && r.name != "" && de[r].ftype == Directory
  }

  /** A named entry for a directory and that directory's link to its parent mirror each other, one to one. */
  ghost predicate NamesOk(de: Direntries) {
    && (forall r :: NamesDir(de, r) ==> de[r].ino != ROOT && Up(de[r].ino) in de && de[Up(de[r].ino)].ino == r.dir)
    && (forall r, q :: NamesDir(de, r) && NamesDir(de, q) && de[r].ino == de[q].ino ==> r == q)
    && (forall d :: Up(d) in de && d != ROOT ==> exists r :: NamesDir(de, r) && de[r].ino == d)
  }

  /** Following ".." from d leads to root in at most n steps. */
  ghost predicate Climbs(de: Direntries, d: int, n: nat)
    decreases n
  {
    d == ROOT || (n > 0 && Up(d) in de && Climbs(de, de[Up(d)].ino, n - 1))
  }

  ghost predicate ClimbsOk(de: Direntries) {
    forall d :: Up(d) in de ==> exists n: nat :: Climbs(de, d, n)
  }

  /** The rows that refer to an inode. */
  function Refs(de: Direntries, ino: int): set<Row> { set r | r in de && de[r].ino == ino }

  ghost predicate LinksOk(t: Tables) {
    forall i :: i in t.metadata ==> t.metadata[i].nlink == |Refs(t.direntries, i)|
  }

  ghost predicate TreeOk(t: Tables) {
    RowsOk(t) && ParentsOk(t.direntries) && NamesOk(t.direntries) && ClimbsOk(t.direntries)
  }

  // --- Counting references

  lemma RefsInsert(de: Direntries, r: Row, e: Entry, i: int)
    requires r !in de
    ensures |Refs(de[r := e], i)| == |Refs(de, i)| + if e.ino == i then 1 else 0
  {
    assert Refs(de[r := e], i) == Refs(de, i) + if e.ino == i then {r} else {};
  }

  lemma RefsDelete(de: Direntries, r: Row, i: int)
    requires r in de
    ensures |Refs(de - {r}, i)| == |Refs(de, i)| - if de[r].ino == i then 1 else 0
  {
    assert Refs(de, i) == Refs(de - {r}, i) + if de[r].ino == i then {r} else {};
  }

  lemma RefsMember(de: Direntries, r: Row)
    requires r in de
    ensures |Refs(de, de[r].ino)| > 0
  {
    assert r in Refs(de, de[r].ino);
  }

  // --- Which directories are linked

  /** A directory that some row refers to is part of the tree: either the row names it, or it is the parent of
      the row's directory, in which case it holds the name of that directory. */
  lemma ReferredIsLinked(t: Tables, r: Row)
    requires TreeOk(t) && r in t.direntries && IsDir(t, t.direntries[r].ino)
    ensures Up(t.direntries[r].ino) in t.direntries
  {
    var de := t.direntries;
    if r.name != "" {
      assert NamesDir(de, r);
    } else if r.dir != ROOT {
      assert r == Up(r.dir);
      var q :| NamesDir(de, q) && de[q].ino == r.dir;
      assert q.dir == de[r].ino;
    }
  }

  /** A directory is part of the tree exactly when its link count is positive. So the count, which is what the
      garbage collector looks at, tells the truth. */
  lemma LinkedIff(t: Tables, d: int)
    requires TreeOk(t) && LinksOk(t) && IsDir(t, d)
    ensures t.metadata[d].nlink > 0 <==> Up(d) in t.direntries
  {
    var de := t.direntries;
    if Up(d) in de && d == ROOT {
      RefsMember(de, Up(ROOT));
    } else if Up(d) in de {
      var r :| NamesDir(de, r) && de[r].ino == d;
      RefsMember(de, r);
    } else if t.metadata[d].nlink > 0 {
      var r :| r in Refs(de, d);
      ReferredIsLinked(t, r);
    }
  }

  // --- Climbing to the root

  /** A directory x that no other directory has as its parent can come and go without affecting anybody's climb. */
  lemma {:induction false} ClimbsLeaf(de: Direntries, de': Direntries, x: int, d: int, n: nat)
    requires Climbs(de, d, n) && d != x
    requires forall c :: c != x && Up(c) in de ==> Up(c) in de' && de'[Up(c)].ino == de[Up(c)].ino && de[Up(c)].ino != x
    ensures Climbs(de', d, n)
    decreases n
  {
    if d != ROOT { ClimbsLeaf(de, de', x, de[Up(d)].ino, n - 1); }
  }

  lemma {:induction false} ClimbsSame(de: Direntries, de': Direntries, d: int, n: nat)
    requires Climbs(de, d, n)
    requires forall c :: Up(c) in de ==> Up(c) in de' && de'[Up(c)].ino == de[Up(c)].ino
    ensures Climbs(de', d, n)
    decreases n
  {
    if d != ROOT { ClimbsSame(de, de', de[Up(d)].ino, n - 1); }
  }

  /** Following ".." from d meets m within n steps, possibly at d itself. */
  ghost predicate Meets(de: Direntries, d: int, m: int, n: nat)
    decreases n
  {
    d == m || (n > 0 && d != ROOT && Up(d) in de && Meets(de, de[Up(d)].ino, m, n - 1))
  }

  /** Whether a directory is below another does not depend on a leaf x. */
  lemma {:induction false} MeetsLeaf(de: Direntries, de': Direntries, x: int, d: int, m: int, n: nat)
    requires Meets(de, d, m, n) && d != x
    requires forall c :: c != x && Up(c) in de ==> Up(c) in de' && de'[Up(c)].ino == de[Up(c)].ino && de[Up(c)].ino != x
    ensures Meets(de', d, m, n)
    decreases n
  {
    if d != m { MeetsLeaf(de, de', x, de[Up(d)].ino, m, n - 1); }
  }

  lemma {:induction false} MeetsMore(de: Direntries, de': Direntries, d: int, m: int, n: nat)
    requires Meets(de, d, m, n)
    requires forall c :: Up(c) in de ==> Up(c) in de' && de'[Up(c)].ino == de[Up(c)].ino
    ensures Meets(de', d, m, n)
    decreases n
  {
    if d != m { MeetsMore(de, de', de[Up(d)].ino, m, n - 1); }
  }

  /** d is m, or a directory somewhere below m. */
  ghost predicate Within(de: Direntries, d: int, m: int) {
    exists n: nat :: Meets(de, d, m, n)
  }

  lemma WithinStep(de: Direntries, d: int, m: int)
    requires d != m && d != ROOT && Up(d) in de
    ensures Within(de, d, m) <==> Within(de, de[Up(d)].ino, m)
  {
    if n: nat :| Meets(de, d, m, n) { assert Meets(de, de[Up(d)].ino, m, n - 1); }
    if n: nat :| Meets(de, de[Up(d)].ino, m, n) { assert Meets(de, d, m, n + 1); }
  }

  lemma WithinSelf(de: Direntries, m: int)
    ensures Within(de, m, m)
  {
    assert Meets(de, m, m, 0);
  }

  /** No directory is below itself. */
  lemma {:induction false} NoCycle(de: Direntries, m: int, d: int, k: nat, n: nat)
    requires Climbs(de, d, n) && m != ROOT && Up(m) in de
    requires Meets(de, d, m, k) && Within(de, de[Up(m)].ino, m)
    ensures false
    decreases n
  {
    if d == m {
      var j: nat :| Meets(de, de[Up(m)].ino, m, j);
      NoCycle(de, m, de[Up(m)].ino, j, n - 1);
    } else {
      NoCycle(de, m, de[Up(d)].ino, k - 1, n - 1);
    }
  }

  /** Giving m the new parent p keeps every climb, as long as p is not within m. */
  lemma {:induction false} ClimbsMoved(de: Direntries, de': Direntries, m: int, p: int, d: int, n: nat)
    requires Climbs(de, d, n) && !Within(de, p, m) && (exists k: nat :: Climbs(de, p, k))
    requires Up(m) in de' && de'[Up(m)].ino == p
    requires forall c :: c != m && Up(c) in de ==> Up(c) in de' && de'[Up(c)].ino == de[Up(c)].ino
    ensures exists k: nat :: Climbs(de', d, k)
    decreases n
  {
    if d == ROOT {
      assert Climbs(de', d, 0);
    } else if d == m {
      var k: nat :| Climbs(de, p, k);
      ClimbsOutside(de, de', m, p, k);
      assert Climbs(de', m, k + 1);
    } else {
      ClimbsMoved(de, de', m, p, de[Up(d)].ino, n - 1);
      var k: nat :| Climbs(de', de[Up(d)].ino, k);
      assert Climbs(de', d, k + 1);
    }
  }

  lemma {:induction false} ClimbsOutside(de: Direntries, de': Direntries, m: int, d: int, n: nat)
    requires Climbs(de, d, n) && !Within(de, d, m)
    requires forall c :: c != m && Up(c) in de ==> Up(c) in de' && de'[Up(c)].ino == de[Up(c)].ino
    ensures Climbs(de', d, n)
    decreases n
  {
    if d != ROOT {
      if d == m { WithinSelf(de, m); }
      WithinStep(de, d, m);
      ClimbsOutside(de, de', m, de[Up(d)].ino, n - 1);
    }
  }

  /** Giving m a new parent within m makes a loop that has lost its way to the root. */
  lemma {:induction false} LoopNeverClimbs(de: Direntries, de': Direntries, m: int, p: int, d: int, n: nat)
    requires m != ROOT && Within(de, p, m) && Within(de, d, m)
    requires Up(m) in de' && de'[Up(m)].ino == p
    requires forall c :: c != m && Up(c) in de ==> Up(c) in de' && de'[Up(c)].ino == de[Up(c)].ino
    ensures !Climbs(de', d, n)
    decreases n
  {
    var k: nat :| Meets(de, d, m, k);
    if n > 0 {
      if d == m {
        LoopNeverClimbs(de, de', m, p, p, n - 1);
      } else {
        WithinStep(de, d, m);
        LoopNeverClimbs(de, de', m, p, de[Up(d)].ino, n - 1);
      }
    }
  }
}
