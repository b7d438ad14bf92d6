/** How a flat byte sequence is laid out over the rows of the filedata table. */
module Blocks {
  import opened Schema
  import Timestamps

  // --- Arithmetic on block boundaries

  // Proofs that only need the order of these values hide the nonlinear definitions.

  /** The file offset where block i starts. */
  function Start(i: int, b: int): int { i * b }

  /** The block that offset x falls in. */
  function IndexOf(x: int, b: int): int
    requires 0 < b
  {
    x / b
  }

  /** How many blocks x bytes occupy. */
  function CountOf(x: int, b: int): int
    requires 0 < b
  {
    (x + b - 1) / b
  }

  /** The start of the block that offset x falls in. */
  function RoundDown(x: int, b: int): int
    requires 0 < b
  {
    x - x % b
  }

  lemma {:induction false} Ordered(i: int, j: int, b: int)
    requires 0 < b && 0 <= i < j
    ensures 0 <= Start(i, b) && Start(i, b) + b <= Start(j, b)
    decreases j
  {
    assert j * b == (j - 1) * b + b;
    if i + 1 < j { Ordered(i, j - 1, b); } else if i > 0 { Ordered(0, i, b); }
  }

  lemma NextStart(i: int, b: int)
    requires 0 < b && 0 <= i
    ensures 0 <= Start(i, b) && Start(i + 1, b) == Start(i, b) + b
  {
  }

  lemma IndexBounds(x: int, b: int)
    requires 0 <= x && 0 < b
    ensures 0 <= IndexOf(x, b) && 0 <= Start(IndexOf(x, b), b) <= x < Start(IndexOf(x, b), b) + b
    ensures RoundDown(x, b) == Start(IndexOf(x, b), b)
  {
  }

  lemma CountBounds(x: int, b: int)
    requires 0 <= x && 0 < b
    ensures var n := CountOf(x, b); 0 <= n && x <= Start(n, b) < x + b && (n > 0 ==> Start(n - 1, b) < x)
  {
    IndexBounds(x + b - 1, b);
    assert (CountOf(x, b) - 1) * b == CountOf(x, b) * b - b;
  }

  lemma IndexUnique(x: int, i: int, b: int)
    requires 0 < b && 0 <= i && 0 <= Start(i, b) <= x < Start(i, b) + b
    ensures IndexOf(x, b) == i
  {
    hide Start, IndexOf, RoundDown;
    var q := IndexOf(x, b);
    IndexBounds(x, b);
    if q < i { Ordered(q, i, b); }
    if i < q { Ordered(i, q, b); }
  }

  /** Which blocks a file of n bytes has, and which of them are full. */
  lemma BlockRange(n: int, b: int, i: int)
    requires 0 <= n && 0 < b && 0 <= i
    ensures 0 <= Start(i, b)
    ensures i < CountOf(n, b) <==> Start(i, b) < n
    ensures i < IndexOf(n, b) <==> Start(i, b) + b <= n
    ensures i < CountOf(n, b) ==> i <= IndexOf(n, b)
    ensures i == IndexOf(n, b) ==> Start(i, b) == RoundDown(n, b)
  {
    var c, q := CountOf(n, b), IndexOf(n, b);
    CountBounds(n, b);
    IndexBounds(n, b);
    hide Start, IndexOf, CountOf, RoundDown;
    if 0 <= i < c - 1 { Ordered(i, c - 1, b); }
    if c < i { Ordered(c, i, b); }
    if i < q { Ordered(i, q, b); }
    if q < i { Ordered(q, i, b); }
    Ordered(i, i + 1, b);
  }

  lemma SliceOfSlice(s: seq<byte>, lo: int, hi: int, n: int)
    requires 0 <= lo <= hi <= |s| && 0 <= n <= hi - lo
    ensures s[lo..hi][..n] == s[lo..lo + n]
  {
  }

  // --- Layout

  /** The i-th block of a file, which is empty past the end. */
  function Block(s: seq<byte>, b: int, i: int): seq<byte>
    requires 0 < b
  {
    Slice(s, Start(i, b), Start(i, b) + b)
  }

  /** The bytes of s at offsets lo up to hi, as far as there are any. */
  function Slice(s: seq<byte>, lo: int, hi: int): seq<byte>
    requires lo <= hi
  {
    s[Clip(lo, |s|)..Clip(hi, |s|)]
  }

  function Clip(x: int, n: nat): nat { if x < 0 then 0 else if x > n then n else x }

  lemma PrefixBlock(s: seq<byte>, n: nat, b: int, i: int)
    requires 0 < b && 0 <= i && 0 <= Start(i, b) <= n <= |s|
    ensures Start(i, b) + b <= n ==> Block(s[..n], b, i) == Block(s, b, i)
    ensures n < Start(i, b) + b ==> Block(s[..n], b, i) == s[Start(i, b)..n]
  {
    hide Start;
  }

  /** The filedata rows of `ino` with lo <= idx < hi are exactly the blocks of s in that range. */
  ghost predicate Holds(fd: Filedata, ino: int, b: int, s: seq<byte>, lo: int, hi: int)
    requires 0 < b
  {
    forall i :: lo <= i < hi && 0 <= i ==>
      (Blk(ino, i) in fd <==> Start(i, b) < |s|) && (Blk(ino, i) in fd ==> fd[Blk(ino, i)] == Block(s, b, i))
  }

  /** The filedata rows of `ino` are exactly the blocks of s. */
  ghost predicate Represents(fd: Filedata, ino: int, b: int, s: seq<byte>)
    requires 0 < b
  {
    forall i ::
      (Blk(ino, i) in fd <==> 0 <= i && Start(i, b) < |s|) && (Blk(ino, i) in fd ==> fd[Blk(ino, i)] == Block(s, b, i))
  }

  lemma RepresentsHolds(fd: Filedata, ino: int, b: int, s: seq<byte>, lo: int, hi: int)
    requires 0 < b && Represents(fd, ino, b, s)
    ensures Holds(fd, ino, b, s, lo, hi)
  {
    hide Start, Block;
  }

  /** The schema's own description of the rows of a file of `size` bytes. */
  ghost predicate Layout(fd: Filedata, ino: int, size: int, b: int)
    requires 0 < b
  {
    && (forall i :: Blk(ino, i) in fd <==> 0 <= i && i < CountOf(size, b))
    && (forall i :: Blk(ino, i) in fd && i < IndexOf(size, b) ==> |fd[Blk(ino, i)]| == b)
    && (forall i :: Blk(ino, i) in fd && i >= IndexOf(size, b) ==> i == IndexOf(size, b) && |fd[Blk(ino, i)]| == size % b)
  }

  /** Rows of other files are the same in both tables. */
  ghost predicate SameElsewhere(fd: Filedata, fd': Filedata, ino: int) {
    forall k: Blk :: k.ino != ino ==> (k in fd <==> k in fd') && (k in fd ==> fd[k] == fd'[k])
  }

  lemma ElsewhereTrans(fd: Filedata, fd': Filedata, fd'': Filedata, ino: int)
    requires SameElsewhere(fd, fd', ino) && SameElsewhere(fd', fd'', ino)
    ensures SameElsewhere(fd, fd'', ino)
  {
  }

  /** The first n rows of a file, joined together. */
  function Joined(fd: Filedata, ino: int, n: nat): seq<byte>
    requires forall i :: 0 <= i < n ==> Blk(ino, i) in fd
  {
    if n == 0 then [] else Joined(fd, ino, n - 1) + fd[Blk(ino, n - 1)]
  }

  lemma SliceJoin(s: seq<byte>, k: nat, b: nat)
    ensures Slice(s, 0, k) + Slice(s, k, k + b) == Slice(s, 0, k + b)
  {
  }

  lemma {:induction false} JoinedBlocks(fd: Filedata, ino: int, b: int, s: seq<byte>, n: nat)
    requires 0 < b && Represents(fd, ino, b, s) && 0 <= Start(n, b)
    requires forall i :: 0 <= i < n ==> Blk(ino, i) in fd
    ensures Joined(fd, ino, n) == Slice(s, 0, Start(n, b))
  {
    hide Slice;
    if n == 0 {
      assert Start(n, b) == 0;
      assert Slice(s, 0, 0) == [] by { SliceWhole(s, 0); }
    } else {
      NextStart(n - 1, b);
      hide Start;
      JoinedBlocks(fd, ino, b, s, n - 1);
      assert fd[Blk(ino, n - 1)] == Block(s, b, n - 1);
      SliceJoin(s, Start(n - 1, b), b);
    }
  }

  lemma SliceWhole(s: seq<byte>, n: nat)
    ensures n == 0 ==> Slice(s, 0, n) == []
    ensures n >= |s| ==> Slice(s, 0, n) == s
  {
  }

  /** A table represents at most one sequence: all its rows joined in index order. */
  lemma RepresentsJoined(fd: Filedata, ino: int, b: int, s: seq<byte>)
    requires 0 < b && Represents(fd, ino, b, s)
    ensures var n := CountOf(|s|, b); n >= 0 && (forall i :: 0 <= i < n ==> Blk(ino, i) in fd) && Joined(fd, ino, n) == s
  {
    var n := CountOf(|s|, b);
    CountBounds(|s|, b);
    hide Start, CountOf, Block, Slice;
    forall i | 0 <= i < n ensures Blk(ino, i) in fd { BlockRange(|s|, b, i); }
    JoinedBlocks(fd, ino, b, s, n);
    SliceWhole(s, Start(n, b));
  }

  /** Representing some sequence of a given length is the same as having the layout of the schema. */
  lemma RepresentsLayout(fd: Filedata, ino: int, b: int, s: seq<byte>)
    requires 0 < b && Represents(fd, ino, b, s)
    ensures Layout(fd, ino, |s|, b)
  {
    forall i
      ensures Blk(ino, i) in fd <==> 0 <= i < CountOf(|s|, b)
      ensures Blk(ino, i) in fd ==>
                if i < IndexOf(|s|, b) then |fd[Blk(ino, i)]| == b
                else i == IndexOf(|s|, b) && |fd[Blk(ino, i)]| == |s| - RoundDown(|s|, b)
    {
      if i >= 0 { BlockRange(|s|, b, i); }
      hide Start, IndexOf, CountOf, RoundDown;
    }
    hide Start, IndexOf, CountOf, Block;
  }

  /** Length of the i-th row of a laid-out file. */
  lemma RowLength(fd: Filedata, ino: int, size: int, b: int, i: int)
    requires 0 <= size && 0 < b && Layout(fd, ino, size, b) && 0 <= i < CountOf(size, b)
    ensures Blk(ino, i) in fd && 0 <= Start(i, b) < size && |fd[Blk(ino, i)]| == Min(b, size - Start(i, b))
  {
    BlockRange(size, b, i);
    hide Start, IndexOf, CountOf;
  }

  lemma {:induction false} JoinedLength(fd: Filedata, ino: int, size: int, b: int, n: nat)
    requires 0 <= size && 0 < b && Layout(fd, ino, size, b) && n <= CountOf(size, b)
    ensures |Joined(fd, ino, n)| == Min(Start(n, b), size)
  {
    if n > 0 {
      RowLength(fd, ino, size, b, n - 1);
      NextStart(n - 1, b);
      JoinedLength(fd, ino, size, b, n - 1);
    }
  }

  /** Joining rows that are laid out as the schema says, and cutting the result into blocks, gives the rows back. */
  lemma {:induction false} JoinedBlock(fd: Filedata, ino: int, size: int, b: int, n: nat, i: nat)
    requires 0 <= size && 0 < b && Layout(fd, ino, size, b) && i < n <= CountOf(size, b)
    ensures Block(Joined(fd, ino, n), b, i) == fd[Blk(ino, i)]
  {
    var before, last := Joined(fd, ino, n - 1), fd[Blk(ino, n - 1)];
    RowLength(fd, ino, size, b, n - 1);
    JoinedLength(fd, ino, size, b, n - 1);
    if i < n - 1 {
      JoinedBlock(fd, ino, size, b, n - 1, i);
      Ordered(i, n - 1, b);
    }
    hide Start, CountOf, IndexOf, Slice, Layout;
    SliceAppend(before, last, Start(i, b), b);
  }

  lemma SliceAppend(s: seq<byte>, t: seq<byte>, k: nat, b: nat)
    requires |t| <= b
    ensures k + b <= |s| ==> Slice(s + t, k, k + b) == Slice(s, k, k + b)
    ensures k == |s| ==> Slice(s + t, k, k + b) == t
  {
  }

  lemma LayoutRepresents(fd: Filedata, ino: int, size: int, b: int)
    requires 0 <= size && 0 < b && Layout(fd, ino, size, b)
    ensures CountOf(size, b) >= 0 && var s := Joined(fd, ino, CountOf(size, b)); |s| == size && Represents(fd, ino, b, s)
  {
    var n := CountOf(size, b);
    CountBounds(size, b);
    hide Start, IndexOf, CountOf, Block;
    JoinedLength(fd, ino, size, b, n);
    var s := Joined(fd, ino, n);
    forall i ensures (Blk(ino, i) in fd <==> 0 <= i && Start(i, b) < |s|)
                  && (Blk(ino, i) in fd ==> fd[Blk(ino, i)] == Block(s, b, i))
    {
      if i >= 0 { BlockRange(size, b, i); }
      if 0 <= i < n { JoinedBlock(fd, ino, size, b, n, i); }
    }
  }

  /** The bytes of a laid-out file. */
  function Bytes(fd: Filedata, ino: int, size: int, b: int): seq<byte>
    requires 0 <= size && 0 < b && Layout(fd, ino, size, b)
  {
    CountBounds(size, b);
    Joined(fd, ino, CountOf(size, b))
  }

  lemma BytesUnique(fd: Filedata, ino: int, b: int, s: seq<byte>)
    requires 0 < b && Represents(fd, ino, b, s)
    ensures Layout(fd, ino, |s|, b) && Bytes(fd, ino, |s|, b) == s
  {
    RepresentsLayout(fd, ino, b, s);
    RepresentsJoined(fd, ino, b, s);
  }

  lemma {:induction false} JoinedElsewhere(fd: Filedata, fd': Filedata, ino: int, n: nat)
    requires forall i :: 0 <= i < n ==> Blk(ino, i) in fd && Blk(ino, i) in fd' && fd[Blk(ino, i)] == fd'[Blk(ino, i)]
    ensures Joined(fd, ino, n) == Joined(fd', ino, n)
  {
    if n > 0 { JoinedElsewhere(fd, fd', ino, n - 1); }
  }

  // --- The flat file operations

  function Filled(n: nat, value: byte): seq<byte> { seq(n, _ => value) }

  function Zeros(n: nat): seq<byte> { Filled(n, 0) }

  /** Truncation, or extension with zeroes. */
  function Resized(s: seq<byte>, n: nat): (r: seq<byte>)
    ensures |r| == n
  {
    if n <= |s| then s[..n] else s + Zeros(n - |s|)
  }

  /** pwrite: the gap before `off` is zero-filled, and any old bytes after the written range stay. */
  function Overwritten(s: seq<byte>, off: nat, data: seq<byte>): (r: seq<byte>)
    ensures |r| == Max(|s|, off + |data|)
  {
    var base := if off > |s| then Resized(s, off) else s;
    base[..off] + data + if off + |data| < |base| then base[off + |data|..] else []
  }

  /** pwrite, byte by byte. */
  lemma OverwrittenAt(s: seq<byte>, off: nat, data: seq<byte>, k: nat)
    requires k < |Overwritten(s, off, data)|
    ensures Overwritten(s, off, data)[k] ==
              if off <= k < off + |data| then data[k - off] else if k < |s| then s[k] else 0
  {
  }

  /** Shrinking a file and growing it again never brings back what was cut off. */
  lemma ResizedTwice(s: seq<byte>, n: nat, m: nat, k: nat)
    requires k < m
    ensures Resized(Resized(s, n), m)[k] == if k < n && k < |s| then s[k] else 0
  {
  }

  // --- Rewriting a file block by block

  /** The rows of `ino` while `old` is being turned into `new` from left to right: blocks below i are done. */
  ghost predicate Patched(fd: Filedata, ino: int, b: int, oldBytes: seq<byte>, newBytes: seq<byte>, i: int)
    requires 0 < b
  {
    forall j ::
      && (Blk(ino, j) in fd <==> 0 <= j && (Start(j, b) < |oldBytes| || (j < i && Start(j, b) < |newBytes|)))
      && (Blk(ino, j) in fd && j < i ==> Start(j, b) <= |newBytes| && fd[Blk(ino, j)] == Block(newBytes, b, j))
      && (Blk(ino, j) in fd && j >= i ==> Start(j, b) <= |oldBytes| && fd[Blk(ino, j)] == Block(oldBytes, b, j))
  }

  lemma PatchStart(fd: Filedata, ino: int, b: int, oldBytes: seq<byte>, newBytes: seq<byte>, i: int)
    requires 0 < b && Represents(fd, ino, b, oldBytes)
    requires 0 <= i && Start(i, b) <= |oldBytes| <= |newBytes| && oldBytes[..Start(i, b)] == newBytes[..Start(i, b)]
    ensures Patched(fd, ino, b, oldBytes, newBytes, i)
  {
    forall j | 0 <= j < i ensures Start(j, b) + b <= |oldBytes| && Block(oldBytes, b, j) == Block(newBytes, b, j) {
      Ordered(j, i, b);
      assert Block(oldBytes, b, j) == oldBytes[..Start(i, b)][Start(j, b)..Start(j, b) + b];
      assert Block(newBytes, b, j) == newBytes[..Start(i, b)][Start(j, b)..Start(j, b) + b];
    }
  }

  lemma PatchStep(fd: Filedata, ino: int, b: int, oldBytes: seq<byte>, newBytes: seq<byte>, i: int)
    requires 0 < b && 0 <= i && Start(i, b) < |newBytes| && |oldBytes| <= |newBytes| && Patched(fd, ino, b, oldBytes, newBytes, i)
    ensures 0 <= Start(i, b)
    ensures Patched(fd[Blk(ino, i) := Block(newBytes, b, i)], ino, b, oldBytes, newBytes, i + 1)
  {
    NextStart(i, b);
    hide Start, Block;
  }

  lemma PatchEnd(fd: Filedata, ino: int, b: int, oldBytes: seq<byte>, newBytes: seq<byte>, i: int)
    requires 0 < b && 0 <= i && |oldBytes| <= |newBytes| && Patched(fd, ino, b, oldBytes, newBytes, i)
    requires |newBytes| <= Start(i, b) || (|oldBytes| == |newBytes| && oldBytes[Start(i, b)..] == newBytes[Start(i, b)..])
    ensures Represents(fd, ino, b, newBytes)
  {
    NextStart(i, b);
    hide Start, IndexOf, CountOf, RoundDown;
    forall j ensures (Blk(ino, j) in fd <==> 0 <= j && Start(j, b) < |newBytes|)
                  && (Blk(ino, j) in fd ==> fd[Blk(ino, j)] == Block(newBytes, b, j))
    {
      if j > i { Ordered(i, j, b); }
      if Blk(ino, j) in fd && j >= i && Start(j, b) < |newBytes| {
        SliceTail(oldBytes, newBytes, Start(i, b), Start(j, b), Min(Start(j, b) + b, |newBytes|));
      }
    }
  }

  lemma SliceTail(s: seq<byte>, t: seq<byte>, k: int, lo: int, hi: int)
    requires 0 <= k <= lo <= hi <= |s| == |t| && s[k..] == t[k..]
    ensures s[lo..hi] == t[lo..hi]
  {
    forall i | lo <= i < hi ensures s[i] == t[i] {
      assert s[i] == s[k..][i - k] && t[i] == t[k..][i - k];
    }
  }

  // --- The filedata table as a whole

  /** Every regular file is laid out as the schema says, and no row belongs to anything else. */
  ghost predicate FilesOk(t: Tables) {
    && (forall i :: i in t.metadata && t.metadata[i].ftype == Regular ==> FileOk(t, i))
    && (forall i :: i in t.metadata && t.metadata[i].ftype == Directory ==> t.metadata[i].size == 0)
    && (forall k :: k in t.filedata ==> k.ino in t.metadata && t.metadata[k.ino].ftype == Regular)
  }

  ghost predicate FileOk(t: Tables, ino: int)
    requires ino in t.metadata
  {
    var f := t.metadata[ino];
    0 <= f.size && 0 < f.blksize && Layout(t.filedata, ino, f.size, f.blksize)
  }

  predicate IsFile(t: Tables, ino: int) {
    ino in t.metadata && t.metadata[ino].ftype == Regular
  }

  /** What a reader sees in a file. */
  ghost function Contents(t: Tables, ino: int): (s: seq<byte>)
    requires IsFile(t, ino) && FileOk(t, ino)
    ensures |s| == t.metadata[ino].size
    ensures Represents(t.filedata, ino, t.metadata[ino].blksize, s)
  {
    var f := t.metadata[ino];
    LayoutRepresents(t.filedata, ino, f.size, f.blksize);
    Bytes(t.filedata, ino, f.size, f.blksize)
  }

  /** The one new state in which file `ino` contains s: all else is as before. */
  ghost predicate Rewrote(t: Tables, t': Tables, ino: int, s: seq<byte>, mtime: Timestamps.int64)
    requires IsFile(t, ino) && t.metadata[ino].blksize > 0
  {
    && t'.direntries == t.direntries
    && t'.metadata == t.metadata[ino := t.metadata[ino].(size := |s|, mtime := mtime)]
    && SameElsewhere(t.filedata, t'.filedata, ino)
    && Represents(t'.filedata, ino, t.metadata[ino].blksize, s)
  }

  lemma LayoutElsewhere(fd: Filedata, fd': Filedata, ino: int, i: int, size: int, b: int)
    requires SameElsewhere(fd, fd', ino) && i != ino && 0 <= size && 0 < b && Layout(fd, i, size, b)
    ensures Layout(fd', i, size, b) && Bytes(fd', i, size, b) == Bytes(fd, i, size, b)
  {
    forall j ensures (Blk(i, j) in fd <==> Blk(i, j) in fd') && (Blk(i, j) in fd ==> fd[Blk(i, j)] == fd'[Blk(i, j)]) {
      assert Blk(i, j).ino == i;
    }
    var n := CountOf(size, b);
    CountBounds(size, b);
    JoinedElsewhere(fd, fd', i, n);
  }

  lemma RewroteContents(t: Tables, t': Tables, ino: int, s: seq<byte>, mtime: Timestamps.int64)
    requires FilesOk(t) && IsFile(t, ino) && Rewrote(t, t', ino, s, mtime)
    ensures FilesOk(t') && IsFile(t', ino) && Contents(t', ino) == s
    ensures forall i :: i != ino ==> (IsFile(t, i) <==> IsFile(t', i)) && (IsFile(t, i) ==> Contents(t', i) == Contents(t, i))
  {
    BytesUnique(t'.filedata, ino, t.metadata[ino].blksize, s);
    forall i | i != ino && IsFile(t, i) ensures FileOk(t', i) && Contents(t', i) == Contents(t, i) {
      LayoutElsewhere(t.filedata, t'.filedata, ino, i, t.metadata[i].size, t.metadata[i].blksize);
    }
    forall k | k in t'.filedata ensures IsFile(t', k.ino) {
      if k.ino != ino { assert k in t.filedata; }
    }
  }

  /** Rewrote leaves no freedom: the contract of a write fixes every row of the new state. */
  lemma RewroteUnique(t: Tables, t1: Tables, t2: Tables, ino: int, s: seq<byte>, mtime: Timestamps.int64)
    requires IsFile(t, ino) && t.metadata[ino].blksize > 0
    requires Rewrote(t, t1, ino, s, mtime) && Rewrote(t, t2, ino, s, mtime)
    ensures t1 == t2
  {
    forall k: Blk ensures (k in t1.filedata <==> k in t2.filedata) && (k in t1.filedata ==> t1.filedata[k] == t2.filedata[k]) {
      if k.ino == ino { assert k == Blk(ino, k.idx); } else { assert k in t1.filedata <==> k in t.filedata; }
    }
    assert t1.filedata == t2.filedata;
  }
}
