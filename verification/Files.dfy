/** Reading, writing and resizing files. */
module Files {
  import opened Timestamps
  import opened Schema
  import opened Blocks
  import opened Store

  predicate InInt64(x: int) { INT64_MIN as int <= x <= INT64_MAX as int }

  method Memcpy(dst: array<byte>, at: nat, src: seq<byte>)
    requires at + |src| <= dst.Length
    modifies dst
    ensures dst[..] == old(dst[..])[..at] + src + old(dst[..])[at + |src|..]
  {
    forall i | 0 <= i < |src| {
      dst[at + i] := src[i];
    }
  }

  method Memset(dst: array<byte>, value: byte, n: nat)
    requires n <= dst.Length
    modifies dst
    ensures dst[..] == Filled(n, value) + old(dst[n..])
  {
    forall i | 0 <= i < n {
      dst[i] := value;
    }
  }

  /** One row's share of a read: bytes [chunkOffset, chunkOffset + chunkSize) of the file, minus what lies before
      the requested offset. `done` bytes are in place already. */
  method CopyChunk(buf: array<byte>, data: seq<byte>, offset: int, chunkOffset: int, chunkSize: int, ghost size: int, ghost done: nat, ghost s: seq<byte>)
    requires 0 <= chunkOffset && 0 < chunkSize <= |data| && offset < chunkOffset + chunkSize <= |s|
    requires chunkOffset + chunkSize - offset <= size <= buf.Length
    requires data[..chunkSize] == s[chunkOffset..chunkOffset + chunkSize]
    requires 0 <= offset && done == Max(0, chunkOffset - offset)
    requires buf[..done] == s[offset..offset + done]
    modifies buf
    ensures buf[..chunkOffset + chunkSize - offset] == s[offset..chunkOffset + chunkSize]
    ensures buf[size..] == old(buf[size..])
  {
    ghost var end := chunkOffset + chunkSize;
    if chunkOffset < offset {
      // Only the first row may begin before `offset`, and then nothing is in place yet.
      Memcpy(buf, 0, data[offset - chunkOffset..chunkSize]);
      assert data[offset - chunkOffset..chunkSize] == data[..chunkSize][offset - chunkOffset..] == s[offset..end];
    } else {
      Memcpy(buf, chunkOffset - offset, data[..chunkSize]);
      assert s[offset..end] == s[offset..offset + done] + s[chunkOffset..end];
    }
  }

  method Calloc(n: nat) returns (block: array<byte>)
    ensures fresh(block) && block.Length == n && block[..] == Zeros(n)
  {
    block := new byte[n](_ => 0);
  }

  /** Copies bytes [offset, offset + size) of a file to the start of `buf`. It is enough that the rows of the
      blocks it touches are in order, because sqlfs_write reads while it is halfway through rewriting the file.
      It fails exactly when the file is too short. */
  method ReadFiledata(fs: Sqlfs, ino: int, blocksize: int, offset: int, size: int, buf: array<byte>, ghost s: seq<byte>)
    returns (err: Errno)
    requires 0 < blocksize && 0 <= offset && 0 <= size <= buf.Length
    requires size > 0 ==> InInt64(offset + size + blocksize - 1)
    requires Holds(fs.filedata, ino, blocksize, s, IndexOf(offset, blocksize), CountOf(offset + size, blocksize))
    modifies buf
    ensures err == if size == 0 || offset + size <= |s| then OK else EIO
    ensures err == OK && size > 0 ==> buf[..size] == s[offset..offset + size]
    ensures buf[size..] == old(buf[size..])
  {
    hide Start, IndexOf, CountOf, RoundDown, Block, Holds;
    if size == 0 {
      return OK;
    }
    var blockIdxBegin := IndexOf(offset, blocksize);
    var blockIdxEnd := CountOf(offset + size, blocksize);
    RangeBounds(offset, size, blocksize);
    var i := blockIdxBegin;
    ghost var done := 0;  // bytes of buf that are in place
    while i < blockIdxEnd
      invariant blockIdxBegin <= i <= blockIdxEnd
      invariant if i == blockIdxBegin then done == 0 else done == Min(Start(i, blocksize) - offset, size) && offset + done <= |s|
      invariant 0 <= done <= size && (done > 0 ==> buf[..done] == s[offset..offset + done])
      invariant buf[size..] == old(buf[size..])
    {
      var chunkOffset := Start(i, blocksize);
      var chunkSize := Min(offset + size - chunkOffset, blocksize);
      ChunkBounds(offset, size, blocksize, blockIdxBegin, blockIdxEnd, i);
      ChunkRow(fs.filedata, ino, blocksize, s, blockIdxBegin, blockIdxEnd, i);
      // The next row of the ordered scan is row i, unless that one is missing.
      if Blk(ino, i) !in fs.filedata {
        return EIO;
      }
      var data := fs.filedata[Blk(ino, i)];
      if |data| < chunkSize {
        return EIO;
      }
      SliceOfSlice(s, chunkOffset, Min(chunkOffset + blocksize, |s|), chunkSize);
      CopyChunk(buf, data, offset, chunkOffset, chunkSize, size, done, s);
      done := chunkOffset + chunkSize - offset;
      i := i + 1;
    }
    return OK;
  }

  /** A nonempty range touches at least one block. */
  lemma RangeBounds(offset: int, size: int, b: int)
    requires 0 < b && 0 <= offset && 0 < size
    ensures 0 <= IndexOf(offset, b) < CountOf(offset + size, b)
    ensures offset + size <= Start(CountOf(offset + size, b), b)
  {
    hide Start, IndexOf, CountOf, RoundDown;
    var end := CountOf(offset + size, b);
    IndexBounds(offset, b);
    CountBounds(offset + size, b);
    if end < IndexOf(offset, b) { Ordered(end, IndexOf(offset, b), b); }
  }

  /** Row i of a file whose rows are in order. */
  lemma ChunkRow(fd: Filedata, ino: int, b: int, s: seq<byte>, begin: int, end: int, i: int)
    requires 0 < b && 0 <= begin <= i < end && Holds(fd, ino, b, s, begin, end)
    ensures 0 <= Start(i, b) && (Blk(ino, i) in fd <==> Start(i, b) < |s|)
    ensures Blk(ino, i) in fd ==> fd[Blk(ino, i)] == s[Start(i, b)..Min(Start(i, b) + b, |s|)]
  {
    Ordered(i, i + 1, b);
  }

  /** Where chunk i of a range lies. */
  lemma ChunkBounds(offset: int, size: int, b: int, begin: int, end: int, i: int)
    requires 0 < b && 0 <= offset && 0 < size && InInt64(offset + size + b - 1)
    requires begin == IndexOf(offset, b) && end == CountOf(offset + size, b) && begin <= i < end
    ensures 0 <= Start(i, b) && Start(i, b) + b == Start(i + 1, b) && InInt64(Start(i, b) + b)
    ensures Start(i, b) < offset + size && offset < Start(i, b) + b
    ensures Start(i, b) < offset ==> i == begin
    ensures i == begin ==> Start(i, b) <= offset
    ensures i + 1 == end ==> offset + size <= Start(i, b) + b
    ensures i + 1 < end ==> Start(i, b) + b < offset + size
  {
    hide Start, IndexOf, CountOf, RoundDown;
    IndexBounds(offset, b);
    CountBounds(offset + size, b);
    NextStart(i, b);
    if i > begin { Ordered(begin, i, b); }
    if i + 1 < end {
      Ordered(i + 1, end, b);
      Ordered(i, end - 1, b);
      if i + 1 < end - 1 { Ordered(i + 1, end - 1, b); }
    }
  }

  /** The scratch block of a growing file at position pos: any old bytes from there on, then zeroes. */
  function Padded(s: seq<byte>, pos: nat, b: int): seq<byte>
    requires 0 < b && |s| - pos <= b
  {
    if pos < |s| then s[pos..] + Zeros(b - (|s| - pos)) else Zeros(b)
  }

  lemma GrowChunk(s: seq<byte>, n: nat, b: int, i: int, pos: nat, size: int)
    requires 0 < b && 0 <= i && |s| < n && pos == Start(i, b) < n && size == Min(n - pos, b) && |s| - pos <= b
    ensures |Padded(s, pos, b)| == b && Padded(s, pos, b)[..size] == Block(Resized(s, n), b, i)
  {
    hide Start, IndexOf, CountOf, RoundDown;
  }

  /** Clearing the old bytes of the first block leaves zeroes for all later ones. */
  lemma ClearedBlock(s: seq<byte>, pos: nat, p: nat, b: int)
    requires 0 < b && 0 < |s| - pos <= b && p >= |s|
    ensures |Padded(s, pos, b)| == b
    ensures Filled(|s| - pos, 0) + Padded(s, pos, b)[|s| - pos..] == Padded(s, p, b)
  {
  }

  lemma ZeroBlock(s: seq<byte>, pos: nat, p: nat, b: int)
    requires 0 < b && pos >= |s| && p >= |s|
    ensures Padded(s, pos, b) == Padded(s, p, b)
  {
  }

  /** The arithmetic of one round of the loop below. */
  lemma GrowBounds(oldSize: nat, newSize: nat, b: int, i: int, pos: nat, size: int)
    requires 0 < b && 0 <= i && pos == Min(Start(i, b), newSize) < newSize && oldSize - pos <= b
    requires size == Min(newSize - pos, b)
    ensures pos == Start(i, b) && 0 < size && IndexOf(pos, b) == i
    ensures pos + size == Min(Start(i + 1, b), newSize) && oldSize <= pos + b
  {
    NextStart(i, b);
    IndexUnique(pos, i, b);
  }

  /** Reads the old bytes of the block that file end `oldSize` falls in. */
  method ReadLastBlock(fs: Sqlfs, ino: int, oldSize: int, blksize: int, block: array<byte>, ghost s: seq<byte>) returns (err: Errno)
    requires 0 <= oldSize == |s| && 0 < blksize == block.Length && InInt64(oldSize + blksize - 1)
    requires Represents(fs.filedata, ino, blksize, s) && block[..] == Zeros(blksize)
    modifies block
    ensures err == OK && 0 <= RoundDown(oldSize, blksize) && oldSize - RoundDown(oldSize, blksize) <= blksize
    ensures block[..] == Padded(s, RoundDown(oldSize, blksize), blksize)
  {
    hide Start, IndexOf, CountOf, RoundDown, Block, Holds, Represents, Padded;
    var pos := RoundDown(oldSize, blksize);
    LastBlock(fs.filedata, ino, s, blksize);
    if pos < oldSize {
      err := ReadFiledata(fs, ino, blksize, pos, oldSize - pos, block, s);
      assert block[..] == block[..oldSize - pos] + block[oldSize - pos..];
      PaddedIs(s, pos, blksize, block[..]);
    } else {
      PaddedIs(s, pos, blksize, block[..]);
      return OK;
    }
  }

  lemma LastBlock(fd: Filedata, ino: int, s: seq<byte>, b: int)
    requires 0 < b && Represents(fd, ino, b, s)
    ensures 0 <= RoundDown(|s|, b) <= |s| && |s| - RoundDown(|s|, b) <= b
    ensures Holds(fd, ino, b, s, IndexOf(RoundDown(|s|, b), b), CountOf(RoundDown(|s|, b) + (|s| - RoundDown(|s|, b)), b))
  {
    hide Start, IndexOf, CountOf, RoundDown, Holds, Represents;
    IndexBounds(|s|, b);
    RepresentsHolds(fd, ino, b, s, IndexOf(RoundDown(|s|, b), b), CountOf(RoundDown(|s|, b) + (|s| - RoundDown(|s|, b)), b));
  }

  lemma PaddedIs(s: seq<byte>, pos: nat, b: int, block: seq<byte>)
    requires 0 < b && pos <= |s| && |s| - pos <= b && |block| == b
    requires block[..|s| - pos] == s[pos..] && block[|s| - pos..] == Zeros(b)[|s| - pos..]
    ensures block == Padded(s, pos, b)
  {
    assert block == block[..|s| - pos] + block[|s| - pos..];
  }

  lemma GrowStart(fd: Filedata, ino: int, s: seq<byte>, n: nat, b: int)
    requires 0 < b && |s| < n && Represents(fd, ino, b, s)
    ensures 0 <= IndexOf(|s|, b) && 0 <= RoundDown(|s|, b) == Min(Start(IndexOf(|s|, b), b), n)
    ensures |s| - RoundDown(|s|, b) <= b
    ensures Patched(fd, ino, b, s, Resized(s, n), IndexOf(|s|, b))
  {
    hide Start, IndexOf, RoundDown, Represents, Patched;
    IndexBounds(|s|, b);
    PatchStart(fd, ino, b, s, Resized(s, n), IndexOf(|s|, b));
  }

  /** Writes the block at `pos`, and prepares the scratch block for the next one. */
  method ExtendByBlock(fs: Sqlfs, ino: int, oldSize: int, newSize: int, blksize: int, pos: int, block: array<byte>, ghost s: seq<byte>, ghost i: int, ghost was: Filedata)
    returns (err: Errno, size: int)
    requires 0 <= oldSize == |s| < newSize && 0 < blksize && 0 <= i && 0 <= pos == Min(Start(i, blksize), newSize) < newSize
    requires |s| - pos <= blksize && block[..] == Padded(s, pos, blksize)
    requires Patched(fs.filedata, ino, blksize, s, Resized(s, newSize), i)
    requires SameElsewhere(was, fs.filedata, ino)
    modifies fs`filedata, block
    ensures err == OK || (err == EIO && fs.mayFail)
    ensures SameElsewhere(was, fs.filedata, ino)
    ensures err == OK ==> 0 < size && |s| - pos - size <= blksize && pos + size == Min(Start(i + 1, blksize), newSize)
    ensures err == OK ==> block[..] == Padded(s, pos + size, blksize)
    ensures err == OK ==> Patched(fs.filedata, ino, blksize, s, Resized(s, newSize), i + 1)
  {
    size := Min(newSize - pos, blksize);
    GrowBounds(oldSize, newSize, blksize, i, pos, size);
    GrowChunk(s, newSize, blksize, i, pos, size);
    PatchStep(fs.filedata, ino, blksize, s, Resized(s, newSize), i);
    hide Start, IndexOf, Block, Patched, Resized, Padded;
    err := fs.UpdateFiledata(ino, IndexOf(pos, blksize), block[..size]);
    if err != OK {
      return;
    }
    if pos < oldSize {
      // From here on the scratch block is all zeroes.
      ClearedBlock(s, pos, pos + size, blksize);
      Memset(block, 0, oldSize - pos);
    } else {
      ZeroBlock(s, pos, pos + size, blksize);
    }
  }

  /** Where growing starts: at the block boundary below the old size, with the scratch block that belongs there. */
  method StartExtension(fs: Sqlfs, ino: int, oldSize: int, newSize: int, blksize: int, ghost s: seq<byte>)
    returns (err: Errno, block: array<byte>, pos: int)
    requires 0 <= oldSize == |s| < newSize && 0 < blksize && InInt64(newSize + blksize - 1)
    requires Represents(fs.filedata, ino, blksize, s)
    ensures fresh(block) && err == OK && 0 <= IndexOf(oldSize, blksize)
    ensures 0 <= pos == Min(Start(IndexOf(oldSize, blksize), blksize), newSize) && |s| - pos <= blksize
    ensures block[..] == Padded(s, pos, blksize)
    ensures Patched(fs.filedata, ino, blksize, s, Resized(s, newSize), IndexOf(oldSize, blksize))
  {
    hide Start, IndexOf, CountOf, RoundDown, Represents, Patched, Resized, Padded, Zeros;
    block := Calloc(blksize);
    pos := RoundDown(oldSize, blksize);
    GrowStart(fs.filedata, ino, s, newSize, blksize);
    err := ReadLastBlock(fs, ino, oldSize, blksize, block, s);
  }

  method ExtendFiledata(fs: Sqlfs, ino: int, oldSize: int, newSize: int, blksize: int, ghost s: seq<byte>) returns (err: Errno)
    requires 0 <= oldSize == |s| < newSize && 0 < blksize && InInt64(newSize + blksize - 1)
    requires Represents(fs.filedata, ino, blksize, s)
    modifies fs`filedata
    ensures err == OK || (err == EIO && fs.mayFail)
    ensures SameElsewhere(old(fs.filedata), fs.filedata, ino)
    ensures err == OK ==> Represents(fs.filedata, ino, blksize, Resized(s, newSize))
  {
    assert SameElsewhere(fs.filedata, fs.filedata, ino);
    hide Start, IndexOf, Represents, Patched, Resized, Padded, SameElsewhere, InInt64;
    var block, pos;
    err, block, pos := StartExtension(fs, ino, oldSize, newSize, blksize, s);
    if err != OK {
      return;
    }
    ghost var i := IndexOf(oldSize, blksize);
    while pos < newSize
      invariant 0 <= i && 0 <= pos == Min(Start(i, blksize), newSize) && |s| - pos <= blksize
      invariant Patched(fs.filedata, ino, blksize, s, Resized(s, newSize), i)
      invariant SameElsewhere(old(fs.filedata), fs.filedata, ino)
      invariant block[..] == Padded(s, pos, blksize)
    {
      var size;
      err, size := ExtendByBlock(fs, ino, oldSize, newSize, blksize, pos, block, s, i, old(fs.filedata));
      if err != OK {
        return;
      }
      pos := pos + size;
      i := i + 1;
    }
    PatchEnd(fs.filedata, ino, blksize, s, Resized(s, newSize), i);
    return OK;
  }

  /** Dropping whole blocks and cutting the last one gives the layout of a prefix. */
  lemma CutRepresents(fd: Filedata, fd': Filedata, ino: int, b: int, s: seq<byte>, n: nat)
    requires 0 < b && n <= |s| && Represents(fd, ino, b, s)
    requires forall j :: Blk(ino, j) in fd' <==> 0 <= j < CountOf(n, b)
    requires forall j :: Blk(ino, j) in fd' && j < IndexOf(n, b) ==> Blk(ino, j) in fd && fd'[Blk(ino, j)] == fd[Blk(ino, j)]
    requires var q := IndexOf(n, b); Blk(ino, q) in fd' ==> 0 <= RoundDown(n, b) <= n && fd'[Blk(ino, q)] == s[RoundDown(n, b)..n]
    ensures Represents(fd', ino, b, s[..n])
  {
    forall j ensures (Blk(ino, j) in fd' <==> 0 <= j && Start(j, b) < n)
                  && (Blk(ino, j) in fd' ==> fd'[Blk(ino, j)] == Block(s[..n], b, j))
    {
      if j >= 0 {
        BlockRange(n, b, j);
        if Start(j, b) < n { PrefixBlock(s, n, b, j); }
      }
      hide Start, IndexOf, CountOf, RoundDown, Block;
    }
    hide Start, Block;
  }

  method TruncateFiledata(fs: Sqlfs, ino: int, oldSize: int, newSize: int, blksize: int, ghost s: seq<byte>) returns (err: Errno)
    requires 0 <= newSize < oldSize == |s| && 0 < blksize && InInt64(oldSize + blksize - 1)
    requires Represents(fs.filedata, ino, blksize, s)
    modifies fs`filedata
    ensures err == OK || (err == EIO && fs.mayFail)
    ensures SameElsewhere(old(fs.filedata), fs.filedata, ino)
    ensures err == OK ==> Represents(fs.filedata, ino, blksize, Resized(s, newSize))
  {
    hide Start, IndexOf, CountOf, RoundDown, Block;
    var block := Calloc(blksize);
    var oldBlocks := CountOf(oldSize, blksize);
    var newBlocks := CountOf(newSize, blksize);
    ghost var fd := fs.filedata;
    RepresentsLayout(fd, ino, blksize, s);
    TruncateBounds(oldSize, newSize, blksize);
    if newBlocks < oldBlocks {
      // What remains are the blocks below newBlocks.
      err := fs.DeleteFiledata(ino, newBlocks);
      if err != OK {
        return;
      }
    }
    ghost var cut := fs.filedata;
    assert forall j :: Blk(ino, j) in cut <==> 0 <= j && j < newBlocks;
    // Blocks before pos already are what they should be.
    var pos := RoundDown(newSize, blksize);
    if pos < newSize {
      // The rows still hold the old bytes up to newSize, so this read cannot fail.
      err := ReadFiledata(fs, ino, blksize, pos, newSize - pos, block, s);
      if err != OK {
        return;
      }
      err := fs.UpdateFiledata(ino, IndexOf(pos, blksize), block[..newSize - pos]);
      if err != OK {
        return;
      }
    }
    CutRepresents(fd, fs.filedata, ino, blksize, s, newSize);
    return OK;
  }

  lemma TruncateBounds(oldSize: int, newSize: int, b: int)
    requires 0 <= newSize < oldSize && 0 < b
    ensures 0 <= CountOf(newSize, b) <= CountOf(oldSize, b) && 0 <= IndexOf(newSize, b)
    ensures 0 <= RoundDown(newSize, b) <= newSize < RoundDown(newSize, b) + b
    ensures RoundDown(newSize, b) < newSize ==> IndexOf(RoundDown(newSize, b), b) == IndexOf(newSize, b) < CountOf(newSize, b)
    ensures RoundDown(newSize, b) == newSize ==> IndexOf(newSize, b) == CountOf(newSize, b)
  {
    hide Start, IndexOf, CountOf, RoundDown;
    CountBounds(newSize, b);
    CountBounds(oldSize, b);
    IndexBounds(newSize, b);
    IndexUnique(RoundDown(newSize, b), IndexOf(newSize, b), b);
    BlockRange(newSize, b, IndexOf(newSize, b));
    BlockRange(newSize, b, CountOf(newSize, b));
    BlockRange(newSize, b, CountOf(oldSize, b));
  }

  /** Growing or shrinking, as far as the rows of a file go; its metadata is left to the caller. */
  method ResizeFiledata(fs: Sqlfs, ino: int, oldSize: int, newSize: int, blksize: int, ghost s: seq<byte>) returns (err: Errno)
    requires 0 <= oldSize == |s| && 0 <= newSize && 0 < blksize && InInt64(Max(oldSize, newSize) + blksize - 1)
    requires Represents(fs.filedata, ino, blksize, s)
    modifies fs`filedata
    ensures err == OK || (err == EIO && fs.mayFail)
    ensures SameElsewhere(old(fs.filedata), fs.filedata, ino)
    ensures err == OK ==> Represents(fs.filedata, ino, blksize, Resized(s, newSize))
  {
    if oldSize == newSize {
      assert Resized(s, newSize) == s;
      return OK;
    }
    if newSize > oldSize {
      err := ExtendFiledata(fs, ino, oldSize, newSize, blksize, s);
    } else {
      err := TruncateFiledata(fs, ino, oldSize, newSize, blksize, s);
    }
  }

  // --- sqlfs_write

  /** One chunk of a write: the block at file offset k once `data` is written at `off` into a file containing s.
      It extends as far as the new file does, up to the block size. */
  function ChunkSize(s: seq<byte>, off: nat, data: seq<byte>, b: int, k: int): int {
    Min(Max(|s|, off + |data|) - k, b)
  }

  /** Whether a chunk also has bytes of the old file in it. */
  predicate Mixed(s: seq<byte>, off: nat, data: seq<byte>, b: int, k: int) {
    !(k >= off && k + ChunkSize(s, off, data, b, k) <= off + |data|)
  }

  /** How many old bytes a mixed chunk starts from, and where the new bytes go. */
  function BytesToRead(s: seq<byte>, off: nat, data: seq<byte>, b: int, k: int): int {
    Min(ChunkSize(s, off, data, b, k), |s| - k)
  }

  function BytesToCopy(off: nat, data: seq<byte>, b: int, k: int): int {
    if k - off < 0 then Min(b + (k - off), |data|) else Min(b, |data| - (k - off))
  }

  /** The conditions that sqlfs_write checks for each mixed chunk hold for all chunks of a write, with one exception:
      with no data to write, and an offset inside a block, there is a chunk but nothing to copy into it. */
  lemma ChunkChecks(s: seq<byte>, off: nat, data: seq<byte>, b: int, k: int)
    requires 0 < b && off <= |s| && 0 <= k < off + |data| && off < k + b
    ensures 0 < ChunkSize(s, off, data, b, k) <= |Overwritten(s, off, data)| - k
    ensures Mixed(s, off, data, b, k) ==> BytesToRead(s, off, data, b, k) > 0
    ensures BytesToCopy(off, data, b, k) <= ChunkSize(s, off, data, b, k) - Max(0, off - k)
    ensures BytesToCopy(off, data, b, k) > 0 <==> |data| > 0
  {
  }

  /** Old bytes are combined with new ones in the first chunk and in the last one only. */
  lemma AtMostTwoMixed(s: seq<byte>, off: nat, data: seq<byte>, b: int, i: int)
    requires 0 < b && off <= |s| && IndexOf(off, b) <= i && Start(i, b) < off + |data|
    requires Mixed(s, off, data, b, Start(i, b))
    ensures i == IndexOf(off, b) || i == CountOf(off + |data|, b) - 1
  {
    hide Start, IndexOf, CountOf, RoundDown;
    IndexBounds(off, b);
    BlockRange(off + |data|, b, i);
    BlockRange(off + |data|, b, i + 1);
    NextStart(i, b);
    if i > IndexOf(off, b) { Ordered(IndexOf(off, b), i, b); }
  }

  lemma PlainChunk(s: seq<byte>, off: nat, data: seq<byte>, b: int, k: int)
    requires 0 < b && off <= |s| && 0 <= k < off + |data| && !Mixed(s, off, data, b, k)
    ensures var n := ChunkSize(s, off, data, b, k);
            0 < n && 0 <= k - off <= k - off + n <= |data| && data[k - off..k - off + n] == Overwritten(s, off, data)[k..k + n]
  {
  }

  /** Whatever was in the scratch buffer `temp` beyond the old bytes that were read, none of it remains. */
  lemma MixedChunk(s: seq<byte>, off: nat, data: seq<byte>, b: int, k: int, temp: seq<byte>, temp': seq<byte>, at: int, from: int, c: int)
    requires 0 < b && off <= |s| && 0 <= k < off + |data| && off < k + b && Mixed(s, off, data, b, k)
    requires at == Max(0, off - k) && from == Max(0, k - off) && 0 < c == BytesToCopy(off, data, b, k)
    requires at + c <= ChunkSize(s, off, data, b, k) <= |temp| && from + c <= |data|
    requires var r := BytesToRead(s, off, data, b, k); 0 <= r <= |temp| && k + r <= |s| && temp[..r] == s[k..k + r]
    requires temp' == temp[..at] + data[from..from + c] + temp[at + c..]
    ensures var n := ChunkSize(s, off, data, b, k); k + n <= |Overwritten(s, off, data)| && temp'[..n] == Overwritten(s, off, data)[k..k + n]
  {
    var n, r := ChunkSize(s, off, data, b, k), BytesToRead(s, off, data, b, k);
    ghost var newBytes := Overwritten(s, off, data);
    forall p | 0 <= p < n ensures temp'[p] == newBytes[k + p] {
      if p < at || p >= at + c {
        assert temp'[p] == temp[p] == temp[..r][p] == s[k + p];
      } else {
        assert temp'[p] == data[from + p - at];
      }
    }
  }

  /** Facts about block i of a write, which starts at file offset k. */
  lemma ChunkBlock(s: seq<byte>, off: nat, data: seq<byte>, b: int, i: int, k: int)
    requires 0 < b && off <= |s| && IndexOf(off, b) <= i && k == Start(i, b) < off + |data|
    ensures 0 <= i && 0 <= k < |Overwritten(s, off, data)| && off < k + b && Start(i + 1, b) == k + b
  {
    hide Start, IndexOf, CountOf, RoundDown;
    IndexBounds(off, b);
    NextStart(i, b);
    if i > IndexOf(off, b) { Ordered(IndexOf(off, b), i, b); }
  }

  /** The sizes that sqlfs_write computes for a chunk. */
  lemma ChunkSizes(s: seq<byte>, off: nat, data: seq<byte>, newSize: int, b: int, k: int)
    requires 0 < b && off <= |s| && 0 <= k < off + |data| && off < k + b && newSize == Max(|s|, off + |data|)
    ensures var n := ChunkSize(s, off, data, b, k);
            0 < n == Min(newSize - k, b) && (Mixed(s, off, data, b, k) <==> !(k >= off && k + n <= off + |data|))
    ensures Mixed(s, off, data, b, k) ==> BytesToRead(s, off, data, b, k) == Min(ChunkSize(s, off, data, b, k), |s| - k) && k < |s|
    ensures Mixed(s, off, data, b, k) ==> 0 < BytesToRead(s, off, data, b, k) <= b
  {
  }

  /** The part of a half-written file that a mixed chunk reads is still as it was. */
  lemma ChunkHolds(fd: Filedata, ino: int, s: seq<byte>, newBytes: seq<byte>, b: int, i: int, k: int, r: int)
    requires 0 < b && 0 <= i && 0 <= k == Start(i, b) && 0 < r <= b && Patched(fd, ino, b, s, newBytes, i)
    ensures Holds(fd, ino, b, s, IndexOf(k, b), CountOf(k + r, b))
  {
    hide Start, IndexOf, CountOf, RoundDown, Patched, Holds;
    NextStart(i, b);
    IndexUnique(k, i, b);
    BlockRange(k + r, b, i + 1);
    PatchedHolds(fd, ino, b, s, newBytes, i, CountOf(k + r, b));
  }

  lemma PatchedHolds(fd: Filedata, ino: int, b: int, s: seq<byte>, newBytes: seq<byte>, i: int, end: int)
    requires 0 < b && 0 <= i && end <= i + 1 && Patched(fd, ino, b, s, newBytes, i)
    ensures Holds(fd, ino, b, s, i, end)
  {
    hide Start, Block;
  }

  /** Copies c new bytes, which begin at `from`, over the old ones that `temp` starts with. */
  method CopyOver(off: nat, data: seq<byte>, blksize: int, k: int, temp: array<byte>, at: int, from: int, c: int, ghost s: seq<byte>)
    requires 0 <= off <= |s| && 0 < blksize && 0 <= k < off + |data| && off < k + blksize && Mixed(s, off, data, blksize, k)
    requires at == Max(0, off - k) && from == Max(0, k - off) && 0 < c == BytesToCopy(off, data, blksize, k)
    requires at + c <= ChunkSize(s, off, data, blksize, k) <= temp.Length && from + c <= |data|
    requires var r := BytesToRead(s, off, data, blksize, k); 0 <= r <= temp.Length && k + r <= |s| && temp[..r] == s[k..k + r]
    modifies temp
    ensures var n := ChunkSize(s, off, data, blksize, k);
            0 < n && k + n <= |Overwritten(s, off, data)| && temp[..n] == Overwritten(s, off, data)[k..k + n]
  {
    hide Overwritten, Mixed, ChunkSize, BytesToRead, BytesToCopy;
    ghost var before := temp[..];
    Memcpy(temp, at, data[from..from + c]);
    MixedChunk(s, off, data, blksize, k, before, temp[..], at, from, c);
  }

  /** Completes a mixed chunk with the new bytes. */
  method CopyNewData(off: nat, data: seq<byte>, blksize: int, chunkOffset: int, chunkSize: int, temp: array<byte>, ghost s: seq<byte>)
    returns (err: Errno)
    requires 0 <= off <= |s| && 0 < blksize && 0 <= chunkOffset < off + |data| && off < chunkOffset + blksize
    requires chunkSize == ChunkSize(s, off, data, blksize, chunkOffset) <= temp.Length && Mixed(s, off, data, blksize, chunkOffset)
    requires var r := BytesToRead(s, off, data, blksize, chunkOffset);
             0 < r <= chunkSize && chunkOffset + r <= |s| && temp[..r] == s[chunkOffset..chunkOffset + r]
    modifies temp
    ensures err == if |data| == 0 then ABORT else OK
    ensures chunkSize > 0 && chunkOffset + chunkSize <= |Overwritten(s, off, data)|
    ensures err == OK ==> temp[..chunkSize] == Overwritten(s, off, data)[chunkOffset..chunkOffset + chunkSize]
  {
    hide Overwritten, Mixed, ChunkSize, BytesToRead;
    ChunkChecks(s, off, data, blksize, chunkOffset);
    var bufOffset := chunkOffset - off;
    if bufOffset < 0 {
      var bytesToCopy := Min(blksize + bufOffset, |data|);
      if !(0 < bytesToCopy <= chunkSize) {
        return ABORT;
      }
      CopyOver(off, data, blksize, chunkOffset, temp, -bufOffset, 0, bytesToCopy, s);
    } else {
      var bytesToCopy := Min(blksize, |data| - bufOffset);
      if !(0 < bytesToCopy <= chunkSize) {
        return ABORT;
      }
      CopyOver(off, data, blksize, chunkOffset, temp, 0, bufOffset, bytesToCopy, s);
    }
    return OK;
  }

  /** Reads the old part of a mixed chunk into a scratch buffer that is first filled with -1. */
  method ReadOldData(fs: Sqlfs, ino: int, size: int, blksize: int, chunkOffset: int, chunkSize: int, temp: array<byte>, ghost s: seq<byte>)
    returns (err: Errno)
    requires 0 < blksize && 0 <= chunkOffset < |s| == size && InInt64(size + blksize - 1) && 0 < chunkSize <= temp.Length
    requires Holds(fs.filedata, ino, blksize, s, IndexOf(chunkOffset, blksize),
               CountOf(chunkOffset + Min(chunkSize, size - chunkOffset), blksize))
    modifies temp
    ensures err == OK && var r := Min(chunkSize, size - chunkOffset); temp[..r] == s[chunkOffset..chunkOffset + r]
  {
    hide Start, IndexOf, CountOf, Holds;
    Memset(temp, 255, chunkSize);
    err := ReadFiledata(fs, ino, blksize, chunkOffset, Min(chunkSize, size - chunkOffset), temp, s);
  }

  lemma BlockIs(s: seq<byte>, b: int, i: int)
    requires 0 < b && 0 <= i && 0 <= Start(i, b) <= |s|
    ensures Block(s, b, i) == s[Start(i, b)..Min(Start(i, b) + b, |s|)]
  {
  }

  lemma MixedBlock(s: seq<byte>, off: nat, data: seq<byte>, b: int, i: int, k: int)
    requires 0 < b && off <= |s| && 0 <= i && 0 <= k == Start(i, b) < off + |data|
    ensures var n := ChunkSize(s, off, data, b, k);
            0 < n && k + n <= |Overwritten(s, off, data)| && Block(Overwritten(s, off, data), b, i) == Overwritten(s, off, data)[k..k + n]
  {
    hide Start, Block;
    BlockIs(Overwritten(s, off, data), b, i);
  }

  lemma PlainBlock(s: seq<byte>, off: nat, data: seq<byte>, b: int, i: int, k: int)
    requires 0 < b && off <= |s| && 0 <= i && 0 <= k == Start(i, b) < off + |data| && !Mixed(s, off, data, b, k)
    ensures var n := ChunkSize(s, off, data, b, k);
            0 < n && 0 <= k - off <= k - off + n <= |data| && data[k - off..k - off + n] == Block(Overwritten(s, off, data), b, i)
  {
    hide Start, Block, Overwritten, Mixed, ChunkSize;
    PlainChunk(s, off, data, b, k);
    MixedBlock(s, off, data, b, i, k);
  }

  /** What a mixed chunk of a half-written file starts from, and what it has to become. */
  lemma MixedReady(fd: Filedata, ino: int, s: seq<byte>, off: nat, data: seq<byte>, b: int, i: int, k: int)
    requires 0 < b && off <= |s| && 0 <= i && 0 <= k == Start(i, b) < off + |data| && off < k + b
    requires Mixed(s, off, data, b, k) && Patched(fd, ino, b, s, Overwritten(s, off, data), i)
    ensures var n, newBytes := ChunkSize(s, off, data, b, k), Overwritten(s, off, data);
            && 0 < n && k < |s| && 0 < BytesToRead(s, off, data, b, k) == Min(n, |s| - k)
            && Holds(fd, ino, b, s, IndexOf(k, b), CountOf(k + Min(n, |s| - k), b))
            && k + n <= |newBytes| && Block(newBytes, b, i) == newBytes[k..k + n]
  {
    ChunkSizes(s, off, data, Max(|s|, off + |data|), b, k);
    hide Start, IndexOf, CountOf, Patched, Holds, Block, Overwritten, ChunkSize, Mixed, BytesToRead;
    MixedBlock(s, off, data, b, i, k);
    ChunkHolds(fd, ino, s, Overwritten(s, off, data), b, i, k, BytesToRead(s, off, data, b, k));
  }

  /** A chunk with both old and new bytes, put together in `temp`. */
  method BuildMixed(fs: Sqlfs, ino: int, off: nat, data: seq<byte>, size: int, blksize: int, chunkOffset: int, chunkSize: int,
                    temp: array<byte>, ghost s: seq<byte>, ghost i: int)
    returns (err: Errno, chunk: seq<byte>)
    requires 0 <= off <= |s| == size && 0 < blksize && InInt64(size + blksize - 1)
    requires 0 <= i && 0 <= chunkOffset == Start(i, blksize) < off + |data| && off < chunkOffset + blksize
    requires chunkSize == ChunkSize(s, off, data, blksize, chunkOffset) <= temp.Length && Mixed(s, off, data, blksize, chunkOffset)
    requires Patched(fs.filedata, ino, blksize, s, Overwritten(s, off, data), i)
    modifies temp
    ensures err == if |data| == 0 then ABORT else OK
    ensures err == OK ==> chunk == Block(Overwritten(s, off, data), blksize, i)
  {
    chunk := [];
    MixedReady(fs.filedata, ino, s, off, data, blksize, i, chunkOffset);
    hide Start, IndexOf, CountOf, Patched, Holds, Block, Overwritten, ChunkSize, Mixed;
    err := ReadOldData(fs, ino, size, blksize, chunkOffset, chunkSize, temp, s);
    if err == OK {
      err := CopyNewData(off, data, blksize, chunkOffset, chunkSize, temp, s);
    }
    if err == OK {
      chunk := temp[..chunkSize];
    }
  }

  /** If a scratch buffer is there and will be needed again, then it holds a whole block. */
  predicate Fits(temp: array?<byte>, needed: bool, blksize: int) {
    temp != null && needed ==> temp.Length >= blksize
  }

  /** The contents of block i, once written. The first scratch buffer that is needed becomes `temp`, and serves again
      for the last block. */
  method BuildChunk(fs: Sqlfs, ino: int, off: nat, data: seq<byte>, size: int, newSize: int, blksize: int, i: int,
                    tempBlock: array?<byte>, ghost s: seq<byte>)
    returns (err: Errno, chunk: seq<byte>, temp: array?<byte>)
    requires 0 <= off <= |s| == size && newSize == Max(size, off + |data|)
    requires 0 < blksize && IndexOf(off, blksize) <= i && Start(i, blksize) < off + |data|
    requires InInt64(off + |data| + blksize - 1) && InInt64(size + blksize - 1)
    requires Patched(fs.filedata, ino, blksize, s, Overwritten(s, off, data), i)
    requires Fits(tempBlock, true, blksize)
    modifies tempBlock
    ensures temp == tempBlock || fresh(temp)
    ensures Fits(temp, off + |data| > Start(i + 1, blksize), blksize)
    ensures if |data| == 0 then err == ABORT else err == OK
    ensures 0 <= i && 0 <= Start(i, blksize) < |Overwritten(s, off, data)|
    ensures err == OK ==> chunk == Block(Overwritten(s, off, data), blksize, i)
  {
    temp := tempBlock;
    var chunkOffset := Start(i, blksize);
    var chunkSize := Min(newSize - chunkOffset, blksize);
    hide Start, IndexOf, Block, Patched, Overwritten, ChunkSize, Mixed;
    ChunkBlock(s, off, data, blksize, i, chunkOffset);
    ChunkSizes(s, off, data, newSize, blksize, chunkOffset);
    if chunkOffset >= off && chunkOffset + chunkSize <= off + |data| {
      // No byte of the chunk comes from the old file.
      PlainBlock(s, off, data, blksize, i, chunkOffset);
      return OK, data[chunkOffset - off..chunkOffset - off + chunkSize], temp;
    }
    // The buffer of an earlier round, if any, holds a whole block.
    if temp == null {
      temp := new byte[chunkSize];
    }
    err, chunk := BuildMixed(fs, ino, off, data, size, blksize, chunkOffset, chunkSize, temp, s, i);
  }

  /** How a write ends if no statement fails. A zero-length write is not always harmless, see ChunkChecks. */
  function WriteOutcome(t: Tables, ino: int, off: nat, size: nat): Errno
    requires IsFile(t, ino) ==> t.metadata[ino].blksize > 0
  {
    if ino !in t.metadata then ENOENT
    else if t.metadata[ino].ftype == Directory then EISDIR
    else if t.metadata[ino].ftype != Regular then EINVAL
    else if size == 0 && RoundDown(off, t.metadata[ino].blksize) != off then ABORT
    else OK
  }

  /** All of a file's offsets and sizes, rounded up to a whole block, fit in 64 bits. */
  predicate NoOverflow(t: Tables, ino: int, end: int) {
    IsFile(t, ino) ==> InInt64(t.metadata[ino].size + t.metadata[ino].blksize - 1) && InInt64(end + t.metadata[ino].blksize - 1)
  }

  lemma WriteStart(fd: Filedata, ino: int, s: seq<byte>, off: nat, data: seq<byte>, b: int)
    requires 0 < b && off <= |s| && Represents(fd, ino, b, s)
    ensures 0 <= IndexOf(off, b) && 0 <= Start(IndexOf(off, b), b) == RoundDown(off, b) <= off
    ensures Patched(fd, ino, b, s, Overwritten(s, off, data), IndexOf(off, b))
  {
    hide Start, IndexOf, RoundDown, Represents, Patched;
    IndexBounds(off, b);
    PatchStart(fd, ino, b, s, Overwritten(s, off, data), IndexOf(off, b));
  }

  lemma WriteEnd(was: Filedata, fd: Filedata, ino: int, s: seq<byte>, off: nat, data: seq<byte>, b: int, i: int)
    requires 0 < b && off <= |s| && 0 <= i && off + |data| <= Start(i, b)
    requires Rewriting(was, fd, ino, b, s, Overwritten(s, off, data), i)
    ensures Represents(fd, ino, b, Overwritten(s, off, data))
  {
    hide Start, Represents, Patched;
    PatchEnd(fd, ino, b, s, Overwritten(s, off, data), i);
  }

  /** A table in which `ino` is being rewritten, and blocks below i are done. In other files it is still as it was. */
  ghost predicate Rewriting(was: Filedata, fd: Filedata, ino: int, b: int, s: seq<byte>, newBytes: seq<byte>, i: int) {
    0 < b && SameElsewhere(was, fd, ino) && Patched(fd, ino, b, s, newBytes, i)
  }

  /** What a loop over the blocks of a write is given. */
  predicate WriteRange(off: nat, data: seq<byte>, size: nat, newSize: int, b: int) {
    0 < b && off <= size && newSize == Max(size, off + |data|) && InInt64(off + |data| + b - 1) && InInt64(size + b - 1)
  }

  /** One round of the loop of a write. */
  method WriteBlock(fs: Sqlfs, ino: int, off: nat, data: seq<byte>, size: nat, newSize: int, blksize: int, i: int,
                    tempBlock: array?<byte>, ghost s: seq<byte>, ghost newBytes: seq<byte>, ghost was: Filedata)
    returns (err: Errno, temp: array?<byte>)
    requires WriteRange(off, data, size, newSize, blksize) && |s| == size && newBytes == Overwritten(s, off, data)
    requires IndexOf(off, blksize) <= i && Start(i, blksize) < off + |data|
    requires Rewriting(was, fs.filedata, ino, blksize, s, newBytes, i) && Fits(tempBlock, true, blksize)
    modifies fs`filedata, tempBlock
    ensures temp == tempBlock || fresh(temp)
    ensures Fits(temp, off + |data| > Start(i + 1, blksize), blksize) && Start(i + 1, blksize) == Start(i, blksize) + blksize
    ensures SameElsewhere(was, fs.filedata, ino)
    ensures if |data| == 0 then err == ABORT else err == OK || (err == EIO && fs.mayFail)
    ensures err == OK ==> Rewriting(was, fs.filedata, ino, blksize, s, newBytes, i + 1)
  {
    hide Start, IndexOf, Block, Patched, Overwritten;
    var chunk;
    err, chunk, temp := BuildChunk(fs, ino, off, data, size, newSize, blksize, i, tempBlock, s);
    NextStart(i, blksize);
    if err != OK {
      return;
    }
    PatchStep(fs.filedata, ino, blksize, s, newBytes, i);
    err := fs.UpdateFiledata(ino, i, chunk);
  }

  /** The loop of a write, which rewrites block after block, starting with the one that the offset is in. */
  method WriteBlocks(fs: Sqlfs, ino: int, off: nat, data: seq<byte>, size: nat, newSize: int, blksize: int, first: int,
                     ghost s: seq<byte>, ghost newBytes: seq<byte>, ghost was: Filedata)
    returns (err: Errno)
    requires WriteRange(off, data, size, newSize, blksize) && |s| == size && newBytes == Overwritten(s, off, data)
    requires 0 <= first == IndexOf(off, blksize) && Start(first, blksize) <= off
    requires Rewriting(was, fs.filedata, ino, blksize, s, newBytes, first)
    modifies fs`filedata
    ensures SameElsewhere(was, fs.filedata, ino)
    ensures if |data| == 0 && Start(first, blksize) != off then err == ABORT else err == OK || (err == EIO && fs.mayFail)
    ensures err == OK ==> Represents(fs.filedata, ino, blksize, newBytes)
  {
    var tempBlock: array?<byte> := null;
    RangeIs(off, data, size, newSize, blksize);
    assert Fits(tempBlock, true, blksize) && SameElsewhere(was, fs.filedata, ino);
    hide Start, IndexOf, Represents, Overwritten, SameElsewhere, Fits, Rewriting, WriteRange;
    var i := first;
    while Start(i, blksize) < off + |data|
      invariant first <= i && (i > first ==> |data| > 0)
      invariant (tempBlock == null || fresh(tempBlock)) && Fits(tempBlock, off + |data| > Start(i, blksize), blksize)
      invariant SameElsewhere(was, fs.filedata, ino) && Rewriting(was, fs.filedata, ino, blksize, s, newBytes, i)
      decreases off + |data| - Start(i, blksize)
    {
      err, tempBlock := WriteBlock(fs, ino, off, data, size, newSize, blksize, i, tempBlock, s, newBytes, was);
      if err != OK {
        return;
      }
      i := i + 1;
    }
    WriteEnd(was, fs.filedata, ino, s, off, data, blksize, i);
    return OK;
  }

  lemma RangeIs(off: nat, data: seq<byte>, size: nat, newSize: int, b: int)
    requires WriteRange(off, data, size, newSize, b)
    ensures 0 < b && off <= size
  {
  }

  /** A write within or right after the file, as far as its rows go. */
  method WriteFiledata(fs: Sqlfs, ino: int, off: nat, data: seq<byte>, size: int, newSize: int, blksize: int, ghost s: seq<byte>)
    returns (err: Errno)
    requires 0 <= off <= |s| == size && newSize == Max(size, off + |data|) && 0 < blksize
    requires InInt64(off + |data| + blksize - 1) && InInt64(size + blksize - 1)
    requires Represents(fs.filedata, ino, blksize, s)
    modifies fs`filedata
    ensures SameElsewhere(old(fs.filedata), fs.filedata, ino)
    ensures if |data| == 0 && RoundDown(off, blksize) != off then err == ABORT else err == OK || (err == EIO && fs.mayFail)
    ensures err == OK ==> Represents(fs.filedata, ino, blksize, Overwritten(s, off, data))
  {
    assert SameElsewhere(fs.filedata, fs.filedata, ino);
    hide Start, IndexOf, RoundDown, Patched, Represents, Overwritten, SameElsewhere, InInt64, Max;
    WriteStart(fs.filedata, ino, s, off, data, blksize);
    err := WriteBlocks(fs, ino, off, data, size, newSize, blksize, IndexOf(off, blksize), s, Overwritten(s, off, data), fs.filedata);
  }

  /** A write to a regular file, except for its metadata. */
  method WriteContents(fs: Sqlfs, ino: int, off: int, data: seq<byte>, size: int, blksize: int, ghost s: seq<byte>) returns (err: Errno)
    requires 0 <= off && size == |s| && 0 < blksize
    requires InInt64(off + |data| + blksize - 1) && InInt64(size + blksize - 1)
    requires Represents(fs.filedata, ino, blksize, s)
    modifies fs`filedata
    ensures SameElsewhere(old(fs.filedata), fs.filedata, ino)
    ensures err == (if |data| == 0 && RoundDown(off, blksize) != off then ABORT else OK) || (err == EIO && fs.mayFail)
    ensures err == OK ==> Represents(fs.filedata, ino, blksize, Overwritten(s, off, data))
  {
    var newSize := Max(off + |data|, size);
    if off > size {
      // Resizing first leaves the same contents to overwrite as padding would.
      err := ResizeFiledata(fs, ino, size, off, blksize, s);
      if err == OK {
        assert Overwritten(Resized(s, off), off, data) == Overwritten(s, off, data);
        hide Represents, RoundDown, Overwritten, Resized;
        ghost var before := fs.filedata;
        err := WriteFiledata(fs, ino, off, data, off, newSize, blksize, Resized(s, off));
        ElsewhereTrans(old(fs.filedata), before, fs.filedata, ino);
      }
    } else {
      err := WriteFiledata(fs, ino, off, data, size, newSize, blksize, s);
    }
  }

  method Write(fs: Sqlfs, ino: int, off: int, data: seq<byte>, now: Timespec) returns (err: Errno)
    requires 0 <= off < INT64_MAX as int && |data| < INT64_MAX as int && NoOverflow(fs.State(), ino, off + |data|)
    requires FilesOk(fs.State())
    modifies fs`metadata, fs`direntries, fs`filedata, fs`savepoints
    ensures err == WriteOutcome(old(fs.State()), ino, off, |data|) || (err == EIO && fs.mayFail)
    ensures err == OK ==> Rewrote(old(fs.State()), fs.State(), ino, Overwritten(Contents(old(fs.State()), ino), off, data), ToNanos(now))
    ensures err != OK && err != ABORT ==> fs.State() == old(fs.State())
    ensures err != ABORT ==> fs.savepoints == old(fs.savepoints)
    ensures err == ABORT ==> fs.State() == (old(fs.savepoints) + [old(fs.State())])[0] && fs.savepoints == []
  {
    hide Represents, SameElsewhere, Overwritten, Layout, Start, Block, RoundDown;
    ghost var t := fs.State();
    fs.Savepoint();
    var attr;
    err, attr := fs.StatInode(ino);
    if err == OK && attr.ftype == Directory {
      err := EISDIR;
    } else if err == OK && attr.ftype != Regular {
      err := EINVAL;
    }
    if err == OK {
      err := WriteContents(fs, ino, off, data, attr.size, attr.blksize, Contents(t, ino));
      if err == ABORT {
        fs.CheckFailed();
        return;
      }
      if err == OK {
        // Until now the rows were ahead of the size in the metadata.
        err := fs.UpdateMetadata(attr.(size := Max(off + |data|, attr.size), mtim := now));
      }
    }
    fs.Finish(err);
  }

  // --- sqlfs_read

  function ReadOutcome(t: Tables, ino: int): Errno {
    if ino !in t.metadata then ENOENT
    else if t.metadata[ino].ftype == Directory then EISDIR
    else if t.metadata[ino].ftype != Regular then EINVAL
    else OK
  }

  lemma ReadSlice(s: seq<byte>, off: nat, size: nat)
    ensures var n := Max(0, Min(size, |s| - off));
            n <= size && |Slice(s, off, off + size)| == n && (n > 0 ==> off + n <= |s| && Slice(s, off, off + size) == s[off..off + n])
  {
  }

  /** Reading back what was written gives the same bytes, and a read elsewhere sees the file as it was, zero-padded. */
  lemma ReadBack(s: seq<byte>, off: nat, data: seq<byte>, from: nat, size: nat)
    ensures Slice(Overwritten(s, off, data), off, off + |data|) == data
    ensures (from + size <= off || from >= off + |data|) && from + size <= |Overwritten(s, off, data)| ==>
              Slice(Overwritten(s, off, data), from, from + size) == Slice(Resized(s, |Overwritten(s, off, data)|), from, from + size)
  {
    var newBytes := Overwritten(s, off, data);
    assert newBytes[off..off + |data|] == data;
    if (from + size <= off || from >= off + |data|) && from + size <= |newBytes| {
      forall k | from <= k < from + size ensures newBytes[k] == Resized(s, |newBytes|)[k] { OverwrittenAt(s, off, data, k); }
      hide Overwritten, Resized;
    }
  }

  /** A read never fails on a regular file. It returns the bytes asked for, as far as the file has them. */
  method Read(fs: Sqlfs, ino: int, off: int, size: int, buf: array<byte>) returns (err: Errno, sizeRead: int)
    requires 0 <= off < INT64_MAX as int && 0 <= size < INT64_MAX as int && size <= buf.Length
    requires FilesOk(fs.State()) && NoOverflow(fs.State(), ino, 0)
    modifies buf, fs`metadata, fs`direntries, fs`filedata, fs`savepoints
    ensures fs.State() == old(fs.State()) && fs.savepoints == old(fs.savepoints)
    ensures err == ReadOutcome(fs.State(), ino)
    ensures err == OK ==> 0 <= sizeRead <= size && buf[..sizeRead] == Slice(Contents(fs.State(), ino), off, off + size)
    ensures err == OK ==> buf[sizeRead..] == old(buf[sizeRead..])
  {
    hide Start, IndexOf, CountOf, Holds, Represents, Slice;
    fs.Savepoint();
    sizeRead := 0;
    var attr;
    err, attr := fs.StatInode(ino);
    if err == OK && attr.ftype == Directory {
      err := EISDIR;
    } else if err == OK && attr.ftype != Regular {
      err := EINVAL;
    }
    if err == OK {
      ghost var s := Contents(fs.State(), ino);
      ReadSlice(s, off, size);
      sizeRead := Max(0, Min(size, attr.size - off));
      if size > 0 {
        RepresentsHolds(fs.filedata, ino, attr.blksize, s, IndexOf(off, attr.blksize), CountOf(off + sizeRead, attr.blksize));
        err := ReadFiledata(fs, ino, attr.blksize, off, sizeRead, buf, s);
      }
    }
    fs.Finish(err);
  }

  // --- sqlfs_set_attr

  /** The bits of `to_set`. SetUnknown stands for all bits without a meaning. */
  datatype Attr = SetMode | SetUid | SetGid | SetMtime | SetSize | SetUnknown

  function SetAttrOutcome(t: Tables, ino: int, toSet: set<Attr>, size: int): Errno {
    if SetUnknown in toSet then EINVAL
    else if ino !in t.metadata then ENOENT
    else if SetSize in toSet && t.metadata[ino].ftype == Directory then EISDIR
    else if SetSize in toSet && t.metadata[ino].ftype != Regular then EINVAL
    else if SetSize in toSet && size < 0 then ABORT
    else OK
  }

  /** A set time is clamped, a new size sets the current time, and any other change rewrites the old time. */
  function MtimeAfter(before: int64, toSet: set<Attr>, asked: Timespec, now: Timespec): int64 {
    if SetMtime in toSet then Rewritten(ToNanos(asked))
    else if SetSize in toSet then ToNanos(now)
    else Rewritten(before)
  }

  /** Effect on everything but permissions and ownership, which are not modelled. */
  ghost predicate AttrSet(t: Tables, t': Tables, ino: int, toSet: set<Attr>, size: int, asked: Timespec, now: Timespec)
    requires FilesOk(t) && SetAttrOutcome(t, ino, toSet, size) == OK
  {
    var mtime := MtimeAfter(t.metadata[ino].mtime, toSet, asked, now);
    if toSet == {} then t' == t
    else if SetSize in toSet then Rewrote(t, t', ino, Resized(Contents(t, ino), size), mtime)
    else t' == t.(metadata := t.metadata[ino := t.metadata[ino].(mtime := mtime)])
  }

  /** What happens to the modification time. A requested one is clamped, except that the whole lowest second becomes
      INT64_MIN. A new size alone sets the current time. Any other change leaves the time alone, except in that second. */
  lemma AttrSetMtime(t: Tables, t': Tables, ino: int, toSet: set<Attr>, size: int, asked: Timespec, now: Timespec)
    requires FilesOk(t) && SetAttrOutcome(t, ino, toSet, size) == OK && AttrSet(t, t', ino, toSet, size, asked, now)
    ensures ino in t.metadata && ino in t'.metadata && (toSet == {} ==> t' == t)
    ensures SetMtime in toSet && Normalised(asked) ==>
              t'.metadata[ino].mtime == if asked.sec == LOWEST_SECOND then INT64_MIN else Clamp(Instant(asked))
    ensures SetMtime !in toSet && SetSize in toSet && Normalised(now) ==>
              t'.metadata[ino].mtime == if now.sec == LOWEST_SECOND then INT64_MIN else Clamp(Instant(now))
    ensures SetMtime !in toSet && SetSize !in toSet && toSet != {} ==>
              t'.metadata[ino].mtime == if t.metadata[ino].mtime >= LOWEST_EXACT then t.metadata[ino].mtime else INT64_MIN
  {
    hide FilesOk, Resized, Contents, SameElsewhere, Represents, ToNanos, FromNanos;
    var before := t.metadata[ino].mtime;
    RewrittenExactIff(before);
    if SetMtime in toSet && Normalised(asked) {
      ClampedInstant(asked);
      RewrittenIdempotent(asked);
    }
    if Normalised(now) { ClampedInstant(now); }
  }

  lemma ClampedInstant(tp: Timespec)
    requires Normalised(tp)
    ensures ToNanos(tp) == if tp.sec == LOWEST_SECOND then INT64_MIN else Clamp(Instant(tp))
  {
    ClampsIff(tp);
    assert TruncDiv(INT64_MIN, NANOS_PER_SECOND) == -9223372036;
  }

  /** The new modification time and size of set_attr. Permissions and ownership are not modelled. */
  method ApplyAttr(fs: Sqlfs, ino: int, attrIn: Stat, toSet: set<Attr>, now: Timespec) returns (err: Errno, attr: Stat)
    requires FilesOk(fs.State()) && SetUnknown !in toSet && (SetSize in toSet ==> NoOverflow(fs.State(), ino, attrIn.size))
    modifies fs`metadata, fs`filedata
    ensures err == SetAttrOutcome(old(fs.State()), ino, toSet, attrIn.size) || (err == EIO && fs.mayFail)
    ensures err == OK ==> AttrSet(old(fs.State()), fs.State(), ino, toSet, attrIn.size, attrIn.mtim, now) && Reported(fs.State(), fs.blocksize, ino, toSet, attr)
  {
    ghost var t := fs.State();
    hide Represents, SameElsewhere, Resized, Layout, Start, Block;
    err, attr := fs.StatInode(ino);
    if err == OK && SetMtime in toSet {
      // So the time that is reported is the one that is stored.
      attr := attr.(mtim := FromNanos(ToNanos(attrIn.mtim)));
    }
    if err == OK && SetSize in toSet {
      if attr.ftype == Directory {
        err := EISDIR;
      } else if attr.ftype != Regular {
        err := EINVAL;
      } else {
        if SetMtime !in toSet {
          attr := attr.(mtim := now);
        }
        if attrIn.size < 0 {
          // The source compares the old size with zero, so this is left to a CHECK() in the resize.
          return ABORT, attr;
        }
        err := ResizeFiledata(fs, ino, attr.size, attrIn.size, attr.blksize, Contents(t, ino));
        attr := attr.(size := attrIn.size);
      }
    }
    if err == OK && toSet != {} {
      err := fs.UpdateMetadata(attr);
    }
  }

  /** set_attr reports the attributes as they are now stored, but for the clamping of the current time. */
  predicate Reported(t: Tables, blocksize: int, ino: int, toSet: set<Attr>, attr: Stat) {
    && ino in t.metadata && attr == FillStat(ino, t.metadata[ino], blocksize).(mtim := attr.mtim)
    && if toSet == {} then attr.mtim == FromNanos(t.metadata[ino].mtime) else ToNanos(attr.mtim) == t.metadata[ino].mtime
  }

  method SetAttr(fs: Sqlfs, ino: int, attrIn: Stat, toSet: set<Attr>, now: Timespec) returns (err: Errno, attr: Stat)
    requires FilesOk(fs.State()) && (SetSize in toSet ==> NoOverflow(fs.State(), ino, attrIn.size))
    modifies fs`metadata, fs`direntries, fs`filedata, fs`savepoints
    ensures err == SetAttrOutcome(old(fs.State()), ino, toSet, attrIn.size) || (err == EIO && fs.mayFail)
    ensures err == OK ==> AttrSet(old(fs.State()), fs.State(), ino, toSet, attrIn.size, attrIn.mtim, now)
    ensures err == OK ==> Reported(fs.State(), fs.blocksize, ino, toSet, attr)
    ensures err != OK && err != ABORT ==> fs.State() == old(fs.State())
    ensures err != ABORT ==> fs.savepoints == old(fs.savepoints)
    ensures err == ABORT ==> fs.State() == (old(fs.savepoints) + [old(fs.State())])[0] && fs.savepoints == []
  {
    if SetUnknown in toSet {
      return EINVAL, attrIn;
    }
    hide FilesOk, AttrSet, Reported, NoOverflow;
    fs.Savepoint();
    err, attr := ApplyAttr(fs, ino, attrIn, toSet, now);
    if err == ABORT {
      fs.CheckFailed();
      return;
    }
    fs.Finish(err);
  }
}
