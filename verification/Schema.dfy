/** The database schema: three tables, keyed as their primary keys say. */
module Schema {
  import opened Timestamps

  const ROOT: int := 1
  const NONE: int := 0

  newtype byte = x: int | 0 <= x < 256
  type Name = string

  datatype Option<+T> = None | Some(value: T)

  /** Result of an operation. ABORT stands for a failed CHECK(), which ends the process. */
  datatype Errno = OK | EINVAL | ENOENT | ENOTDIR | EISDIR | ENOTEMPTY | EBUSY | EEXIST | EIO | ABORT

  /** The file type bits of a mode. */
  datatype FileType = Directory | Regular | Other

  /** A metadata row. For directories size and blksize are NULL, which reads as 0 here. */
  datatype Inode = Inode(ftype: FileType, nlink: int, size: int, blksize: int, mtime: int64)

  /** Primary key and value of a direntries row. The name "" stands for "..". */
  datatype Row = Row(dir: int, name: Name)
  datatype Entry = Entry(ino: int, ftype: FileType)

  /** Primary key of a filedata row. */
  datatype Blk = Blk(ino: int, idx: int)

  type Metadata = map<int, Inode>
  type Direntries = map<Row, Entry>
  type Filedata = map<Blk, seq<byte>>

  datatype Tables = Tables(metadata: Metadata, direntries: Direntries, filedata: Filedata)

  datatype NameKind = NameEmpty | NameDot | NameDotDot | NameRegular

  function KindOf(name: Name): NameKind {
    if |name| == 0 then NameEmpty
    else if name[0] != '.' then NameRegular
    else if |name| == 1 then NameDot
    else if name[1] != '.' then NameRegular
    else if |name| == 2 then NameDotDot
    else NameRegular
  }

  /** Three strings are special, and all others are names that an entry can have. */
  lemma KindOfIs(name: Name)
    ensures KindOf(name) == NameEmpty <==> name == ""
    ensures KindOf(name) == NameDot <==> name == "."
    ensures KindOf(name) == NameDotDot <==> name == ".."
    ensures KindOf(name) == NameRegular <==> Plain(name)
  {
  }

  /** Any name but the special ones. */
  predicate Plain(name: Name) { name != "" && name != "." && name != ".." }

  function Min(x: int, y: int): int { if x < y then x else y }
  function Max(x: int, y: int): int { if x > y then x else y }
}
