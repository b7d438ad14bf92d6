/** The table of lookup counts: an integer for every inode number, of which only the nonzero ones are stored. */
module Lookups {
  import opened Timestamps

  type Counts = map<int, int>

  function Count(m: Counts, key: int): int { if key in m then m[key] else 0 }

  ghost predicate NoZeros(m: Counts) { forall k :: k in m ==> m[k] != 0 }

  function Bumped(m: Counts, key: int, add: int): Counts {
    var value := Count(m, key) + add;
    if value == 0 then m - {key} else m[key := value]
  }

  /** Seen as a total function, an update is an addition at one point; and equal functions are equal tables. */
  lemma BumpedCounts(m: Counts, key: int, add: int)
    requires NoZeros(m)
    ensures NoZeros(Bumped(m, key, add))
    ensures forall k :: Count(Bumped(m, key, add), k) == Count(m, k) + if k == key then add else 0
  {
  }

  lemma CountsDetermine(m: Counts, m': Counts)
    requires NoZeros(m) && NoZeros(m') && forall k :: Count(m, k) == Count(m', k)
    ensures m == m'
  {
    forall k ensures k in m <==> k in m' { assert Count(m, k) == Count(m', k); }
    forall k | k in m ensures m[k] == m'[k] { assert Count(m, k) == Count(m', k); }
  }

  lemma SomeKey(m: Counts)
    ensures m != map[] ==> exists k :: k in m
  {
    if forall k :: k !in m { assert m == map[]; }
  }

  class Intmap {
    var rows: Counts

    constructor ()
      ensures rows == map[]
    {
      rows := map[];
    }

    /** The checks against overflow are the caller's obligation. */
    method Update(key: int, add: int) returns (value: int)
      requires NoZeros(rows) && INT64_MIN as int <= Count(rows, key) + add <= INT64_MAX as int
      modifies this
      ensures rows == Bumped(old(rows), key, add) && NoZeros(rows)
      ensures value == Count(rows, key) == Count(old(rows), key) + add
    {
      value := Count(rows, key);
      if add != 0 {
        value := value + add;
        if value != 0 {
          rows := rows[key := value];
        } else {
          rows := rows - {key};
        }
      } else {
        assert value == 0 ==> rows - {key} == rows;
        assert value != 0 ==> rows[key := value] == rows;
      }
    }

    method Size() returns (n: nat)
      requires NoZeros(rows)
      ensures n == |rows| && (n == 0 <==> forall k :: Count(rows, k) == 0)
    {
      n := |rows|;
      if n == 0 {
        assert forall k :: k !in rows;
      } else {
        SomeKey(rows);
        var k :| k in rows;
        assert Count(rows, k) != 0;
      }
    }

    method RetrieveOne() returns (found: bool, key: int, value: int)
      ensures found <==> rows != map[]
      ensures found ==> key in rows && value == rows[key]
    {
      if rows == map[] {
        return false, 0, 0;
      }
      SomeKey(rows);
      key :| key in rows;
      return true, key, rows[key];
    }
  }
}
