/** Modification times: the database stores nanoseconds in a signed 64-bit column, `struct stat` holds a
    seconds/nanoseconds pair. All arithmetic below is on `int64`, so Dafny proves that no intermediate
    value overflows, whatever pair comes in. */
module Timestamps {

  newtype int64 = x: int | -0x8000_0000_0000_0000 <= x <= 0x7FFF_FFFF_FFFF_FFFF

  const INT64_MIN: int64 := -0x8000_0000_0000_0000
  const INT64_MAX: int64 := 0x7FFF_FFFF_FFFF_FFFF
  const NANOS_PER_SECOND: int64 := 1_000_000_000

  /** The second in which the clamping of ToNanos goes wrong: it begins before INT64_MIN and ends after it. */
  const LOWEST_SECOND: int64 := -9223372037
  const LOWEST_EXACT: int64 := -9223372036_000_000_000

  datatype Timespec = Timespec(sec: int64, nsec: int64)

  predicate Normalised(tp: Timespec) {
    0 <= tp.nsec < NANOS_PER_SECOND
  }

  /** The instant a pair denotes, without any width limit. */
  function Instant(tp: Timespec): int {
    tp.sec as int * 1_000_000_000 + tp.nsec as int
  }

  function Clamp(x: int): int64 {
    if x < INT64_MIN as int then INT64_MIN else if x > INT64_MAX as int then INT64_MAX else x as int64
  }

  /** C's integer division truncates toward zero. */
  function TruncDiv(x: int64, y: int64): int64
    requires y > 1
  {
    var q := if x >= 0 then x as int / y as int else -(-(x as int) / y as int);
    q as int64
  }

  function TruncMod(x: int64, y: int64): int64
    requires y > 1
  {
    var r := if x >= 0 then x as int % y as int else -(-(x as int) % y as int);
    r as int64
  }

  function ToNanos(tp: Timespec): int64 {
    if tp.sec >= 0 then
      if tp.sec > TruncDiv(INT64_MAX, NANOS_PER_SECOND) || INT64_MAX - tp.sec * NANOS_PER_SECOND < tp.nsec
      then INT64_MAX
      else tp.sec * NANOS_PER_SECOND + tp.nsec
    else
      if tp.sec < TruncDiv(INT64_MIN, NANOS_PER_SECOND) || INT64_MIN - tp.sec * NANOS_PER_SECOND > tp.nsec
      then INT64_MIN
      else tp.sec * NANOS_PER_SECOND + tp.nsec
  }

  function FromNanos(nanos: int64): (tp: Timespec)
    ensures Normalised(tp) && Instant(tp) == nanos as int
  {
    var sec := TruncDiv(nanos, NANOS_PER_SECOND);
    var nsec := TruncMod(nanos, NANOS_PER_SECOND);
    if nsec < 0 then Timespec(sec - 1, nsec + NANOS_PER_SECOND) else Timespec(sec, nsec)
  }

  /** What the column holds after a value was read into a `struct stat` and written back. */
  function Rewritten(nanos: int64): int64 {
    ToNanos(FromNanos(nanos))
  }

  /** ToNanos is documented as clamping. It does, except in one partial second: */
  lemma ClampsIff(tp: Timespec)
    requires Normalised(tp)
    ensures ToNanos(tp) == Clamp(Instant(tp)) <==> !(tp.sec == LOWEST_SECOND && tp.nsec > 145_224_192)
    ensures ToNanos(tp) != Clamp(Instant(tp)) ==> ToNanos(tp) == INT64_MIN && Instant(tp) - INT64_MIN as int < 854_775_808
  {
    assert TruncDiv(INT64_MAX, NANOS_PER_SECOND) == 9223372036;
    assert TruncDiv(INT64_MIN, NANOS_PER_SECOND) == -9223372036;
  }

  lemma ClampFails()
    ensures var tp := Timespec(LOWEST_SECOND, 500_000_000);
            Normalised(tp) && ToNanos(tp) == INT64_MIN && Clamp(Instant(tp)) == -9223372036_500_000_000
  {
    assert TruncDiv(INT64_MIN, NANOS_PER_SECOND) == -9223372036;
  }

  lemma ToNanosMonotone(a: Timespec, b: Timespec)
    requires Normalised(a) && Normalised(b) && Instant(a) <= Instant(b)
    ensures ToNanos(a) <= ToNanos(b)
  {
    assert TruncDiv(INT64_MAX, NANOS_PER_SECOND) == 9223372036;
    assert TruncDiv(INT64_MIN, NANOS_PER_SECOND) == -9223372036;
  }

  /** Reading a stored time and writing it back is exact, except strictly inside that same second. */
  lemma RewrittenExactIff(nanos: int64)
    ensures Rewritten(nanos) == nanos <==> nanos >= LOWEST_EXACT || nanos == INT64_MIN
    ensures nanos < LOWEST_EXACT ==> Rewritten(nanos) == INT64_MIN
  {
    assert TruncDiv(INT64_MAX, NANOS_PER_SECOND) == 9223372036;
    assert TruncDiv(INT64_MIN, NANOS_PER_SECOND) == -9223372036;
    var tp := FromNanos(nanos);
    assert Instant(tp) == nanos as int;
  }

  /** The clamping that setting a time applies is stable: a later rewrite of the row does not move it again. */
  lemma RewrittenIdempotent(tp: Timespec)
    requires Normalised(tp)
    ensures Rewritten(ToNanos(tp)) == ToNanos(tp)
  {
    assert TruncDiv(INT64_MIN, NANOS_PER_SECOND) == -9223372036;
    RewrittenExactIff(ToNanos(tp));
  }
}
