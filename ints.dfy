/**
 * Fixed-width integers of the Go runtime. Dafny integers are unbounded, so the
 * widths the program relies on (int32 latencies and counters, int64 `int`s and
 * `time.Duration`s) are written out here, with Go's truncating conversions.
 */
module Ints {

  const MinInt32: int := -0x8000_0000
  const MaxInt32: int := 0x7fff_ffff
  const MinInt64: int := -0x8000_0000_0000_0000
  const MaxInt64: int := 0x7fff_ffff_ffff_ffff

  type Int32 = x: int | -0x8000_0000 <= x <= 0x7fff_ffff
  type Int64 = x: int | -0x8000_0000_0000_0000 <= x <= 0x7fff_ffff_ffff_ffff

  /** Go's `int32(x)`: keep the low 32 bits, read them in two's complement. */
  function Wrap32(x: int): (r: Int32)
    ensures MinInt32 <= x <= MaxInt32 ==> r == x
    ensures (x - r) % 0x1_0000_0000 == 0
  {
    (x - MinInt32) % 0x1_0000_0000 + MinInt32
  }

  /** Go's wrapping 64-bit arithmetic on `int` and `time.Duration`. */
  function Wrap64(x: int): (r: Int64)
    ensures MinInt64 <= x <= MaxInt64 ==> r == x
    ensures (x - r) % 0x1_0000_0000_0000_0000 == 0
  {
    (x - MinInt64) % 0x1_0000_0000_0000_0000 + MinInt64
  }

  /** Wrapping after every increment is the same as wrapping once at the end. */
  lemma Wrap32Step(x: int)
    ensures Wrap32(Wrap32(x) + 1) == Wrap32(x + 1)
  {
    var k := (x - Wrap32(x)) / 0x1_0000_0000;
    assert x == Wrap32(x) + k * 0x1_0000_0000;
    assert (x + 1 - MinInt32) == (Wrap32(x) + 1 - MinInt32) + k * 0x1_0000_0000;
  }

  /** Wrapping a 64-bit running sum after every addition is the same as wrapping the exact sum. */
  lemma Wrap64Add(x: int, y: int)
    ensures Wrap64(Wrap64(x) + y) == Wrap64(x + y)
  {
    var k := (x - Wrap64(x)) / 0x1_0000_0000_0000_0000;
    assert x == Wrap64(x) + k * 0x1_0000_0000_0000_0000;
    assert (x + y - MinInt64) == (Wrap64(x) + y - MinInt64) + k * 0x1_0000_0000_0000_0000;
  }
}
