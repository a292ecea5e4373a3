/**
 * Bit packing of two coordinates into one number (`MathUtils`).
 *
 * `pairInt(x, y)` is `((long) x << 32) | (y & 0xffffffffL)`: the low 32 bits
 * of `(long) x << 32` are zero, so the `|` adds the unsigned low word of `y`
 * and the result is `x * 2^32 + (y mod 2^32)` as a signed 64-bit value.
 * `pair(x, y)` does the same with 16-bit halves inside an `int`.
 */
module MathUtils {
  import opened JavaLang

  const TWO16: int := 0x1_0000
  const TWO32: int := 0x1_0000_0000

  /** The key of a chunk: `x` in the high 32 bits, the bit pattern of `y` in the low 32. */
  function PairInt(x: i32, y: i32): (r: i64)
    ensures r / TWO32 == x as int
    ensures r % TWO32 == (y as int) % TWO32
  {
    x as int * TWO32 + (y as int) % TWO32
  }

  /** Reads the signed 32-bit value stored in the low word of `r`. */
  function LowInt(r: int): (y: i32)
    ensures y as int % TWO32 == r % TWO32
  {
    var u := r % TWO32;
    if u > INT_MAX then u - TWO32 else u
  }

  /** Unpacks a chunk key into its two coordinates (`r >> 32` and `(int) r`). */
  function UnpairInt(r: i64): (int, i32)
  {
    (r / TWO32, LowInt(r))
  }

  lemma UnpairPairInt(x: i32, y: i32)
    ensures UnpairInt(PairInt(x, y)) == (x as int, y)
  {
    var r := PairInt(x, y);
    var u := (y as int) % TWO32;
    assert r % TWO32 == u;
    if y < 0 {
      assert u == y as int + TWO32;
    } else {
      assert u == y as int;
    }
  }

  /** `pairInt` is injective: distinct coordinate pairs have distinct keys. */
  lemma PairIntInjective(x1: i32, y1: i32, x2: i32, y2: i32)
    requires PairInt(x1, y1) == PairInt(x2, y2)
    ensures x1 == x2 && y1 == y2
  {
    UnpairPairInt(x1, y1);
    UnpairPairInt(x2, y2);
  }

  /** The chunk hash code: `x` in the high 16 bits, the bit pattern of `y` in the low 16. */
  function Pair(x: i16, y: i16): (r: i32)
    ensures r / TWO16 == x as int
    ensures r % TWO16 == (y as int) % TWO16
  {
    x as int * TWO16 + (y as int) % TWO16
  }

  function LowShort(r: int): (y: i16)
    ensures y as int % TWO16 == r % TWO16
  {
    var u := r % TWO16;
    if u > SHORT_MAX then u - TWO16 else u
  }

  lemma UnpairPair(x: i16, y: i16)
    ensures Pair(x, y) / TWO16 == x as int && LowShort(Pair(x, y)) == y
  {
    var u := (y as int) % TWO16;
    if y < 0 {
      assert u == y as int + TWO16;
    } else {
      assert u == y as int;
    }
  }

  /** `pair` is injective over pairs of shorts. */
  lemma PairInjective(x1: i16, y1: i16, x2: i16, y2: i16)
    requires Pair(x1, y1) == Pair(x2, y2)
    ensures x1 == x2 && y1 == y2
  {
    UnpairPair(x1, y1);
    UnpairPair(x2, y2);
  }
}
