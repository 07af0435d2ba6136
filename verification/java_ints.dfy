/** Java's fixed-width integers: `int` and `long` as ranges of the
    mathematical integers, and the two's-complement wrap-around that `int`
    arithmetic performs on overflow. */
module JavaInts {

  const INT_MIN: int := -0x8000_0000
  const INT_MAX: int := 0x7FFF_FFFF
  const LONG_MIN: int := -0x8000_0000_0000_0000
  const LONG_MAX: int := 0x7FFF_FFFF_FFFF_FFFF

  type Int32 = x: int | INT_MIN <= x <= INT_MAX
  type Int64 = x: int | LONG_MIN <= x <= LONG_MAX

  /** The `int` that two's-complement arithmetic leaves for the exact value
      `x`: the one congruent to `x` modulo 2^32. */
  function Wrap32(x: int): (r: Int32)
    ensures (r - x) % 0x1_0000_0000 == 0
  {
    var m := x % 0x1_0000_0000;
    if m <= INT_MAX then m else m - 0x1_0000_0000
  }

  /** Wrapping is the identity on values that already fit. */
  lemma Wrap32OfInt32(x: Int32)
    ensures Wrap32(x) == x
  {
  }

  /** Only the residue modulo 2^32 matters: values that differ by a
      multiple of 2^32 wrap to the same `int`. */
  lemma Wrap32Congruent(x: int, y: int)
    requires (x - y) % 0x1_0000_0000 == 0
    ensures Wrap32(x) == Wrap32(y)
  {
    var q := (x - y) / 0x1_0000_0000;
    assert x == y + 0x1_0000_0000 * q;
    ShiftMod(y, q);
  }

  lemma ShiftMod(a: int, q: int)
    ensures (a + 0x1_0000_0000 * q) % 0x1_0000_0000 == a % 0x1_0000_0000
  {
  }

  /** `31 * h + e` in `int` arithmetic, the step of every Java hash fold. */
  function HashStep(h: Int32, e: Int32): Int32 {
    Wrap32(31 * h + e)
  }

  /** Wrapping the accumulator at every step is the same as wrapping the
      exact value once at the end. */
  lemma HashStepOfWrapped(x: int, e: int)
    ensures Wrap32(31 * Wrap32(x) + e) == Wrap32(31 * x + e)
  {
    var w := Wrap32(x);
    ScaledMultiple(w - x, 31);
    assert (31 * w + e) - (31 * x + e) == 31 * (w - x);
    Wrap32Congruent(31 * w + e, 31 * x + e);
  }

  /** A multiple of 2^32 stays one when scaled. */
  lemma ScaledMultiple(d: int, k: int)
    requires d % 0x1_0000_0000 == 0
    ensures (k * d) % 0x1_0000_0000 == 0
  {
    var q := d / 0x1_0000_0000;
    assert d == 0x1_0000_0000 * q;
    assert k * d == 0x1_0000_0000 * (k * q);
    ShiftMod(0, k * q);
  }
}
