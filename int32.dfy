/** Fixed-width integers of the C# code: `int`, `long` and the unchecked narrowing between them. */
module Int32 {

  const TWO_32: int := 0x1_0000_0000

  type int32 = x: int | -0x8000_0000 <= x < 0x8000_0000
  type int64 = x: int | -0x8000_0000_0000_0000 <= x < 0x8000_0000_0000_0000

  predicate FitsInt32(x: int) {
    -0x8000_0000 <= x < 0x8000_0000
  }

  /** `unchecked((int)x)`: keeps the low 32 bits of `x`, read as a two's complement number.
      The result is the one 32-bit value congruent to `x` modulo 2^32. */
  function Narrow(x: int): (r: int32)
    ensures (r - x) % TWO_32 == 0
  {
    var m := x % TWO_32;
    if m >= 0x8000_0000 then m - TWO_32 else m
  }

  /** Two 32-bit values that agree modulo 2^32 are equal. */
  lemma CongruentInt32Equal(a: int32, b: int32)
    requires (a - b) % TWO_32 == 0
    ensures a == b
  {
    var d := a - b;
    assert -TWO_32 < d < TWO_32;
    assert d == (d / TWO_32) * TWO_32;
  }

  /** Narrowing leaves a value that already fits unchanged, so widening and then narrowing is the identity. */
  lemma NarrowFits(x: int)
    requires FitsInt32(x)
    ensures Narrow(x) == x
  {
    CongruentInt32Equal(Narrow(x), x);
  }

  /** Narrowing depends only on the low 32 bits. */
  lemma NarrowLow32(x: int, y: int)
    requires (x - y) % TWO_32 == 0
    ensures Narrow(x) == Narrow(y)
  {
    var a, b := Narrow(x), Narrow(y);
    assert (a - b) == (a - x) + (x - y) - (b - y);
    CongruentInt32Equal(a, b);
  }
}
