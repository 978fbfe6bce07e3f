/** Go's fixed-width integers, where the sources rely on their width. */
module GoInts {
  type Uint8 = x: int | 0 <= x < 256

  /** The result of adding 1 to an unsigned byte, or of subtracting 1 from it. */
  function Byte(x: int): Uint8
    requires -1 <= x <= 256
  {
    if x == -1 then 255 else if x == 256 then 0 else x
  }

  lemma ByteIsModulo(x: int)
    requires -1 <= x <= 256
    ensures Byte(x) == x % 256
  {
  }

  const U64: int := 0x1_0000_0000_0000_0000

  type Sint64 = x: int | -0x8000_0000_0000_0000 <= x < 0x8000_0000_0000_0000

  /** Two's complement in 64 bits: the number of that range that differs by a multiple of 2^64. */
  function Int64(x: int): Sint64
    decreases if x < -0x8000_0000_0000_0000 then -x else if x >= 0x8000_0000_0000_0000 then x else 0
  {
    if x < -0x8000_0000_0000_0000 then Int64(x + U64)
    else if x >= 0x8000_0000_0000_0000 then Int64(x - U64)
    else x
  }

  lemma Int64Period(x: int)
    ensures Int64(x + U64) == Int64(x)
  {
  }

  lemma {:induction false} Int64Add(a: int, b: int)
    ensures Int64(Int64(a) + b) == Int64(a + b)
    decreases if a < -0x8000_0000_0000_0000 then -a else if a >= 0x8000_0000_0000_0000 then a else 0
  {
    if a < -0x8000_0000_0000_0000 {
      Int64Add(a + U64, b);
      Int64Period(a + b);
    } else if a >= 0x8000_0000_0000_0000 {
      Int64Add(a - U64, b);
      Int64Period(a - U64 + b);
    }
  }

  /** Within 64 bits of two's complement, and congruent to `x`: the only such number. */
  lemma {:induction false} Int64IsCongruent(x: int) returns (q: int)
    ensures x - Int64(x) == q * 0x1_0000_0000_0000_0000
    ensures -0x8000_0000_0000_0000 <= Int64(x) < 0x8000_0000_0000_0000
    decreases if x < -0x8000_0000_0000_0000 then -x else if x >= 0x8000_0000_0000_0000 then x else 0
  {
    if x < -0x8000_0000_0000_0000 {
      q := Int64IsCongruent(x + U64);
      q := q - 1;
    } else if x >= 0x8000_0000_0000_0000 {
      q := Int64IsCongruent(x - U64);
      q := q + 1;
    } else {
      q := 0;
    }
  }

  lemma Int64Fits(x: Sint64)
    ensures Int64(x) == x
  {
  }
}
