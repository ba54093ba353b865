/** The C integer types that the firmware's arithmetic runs in. */
module MachineInt {
  type byte = b: int | 0 <= b < 256

  const TWO31: int := 0x8000_0000
  const TWO32: int := 0x1_0000_0000

  /** Conversion to `unsigned int`: the value modulo 2^32. */
  function U32(x: int): (r: int)
    ensures 0 <= r < TWO32
    ensures 0 <= x < TWO32 ==> r == x
  {
    x % 0x1_0000_0000
  }

  /** Conversion to `int`: the two's complement reading of the low 32 bits. */
  function I32(x: int): (r: int)
    ensures -TWO31 <= r < TWO31
    ensures -TWO31 <= x < TWO31 ==> r == x
    ensures U32(r) == U32(x)
  {
    if U32(x) < TWO31 then U32(x) else U32(x) - TWO32
  }

  /** Sums and differences may be cut before or after. */
  lemma WrapSum(a: int, b: int)
    ensures U32(U32(a) + b) == U32(a + b)
    ensures U32(U32(a) - b) == U32(a - b)
  {
  }

  /** C division by a positive divisor: the quotient is truncated towards zero. */
  function TruncDiv(a: int, b: int): int
    requires b > 0
  {
    if a >= 0 then a / b else -((-a) / b)
  }
}
