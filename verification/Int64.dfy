/** Signed 64-bit arithmetic. */
module Int64 {

  const I64: int := 0x8000_0000_0000_0000

  /** Two's-complement wrap-around of an int64 result. */
  function Wrap64(x: int): int
    decreases if x < -I64 then -x else if x >= I64 then x else 0
  {
    if x >= I64 then Wrap64(x - 2 * I64) else if x < -I64 then Wrap64(x + 2 * I64) else x
  }

  /** It is the one int64 that differs by a multiple of 2^64. */
  lemma {:induction false} WrapMeans(x: int)
    ensures -I64 <= Wrap64(x) < I64 && (Wrap64(x) - x) % (2 * I64) == 0
    decreases if x < -I64 then -x else if x >= I64 then x else 0
  {
    if x >= I64 {
      WrapMeans(x - 2 * I64);
      OneTurn(Wrap64(x) - x);
    } else if x < -I64 {
      WrapMeans(x + 2 * I64);
      OneTurn(Wrap64(x) - x - 2 * I64);
    }
  }

  lemma OneMore(n: int, x: int)
    ensures n * x == (n - 1) * x + x
  {
  }

  lemma OneTurn(d: int)
    ensures d % (2 * I64) == (d + 2 * I64) % (2 * I64)
  {
  }

  lemma WrapShift(x: int)
    ensures Wrap64(x + 2 * I64) == Wrap64(x)
  {
  }

  lemma {:induction false} WrapAdd(a: int, b: int)
    ensures Wrap64(Wrap64(a) + b) == Wrap64(a + b)
    decreases if a < -I64 then -a else if a >= I64 then a else 0
  {
    if a >= I64 {
      WrapAdd(a - 2 * I64, b);
      WrapShift(a - 2 * I64 + b);
    } else if a < -I64 {
      WrapAdd(a + 2 * I64, b);
      WrapShift(a + b);
    }
  }
}
