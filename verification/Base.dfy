/** Types every part of the model shares: optional values, results, and the
    machine integers of the Rust sources as subset types. */
module Base {

  datatype Option<+T> = None | Some(value: T)

  datatype Result<+T, +E> = Ok(value: T) | Err(error: E)

  const TWO_63 := 0x8000_0000_0000_0000
  const TWO_64 := 0x1_0000_0000_0000_0000
  const I64_MIN := -TWO_63
  const I64_MAX := TWO_63 - 1
  const U32_MAX := 0xFFFF_FFFF

  type i64 = x: int | -0x8000_0000_0000_0000 <= x <= 0x7FFF_FFFF_FFFF_FFFF
  type u64 = x: int | 0 <= x < 0x1_0000_0000_0000_0000
  type u32 = x: int | 0 <= x <= 0xFFFF_FFFF
  type byte = x: int | 0 <= x < 256

  /** What a 64-bit signed register holds after arithmetic that left its range
      (the release build wraps). */
  function WrapI64(x: int): (r: i64)
    ensures (r - x) % TWO_64 == 0
    ensures I64_MIN <= x <= I64_MAX ==> r == x
  {
    var m := x % TWO_64;
    if m < TWO_63 then m else m - TWO_64
  }

  /** Wrapping subtraction of two i64 values, without a division. */
  function SubI64(b: i64, a: i64): (r: i64)
    ensures r == WrapI64(b - a)
  {
    var d := b as int - a as int;
    if d < I64_MIN then d + TWO_64 else if I64_MAX < d then d - TWO_64 else d
  }

  /** Two wrapped values agree exactly when the exact ones agree modulo 2^64. */
  lemma WrapCongruent(x: int, y: int)
    ensures WrapI64(x) == WrapI64(y) <==> (x - y) % TWO_64 == 0
  {
  }

  function Min(a: int, b: int): int {
    if a <= b then a else b
  }

  function Max(a: int, b: int): int {
    if a <= b then b else a
  }
}
