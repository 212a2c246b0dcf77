/** Fixed-width integers of the Rust source, and its wrapping casts. */
module Numbers {

  const TWO_31: int := 0x8000_0000
  const TWO_32: int := 0x1_0000_0000
  const TWO_53: int := 0x20_0000_0000_0000
  const TWO_63: int := 0x8000_0000_0000_0000
  const TWO_64: int := 0x1_0000_0000_0000_0000
  const TWO_127: int := 0x8000_0000_0000_0000_0000_0000_0000_0000
  const TWO_128: int := 0x1_0000_0000_0000_0000_0000_0000_0000_0000

  type u64 = x: int | 0 <= x < TWO_64
  type u128 = x: int | 0 <= x < TWO_128
  type i32 = x: int | -TWO_31 <= x < TWO_31
  type i64 = x: int | -TWO_63 <= x < TWO_63

  ghost predicate FitsI64(x: int) {
    -TWO_63 <= x < TWO_63
  }

  /** `x as i64` of a wider integer, and the result of wrapping 64-bit arithmetic. */
  function WrapI64(x: int): (r: i64)
    ensures (x - r) % TWO_64 == 0
  {
    (x + TWO_63) % TWO_64 - TWO_63
  }

  /** `x as i128`, likewise. */
  function WrapI128(x: int): (r: int)
    ensures -TWO_127 <= r < TWO_127 && (x - r) % TWO_128 == 0
  {
    (x + TWO_127) % TWO_128 - TWO_127
  }

  /** `x as i32`. */
  function WrapI32(x: int): (r: i32)
    ensures (x - r) % TWO_32 == 0
  {
    (x + TWO_31) % TWO_32 - TWO_31
  }

  /** A wrapped value is the value itself exactly when it fits. */
  lemma WrapExact(x: int)
    ensures WrapI64(x) == x <==> FitsI64(x)
  {
  }

  lemma WrapShift(x: int, k: int)
    ensures WrapI64(x + k * TWO_64) == WrapI64(x)
  {
    var q := (x + TWO_63) / TWO_64;
    assert x + k * TWO_64 + TWO_63 == (q + k) * TWO_64 + (x + TWO_63) % TWO_64;
  }

  /** Wrapping early or late makes no difference to a sum or to a difference. */
  lemma WrapAdd(x: int, y: int)
    ensures WrapI64(WrapI64(x) + WrapI64(y)) == WrapI64(x + y)
    ensures WrapI64(WrapI64(x) - WrapI64(y)) == WrapI64(x - y)
  {
    var i, j := (x - WrapI64(x)) / TWO_64, (y - WrapI64(y)) / TWO_64;
    WrapShift(WrapI64(x) + WrapI64(y), i + j);
    WrapShift(WrapI64(x) - WrapI64(y), i - j);
  }

  /** A result in 128 bits of subtracting y from x: exact where the difference fits. */
  ghost predicate Difference(r: int, x: u128, y: u128) {
    && -TWO_127 <= r < TWO_127
    && (r - (x - y)) % TWO_128 == 0
    && (-TWO_127 <= x - y < TWO_127 ==> r == x - y)
  }

  lemma Multiple(k: int)
    ensures (k * TWO_128) % TWO_128 == 0
    ensures -TWO_128 < k * TWO_128 < TWO_128 ==> k == 0
  {
  }

  /** Casting to 128 bits before and after a subtraction. */
  lemma WrapDifference(x: u128, y: u128)
    ensures Difference(WrapI128(WrapI128(x) - WrapI128(y)), x, y)
  {
    var a, b := WrapI128(x), WrapI128(y);
    var r := WrapI128(a - b);
    hide WrapI128;
    var i, j, k := (x - a) / TWO_128, (y - b) / TWO_128, (a - b - r) / TWO_128;
    assert x - a == i * TWO_128 && y - b == j * TWO_128 && a - b - r == k * TWO_128;
    assert r - (x - y) == (j - i - k) * TWO_128;
    Multiple(j - i - k);
  }
}
