/** The fixed-width integers of the runtime.

The runtime is built with the release profile, in which `+` on a `u32` wraps
around instead of trapping; `AddU32` is that operator.
*/
module Bounded {

  const TWO_32: int := 0x1_0000_0000
  const TWO_64: int := 0x1_0000_0000_0000_0000
  const MAX_U32: int := 0xFFFF_FFFF
  const MAX_U64: int := 0xFFFF_FFFF_FFFF_FFFF

  type u32 = x: int | 0 <= x < 0x1_0000_0000
  type u64 = x: int | 0 <= x < 0x1_0000_0000_0000_0000

  /** Two's complement truncation to 32 bits. */
  function TruncateU32(x: int): u32 {
    x % 0x1_0000_0000
  }

  function AddU32(a: u32, b: u32): u32 {
    TruncateU32(a + b)
  }

  function SaturatingAddU32(a: u32, b: u32): u32 {
    if a + b > MAX_U32 then MAX_U32 else a + b
  }

  function SaturatingAddU64(a: u64, b: u64): u64 {
    if a + b > MAX_U64 then MAX_U64 else a + b
  }

  function Min(a: int, b: int): int {
    if a <= b then a else b
  }

  function Max(a: int, b: int): int {
    if a <= b then b else a
  }

  function Distance(a: int, b: int): nat {
    if a <= b then b - a else a - b
  }

  function Div(x: nat, n: nat): nat
    requires n > 0
  {
    x / n
  }

  lemma MulSuccessor(c: nat, a: nat)
    ensures (a + 1) * c == a * c + c
  {
  }

  lemma MulMonotone(c: nat, a: nat, b: nat)
    requires a <= b
    ensures c * a <= c * b
  {
    assert c * b == c * a + c * (b - a);
  }

  lemma DivTimes(x: nat, n: nat)
    requires n > 0
    ensures n * (x / n) <= x < n * (x / n) + n
  {
  }

  lemma DivAtLeast(x: nat, n: nat, q: nat)
    requires n > 0 && n * q <= x
    ensures q <= x / n
  {
    if x / n < q {
      MulMonotone(n, x / n + 1, q);
    }
  }

  lemma DivAtMost(x: nat, n: nat, q: nat)
    requires n > 0 && x < n * q + n
    ensures x / n <= q
  {
    if q < x / n {
      MulMonotone(n, q + 1, x / n);
    }
  }
}
