/** Machine words and the small result types shared by every component. */
module Words {

  const U64_LIMIT: int := 0x1_0000_0000_0000_0000
  const U32_LIMIT: int := 0x1_0000_0000

  type u64 = x: int | 0 <= x < U64_LIMIT
  type u32 = x: int | 0 <= x < U32_LIMIT

  /** Unsigned 64-bit arithmetic keeps the low 64 bits of the exact result. */
  function Wrap64(x: int): u64 {
    x % U64_LIMIT
  }

  /** Reducing a summand first does not change a wrapped sum. */
  lemma WrapOfSum(a: int, b: int)
    ensures Wrap64(Wrap64(a) + b) == Wrap64(a + b)
  {
    assert (a % 0x1_0000_0000_0000_0000 + b) % 0x1_0000_0000_0000_0000 == (a + b) % 0x1_0000_0000_0000_0000;
  }

  datatype Option<+T> = None | Some(value: T)

  function Min(a: int, b: int): int {
    if a <= b then a else b
  }

  function Max(a: int, b: int): int {
    if a >= b then a else b
  }
}
