/** Machine integers: the ranges that matter, a flag as a number, and a fact about products. */
module Machine {
  const TWO32: nat := 0x1_0000_0000
  const TWO63: int := 0x8000_0000_0000_0000
  const TWO64: int := 0x1_0000_0000_0000_0000
  const INT_MAX: nat := 0x7fff_ffff

  function One(b: bool): nat {
    if b then 1 else 0
  }

  lemma MulMono(a: int, b: int, n: int)
    requires a <= b && n >= 0
    ensures a * n <= b * n
  {
    assert (b - a) * n >= 0;
  }
}
