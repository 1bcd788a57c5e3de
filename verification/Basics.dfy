/** Small notions that several parts of the model share. */
module Basics {

  datatype Option<+T> = None | Some(value: T)

  /** Bits, most significant first. */
  type Bits = seq<bool>

  function Min(x: nat, y: nat): nat { if x < y then x else y }

  function Max(x: nat, y: nat): nat { if x < y then y else x }

  function Pow2(n: nat): (p: nat)
    ensures p >= 1
  {
    if n == 0 then 1 else 2 * Pow2(n - 1)
  }

  lemma PowThirty()
    ensures Pow2(30) == 0x40000000
  {
    assert Pow2(6) == 64 && Pow2(12) == 0x1000 && Pow2(18) == 0x40000 && Pow2(24) == 0x1000000;
  }
}
