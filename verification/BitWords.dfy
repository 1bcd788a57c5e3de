/** Words as bit sequences, most significant bit first. */
module BitWords {
  import opened Basics

  /** The low `w` bits of a number. */
  function BitsOf(n: nat, w: nat): (b: Bits)
    ensures |b| == w
  {
    if w == 0 then [] else BitsOf(n / 2, w - 1) + [n % 2 == 1]
  }

  /** The number a word stands for. */
  function Value(b: Bits): nat {
    if b == [] then 0 else 2 * Value(b[..|b| - 1]) + if b[|b| - 1] then 1 else 0
  }

  lemma {:induction false} ValueInverts(n: nat, w: nat)
    requires n < Pow2(w)
    ensures Value(BitsOf(n, w)) == n
  {
    if w > 0 {
      ValueInverts(n / 2, w - 1);
      assert BitsOf(n, w)[..w - 1] == BitsOf(n / 2, w - 1);
    }
  }

  lemma {:induction false} BitsInverts(b: Bits)
    ensures Value(b) < Pow2(|b|) && BitsOf(Value(b), |b|) == b
  {
    if b != [] {
      BitsInverts(b[..|b| - 1]);
      assert Value(b) / 2 == Value(b[..|b| - 1]);
      assert b == b[..|b| - 1] + [b[|b| - 1]];
    }
  }

  /** `n >> k`. */
  function Shr(n: nat, k: nat): nat { if k == 0 then n else Shr(n / 2, k - 1) }

  /** `n << k`. */
  function Shl(n: nat, k: nat): nat { if k == 0 then n else 2 * Shl(n, k - 1) }

  /** The low `w` bits as a number. */
  function Low(n: nat, w: nat): nat { if w == 0 then 0 else 2 * Low(n / 2, w - 1) + n % 2 }

  /** The upper and the lower bits of a number. */
  lemma {:induction false} BitsSplit(n: nat, a: nat, b: nat)
    ensures BitsOf(n, a + b) == BitsOf(Shr(n, b), a) + BitsOf(n, b)
  {
    if b > 0 {
      BitsSplit(n / 2, a, b - 1);
      assert BitsOf(Shr(n, b), a) + BitsOf(n, b) == (BitsOf(Shr(n, b), a) + BitsOf(n / 2, b - 1)) + [n % 2 == 1];
    }
  }

  lemma {:induction false} ShiftedIn(n: nat, v: nat, k: nat)
    requires v < Pow2(k)
    ensures Shr(Shl(n, k) + v, k) == n && BitsOf(Shl(n, k) + v, k) == BitsOf(v, k)
  {
    if k > 0 {
      ShiftedIn(n, v / 2, k - 1);
      assert (2 * Shl(n, k - 1) + v) / 2 == Shl(n, k - 1) + v / 2;
    }
  }

  /** Only the low bits matter. */
  lemma {:induction false} BitsOfLow(n: nat, w: nat, k: nat)
    requires w <= k
    ensures BitsOf(Low(n, k), w) == BitsOf(n, w)
  {
    if w > 0 {
      BitsOfLow(n / 2, w - 1, k - 1);
      assert Low(n, k) / 2 == Low(n / 2, k - 1) && Low(n, k) % 2 == n % 2;
    }
  }

  lemma {:induction false} LowIsValue(n: nat, w: nat)
    ensures Low(n, w) == Value(BitsOf(n, w)) && Low(n, w) < Pow2(w)
  {
    if w > 0 {
      LowIsValue(n / 2, w - 1);
      assert BitsOf(n, w)[..w - 1] == BitsOf(n / 2, w - 1);
    }
  }

  // ---------------------------------------------------------------- exclusive or

  function Xor(a: Bits, b: Bits): (c: Bits)
    requires |a| == |b|
    ensures |c| == |a| && forall i :: 0 <= i < |a| ==> c[i] == (a[i] != b[i])
  {
    seq(|a|, i requires 0 <= i < |a| => a[i] != b[i])
  }

  function Zero(n: nat): (z: Bits)
    ensures |z| == n && forall i :: 0 <= i < n ==> !z[i]
  {
    seq(n, _ => false)
  }

  lemma XorShuffle(a: Bits, b: Bits, c: Bits, d: Bits)
    requires |a| == |b| == |c| == |d|
    ensures Xor(Xor(a, b), Xor(c, d)) == Xor(Xor(a, c), Xor(b, d))
  {
  }

  lemma XorWithZero(a: Bits)
    ensures Xor(a, Zero(|a|)) == a && Xor(Zero(|a|), a) == a
  {
  }

  lemma XorSelf(a: Bits, b: Bits)
    requires |a| == |b|
    ensures Xor(a, Xor(a, b)) == b && Xor(a, a) == Zero(|a|)
  {
  }

  /** `a ^ b`. */
  function XorInt(a: nat, b: nat): nat
    decreases a + b
  {
    if a == 0 && b == 0 then 0 else 2 * XorInt(a / 2, b / 2) + if a % 2 == b % 2 then 0 else 1
  }

  lemma {:induction false} XorWords(a: nat, b: nat, w: nat)
    ensures BitsOf(XorInt(a, b), w) == Xor(BitsOf(a, w), BitsOf(b, w))
    ensures a < Pow2(w) && b < Pow2(w) ==> XorInt(a, b) < Pow2(w)
  {
    if w > 0 {
      XorWords(a / 2, b / 2, w - 1);
    }
  }

  lemma {:induction false} BitsOfZero(w: nat)
    ensures BitsOf(0, w) == Zero(w)
  {
    if w > 0 { BitsOfZero(w - 1); }
  }

  lemma {:induction false} ShiftedOut(n: nat, k: nat)
    requires n < Pow2(k)
    ensures Shr(n, k) == 0
  {
    if k > 0 { ShiftedOut(n / 2, k - 1); }
  }

  lemma {:induction false} ShlBelow(n: nat, k: nat, w: nat)
    requires n < Pow2(w)
    ensures Shl(n, k) < Pow2(w + k)
  {
    if k > 0 { ShlBelow(n, k - 1, w); }
  }

  /** Bit `i` of a number, counted from the low end. */
  lemma {:induction false} BitAt(n: nat, w: nat, i: nat)
    requires i < w
    ensures BitsOf(n, w)[w - 1 - i] <==> Low(Shr(n, i), 1) != 0
  {
    if i > 0 { BitAt(n / 2, w - 1, i - 1); }
  }
}
