/** The Lisk32 checksum of LIP-0018 (pkg/codec/bytes.go): polymod over 30-bit words. */
module Lisk32Checksum {
  import opened Basics
  import opened BitWords

  /** A 5-bit value. */
  predicate Five(v: Bits) { |v| == 5 }

  predicate AllFive(values: seq<Bits>) { forall i :: 0 <= i < |values| ==> Five(values[i]) }

  const GENERATOR: seq<nat> := [0x3b6a57b2, 0x26508e6d, 0x1ea119fa, 0x3d4233dd, 0x2a1462b3]

  function Generator(i: nat): (g: Bits)
    requires i < 5
    ensures |g| == 30
  {
    BitsOf(GENERATOR[i], 30)
  }

  const ONE: Bits := Zero(29) + [true]

  predicate AllBelow(xs: seq<int>, w: nat) { forall i :: 0 <= i < |xs| ==> 0 <= xs[i] < Pow2(w) }

  /** Numbers as 5-bit values. */
  function Words(values: seq<nat>): (w: seq<Bits>)
    ensures AllFive(w) && |w| == |values|
  {
    seq(|values|, i requires 0 <= i < |values| => BitsOf(values[i], 5))
  }

  lemma OneWord(n: nat)
    requires n < Pow2(30)
    ensures n == 1 <==> BitsOf(n, 30) == ONE
  {
    hide Pow2, BitsOf, Value;
    BitsOfOne();
    ValueInverts(n, 30);
    PowThirty();
    ValueInverts(1, 30);
  }

  lemma BitsOfOne()
    ensures BitsOf(1, 30) == ONE
  {
    BitsOfZero(29);
  }

  // ---------------------------------------------------------------- polymod

  /** The inner loop of polymod: generator `i` is mixed in for bit `i` of the top five, counted from the low end. */
  function Mixed(c: Bits, top: Bits, n: nat): (r: Bits)
    requires |c| == 30 && |top| == 5 && n <= 5
    ensures |r| == 30
  {
    if n == 0 then c
    else if top[5 - n] then Xor(Mixed(c, top, n - 1), Generator(n - 1))
    else Mixed(c, top, n - 1)
  }

  /** One turn of polymod: shift five bits out and a value in, then mix. */
  function Step(c: Bits, v: Bits): (r: Bits)
    requires |c| == 30 && Five(v)
    ensures |r| == 30
  {
    Mixed(c[5..] + v, c[..5], 5)
  }

  function Fold(c: Bits, values: seq<Bits>): (r: Bits)
    requires |c| == 30 && AllFive(values)
    ensures |r| == 30
  {
    if values == [] then c else Step(Fold(c, values[..|values| - 1]), values[|values| - 1])
  }

  function PolymodOf(values: seq<Bits>): (r: Bits)
    requires AllFive(values)
    ensures |r| == 30
  {
    Fold(ONE, values)
  }

  /** Shifting five bits out and a value in. */
  lemma ShiftWord(chk: nat, v: nat)
    requires v < Pow2(5)
    ensures
      var next := XorInt(Shl(Low(chk, 25), 5), v);
      next < Pow2(30) && BitsOf(next, 30) == BitsOf(chk, 30)[5..] + BitsOf(v, 5)
    ensures BitsOf(Shr(chk, 25), 5) == BitsOf(chk, 30)[..5]
  {
    hide Pow2, BitsOf, Low, Shl, Shr, XorInt, Value;
    BitsSplit(chk, 5, 25);
    ShiftedWord(chk);
    LowWord(v);
    var a, b, high := Shl(Low(chk, 25), 5), BitsOf(v, 5), BitsOf(chk, 25);
    XorWords(a, v, 30);
    XorWithZero(high);
    XorWithZero(b);
    assert Xor(high + Zero(5), Zero(25) + b) == Xor(high, Zero(25)) + Xor(Zero(5), b);
  }

  lemma ShiftedWord(chk: nat)
    ensures Shl(Low(chk, 25), 5) < Pow2(30) && BitsOf(Shl(Low(chk, 25), 5), 30) == BitsOf(chk, 25) + Zero(5)
  {
    hide Pow2, BitsOf, Low, Shl, Shr, Value;
    var n := Low(chk, 25);
    BitsSplit(Shl(n, 5), 25, 5);
    ShiftedIn(n, 0, 5);
    BitsOfLow(chk, 25, 25);
    BitsOfZero(5);
    LowIsValue(chk, 25);
    ShlBelow(n, 5, 25);
  }

  lemma LowWord(v: nat)
    requires v < Pow2(5)
    ensures v < Pow2(30) && BitsOf(v, 30) == Zero(25) + BitsOf(v, 5)
  {
    hide BitsOf, Shr;
    BitsSplit(v, 25, 5);
    ShiftedOut(v, 5);
    BitsOfZero(25);
    PowThirty();
  }

  /** Mixing a generator word in. */
  lemma MixWord(chk: nat, i: nat)
    requires chk < Pow2(30) && i < 5
    ensures XorInt(chk, GENERATOR[i]) < Pow2(30) && BitsOf(XorInt(chk, GENERATOR[i]), 30) == Xor(BitsOf(chk, 30), Generator(i))
  {
    hide BitsOf, XorInt, Xor;
    XorWords(chk, GENERATOR[i], 30);
    PowThirty();
  }

  /** polymod: the shifts, masks and exclusive ors on numbers are the fold on words. */
  method Polymod(values: seq<nat>) returns (chk: nat)
    requires AllBelow(values, 5)
    ensures chk < Pow2(30) && BitsOf(chk, 30) == PolymodOf(Words(values))
  {
    hide Generator, Xor, BitsOf, Pow2, Shr, Shl, Low, XorInt;
    chk := 1;
    PowThirty();
    BitsOfOne();
    for p := 0 to |values|
      invariant chk < Pow2(30) && BitsOf(chk, 30) == Fold(ONE, Words(values[..p]))
    {
      ghost var before, word := BitsOf(chk, 30), BitsOf(values[p], 5);
      ShiftWord(chk, values[p]);
      var top := Shr(chk, 25);
      chk := XorInt(Shl(Low(chk, 25), 5), values[p]);
      for i := 0 to 5
        invariant chk < Pow2(30) && BitsOf(chk, 30) == Mixed(before[5..] + word, before[..5], i)
      {
        BitAt(top, 5, i);
        MixWord(chk, i);
        if Low(Shr(top, i), 1) != 0 {
          chk := XorInt(chk, GENERATOR[i]);
        }
      }
      assert Words(values[..p + 1])[..p] == Words(values[..p]);
    }
    assert values[..|values|] == values;
  }

  // ---------------------------------------------------------------- linearity

  lemma {:induction false} MixedLinear(a: Bits, b: Bits, s: Bits, t: Bits, n: nat)
    requires |a| == |b| == 30 && |s| == |t| == 5 && n <= 5
    ensures Mixed(Xor(a, b), Xor(s, t), n) == Xor(Mixed(a, s, n), Mixed(b, t, n))
  {
    hide Generator;
    if n > 0 {
      MixedLinear(a, b, s, t, n - 1);
      var x, y, g := Mixed(a, s, n - 1), Mixed(b, t, n - 1), Generator(n - 1);
      XorShuffle(x, y, g, g);
      XorSelf(g, g);
      XorShuffle(x, y, g, Zero(30));
      XorShuffle(x, y, Zero(30), g);
      XorWithZero(g);
      XorWithZero(x);
      XorWithZero(y);
      XorWithZero(Xor(x, y));
    }
  }

  /** The turn is linear in the word and the value together. */
  lemma StepLinear(a: Bits, b: Bits, v: Bits, w: Bits)
    requires |a| == |b| == 30 && Five(v) && Five(w)
    ensures Step(Xor(a, b), Xor(v, w)) == Xor(Step(a, v), Step(b, w))
  {
    hide Mixed;
    assert Xor(a, b)[5..] + Xor(v, w) == Xor(a[5..] + v, b[5..] + w);
    assert Xor(a, b)[..5] == Xor(a[..5], b[..5]);
    MixedLinear(a[5..] + v, b[5..] + w, a[..5], b[..5], 5);
  }

  lemma {:induction false} MixedNothing(c: Bits, n: nat)
    requires |c| == 30 && n <= 5
    ensures Mixed(c, Zero(5), n) == c
  {
    hide Generator;
    if n > 0 { MixedNothing(c, n - 1); }
  }

  function Concat(c: seq<Bits>): (r: Bits)
    requires AllFive(c)
    ensures |r| == 5 * |c|
  {
    if c == [] then [] else Concat(c[..|c| - 1]) + c[|c| - 1]
  }

  function Zeros(n: nat): (r: seq<Bits>)
    ensures |r| == n && AllFive(r)
  {
    seq(n, _ => Zero(5))
  }

  /** Folding up to six values in is folding zeros in, with the values themselves on top. */
  lemma {:induction false} FoldSplits(s: Bits, c: seq<Bits>)
    requires |s| == 30 && AllFive(c) && |c| <= 6
    ensures Fold(s, c) == Xor(Fold(s, Zeros(|c|)), Zero(30 - 5 * |c|) + Concat(c))
  {
    hide Mixed, Generator, BitsOf, Xor, Zero;
    if c == [] {
      assert Zero(30) + [] == Zero(30);
      XorWithZero(s);
    } else {
      var n := |c| - 1;
      var z, m, v := Fold(s, Zeros(n)), Zero(30 - 5 * n) + Concat(c[..n]), c[n];
      FoldSplits(s, c[..n]);
      assert Zeros(n + 1)[..n] == Zeros(n);
      XorWithZero(v);
      StepLinear(z, m, Zero(5), v);
      assert m[..5] == Zero(5);
      MixedNothing(m[5..] + v, 5);
      assert m[5..] + v == Zero(30 - 5 * |c|) + Concat(c);
    }
  }

  lemma {:induction false} FoldAppend(s: Bits, a: seq<Bits>, b: seq<Bits>)
    requires |s| == 30 && AllFive(a) && AllFive(b)
    ensures AllFive(a + b) && Fold(s, a + b) == Fold(Fold(s, a), b)
  {
    hide Step;
    if b == [] {
      assert a + b == a;
    } else {
      assert (a + b)[..|a + b| - 1] == a + b[..|b| - 1];
      FoldAppend(s, a, b[..|b| - 1]);
    }
  }

  // ---------------------------------------------------------------- checksums

  /** A 30-bit word in six groups. */
  function Groups(m: Bits): (c: seq<Bits>)
    requires |m| == 30
    ensures |c| == 6 && AllFive(c)
  {
    [m[0..5], m[5..10], m[10..15], m[15..20], m[20..25], m[25..30]]
  }

  lemma ConcatNext(c: seq<Bits>, n: nat)
    requires AllFive(c) && n < |c|
    ensures Concat(c[..n + 1]) == Concat(c[..n]) + c[n]
  {
    assert c[..n + 1][..n] == c[..n];
  }

  lemma ConcatSix(c: seq<Bits>)
    requires AllFive(c) && |c| == 6
    ensures Concat(c) == c[0] + c[1] + c[2] + c[3] + c[4] + c[5]
  {
    hide Concat;
    ConcatNothing(c[..0]);
    ConcatNext(c, 0);
    ConcatNext(c, 1);
    ConcatNext(c, 2);
    ConcatNext(c, 3);
    ConcatNext(c, 4);
    ConcatNext(c, 5);
    assert c[..6] == c;
  }

  lemma ConcatNothing(c: seq<Bits>)
    requires c == []
    ensures Concat(c) == []
  {
  }

  /** Six groups and the word they make up determine each other. */
  lemma GroupsInvert(m: Bits, c: seq<Bits>)
    requires |m| == 30 && AllFive(c) && |c| == 6
    ensures Concat(c) == m <==> c == Groups(m)
  {
    ConcatSix(c);
    if c == Groups(m) {
      assert m == m[0..5] + m[5..10] + m[10..15] + m[15..20] + m[20..25] + m[25..30];
    }
    if Concat(c) == m {
      assert c[0] == m[0..5] && c[1] == m[5..10] && c[2] == m[10..15];
      assert c[3] == m[15..20] && c[4] == m[20..25] && c[5] == m[25..30];
    }
  }

  /** The checksum as words. */
  function Checksum(values: seq<Bits>): (c: seq<Bits>)
    requires AllFive(values)
    ensures |c| == 6 && AllFive(c)
  {
    Groups(Xor(PolymodOf(values + Zeros(6)), ONE))
  }

  /** The five bits of a word from the bit `5 * p` on. */
  lemma GroupWord(mod: nat, p: nat)
    requires p < 6
    ensures
      var g := Low(Shr(mod, 5 * (5 - p)), 5);
      g < Pow2(5) && BitsOf(g, 5) == BitsOf(mod, 30)[5 * p..5 * p + 5]
  {
    hide BitsOf, Low, Shr, Value;
    var up := Shr(mod, 5 * (5 - p));
    BitsSplit(mod, 5 * p + 5, 5 * (5 - p));
    BitsSplit(up, 5 * p, 5);
    BitsOfLow(up, 5, 5);
    LowIsValue(up, 5);
  }

  lemma WordsWithZeros(values: seq<nat>)
    requires AllBelow(values, 5)
    ensures AllBelow(values + [0, 0, 0, 0, 0, 0], 5) && Words(values + [0, 0, 0, 0, 0, 0]) == Words(values) + Zeros(6)
  {
    BitsOfZero(5);
  }

  /** createChecksum. */
  method CreateChecksum(values: seq<nat>) returns (c: seq<nat>)
    requires AllBelow(values, 5)
    ensures |c| == 6 && AllBelow(c, 5) && Words(c) == Checksum(Words(values))
  {
    hide Fold, BitsOf, Low, Shr, XorInt, Pow2;
    WordsWithZeros(values);
    var polymod := Polymod(values + [0, 0, 0, 0, 0, 0]);
    XorWords(polymod, 1, 30);
    BitsOfOne();
    var mod := XorInt(polymod, 1);
    ghost var word := BitsOf(mod, 30);
    c := [];
    for p := 0 to 6
      invariant |c| == p && forall q :: 0 <= q < p ==> c[q] < Pow2(5) && BitsOf(c[q], 5) == word[5 * q..5 * q + 5]
    {
      GroupWord(mod, p);
      c := c + [Low(Shr(mod, 5 * (5 - p)), 5)];
    }
    assert Words(c) == Groups(word);
  }

  /** Appending the checksum makes polymod equal 1, for every sequence of 5-bit values, and no other six values do. */
  lemma ChecksumCompletes(values: seq<Bits>, c: seq<Bits>)
    requires AllFive(values) && AllFive(c) && |c| == 6
    ensures AllFive(values + c) && (PolymodOf(values + c) == ONE <==> c == Checksum(values))
  {
    hide Fold, Groups, Concat;
    FoldAppend(ONE, values, c);
    FoldAppend(ONE, values, Zeros(6));
    FoldSplits(Fold(ONE, values), c);
    assert Zero(0) + Concat(c) == Concat(c);
    var z := PolymodOf(values + Zeros(6));
    XorSelf(z, Concat(c));
    XorSelf(z, ONE);
    GroupsInvert(Xor(z, ONE), c);
  }
}
