/** The checksum is linear over the field of 32 elements in which its 5-bit values are taken: polynomials with bits as
    coefficients, modulo x^5 + x^3 + 1 (pkg/codec/bytes.go). */
module Lisk32Scale {
  import opened Basics
  import opened BitWords
  import opened Lisk32Checksum

  // ---------------------------------------------------------------- digits

  function Bit(b: bool): nat { if b then 1 else 0 }

  lemma AddBit(n: nat, b: bool, w: nat)
    ensures BitsOf(2 * n + Bit(b), w + 1) == BitsOf(n, w) + [b]
  {
    assert (2 * n + Bit(b)) / 2 == n && ((2 * n + Bit(b)) % 2 == 1 <==> b);
  }

  /** The number with the given five bits. */
  function Number(a: bool, b: bool, c: bool, d: bool, e: bool): nat {
    2 * (2 * (2 * (2 * Bit(a) + Bit(b)) + Bit(c)) + Bit(d)) + Bit(e)
  }

  lemma FiveBits(a: bool, b: bool, c: bool, d: bool, e: bool)
    ensures BitsOf(Number(a, b, c, d, e), 5) == [a, b, c, d, e]
  {
    hide BitsOf, Bit;
    AddBit(0, a, 0);
    assert BitsOf(2 * 0 + Bit(a), 1) == [a] by { NoBits(); }
    AddBit(Bit(a), b, 1);
    AddBit(2 * Bit(a) + Bit(b), c, 2);
    AddBit(2 * (2 * Bit(a) + Bit(b)) + Bit(c), d, 3);
    AddBit(2 * (2 * (2 * Bit(a) + Bit(b)) + Bit(c)) + Bit(d), e, 4);
  }

  lemma NoBits()
    ensures BitsOf(0, 0) == []
  {
  }

  lemma DigitBits(n: nat, d: nat, w: nat)
    requires d < 32
    ensures BitsOf(32 * n + d, w + 5) == BitsOf(n, w) + BitsOf(d, 5)
  {
    hide BitsOf, Shl;
    BitsSplit(32 * n + d, w, 5);
    ShlFive(n);
    assert Pow2(5) == 32;
    ShiftedIn(n, d, 5);
  }

  lemma ShlFive(n: nat)
    ensures Shl(n, 5) == 32 * n
  {
    assert Shl(n, 1) == 2 * n;
    assert Shl(n, 2) == 4 * n;
    assert Shl(n, 3) == 8 * n;
    assert Shl(n, 4) == 16 * n;
  }

  /** The word with the given six digits. */
  function Digits(d: seq<nat>): nat
    requires |d| == 6
  {
    32 * (32 * (32 * (32 * (32 * d[0] + d[1]) + d[2]) + d[3]) + d[4]) + d[5]
  }

  lemma DigitGroups(d: seq<nat>)
    requires |d| == 6 && forall i :: 0 <= i < 6 ==> d[i] < 32
    ensures Groups(BitsOf(Digits(d), 30)) == Words(d)
  {
    hide BitsOf;
    var n1 := 32 * d[0] + d[1];
    var n2 := 32 * n1 + d[2];
    var n3 := 32 * n2 + d[3];
    var n4 := 32 * n3 + d[4];
    DigitBits(d[0], d[1], 5);
    DigitBits(n1, d[2], 10);
    DigitBits(n2, d[3], 15);
    DigitBits(n3, d[4], 20);
    DigitBits(n4, d[5], 25);
    var m := BitsOf(Digits(d), 30);
    assert m == BitsOf(d[0], 5) + BitsOf(d[1], 5) + BitsOf(d[2], 5) + BitsOf(d[3], 5) + BitsOf(d[4], 5) + BitsOf(d[5], 5);
    SixGroups(BitsOf(d[0], 5), BitsOf(d[1], 5), BitsOf(d[2], 5), BitsOf(d[3], 5), BitsOf(d[4], 5), BitsOf(d[5], 5));
    assert Words(d) == [BitsOf(d[0], 5), BitsOf(d[1], 5), BitsOf(d[2], 5), BitsOf(d[3], 5), BitsOf(d[4], 5), BitsOf(d[5], 5)];
  }

  lemma SixGroups(a: Bits, b: Bits, c: Bits, d: Bits, e: Bits, f: Bits)
    requires Five(a) && Five(b) && Five(c) && Five(d) && Five(e) && Five(f)
    ensures Groups(a + b + c + d + e + f) == [a, b, c, d, e, f]
  {
    var m := a + b + c + d + e + f;
    assert m[0..5] == a && m[5..10] == b && m[10..15] == c && m[15..20] == d && m[20..25] == e && m[25..30] == f;
  }

  const DIGITS: seq<seq<nat>> := [
    [29, 22, 20, 21, 29, 18],
    [19, 5, 1, 3, 19, 13],
    [15, 10, 2, 6, 15, 26],
    [30, 20, 4, 12, 30, 29],
    [21, 1, 8, 24, 21, 19]]

  lemma GeneratorGroups(i: nat)
    requires i < 5
    ensures Groups(Generator(i)) == Words(DIGITS[i])
  {
    hide BitsOf, Groups, Words;
    DigitGroups(DIGITS[i]);
    GeneratorNumbers();
  }

  lemma GeneratorNumbers()
    ensures GENERATOR[0] == Digits(DIGITS[0]) && GENERATOR[1] == Digits(DIGITS[1]) && GENERATOR[2] == Digits(DIGITS[2])
    ensures GENERATOR[3] == Digits(DIGITS[3]) && GENERATOR[4] == Digits(DIGITS[4])
  {
  }

  // ---------------------------------------------------------------- multiplication by x

  const CARRY: Bits := [false, true, false, false, true]

  function DoubleFive(v: Bits): (r: Bits)
    requires Five(v)
    ensures Five(r)
  {
    if v[0] then Xor(v[1..] + [false], CARRY) else v[1..] + [false]
  }

  function DoubleWord(m: Bits): (r: Bits)
    requires |m| == 30
    ensures |r| == 30
  {
    DoubleFive(m[0..5]) + DoubleFive(m[5..10]) + DoubleFive(m[10..15]) + DoubleFive(m[15..20]) + DoubleFive(m[20..25]) + DoubleFive(m[25..30])
  }

  lemma DoubleDigit(a: bool, b: bool, c: bool, d: bool, e: bool)
    ensures DoubleFive(BitsOf(Number(a, b, c, d, e), 5)) == BitsOf(Number(b, c != a, d, e, a), 5)
  {
    hide BitsOf, Number;
    FiveBits(a, b, c, d, e);
    FiveBits(b, c != a, d, e, a);
    var v := [a, b, c, d, e];
    assert v[1..] == [b, c, d, e];
  }

  lemma DoubleFiveAdds(v: Bits, w: Bits)
    requires Five(v) && Five(w)
    ensures DoubleFive(Xor(v, w)) == Xor(DoubleFive(v), DoubleFive(w))
  {
    assert Xor(v, w)[1..] + [false] == Xor(v[1..] + [false], w[1..] + [false]);
  }

  lemma DoubleGroups(m: Bits)
    requires |m| == 30
    ensures
      var g, r := Groups(m), Groups(DoubleWord(m));
      forall i :: 0 <= i < 6 ==> r[i] == DoubleFive(g[i])
  {
    hide DoubleFive;
    SixGroups(DoubleFive(m[0..5]), DoubleFive(m[5..10]), DoubleFive(m[10..15]), DoubleFive(m[15..20]), DoubleFive(m[20..25]), DoubleFive(m[25..30]));
  }

  /** Words are equal if their groups are. */
  lemma SameGroups(m: Bits, n: Bits)
    requires |m| == 30 && |n| == 30 && Groups(m) == Groups(n)
    ensures m == n
  {
    hide Groups, Concat;
    GroupsInvert(m, Groups(m));
    GroupsInvert(n, Groups(n));
  }

  lemma XorGroups(m: Bits, n: Bits)
    requires |m| == 30 && |n| == 30
    ensures forall i :: 0 <= i < 6 ==> Groups(Xor(m, n))[i] == Xor(Groups(m)[i], Groups(n)[i])
  {
    var x := Xor(m, n);
    assert x[0..5] == Xor(m[0..5], n[0..5]) && x[5..10] == Xor(m[5..10], n[5..10]) && x[10..15] == Xor(m[10..15], n[10..15]);
    assert x[15..20] == Xor(m[15..20], n[15..20]) && x[20..25] == Xor(m[20..25], n[20..25]) && x[25..30] == Xor(m[25..30], n[25..30]);
  }

  lemma DoubleWordAdds(m: Bits, n: Bits)
    requires |m| == 30 && |n| == 30
    ensures DoubleWord(Xor(m, n)) == Xor(DoubleWord(m), DoubleWord(n))
  {
    hide DoubleFive, DoubleWord, Groups, Xor;
    var l, r := DoubleWord(Xor(m, n)), Xor(DoubleWord(m), DoubleWord(n));
    XorGroups(m, n);
    XorGroups(DoubleWord(m), DoubleWord(n));
    DoubleGroups(m);
    DoubleGroups(n);
    DoubleGroups(Xor(m, n));
    forall i | 0 <= i < 6 ensures Groups(l)[i] == Groups(r)[i] {
      DoubleFiveAdds(Groups(m)[i], Groups(n)[i]);
    }
    assert Groups(l) == Groups(r);
    SameGroups(l, r);
  }

  // ---------------------------------------------------------------- the generator words are multiples of one polynomial

  /** The digits of one word are those of another times x. */
  predicate Doubles(d: seq<nat>, e: seq<nat>) {
    |d| == |e| == 6 && forall i :: 0 <= i < 6 ==> DoubleFive(BitsOf(d[i], 5)) == BitsOf(e[i], 5)
  }

  lemma DigitsDouble()
    ensures Doubles(DIGITS[0], DIGITS[1]) && Doubles(DIGITS[1], DIGITS[2]) && Doubles(DIGITS[2], DIGITS[3]) && Doubles(DIGITS[3], DIGITS[4])
  {
    hide BitsOf, DoubleFive;
    DoubleDigit(false, false, false, false, true);
    DoubleDigit(false, false, false, true, false);
    DoubleDigit(false, false, false, true, true);
    DoubleDigit(false, false, true, false, false);
    DoubleDigit(false, false, true, false, true);
    DoubleDigit(false, false, true, true, false);
    DoubleDigit(false, true, false, true, false);
    DoubleDigit(false, true, true, false, false);
    DoubleDigit(false, true, true, false, true);
    DoubleDigit(false, true, true, true, true);
    DoubleDigit(true, false, false, true, false);
    DoubleDigit(true, false, false, true, true);
    DoubleDigit(true, false, true, false, false);
    DoubleDigit(true, false, true, false, true);
    DoubleDigit(true, false, true, true, false);
    DoubleDigit(true, true, false, true, false);
    DoubleDigit(true, true, true, false, true);
    DoubleDigit(true, true, true, true, false);
  }

  /** The digits of the last word times x are the sums of those of the fourth and the first. */
  lemma LastDigits()
    ensures forall i :: 0 <= i < 6 ==> DoubleFive(BitsOf(DIGITS[4][i], 5)) == Xor(BitsOf(DIGITS[3][i], 5), BitsOf(DIGITS[0][i], 5))
  {
    hide BitsOf, DoubleFive;
    DoubleDigit(false, false, false, false, true);
    DoubleDigit(false, true, false, false, false);
    DoubleDigit(true, false, false, true, true);
    DoubleDigit(true, false, true, false, true);
    DoubleDigit(true, true, false, false, false);
    FiveBits(true, true, true, true, false);
    FiveBits(true, true, true, false, true);
    FiveBits(false, false, false, true, true);
    FiveBits(true, false, true, false, false);
    FiveBits(true, false, true, true, false);
    FiveBits(false, false, false, true, false);
    FiveBits(false, false, true, false, false);
    FiveBits(true, false, false, false, false);
    FiveBits(false, true, true, false, false);
    FiveBits(true, false, true, false, true);
    FiveBits(true, true, false, false, true);
    FiveBits(true, false, false, true, false);
    FiveBits(false, true, true, true, true);
  }

  lemma GeneratorDoubles(i: nat)
    requires i < 4
    ensures DoubleWord(Generator(i)) == Generator(i + 1)
  {
    hide BitsOf, DoubleFive, DoubleWord, Groups, Generator;
    GeneratorGroups(i);
    GeneratorGroups(i + 1);
    DoubleGroups(Generator(i));
    DigitsDouble();
    assert Groups(DoubleWord(Generator(i))) == Groups(Generator(i + 1));
    SameGroups(DoubleWord(Generator(i)), Generator(i + 1));
  }

  lemma LastGeneratorDoubles()
    ensures DoubleWord(Generator(4)) == Xor(Generator(3), Generator(0))
  {
    hide BitsOf, DoubleFive, DoubleWord, Groups, Generator, Xor;
    var l, r := DoubleWord(Generator(4)), Xor(Generator(3), Generator(0));
    GeneratorGroups(4);
    GeneratorGroups(3);
    GeneratorGroups(0);
    DoubleGroups(Generator(4));
    XorGroups(Generator(3), Generator(0));
    LastDigits();
    assert Groups(l) == Groups(r);
    SameGroups(l, r);
  }

  // ---------------------------------------------------------------- one turn

  lemma {:induction false} MixedSplits(c: Bits, top: Bits, n: nat)
    requires |c| == 30 && Five(top) && n <= 5
    ensures Mixed(c, top, n) == Xor(c, Mixed(Zero(30), top, n))
  {
    hide Mixed, Xor;
    MixedLinear(c, Zero(30), Zero(5), top, n);
    XorWithZero(c);
    XorWithZero(top);
    MixedNothing(c, n);
  }

  function Chosen(b: bool, g: Bits): (r: Bits)
    requires |g| == 30
    ensures |r| == 30
  {
    if b then g else Zero(30)
  }

  function Sum(a: Bits, b: Bits, c: Bits, d: Bits, e: Bits): (r: Bits)
    requires |a| == |b| == |c| == |d| == |e| == 30
    ensures |r| == 30 && forall k :: 0 <= k < 30 ==> r[k] == (a[k] != (b[k] != (c[k] != (d[k] != e[k]))))
  {
    Xor(a, Xor(b, Xor(c, Xor(d, e))))
  }

  lemma MixedNext(top: Bits, n: nat)
    requires Five(top) && 0 < n <= 5
    ensures Mixed(Zero(30), top, n) == Xor(Chosen(top[5 - n], Generator(n - 1)), Mixed(Zero(30), top, n - 1))
  {
    hide Generator;
    XorWithZero(Mixed(Zero(30), top, n - 1));
  }

  lemma MixedSum(top: Bits)
    requires Five(top)
    ensures Mixed(Zero(30), top, 5) ==
            Sum(Chosen(top[0], Generator(4)), Chosen(top[1], Generator(3)), Chosen(top[2], Generator(2)), Chosen(top[3], Generator(1)), Chosen(top[4], Generator(0)))
  {
    hide Generator, Mixed, Xor, Chosen;
    MixedNext(top, 1);
    MixedNext(top, 2);
    MixedNext(top, 3);
    MixedNext(top, 4);
    MixedNext(top, 5);
    MixedNone(top);
    XorWithZero(Chosen(top[4], Generator(0)));
  }

  lemma MixedNone(top: Bits)
    requires Five(top)
    ensures Mixed(Zero(30), top, 0) == Zero(30)
  {
  }

  lemma DoubleChosen(b: bool, g: Bits)
    requires |g| == 30
    ensures DoubleWord(Chosen(b, g)) == Chosen(b, DoubleWord(g))
  {
    hide DoubleWord, Xor;
    DoubleWordAdds(g, g);
    XorSelf(g, g);
    XorSelf(DoubleWord(g), DoubleWord(g));
  }

  lemma DoubleSum(a: Bits, b: Bits, c: Bits, d: Bits, e: Bits)
    requires |a| == |b| == |c| == |d| == |e| == 30
    ensures DoubleWord(Sum(a, b, c, d, e)) == Sum(DoubleWord(a), DoubleWord(b), DoubleWord(c), DoubleWord(d), DoubleWord(e))
  {
    hide DoubleWord, Xor;
    DoubleWordAdds(a, Xor(b, Xor(c, Xor(d, e))));
    DoubleWordAdds(b, Xor(c, Xor(d, e)));
    DoubleWordAdds(c, Xor(d, e));
    DoubleWordAdds(d, e);
  }

  /** The carry: what is chosen twice cancels. */
  lemma Carried(t: Bits, g0: Bits, g1: Bits, g2: Bits, g3: Bits, g4: Bits)
    requires Five(t) && |g0| == |g1| == |g2| == |g3| == |g4| == 30
    ensures Sum(Chosen(t[0], Xor(g3, g0)), Chosen(t[1], g4), Chosen(t[2], g3), Chosen(t[3], g2), Chosen(t[4], g1)) ==
            Sum(Chosen(t[1], g4), Chosen(t[2] != t[0], g3), Chosen(t[3], g2), Chosen(t[4], g1), Chosen(t[0], g0))
  {
    hide Sum;
  }

  lemma DoubleFiveBits(t: Bits)
    requires Five(t)
    ensures
      var d := DoubleFive(t);
      d[0] == t[1] && d[1] == (t[2] != t[0]) && d[2] == t[3] && d[3] == t[4] && d[4] == t[0]
  {
  }

  lemma MixedDoubles(t: Bits)
    requires Five(t)
    ensures Mixed(Zero(30), DoubleFive(t), 5) == DoubleWord(Mixed(Zero(30), t, 5))
  {
    hide Generator, Mixed, Xor, Chosen, DoubleFive, DoubleWord, Sum;
    var g0, g1, g2, g3, g4 := Generator(0), Generator(1), Generator(2), Generator(3), Generator(4);
    MixedSum(t);
    MixedSum(DoubleFive(t));
    DoubleFiveBits(t);
    DoubleSum(Chosen(t[0], g4), Chosen(t[1], g3), Chosen(t[2], g2), Chosen(t[3], g1), Chosen(t[4], g0));
    DoubleChosen(t[0], g4);
    DoubleChosen(t[1], g3);
    DoubleChosen(t[2], g2);
    DoubleChosen(t[3], g1);
    DoubleChosen(t[4], g0);
    GeneratorDoubles(0);
    GeneratorDoubles(1);
    GeneratorDoubles(2);
    GeneratorDoubles(3);
    LastGeneratorDoubles();
    Carried(t, g0, g1, g2, g3, g4);
  }

  lemma ShiftDoubles(c: Bits, v: Bits)
    requires |c| == 30 && Five(v)
    ensures DoubleWord(c)[..5] == DoubleFive(c[..5])
    ensures DoubleWord(c)[5..] + DoubleFive(v) == DoubleWord(c[5..] + v)
  {
    hide DoubleFive;
    var s := c[5..] + v;
    assert s[0..5] == c[5..10] && s[5..10] == c[10..15] && s[10..15] == c[15..20] && s[15..20] == c[20..25] && s[20..25] == c[25..30] && s[25..30] == v;
    assert c[..5] == c[0..5];
  }

  /** A turn on a word and a value times x gives the result times x. */
  lemma StepDoubles(c: Bits, v: Bits)
    requires |c| == 30 && Five(v)
    ensures Step(DoubleWord(c), DoubleFive(v)) == DoubleWord(Step(c, v))
  {
    hide Generator, Mixed, Xor, DoubleFive, DoubleWord;
    ShiftDoubles(c, v);
    MixedSplits(c[5..] + v, c[..5], 5);
    MixedSplits(DoubleWord(c)[5..] + DoubleFive(v), DoubleFive(c[..5]), 5);
    MixedDoubles(c[..5]);
    DoubleWordAdds(c[5..] + v, Mixed(Zero(30), c[..5], 5));
  }

  // ---------------------------------------------------------------- linearity over the field

  /** The product of a value with the polynomial that has the given coefficients. */
  function TimesFive(cs: Bits, v: Bits): (r: Bits)
    requires Five(v)
    ensures Five(r)
  {
    if cs == [] then Zero(5)
    else
      var d := DoubleFive(TimesFive(cs[..|cs| - 1], v));
      if cs[|cs| - 1] then Xor(d, v) else d
  }

  /** The same on each of the six groups of a word. */
  function TimesWord(cs: Bits, m: Bits): (r: Bits)
    requires |m| == 30
    ensures |r| == 30
  {
    if cs == [] then Zero(30)
    else
      var d := DoubleWord(TimesWord(cs[..|cs| - 1], m));
      if cs[|cs| - 1] then Xor(d, m) else d
  }

  function TimesAll(cs: Bits, values: seq<Bits>): (r: seq<Bits>)
    requires AllFive(values)
    ensures AllFive(r) && |r| == |values| && forall i :: 0 <= i < |values| ==> r[i] == TimesFive(cs, values[i])
  {
    seq(|values|, i requires 0 <= i < |values| => TimesFive(cs, values[i]))
  }

  /** A turn is linear over the field. */
  lemma {:induction false} StepScales(cs: Bits, c: Bits, v: Bits)
    requires |c| == 30 && Five(v)
    ensures Step(TimesWord(cs, c), TimesFive(cs, v)) == TimesWord(cs, Step(c, v))
  {
    hide Step, Xor, DoubleFive, DoubleWord;
    if cs == [] {
      StepOfZero();
    } else {
      var init := cs[..|cs| - 1];
      StepScales(init, c, v);
      StepDoubles(TimesWord(init, c), TimesFive(init, v));
      StepLinear(DoubleWord(TimesWord(init, c)), c, DoubleFive(TimesFive(init, v)), v);
    }
  }

  lemma StepOfZero()
    ensures Step(Zero(30), Zero(5)) == Zero(30)
  {
    hide Mixed;
    assert Zero(30)[5..] + Zero(5) == Zero(30) && Zero(30)[..5] == Zero(5);
    MixedNothing(Zero(30), 5);
  }

  /** Multiplying every value and the start word by an element of the field multiplies the result. */
  lemma {:induction false} FoldScales(cs: Bits, c: Bits, values: seq<Bits>)
    requires |c| == 30 && AllFive(values)
    ensures Fold(TimesWord(cs, c), TimesAll(cs, values)) == TimesWord(cs, Fold(c, values))
  {
    hide Step, TimesWord, TimesFive;
    if values != [] {
      var n := |values| - 1;
      FoldScales(cs, c, values[..n]);
      assert TimesAll(cs, values)[..n] == TimesAll(cs, values[..n]);
      StepScales(cs, Fold(c, values[..n]), values[n]);
    }
  }
}
