/** The field with 1024 elements over which the checksum of addresses is a code: polynomials in `z` with bits as
    coefficients, that of z^9 first, modulo z^10 + z^3 + 1. Addition is exclusive or. */
module CodeField {
  import opened Basics
  import opened BitWords

  type Elem = b: Bits | |b| == 10 witness Zero(10)

  const NIL: Elem := Zero(10)
  const UNIT: Elem := Zero(9) + [true]
  const MODULUS: Elem := [false, false, false, false, false, false, true, false, false, true]

  /** Multiplication by `z`. */
  function Double(a: Elem): Elem {
    var up: Elem := a[1..] + [false];
    if a[0] then Xor(up, MODULUS) else up
  }

  function Shifted(acc: Elem, b: Elem, bit: bool): Elem { if bit then Xor(Double(acc), b) else Double(acc) }

  /** The product of `b` with the polynomial that has the given coefficients. */
  function Part(cs: Bits, b: Elem): Elem {
    if cs == [] then NIL else Shifted(Part(cs[..|cs| - 1], b), b, cs[|cs| - 1])
  }

  function Times(a: Elem, b: Elem): Elem { Part(a, b) }

  // ---------------------------------------------------------------- multiplication is linear on both sides

  /** Adding the same thing on one side, the other, or both. */
  lemma XorSome(x: Elem, y: Elem, b: Elem, s: bool, t: bool)
    ensures (if s != t then Xor(Xor(x, y), b) else Xor(x, y)) == Xor(if s then Xor(x, b) else x, if t then Xor(y, b) else y)
  {
  }

  lemma DoubleAdds(x: Elem, y: Elem)
    ensures Double(Xor(x, y)) == Xor(Double(x), Double(y)) && Double(NIL) == NIL
  {
    var u, v: Elem := x[1..] + [false], y[1..] + [false];
    assert Xor(x, y)[1..] + [false] == Xor(u, v);
    XorSome(u, v, MODULUS, x[0], y[0]);
  }

  lemma ShiftedAdds(x: Elem, y: Elem, b: Elem, c: Elem, bit: bool)
    ensures Shifted(Xor(x, y), Xor(b, c), bit) == Xor(Shifted(x, b, bit), Shifted(y, c, bit))
  {
    hide Double, Xor;
    DoubleAdds(x, y);
    XorShuffle(Double(x), Double(y), b, c);
  }

  lemma {:induction false} PartAdds(cs: Bits, b: Elem, c: Elem)
    ensures Part(cs, Xor(b, c)) == Xor(Part(cs, b), Part(cs, c))
  {
    hide Shifted, Xor;
    if cs != [] {
      var n := |cs| - 1;
      PartAdds(cs[..n], b, c);
      ShiftedAdds(Part(cs[..n], b), Part(cs[..n], c), b, c, cs[n]);
    } else {
      XorWithZero(NIL);
    }
  }

  lemma ShiftedMore(x: Elem, y: Elem, b: Elem, s: bool, t: bool)
    ensures Shifted(Xor(x, y), b, s != t) == Xor(Shifted(x, b, s), Shifted(y, b, t))
  {
    hide Double, Xor;
    DoubleAdds(x, y);
    XorSome(Double(x), Double(y), b, s, t);
  }

  lemma {:induction false} PartAddsLeft(cs: Bits, ds: Bits, b: Elem)
    requires |cs| == |ds|
    ensures Part(Xor(cs, ds), b) == Xor(Part(cs, b), Part(ds, b))
  {
    hide Shifted;
    if cs != [] {
      var n := |cs| - 1;
      PartAddsLeft(cs[..n], ds[..n], b);
      assert Xor(cs, ds)[..n] == Xor(cs[..n], ds[..n]);
      ShiftedMore(Part(cs[..n], b), Part(ds[..n], b), b, cs[n], ds[n]);
    } else {
      XorWithZero(NIL);
    }
  }

  lemma Distributes(a: Elem, b: Elem, c: Elem)
    ensures Times(a, Xor(b, c)) == Xor(Times(a, b), Times(a, c))
    ensures Times(Xor(a, b), c) == Xor(Times(a, c), Times(b, c))
  {
    hide Part, Xor;
    PartAdds(a, b, c);
    PartAddsLeft(a, b, c);
  }

  lemma {:induction false} PartDouble(cs: Bits, b: Elem)
    ensures Part(cs, Double(b)) == Double(Part(cs, b))
  {
    hide Double, Xor;
    if cs != [] {
      PartDouble(cs[..|cs| - 1], b);
      DoubleAdds(Double(Part(cs[..|cs| - 1], b)), b);
    } else {
      DoubleAdds(NIL, NIL);
    }
  }

  // ---------------------------------------------------------------- the laws of a commutative ring

  lemma {:induction false} PartUnit(cs: Bits)
    requires |cs| <= 10
    ensures Part(cs, UNIT) == Zero(10 - |cs|) + cs
  {
    hide Shifted, Zero;
    if cs != [] {
      var n := |cs| - 1;
      PartUnit(cs[..n]);
      UnitIn(cs[..n], cs[n]);
      assert cs == cs[..n] + [cs[n]];
    } else {
      assert Zero(10) + [] == NIL;
    }
  }

  /** A coefficient is shifted in. */
  lemma UnitIn(cs: Bits, bit: bool)
    requires |cs| < 10
    ensures Shifted(Zero(10 - |cs|) + cs, UNIT, bit) == Zero(9 - |cs|) + (cs + [bit])
  {
    hide Xor;
    var p: Elem := Zero(10 - |cs|) + cs;
    var up: Elem := Zero(9 - |cs|) + (cs + [false]);
    assert !p[0] && p[1..] + [false] == up;
    LastBit(up);
    assert up[..9] + [true] == Zero(9 - |cs|) + (cs + [true]);
  }

  lemma LastBit(a: Elem)
    requires !a[9]
    ensures Xor(a, UNIT) == a[..9] + [true]
  {
  }

  lemma {:induction false} PartNothing(n: nat, b: Elem)
    ensures Part(Zero(n), b) == NIL
  {
    if n > 0 {
      assert Zero(n)[..n - 1] == Zero(n - 1);
      PartNothing(n - 1, b);
      DoubleAdds(NIL, NIL);
    }
  }

  lemma TimesUnit(a: Elem)
    ensures Times(a, UNIT) == a && Times(UNIT, a) == a
  {
    PartUnit(a);
    assert Zero(0) + a == a;
    PartNothing(9, a);
    assert UNIT[..9] == Zero(9);
    DoubleAdds(NIL, NIL);
    XorWithZero(a);
  }

  lemma TimesNil(a: Elem)
    ensures Times(a, NIL) == NIL && Times(NIL, a) == NIL
  {
    hide Part, Xor;
    Distributes(a, NIL, NIL);
    Distributes(NIL, NIL, a);
    XorWithZero(NIL);
    XorSelf(Times(a, NIL), NIL);
    XorSelf(Times(NIL, a), NIL);
  }

  lemma {:induction false} PartOf(cs: Bits, b: Elem)
    ensures Times(b, Part(cs, UNIT)) == Part(cs, b)
  {
    hide Xor, Double, Times;
    if cs != [] {
      var p := Part(cs[..|cs| - 1], UNIT);
      PartOf(cs[..|cs| - 1], b);
      TimesDouble(b, p);
      Distributes(b, Double(p), UNIT);
      TimesUnit(b);
    } else {
      TimesNil(b);
    }
  }

  lemma TimesDouble(a: Elem, b: Elem)
    ensures Times(a, Double(b)) == Double(Times(a, b))
  {
    hide Part;
    PartDouble(a, b);
  }

  lemma Commutes(a: Elem, b: Elem)
    ensures Times(a, b) == Times(b, a)
  {
    hide Part;
    PartOf(a, b);
    TimesUnit(a);
  }

  lemma {:induction false} PartTimes(cs: Bits, b: Elem, c: Elem)
    ensures Times(Part(cs, b), c) == Part(cs, Times(b, c))
  {
    hide Xor, Double, Times;
    if cs != [] {
      var p := Part(cs[..|cs| - 1], b);
      PartTimes(cs[..|cs| - 1], b, c);
      Distributes(Double(p), b, c);
      Commutes(Double(p), c);
      TimesDouble(c, p);
      Commutes(p, c);
    } else {
      TimesNil(c);
    }
  }

  lemma Associates(a: Elem, b: Elem, c: Elem)
    ensures Times(Times(a, b), c) == Times(a, Times(b, c))
  {
    hide Part;
    PartTimes(a, b, c);
  }

  // ---------------------------------------------------------------- units

  /** The element has an inverse. */
  ghost predicate IsUnit(a: Elem) { exists i :: Times(i, a) == UNIT }

  /** Units can be cancelled. */
  lemma Cancel(a: Elem, b: Elem)
    requires IsUnit(a) && Times(a, b) == NIL
    ensures b == NIL
  {
    hide Times;
    var i: Elem :| Times(i, a) == UNIT;
    Associates(i, a, b);
    TimesUnit(b);
    TimesNil(i);
  }

  lemma UnitProduct(a: Elem, b: Elem)
    requires IsUnit(a) && IsUnit(b)
    ensures IsUnit(Times(a, b))
  {
    hide Times;
    var i: Elem :| Times(i, a) == UNIT;
    var j: Elem :| Times(j, b) == UNIT;
    Associates(Times(j, i), a, b);
    Associates(j, i, a);
    TimesUnit(j);
  }

  // ---------------------------------------------------------------- numbers

  predicate Has(x: bv10, m: bv10) { x & m != 0 }

  /** The element whose coefficients are the bits of a word. */
  function Of(x: bv10): Elem {
    [Has(x, 0x200), Has(x, 0x100), Has(x, 0x080), Has(x, 0x040), Has(x, 0x020),
     Has(x, 0x010), Has(x, 0x008), Has(x, 0x004), Has(x, 0x002), Has(x, 0x001)]
  }

  lemma HasAdds(x: bv10, y: bv10, z: bv10, m: bv10)
    requires z == x ^ y
    requires m == 0x200 || m == 0x100 || m == 0x080 || m == 0x040 || m == 0x020 || m == 0x010 || m == 0x008 || m == 0x004 || m == 0x002 || m == 0x001
    ensures Sums(x, y, z, m)
  {
  }

  predicate Sums(x: bv10, y: bv10, z: bv10, m: bv10) { Has(z, m) == (Has(x, m) != Has(y, m)) }

  lemma OfSum(x: bv10, y: bv10, z: bv10)
    requires Sums(x, y, z, 0x200) && Sums(x, y, z, 0x100) && Sums(x, y, z, 0x080) && Sums(x, y, z, 0x040) && Sums(x, y, z, 0x020)
    requires Sums(x, y, z, 0x010) && Sums(x, y, z, 0x008) && Sums(x, y, z, 0x004) && Sums(x, y, z, 0x002) && Sums(x, y, z, 0x001)
    ensures Of(z) == Xor(Of(x), Of(y))
  {
    hide Has, Of;
    OfBits(x);
    OfBits(y);
    OfBits(z);
    TenBits(Of(z), Xor(Of(x), Of(y)));
  }

  lemma OfBits(x: bv10)
    ensures
      var b := Of(x);
      && b[0] == Has(x, 0x200) && b[1] == Has(x, 0x100) && b[2] == Has(x, 0x080) && b[3] == Has(x, 0x040) && b[4] == Has(x, 0x020)
      && b[5] == Has(x, 0x010) && b[6] == Has(x, 0x008) && b[7] == Has(x, 0x004) && b[8] == Has(x, 0x002) && b[9] == Has(x, 0x001)
  {
    hide Has, Of;
    UpperBits(x);
    LowerBits(x);
  }

  lemma UpperBits(x: bv10)
    ensures Of(x)[0] == Has(x, 0x200) && Of(x)[1] == Has(x, 0x100) && Of(x)[2] == Has(x, 0x080) && Of(x)[3] == Has(x, 0x040) && Of(x)[4] == Has(x, 0x020)
  {
    hide Has;
  }

  lemma LowerBits(x: bv10)
    ensures Of(x)[5] == Has(x, 0x010) && Of(x)[6] == Has(x, 0x008) && Of(x)[7] == Has(x, 0x004) && Of(x)[8] == Has(x, 0x002) && Of(x)[9] == Has(x, 0x001)
  {
    hide Has;
  }

  lemma TenBits(a: Elem, b: Elem)
    requires a[0] == b[0] && a[1] == b[1] && a[2] == b[2] && a[3] == b[3] && a[4] == b[4]
    requires a[5] == b[5] && a[6] == b[6] && a[7] == b[7] && a[8] == b[8] && a[9] == b[9]
    ensures a == b
  {
  }

  lemma AllSums(x: bv10, y: bv10, z: bv10)
    requires z == x ^ y
    ensures Sums(x, y, z, 0x200) && Sums(x, y, z, 0x100) && Sums(x, y, z, 0x080) && Sums(x, y, z, 0x040) && Sums(x, y, z, 0x020)
    ensures Sums(x, y, z, 0x010) && Sums(x, y, z, 0x008) && Sums(x, y, z, 0x004) && Sums(x, y, z, 0x002) && Sums(x, y, z, 0x001)
  {
    hide Sums;
    HasAdds(x, y, z, 0x200);
    HasAdds(x, y, z, 0x100);
    HasAdds(x, y, z, 0x080);
    HasAdds(x, y, z, 0x040);
    HasAdds(x, y, z, 0x020);
    HasAdds(x, y, z, 0x010);
    HasAdds(x, y, z, 0x008);
    HasAdds(x, y, z, 0x004);
    HasAdds(x, y, z, 0x002);
    HasAdds(x, y, z, 0x001);
  }

  lemma OfAdds(x: bv10, y: bv10)
    ensures Of(x ^ y) == Xor(Of(x), Of(y))
  {
    hide Of, Sums;
    AllSums(x, y, x ^ y);
    OfSum(x, y, x ^ y);
  }

  lemma UpHas(x: bv10, u: bv10)
    requires u == x << 1
    ensures Has(u, 0x200) == Has(x, 0x100) && Has(u, 0x100) == Has(x, 0x080) && Has(u, 0x080) == Has(x, 0x040)
    ensures Has(u, 0x040) == Has(x, 0x020) && Has(u, 0x020) == Has(x, 0x010) && Has(u, 0x010) == Has(x, 0x008)
    ensures Has(u, 0x008) == Has(x, 0x004) && Has(u, 0x004) == Has(x, 0x002) && Has(u, 0x002) == Has(x, 0x001)
    ensures !Has(u, 0x001)
  {
  }

  lemma OfUp(x: bv10)
    ensures Of(x << 1) == Of(x)[1..] + [false]
  {
    hide Has, Of;
    UpHas(x, x << 1);
    OfBits(x);
    OfBits(x << 1);
    TenBits(Of(x << 1), Of(x)[1..] + [false]);
  }

  function DoubleWord(x: bv10): bv10 { if Has(x, 0x200) then (x << 1) ^ 0x009 else x << 1 }

  function ShiftedWord(acc: bv10, b: bv10, bit: bool): bv10 { if bit then DoubleWord(acc) ^ b else DoubleWord(acc) }

  /** The product of two elements as words. */
  function TimesWord(a: bv10, b: bv10): bv10 {
    var t := ShiftedWord(ShiftedWord(0, b, Has(a, 0x200)), b, Has(a, 0x100));
    var t := ShiftedWord(ShiftedWord(t, b, Has(a, 0x080)), b, Has(a, 0x040));
    var t := ShiftedWord(ShiftedWord(t, b, Has(a, 0x020)), b, Has(a, 0x010));
    var t := ShiftedWord(ShiftedWord(t, b, Has(a, 0x008)), b, Has(a, 0x004));
    ShiftedWord(ShiftedWord(t, b, Has(a, 0x002)), b, Has(a, 0x001))
  }

  lemma OfDouble(x: bv10)
    ensures Of(DoubleWord(x)) == Double(Of(x))
  {
    hide Has, Of;
    OfUp(x);
    OfBits(x);
    OfAdds(x << 1, 0x009);
    OfModulus();
  }

  lemma OfModulus()
    ensures Of(0x009) == MODULUS && Of(0) == NIL && Of(1) == UNIT
  {
    assert Zero(9) == [false, false, false, false, false, false, false, false, false];
  }

  lemma OfShifted(acc: bv10, b: bv10, bit: bool)
    ensures Of(ShiftedWord(acc, b, bit)) == Shifted(Of(acc), Of(b), bit)
  {
    hide Has, Of, Double, DoubleWord;
    OfDouble(acc);
    OfAdds(DoubleWord(acc), b);
  }

  lemma PartStep(a: Elem, b: bv10, k: nat, acc: bv10)
    requires k < 10 && Part(a[..k], Of(b)) == Of(acc)
    ensures Part(a[..k + 1], Of(b)) == Of(ShiftedWord(acc, b, a[k]))
  {
    hide Of, Shifted, ShiftedWord;
    OfShifted(acc, b, a[k]);
    assert a[..k + 1][..k] == a[..k];
  }

  lemma OfTimes(x: bv10, b: bv10)
    ensures Of(TimesWord(x, b)) == Times(Of(x), Of(b))
  {
    hide Of, Part, ShiftedWord, Has;
    var a := Of(x);
    OfBits(x);
    OfModulus();
    assert Part(a[..0], Of(b)) == Of(0) by { PartNothing(0, Of(b)); assert a[..0] == Zero(0); }
    var t1 := ShiftedWord(0, b, a[0]);
    PartStep(a, b, 0, 0);
    var t2 := ShiftedWord(t1, b, a[1]);
    PartStep(a, b, 1, t1);
    var t3 := ShiftedWord(t2, b, a[2]);
    PartStep(a, b, 2, t2);
    var t4 := ShiftedWord(t3, b, a[3]);
    PartStep(a, b, 3, t3);
    var t5 := ShiftedWord(t4, b, a[4]);
    PartStep(a, b, 4, t4);
    var t6 := ShiftedWord(t5, b, a[5]);
    PartStep(a, b, 5, t5);
    var t7 := ShiftedWord(t6, b, a[6]);
    PartStep(a, b, 6, t6);
    var t8 := ShiftedWord(t7, b, a[7]);
    PartStep(a, b, 7, t7);
    var t9 := ShiftedWord(t8, b, a[8]);
    PartStep(a, b, 8, t8);
    PartStep(a, b, 9, t9);
    assert a[..10] == a;
  }
}
