/** What the checksum is for: its words are those of a code over the field of 1024 elements, so that no change of one,
    two or three characters of an address goes unnoticed (pkg/codec/bytes.go, LIP-0018). */
module Lisk32Code {
  import opened Basics
  import opened BitWords
  import opened CodeField
  import opened CodeBound
  import opened Lisk32Checksum
  import S = Lisk32Scale

  // ---------------------------------------------------------------- 5-bit values as elements

  /** The element that x, the value 2, stands for. */
  const ROOT: Elem := Of(0x05a)

  const IMAGES: seq<bv10> := [0x001, 0x05a, 0x160, 0x359, 0x26d]

  function Image(i: nat): Elem
    requires i < 5
  {
    Of(IMAGES[i])
  }

  /** The first `n` bits of a value, counted from the low end, as an element. */
  function Embedded(v: Bits, n: nat): Elem
    requires Five(v) && n <= 5
  {
    if n == 0 then NIL
    else if v[5 - n] then Xor(Embedded(v, n - 1), Image(n - 1))
    else Embedded(v, n - 1)
  }

  function Embed(v: Bits): Elem
    requires Five(v)
  {
    Embedded(v, 5)
  }

  lemma {:induction false} EmbeddedAdds(v: Bits, w: Bits, n: nat)
    requires Five(v) && Five(w) && n <= 5
    ensures Embedded(Xor(v, w), n) == Xor(Embedded(v, n), Embedded(w, n))
  {
    hide Image;
    if n > 0 {
      EmbeddedAdds(v, w, n - 1);
      XorSome(Embedded(v, n - 1), Embedded(w, n - 1), Image(n - 1), v[5 - n], w[5 - n]);
    }
  }

  function AddIf(acc: bv10, bit: bool, image: bv10): bv10 { if bit then acc ^ image else acc }

  /** The word of the element a value stands for. */
  function Word(a: bool, b: bool, c: bool, d: bool, e: bool): bv10 {
    AddIf(AddIf(AddIf(AddIf(AddIf(0, e, 0x001), d, 0x05a), c, 0x160), b, 0x359), a, 0x26d)
  }

  lemma EmbeddedNext(v: Bits, n: nat, acc: bv10, image: bv10)
    requires Five(v) && 0 < n <= 5 && Embedded(v, n - 1) == Of(acc) && Image(n - 1) == Of(image)
    ensures Embedded(v, n) == Of(AddIf(acc, v[5 - n], image))
  {
    hide Of, Image;
    OfAdds(acc, image);
  }

  lemma Images()
    ensures Image(0) == Of(0x001) && Image(1) == Of(0x05a) && Image(2) == Of(0x160) && Image(3) == Of(0x359) && Image(4) == Of(0x26d)
  {
    hide Of;
  }

  lemma EmbedWord(v: Bits)
    requires Five(v)
    ensures Embed(v) == Of(Word(v[0], v[1], v[2], v[3], v[4]))
  {
    hide Of, Embedded, Image, AddIf;
    Images();
    assert Embedded(v, 0) == Of(0) by { OfModulus(); EmbeddedNone(v); }
    var t1 := AddIf(0, v[4], 0x001);
    var t2 := AddIf(t1, v[3], 0x05a);
    var t3 := AddIf(t2, v[2], 0x160);
    var t4 := AddIf(t3, v[1], 0x359);
    EmbeddedNext(v, 1, 0, 0x001);
    EmbeddedNext(v, 2, t1, 0x05a);
    EmbeddedNext(v, 3, t2, 0x160);
    EmbeddedNext(v, 4, t3, 0x359);
    EmbeddedNext(v, 5, t4, 0x26d);
  }

  lemma EmbeddedNone(v: Bits)
    requires Five(v)
    ensures Embedded(v, 0) == NIL
  {
  }

  lemma WordIsNil(a: bool, b: bool, c: bool, d: bool, e: bool)
    requires Word(a, b, c, d, e) == 0
    ensures !a && !b && !c && !d && !e
  {
  }

  lemma OfIsNil(x: bv10)
    requires Of(x) == NIL
    ensures x == 0
  {
    hide Of, Has;
    OfBits(x);
    NoneHas(x);
  }

  lemma NoneHas(x: bv10)
    requires !Has(x, 0x200) && !Has(x, 0x100) && !Has(x, 0x080) && !Has(x, 0x040) && !Has(x, 0x020)
    requires !Has(x, 0x010) && !Has(x, 0x008) && !Has(x, 0x004) && !Has(x, 0x002) && !Has(x, 0x001)
    ensures x == 0
  {
  }

  /** Only the value 0 stands for nil. */
  lemma EmbedIsNil(v: Bits)
    requires Five(v) && Embed(v) == NIL
    ensures v == Zero(5)
  {
    hide Of, Embedded, Word;
    EmbedWord(v);
    OfIsNil(Word(v[0], v[1], v[2], v[3], v[4]));
    WordIsNil(v[0], v[1], v[2], v[3], v[4]);
  }

  function EmbedAll(values: seq<Bits>): (e: seq<Elem>)
    requires AllFive(values)
    ensures |e| == |values| && forall i :: 0 <= i < |e| ==> e[i] == Embed(values[i])
  {
    seq(|values|, i requires 0 <= i < |values| => Embed(values[i]))
  }

  // ---------------------------------------------------------------- the value of a word

  /** A word as a polynomial with six coefficients, at a point. */
  function Eval(m: Bits, x: Elem): Elem
    requires |m| == 30
  {
    Horner(EmbedAll(Groups(m)), x)
  }

  lemma EvalAdds(m: Bits, n: Bits, x: Elem)
    requires |m| == 30 && |n| == 30
    ensures Eval(Xor(m, n), x) == Xor(Eval(m, x), Eval(n, x))
  {
    hide Groups, Horner, Embedded;
    S.XorGroups(m, n);
    var e, f, g := EmbedAll(Groups(m)), EmbedAll(Groups(n)), EmbedAll(Groups(Xor(m, n)));
    forall i | 0 <= i < 6 ensures g[i] == Xor(e[i], f[i]) { EmbeddedAdds(Groups(m)[i], Groups(n)[i], 5); }
    assert g == Added(e, f);
    HornerAdds(e, f, x);
  }

  /** Multiplying by x multiplies by its element. */
  lemma EmbedDoubles(v: Bits)
    requires Five(v)
    ensures Embed(S.DoubleFive(v)) == Times(ROOT, Embed(v))
  {
    hide Of, Embedded, Times, S.DoubleFive, Word, Has, TimesWord;
    S.DoubleFiveBits(v);
    EmbedWord(v);
    EmbedWord(S.DoubleFive(v));
    OfTimes(0x05a, Word(v[0], v[1], v[2], v[3], v[4]));
    WordDoubles(v[0], v[1], v[2], v[3], v[4]);
  }

  lemma WordDoubles(a: bool, b: bool, c: bool, d: bool, e: bool)
    ensures TimesWord(0x05a, Word(a, b, c, d, e)) == Word(b, c != a, d, e, a)
  {
  }

  lemma EvalDoubles(m: Bits, x: Elem)
    requires |m| == 30
    ensures Eval(S.DoubleWord(m), x) == Times(ROOT, Eval(m, x))
  {
    hide Groups, Horner, Embedded, Times, S.DoubleWord, S.DoubleFive;
    S.DoubleGroups(m);
    var e, f := EmbedAll(Groups(m)), EmbedAll(Groups(S.DoubleWord(m)));
    forall i | 0 <= i < 6 ensures f[i] == Times(ROOT, e[i]) { EmbedDoubles(Groups(m)[i]); }
    assert f == Scaled(ROOT, e);
    HornerScaled(ROOT, e, x);
  }

  // ---------------------------------------------------------------- points at which the generator words vanish

  /** The polynomial of the first generator word stands for x^6 at the point, which makes the point a root of the
      generator polynomial. */
  predicate IsRoot(x: Elem) { Eval(Generator(0), x) == Power(x, 6) }

  lemma ImagesDouble(i: nat)
    requires i < 4
    ensures Times(ROOT, Image(i)) == Image(i + 1)
  {
    hide Of, Times;
    OfTimes(0x05a, IMAGES[i]);
  }

  lemma TimesMoves(a: Elem, b: Elem, c: Elem)
    ensures Times(a, Times(b, c)) == Times(b, Times(a, c))
  {
    hide Times;
    Associates(a, b, c);
    Commutes(a, b);
    Associates(b, a, c);
  }

  lemma FirstImage()
    ensures Image(0) == UNIT
  {
    OfModulus();
  }

  /** The other generator words are the first one times powers of x. */
  lemma {:induction false} GeneratorAt(x: Elem, i: nat)
    requires IsRoot(x) && i < 5
    ensures Eval(Generator(i), x) == Times(Power(x, 6), Image(i))
  {
    hide Eval, Generator, Times, Power, Image, Of, Xor;
    if i == 0 {
      FirstImage();
      TimesUnit(Power(x, 6));
    } else {
      GeneratorAt(x, i - 1);
      S.GeneratorDoubles(i - 1);
      EvalDoubles(Generator(i - 1), x);
      ImagesDouble(i - 1);
      TimesMoves(ROOT, Power(x, 6), Image(i - 1));
    }
  }

  lemma {:induction false} EvalMixed(c: Bits, top: Bits, n: nat, x: Elem)
    requires |c| == 30 && Five(top) && n <= 5 && IsRoot(x)
    ensures Eval(Mixed(c, top, n), x) == Xor(Eval(c, x), Times(Power(x, 6), Embedded(top, n)))
  {
    hide Eval, Generator, Times, Power, Image, Xor, IsRoot;
    var p := Power(x, 6);
    if n == 0 {
      TimesNil(p);
      XorWithZero(Eval(c, x));
    } else {
      EvalMixed(c, top, n - 1, x);
      if top[5 - n] {
        EvalAdds(Mixed(c, top, n - 1), Generator(n - 1), x);
        GeneratorAt(x, n - 1);
        Distributes(p, Embedded(top, n - 1), Image(n - 1));
        XorMoves(Eval(c, x), Times(p, Embedded(top, n - 1)), Times(p, Image(n - 1)));
      }
    }
  }

  lemma XorMoves(a: Elem, b: Elem, c: Elem)
    ensures Xor(Xor(a, b), c) == Xor(a, Xor(b, c))
  {
  }

  lemma {:induction false} HornerFront(t: Elem, e: seq<Elem>, x: Elem)
    ensures Horner([t] + e, x) == Xor(Times(Power(x, |e|), t), Horner(e, x))
  {
    hide Times, Xor;
    if e == [] {
      assert [t] + e == [t] && [t][..0] == [];
      TimesUnit(t);
      TimesNil(x);
      XorWithZero(t);
    } else {
      var n := |e| - 1;
      var init := e[..n];
      assert ([t] + e)[..n + 1] == [t] + init;
      HornerFront(t, init, x);
      Distributes(x, Times(Power(x, n), t), Horner(init, x));
      Associates(x, Power(x, n), t);
      XorMoves(Times(Power(x, n + 1), t), Times(x, Horner(init, x)), e[n]);
    }
  }

  lemma ShiftedGroups(c: Bits, v: Bits)
    requires |c| == 30 && Five(v)
    ensures
      var rest := EmbedAll(Groups(c))[1..];
      && EmbedAll(Groups(c)) == [Embed(c[..5])] + rest && |rest| == 5
      && EmbedAll(Groups(c[5..] + v)) == rest + [Embed(v)]
  {
    hide Embedded;
    var s := c[5..] + v;
    assert s[0..5] == c[5..10] && s[5..10] == c[10..15] && s[10..15] == c[15..20] && s[15..20] == c[20..25] && s[20..25] == c[25..30] && s[25..30] == v;
    assert c[..5] == c[0..5];
  }

  /** At such a point a turn multiplies by it and adds the value. */
  lemma StepEval(c: Bits, v: Bits, x: Elem)
    requires |c| == 30 && Five(v) && IsRoot(x)
    ensures Eval(Step(c, v), x) == Xor(Times(x, Eval(c, x)), Embed(v))
  {
    hide Generator, Times, Image, Xor, IsRoot, Mixed, Embedded, Groups, Power;
    var t, rest := Embed(c[..5]), EmbedAll(Groups(c))[1..];
    EvalMixed(c[5..] + v, c[..5], 5, x);
    ShiftedGroups(c, v);
    HornerFront(t, rest, x);
    HornerLast(rest, Embed(v), x);
    var h, p := Horner(rest, x), Times(Power(x, 5), t);
    Distributes(x, p, h);
    PowerNext(x, 5);
    Associates(x, Power(x, 5), t);
    XorTurn(Times(x, h), Embed(v), Times(Power(x, 6), t));
  }

  lemma HornerLast(e: seq<Elem>, v: Elem, x: Elem)
    ensures Horner(e + [v], x) == Xor(Times(x, Horner(e, x)), v)
  {
    hide Times;
    assert (e + [v])[..|e|] == e;
  }

  lemma PowerNext(x: Elem, k: nat)
    ensures Power(x, k + 1) == Times(x, Power(x, k))
  {
  }

  lemma XorTurn(a: Elem, b: Elem, c: Elem)
    ensures Xor(Xor(a, b), c) == Xor(Xor(c, a), b)
  {
  }

  lemma EvalZero(x: Elem)
    ensures Eval(Zero(30), x) == NIL
  {
    hide Embedded;
    ZeroGroups();
    EmbedZero(5);
    assert EmbedAll(Zeros(6)) == Nils(6);
    HornerNils(6, x);
  }

  lemma ZeroGroups()
    ensures Groups(Zero(30)) == Zeros(6)
  {
    var z := Zero(30);
    assert z[0..5] == Zero(5) && z[5..10] == Zero(5) && z[10..15] == Zero(5);
    assert z[15..20] == Zero(5) && z[20..25] == Zero(5) && z[25..30] == Zero(5);
  }

  lemma {:induction false} EmbedZero(n: nat)
    requires n <= 5
    ensures Embedded(Zero(5), n) == NIL
  {
    if n > 0 { EmbedZero(n - 1); }
  }

  /** At such a point polymod of a list, started with nothing, is the value of the list as a polynomial. */
  lemma {:induction false} FoldEval(values: seq<Bits>, x: Elem)
    requires AllFive(values) && IsRoot(x)
    ensures Eval(Fold(Zero(30), values), x) == Horner(EmbedAll(values), x)
  {
    hide Eval, Step, Times, Xor, IsRoot, Embedded;
    if values == [] {
      EvalZero(x);
    } else {
      var n := |values| - 1;
      FoldEval(values[..n], x);
      StepEval(Fold(Zero(30), values[..n]), values[n], x);
      assert EmbedAll(values)[..n] == EmbedAll(values[..n]);
    }
  }

  // ---------------------------------------------------------------- three consecutive roots

  const START: Elem := Of(0x23a)
  const RATIO: Elem := Of(0x10d)

  lemma HornerWord(e: seq<Elem>, w: bv10, x: bv10, acc: bv10, next: bv10)
    requires Horner(e, Of(x)) == Of(acc) && next == TimesWord(x, acc) ^ w
    ensures Horner(e + [Of(w)], Of(x)) == Of(next)
  {
    hide Of, Times, TimesWord, Xor;
    HornerLast(e, Of(w), Of(x));
    OfTimes(x, acc);
    OfAdds(TimesWord(x, acc), w);
  }

  lemma PowerWord(x: bv10, k: nat, acc: bv10, next: bv10)
    requires Power(Of(x), k) == Of(acc) && next == TimesWord(x, acc)
    ensures Power(Of(x), k + 1) == Of(next)
  {
    hide Of, Times, TimesWord;
    OfTimes(x, acc);
  }

  lemma EmbedDigit(a: bool, b: bool, c: bool, d: bool, e: bool)
    ensures Embed(BitsOf(S.Number(a, b, c, d, e), 5)) == Of(Word(a, b, c, d, e))
  {
    hide BitsOf, Of, Embedded, Word, S.Number;
    S.FiveBits(a, b, c, d, e);
    EmbedWord([a, b, c, d, e]);
  }

  /** The coefficients of the first generator word. */
  lemma Coefficients()
    ensures EmbedAll(Groups(Generator(0))) == [Of(0x055), Of(0x357), Of(0x30d), Of(0x30c), Of(0x055), Of(0x237)]
  {
    hide BitsOf, Of, Embedded, Generator, Groups, Has;
    S.GeneratorGroups(0);
    EmbedDigit(true, false, false, true, false);
    EmbedDigit(true, false, true, false, false);
    EmbedDigit(true, false, true, false, true);
    EmbedDigit(true, false, true, true, false);
    EmbedDigit(true, true, true, false, true);
  }

  lemma FirstRootValue()
    ensures Eval(Generator(0), Of(0x23a)) == Of(0x216)
  {
    hide Of, Horner, Power, Generator, Groups, EmbedAll;
    var e := [Of(0x055), Of(0x357), Of(0x30d), Of(0x30c), Of(0x055), Of(0x237)];
    Coefficients();
    assert Horner(e[..0], Of(0x23a)) == Of(0) by { HornerNothing(e[..0], Of(0x23a)); OfModulus(); }
    HornerWord(e[..0], 0x055, 0x23a, 0x000, 0x055);
    assert e[..0] + [Of(0x055)] == e[..1];
    HornerWord(e[..1], 0x357, 0x23a, 0x055, 0x1c4);
    assert e[..1] + [Of(0x357)] == e[..2];
    HornerWord(e[..2], 0x30d, 0x23a, 0x1c4, 0x1c4);
    assert e[..2] + [Of(0x30d)] == e[..3];
    HornerWord(e[..3], 0x30c, 0x23a, 0x1c4, 0x1c5);
    assert e[..3] + [Of(0x30c)] == e[..4];
    HornerWord(e[..4], 0x055, 0x23a, 0x1c5, 0x0a6);
    assert e[..4] + [Of(0x055)] == e[..5];
    HornerWord(e[..5], 0x237, 0x23a, 0x0a6, 0x216);
    assert e[..5] + [Of(0x237)] == e[..6];
    assert e[..6] == e;
  }

  lemma FirstRoot()
    ensures IsRoot(Of(0x23a))
  {
    hide Of, Power, Eval, Generator;
    FirstRootValue();
    assert Power(Of(0x23a), 0) == Of(1) by { PowerNone(Of(0x23a)); OfModulus(); }
    PowerWord(0x23a, 0, 0x001, 0x23a);
    PowerWord(0x23a, 1, 0x23a, 0x05f);
    PowerWord(0x23a, 2, 0x05f, 0x31a);
    PowerWord(0x23a, 3, 0x31a, 0x171);
    PowerWord(0x23a, 4, 0x171, 0x347);
    PowerWord(0x23a, 5, 0x347, 0x216);
  }

  lemma SecondRootValue()
    ensures Eval(Generator(0), Of(0x1c3)) == Of(0x139)
  {
    hide Of, Horner, Power, Generator, Groups, EmbedAll;
    var e := [Of(0x055), Of(0x357), Of(0x30d), Of(0x30c), Of(0x055), Of(0x237)];
    Coefficients();
    assert Horner(e[..0], Of(0x1c3)) == Of(0) by { HornerNothing(e[..0], Of(0x1c3)); OfModulus(); }
    HornerWord(e[..0], 0x055, 0x1c3, 0x000, 0x055);
    assert e[..0] + [Of(0x055)] == e[..1];
    HornerWord(e[..1], 0x357, 0x1c3, 0x055, 0x1a2);
    assert e[..1] + [Of(0x357)] == e[..2];
    HornerWord(e[..2], 0x30d, 0x1c3, 0x1a2, 0x01d);
    assert e[..2] + [Of(0x30d)] == e[..3];
    HornerWord(e[..3], 0x30c, 0x1c3, 0x01d, 0x3c6);
    assert e[..3] + [Of(0x30c)] == e[..4];
    HornerWord(e[..4], 0x055, 0x1c3, 0x3c6, 0x182);
    assert e[..4] + [Of(0x055)] == e[..5];
    HornerWord(e[..5], 0x237, 0x1c3, 0x182, 0x139);
    assert e[..5] + [Of(0x237)] == e[..6];
    assert e[..6] == e;
  }

  lemma SecondRoot()
    ensures IsRoot(Of(0x1c3))
  {
    hide Of, Power, Eval, Generator;
    SecondRootValue();
    assert Power(Of(0x1c3), 0) == Of(1) by { PowerNone(Of(0x1c3)); OfModulus(); }
    PowerWord(0x1c3, 0, 0x001, 0x1c3);
    PowerWord(0x1c3, 1, 0x1c3, 0x2f1);
    PowerWord(0x1c3, 2, 0x2f1, 0x076);
    PowerWord(0x1c3, 3, 0x076, 0x0ae);
    PowerWord(0x1c3, 4, 0x0ae, 0x2e6);
    PowerWord(0x1c3, 5, 0x2e6, 0x139);
  }

  lemma ThirdRootValue()
    ensures Eval(Generator(0), Of(0x035)) == Of(0x293)
  {
    hide Of, Horner, Power, Generator, Groups, EmbedAll;
    var e := [Of(0x055), Of(0x357), Of(0x30d), Of(0x30c), Of(0x055), Of(0x237)];
    Coefficients();
    assert Horner(e[..0], Of(0x035)) == Of(0) by { HornerNothing(e[..0], Of(0x035)); OfModulus(); }
    HornerWord(e[..0], 0x055, 0x035, 0x000, 0x055);
    assert e[..0] + [Of(0x055)] == e[..1];
    HornerWord(e[..1], 0x357, 0x035, 0x055, 0x1bd);
    assert e[..1] + [Of(0x357)] == e[..2];
    HornerWord(e[..2], 0x30d, 0x035, 0x1bd, 0x06e);
    assert e[..2] + [Of(0x30d)] == e[..3];
    HornerWord(e[..3], 0x30c, 0x035, 0x06e, 0x1e8);
    assert e[..3] + [Of(0x30c)] == e[..4];
    HornerWord(e[..4], 0x055, 0x035, 0x1e8, 0x1dc);
    assert e[..4] + [Of(0x055)] == e[..5];
    HornerWord(e[..5], 0x237, 0x035, 0x1dc, 0x293);
    assert e[..5] + [Of(0x237)] == e[..6];
    assert e[..6] == e;
  }

  lemma ThirdRoot()
    ensures IsRoot(Of(0x035))
  {
    hide Of, Power, Eval, Generator;
    ThirdRootValue();
    assert Power(Of(0x035), 0) == Of(1) by { PowerNone(Of(0x035)); OfModulus(); }
    PowerWord(0x035, 0, 0x001, 0x035);
    PowerWord(0x035, 1, 0x035, 0x118);
    PowerWord(0x035, 2, 0x118, 0x39d);
    PowerWord(0x035, 3, 0x39d, 0x300);
    PowerWord(0x035, 4, 0x300, 0x3af);
    PowerWord(0x035, 5, 0x3af, 0x293);
  }

  lemma HornerNothing(e: seq<Elem>, x: Elem)
    requires e == []
    ensures Horner(e, x) == NIL
  {
  }

  lemma PowerNone(x: Elem)
    ensures Power(x, 0) == UNIT
  {
  }

  /** The roots are consecutive. */
  lemma Consecutive()
    ensures Times(RATIO, START) == Of(0x1c3) && Times(RATIO, Of(0x1c3)) == Of(0x035)
    ensures IsUnit(START) && IsUnit(RATIO)
  {
    hide Of, Times;
    OfTimes(0x10d, 0x23a);
    OfTimes(0x10d, 0x1c3);
    OfTimes(0x18a, 0x23a);
    OfTimes(0x3bf, 0x10d);
    OfModulus();
  }

  // ---------------------------------------------------------------- the order of their ratio

  lemma Row(j: nat, q: bv10, p: bv10, i: bv10)
    requires j > 0 && Power(RATIO, j - 1) == Of(q) && p == TimesWord(0x10d, q) && TimesWord(i, p ^ 1) == 1
    ensures Power(RATIO, j) == Of(p) && IsUnit(Xor(Power(RATIO, j), UNIT))
  {
    hide Of, Times, TimesWord, Xor;
    PowerWord(0x10d, j - 1, q, p);
    OfAdds(p, 1);
    OfModulus();
    OfTimes(i, p ^ 1);
  }

  lemma RowsTo5()
    requires Power(RATIO, 0) == Of(0x001)
    ensures Power(RATIO, 5) == Of(0x3e3)
    ensures forall j: nat :: 1 <= j <= 5 ==> IsUnit(Xor(Power(RATIO, j), UNIT))
  {
    hide Of, Power, IsUnit, Xor;
    Row(1, 0x001, 0x10d, 0x327);
    Row(2, 0x10d, 0x211, 0x34e);
    Row(3, 0x211, 0x346, 0x33b);
    Row(4, 0x346, 0x013, 0x322);
    Row(5, 0x013, 0x3e3, 0x23f);
  }

  lemma RowsTo10()
    requires Power(RATIO, 5) == Of(0x3e3)
    ensures Power(RATIO, 10) == Of(0x3ea)
    ensures forall j: nat :: 6 <= j <= 10 ==> IsUnit(Xor(Power(RATIO, j), UNIT))
  {
    hide Of, Power, IsUnit, Xor;
    Row(6, 0x3e3, 0x362, 0x21e);
    Row(7, 0x362, 0x1c6, 0x2a4);
    Row(8, 0x1c6, 0x105, 0x35f);
    Row(9, 0x105, 0x26b, 0x186);
    Row(10, 0x26b, 0x3ea, 0x04e);
  }

  lemma RowsTo15()
    requires Power(RATIO, 10) == Of(0x3ea)
    ensures Power(RATIO, 15) == Of(0x32e)
    ensures forall j: nat :: 11 <= j <= 15 ==> IsUnit(Xor(Power(RATIO, j), UNIT))
  {
    hide Of, Power, IsUnit, Xor;
    Row(11, 0x3ea, 0x215, 0x10a);
    Row(12, 0x215, 0x37b, 0x046);
    Row(13, 0x37b, 0x045, 0x273);
    Row(14, 0x045, 0x2e0, 0x19b);
    Row(15, 0x2e0, 0x32e, 0x3c0);
  }

  lemma RowsTo20()
    requires Power(RATIO, 15) == Of(0x32e)
    ensures Power(RATIO, 20) == Of(0x3ab)
    ensures forall j: nat :: 16 <= j <= 20 ==> IsUnit(Xor(Power(RATIO, j), UNIT))
  {
    hide Of, Power, IsUnit, Xor;
    Row(16, 0x32e, 0x251, 0x223);
    Row(17, 0x251, 0x096, 0x333);
    Row(18, 0x096, 0x17a, 0x2c4);
    Row(19, 0x17a, 0x3f7, 0x17a);
    Row(20, 0x3f7, 0x3ab, 0x070);
  }

  lemma RowsTo25()
    requires Power(RATIO, 20) == Of(0x3ab)
    ensures Power(RATIO, 25) == Of(0x1c3)
    ensures forall j: nat :: 21 <= j <= 25 ==> IsUnit(Xor(Power(RATIO, j), UNIT))
  {
    hide Of, Power, IsUnit, Xor;
    Row(21, 0x3ab, 0x0c8, 0x267);
    Row(22, 0x0c8, 0x003, 0x204);
    Row(23, 0x003, 0x317, 0x21c);
    Row(24, 0x317, 0x23a, 0x030);
    Row(25, 0x23a, 0x1c3, 0x0c6);
  }

  lemma RowsTo30()
    requires Power(RATIO, 25) == Of(0x1c3)
    ensures Power(RATIO, 30) == Of(0x30f)
    ensures forall j: nat :: 26 <= j <= 30 ==> IsUnit(Xor(Power(RATIO, j), UNIT))
  {
    hide Of, Power, IsUnit, Xor;
    Row(26, 0x1c3, 0x035, 0x03a);
    Row(27, 0x035, 0x02c, 0x213);
    Row(28, 0x02c, 0x1af, 0x395);
    Row(29, 0x1af, 0x24a, 0x3d6);
    Row(30, 0x24a, 0x30f, 0x3e6);
  }

  lemma RowsTo35()
    requires Power(RATIO, 30) == Of(0x30f)
    ensures Power(RATIO, 35) == Of(0x0cf)
    ensures forall j: nat :: 31 <= j <= 35 ==> IsUnit(Xor(Power(RATIO, j), UNIT))
  {
    hide Of, Power, IsUnit, Xor;
    Row(31, 0x30f, 0x2b4, 0x2d4);
    Row(32, 0x2b4, 0x037, 0x11e);
    Row(33, 0x037, 0x236, 0x26c);
    Row(34, 0x236, 0x184, 0x25e);
    Row(35, 0x184, 0x0cf, 0x09b);
  }

  lemma RowsTo37()
    requires Power(RATIO, 35) == Of(0x0cf)
    ensures Power(RATIO, 37) == Of(0x17b)
    ensures forall j: nat :: 36 <= j <= 37 ==> IsUnit(Xor(Power(RATIO, j), UNIT))
  {
    hide Of, Power, IsUnit, Xor;
    Row(36, 0x0cf, 0x329, 0x1b6);
    Row(37, 0x329, 0x17b, 0x3f6);
  }

  lemma RatioSeparates()
    ensures Separates(RATIO, 38)
  {
    hide Of, Power, IsUnit, Xor;
    PowerNone(RATIO);
    OfModulus();
    Consecutive();
    RowsTo5();
    RowsTo10();
    RowsTo15();
    RowsTo20();
    RowsTo25();
    RowsTo30();
    RowsTo35();
    RowsTo37();
  }

  // ---------------------------------------------------------------- up to three errors are detected

  function XorAll(v: seq<Bits>, w: seq<Bits>): (d: seq<Bits>)
    requires AllFive(v) && AllFive(w) && |v| == |w|
    ensures AllFive(d) && |d| == |v| && forall i :: 0 <= i < |d| ==> d[i] == Xor(v[i], w[i])
  {
    seq(|v|, i requires 0 <= i < |v| => Xor(v[i], w[i]))
  }

  lemma {:induction false} FoldLinear(a: Bits, b: Bits, v: seq<Bits>, w: seq<Bits>)
    requires |a| == |b| == 30 && AllFive(v) && AllFive(w) && |v| == |w|
    ensures Fold(Xor(a, b), XorAll(v, w)) == Xor(Fold(a, v), Fold(b, w))
  {
    hide Step;
    if v != [] {
      var n := |v| - 1;
      FoldLinear(a, b, v[..n], w[..n]);
      assert XorAll(v, w)[..n] == XorAll(v[..n], w[..n]);
      StepLinear(Fold(a, v[..n]), Fold(b, w[..n]), v[n], w[n]);
    }
  }

  /** The number of places at which two lists differ. */
  function Differences<T(==)>(v: seq<T>, w: seq<T>): nat
    requires |v| == |w|
  {
    if v == [] then 0 else Differences(v[..|v| - 1], w[..|w| - 1]) + if v[|v| - 1] == w[|w| - 1] then 0 else 1
  }

  lemma {:induction false} TermsAreDifferences(v: seq<Bits>, w: seq<Bits>)
    requires AllFive(v) && AllFive(w) && |v| == |w|
    ensures Terms(EmbedAll(XorAll(v, w))) <= Differences(v, w)
  {
    hide Embedded;
    if v != [] {
      var n := |v| - 1;
      TermsAreDifferences(v[..n], w[..n]);
      var e := EmbedAll(XorAll(v, w));
      assert e[..n] == EmbedAll(XorAll(v[..n], w[..n]));
      if v[n] == w[n] {
        XorSelf(v[n], v[n]);
        EmbedZero(5);
      }
    }
  }

  /** A list that polymod takes to nothing vanishes at the three roots. */
  lemma ThreeZeros(d: seq<Bits>)
    requires AllFive(d) && Fold(Zero(30), d) == Zero(30)
    ensures Vanishes(EmbedAll(d), RATIO, START, 3)
  {
    hide Of, Eval, Fold, Times, EmbedAll, Horner;
    FirstRoot();
    SecondRoot();
    ThirdRoot();
    Consecutive();
    FoldEval(d, START);
    FoldEval(d, Of(0x1c3));
    FoldEval(d, Of(0x035));
    EvalZero(START);
    EvalZero(Of(0x1c3));
    EvalZero(Of(0x035));
    assert Vanishes(EmbedAll(d), RATIO, Of(0x035), 1);
    assert Vanishes(EmbedAll(d), RATIO, Of(0x1c3), 2);
  }

  /** Two lists of at most 38 values with the same checksum are equal or differ at more than three places. */
  lemma ThreeErrorsDetected(v: seq<Bits>, w: seq<Bits>)
    requires AllFive(v) && AllFive(w) && |v| == |w| <= 38 && PolymodOf(v) == PolymodOf(w) && Differences(v, w) <= 3
    ensures v == w
  {
    hide Of, Fold, EmbedAll, Vanishes, Separates, IsUnit, Terms, Xor;
    var d := XorAll(v, w);
    FoldLinear(Lisk32Checksum.ONE, Lisk32Checksum.ONE, v, w);
    XorSelf(Lisk32Checksum.ONE, Lisk32Checksum.ONE);
    XorSelf(PolymodOf(v), PolymodOf(v));
    ThreeZeros(d);
    RatioSeparates();
    Consecutive();
    TermsAreDifferences(v, w);
    Bound(EmbedAll(d), RATIO, START, 3, 38);
    NothingDiffers(v, w);
  }

  lemma NothingDiffers(v: seq<Bits>, w: seq<Bits>)
    requires AllFive(v) && AllFive(w) && |v| == |w| && EmbedAll(XorAll(v, w)) == Nils(|v|)
    ensures v == w
  {
    hide Embedded;
    forall i | 0 <= i < |v| ensures v[i] == w[i] {
      assert EmbedAll(XorAll(v, w))[i] == NIL;
      EmbedIsNil(Xor(v[i], w[i]));
      XorSelf(v[i], w[i]);
      XorWithZero(v[i]);
    }
  }
}
