/** Published addresses: the checksum and the character set at two of them (pkg/codec/bytes_test.go,
    cmd/debug/app/default/dev-validators.json). */
module Lisk32Published {
  import opened Basics
  import opened BitWords
  import opened Lisk32Checksum
  import opened Lisk32
  import S = Lisk32Scale

  // ---------------------------------------------------------------- words of 5 bits

  predicate Has(x: bv5, m: bv5) { x & m != 0 }

  function Digit(x: bv5): (b: Bits)
    ensures Five(b)
  {
    [Has(x, 16), Has(x, 8), Has(x, 4), Has(x, 2), Has(x, 1)]
  }

  lemma HasAdds(x: bv5, y: bv5, z: bv5)
    requires z == x ^ y
    ensures Has(z, 16) == (Has(x, 16) != Has(y, 16)) && Has(z, 8) == (Has(x, 8) != Has(y, 8)) && Has(z, 4) == (Has(x, 4) != Has(y, 4))
    ensures Has(z, 2) == (Has(x, 2) != Has(y, 2)) && Has(z, 1) == (Has(x, 1) != Has(y, 1))
  {
  }

  lemma DigitAdds(x: bv5, y: bv5)
    ensures Digit(x ^ y) == Xor(Digit(x), Digit(y))
  {
    hide Has;
    HasAdds(x, y, x ^ y);
  }

  /** A word of six digits. */
  datatype Word = Word(d0: bv5, d1: bv5, d2: bv5, d3: bv5, d4: bv5, d5: bv5)

  function BitsOfWord(w: Word): (b: Bits)
    ensures |b| == 30
  {
    Digit(w.d0) + Digit(w.d1) + Digit(w.d2) + Digit(w.d3) + Digit(w.d4) + Digit(w.d5)
  }

  function Add(v: Word, w: Word): Word {
    Word(v.d0 ^ w.d0, v.d1 ^ w.d1, v.d2 ^ w.d2, v.d3 ^ w.d3, v.d4 ^ w.d4, v.d5 ^ w.d5)
  }

  lemma WordAdds(v: Word, w: Word)
    ensures BitsOfWord(Add(v, w)) == Xor(BitsOfWord(v), BitsOfWord(w))
  {
    hide Digit, Xor, BitsOfWord;
    DigitAdds(v.d0, w.d0);
    DigitAdds(v.d1, w.d1);
    DigitAdds(v.d2, w.d2);
    DigitAdds(v.d3, w.d3);
    DigitAdds(v.d4, w.d4);
    DigitAdds(v.d5, w.d5);
    SumOfWords(v, w, Add(v, w));
  }

  lemma SumOfWords(v: Word, w: Word, z: Word)
    requires Digit(z.d0) == Xor(Digit(v.d0), Digit(w.d0)) && Digit(z.d1) == Xor(Digit(v.d1), Digit(w.d1))
    requires Digit(z.d2) == Xor(Digit(v.d2), Digit(w.d2)) && Digit(z.d3) == Xor(Digit(v.d3), Digit(w.d3))
    requires Digit(z.d4) == Xor(Digit(v.d4), Digit(w.d4)) && Digit(z.d5) == Xor(Digit(v.d5), Digit(w.d5))
    ensures BitsOfWord(z) == Xor(BitsOfWord(v), BitsOfWord(w))
  {
    hide Digit, Xor;
    XorSix(Digit(v.d0), Digit(v.d1), Digit(v.d2), Digit(v.d3), Digit(v.d4), Digit(v.d5),
      Digit(w.d0), Digit(w.d1), Digit(w.d2), Digit(w.d3), Digit(w.d4), Digit(w.d5));
  }

  lemma XorPair(a: Bits, b: Bits, c: Bits, d: Bits)
    requires |a| == |c| && |b| == |d|
    ensures Xor(a + b, c + d) == Xor(a, c) + Xor(b, d)
  {
  }

  lemma XorSix(a: Bits, b: Bits, c: Bits, d: Bits, e: Bits, f: Bits, g: Bits, h: Bits, i: Bits, j: Bits, k: Bits, l: Bits)
    requires Five(a) && Five(b) && Five(c) && Five(d) && Five(e) && Five(f) && Five(g) && Five(h) && Five(i) && Five(j) && Five(k) && Five(l)
    ensures Xor(a + b + c + d + e + f, g + h + i + j + k + l) == Xor(a, g) + Xor(b, h) + Xor(c, i) + Xor(d, j) + Xor(e, k) + Xor(f, l)
  {
    hide Xor;
    XorPair(a + b + c + d + e, f, g + h + i + j + k, l);
    XorPair(a + b + c + d, e, g + h + i + j, k);
    XorPair(a + b + c, d, g + h + i, j);
    XorPair(a + b, c, g + h, i);
    XorPair(a, b, g, h);
  }

  function Gen(i: nat): Word {
    if i == 0 then Word(29, 22, 20, 21, 29, 18)
    else if i == 1 then Word(19, 5, 1, 3, 19, 13)
    else if i == 2 then Word(15, 10, 2, 6, 15, 26)
    else if i == 3 then Word(30, 20, 4, 12, 30, 29)
    else Word(21, 1, 8, 24, 21, 19)
  }

  /** One turn on digits. */
  function Turn(w: Word, v: bv5): Word {
    var r := Word(w.d1, w.d2, w.d3, w.d4, w.d5, v);
    var r := if Has(w.d0, 1) then Add(r, Gen(0)) else r;
    var r := if Has(w.d0, 2) then Add(r, Gen(1)) else r;
    var r := if Has(w.d0, 4) then Add(r, Gen(2)) else r;
    var r := if Has(w.d0, 8) then Add(r, Gen(3)) else r;
    if Has(w.d0, 16) then Add(r, Gen(4)) else r
  }

  /** The number of a digit. */
  function Number(x: bv5): nat { S.Number(Has(x, 16), Has(x, 8), Has(x, 4), Has(x, 2), Has(x, 1)) }

  lemma NumberBits(x: bv5)
    ensures BitsOf(Number(x), 5) == Digit(x) && Number(x) < 32
  {
    hide BitsOf, Has;
    S.FiveBits(Has(x, 16), Has(x, 8), Has(x, 4), Has(x, 2), Has(x, 1));
  }

  predicate SameDigits(g: Word, d: seq<nat>) {
    |d| == 6 && Number(g.d0) == d[0] && Number(g.d1) == d[1] && Number(g.d2) == d[2]
    && Number(g.d3) == d[3] && Number(g.d4) == d[4] && Number(g.d5) == d[5]
  }

  lemma LowNumbers()
    ensures Number(0) == 0 && Number(1) == 1 && Number(2) == 2 && Number(3) == 3 && Number(4) == 4 && Number(5) == 5 && Number(6) == 6 && Number(7) == 7
    ensures Number(8) == 8 && Number(9) == 9 && Number(10) == 10 && Number(11) == 11 && Number(12) == 12 && Number(13) == 13 && Number(14) == 14 && Number(15) == 15
  {
  }

  lemma HighNumbers()
    ensures Number(16) == 16 && Number(17) == 17 && Number(18) == 18 && Number(19) == 19 && Number(20) == 20 && Number(21) == 21 && Number(22) == 22 && Number(23) == 23
    ensures Number(24) == 24 && Number(25) == 25 && Number(26) == 26 && Number(27) == 27 && Number(28) == 28 && Number(29) == 29 && Number(30) == 30 && Number(31) == 31
  {
  }

  lemma GenDigits(i: nat)
    requires i < 5
    ensures SameDigits(Gen(i), S.DIGITS[i])
  {
    hide Number;
    LowNumbers();
    HighNumbers();
    if i == 0 {} else if i == 1 {} else if i == 2 {} else if i == 3 {}
  }

  lemma GenIsGenerator(i: nat)
    requires i < 5
    ensures BitsOfWord(Gen(i)) == Generator(i)
  {
    hide BitsOf, Digit, Number, Gen, Generator, Groups;
    var g := Gen(i);
    GenDigits(i);
    NumberBits(g.d0);
    NumberBits(g.d1);
    NumberBits(g.d2);
    NumberBits(g.d3);
    NumberBits(g.d4);
    NumberBits(g.d5);
    S.GeneratorGroups(i);
    S.SixGroups(Digit(g.d0), Digit(g.d1), Digit(g.d2), Digit(g.d3), Digit(g.d4), Digit(g.d5));
    assert Groups(BitsOfWord(g)) == Groups(Generator(i));
    S.SameGroups(BitsOfWord(g), Generator(i));
  }

  lemma MixDigit(r: Word, c: Bits, top: Bits, n: nat, bit: bool)
    requires |c| == 30 && Five(top) && 0 < n <= 5 && Mixed(c, top, n - 1) == BitsOfWord(r) && bit == top[5 - n]
    ensures Mixed(c, top, n) == BitsOfWord(if bit then Add(r, Gen(n - 1)) else r)
  {
    hide BitsOfWord, Gen, Generator, Add;
    GenIsGenerator(n - 1);
    WordAdds(r, Gen(n - 1));
  }

  /** The turn on digits is the turn of polymod. */
  lemma TurnIsStep(w: Word, v: bv5)
    ensures Step(BitsOfWord(w), Digit(v)) == BitsOfWord(Turn(w, v))
  {
    hide Digit, Gen, Generator, Add, Mixed, Has, BitsOfWord;
    var top, r0 := Digit(w.d0), Word(w.d1, w.d2, w.d3, w.d4, w.d5, v);
    var c := BitsOfWord(w)[5..] + Digit(v);
    ShiftDigits(w, v);
    DigitBits(w.d0);
    MixedStart(c, top);
    MixDigit(r0, c, top, 1, Has(w.d0, 1));
    var r1 := if Has(w.d0, 1) then Add(r0, Gen(0)) else r0;
    MixDigit(r1, c, top, 2, Has(w.d0, 2));
    var r2 := if Has(w.d0, 2) then Add(r1, Gen(1)) else r1;
    MixDigit(r2, c, top, 3, Has(w.d0, 4));
    var r3 := if Has(w.d0, 4) then Add(r2, Gen(2)) else r2;
    MixDigit(r3, c, top, 4, Has(w.d0, 8));
    var r4 := if Has(w.d0, 8) then Add(r3, Gen(3)) else r3;
    MixDigit(r4, c, top, 5, Has(w.d0, 16));
  }

  lemma ShiftDigits(w: Word, v: bv5)
    ensures BitsOfWord(w)[5..] + Digit(v) == BitsOfWord(Word(w.d1, w.d2, w.d3, w.d4, w.d5, v)) && BitsOfWord(w)[..5] == Digit(w.d0)
  {
    hide Digit;
  }

  lemma DigitBits(x: bv5)
    ensures Digit(x)[0] == Has(x, 16) && Digit(x)[1] == Has(x, 8) && Digit(x)[2] == Has(x, 4) && Digit(x)[3] == Has(x, 2) && Digit(x)[4] == Has(x, 1)
  {
    hide Has;
  }

  lemma MixedStart(c: Bits, top: Bits)
    requires |c| == 30 && Five(top)
    ensures Mixed(c, top, 0) == c
  {
  }

  // ---------------------------------------------------------------- two values at a time

  function Pair(a: bv5, b: bv5): (v: seq<nat>)
    ensures AllBelow(v, 5)
  {
    assert Pow2(5) == 32;
    NumberBits(a);
    NumberBits(b);
    [Number(a), Number(b)]
  }

  lemma PairWords(a: bv5, b: bv5)
    ensures Words(Pair(a, b)) == [Digit(a), Digit(b)]
  {
    hide BitsOf, Number, Digit;
    NumberBits(a);
    NumberBits(b);
  }

  lemma PairFold(c: Bits, w: Word, a: bv5, b: bv5, next: Word)
    requires c == BitsOfWord(w) && next == Turn(Turn(w, a), b)
    ensures Fold(c, Words(Pair(a, b))) == BitsOfWord(next)
  {
    hide BitsOfWord, Turn, Digit, Step, Number, Pair;
    PairWords(a, b);
    var two := [Digit(a), Digit(b)];
    assert two[..1] == [Digit(a)] && [Digit(a)][..0] == [];
    assert Fold(c, [Digit(a)]) == Step(c, Digit(a));
    TurnIsStep(w, a);
    TurnIsStep(Turn(w, a), b);
  }

  lemma PairText(a: bv5, b: bv5, s: string)
    requires |s| == 2 && Number(a) < 32 && Number(b) < 32 && CHARSET[Number(a)] == s[0] && CHARSET[Number(b)] == s[1]
    ensures TextOf(Pair(a, b)) == s
  {
    hide Number;
  }

  /** A list of values with its text and what polymod makes of it. */
  ghost predicate Reached(values: seq<nat>, s: string, w: Word) {
    AllBelow(values, 5) && TextOf(values) == s && PolymodOf(Words(values)) == BitsOfWord(w)
  }

  /** Two more values. */
  lemma More(values: seq<nat>, s: string, w: Word, a: bv5, b: bv5, t: string, s1: string, next: Word) returns (more: seq<nat>)
    requires Reached(values, s, w) && s1 == s + t && |t| == 2 && Number(a) < 32 && Number(b) < 32
    requires CHARSET[Number(a)] == t[0] && CHARSET[Number(b)] == t[1] && next == Turn(Turn(w, a), b)
    ensures Reached(more, s1, next)
  {
    hide BitsOfWord, Turn, Number, Fold, TextOf, Words, Pair, AllBelow;
    more := values + Pair(a, b);
    PairText(a, b, t);
    PairFold(PolymodOf(Words(values)), w, a, b, next);
    TextAppend(values, Pair(a, b));
    WordsAppend(values, Pair(a, b));
    FoldAppend(ONE, Words(values), Words(Pair(a, b)));
  }

  lemma Begin()
    ensures Reached([], "", Word(0, 0, 0, 0, 0, 1))
  {
    assert Digit(0) == [false, false, false, false, false] && Digit(1) == [false, false, false, false, true];
    assert BitsOfWord(Word(0, 0, 0, 0, 0, 1)) == ONE;
  }

  // ---------------------------------------------------------------- the addresses

  lemma Test1() returns (more: seq<nat>)
    ensures Reached(more, "gr5tu9283t", Word(19, 10, 18, 28, 27, 21))
  {
    hide Reached, Number;
    LowNumbers();
    HighNumbers();
    Begin();
    more := [];
    more := More(more, "", Word(0, 0, 0, 0, 0, 1), 31, 18, "gr",
      "gr", Word(0, 0, 0, 1, 31, 18));
    more := More(more, "gr", Word(0, 0, 0, 1, 31, 18), 11, 19, "5t",
      "gr5t", Word(0, 1, 31, 18, 11, 19));
    more := More(more, "gr5t", Word(0, 1, 31, 18, 11, 19), 16, 13, "u9",
      "gr5tu9", Word(2, 4, 31, 6, 13, 31));
    more := More(more, "gr5tu9", Word(2, 4, 31, 6, 13, 31), 24, 15, "28",
      "gr5tu928", Word(14, 31, 17, 4, 1, 25));
    more := More(more, "gr5tu928", Word(14, 31, 17, 4, 1, 25), 8, 19, "3t",
      "gr5tu9283t", Word(19, 10, 18, 28, 27, 21));
  }

  lemma Test2(values: seq<nat>) returns (more: seq<nat>)
    requires Reached(values, "gr5tu9283t", Word(19, 10, 18, 28, 27, 21))
    ensures Reached(more, "gr5tu9283t77x8d27g8e", Word(22, 3, 2, 4, 0, 1))
  {
    hide Reached, Number;
    LowNumbers();
    HighNumbers();
    more := values;
    more := More(more, "gr5tu9283t", Word(19, 10, 18, 28, 27, 21), 14, 14, "77",
      "gr5tu9283t77", Word(8, 22, 9, 3, 10, 15));
    more := More(more, "gr5tu9283t77", Word(8, 22, 9, 3, 10, 15), 1, 15, "x8",
      "gr5tu9283t77x8", Word(3, 19, 2, 29, 2, 18));
    more := More(more, "gr5tu9283t77x8", Word(3, 19, 2, 29, 2, 18), 26, 24, "d2",
      "gr5tu9283t77x8d2", Word(8, 1, 14, 27, 28, 30));
    more := More(more, "gr5tu9283t77x8d2", Word(8, 1, 14, 27, 28, 30), 14, 31, "7g",
      "gr5tu9283t77x8d27g", Word(16, 19, 11, 4, 25, 20));
    more := More(more, "gr5tu9283t77x8d27g", Word(16, 19, 11, 4, 25, 20), 15, 22, "8e",
      "gr5tu9283t77x8d27g8e", Word(22, 3, 2, 4, 0, 1));
  }

  lemma Test3(values: seq<nat>) returns (more: seq<nat>)
    requires Reached(values, "gr5tu9283t77x8d27g8e", Word(22, 3, 2, 4, 0, 1))
    ensures Reached(more, "gr5tu9283t77x8d27g8e95zwqgkc3s", Word(4, 31, 23, 15, 15, 22))
  {
    hide Reached, Number;
    LowNumbers();
    HighNumbers();
    more := values;
    more := More(more, "gr5tu9283t77x8d27g8e", Word(22, 3, 2, 4, 0, 1), 13, 11, "95",
      "gr5tu9283t77x8d27g8e95", Word(1, 30, 24, 7, 4, 27));
    more := More(more, "gr5tu9283t77x8d27g8e95", Word(1, 30, 24, 7, 4, 27), 0, 23, "zw",
      "gr5tu9283t77x8d27g8e95zw", Word(0, 0, 4, 16, 28, 8));
    more := More(more, "gr5tu9283t77x8d27g8e95zw", Word(0, 0, 4, 16, 28, 8), 21, 31, "qg",
      "gr5tu9283t77x8d27g8e95zwqg", Word(4, 16, 28, 8, 21, 31));
    more := More(more, "gr5tu9283t77x8d27g8e95zwqg", Word(4, 16, 28, 8, 21, 31), 20, 3, "kc",
      "gr5tu9283t77x8d27g8e95zwqgkc", Word(28, 6, 8, 20, 4, 8));
    more := More(more, "gr5tu9283t77x8d27g8e95zwqgkc", Word(28, 6, 8, 20, 4, 8), 8, 27, "3s",
      "gr5tu9283t77x8d27g8e95zwqgkc3s", Word(4, 31, 23, 15, 15, 22));
  }

  lemma Test4(values: seq<nat>) returns (more: seq<nat>)
    requires Reached(values, "gr5tu9283t77x8d27g8e95zwqgkc3s", Word(4, 31, 23, 15, 15, 22))
    ensures Reached(more, "gr5tu9283t77x8d27g8e95zwqgkc3sogx4zazd", Word(0, 0, 0, 0, 0, 1))
  {
    hide Reached, Number;
    LowNumbers();
    HighNumbers();
    more := values;
    more := More(more, "gr5tu9283t77x8d27g8e95zwqgkc3s", Word(4, 31, 23, 15, 15, 22), 12, 31, "og",
      "gr5tu9283t77x8d27g8e95zwqgkc3sog", Word(8, 12, 1, 1, 3, 12));
    more := More(more, "gr5tu9283t77x8d27g8e95zwqgkc3sog", Word(8, 12, 1, 1, 3, 12), 1, 9, "x4",
      "gr5tu9283t77x8d27g8e95zwqgkc3sogx4", Word(19, 1, 6, 9, 26, 23));
    more := More(more, "gr5tu9283t77x8d27g8e95zwqgkc3sogx4", Word(19, 1, 6, 9, 26, 23), 0, 25, "za",
      "gr5tu9283t77x8d27g8e95zwqgkc3sogx4za", Word(12, 4, 25, 27, 20, 26));
    more := More(more, "gr5tu9283t77x8d27g8e95zwqgkc3sogx4za", Word(12, 4, 25, 27, 20, 26), 0, 26, "zd",
      "gr5tu9283t77x8d27g8e95zwqgkc3sogx4zazd", Word(0, 0, 0, 0, 0, 1));
  }

  lemma Validator1() returns (more: seq<nat>)
    ensures Reached(more, "6quzyfffe2", Word(30, 10, 22, 28, 26, 31))
  {
    hide Reached, Number;
    LowNumbers();
    HighNumbers();
    Begin();
    more := [];
    more := More(more, "", Word(0, 0, 0, 0, 0, 1), 10, 21, "6q",
      "6q", Word(0, 0, 0, 1, 10, 21));
    more := More(more, "6q", Word(0, 0, 0, 1, 10, 21), 16, 0, "uz",
      "6quz", Word(0, 1, 10, 21, 16, 0));
    more := More(more, "6quz", Word(0, 1, 10, 21, 16, 0), 17, 30, "yf",
      "6quzyf", Word(23, 3, 4, 21, 12, 12));
    more := More(more, "6quzyf", Word(23, 3, 4, 21, 12, 12), 30, 30, "ff",
      "6quzyfff", Word(8, 18, 27, 16, 28, 8));
    more := More(more, "6quzyfff", Word(8, 18, 27, 16, 28, 8), 22, 24, "e2",
      "6quzyfffe2", Word(30, 10, 22, 28, 26, 31));
  }

  lemma Validator2(values: seq<nat>) returns (more: seq<nat>)
    requires Reached(values, "6quzyfffe2", Word(30, 10, 22, 28, 26, 31))
    ensures Reached(more, "6quzyfffe2xhukyq4vjw", Word(8, 5, 1, 13, 20, 23))
  {
    hide Reached, Number;
    LowNumbers();
    HighNumbers();
    more := values;
    more := More(more, "6quzyfffe2", Word(30, 10, 22, 28, 26, 31), 1, 29, "xh",
      "6quzyfffe2xh", Word(21, 26, 17, 15, 1, 27));
    more := More(more, "6quzyfffe2xh", Word(21, 26, 17, 15, 1, 27), 16, 20, "uk",
      "6quzyfffe2xhuk", Word(21, 24, 16, 27, 18, 18));
    more := More(more, "6quzyfffe2xhuk", Word(21, 24, 16, 27, 18, 18), 17, 21, "yq",
      "6quzyfffe2xhukyq", Word(7, 9, 2, 17, 0, 30));
    more := More(more, "6quzyfffe2xhukyq", Word(7, 9, 2, 17, 0, 30), 9, 2, "4v",
      "6quzyfffe2xhukyq4v", Word(5, 18, 20, 19, 18, 31));
    more := More(more, "6quzyfffe2xhukyq4v", Word(5, 18, 20, 19, 18, 31), 28, 23, "jw",
      "6quzyfffe2xhukyq4vjw", Word(8, 5, 1, 13, 20, 23));
  }

  lemma Validator3(values: seq<nat>) returns (more: seq<nat>)
    requires Reached(values, "6quzyfffe2xhukyq4vjw", Word(8, 5, 1, 13, 20, 23))
    ensures Reached(more, "6quzyfffe2xhukyq4vjwnebmnapvsg", Word(5, 4, 1, 26, 9, 7))
  {
    hide Reached, Number;
    LowNumbers();
    HighNumbers();
    more := values;
    more := More(more, "6quzyfffe2xhukyq4vjw", Word(8, 5, 1, 13, 20, 23), 7, 22, "ne",
      "6quzyfffe2xhukyq4vjwne", Word(16, 15, 1, 11, 31, 7));
    more := More(more, "6quzyfffe2xhukyq4vjwne", Word(16, 15, 1, 11, 31, 7), 6, 5, "bm",
      "6quzyfffe2xhukyq4vjwnebm", Word(24, 19, 10, 5, 13, 6));
    more := More(more, "6quzyfffe2xhukyq4vjwnebm", Word(24, 19, 10, 5, 13, 6), 7, 25, "na",
      "6quzyfffe2xhukyq4vjwnebmna", Word(20, 28, 21, 25, 2, 23));
    more := More(more, "6quzyfffe2xhukyq4vjwnebmna", Word(20, 28, 21, 25, 2, 23), 4, 2, "pv",
      "6quzyfffe2xhukyq4vjwnebmnapv", Word(2, 28, 31, 8, 17, 21));
    more := More(more, "6quzyfffe2xhukyq4vjwnebmnapv", Word(2, 28, 31, 8, 17, 21), 27, 31, "sg",
      "6quzyfffe2xhukyq4vjwnebmnapvsg", Word(5, 4, 1, 26, 9, 7));
  }

  lemma Validator4(values: seq<nat>) returns (more: seq<nat>)
    requires Reached(values, "6quzyfffe2xhukyq4vjwnebmnapvsg", Word(5, 4, 1, 26, 9, 7))
    ensures Reached(more, "6quzyfffe2xhukyq4vjwnebmnapvsgj4we7bad", Word(0, 0, 0, 0, 0, 1))
  {
    hide Reached, Number;
    LowNumbers();
    HighNumbers();
    more := values;
    more := More(more, "6quzyfffe2xhukyq4vjwnebmnapvsg", Word(5, 4, 1, 26, 9, 7), 28, 9, "j4",
      "6quzyfffe2xhukyq4vjwnebmnapvsgj4", Word(20, 2, 17, 8, 29, 13));
    more := More(more, "6quzyfffe2xhukyq4vjwnebmnapvsgj4", Word(20, 2, 17, 8, 29, 13), 23, 22, "we",
      "6quzyfffe2xhukyq4vjwnebmnapvsgj4we", Word(17, 23, 15, 3, 21, 24));
    more := More(more, "6quzyfffe2xhukyq4vjwnebmnapvsgj4we", Word(17, 23, 15, 3, 21, 24), 14, 6, "7b",
      "6quzyfffe2xhukyq4vjwnebmnapvsgj4we7b", Word(18, 19, 3, 20, 5, 13));
    more := More(more, "6quzyfffe2xhukyq4vjwnebmnapvsgj4we7b", Word(18, 19, 3, 20, 5, 13), 25, 26, "ad",
      "6quzyfffe2xhukyq4vjwnebmnapvsgj4we7bad", Word(0, 0, 0, 0, 0, 1));
  }

  /** A string is valid if polymod of its values comes to 1. */
  lemma ReachedIsValid(values: seq<nat>, s: string)
    requires |s| == 38 && Reached(values, s, Word(0, 0, 0, 0, 0, 1))
    ensures Valid("lsk" + s)
  {
    hide Indexes, Fold, TextOf, Words, BitsOfWord;
    Begin();
    NoWords();
    IndexesOfText(values);
    assert ("lsk" + s)[3..] == s;
  }

  lemma NoWords()
    ensures PolymodOf(Words([])) == ONE
  {
  }

  /** The address of the tests is valid. */
  lemma TestAddressIsValid()
    ensures Valid("lsk" + "gr5tu9283t77x8d27g8e95zwqgkc3sogx4zazd")
  {
    hide Reached, Valid;
    var v := Test1();
    v := Test2(v);
    v := Test3(v);
    v := Test4(v);
    ReachedIsValid(v, "gr5tu9283t77x8d27g8e95zwqgkc3sogx4zazd");
  }

  /** The address of a validator is valid. The two addresses use every character of the set. */
  lemma ValidatorAddressIsValid()
    ensures Valid("lsk" + "6quzyfffe2xhukyq4vjwnebmnapvsgj4we7bad")
  {
    hide Reached, Valid;
    var v := Validator1();
    v := Validator2(v);
    v := Validator3(v);
    v := Validator4(v);
    ReachedIsValid(v, "6quzyfffe2xhukyq4vjwnebmnapvsgj4we7bad");
  }
}
