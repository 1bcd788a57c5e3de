/** Lisk32 addresses (pkg/codec/bytes.go). */
module Lisk32 {
  import opened Basics
  import opened BitWords
  import opened Lisk32Checksum

  // ---------------------------------------------------------------- regrouping bits

  /** All bits of a list of `w`-bit numbers. */
  function Flat(xs: seq<nat>, w: nat): Bits {
    if xs == [] then [] else BitsOf(xs[0], w) + Flat(xs[1..], w)
  }

  /** A bit sequence in groups of `w`; what is left at the end is dropped. */
  function Chunk(b: Bits, w: nat): seq<nat>
    requires w >= 1
  {
    if |b| < w then [] else [Value(b[..w])] + Chunk(b[w..], w)
  }

  lemma {:induction false} FlatAppend(xs: seq<nat>, ys: seq<nat>, w: nat)
    ensures Flat(xs + ys, w) == Flat(xs, w) + Flat(ys, w)
  {
    if xs == [] {
      assert xs + ys == ys;
    } else {
      FlatAppend(xs[1..], ys, w);
      FlatFirst(xs, ys, w);
      FlatFirst(xs, [], w);
      assert xs + [] == xs && xs[1..] + [] == xs[1..];
    }
  }

  lemma FlatFirst(xs: seq<nat>, ys: seq<nat>, w: nat)
    requires xs != []
    ensures Flat(xs + ys, w) == BitsOf(xs[0], w) + Flat(xs[1..] + ys, w)
  {
    hide BitsOf;
    assert (xs + ys)[0] == xs[0] && (xs + ys)[1..] == xs[1..] + ys;
  }

  lemma {:induction false} FlatLength(xs: seq<nat>, w: nat)
    ensures |Flat(xs, w)| == w * |xs|
  {
    if xs != [] { FlatLength(xs[1..], w); }
  }

  /** Grouping undoes flattening, whatever short rest follows. */
  lemma {:induction false} ChunkFlat(xs: seq<nat>, w: nat, rest: Bits)
    requires w >= 1 && AllBelow(xs, w) && |rest| < w
    ensures Chunk(Flat(xs, w) + rest, w) == xs
  {
    if xs == [] {
      assert Flat(xs, w) + rest == rest;
    } else {
      var b := Flat(xs, w) + rest;
      assert b == BitsOf(xs[0], w) + (Flat(xs[1..], w) + rest);
      assert b[..w] == BitsOf(xs[0], w) && b[w..] == Flat(xs[1..], w) + rest;
      ValueInverts(xs[0], w);
      ChunkFlat(xs[1..], w, rest);
    }
  }

  /** Flattening undoes grouping when nothing is dropped. */
  lemma {:induction false} FlatChunk(b: Bits, w: nat, n: nat)
    requires w >= 1 && |b| == w * n
    ensures |Chunk(b, w)| == n && AllBelow(Chunk(b, w), w) && Flat(Chunk(b, w), w) == b
  {
    hide BitsOf, Value, Pow2;
    if n == 0 {
      assert b == [];
    } else {
      assert |b| == w * (n - 1) + w;
      BitsInverts(b[..w]);
      assert w * (n - 1) >= 0;
      FlatChunk(b[w..], w, n - 1);
      assert b == b[..w] + b[w..];
      assert Chunk(b, w)[1..] == Chunk(b[w..], w);
    }
  }

  /** convertUIntArray: the accumulator keeps its low 64 bits, of which fewer are ever pending. */
  method ConvertUIntArray(xs: seq<int>, fromBits: nat, toBits: nat) returns (result: seq<nat>)
    requires fromBits >= 1 && toBits >= 1 && fromBits + toBits <= 64
    ensures !AllBelow(xs, fromBits) ==> result == []
    ensures AllBelow(xs, fromBits) ==> result == Chunk(Flat(xs, fromBits), toBits)
  {
    hide Flat, Chunk, BitsOf, Shl, Shr, Low, Pow2;
    var accumulator: nat := 0;
    var bits: nat := 0;
    result := [];
    NothingFlat(fromBits);
    NothingFlat(toBits);
    NoBits(0);
    for p := 0 to |xs|
      invariant bits < toBits && AllBelow(xs[..p], fromBits) && AllBelow(result, toBits)
      invariant Flat(result, toBits) + BitsOf(accumulator, bits) == Flat(xs[..p], fromBits)
    {
      var value := xs[p];
      if value < 0 || value >= Pow2(fromBits) {
        return [];
      }
      ghost var before := accumulator;
      accumulator := Low(Shl(accumulator, fromBits) + value, 64);
      ValueShifted(before, value, bits, fromBits);
      bits := bits + fromBits;
      assert xs[..p + 1] == xs[..p] + [xs[p]];
      FlatOne(xs[..p], value, fromBits);
      while bits >= toBits
        invariant bits <= fromBits + toBits && AllBelow(result, toBits)
        invariant Flat(result, toBits) + BitsOf(accumulator, bits) == Flat(xs[..p + 1], fromBits)
      {
        bits := bits - toBits;
        BitsSplit(accumulator, toBits, bits);
        GroupOut(Shr(accumulator, bits), toBits);
        FlatOne(result, Low(Shr(accumulator, bits), toBits), toBits);
        result := result + [Low(Shr(accumulator, bits), toBits)];
      }
    }
    assert xs[..|xs|] == xs;
    ChunkFlat(result, toBits, BitsOf(accumulator, bits));
  }

  lemma NothingFlat(w: nat)
    ensures Flat([], w) == []
  {
  }

  lemma NoBits(n: nat)
    ensures BitsOf(n, 0) == []
  {
  }

  lemma FlatOne(xs: seq<nat>, x: nat, w: nat)
    ensures Flat(xs + [x], w) == Flat(xs, w) + BitsOf(x, w)
  {
    FlatAppend(xs, [x], w);
    assert Flat([x], w) == BitsOf(x, w) + Flat([], w);
  }

  lemma ValueShifted(n: nat, v: nat, a: nat, k: nat)
    requires v < Pow2(k) && a + k <= 64
    ensures BitsOf(Low(Shl(n, k) + v, 64), a + k) == BitsOf(n, a) + BitsOf(v, k)
  {
    hide BitsOf, Shl, Shr, Low, Pow2;
    BitsOfLow(Shl(n, k) + v, a + k, 64);
    BitsSplit(Shl(n, k) + v, a, k);
    ShiftedIn(n, v, k);
  }

  lemma GroupOut(n: nat, w: nat)
    ensures Low(n, w) < Pow2(w) && BitsOf(Low(n, w), w) == BitsOf(n, w)
  {
    LowIsValue(n, w);
    BitsOfLow(n, w, w);
  }

  // ---------------------------------------------------------------- characters

  const CHARSET: string := "zxvcpmbn3465o978uyrtkqew2adsjhfg"

  /** strings.Index for one character. */
  function IndexIn(s: string, c: char): (i: int)
    ensures -1 <= i < |s| && (i >= 0 ==> s[i] == c) && (i < 0 ==> c !in s)
  {
    if s == [] then -1
    else if s[0] == c then 0
    else
      var i := IndexIn(s[1..], c);
      if i < 0 then -1 else i + 1
  }

  lemma {:induction false} IndexOfAt(s: string, i: nat)
    requires i < |s| && forall j, k :: 0 <= j < k < |s| ==> s[j] != s[k]
    ensures IndexIn(s, s[i]) == i
  {
    if i > 0 { IndexOfAt(s[1..], i - 1); }
  }

  lemma CharsetDistinct()
    ensures |CHARSET| == 32 && forall j, k :: 0 <= j < k < 32 ==> CHARSET[j] != CHARSET[k]
  {
  }

  /** uint5ToLisk32. */
  function TextOf(values: seq<nat>): string
    requires AllBelow(values, 5)
  {
    seq(|values|, i requires 0 <= i < |values| => CHARSET[FiveBelow(values[i])])
  }

  /** A 5-bit number as an index of the character set. */
  function FiveBelow(v: nat): (i: nat)
    requires v < Pow2(5)
    ensures i == v < |CHARSET|
  {
    assert Pow2(5) == 32;
    v
  }

  /** The indexes of the characters, if all belong to the set. */
  function Indexes(s: string): Option<seq<nat>> {
    if exists i :: 0 <= i < |s| && s[i] !in CHARSET then None
    else Some(seq(|s|, i requires 0 <= i < |s| => IndexIn(CHARSET, s[i])))
  }

  lemma IndexesOfText(values: seq<nat>)
    requires AllBelow(values, 5)
    ensures Indexes(TextOf(values)) == Some(values)
  {
    var s := TextOf(values);
    CharsetDistinct();
    forall i | 0 <= i < |s| ensures s[i] in CHARSET && IndexIn(CHARSET, s[i]) == values[i] {
      IndexOfAt(CHARSET, FiveBelow(values[i]));
    }
    assert Indexes(s).value == values;
  }

  lemma TextOfIndexes(s: string)
    requires Indexes(s).Some?
    ensures |Indexes(s).value| == |s| && AllBelow(Indexes(s).value, 5) && TextOf(Indexes(s).value) == s
  {
    assert Pow2(5) == 32;
  }

  // ---------------------------------------------------------------- checksums of numbers

  function Numbers(words: seq<Bits>): (v: seq<nat>)
    requires AllFive(words)
    ensures |v| == |words| && AllBelow(v, 5)
  {
    AllNumbersBelow(words);
    seq(|words|, i requires 0 <= i < |words| => Value(words[i]))
  }

  lemma AllNumbersBelow(words: seq<Bits>)
    requires AllFive(words)
    ensures forall i :: 0 <= i < |words| ==> Value(words[i]) < Pow2(5)
  {
    forall i | 0 <= i < |words| ensures Value(words[i]) < Pow2(5) { BitsInverts(words[i]); }
  }

  lemma WordsOfNumbers(words: seq<Bits>)
    requires AllFive(words)
    ensures Words(Numbers(words)) == words
  {
    forall i | 0 <= i < |words| ensures Words(Numbers(words))[i] == words[i] { BitsInverts(words[i]); }
  }

  lemma NumbersOfWords(values: seq<nat>)
    requires AllBelow(values, 5)
    ensures Numbers(Words(values)) == values
  {
    forall i | 0 <= i < |values| ensures Numbers(Words(values))[i] == values[i] { ValueInverts(values[i], 5); }
  }

  // ---------------------------------------------------------------- addresses

  /** The 38 characters behind the prefix of an address. */
  function Body(five: seq<nat>): string
    requires AllBelow(five, 5)
  {
    TextOf(five) + TextOf(Numbers(Checksum(Words(five))))
  }

  /** BytesToLisk32. */
  function Encoded(val: seq<nat>): Option<string>
    requires AllBelow(val, 8)
  {
    if val == [] then Some("")
    else if |val| != 20 then None
    else
      FiveFromEight(val);
      Some("lsk" + Body(Chunk(Flat(val, 8), 5)))
  }

  lemma FiveFromEight(val: seq<nat>)
    requires |val| == 20 && AllBelow(val, 8)
    ensures
      var five := Chunk(Flat(val, 8), 5);
      |five| == 32 && AllBelow(five, 5) && Flat(five, 5) == Flat(val, 8)
  {
    FlatLength(val, 8);
    FlatChunk(Flat(val, 8), 5, 32);
  }

  /** ValidateLisk32. */
  predicate Valid(s: string) {
    |s| == 41 && Indexes(s[3..]).Some? && PolymodOf(Words(Indexes(s[3..]).value)) == ONE
  }

  /** Lisk32ToBytes. */
  function Decoded(s: string): Option<seq<nat>> {
    if s == "" then Some([])
    else if !Valid(s) then None
    else Some(Chunk(Flat(Indexes(s[3..]).value[..32], 5), 8))
  }

  lemma WordsAppend(a: seq<nat>, b: seq<nat>)
    ensures Words(a + b) == Words(a) + Words(b)
  {
  }

  lemma TextAppend(a: seq<nat>, b: seq<nat>)
    requires AllBelow(a, 5) && AllBelow(b, 5)
    ensures AllBelow(a + b, 5) && TextOf(a + b) == TextOf(a) + TextOf(b)
  {
  }

  /** The string of an address is valid and leads back to it. */
  lemma DecodedInverts(val: seq<nat>)
    requires AllBelow(val, 8) && |val| in {0, 20}
    ensures Encoded(val).Some? && Decoded(Encoded(val).value) == Some(val)
  {
    hide Flat, Chunk, Checksum, PolymodOf, TextOf, Indexes, Numbers, Words, AllBelow;
    if |val| == 20 {
      FiveFromEight(val);
      var five := Chunk(Flat(val, 8), 5);
      var sum := Numbers(Checksum(Words(five)));
      var s := Encoded(val).value;
      TextAppend(five, sum);
      IndexesOfText(five + sum);
      assert s[3..] == TextOf(five + sum);
      TextLength(five + sum);
      WordsAppend(five, sum);
      WordsOfNumbers(Checksum(Words(five)));
      ChecksumCompletes(Words(five), Checksum(Words(five)));
      assert (five + sum)[..32] == five;
      assert Flat(val, 8) + [] == Flat(val, 8);
      ChunkFlat(val, 8, []);
    }
  }

  lemma TextLength(values: seq<nat>)
    requires AllBelow(values, 5)
    ensures |TextOf(values)| == |values|
  {
  }

  /** A valid string is, behind its first three characters, the string of the address it decodes to. */
  lemma DecodedIsCanonical(s: string)
    requires s != "" && Decoded(s).Some?
    ensures
      var val := Decoded(s).value;
      |val| == 20 && AllBelow(val, 8) && Encoded(val).value[3..] == s[3..]
  {
    hide Flat, Chunk, Checksum, PolymodOf, TextOf, Indexes, Numbers, Words, AllBelow;
    var all := Indexes(s[3..]).value;
    TextOfIndexes(s[3..]);
    var five, sum := all[..32], all[32..];
    assert all == five + sum;
    PartsBelow(all, 32);
    EightFromFive(five);
    var val := Chunk(Flat(five, 5), 8);
    WordsAppend(five, sum);
    ChecksumCompletes(Words(five), Words(sum));
    NumbersOfWords(sum);
    TextAppend(five, sum);
    assert Flat(five, 5) + [] == Flat(five, 5);
    ChunkFlat(five, 5, []);
    assert Encoded(val).value[3..] == Body(five);
  }

  lemma PartsBelow(all: seq<nat>, n: nat)
    requires AllBelow(all, 5) && n <= |all|
    ensures AllBelow(all[..n], 5) && AllBelow(all[n..], 5)
  {
  }

  lemma EightFromFive(five: seq<nat>)
    requires |five| == 32 && AllBelow(five, 5)
    ensures
      var val := Chunk(Flat(five, 5), 8);
      |val| == 20 && AllBelow(val, 8) && Flat(val, 8) == Flat(five, 5)
  {
    FlatLength(five, 5);
    FlatChunk(Flat(five, 5), 8, 20);
  }

  // ---------------------------------------------------------------- the methods

  method Uint5ToLisk32(values: seq<nat>) returns (result: string)
    requires AllBelow(values, 5)
    ensures result == TextOf(values)
  {
    result := "";
    for i := 0 to |values|
      invariant |result| == i && forall j :: 0 <= j < i ==> result[j] == CHARSET[FiveBelow(values[j])]
    {
      result := result + [CHARSET[FiveBelow(values[i])]];
    }
  }

  method BytesToLisk32(val: seq<nat>) returns (r: Option<string>)
    requires AllBelow(val, 8)
    ensures r == Encoded(val)
  {
    hide Flat, Chunk, Checksum, TextOf, Numbers, Words, AllBelow;
    if |val| == 0 {
      return Some("");
    }
    if |val| != 20 {
      return None;
    }
    FiveFromEight(val);
    var five := ConvertUIntArray(val, 8, 5);
    var checksum := CreateChecksum(five);
    NumbersOfWords(checksum);
    TextAppend(five, checksum);
    var result := Uint5ToLisk32(five + checksum);
    return Some("lsk" + result);
  }

  /** The loop that looks up every character. */
  method LookUp(s: string) returns (r: Option<seq<nat>>)
    ensures r == Indexes(s)
  {
    hide IndexIn;
    var values: seq<nat> := [];
    for i := 0 to |s|
      invariant |values| == i && forall j :: 0 <= j < i ==> s[j] in CHARSET && values[j] == IndexIn(CHARSET, s[j])
    {
      var index := IndexIn(CHARSET, s[i]);
      if index < 0 {
        return None;
      }
      values := values + [index];
    }
    assert Indexes(s).value == values;
    return Some(values);
  }

  method ValidateLisk32(s: string) returns (ok: bool)
    ensures ok <==> Valid(s)
  {
    hide Indexes, PolymodOf;
    if |s| != 41 {
      return false;
    }
    var values := LookUp(s[3..]);
    if values.None? {
      return false;
    }
    TextOfIndexes(s[3..]);
    var polymod := Polymod(values.value);
    OneWord(polymod);
    return polymod == 1;
  }

  method Lisk32ToBytes(s: string) returns (r: Option<seq<nat>>)
    ensures r == Decoded(s)
  {
    hide Flat, Chunk, Indexes, PolymodOf, AllBelow;
    if s == "" {
      return Some([]);
    }
    var valid := ValidateLisk32(s);
    if !valid {
      return None;
    }
    TextOfIndexes(s[3..]);
    PartsBelow(Indexes(s[3..]).value, 32);
    IndexesPrefix(s[3..], 32);
    assert s[3..][..32] == s[3..35];
    var five := LookUp(s[3..35]);
    if five.None? {
      return None;
    }
    var eight := ConvertUIntArray(five.value, 5, 8);
    return Some(eight);
  }

  lemma IndexesPrefix(s: string, n: nat)
    requires Indexes(s).Some? && n <= |s|
    ensures Indexes(s[..n]) == Some(Indexes(s).value[..n])
  {
    assert Indexes(s[..n]).value == Indexes(s).value[..n];
  }
}
