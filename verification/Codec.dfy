/** Base-128 integers and field keys of the generic serialization of LIP-0027 and LIP-0064
    (pkg/codec/reader.go, writer.go, key.go). */
module Codec {
  import opened Basics

  type Byte = b: int | 0 <= b < 256
  type Bytes = seq<Byte>

  const INT64: int := 0x8000_0000_0000_0000
  const UINT64: nat := 0x1_0000_0000_0000_0000

  /** The lengths a Go slice can have. */
  predicate Fits(s: Bytes) { |s| < INT64 }

  // ---------------------------------------------------------------- varints

  /** Base 128, least significant group first, with a continuation bit on every group but the last. */
  function Varint(n: nat): (s: Bytes)
    ensures |s| >= 1
  {
    if n < 128 then [n] else [128 + n % 128] + Varint(n / 128)
  }

  /** The number up to the first byte without a continuation bit, and how many bytes it takes. */
  function Parse(s: Bytes): (r: Option<(nat, nat)>)
    ensures r.Some? ==> 1 <= r.value.1 <= |s|
  {
    if s == [] then None
    else if s[0] < 128 then Some((s[0], 1))
    else
      var rest := Parse(s[1..]);
      if rest.None? then None
      else Some((s[0] - 128 + 128 * rest.value.0, 1 + rest.value.1))
  }

  /** What a reader makes of the front of `s`: a uint64 in its shortest form. */
  function ReadVarint(s: Bytes): (r: Option<(nat, nat)>)
    ensures r.Some? ==> 1 <= r.value.1 <= |s| && r.value.0 < UINT64
  {
    var p := Parse(s);
    if p.Some? && p.value.0 < UINT64 && |Varint(p.value.0)| == p.value.1 then p else None
  }

  lemma {:induction false} ParseInverts(n: nat, t: Bytes)
    ensures Parse(Varint(n) + t) == Some((n, |Varint(n)|))
  {
    var s := Varint(n) + t;
    if n >= 128 {
      assert s[0] == 128 + n % 128;
      assert s[1..] == Varint(n / 128) + t;
      ParseInverts(n / 128, t);
    }
  }

  lemma {:induction false} ParseCanonical(s: Bytes)
    requires Parse(s).Some? && |Varint(Parse(s).value.0)| == Parse(s).value.1
    ensures s[..Parse(s).value.1] == Varint(Parse(s).value.0)
  {
    var p := Parse(s).value;
    if s[0] >= 128 {
      var rest := Parse(s[1..]).value;
      assert p.0 == s[0] - 128 + 128 * rest.0;
      assert p.0 % 128 == s[0] - 128 && p.0 / 128 == rest.0;
      if p.0 >= 128 {
        ParseCanonical(s[1..]);
        assert s[..p.1] == [s[0]] + s[1..][..rest.1];
      }
    }
  }

  /** Reading inverts writing for every uint64, whatever follows. */
  lemma ReadVarintInverts(n: nat, t: Bytes)
    requires n < UINT64
    ensures ReadVarint(Varint(n) + t) == Some((n, |Varint(n)|))
    ensures (Varint(n) + t)[|Varint(n)|..] == t
  {
    ParseInverts(n, t);
  }

  /** Reading accepts no other byte string for a number than the one written for it. */
  lemma ReadVarintCanonical(s: Bytes)
    requires ReadVarint(s).Some?
    ensures s == Varint(ReadVarint(s).value.0) + s[ReadVarint(s).value.1..]
    ensures |Varint(ReadVarint(s).value.0)| == ReadVarint(s).value.1
  {
    ParseCanonical(s);
  }

  // ---------------------------------------------------------------- the reading loop

  function Pow128(k: nat): (p: nat)
    ensures p >= 1
  {
    if k == 0 then 1 else 128 * Pow128(k - 1)
  }

  /** A number takes at most `k` groups exactly when it is below 128 to the `k`. */
  lemma {:induction false} VarintLength(n: nat, k: nat)
    requires k >= 1
    ensures |Varint(n)| <= k <==> n < Pow128(k)
  {
    if k == 1 {
      assert Pow128(1) == 128;
    } else {
      if n >= 128 { VarintLength(n / 128, k - 1); }
      assert Pow128(k) == 128 * Pow128(k - 1);
      Pow128AtLeast(k);
    }
  }

  lemma {:induction false} Pow128AtLeast(k: nat)
    requires k >= 1
    ensures Pow128(k) >= 128
  {
    if k > 1 { Pow128AtLeast(k - 1); }
  }

  lemma Pow128Values()
    ensures Pow128(1) == 0x80 && Pow128(2) == 0x4000 && Pow128(3) == 0x20_0000
    ensures Pow128(4) == 0x1000_0000 && Pow128(5) == 0x8_0000_0000 && Pow128(6) == 0x400_0000_0000
    ensures Pow128(7) == 0x2_0000_0000_0000 && Pow128(8) == 0x100_0000_0000_0000
    ensures Pow128(9) == 0x8000_0000_0000_0000
  {
    assert Pow128(2) == 128 * Pow128(1);
    assert Pow128(3) == 128 * Pow128(2);
    assert Pow128(4) == 128 * Pow128(3);
    assert Pow128(5) == 128 * Pow128(4);
    assert Pow128(6) == 128 * Pow128(5);
    assert Pow128(7) == 128 * Pow128(6);
    assert Pow128(8) == 128 * Pow128(7);
    assert Pow128(9) == 128 * Pow128(8);
  }

  /** varintShortestSize. */
  function ShortestSize(n: nat): (k: nat)
    requires n < UINT64
  {
    if n < 0x80 then 1
    else if n < 0x4000 then 2
    else if n < 0x20_0000 then 3
    else if n < 0x1000_0000 then 4
    else if n < 0x8_0000_0000 then 5
    else if n < 0x400_0000_0000 then 6
    else if n < 0x2_0000_0000_0000 then 7
    else if n < 0x100_0000_0000_0000 then 8
    else if n < 0x8000_0000_0000_0000 then 9
    else 10
  }

  /** varintShortestSize is the length of the varint. */
  lemma ShortestIsVarintLength(n: nat)
    requires n < UINT64
    ensures ShortestSize(n) == |Varint(n)|
  {
    hide Varint, Pow128;
    Pow128Values();
    Pow128Next(9);
    for k := 1 to 11
      invariant forall j :: 1 <= j < k ==> (|Varint(n)| <= j <==> n < Pow128(j))
    {
      VarintLength(n, k);
    }
    assert |Varint(n)| <= 10;
    assert forall j :: 1 <= j <= 10 ==> (|Varint(n)| <= j <==> n < Pow128(j));
  }

  lemma Pow128Next(k: nat)
    ensures Pow128(k + 1) == 128 * Pow128(k)
  {
  }

  /** A group in its place. */
  function Shifted(bit: nat, k: nat): nat { Pow128(k) * bit }

  /** The groups read so far and the rest together make the whole. */
  ghost function Joined(result: nat, k: nat, rest: Option<(nat, nat)>): Option<(nat, nat)> {
    if rest.None? then None else Some((result + Shifted(rest.value.0, k), k + rest.value.1))
  }

  lemma ParseStep(s: Bytes)
    requires s != []
    ensures s[0] < 128 ==> Parse(s) == Some((s[0] as nat, 1))
    ensures s[0] >= 128 && Parse(s[1..]).None? ==> Parse(s).None?
    ensures s[0] >= 128 && Parse(s[1..]).Some? ==>
              Parse(s) == Some((s[0] - 128 + 128 * Parse(s[1..]).value.0, 1 + Parse(s[1..]).value.1))
  {
  }

  lemma JoinedStep(result: nat, k: nat, s: Bytes)
    requires s != []
    ensures s[0] < 128 ==> Joined(result, k, Parse(s)) == Some((result + Shifted(s[0], k), k + 1))
    ensures s[0] >= 128 ==>
              Joined(result, k, Parse(s)) == Joined(result + Shifted(s[0] - 128, k), k + 1, Parse(s[1..]))
  {
    hide Shifted, Parse;
    ParseStep(s);
    if s[0] >= 128 && Parse(s[1..]).Some? {
      ShiftedSum(s[0] - 128, Parse(s[1..]).value.0, k);
    }
  }

  lemma ShiftedSum(a: nat, v: nat, k: nat)
    ensures Shifted(a + 128 * v, k) == Shifted(a, k) + Shifted(v, k + 1)
  {
    hide Pow128;
    Pow128Next(k);
    Distribute(Pow128(k), Pow128(k + 1), a, v);
  }

  lemma Distribute(p: nat, q: nat, a: nat, v: nat)
    requires q == 128 * p
    ensures p * (a + 128 * v) == p * a + q * v
  {
  }

  /** With a tenth group above 1 the number is too large or not in its shortest form. */
  lemma TenthGroup(s: Bytes, result: nat)
    requires s != [] && s[0] > 1
    requires Joined(result, 9, Parse(s)).Some?
    ensures
      var p := Joined(result, 9, Parse(s)).value;
      p.0 >= UINT64 || |Varint(p.0)| != p.1
  {
    hide Pow128, Varint;
    Pow128Values();
    Pow128Next(9);
    var p := Joined(result, 9, Parse(s)).value;
    if p.0 < UINT64 {
      VarintLength(p.0, 10);
      JoinedStep(result, 9, s);
    }
  }

  lemma GroupFits(result: nat, k: nat, bit: nat)
    requires k <= 9 && result < Pow128(k) && bit < 128 && (k == 9 ==> bit <= 1)
    ensures result + Shifted(bit, k) < Pow128(k + 1) && result + Shifted(bit, k) < UINT64
  {
    hide Pow128;
    Pow128Next(k);
    assert Pow128(k) * bit <= Pow128(k) * 127 by { Scale(Pow128(k), bit, 127); }
    if k == 9 {
      assert Pow128(k) * bit <= Pow128(k) * 1 by { Scale(Pow128(k), bit, 1); }
      Pow128Values();
    } else {
      Pow128Below(k + 1);
    }
  }

  lemma Scale(p: nat, a: nat, b: nat)
    requires a <= b
    ensures p * a <= p * b
  {
  }

  lemma Pow128Below(k: nat)
    requires k <= 9
    ensures Pow128(k) < UINT64
  {
    Pow128Values();
    if k == 0 {} else if k <= 3 {} else if k <= 6 {} else {}
  }

  /** readUint: the loop over the groups, with its limit of ten bytes and the check of the shortest form. */
  method ReadUint(data: Bytes, offset: nat) returns (r: Option<(nat, nat)>)
    requires offset <= |data|
    ensures r == ReadVarint(data[offset..])
  {
    hide Pow128, Parse, Varint, Joined, ShortestSize, Shifted;
    var result: nat := 0;
    var index := offset;
    var k: nat := 0;
    JoinedZero(Parse(data[offset..]));
    while k < 10
      invariant index == offset + k <= |data|
      invariant k < 10 && result < Pow128(k)
      invariant Parse(data[offset..]) == Joined(result, k, Parse(data[index..]))
    {
      ghost var rest := data[index..];
      if index >= |data| {
        NothingToParse(result, k);
        return None;
      }
      var bit := data[index];
      index := index + 1;
      assert data[index..] == rest[1..];
      if index == offset + 10 && bit > 1 {
        if Joined(result, 9, Parse(rest)).Some? { TenthGroup(rest, result); }
        return None;
      }
      JoinedStep(result, k, rest);
      GroupFits(result, k, bit % 128);
      result := result + Shifted(bit % 128, k);
      k := k + 1;
      if bit < 128 {
        ShortestIsVarintLength(result);
        if ShortestSize(result) != index - offset {
          return None;
        }
        return Some((result, index - offset));
      }
    }
    assert false;
    return None;
  }

  lemma JoinedZero(p: Option<(nat, nat)>)
    ensures Joined(0, 0, p) == p
  {
  }

  lemma NothingToParse(result: nat, k: nat)
    ensures Joined(result, k, Parse([])).None?
  {
  }

  // ---------------------------------------------------------------- signed integers

  /** Zigzag: binary.PutVarint. */
  function ZigZag(x: int): nat {
    if x >= 0 then 2 * x else -2 * x - 1
  }

  /** readInt on the number read, with the wrap of the uint64 addition. */
  function UnZigZag(res: nat): int
    requires res < UINT64
  {
    if res % 2 == 0 then res / 2 else -((res + 1) % UINT64 / 2)
  }

  /** Reading a signed number inverts writing it for every int64 except the smallest, which reads as 0. */
  lemma ReadIntInverts(x: int, t: Bytes)
    requires -INT64 <= x < INT64
    ensures ZigZag(x) < UINT64 && ReadVarint(Varint(ZigZag(x)) + t) == Some((ZigZag(x), |Varint(ZigZag(x))|))
    ensures UnZigZag(ZigZag(x)) == x <==> x > -INT64
    ensures UnZigZag(ZigZag(-INT64)) == 0
  {
    ReadVarintInverts(ZigZag(x), t);
  }

  /** Two numbers read as the same signed number only if one of them is 0 and the other the wrapped one. */
  lemma UnZigZagInjective(a: nat, b: nat)
    requires a < UINT64 && b < UINT64 && UnZigZag(a) == UnZigZag(b)
    ensures a == b || {a, b} == {0, UINT64 - 1}
  {
    hide ZigZag;
  }

  // ---------------------------------------------------------------- keys

  const WIRE_VARINT := 0
  const WIRE_BYTES := 2

  /** getKey. */
  function Key(fieldNumber: nat, wireType: nat): Bytes {
    Varint(8 * fieldNumber + wireType)
  }

  /** `int(result)`. */
  function ToInt(x: nat): int
    requires x < UINT64
  {
    if x < INT64 then x else x - UINT64
  }

  /** What a reader finds where it expects a field. */
  datatype Checked = Found(size: nat) | Absent | Malformed

  /** check: `Absent` stands for the two errors that lenient readers forgive. */
  function Check(s: Bytes, atEnd: bool, fieldNumber: nat, wireType: nat): (r: Checked)
    ensures r.Found? ==> r.size <= |s|
  {
    if atEnd then Absent
    else
      var v := ReadVarint(s);
      if v.None? then Malformed
      else
        var key := ToInt(v.value.0);
        if key % 8 != WIRE_VARINT && key % 8 != WIRE_BYTES then Malformed
        else if key / 8 != fieldNumber then Absent
        else if key % 8 != wireType then Malformed
        else Found(v.value.1)
  }

  /** A field is found exactly behind its own key. */
  lemma CheckFindsKey(s: Bytes, fieldNumber: nat, wireType: nat)
    requires 8 * fieldNumber + wireType < INT64 && wireType in {WIRE_VARINT, WIRE_BYTES}
    ensures
      var r := Check(s, false, fieldNumber, wireType);
      r.Found? ==> s == Key(fieldNumber, wireType) + s[r.size..]
  {
    hide ReadVarint, Varint;
    if ReadVarint(s).Some? { ReadVarintCanonical(s); }
  }

  lemma KeyIsFound(fieldNumber: nat, wireType: nat, t: Bytes)
    requires 8 * fieldNumber + wireType < INT64 && wireType in {WIRE_VARINT, WIRE_BYTES}
    ensures
      var s := Key(fieldNumber, wireType) + t;
      && Check(s, false, fieldNumber, wireType) == Found(|Key(fieldNumber, wireType)|)
      && s[|Key(fieldNumber, wireType)|..] == t
      && (forall f, w :: f != fieldNumber ==> Check(s, false, f, w) == Absent)
  {
    hide ReadVarint, Varint;
    ReadVarintInverts(8 * fieldNumber + wireType, t);
  }
}
