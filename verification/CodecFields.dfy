/** Fields of a message: how they are written, and what reading one at the front of a buffer gives
    (pkg/codec/reader.go, writer.go). */
module CodecFields {
  import opened Basics
  import opened Codec

  /** UTF-8 validity and NFC normalization are library code: a validity test and a normalizing function. */
  datatype Unicode = Unicode(valid: Bytes -> bool, nfc: Bytes -> Bytes)

  /** A valid string in normal form. */
  predicate IsText(u: Unicode, s: Bytes) { u.valid(s) && u.nfc(s) == s }

  // ---------------------------------------------------------------- writing

  function UIntField(fieldNumber: nat, n: nat): Bytes { Key(fieldNumber, WIRE_VARINT) + Varint(n) }

  function BytesField(fieldNumber: nat, data: Bytes): Bytes { Key(fieldNumber, WIRE_BYTES) + (Varint(|data|) + data) }

  function ArrayField(fieldNumber: nat, data: seq<Bytes>): Bytes {
    if data == [] then [] else BytesField(fieldNumber, data[0]) + ArrayField(fieldNumber, data[1..])
  }

  predicate SmallNumber(fieldNumber: nat) { 8 * fieldNumber + 2 < INT64 }

  predicate AllFit(data: seq<Bytes>) { forall i :: 0 <= i < |data| ==> Fits(data[i]) }

  // ---------------------------------------------------------------- reading
  // `s` is what a reader still has before it, `left` how far away its end is; the results are the value
  // and the number of bytes read.

  function ReadUIntAt(s: Bytes, left: int, fieldNumber: nat, strict: bool): (r: Option<(nat, nat)>)
    ensures r.Some? ==> r.value.1 <= |s| && r.value.0 < UINT64
  {
    match Check(s, left <= 0, fieldNumber, WIRE_VARINT)
    case Malformed => None
    case Absent => if strict then None else Some((0, 0))
    case Found(size) =>
      var v := ReadVarint(s[size..]);
      if v.None? then None else Some((v.value.0, size + v.value.1))
  }

  /** readBytes. */
  function ReadSized(s: Bytes): (r: Option<(Bytes, nat)>)
    ensures r.Some? ==> 1 <= r.value.1 <= |s|
  {
    var v := ReadVarint(s);
    if v.None? || v.value.0 > |s| - v.value.1 then None
    else Some((s[v.value.1..v.value.1 + v.value.0], v.value.1 + v.value.0))
  }

  function ReadBytesAt(s: Bytes, left: int, fieldNumber: nat, strict: bool): (r: Option<(Bytes, nat)>)
    ensures r.Some? ==> r.value.1 <= |s|
  {
    match Check(s, left <= 0, fieldNumber, WIRE_BYTES)
    case Malformed => None
    case Absent => if strict then None else Some(([], 0))
    case Found(size) =>
      var v := ReadSized(s[size..]);
      if v.None? then None else Some((v.value.0, size + v.value.1))
  }

  function ReadStringAt(u: Unicode, s: Bytes, left: int, fieldNumber: nat, strict: bool): (r: Option<(Bytes, nat)>)
    ensures r.Some? ==> r.value.1 <= |s|
  {
    match Check(s, left <= 0, fieldNumber, WIRE_BYTES)
    case Malformed => None
    case Absent => if strict then None else Some(([], 0))
    case Found(size) =>
      var v := ReadSized(s[size..]);
      if v.None? || !IsText(u, v.value.0) then None else Some((v.value.0, size + v.value.1))
  }

  function ReadArrayAt(s: Bytes, left: int, fieldNumber: nat): (r: Option<(seq<Bytes>, nat)>)
    ensures r.Some? ==> r.value.1 <= |s|
    decreases |s|
  {
    if left <= 0 then Some(([], 0))
    else
      match Check(s, false, fieldNumber, WIRE_BYTES)
      case Malformed => None
      case Absent => Some(([], 0))
      case Found(size) =>
        var v := ReadSized(s[size..]);
        if v.None? then None
        else
          var n := size + v.value.1;
          var rest := ReadArrayAt(s[n..], left - n, fieldNumber);
          if rest.None? then None else Some(([v.value.0] + rest.value.0, n + rest.value.1))
  }

  // ---------------------------------------------------------------- reading accepts only what is written

  lemma UIntCanonical(s: Bytes, left: int, fieldNumber: nat)
    requires SmallNumber(fieldNumber)
    ensures
      var r := ReadUIntAt(s, left, fieldNumber, true);
      r.Some? ==> r.value.0 < UINT64 && s == UIntField(fieldNumber, r.value.0) + s[r.value.1..]
  {
    hide Check, Key, ReadVarint, Varint;
    var r := ReadUIntAt(s, left, fieldNumber, true);
    if r.Some? {
      KeyAbsentAtEnd(s, left, fieldNumber, WIRE_VARINT);
      CheckFindsKey(s, fieldNumber, WIRE_VARINT);
      var size := Check(s, false, fieldNumber, WIRE_VARINT).size;
      ReadVarintCanonical(s[size..]);
      assert s[size..][r.value.1 - size..] == s[r.value.1..];
    }
  }

  lemma KeyAbsentAtEnd(s: Bytes, left: int, fieldNumber: nat, wireType: nat)
    ensures left <= 0 ==> Check(s, left <= 0, fieldNumber, wireType) == Absent
  {
  }

  lemma SizedCanonical(s: Bytes)
    requires ReadSized(s).Some?
    ensures
      var r := ReadSized(s).value;
      s == Varint(|r.0|) + r.0 + s[r.1..]
  {
    hide ReadVarint, Varint;
    ReadVarintCanonical(s);
    var v := ReadVarint(s).value;
    assert s[v.1..] == s[v.1..v.1 + v.0] + s[v.1 + v.0..];
  }

  lemma FoundBytesCanonical(s: Bytes, fieldNumber: nat)
    requires SmallNumber(fieldNumber)
    ensures
      var c := Check(s, false, fieldNumber, WIRE_BYTES);
      c.Found? && ReadSized(s[c.size..]).Some? ==>
        var v := ReadSized(s[c.size..]).value;
        s == BytesField(fieldNumber, v.0) + s[c.size + v.1..]
  {
    hide Check, Key, ReadVarint, Varint, ReadSized;
    var c := Check(s, false, fieldNumber, WIRE_BYTES);
    if c.Found? && ReadSized(s[c.size..]).Some? {
      var v := ReadSized(s[c.size..]).value;
      CheckFindsKey(s, fieldNumber, WIRE_BYTES);
      SizedCanonical(s[c.size..]);
      assert s[c.size..][v.1..] == s[c.size + v.1..];
    }
  }

  lemma BytesCanonical(s: Bytes, left: int, fieldNumber: nat)
    requires SmallNumber(fieldNumber)
    ensures
      var r := ReadBytesAt(s, left, fieldNumber, true);
      r.Some? ==> s == BytesField(fieldNumber, r.value.0) + s[r.value.1..]
  {
    hide Check, BytesField, ReadSized;
    KeyAbsentAtEnd(s, left, fieldNumber, WIRE_BYTES);
    FoundBytesCanonical(s, fieldNumber);
  }

  lemma StringCanonical(u: Unicode, s: Bytes, left: int, fieldNumber: nat)
    requires SmallNumber(fieldNumber)
    ensures
      var r := ReadStringAt(u, s, left, fieldNumber, true);
      r.Some? ==> IsText(u, r.value.0) && s == BytesField(fieldNumber, r.value.0) + s[r.value.1..]
  {
    hide Check, BytesField, ReadSized, IsText;
    KeyAbsentAtEnd(s, left, fieldNumber, WIRE_BYTES);
    FoundBytesCanonical(s, fieldNumber);
  }

  lemma {:induction false} ArrayCanonical(s: Bytes, left: int, fieldNumber: nat)
    requires SmallNumber(fieldNumber)
    ensures
      var r := ReadArrayAt(s, left, fieldNumber);
      r.Some? ==> s == ArrayField(fieldNumber, r.value.0) + s[r.value.1..]
    decreases |s|
  {
    hide Check, BytesField, ReadSized;
    var r := ReadArrayAt(s, left, fieldNumber);
    if r.Some? && r.value.0 != [] {
      FoundBytesCanonical(s, fieldNumber);
      var size := Check(s, false, fieldNumber, WIRE_BYTES).size;
      var v := ReadSized(s[size..]).value;
      var n := size + v.1;
      ArrayCanonical(s[n..], left - n, fieldNumber);
      var rest := ReadArrayAt(s[n..], left - n, fieldNumber).value;
      assert r.value.0[1..] == rest.0;
      assert s[n..][rest.1..] == s[r.value.1..];
    } else if r.Some? {
      assert r.value.1 == 0;
    }
  }

  // ---------------------------------------------------------------- reading inverts writing

  lemma UIntInverts(fieldNumber: nat, n: nat, t: Bytes, left: int, strict: bool)
    requires SmallNumber(fieldNumber) && n < UINT64 && left > 0
    ensures
      var field := UIntField(fieldNumber, n);
      ReadUIntAt(field + t, left, fieldNumber, strict) == Some((n, |field|)) && (field + t)[|field|..] == t
  {
    hide Check, Key, ReadVarint, Varint;
    assert UIntField(fieldNumber, n) + t == Key(fieldNumber, WIRE_VARINT) + (Varint(n) + t);
    KeyIsFound(fieldNumber, WIRE_VARINT, Varint(n) + t);
    ReadVarintInverts(n, t);
  }

  lemma SizedInverts(data: Bytes, t: Bytes)
    requires Fits(data)
    ensures ReadSized(Varint(|data|) + data + t) == Some((data, |Varint(|data|) + data|))
  {
    hide ReadVarint, Varint;
    var s := Varint(|data|) + data + t;
    assert s == Varint(|data|) + (data + t);
    ReadVarintInverts(|data|, data + t);
    assert s[|Varint(|data|)|..|Varint(|data|)| + |data|] == data;
  }

  /** What check and readBytes make of a written field. */
  lemma BytesFound(fieldNumber: nat, data: Bytes, t: Bytes)
    requires SmallNumber(fieldNumber) && Fits(data)
    ensures
      var field := BytesField(fieldNumber, data);
      var c := Check(field + t, false, fieldNumber, WIRE_BYTES);
      && c.Found? && ReadSized((field + t)[c.size..]) == Some((data, |field| - c.size))
      && (field + t)[|field|..] == t
  {
    hide Check, Key, ReadVarint, Varint, ReadSized;
    var tail := Varint(|data|) + data + t;
    assert BytesField(fieldNumber, data) + t == Key(fieldNumber, WIRE_BYTES) + tail;
    KeyIsFound(fieldNumber, WIRE_BYTES, tail);
    SizedInverts(data, t);
  }

  lemma BytesInverts(fieldNumber: nat, data: Bytes, t: Bytes, left: int, strict: bool)
    requires SmallNumber(fieldNumber) && Fits(data) && left > 0
    ensures
      var field := BytesField(fieldNumber, data);
      ReadBytesAt(field + t, left, fieldNumber, strict) == Some((data, |field|)) && (field + t)[|field|..] == t
  {
    hide Check, BytesField, ReadSized;
    BytesFound(fieldNumber, data, t);
  }

  lemma StringInverts(u: Unicode, fieldNumber: nat, data: Bytes, t: Bytes, left: int, strict: bool)
    requires SmallNumber(fieldNumber) && Fits(data) && left > 0 && IsText(u, data)
    ensures
      var field := BytesField(fieldNumber, data);
      ReadStringAt(u, field + t, left, fieldNumber, strict) == Some((data, |field|)) && (field + t)[|field|..] == t
  {
    hide Check, BytesField, ReadSized, IsText;
    BytesFound(fieldNumber, data, t);
  }

  /** A written list is read back in full when no further element of it follows. */
  lemma {:induction false} ArrayInverts(fieldNumber: nat, data: seq<Bytes>, t: Bytes, left: int)
    requires SmallNumber(fieldNumber) && AllFit(data)
    requires left >= |ArrayField(fieldNumber, data)|
    requires Check(t, left <= |ArrayField(fieldNumber, data)|, fieldNumber, WIRE_BYTES) == Absent
    ensures
      var field := ArrayField(fieldNumber, data);
      ReadArrayAt(field + t, left, fieldNumber) == Some((data, |field|)) && (field + t)[|field|..] == t
    decreases |data|
  {
    hide Check, BytesField, ReadSized;
    var field := ArrayField(fieldNumber, data);
    if data == [] {
      assert field + t == t;
    } else {
      var first, rest := BytesField(fieldNumber, data[0]), ArrayField(fieldNumber, data[1..]);
      assert field + t == first + (rest + t);
      BytesFound(fieldNumber, data[0], rest + t);
      FieldNotEmpty(fieldNumber, data[0]);
      ArrayInverts(fieldNumber, data[1..], t, left - |first|);
      assert data == [data[0]] + data[1..];
      assert (field + t)[|field|..] == t;
    }
  }

  lemma FieldNotEmpty(fieldNumber: nat, data: Bytes)
    ensures |BytesField(fieldNumber, data)| >= 1
  {
  }

  // ---------------------------------------------------------------- lists read one by one

  /** The values already read in front of what reading the rest gives. */
  function Prepend<T>(values: seq<T>, n: nat, r: Option<(seq<T>, nat)>): Option<(seq<T>, nat)> {
    if r.None? then None else Some((values + r.value.0, n + r.value.1))
  }

  lemma PrependNone<T>(values: seq<T>, n: nat)
    ensures Prepend(values, n, None).None?
  {
  }

  lemma PrependNothing<T>(r: Option<(seq<T>, nat)>)
    ensures Prepend([], 0, r) == r
  {
    if r.Some? { assert [] + r.value.0 == r.value.0; }
  }
}
