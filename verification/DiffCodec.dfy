/** Diffs as they are stored: encoding and decoding (pkg/db/diffdb/diff_codec.go). */
module DiffCodec {
  import opened Basics
  import opened Codec
  import opened CodecFields
  import opened CodecReader
  import opened KeyOrder
  import opened DiffCommit

  // ---------------------------------------------------------------- encoding

  function KvEncoded(kv: KV): Bytes { BytesField(1, kv.key) + BytesField(2, kv.value) }

  function KvsEncoded(kvs: seq<KV>): seq<Bytes> {
    if kvs == [] then [] else [KvEncoded(kvs[0])] + KvsEncoded(kvs[1..])
  }

  function DiffEncoded(d: Diff): Bytes {
    ArrayField(1, d.added) + (ArrayField(2, KvsEncoded(d.updated)) + ArrayField(3, KvsEncoded(d.deleted)))
  }

  predicate KvFits(kv: KV) { Fits(kv.key) && Fits(kv.value) && Fits(KvEncoded(kv)) }

  predicate KvsFit(kvs: seq<KV>) { forall i :: 0 <= i < |kvs| ==> KvFits(kvs[i]) }

  predicate DiffFits(d: Diff) { AllFit(d.added) && KvsFit(d.updated) && KvsFit(d.deleted) }

  // ---------------------------------------------------------------- decoding

  /** KV.DecodeFromReader: a missing field is empty. */
  function KvAt(s: Bytes, left: int): (r: Option<(KV, nat)>)
    ensures r.Some? ==> r.value.1 <= |s|
  {
    var a := ReadBytesAt(s, left, 1, false);
    if a.None? then None
    else
      var b := ReadBytesAt(s[a.value.1..], left - a.value.1, 2, false);
      if b.None? then None else Some((KV(a.value.0, b.value.0), a.value.1 + b.value.1))
  }

  /** A pair behind its size: the reader ends where the pair's own reader stopped. */
  function SizedKvAt(s: Bytes): (r: Option<(KV, nat)>)
    ensures r.Some? ==> 1 <= r.value.1 <= |s|
  {
    var v := ReadVarint(s);
    if v.None? then None
    else
      var kv := KvAt(s[v.value.1..], ToInt(v.value.0));
      if kv.None? then None else Some((kv.value.0, v.value.1 + kv.value.1))
  }

  /** ReadDecodables for pairs. */
  function KvsAt(s: Bytes, left: int, fieldNumber: nat): (r: Option<(seq<KV>, nat)>)
    ensures r.Some? ==> r.value.1 <= |s|
    decreases |s|
  {
    if left <= 0 then Some(([], 0))
    else
      match Check(s, false, fieldNumber, WIRE_BYTES)
      case Malformed => None
      case Absent => Some(([], 0))
      case Found(size) =>
        var kv := SizedKvAt(s[size..]);
        if kv.None? then None
        else
          var n := size + kv.value.1;
          Prepend([kv.value.0], n, KvsAt(s[n..], left - n, fieldNumber))
  }

  function DiffDecoded(s: Bytes): Option<Diff> {
    var a := ReadArrayAt(s, |s|, 1);
    if a.None? then None else
    var s2 := s[a.value.1..];
    var b := KvsAt(s2, |s2|, 2);
    if b.None? then None else
    var s3 := s2[b.value.1..];
    var c := KvsAt(s3, |s3|, 3);
    if c.None? then None else Some(Diff(a.value.0, b.value.0, c.value.0))
  }

  // ---------------------------------------------------------------- round trip

  lemma KvInverts(kv: KV, t: Bytes, left: int)
    requires KvFits(kv) && left == |KvEncoded(kv)|
    ensures KvAt(KvEncoded(kv) + t, left) == Some((kv, |KvEncoded(kv)|))
  {
    hide BytesField, ReadBytesAt;
    var f1, f2 := BytesField(1, kv.key), BytesField(2, kv.value);
    assert KvEncoded(kv) + t == f1 + (f2 + t);
    FieldNotEmpty(1, kv.key);
    FieldNotEmpty(2, kv.value);
    BytesInverts(1, kv.key, f2 + t, left, false);
    BytesInverts(2, kv.value, t, left - |f1|, false);
  }

  /** What check and the pair's reader make of a written pair. */
  lemma KvFound(fieldNumber: nat, kv: KV, t: Bytes)
    requires SmallNumber(fieldNumber) && KvFits(kv)
    ensures
      var field := BytesField(fieldNumber, KvEncoded(kv));
      var c := Check(field + t, false, fieldNumber, WIRE_BYTES);
      && c.Found? && SizedKvAt((field + t)[c.size..]) == Some((kv, |field| - c.size))
      && (field + t)[|field|..] == t
  {
    hide Check, Key, ReadVarint, Varint, KvAt, KvEncoded;
    var data := KvEncoded(kv);
    var s := BytesField(fieldNumber, data) + t;
    var tail := Varint(|data|) + (data + t);
    assert s == Key(fieldNumber, WIRE_BYTES) + tail;
    KeyIsFound(fieldNumber, WIRE_BYTES, tail);
    ReadVarintInverts(|data|, data + t);
    KvInverts(kv, t, |data|);
  }

  lemma {:induction false} KvsInvert(fieldNumber: nat, kvs: seq<KV>, t: Bytes, left: int)
    requires SmallNumber(fieldNumber) && KvsFit(kvs)
    requires left >= |ArrayField(fieldNumber, KvsEncoded(kvs))|
    requires Check(t, left <= |ArrayField(fieldNumber, KvsEncoded(kvs))|, fieldNumber, WIRE_BYTES) == Absent
    ensures
      var field := ArrayField(fieldNumber, KvsEncoded(kvs));
      KvsAt(field + t, left, fieldNumber) == Some((kvs, |field|)) && (field + t)[|field|..] == t
    decreases |kvs|
  {
    hide Check, BytesField, SizedKvAt, KvEncoded, KvFits;
    var field := ArrayField(fieldNumber, KvsEncoded(kvs));
    if kvs == [] {
      assert field + t == t;
    } else {
      var first, rest := BytesField(fieldNumber, KvEncoded(kvs[0])), ArrayField(fieldNumber, KvsEncoded(kvs[1..]));
      assert KvsEncoded(kvs)[1..] == KvsEncoded(kvs[1..]);
      assert field + t == first + (rest + t);
      KvFound(fieldNumber, kvs[0], rest + t);
      FieldNotEmpty(fieldNumber, KvEncoded(kvs[0]));
      KvsInvert(fieldNumber, kvs[1..], t, left - |first|);
      assert kvs == [kvs[0]] + kvs[1..];
      assert (field + t)[|field|..] == t;
    }
  }

  /** A list of another field, or nothing, does not continue this one. */
  lemma OtherFieldAbsent(fieldNumber: nat, other: nat, data: seq<Bytes>, t: Bytes)
    requires other != fieldNumber && SmallNumber(other)
    requires ArrayField(other, data) + t == [] || data != []
    ensures Check(ArrayField(other, data) + t, |ArrayField(other, data) + t| <= 0, fieldNumber, WIRE_BYTES) == Absent
  {
    hide Check, Varint;
    if data != [] {
      var tail := Varint(|data[0]|) + data[0] + ArrayField(other, data[1..]) + t;
      assert ArrayField(other, data) + t == Key(other, WIRE_BYTES) + tail;
      KeyIsFound(other, WIRE_BYTES, tail);
      FieldNotEmpty(other, data[0]);
    } else {
      NothingIsAbsent(fieldNumber);
    }
  }

  lemma NothingIsAbsent(fieldNumber: nat)
    ensures Check([], true, fieldNumber, WIRE_BYTES) == Absent
  {
  }

  /** What follows the first list, and the second. */
  lemma RestAbsent(d: Diff)
    ensures
      var third := ArrayField(3, KvsEncoded(d.deleted));
      var rest := ArrayField(2, KvsEncoded(d.updated)) + third;
      && Check(rest, |rest| <= 0, 1, WIRE_BYTES) == Absent
      && Check(third, |third| <= 0, 2, WIRE_BYTES) == Absent
  {
    hide Check;
    var second, third := KvsEncoded(d.updated), KvsEncoded(d.deleted);
    assert ArrayField(3, third) + [] == ArrayField(3, third);
    OtherFieldAbsent(2, 3, third, []);
    if second == [] {
      assert ArrayField(2, second) + ArrayField(3, third) == ArrayField(3, third);
      OtherFieldAbsent(1, 3, third, []);
    } else {
      OtherFieldAbsent(1, 2, second, ArrayField(3, third));
    }
  }

  /** Decoding inverts encoding. */
  lemma DiffRoundTrip(d: Diff)
    requires DiffFits(d)
    ensures DiffDecoded(DiffEncoded(d)) == Some(d)
  {
    hide Check, ArrayField, KvsEncoded, ReadArrayAt, KvsAt, KvFits;
    var first, second, third := ArrayField(1, d.added), ArrayField(2, KvsEncoded(d.updated)), ArrayField(3, KvsEncoded(d.deleted));
    RestAbsent(d);
    ArrayInverts(1, d.added, second + third, |DiffEncoded(d)|);
    KvsInvert(2, d.updated, third, |second + third|);
    NothingIsAbsent(3);
    KvsInvert(3, d.deleted, [], |third|);
    assert third + [] == third;
  }

  /** Commit, store the diff, read it back and revert: the store is as before. */
  lemma StoredDiffRestores(diff: Diff, base: Store, view: Store)
    requires Undoes(diff, base, view) && DiffFits(diff)
    ensures DiffDecoded(DiffEncoded(diff)).Some?
    ensures Apply(view, RevertOps(DiffDecoded(DiffEncoded(diff)).value)) == base
  {
    hide Undoes, Apply, DiffFits;
    DiffRoundTrip(diff);
    RevertRestores(diff, base, view);
  }

  // ---------------------------------------------------------------- the readers and writers

  method EncodeKv(u: Unicode, kv: KV) returns (s: Bytes)
    requires KvFits(kv)
    ensures s == KvEncoded(kv)
  {
    hide BytesField;
    var w := new Writer(u);
    w.WriteBytes(1, kv.key);
    w.WriteBytes(2, kv.value);
    s := w.result;
  }

  method WriteKvs(w: Writer, fieldNumber: nat, kvs: seq<KV>)
    requires KvsFit(kvs)
    modifies w`result
    ensures w.result == old(w.result) + ArrayField(fieldNumber, KvsEncoded(kvs))
  {
    hide BytesField, KvEncoded, Fits;
    ghost var all := w.result + ArrayField(fieldNumber, KvsEncoded(kvs));
    for i := 0 to |kvs|
      invariant w.result + ArrayField(fieldNumber, KvsEncoded(kvs[i..])) == all
    {
      ghost var before := w.result;
      var encoded := EncodeKv(w.unicode, kvs[i]);
      w.WriteBytes(fieldNumber, encoded);
      assert kvs[i..][1..] == kvs[i + 1..];
      assert KvsEncoded(kvs[i..])[1..] == KvsEncoded(kvs[i + 1..]);
      assert before + (BytesField(fieldNumber, encoded) + ArrayField(fieldNumber, KvsEncoded(kvs[i + 1..])))
          == w.result + ArrayField(fieldNumber, KvsEncoded(kvs[i + 1..]));
    }
  }

  method EncodeDiff(u: Unicode, d: Diff) returns (s: Bytes)
    requires DiffFits(d)
    ensures s == DiffEncoded(d)
  {
    hide ArrayField, KvsEncoded, KvFits;
    var w := new Writer(u);
    w.WriteBytesArray(1, d.added);
    WriteKvs(w, 2, d.updated);
    WriteKvs(w, 3, d.deleted);
    s := w.result;
    assert s == DiffEncoded(d);
  }

  method DecodeKv(reader: Reader) returns (r: Option<KV>)
    requires reader.Valid()
    modifies reader`index
    ensures reader.Valid()
    ensures
      var spec := KvAt(old(reader.Rest()), reader.end - old(reader.index));
      if spec.Some? then r == Some(spec.value.0) && reader.index == old(reader.index) + spec.value.1
      else r == None && reader.index >= old(reader.index)
  {
    hide ReadBytesAt;
    var key := reader.ReadBytes(1, false);
    if key.None? {
      return None;
    }
    var value := reader.ReadBytes(2, false);
    if value.None? {
      return None;
    }
    return Some(KV(key.value, value.value));
  }

  method ReadSizedKv(reader: Reader) returns (r: Option<KV>)
    requires reader.Valid()
    modifies reader`index
    ensures reader.Valid()
    ensures
      var spec := SizedKvAt(old(reader.Rest()));
      if spec.Some? then r == Some(spec.value.0) && reader.index == old(reader.index) + spec.value.1
      else r == None && reader.index >= old(reader.index)
  {
    hide ReadVarint, KvAt, ToInt;
    var size := reader.ReadUIntValue();
    if size.None? {
      return None;
    }
    var inner := new Reader.Part(reader.unicode, reader.data, reader.index, reader.index + ToInt(size.value));
    var kv := DecodeKv(inner);
    if kv.None? {
      return None;
    }
    reader.index := inner.index;
    return Some(kv.value);
  }

  /** One more pair of a list. */
  lemma KvsStep(s: Bytes, left: int, fieldNumber: nat, values: seq<KV>, n: nat)
    ensures left <= 0 || Check(s, false, fieldNumber, WIRE_BYTES).Absent? ==>
              Prepend(values, n, KvsAt(s, left, fieldNumber)) == Some((values, n))
    ensures left > 0 && Check(s, false, fieldNumber, WIRE_BYTES).Malformed? ==>
              Prepend(values, n, KvsAt(s, left, fieldNumber)).None?
    ensures
      var c := Check(s, false, fieldNumber, WIRE_BYTES);
      left > 0 && c.Found? ==>
        var kv := SizedKvAt(s[c.size..]);
        Prepend(values, n, KvsAt(s, left, fieldNumber)) ==
        if kv.None? then None
        else Prepend(values + [kv.value.0], n + c.size + kv.value.1,
                       KvsAt(s[c.size + kv.value.1..], left - c.size - kv.value.1, fieldNumber))
  {
    hide Check, SizedKvAt;
    assert values + [] == values;
    var c := Check(s, false, fieldNumber, WIRE_BYTES);
    if left > 0 && c.Found? && SizedKvAt(s[c.size..]).Some? {
      var kv := SizedKvAt(s[c.size..]).value;
      var m := c.size + kv.1;
      var rest := KvsAt(s[m..], left - m, fieldNumber);
      if rest.Some? { assert values + ([kv.0] + rest.value.0) == (values + [kv.0]) + rest.value.0; }
    }
  }

  method ReadKvs(reader: Reader, fieldNumber: nat) returns (r: Option<seq<KV>>)
    requires reader.Valid()
    modifies reader`index
    ensures reader.Valid()
    ensures
      var spec := KvsAt(old(reader.Rest()), reader.end - old(reader.index), fieldNumber);
      if spec.Some? then
        && r == Some(spec.value.0) && reader.index == old(reader.index) + spec.value.1
        && reader.Rest() == old(reader.Rest())[spec.value.1..]
      else r == None && reader.index >= old(reader.index)
  {
    hide Check, SizedKvAt, KvsAt, Prepend;
    var result: seq<KV> := [];
    ghost var spec := KvsAt(reader.Rest(), reader.end - reader.index, fieldNumber);
    PrependNothing(spec);
    while reader.index < reader.end
      invariant reader.Valid() && reader.index >= old(reader.index)
      invariant Prepend(result, reader.index - old(reader.index), KvsAt(reader.Rest(), reader.end - reader.index, fieldNumber)) == spec
      decreases |reader.data| - reader.index
    {
      ghost var rest := reader.Rest();
      KvsStep(rest, reader.end - reader.index, fieldNumber, result, reader.index - old(reader.index));
      var c := reader.CheckField(fieldNumber, WIRE_BYTES);
      if c.Malformed? {
        return None;
      }
      if c.Absent? {
        return Some(result);
      }
      assert reader.Rest() == rest[c.size..];
      var kv := ReadSizedKv(reader);
      if kv.None? {
        return None;
      }
      assert reader.Rest() == rest[c.size + SizedKvAt(rest[c.size..]).value.1..];
      result := result + [kv.value];
    }
    KvsStep(reader.Rest(), reader.end - reader.index, fieldNumber, result, reader.index - old(reader.index));
    return Some(result);
  }

  method DecodeDiff(u: Unicode, s: Bytes) returns (r: Option<Diff>)
    ensures r == DiffDecoded(s)
  {
    hide ReadArrayAt, KvsAt, Reader.Rest, Reader.Valid, Prepend, SizedKvAt, KvAt, Check, ReadVarint, Varint;
    var reader := new Reader(u, s);
    var added := reader.ReadBytesArray(1);
    if added.None? {
      return None;
    }
    var updated := ReadKvs(reader, 2);
    if updated.None? {
      return None;
    }
    var deleted := ReadKvs(reader, 3);
    if deleted.None? {
      return None;
    }
    return Some(Diff(added.value, updated.value, deleted.value));
  }
}
