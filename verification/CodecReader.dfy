/** Writer and Reader (pkg/codec/writer.go, reader.go). */
module CodecReader {
  import opened Basics
  import opened Codec
  import opened CodecFields

  class Writer {
    const unicode: Unicode
    var result: Bytes

    constructor (u: Unicode)
      ensures result == [] && unicode == u
    {
      unicode := u;
      result := [];
    }

    method WriteUInt(fieldNumber: nat, data: nat)
      requires data < UINT64
      modifies this`result
      ensures result == old(result) + UIntField(fieldNumber, data)
    {
      hide Key, Varint;
      result := result + Key(fieldNumber, WIRE_VARINT);
      result := result + Varint(data);
      assert result == old(result) + UIntField(fieldNumber, data);
    }

    method WriteInt(fieldNumber: nat, data: int)
      requires -INT64 <= data < INT64
      modifies this`result
      ensures result == old(result) + UIntField(fieldNumber, ZigZag(data))
    {
      WriteUInt(fieldNumber, ZigZag(data));
    }

    method WriteBytes(fieldNumber: nat, data: Bytes)
      requires Fits(data)
      modifies this`result
      ensures result == old(result) + BytesField(fieldNumber, data)
    {
      hide Key, Varint;
      result := result + Key(fieldNumber, WIRE_BYTES);
      result := result + Varint(|data|);
      result := result + data;
      assert result == old(result) + BytesField(fieldNumber, data);
    }

    method WriteString(fieldNumber: nat, data: Bytes)
      requires Fits(unicode.nfc(data))
      modifies this`result
      ensures result == old(result) + BytesField(fieldNumber, unicode.nfc(data))
    {
      WriteBytes(fieldNumber, unicode.nfc(data));
    }

    method WriteBytesArray(fieldNumber: nat, data: seq<Bytes>)
      requires AllFit(data)
      modifies this`result
      ensures result == old(result) + ArrayField(fieldNumber, data)
    {
      hide BytesField, Fits;
      ghost var all := old(result) + ArrayField(fieldNumber, data);
      for i := 0 to |data|
        invariant result + ArrayField(fieldNumber, data[i..]) == all
      {
        ghost var before := result;
        WriteBytes(fieldNumber, data[i]);
        assert data[i..][1..] == data[i + 1..];
        assert before + (BytesField(fieldNumber, data[i]) + ArrayField(fieldNumber, data[i + 1..]))
            == result + ArrayField(fieldNumber, data[i + 1..]);
      }
    }
  }

  /** One more element of a list. */
  lemma ReadArrayStep(s: Bytes, left: int, fieldNumber: nat, values: seq<Bytes>, n: nat)
    ensures
      left <= 0 || Check(s, false, fieldNumber, WIRE_BYTES).Absent? ==>
        Prepend(values, n, ReadArrayAt(s, left, fieldNumber)) == Some((values, n))
    ensures
      var c := Check(s, false, fieldNumber, WIRE_BYTES);
      left > 0 && (c.Malformed? || (c.Found? && ReadSized(s[c.size..]).None?)) ==> ReadArrayAt(s, left, fieldNumber).None?
    ensures
      var c := Check(s, false, fieldNumber, WIRE_BYTES);
      left > 0 && c.Found? && ReadSized(s[c.size..]).Some? ==>
        var v := ReadSized(s[c.size..]).value;
        Prepend(values, n, ReadArrayAt(s, left, fieldNumber))
          == Prepend(values + [v.0], n + c.size + v.1, ReadArrayAt(s[c.size + v.1..], left - c.size - v.1, fieldNumber))
  {
    hide Check, ReadSized;
    assert values + [] == values;
    var c := Check(s, false, fieldNumber, WIRE_BYTES);
    if left > 0 && c.Found? && ReadSized(s[c.size..]).Some? {
      var v := ReadSized(s[c.size..]).value;
      var rest := ReadArrayAt(s[c.size + v.1..], left - (c.size + v.1), fieldNumber);
      if rest.Some? {
        assert values + ([v.0] + rest.value.0) == (values + [v.0]) + rest.value.0;
      }
    }
  }

  class Reader {
    const data: Bytes
    const end: int
    const unicode: Unicode
    var index: nat

    ghost predicate Valid()
      reads this
    {
      index <= |data|
    }

    /** What the reader still has before it. */
    ghost function Rest(): (s: Bytes)
      requires Valid()
      reads this
      ensures |s| == |data| - index
    {
      data[index..]
    }

    constructor (u: Unicode, bytes: Bytes)
      ensures Valid() && data == bytes && end == |bytes| && unicode == u && index == 0 && Rest() == bytes
    {
      unicode, data, end, index := u, bytes, |bytes|, 0;
    }

    /** A reader for a part of the same data. */
    constructor Part(u: Unicode, bytes: Bytes, start: nat, stop: int)
      requires start <= |bytes|
      ensures Valid() && data == bytes && end == stop && unicode == u && index == start && Rest() == bytes[start..]
    {
      unicode, data, end, index := u, bytes, stop, start;
    }

    method ReadUIntValue() returns (r: Option<nat>)
      requires Valid()
      modifies this`index
      ensures Valid()
      ensures r == if ReadVarint(old(Rest())).None? then None else Some(ReadVarint(old(Rest())).value.0)
      ensures index == old(index) + if r.None? then 0 else ReadVarint(old(Rest())).value.1
    {
      hide ReadVarint;
      var v := ReadUint(data, index);
      if v.None? {
        return None;
      }
      index := index + v.value.1;
      return Some(v.value.0);
    }

    method CheckField(fieldNumber: nat, wireType: nat) returns (r: Checked)
      requires Valid()
      modifies this`index
      ensures Valid()
      ensures r == Check(old(Rest()), old(index) >= end, fieldNumber, wireType)
      ensures index == old(index) + if r.Found? then r.size else 0
    {
      hide ReadVarint;
      if index >= end {
        return Absent;
      }
      var key := ReadUint(data, index);
      if key.None? {
        return Malformed;
      }
      var value := ToInt(key.value.0);
      var nextWireType := value % 8;
      if nextWireType != WIRE_VARINT && nextWireType != WIRE_BYTES {
        return Malformed;
      }
      if value / 8 != fieldNumber {
        return Absent;
      }
      if nextWireType != wireType {
        return Malformed;
      }
      index := index + key.value.1;
      return Found(key.value.1);
    }

    method ReadUInt(fieldNumber: nat, strict: bool) returns (r: Option<nat>)
      requires Valid()
      modifies this`index
      ensures Valid()
      ensures
        var spec := ReadUIntAt(old(Rest()), end - old(index), fieldNumber, strict);
        if spec.Some? then r == Some(spec.value.0) && index == old(index) + spec.value.1 && Rest() == old(Rest())[spec.value.1..]
        else r == None && index >= old(index)
    {
      hide Check, ReadVarint;
      var c := CheckField(fieldNumber, WIRE_VARINT);
      if c.Malformed? || (c.Absent? && strict) {
        return None;
      }
      if c.Absent? {
        return Some(0);
      }
      r := ReadUIntValue();
    }

    method ReadInt(fieldNumber: nat, strict: bool) returns (r: Option<int>)
      requires Valid()
      modifies this`index
      ensures Valid()
      ensures
        var spec := ReadUIntAt(old(Rest()), end - old(index), fieldNumber, strict);
        if spec.Some? then r == Some(UnZigZag(spec.value.0)) && index == old(index) + spec.value.1 && Rest() == old(Rest())[spec.value.1..]
        else r == None && index >= old(index)
    {
      hide Check, ReadVarint;
      var res := ReadUInt(fieldNumber, strict);
      if res.None? {
        return None;
      }
      if res.value % 2 == 0 {
        return Some(res.value / 2);
      }
      return Some(-((res.value + 1) % UINT64 / 2));
    }

    method ReadSizedBytes() returns (r: Option<Bytes>)
      requires Valid()
      modifies this`index
      ensures Valid()
      ensures
        var spec := ReadSized(old(Rest()));
        if spec.Some? then r == Some(spec.value.0) && index == old(index) + spec.value.1 && Rest() == old(Rest())[spec.value.1..]
        else r == None && index >= old(index)
    {
      hide ReadVarint;
      var size := ReadUIntValue();
      if size.None? {
        return None;
      }
      var remaining := |data| - index;
      if size.value > remaining {
        return None;
      }
      assert data[index..index + size.value] == old(Rest())[index - old(index)..index - old(index) + size.value];
      r := Some(data[index..index + size.value]);
      index := index + size.value;
    }

    method ReadBytes(fieldNumber: nat, strict: bool) returns (r: Option<Bytes>)
      requires Valid()
      modifies this`index
      ensures Valid()
      ensures
        var spec := ReadBytesAt(old(Rest()), end - old(index), fieldNumber, strict);
        if spec.Some? then r == Some(spec.value.0) && index == old(index) + spec.value.1 && Rest() == old(Rest())[spec.value.1..]
        else r == None && index >= old(index)
    {
      hide Check, ReadSized;
      var c := CheckField(fieldNumber, WIRE_BYTES);
      if c.Malformed? || (c.Absent? && strict) {
        return None;
      }
      if c.Absent? {
        return Some([]);
      }
      r := ReadSizedBytes();
    }

    method ReadString(fieldNumber: nat, strict: bool) returns (r: Option<Bytes>)
      requires Valid()
      modifies this`index
      ensures Valid()
      ensures
        var spec := ReadStringAt(unicode, old(Rest()), end - old(index), fieldNumber, strict);
        if spec.Some? then r == Some(spec.value.0) && index == old(index) + spec.value.1 && Rest() == old(Rest())[spec.value.1..]
        else r == None && index >= old(index)
    {
      hide Check, ReadSized;
      var c := CheckField(fieldNumber, WIRE_BYTES);
      if c.Malformed? || (c.Absent? && strict) {
        return None;
      }
      if c.Absent? {
        return Some([]);
      }
      r := ReadSizedBytes();
      if r.None? || !unicode.valid(r.value) || unicode.nfc(r.value) != r.value {
        return None;
      }
    }

    method ReadBytesArray(fieldNumber: nat) returns (r: Option<seq<Bytes>>)
      requires Valid()
      modifies this`index
      ensures Valid()
      ensures
        var spec := ReadArrayAt(old(Rest()), end - old(index), fieldNumber);
        if spec.Some? then r == Some(spec.value.0) && index == old(index) + spec.value.1 && Rest() == old(Rest())[spec.value.1..]
        else r == None && index >= old(index)
    {
      hide Check, ReadSized, ReadArrayAt, Prepend;
      var result: seq<Bytes> := [];
      ghost var spec := ReadArrayAt(Rest(), end - index, fieldNumber);
      PrependNothing(spec);
      while index < end
        invariant Valid() && index >= old(index)
        invariant Prepend(result, index - old(index), ReadArrayAt(Rest(), end - index, fieldNumber)) == spec
        decreases |data| - index
      {
        ghost var rest := Rest();
        ReadArrayStep(rest, end - index, fieldNumber, result, index - old(index));
        PrependNone(result, index - old(index));
        var c := CheckField(fieldNumber, WIRE_BYTES);
        if c.Malformed? {
          return None;
        }
        if c.Absent? {
          return Some(result);
        }
        assert Rest() == rest[c.size..];
        var value := ReadSizedBytes();
        if value.None? {
          return None;
        }
        assert Rest() == rest[c.size + ReadSized(rest[c.size..]).value.1..];
        result := result + [value.value];
      }
      ReadArrayStep(Rest(), end - index, fieldNumber, result, index - old(index));
      return Some(result);
    }

    method HasUnreadBytes() returns (r: bool)
      ensures r <==> index != end
    {
      return index != end;
    }
  }
}
