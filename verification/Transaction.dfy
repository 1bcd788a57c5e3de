/** The transaction message (pkg/blockchain/transaction_codec.go). */
module TransactionCodec {
  import opened Basics
  import opened Codec
  import opened CodecFields
  import opened CodecReader

  datatype Transaction = Transaction(
    moduleName: Bytes,
    command: Bytes,
    nonce: nat,
    fee: nat,
    senderPublicKey: Bytes,
    params: Bytes,
    signatures: seq<Bytes>)

  /** The values the Go type can hold. */
  predicate Representable(u: Unicode, t: Transaction) {
    && t.nonce < UINT64 && t.fee < UINT64
    && Fits(u.nfc(t.moduleName)) && Fits(u.nfc(t.command))
    && Fits(t.senderPublicKey) && Fits(t.params) && AllFit(t.signatures)
  }

  /** Both strings are valid and in normal form. */
  predicate NormalStrings(u: Unicode, t: Transaction) {
    IsText(u, t.moduleName) && IsText(u, t.command)
  }

  /** The bytes of a transaction. */
  function Encoded(u: Unicode, t: Transaction): Bytes {
    BytesField(1, u.nfc(t.moduleName)) + Tail2(u, t)
  }

  function Tail2(u: Unicode, t: Transaction): Bytes { BytesField(2, u.nfc(t.command)) + Tail3(t) }
  function Tail3(t: Transaction): Bytes { UIntField(3, t.nonce) + Tail4(t) }
  function Tail4(t: Transaction): Bytes { UIntField(4, t.fee) + Tail5(t) }
  function Tail5(t: Transaction): Bytes { BytesField(5, t.senderPublicKey) + Tail6(t) }
  function Tail6(t: Transaction): Bytes { BytesField(6, t.params) + ArrayField(7, t.signatures) }

  /** Encode. */
  method Encode(u: Unicode, t: Transaction) returns (s: Bytes)
    requires Representable(u, t)
    ensures s == Encoded(u, t)
  {
    hide BytesField, UIntField, ArrayField;
    var w := new Writer(u);
    w.WriteString(1, t.moduleName);
    w.WriteString(2, t.command);
    w.WriteUInt(3, t.nonce);
    w.WriteUInt(4, t.fee);
    w.WriteBytes(5, t.senderPublicKey);
    w.WriteBytes(6, t.params);
    w.WriteBytesArray(7, t.signatures);
    s := w.result;
    assert s == Encoded(u, t);
  }

  /** What strict decoding makes of a buffer: each field read off the front of what the one before left. */
  function Decoded(u: Unicode, s: Bytes): Option<Transaction> {
    var a := ReadStringAt(u, s, |s|, 1, true);
    if a.None? then None else
    var s2 := s[a.value.1..];
    var b := ReadStringAt(u, s2, |s2|, 2, true);
    if b.None? then None else
    var s3 := s2[b.value.1..];
    var c := ReadUIntAt(s3, |s3|, 3, true);
    if c.None? then None else
    var s4 := s3[c.value.1..];
    var rest := DecodedTail(s4);
    if rest.None? then None
    else Some(Transaction(a.value.0, b.value.0, c.value.0, rest.value.0, rest.value.1, rest.value.2, rest.value.3))
  }

  /** The last four fields, up to the end of the buffer. */
  function DecodedTail(s4: Bytes): Option<(nat, Bytes, Bytes, seq<Bytes>)> {
    var d := ReadUIntAt(s4, |s4|, 4, true);
    if d.None? then None else
    var s5 := s4[d.value.1..];
    var e := ReadBytesAt(s5, |s5|, 5, true);
    if e.None? then None else
    var s6 := s5[e.value.1..];
    var f := ReadBytesAt(s6, |s6|, 6, true);
    if f.None? then None else
    var s7 := s6[f.value.1..];
    var g := ReadArrayAt(s7, |s7|, 7);
    if g.None? || g.value.1 != |s7| then None
    else Some((d.value.0, e.value.0, f.value.0, g.value.0))
  }

  /** Strict decoding is canonical: what is accepted encodes back to the same bytes. */
  lemma DecodedIsCanonical(u: Unicode, s: Bytes)
    requires Decoded(u, s).Some?
    ensures
      var t := Decoded(u, s).value;
      t.nonce < UINT64 && t.fee < UINT64 && NormalStrings(u, t) && Encoded(u, t) == s
  {
    hide ReadStringAt, ReadUIntAt, ReadBytesAt, ReadArrayAt, BytesField, UIntField, ArrayField;
    StringCanonical(u, s, |s|, 1);
    var s2 := s[ReadStringAt(u, s, |s|, 1, true).value.1..];
    StringCanonical(u, s2, |s2|, 2);
    var s3 := s2[ReadStringAt(u, s2, |s2|, 2, true).value.1..];
    UIntCanonical(s3, |s3|, 3);
    var s4 := s3[ReadUIntAt(s3, |s3|, 3, true).value.1..];
    UIntCanonical(s4, |s4|, 4);
    var s5 := s4[ReadUIntAt(s4, |s4|, 4, true).value.1..];
    BytesCanonical(s5, |s5|, 5);
    var s6 := s5[ReadBytesAt(s5, |s5|, 5, true).value.1..];
    BytesCanonical(s6, |s6|, 6);
    var s7 := s6[ReadBytesAt(s6, |s6|, 6, true).value.1..];
    ArrayCanonical(s7, |s7|, 7);
    var t := Decoded(u, s).value;
    assert s7 == ArrayField(7, t.signatures);
  }

  lemma NotEmpty(fieldNumber: nat, n: nat)
    ensures |UIntField(fieldNumber, n)| >= 1
  {
  }

  /** Strict decoding inverts encoding. */
  lemma DecodedInverts(u: Unicode, t: Transaction)
    requires Representable(u, t) && NormalStrings(u, t)
    ensures Decoded(u, Encoded(u, t)) == Some(t)
  {
    hide ReadStringAt, ReadUIntAt, ReadBytesAt, ReadArrayAt, BytesField, UIntField, ArrayField;
    var s := Encoded(u, t);
    FieldNotEmpty(1, t.moduleName);
    StringInverts(u, 1, t.moduleName, Tail2(u, t), |s|, true);
    FieldNotEmpty(2, t.command);
    StringInverts(u, 2, t.command, Tail3(t), |Tail2(u, t)|, true);
    NotEmpty(3, t.nonce);
    UIntInverts(3, t.nonce, Tail4(t), |Tail3(t)|, true);
    NotEmpty(4, t.fee);
    UIntInverts(4, t.fee, Tail5(t), |Tail4(t)|, true);
    FieldNotEmpty(5, t.senderPublicKey);
    BytesInverts(5, t.senderPublicKey, Tail6(t), |Tail5(t)|, true);
    FieldNotEmpty(6, t.params);
    BytesInverts(6, t.params, ArrayField(7, t.signatures), |Tail6(t)|, true);
    ArrayInverts(7, t.signatures, [], |ArrayField(7, t.signatures)|);
    assert ArrayField(7, t.signatures) + [] == ArrayField(7, t.signatures);
  }

  /** DecodeStrict. */
  method DecodeStrict(u: Unicode, s: Bytes) returns (r: Option<Transaction>)
    ensures r == Decoded(u, s)
  {
    hide ReadStringAt, ReadUIntAt, DecodedTail, Reader.Rest;
    var reader := new Reader(u, s);
    var moduleName := reader.ReadString(1, true);
    if moduleName.None? {
      return None;
    }
    var command := reader.ReadString(2, true);
    if command.None? {
      return None;
    }
    var nonce := reader.ReadUInt(3, true);
    if nonce.None? {
      return None;
    }
    var rest := DecodeStrictTail(reader);
    if rest.None? {
      return None;
    }
    return Some(Transaction(moduleName.value, command.value, nonce.value,
                            rest.value.0, rest.value.1, rest.value.2, rest.value.3));
  }

  /** The last four fields of DecodeStrictFromReader and the check that nothing is left. */
  method DecodeStrictTail(reader: Reader) returns (r: Option<(nat, Bytes, Bytes, seq<Bytes>)>)
    requires reader.Valid() && reader.end == |reader.data|
    modifies reader`index
    ensures r == DecodedTail(old(reader.Rest()))
  {
    hide ReadUIntAt, ReadBytesAt, ReadArrayAt, Reader.Rest;
    var fee := reader.ReadUInt(4, true);
    if fee.None? {
      return None;
    }
    var senderPublicKey := reader.ReadBytes(5, true);
    if senderPublicKey.None? {
      return None;
    }
    var params := reader.ReadBytes(6, true);
    if params.None? {
      return None;
    }
    var signatures := reader.ReadBytesArray(7);
    if signatures.None? {
      return None;
    }
    var unread := reader.HasUnreadBytes();
    if unread {
      return None;
    }
    return Some((fee.value, senderPublicKey.value, params.value, signatures.value));
  }

  /** A buffer is accepted exactly when it is the encoding of a transaction with normal strings, and then
      it is the encoding of no other one. */
  lemma AcceptedIffEncoding(u: Unicode, s: Bytes)
    requires Fits(s)
    ensures Decoded(u, s).Some? <==> exists t :: Representable(u, t) && NormalStrings(u, t) && Encoded(u, t) == s
    ensures forall t :: Representable(u, t) && NormalStrings(u, t) && Encoded(u, t) == s ==> Decoded(u, s) == Some(t)
  {
    hide Decoded, Encoded, Fits;
    forall t | Representable(u, t) && NormalStrings(u, t) && Encoded(u, t) == s
      ensures Decoded(u, s) == Some(t)
    {
      DecodedInverts(u, t);
    }
    if Decoded(u, s).Some? {
      DecodedIsCanonical(u, s);
      PartsFit(u, Decoded(u, s).value, s);
    }
  }

  lemma {:induction false} ArrayElementsFit(fieldNumber: nat, data: seq<Bytes>)
    requires Fits(ArrayField(fieldNumber, data))
    ensures AllFit(data)
  {
    if data != [] {
      ArrayElementsFit(fieldNumber, data[1..]);
      assert forall i :: 1 <= i < |data| ==> data[i] == data[1..][i - 1];
    }
  }

  lemma PartsFit(u: Unicode, t: Transaction, s: Bytes)
    requires t.nonce < UINT64 && t.fee < UINT64 && Encoded(u, t) == s && Fits(s)
    ensures Representable(u, t)
  {
    hide Key, Varint, ArrayField;
    ArrayElementsFit(7, t.signatures);
  }
}
