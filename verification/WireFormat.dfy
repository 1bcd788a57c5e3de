/** Encodings byte by byte: what the tests of the codec write (pkg/codec/writer_test.go), and where the fields of
    transactions and diffs go (pkg/blockchain/transaction.go, pkg/db/diffdb/diff.go). */
module WireFormat {
  import opened Codec
  import opened CodecFields
  import opened DiffCommit
  import D = DiffCodec
  import T = TransactionCodec

  // ---------------------------------------------------------------- numbers

  lemma SmallVarint(n: nat)
    requires n < 128
    ensures Varint(n) == [n]
  {
  }

  lemma NextVarint(n: nat, low: nat, high: nat)
    requires n == 128 * high + low && low < 128 && high > 0
    ensures Varint(n) == [128 + low] + Varint(high)
  {
    assert n / 128 == high && n % 128 == low;
  }

  /** A number of seven groups, lowest group first. */
  lemma LongNumber()
    ensures UIntField(1, 372036854775807) == [0x08, 0xff, 0xff, 0xc9, 0xa4, 0xd9, 0xcb, 0x54]
  {
    hide Varint;
    SmallVarint(8);
    NextVarint(372036854775807, 0x7f, 2906537927935);
    NextVarint(2906537927935, 0x7f, 22707327561);
    NextVarint(22707327561, 0x49, 177400996);
    NextVarint(177400996, 0x24, 1385945);
    NextVarint(1385945, 0x59, 10827);
    NextVarint(10827, 0x4b, 0x54);
    SmallVarint(0x54);
  }

  lemma ShortNumbers()
    ensures UIntField(1, 10) == [0x08, 0x0a] && UIntField(1, ZigZag(-10)) == [0x08, 0x13]
  {
    hide Varint;
    SmallVarint(8);
    SmallVarint(10);
    SmallVarint(0x13);
  }

  // ---------------------------------------------------------------- fields

  /** The key bytes of the first seven fields. */
  lemma Keys()
    ensures Key(1, WIRE_BYTES) == [0x0a] && Key(2, WIRE_BYTES) == [0x12] && Key(3, WIRE_BYTES) == [0x1a]
    ensures Key(3, WIRE_VARINT) == [0x18] && Key(4, WIRE_VARINT) == [0x20]
    ensures Key(5, WIRE_BYTES) == [0x2a] && Key(6, WIRE_BYTES) == [0x32] && Key(7, WIRE_BYTES) == [0x3a]
  {
    hide Varint;
    SmallVarint(0x0a);
    SmallVarint(0x12);
    SmallVarint(0x1a);
    SmallVarint(0x18);
    SmallVarint(0x20);
    SmallVarint(0x2a);
    SmallVarint(0x32);
    SmallVarint(0x3a);
  }

  /** Bytes behind a key byte and their length. */
  function Behind(key: Byte, data: Bytes): Bytes { [key] + Varint(|data|) + data }

  /** A transaction on the wire, with one signature. */
  lemma TransactionLayout(u: Unicode, t: T.Transaction, signature: Bytes)
    requires t.signatures == [signature]
    ensures T.Encoded(u, t) ==
            Behind(0x0a, u.nfc(t.moduleName)) + Behind(0x12, u.nfc(t.command)) + [0x18] + Varint(t.nonce) + [0x20] + Varint(t.fee)
            + Behind(0x2a, t.senderPublicKey) + Behind(0x32, t.params) + Behind(0x3a, signature)
  {
    hide Varint, Key;
    Keys();
    OneInArray(7, signature);
  }

  lemma OneInArray(fieldNumber: nat, data: Bytes)
    ensures ArrayField(fieldNumber, [data]) == BytesField(fieldNumber, data)
  {
    hide BytesField;
    assert [data][1..] == [];
  }

  /** A stored diff on the wire, with one entry in each list. */
  lemma DiffLayout(added: Bytes, updated: KV, deleted: KV)
    ensures D.DiffEncoded(Diff([added], [updated], [deleted])) ==
            Behind(0x0a, added) + Behind(0x12, Behind(0x0a, updated.key) + Behind(0x12, updated.value))
            + Behind(0x1a, Behind(0x0a, deleted.key) + Behind(0x12, deleted.value))
  {
    hide Varint, Key;
    Keys();
    OneInArray(1, added);
    OneEncoded(updated);
    OneEncoded(deleted);
    OneInArray(2, D.KvEncoded(updated));
    OneInArray(3, D.KvEncoded(deleted));
    PairLayout(updated);
    PairLayout(deleted);
  }

  lemma OneEncoded(kv: KV)
    ensures D.KvsEncoded([kv]) == [D.KvEncoded(kv)]
  {
    hide D.KvEncoded;
    assert [kv][1..] == [];
  }

  lemma PairLayout(kv: KV)
    ensures D.KvEncoded(kv) == Behind(0x0a, kv.key) + Behind(0x12, kv.value)
  {
    hide Varint, Key;
    Keys();
  }
}
