/** The formats down to their bytes: what round trips alone would not fix, the numbers that stand for each kind. */
module FormatExamples {
  import opened Wrappers
  import opened UserKeys
  import opened Coding
  import DbFormat
  import LogFormat
  import VersionEdit
  import MemTable
  import Batches = WriteBatch
  import Blocks = BlockFormat
  import M = PbMessage
  import D = PbDescriptor
  import V = PbVarint
  import W = PbWire

  lemma Small(n: nat)
    requires n < 128
    ensures Varint(n) == [n]
  {
  }

  lemma Short(b: bytes)
    requires |b| < 128
    ensures LengthPrefixed(b) == [|b|] + b && M.Prefixed(b) == [|b|] + b
  {
    Small(|b|);
  }

  /** Fixed-width numbers have their lowest byte first. */
  lemma LowestFirst(n: nat)
    requires n < 256
    ensures Fixed(4, n) == [n, 0, 0, 0] && Fixed(8, n) == [n, 0, 0, 0, 0, 0, 0, 0]
    ensures Fixed(4, 0x0403_0201) == [1, 2, 3, 4]
  {
    hide Fixed;
    Zeros(3);
    Zeros(7);
    ByteOff(3, n);
    ByteOff(7, n);
    ByteOff(0, 4);
    ByteOff(1, 0x0403);
    ByteOff(2, 0x04_0302);
    ByteOff(3, 0x0403_0201);
  }

  lemma ByteOff(k: nat, n: nat)
    ensures Fixed(k + 1, n) == [n % 256] + Fixed(k, n / 256) && Fixed(0, n) == []
    ensures Fixed(0, n / 256) == []
  {
  }

  lemma {:induction false} Zeros(n: nat)
    ensures Fixed(n, 0) == seq(n, _ => 0)
  {
    if n > 0 { Zeros(n - 1); }
  }

  /** Varints have seven bits a byte, lowest first, with the top bit set on all but the last. */
  lemma SevenBits()
    ensures Varint(300) == [172, 2]
  {
    assert Varint(300) == [172] + Varint(2);
  }

  /** More than five bytes are no varint of 32 bits, more than ten none of 64; what does not fit is cut off. */
  lemma VarintLimits(s: bytes, v: nat, rest: bytes)
    requires v < 0x8_0000_0000
    ensures |s| >= 5 && (forall i :: 0 <= i < 5 ==> s[i] >= 128) ==> GetVarint32(s) == None
    ensures |s| >= 10 && (forall i :: 0 <= i < 10 ==> s[i] >= 128) ==> GetVarint64(s) == None && V.DecodeVarint(s) == None
    ensures GetVarint32(Varint(v) + rest) == Some((v % 0x1_0000_0000, rest))
  {
    hide Varint, ReadVarint;
    if |s| >= 5 && forall i :: 0 <= i < 5 ==> s[i] >= 128 { TooLong(s, 5); }
    if |s| >= 10 && forall i :: 0 <= i < 10 ==> s[i] >= 128 { TooLong(s, 10); }
    FiveBytes();
    VarintRoundTrip(v, rest, 5);
    assert (Varint(v) + rest)[|Varint(v)|..] == rest;
  }

  lemma {:induction false} TooLong(s: bytes, n: nat)
    requires |s| >= n && forall i :: 0 <= i < n ==> s[i] >= 128
    ensures ReadVarint(s, n) == None
  {
    if n > 0 { TooLong(s[1..], n - 1); }
  }

  lemma FiveBytes()
    ensures Pow(128, 5) == 0x8_0000_0000
  {
    assert Pow(128, 2) == 16384 && Pow(128, 4) == 268435456;
  }

  /** A log record is its checksum, its length in two bytes, its kind and its data; kinds are 1 for a whole record. */
  lemma LogRecord(crc: LogFormat.Checksum, p: nat, data: bytes)
    requires |data| <= 0xffff
    ensures LogFormat.Physical(crc, LogFormat.FULL, data) == Fixed(4, crc([1] + data)) + [|data| % 256, |data| / 256, 1] + data
    ensures LogFormat.FragmentKind(true, true) == 1 && LogFormat.FragmentKind(true, false) == 2
    ensures LogFormat.FragmentKind(false, false) == 3 && LogFormat.FragmentKind(false, true) == 4
    ensures LogFormat.RecordStart(32762) == 32768 && LogFormat.RecordStart(32761) == 32761
  {
  }

  /** A write batch: sequence number, count, and operations of kind 1 with a value or kind 0 without. */
  lemma Batch(sequence: nat, k: Key, v: bytes)
    requires sequence < 256 && |k| < 128 && |v| < 128
    ensures Batches.EncodeBatch(sequence, [Batches.Put(k, v), Batches.Delete(k)])
            == [sequence, 0, 0, 0, 0, 0, 0, 0] + [2, 0, 0, 0] + ([1, |k|] + k + [|v|] + v) + ([0, |k|] + k)
  {
    hide Fixed, LengthPrefixed;
    var put, del := Batches.Put(k, v), Batches.Delete(k);
    LowestFirst(sequence);
    LowestFirst(2);
    Short(k);
    Short(v);
    assert [put, del][..1] == [put] && [put][..0] == [];
    assert Batches.EncodeOps([put]) == Batches.EncodeOp(put);
    assert Batches.EncodeOp(put) == [1] + ([|k|] + k) + ([|v|] + v) == [1, |k|] + k + [|v|] + v;
    assert Batches.EncodeOp(del) == [0] + ([|k|] + k) == [0, |k|] + k;
    assert Batches.EncodeOps([put, del]) == Batches.EncodeOp(put) + Batches.EncodeOp(del);
  }

  /** An operation of another kind is refused. */
  lemma UnknownOperation(kind: byte, rest: bytes)
    ensures kind > 1 ==> Batches.DecodeOp([kind] + rest).0 == None && Batches.DecodeOp([kind] + rest).1.Corruption?
  {
    assert ([kind] + rest)[0] == kind;
  }

  /** A tag holds the sequence number above the type: 1 for a value, 0 for a deletion. */
  lemma EntryTag(sequence: nat, k: Key, v: bytes)
    ensures var e := DbFormat.Entry(k, 256 * sequence + 1, v); e.IsValue() && !e.IsDeletion() && e.Sequence() == sequence
    ensures var e := DbFormat.Entry(k, 256 * sequence, v); e.IsDeletion() && !e.IsValue() && e.Sequence() == sequence
  {
  }

  /** Each item of a manifest record has a number of its own; 8 is not used any more. */
  lemma ManifestItems(n: nat, level: nat, m: nat, name: bytes, other: bytes)
    requires n < 128 && level < 7 && m < 128 && |name| < 128 && |other| < 128
    ensures VersionEdit.Encode(VersionEdit.Comparator(name)) == [1, |name|] + name
    ensures VersionEdit.Encode(VersionEdit.LogNumber(n)) == [2, n]
    ensures VersionEdit.Encode(VersionEdit.NextFileNumber(n)) == [3, n]
    ensures VersionEdit.Encode(VersionEdit.LastSequence(n)) == [4, n]
    ensures VersionEdit.Encode(VersionEdit.CompactPointer(level, name)) == [5, level, |name|] + name
    ensures VersionEdit.Encode(VersionEdit.DeletedFile(level, n)) == [6, level, n]
    ensures VersionEdit.Encode(VersionEdit.NewFile(level, VersionEdit.FileMetaData(n, m, name, other)))
            == [7, level, n, m, |name|] + name + [|other|] + other
    ensures VersionEdit.Encode(VersionEdit.PrevLogNumber(n)) == [9, n]
  {
    hide Varint, LengthPrefixed;
    Small(1);
    Small(2);
    Small(3);
    Small(4);
    Small(5);
    Small(6);
    Small(7);
    Small(9);
    Small(n);
    Small(level);
    Small(m);
    Short(name);
    Short(other);
  }

  /** A manifest record has its items in this order. */
  lemma ManifestRecord(name: bytes, log: nat, prev: nat, next: nat, last: nat, key: bytes, d: nat, f: VersionEdit.FileMetaData)
    ensures VersionEdit.Items(VersionEdit.Edit(Some(name), Some(log), Some(prev), Some(next), Some(last),
                                               [(1, key)], {(2, d)}, [(3, f)]), [(2, d)])
            == [VersionEdit.Comparator(name), VersionEdit.LogNumber(log), VersionEdit.PrevLogNumber(prev),
                VersionEdit.NextFileNumber(next), VersionEdit.LastSequence(last), VersionEdit.CompactPointer(1, key),
                VersionEdit.DeletedFile(2, d), VersionEdit.NewFile(3, f)]
  {
    assert VersionEdit.Pointers([]) == [] && VersionEdit.Deletions([]) == [] && VersionEdit.NewFiles([]) == [];
    assert VersionEdit.Pointers([(1, key)]) == [VersionEdit.CompactPointer(1, key)];
    assert VersionEdit.Deletions([(2, d)]) == [VersionEdit.DeletedFile(2, d)];
    assert VersionEdit.NewFiles([(3, f)]) == [VersionEdit.NewFile(3, f)];
  }

  /** A memtable entry: key and tag behind their length, the value behind its; a lookup key has the value type. */
  lemma MemTableEntry(k: Key, sequence: nat, v: bytes)
    requires |k| < 100 && |v| < 128 && sequence < 256
    ensures var tag := [1, sequence, 0, 0, 0, 0, 0, 0];
            && MemTable.InternalKeyBytes(k, 256 * sequence + 1) == k + tag
            && MemTable.EntryBytes(DbFormat.Entry(k, 256 * sequence + 1, v)) == ([|k| + 8] + (k + tag)) + ([|v|] + v)
            && MemTable.LookupKey(k, sequence) == [|k| + 8] + (k + tag)
  {
    hide Fixed, LengthPrefixed;
    ByteOff(7, 256 * sequence + 1);
    ByteOff(6, sequence);
    assert sequence / 256 == 0 && (256 * sequence + 1) % 256 == 1 && (256 * sequence + 1) / 256 == sequence;
    Zeros(6);
    assert Fixed(8, 256 * sequence + 1) == [1, sequence, 0, 0, 0, 0, 0, 0];
    Short(k + [1, sequence, 0, 0, 0, 0, 0, 0]);
    Short(v);
  }

  /** Levels beyond the last, and numbers without a meaning, are refused. */
  lemma ManifestRefuses(level: nat, rest: bytes)
    requires 7 <= level < 128
    ensures VersionEdit.Decode([6, level] + rest) == VersionEdit.Bad("deleted file")
    ensures VersionEdit.Decode([5, level] + rest) == VersionEdit.Bad("compaction pointer")
    ensures VersionEdit.Decode([7, level] + rest) == VersionEdit.Bad("new-file entry")
    ensures VersionEdit.Decode([8] + rest) == VersionEdit.Bad("unknown tag")
  {
    hide GetVarint32;
    Blocks.OneByte([level] + rest);
    forall tag: byte | tag < 128 ensures GetVarint32([tag, level] + rest) == Some((tag, [level] + rest)) {
      assert ([tag, level] + rest)[1..] == [level] + rest;
      Blocks.OneByte([tag, level] + rest);
    }
    assert ([8] + rest)[1..] == rest;
    Blocks.OneByte([8] + rest);
  }

  /** A block entry: the bytes shared, those not shared, the value's length, the rest of the key, the value. */
  lemma BlockEntry(shared: nat, key: Key, value: bytes)
    requires shared <= |key| < 128 && |value| < 128
    ensures Blocks.EncodeEntry(shared, key, value) == [shared, |key| - shared, |value|] + key[shared..] + value
  {
    hide Varint;
    Small(shared);
    Small(|key| - shared);
    Small(|value|);
  }

  // ----- Messages -----

  /** The wire types of the types of fields: 0 varint, 1 and 5 fixed, 2 with a length. */
  lemma WireTypes(size: nat, fields: seq<D.Field>)
    ensures M.WireType(D.Bool) == 0 && M.WireType(D.Int(size)) == 0 && M.WireType(D.UInt(size)) == 0 && M.WireType(D.SInt(size)) == 0
    ensures M.WireType(D.Fixed64) == 1 && M.WireType(D.Fixed32) == 5
    ensures M.WireType(D.Bytes(size)) == 2 && M.WireType(D.Text(size)) == 2 && M.WireType(D.FixedBytes(size)) == 2
    ensures M.WireType(D.Message(fields)) == 2
    ensures forall t :: D.Packable(t) <==> M.WireType(t) != 2
  {
  }

  /** A key is the field number above three bits of wire type. */
  lemma FieldKey(tag: nat, wire: nat)
    requires 0 < tag < 16 && wire < 8
    ensures M.TagBytes(tag, wire) == [8 * tag + wire]
    ensures forall rest: bytes :: W.DecodeTag([8 * tag + wire] + rest) == W.Key_(tag, wire, rest)
  {
    Small(8 * tag + wire);
    forall rest: bytes ensures W.DecodeTag([8 * tag + wire] + rest) == W.Key_(tag, wire, rest) {
      assert ([8 * tag + wire] + rest)[1..] == rest;
    }
  }

  /** No bytes are the end of a message, and so is a zero key. */
  lemma MessageEnds(rest: bytes)
    ensures W.DecodeTag([]) == W.AtEnd([]) && W.DecodeTag([0] + rest) == W.AtEnd(rest)
  {
    assert ([0] + rest)[1..] == rest;
  }

  /** One message with a field of each kind, in bytes. */
  lemma MessageBytes(tag: nat, text: bytes)
    requires 0 < tag < 16 && |text| < 64 && 0 !in text
    ensures M.EncodeSlot(D.Field(tag, D.Required, D.Int(4), None), D.One(D.Num(150))) == Some([8 * tag, 150, 1])
    ensures M.EncodeSlot(D.Field(tag, D.Required, D.SInt(4), None), D.One(D.Num(-2))) == Some([8 * tag, 3])
    ensures M.EncodeSlot(D.Field(tag, D.Optional, D.Bool, None), D.Has(true, D.Num(1))) == Some([8 * tag, 1])
    ensures M.EncodeSlot(D.Field(tag, D.Optional, D.Bool, None), D.Has(false, D.Num(1))) == Some([])
    ensures M.EncodeSlot(D.Field(tag, D.Singular, D.UInt(4), None), D.One(D.Num(0))) == Some([])
    ensures M.EncodeSlot(D.Field(tag, D.Required, D.Fixed32, None), D.One(D.Num(7))) == Some([8 * tag + 5, 7, 0, 0, 0])
    ensures M.EncodeSlot(D.Field(tag, D.Required, D.Fixed64, None), D.One(D.Num(7))) == Some([8 * tag + 1, 7, 0, 0, 0, 0, 0, 0, 0])
    ensures M.EncodeSlot(D.Field(tag, D.Required, D.Text(100), None), D.One(D.Blob(text))) == Some([8 * tag + 2, |text|] + text)
  {
    NumbersInBytes(tag);
    FixedInBytes(tag);
    TextInBytes(tag, text);
  }

  lemma NumbersInBytes(tag: nat)
    requires 0 < tag < 16
    ensures M.EncodeSlot(D.Field(tag, D.Required, D.Int(4), None), D.One(D.Num(150))) == Some([8 * tag, 150, 1])
    ensures M.EncodeSlot(D.Field(tag, D.Required, D.SInt(4), None), D.One(D.Num(-2))) == Some([8 * tag, 3])
    ensures M.EncodeSlot(D.Field(tag, D.Optional, D.Bool, None), D.Has(true, D.Num(1))) == Some([8 * tag, 1])
    ensures M.EncodeSlot(D.Field(tag, D.Optional, D.Bool, None), D.Has(false, D.Num(1))) == Some([])
    ensures M.EncodeSlot(D.Field(tag, D.Singular, D.UInt(4), None), D.One(D.Num(0))) == Some([])
  {
    hide Varint, V.Zigzag, M.TagBytes;
    FieldKey(tag, 0);
    assert Varint(150) == [150, 1] by { VarintOf150(); }
    V.ZigzagRoundTrip(-2);
    Small(3);
    Small(1);
    Keyed(D.Field(tag, D.Required, D.Int(4), None), D.One(D.Num(150)), [150, 1]);
    Keyed(D.Field(tag, D.Required, D.SInt(4), None), D.One(D.Num(-2)), [3]);
    Keyed(D.Field(tag, D.Optional, D.Bool, None), D.Has(true, D.Num(1)), [1]);
    assert [8 * tag] + [150, 1] == [8 * tag, 150, 1] && [8 * tag] + [3] == [8 * tag, 3] && [8 * tag] + [1] == [8 * tag, 1];
  }

  lemma FixedInBytes(tag: nat)
    requires 0 < tag < 16
    ensures M.EncodeSlot(D.Field(tag, D.Required, D.Fixed32, None), D.One(D.Num(7))) == Some([8 * tag + 5, 7, 0, 0, 0])
    ensures M.EncodeSlot(D.Field(tag, D.Required, D.Fixed64, None), D.One(D.Num(7))) == Some([8 * tag + 1, 7, 0, 0, 0, 0, 0, 0, 0])
  {
    hide Fixed, M.TagBytes;
    FieldKey(tag, 5);
    FieldKey(tag, 1);
    LowestFirst(7);
    Keyed(D.Field(tag, D.Required, D.Fixed32, None), D.One(D.Num(7)), [7, 0, 0, 0]);
    Keyed(D.Field(tag, D.Required, D.Fixed64, None), D.One(D.Num(7)), [7, 0, 0, 0, 0, 0, 0, 0]);
    assert [8 * tag + 5] + [7, 0, 0, 0] == [8 * tag + 5, 7, 0, 0, 0];
    assert [8 * tag + 1] + [7, 0, 0, 0, 0, 0, 0, 0] == [8 * tag + 1, 7, 0, 0, 0, 0, 0, 0, 0];
  }

  /** A field that is there is its key and its item. */
  lemma Keyed(f: D.Field, s: D.Slot, item: bytes)
    requires M.TypedSlot(f, s) && (f.htype.Required? || (f.htype.Optional? && s.has))
    requires M.EncodeItem(f.ltype, s.v) == Some(item)
    ensures M.EncodeSlot(f, s) == Some(M.TagBytes(f.tag, M.WireType(f.ltype)) + item)
  {
    hide M.EncodeItem, M.TagBytes;
  }

  lemma VarintOf150()
    ensures Varint(150) == [150, 1]
  {
    assert Varint(150) == [150] + Varint(1);
  }

  lemma TextInBytes(tag: nat, text: bytes)
    requires 0 < tag < 16 && |text| < 64 && 0 !in text
    ensures M.EncodeSlot(D.Field(tag, D.Required, D.Text(100), None), D.One(D.Blob(text))) == Some([8 * tag + 2, |text|] + text)
  {
    hide Varint, M.TagBytes, M.CString, M.Prefixed;
    FieldKey(tag, 2);
    WholeString(text, 100);
    Short(text);
    Keyed(D.Field(tag, D.Required, D.Text(100), None), D.One(D.Blob(text)), [|text|] + text);
    assert [8 * tag + 2] + ([|text|] + text) == [8 * tag + 2, |text|] + text;
  }

  lemma {:induction false} WholeString(text: bytes, size: nat)
    requires |text| <= size && 0 !in text
    ensures M.CString(text, size) == text
  {
    if text != [] { WholeString(text[1..], size - 1); }
  }

  /** Numbers of an array go into one packed field; submessages have a key each. */
  lemma ArrayBytes(tag: nat, a: nat, b: nat)
    requires 0 < tag < 16 && a < 128 && b < 128
    ensures M.EncodeSlot(D.Field(tag, D.Repeated(2), D.UInt(4), None), D.Many([D.Num(a), D.Num(b)])) == Some([8 * tag + 2, 2, a, b])
    ensures M.EncodeSlot(D.Field(tag, D.Repeated(2), D.Message([]), None), D.Many([D.Struct([]), D.Struct([])]))
            == Some([8 * tag + 2, 0, 8 * tag + 2, 0])
  {
    PackedBytes(tag, a, b);
    KeyedBytes(tag);
  }

  lemma PackedBytes(tag: nat, a: nat, b: nat)
    requires 0 < tag < 16 && a < 128 && b < 128
    ensures M.EncodeSlot(D.Field(tag, D.Repeated(2), D.UInt(4), None), D.Many([D.Num(a), D.Num(b)])) == Some([8 * tag + 2, 2, a, b])
  {
    hide Varint, M.TagBytes, M.Prefixed;
    FieldKey(tag, 2);
    Small(a);
    Small(b);
    var vs, t := [D.Num(a), D.Num(b)], D.UInt(4);
    assert M.EncodeItems(t, vs, 0) == Some([]);
    assert [] + [a] == [a] && [a] + [b] == [a, b];
    assert M.EncodeItems(t, vs, 1) == Some([a]);
    assert M.EncodeItems(t, vs, 2) == Some([a, b]);
    Short([a, b]);
    assert [8 * tag + 2] + ([2] + [a, b]) == [8 * tag + 2, 2, a, b];
  }

  lemma KeyedBytes(tag: nat)
    requires 0 < tag < 16
    ensures M.EncodeSlot(D.Field(tag, D.Repeated(2), D.Message([]), None), D.Many([D.Struct([]), D.Struct([])]))
            == Some([8 * tag + 2, 0, 8 * tag + 2, 0])
  {
    hide Varint, M.TagBytes, M.Prefixed;
    FieldKey(tag, 2);
    Short([]);
    var vs, t := [D.Struct([]), D.Struct([])], D.Message([]);
    assert M.EncodeFields([], 0, []) == Some([]);
    assert [0] + [] == [0];
    assert M.EncodeItem(t, D.Struct([])) == Some([0]);
    assert M.EncodeKeyed(tag, t, vs, 0) == Some([]);
    var key := [8 * tag + 2];
    assert [] + key + [0] == key + [0] && key + [0] + key + [0] == [8 * tag + 2, 0, 8 * tag + 2, 0];
    assert M.EncodeKeyed(tag, t, vs, 1) == Some(key + [0]);
    assert M.EncodeKeyed(tag, t, vs, 2) == Some(key + [0] + key + [0]);
  }
}
