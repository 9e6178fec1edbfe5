/** The memtable (db/memtable.cc): encoded entries in a skip list, and lookups by user key and snapshot. */
module MemTable {
  import opened Wrappers
  import opened UserKeys
  import opened Coding
  import opened DbFormat
  import opened Compaction
  import Lists = SkipList
  import State = SkipListState

  // ----- The layout of keys and entries -----

  function InternalKeyBytes(ukey: Key, tag: nat): bytes {
    ukey + Fixed(8, tag)
  }

  function UserKeyOf(ikey: bytes): Key {
    if |ikey| >= 8 then ikey[..|ikey| - 8] else []
  }

  function TagOf(ikey: bytes): nat {
    if |ikey| >= 8 then FromFixed(ikey[|ikey| - 8..]) else 0
  }

  lemma InternalKeyRoundTrip(ukey: Key, tag: nat)
    requires tag < 0x1_0000_0000_0000_0000
    ensures UserKeyOf(InternalKeyBytes(ukey, tag)) == ukey && TagOf(InternalKeyBytes(ukey, tag)) == tag
  {
    hide Fixed, FromFixed;
    var ikey := InternalKeyBytes(ukey, tag);
    assert ikey[..|ikey| - 8] == ukey && ikey[|ikey| - 8..] == Fixed(8, tag);
    Widths();
    FixedRoundTrip(8, tag);
  }

  /** What Add writes: the internal key and the value, each behind its length. */
  function EntryBytes(e: Entry): bytes {
    LengthPrefixed(InternalKeyBytes(e.ukey, e.tag)) + LengthPrefixed(e.value)
  }

  /** What a LookupKey holds: the internal key no newer entry of the user key comes after, behind its length. */
  function LookupKey(ukey: Key, s: nat): bytes {
    LengthPrefixed(InternalKeyBytes(ukey, Tag(s, TYPE_VALUE)))
  }

  predicate Fits(e: Entry) {
    |e.ukey| + 8 < 0x1_0000_0000 && |e.value| < 0x1_0000_0000 && e.tag < 0x1_0000_0000_0000_0000
  }

  function FrontSlice(buf: bytes): bytes {
    match GetLengthPrefixed(buf) case None => [] case Some((s, _)) => s
  }

  function BackSlice(buf: bytes): bytes {
    match GetLengthPrefixed(buf) case None => [] case Some((_, rest)) => FrontSlice(rest)
  }

  function DecodeEntry(buf: bytes): Entry {
    Entry(UserKeyOf(FrontSlice(buf)), TagOf(FrontSlice(buf)), BackSlice(buf))
  }

  lemma EntryRoundTrip(e: Entry)
    requires Fits(e)
    ensures DecodeEntry(EntryBytes(e)) == e
  {
    hide LengthPrefixed, GetLengthPrefixed, FromFixed, Fixed;
    var ikey := InternalKeyBytes(e.ukey, e.tag);
    InternalKeyRoundTrip(e.ukey, e.tag);
    LengthPrefixedRoundTrip(ikey, LengthPrefixed(e.value));
    LengthPrefixedRoundTrip(e.value, []);
    assert LengthPrefixed(e.value) + [] == LengthPrefixed(e.value);
  }

  lemma LookupRoundTrip(ukey: Key, s: nat)
    requires |ukey| + 8 < 0x1_0000_0000 && s <= MAX_SEQUENCE
    ensures FrontSlice(LookupKey(ukey, s)) == InternalKeyBytes(ukey, Tag(s, TYPE_VALUE))
    ensures DecodeEntry(LookupKey(ukey, s)).ukey == ukey && DecodeEntry(LookupKey(ukey, s)).tag == Tag(s, TYPE_VALUE)
  {
    hide LengthPrefixed, GetLengthPrefixed, FromFixed, Fixed;
    var ikey := InternalKeyBytes(ukey, Tag(s, TYPE_VALUE));
    InternalKeyRoundTrip(ukey, Tag(s, TYPE_VALUE));
    LengthPrefixedRoundTrip(ikey, []);
    assert LengthPrefixed(ikey) + [] == LengthPrefixed(ikey);
  }

  // ----- The table's comparator -----

  function KeyCompare(cmp: UserComparator, a: bytes, b: bytes): int {
    Compare(cmp, DecodeEntry(a), DecodeEntry(b))
  }

  function RawComparator(cmp: UserComparator): (Key, Key) -> int {
    (a, b) => KeyCompare(cmp, a, b)
  }

  lemma KeysAreOrdered(cmp: UserComparator)
    ensures WeakOrder(RawComparator(cmp))
  {
    hide DecodeEntry;
    forall a, b, c ensures WeakAt(RawComparator(cmp), a, b, c) {
      var ka, kb, kc := DecodeEntry(a).ukey, DecodeEntry(b).ukey, DecodeEntry(c).ukey;
      assert OrderedAt(cmp, ka, kb, kc) && OrderedAt(cmp, kb, kc, ka) && OrderedAt(cmp, kb, ka, ka) && OrderedAt(cmp, ka, kc, kc);
    }
  }

  /** MemTable::KeyComparator: internal key order on the keys at the front of two buffers. */
  function KeyComparator(cmp: UserComparator): Comparator {
    KeysAreOrdered(cmp);
    RawComparator(cmp)
  }

  lemma KeyComparatorIs(cmp: UserComparator, a: bytes, b: bytes)
    ensures KeyComparator(cmp)(a, b) == Compare(cmp, DecodeEntry(a), DecodeEntry(b))
  {
  }

  // ----- Lookups -----

  /** How a lookup in one layer ends: the key is not mentioned, it is deleted, or it has a value. */
  datatype Lookup = Absent | Deleted | Found(value: bytes)

  function OutcomeOf(e: Entry): Lookup {
    if e.IsValue() then Found(e.value) else Deleted
  }

  /** What a lookup of k at snapshot s must find in a set of entries. */
  ghost predicate Finds(es: set<Entry>, k: Key, s: nat, r: Lookup) {
    if r.Absent? then forall e :: e in es ==> !(e.ukey == k && e.Visible(s))
    else exists e :: NewestIn(es, k, s, e) && r == OutcomeOf(e)
  }

  class MemTable {
    const cmp: UserComparator
    const table: Lists.SkipList
    ghost var entries: seq<Entry>  // the table's entries, decoded, in table order

    ghost predicate Valid()
      reads this, table
    {
      && table.Valid() && table.cmp == KeyComparator(cmp)
      && |table.Keys()| == |entries|
      && (forall i :: 0 <= i < |entries| ==> EntryAt(i))
      && UniqueSequences(Elements(entries))
    }

    ghost predicate EntryAt(i: nat)
      requires i < |table.Keys()| == |entries|
      reads this, table
    {
      table.Keys()[i] == EntryBytes(entries[i]) && Fits(entries[i])
    }

    constructor (cmp: UserComparator)
      ensures Valid() && entries == [] && this.cmp == cmp && fresh(table)
    {
      this.cmp := cmp;
      table := new Lists.SkipList(KeyComparator(cmp));
      entries := [];
    }

    /** Adds one entry; no entry of the key has the sequence number yet. */
    method Add(sequence: nat, kind: nat, key: Key, value: bytes)
      requires Valid() && sequence <= MAX_SEQUENCE && kind in {TYPE_DELETION, TYPE_VALUE}
      requires |key| + 8 < 0x1_0000_0000 && |value| < 0x1_0000_0000
      requires forall e :: e in entries && e.ukey == key ==> e.Sequence() != sequence
      modifies this, table
      ensures Valid()
      ensures var e := Entry(key, Tag(sequence, kind), value);
              |entries| == |old(entries)| + 1 && Elements(entries) == Elements(old(entries)) + {e}
    {
      hide LengthPrefixed, GetLengthPrefixed, Fixed, FromFixed, KeyCompare, Lists.Position, DecodeEntry, Elements, UniqueSequences;
      ghost var e := Entry(key, Tag(sequence, kind), value);
      var buf := LengthPrefixed(InternalKeyBytes(key, Tag(sequence, kind))) + LengthPrefixed(value);
      NewEntryDiffers(e, sequence);
      ghost var i := Lists.Position(table.cmp, table.Keys(), State.To(buf));
      table.Insert(buf);
      entries := entries[..i] + [e] + entries[i..];
      Inserted(old(entries), entries, i, e, sequence);
      forall j | 0 <= j < |entries| ensures EntryAt(j) {
        if j != i { assert old(EntryAt(if j < i then j else j - 1)); }
      }
    }

    lemma NewEntryDiffers(e: Entry, sequence: nat)
      requires Valid() && Fits(e) && e.Sequence() == sequence
      requires forall f :: f in entries && f.ukey == e.ukey ==> f.Sequence() != sequence
      ensures forall k :: k in table.Keys() ==> table.cmp(k, EntryBytes(e)) != 0
    {
      hide EntryBytes;
      EntryRoundTrip(e);
      forall k | k in table.Keys() ensures table.cmp(k, EntryBytes(e)) != 0 {
        var i: nat :| i < |table.Keys()| && table.Keys()[i] == k;
        assert EntryAt(i);
        EntryRoundTrip(entries[i]);
        KeyComparatorIs(cmp, k, EntryBytes(e));
        assert OrderedAt(cmp, entries[i].ukey, e.ukey, e.ukey);
      }
    }

    /** Looks a key up at a snapshot: the entry at the lookup key, if it is of that key. */
    method Get(ukey: Key, s: nat) returns (r: Lookup)
      requires Valid() && |ukey| + 8 < 0x1_0000_0000 && s <= MAX_SEQUENCE
      requires forall e :: e in entries ==> e.Parses()
      ensures Finds(Elements(entries), ukey, s, r)
    {
      hide LengthPrefixed, GetLengthPrefixed, Fixed, FromFixed, KeyCompare, Lists.Position, Elements, UniqueSequences, Finds;
      var memkey := LookupKey(ukey, s);
      var iter := new Lists.Iterator(table);
      iter.Seek(memkey);
      ghost var i := Lists.Position(table.cmp, table.Keys(), State.To(memkey));
      LookedUp(ukey, s);
      if iter.node != 0 {
        var entry := iter.Key();
        assert EntryAt(i) && entries[i] in entries;
        EntryRoundTrip(entries[i]);
        var ikey := FrontSlice(entry);
        if cmp(UserKeyOf(ikey), ukey) == 0 {
          var tag := TagOf(ikey);
          if tag % 256 == TYPE_VALUE {
            return Found(BackSlice(entry));
          } else if tag % 256 == TYPE_DELETION {
            return Deleted;
          }
        }
      }
      return Absent;
    }

    /** The entry at the lookup key's position, if it is of the key, is the newest the snapshot sees; else there is none. */
    lemma LookedUp(ukey: Key, s: nat)
      requires Valid() && |ukey| + 8 < 0x1_0000_0000 && s <= MAX_SEQUENCE
      requires forall e :: e in entries ==> e.Parses()
      ensures var i := Lists.Position(table.cmp, table.Keys(), State.To(LookupKey(ukey, s)));
              if i < |entries| && cmp(entries[i].ukey, ukey) == 0 then
                Finds(Elements(entries), ukey, s, OutcomeOf(entries[i]))
              else Finds(Elements(entries), ukey, s, Absent)
    {
      hide LookupKey, KeyCompare, Lists.Position, EntryBytes, Compare, UniqueSequences;
      var target := State.To(LookupKey(ukey, s));
      var i := Lists.Position(table.cmp, table.Keys(), target);
      assert OrderedAt(cmp, ukey, ukey, ukey);
      if i < |entries| {
        Lists.AroundPosition(table.cmp, table.Keys(), target, i);
        BesideLookup(ukey, s, i);
      }
      forall j: nat | j < |entries| && entries[j].ukey == ukey && entries[j].Visible(s)
        ensures i <= j && cmp(entries[i].ukey, ukey) == 0 && entries[j].tag <= entries[i].tag
      {
        Lists.AroundPosition(table.cmp, table.Keys(), target, j);
        BesideLookup(ukey, s, j);
        if i < j { Ascending(ukey, i, j); }
      }
      if i < |entries| && cmp(entries[i].ukey, ukey) == 0 {
        assert OrderedAt(cmp, entries[i].ukey, ukey, ukey);
        assert entries[i] in entries;
        assert NewestIn(Elements(entries), ukey, s, entries[i]);
      }
    }

    /** Whether an entry comes before the lookup key, and whether the snapshot sees it. */
    lemma BesideLookup(ukey: Key, s: nat, j: nat)
      requires Valid() && |ukey| + 8 < 0x1_0000_0000 && s <= MAX_SEQUENCE && j < |entries| && entries[j].Parses()
      ensures Lists.IsBefore(table.cmp, table.Keys()[j], State.To(LookupKey(ukey, s))) <==>
              cmp(entries[j].ukey, ukey) < 0 || (entries[j].ukey == ukey && !entries[j].Visible(s))
    {
      hide LookupKey, EntryBytes, DecodeEntry;
      assert EntryAt(j);
      EntryRoundTrip(entries[j]);
      LookupRoundTrip(ukey, s);
      KeyComparatorIs(cmp, table.Keys()[j], LookupKey(ukey, s));
      assert OrderedAt(cmp, entries[j].ukey, ukey, ukey);
    }

    lemma Ascending(ukey: Key, i: nat, j: nat)
      requires Valid() && i < j < |entries|
      ensures entries[i].ukey == entries[j].ukey ==> entries[j].tag <= entries[i].tag
      ensures entries[i].ukey != entries[j].ukey ==> cmp(entries[i].ukey, entries[j].ukey) < 0
      ensures cmp(entries[i].ukey, entries[j].ukey) >= 0 ==> entries[i].ukey == entries[j].ukey
      ensures cmp(entries[i].ukey, entries[j].ukey) < 0 <==> cmp(entries[j].ukey, entries[i].ukey) > 0
      ensures cmp(entries[j].ukey, entries[j].ukey) == 0
    {
      hide EntryBytes, DecodeEntry;
      assert EntryAt(i) && EntryAt(j);
      EntryRoundTrip(entries[i]);
      EntryRoundTrip(entries[j]);
      table.KeysAscend(i, j);
      KeyComparatorIs(cmp, table.Keys()[i], table.Keys()[j]);
      assert OrderedAt(cmp, entries[i].ukey, entries[j].ukey, entries[j].ukey);
      assert OrderedAt(cmp, entries[j].ukey, entries[j].ukey, entries[j].ukey);
    }
  }

  lemma Inserted(before: seq<Entry>, after: seq<Entry>, i: nat, e: Entry, sequence: nat)
    requires i <= |before| && after == before[..i] + [e] + before[i..]
    requires UniqueSequences(Elements(before)) && e.Sequence() == sequence
    requires forall f :: f in before && f.ukey == e.ukey ==> f.Sequence() != sequence
    ensures |after| == |before| + 1 && Elements(after) == Elements(before) + {e} && UniqueSequences(Elements(after))
  {
    forall f ensures f in after <==> f in before || f == e {
      if f in before {
        var j :| 0 <= j < |before| && before[j] == f;
        assert after[if j < i then j else j + 1] == f;
      }
      assert after[i] == e;
    }
  }
}
