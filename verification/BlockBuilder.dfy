/** Building a block (table/block_builder.cc): what the iterator finds in it is what was added. */
module BlockBuilder {
  import opened Wrappers
  import opened UserKeys
  import opened Coding
  import opened BlockFormat

  class BlockBuilder {
    const cmp: Comparator
    const interval: nat          // block_restart_interval
    var buffer: bytes
    var restarts: seq<nat>
    var counter: nat
    var lastKey: Key
    ghost var lay: Layout        // the entries so far
    ghost var shareds: seq<nat>  // how much of its key each entry shares with the one before

    ghost predicate Valid()
      reads this
    {
      && interval >= 1 && (lay.entries == [] ==> counter == 0)
      && Building(cmp, buffer, restarts, lay, shareds)
      && lastKey == KeyBefore(lay, |lay.entries|)
      && Spaced(lay, interval, counter)
    }

    constructor (cmp: Comparator, interval: nat)
      requires interval >= 1
      ensures Valid() && lay.entries == [] && this.cmp == cmp && this.interval == interval
    {
      this.cmp, this.interval := cmp, interval;
      buffer, restarts, counter, lastKey := [], [0], 0, [];
      lay, shareds := Layout([0], [], [0]), [];
      new;
      assert StartNoted([0], lay, [], 0);
    }

    /** Adds a key that is larger than any added before; all it shares with the last key is left out, but at a restart. */
    method Add(key: Key, value: bytes)
      requires Valid() && |key| < 0x1_0000_0000 && |value| < 0x1_0000_0000
      requires lay.entries != [] ==> cmp(lastKey, key) < 0
      modifies this
      ensures Valid() && lay.entries == old(lay.entries) + [(key, value)]
      ensures |shareds| == |old(shareds)| + 1 && shareds[|old(shareds)|] <= |key|
      ensures buffer == old(buffer) + EncodeEntry(shareds[|old(shareds)|], key, value)
      ensures if old(counter) < interval then LongestShared(old(lastKey), key, shareds[|old(shareds)|])
              else shareds[|old(shareds)|] == 0
    {
      hide Varint, Building, EncodeEntry, Spaced, LongestShared;
      SpacedOn(lay, interval, counter, key, value);
      var restart, shared := StartEntry(key);
      SharedFits(lastKey, key, shared);
      ghost var entry := EncodeEntry(shared, key, value);
      buffer := buffer + Varint(shared) + Varint(|key| - shared) + Varint(|value|) + key[shared..] + value;
      EntryIs(shared, key, value);
      assert buffer == old(buffer) + entry;
      lastKey := lastKey[..shared] + key[shared..];
      counter := counter + 1;
      Added(cmp, old(buffer), old(restarts), lay, shareds, key, value, shared, restart);
      lay := Grown(lay, key, value, |buffer|, restart);
      shareds := shareds + [shared];
    }

    /** Every interval-th entry is a restart point, which shares nothing. */
    method StartEntry(key: Key) returns (restart: bool, shared: nat)
      modifies this`restarts, this`counter
      ensures restart == (old(counter) >= interval)
      ensures if restart then shared == 0 else LongestShared(lastKey, key, shared)
      ensures restarts == if restart then old(restarts) + [|buffer|] else old(restarts)
      ensures counter == if restart then 0 else old(counter)
    {
      shared := 0;
      restart := counter >= interval;
      if !restart {
        shared := SharedPrefix(key);
      } else {
        restarts := restarts + [|buffer|];
        counter := 0;
      }
    }

    method SharedPrefix(key: Key) returns (shared: nat)
      ensures LongestShared(lastKey, key, shared)
    {
      shared := 0;
      var minLength := if |lastKey| < |key| then |lastKey| else |key|;
      while shared < minLength && lastKey[shared] == key[shared]
        invariant 0 <= shared <= minLength && lastKey[..shared] == key[..shared]
      {
        shared := shared + 1;
      }
    }

    /** The finished block opens as a block, and stands for the list of what was added. */
    method Finish() returns (block: bytes)
      requires Valid() && |buffer| < 0x1_0000_0000
      modifies this`buffer
      ensures OpenBlock(block) == Some((|old(buffer)|, |restarts|))
      ensures WellFormed(cmp, block, |old(buffer)|, |restarts|, lay)
      ensures forall r :: 0 <= r < |lay.starts| ==> lay.starts[r] == Multiple(r, interval)
      ensures |lay.entries| <= Multiple(|lay.starts|, interval)
    {
      hide Building, Fixed, FromFixed;
      var i := 0;
      while i < |restarts|
        invariant 0 <= i <= |restarts| && buffer == old(buffer) + FixedAll(restarts[..i])
      {
        assert restarts[..i + 1][..i] == restarts[..i];
        buffer := buffer + Fixed(4, restarts[i]);
        i := i + 1;
      }
      assert restarts[..|restarts|] == restarts;
      buffer := buffer + Fixed(4, |restarts|);
      block := buffer;
      FewRestarts(cmp, old(buffer), restarts, lay, shareds);
      Opens(old(buffer), restarts);
      BuiltIsWellFormed(cmp, old(buffer), restarts, lay, shareds);
    }
  }

  /** The longest prefix two keys have in common. */
  predicate LongestShared(a: Key, b: Key, n: nat) {
    n <= |a| && n <= |b| && a[..n] == b[..n] && (n < |a| && n < |b| ==> a[n] != b[n])
  }

  lemma SharedFits(a: Key, b: Key, n: nat)
    requires n == 0 || LongestShared(a, b, n)
    ensures n <= |a| && n <= |b| && a[..n] == b[..n]
  {
  }

  function Multiple(r: nat, interval: nat): nat {
    r * interval
  }

  /** There is a restart point at every interval-th entry. */
  ghost predicate Spaced(lay: Layout, interval: nat, counter: nat) {
    && |lay.starts| > 0 && (forall r :: 0 <= r < |lay.starts| ==> lay.starts[r] == Multiple(r, interval))
    && |lay.entries| == lay.starts[|lay.starts| - 1] + counter && counter <= interval
    && |lay.entries| <= Multiple(|lay.starts|, interval)
  }

  lemma SpacedOn(lay: Layout, interval: nat, counter: nat, key: Key, value: bytes)
    requires Spaced(lay, interval, counter) && interval >= 1
    ensures forall end: nat :: counter < interval ==> Spaced(Grown(lay, key, value, end, false), interval, counter + 1)
    ensures forall end: nat :: counter >= interval ==> Spaced(Grown(lay, key, value, end, true), interval, 1)
  {
    var n := |lay.starts|;
    assert Multiple(n, interval) == Multiple(n - 1, interval) + interval;
    assert Multiple(n + 1, interval) == Multiple(n, interval) + interval;
  }

  lemma EntryIs(shared: nat, key: Key, value: bytes)
    requires shared <= |key|
    ensures forall b: bytes :: b + Varint(shared) + Varint(|key| - shared) + Varint(|value|) + key[shared..] + value
                               == b + EncodeEntry(shared, key, value)
  {
    hide Varint;
  }

  function FixedAll(ns: seq<nat>): bytes {
    if ns == [] then [] else FixedAll(ns[..|ns| - 1]) + Fixed(4, ns[|ns| - 1])
  }

  function Grown(lay: Layout, key: Key, value: bytes, end: nat, restart: bool): Layout {
    Layout(lay.offs + [end], lay.entries + [(key, value)], if restart then lay.starts + [|lay.entries|] else lay.starts)
  }

  ghost predicate EntryWritten(buffer: bytes, lay: Layout, shareds: seq<nat>, i: nat)
    requires i < |lay.entries| == |shareds| && |lay.offs| == |lay.entries| + 1
  {
    var (key, value) := lay.entries[i];
    && |key| < 0x1_0000_0000 && |value| < 0x1_0000_0000
    && shareds[i] <= |key| && shareds[i] <= |KeyBefore(lay, i)| && KeyBefore(lay, i)[..shareds[i]] == key[..shareds[i]]
    && lay.offs[i] + |EncodeEntry(shareds[i], key, value)| == lay.offs[i + 1] <= |buffer|
    && buffer[lay.offs[i]..lay.offs[i + 1]] == EncodeEntry(shareds[i], key, value)
  }

  /** A restart point has been noted for an entry that shares nothing; the first is noted before there are any. */
  ghost predicate StartNoted(restarts: seq<nat>, lay: Layout, shareds: seq<nat>, r: nat)
    requires r < |restarts| == |lay.starts| && |lay.offs| == |lay.entries| + 1 == |shareds| + 1
  {
    && lay.starts[r] <= |lay.entries| && restarts[r] == lay.offs[lay.starts[r]]
    && (r > 0 || lay.entries != [] ==> lay.starts[r] < |lay.entries| && shareds[lay.starts[r]] == 0)
    && (r + 1 < |restarts| ==> StartsAscend(lay, r))
  }

  /** The entry region so far, and the restart offsets noted for it. */
  ghost predicate Building(cmp: Comparator, buffer: bytes, restarts: seq<nat>, lay: Layout, shareds: seq<nat>) {
    && |lay.offs| == |lay.entries| + 1 == |shareds| + 1 && lay.offs[0] == 0 && lay.offs[|lay.entries|] == |buffer|
    && 0 < |restarts| == |lay.starts| && lay.starts[0] == 0
    && (forall i :: 0 <= i < |lay.entries| ==> EntryWritten(buffer, lay, shareds, i))
    && (forall r :: 0 <= r < |restarts| ==> StartNoted(restarts, lay, shareds, r))
    && forall i, j :: 0 <= i < j < |lay.entries| ==> Ascending(cmp, lay, i, j)
  }

  lemma Added(cmp: Comparator, buffer: bytes, restarts: seq<nat>, lay: Layout, shareds: seq<nat>,
              key: Key, value: bytes, shared: nat, restart: bool)
    requires Building(cmp, buffer, restarts, lay, shareds)
    requires |key| < 0x1_0000_0000 && |value| < 0x1_0000_0000
    requires lay.entries != [] ==> cmp(KeyBefore(lay, |lay.entries|), key) < 0
    requires var before := KeyBefore(lay, |lay.entries|); shared <= |key| && shared <= |before| && before[..shared] == key[..shared]
    requires restart ==> shared == 0 && lay.entries != []
    ensures var buffer' := buffer + EncodeEntry(shared, key, value);
            Building(cmp, buffer', if restart then restarts + [|buffer|] else restarts,
                     Grown(lay, key, value, |buffer'|, restart), shareds + [shared])
  {
    hide EncodeEntry;
    var buffer' := buffer + EncodeEntry(shared, key, value);
    var restarts' := if restart then restarts + [|buffer|] else restarts;
    var lay', shareds' := Grown(lay, key, value, |buffer'|, restart), shareds + [shared];
    var n := |lay.entries|;
    assert buffer'[|buffer|..] == EncodeEntry(shared, key, value);
    forall i | 0 <= i < |lay'.entries| ensures EntryWritten(buffer', lay', shareds', i) {
      if i < n { assert EntryWritten(buffer, lay, shareds, i) && KeyBefore(lay', i) == KeyBefore(lay, i); }
    }
    forall r | 0 <= r < |restarts'| ensures StartNoted(restarts', lay', shareds', r) {
      if r < |restarts| { assert StartNoted(restarts, lay, shareds, r); }
      if r + 1 < |restarts| { assert StartsAscend(lay, r) && StartsAscend(lay', r); }
    }
    forall i, j | 0 <= i < j < |lay'.entries| ensures Ascending(cmp, lay', i, j) {
      if j < n {
        assert Ascending(cmp, lay, i, j);
      } else {
        assert cmp(lay.entries[n - 1].0, key) < 0;
        if i < n - 1 {
          assert Ascending(cmp, lay, i, n - 1);
          Before(cmp, lay.entries[i].0, lay.entries[n - 1].0, key);
        }
      }
    }
  }

  lemma {:induction false} FixedAllAt(ns: seq<nat>, r: nat)
    requires r < |ns|
    ensures |FixedAll(ns)| == 4 * |ns| && FixedAll(ns)[4 * r..4 * r + 4] == Fixed(4, ns[r])
  {
    hide Fixed;
    var n := |ns| - 1;
    if n > 0 { FixedAllAt(ns[..n], if r < n then r else 0); }
  }

  lemma Opens(buffer: bytes, restarts: seq<nat>)
    requires 0 < |restarts| < 0xFFFF_FFFF && |buffer| < 0x1_0000_0000
    ensures OpenBlock(buffer + FixedAll(restarts) + Fixed(4, |restarts|)) == Some((|buffer|, |restarts|))
  {
    hide Fixed, FromFixed, FixedAll, OpenBlock;
    FixedAllAt(restarts, 0);
    LastBytes(buffer + FixedAll(restarts), Fixed(4, |restarts|));
    Widths();
    FixedRoundTrip(4, |restarts|);
    OpensAt(buffer + FixedAll(restarts) + Fixed(4, |restarts|), |buffer|, |restarts|);
  }

  lemma OpensAt(block: bytes, limit: nat, n: nat)
    requires |block| == limit + 4 * n + 4 && limit < 0x1_0000_0000 && n < 0xFFFF_FFFF && FromFixed(block[|block| - 4..]) == n
    ensures OpenBlock(block) == Some((limit, n))
  {
    hide FromFixed, RestartOffset;
    OffsetIs(|block|, limit, n);
  }

  lemma OffsetIs(size: nat, limit: nat, n: nat)
    requires size == limit + 4 * n + 4 && limit < 0x1_0000_0000 && n < 0xFFFF_FFFF
    ensures RestartOffset(size, n) == limit
  {
    NoWrap(1 + n);
    NoWrap(limit);
  }

  lemma LastBytes(a: bytes, b: bytes)
    requires |b| == 4
    ensures (a + b)[|a + b| - 4..] == b
  {
  }

  lemma EntryDecodes(buffer: bytes, block: bytes, lay: Layout, shareds: seq<nat>, i: nat)
    requires i < |lay.entries| == |shareds| && |lay.offs| == |lay.entries| + 1 && EntryWritten(buffer, lay, shareds, i)
    requires buffer <= block && |buffer| < 0x1_0000_0000
    ensures EntryOk(block, |buffer|, lay, i)
    ensures DecodeEntry(block, lay.offs[i], |buffer|).value.shared == shareds[i]
  {
    hide EncodeEntry, DecodeEntry;
    var (key, value) := lay.entries[i];
    assert block[lay.offs[i]..lay.offs[i + 1]] == buffer[lay.offs[i]..lay.offs[i + 1]];
    EntryRoundTrip(block, lay.offs[i], |buffer|, shareds[i], key, value);
    assert key == key[..shareds[i]] + key[shareds[i]..];
  }

  /** The restart array follows the entries in the block. */
  ghost predicate Follows(block: bytes, limit: nat, restarts: seq<nat>, r: nat)
    requires r < |restarts|
  {
    limit + 4 * r + 4 <= |block| && RestartPoint(block, limit, r) == restarts[r]
  }

  lemma ArrayFollows(buffer: bytes, restarts: seq<nat>, r: nat)
    requires r < |restarts| && restarts[r] < 0x1_0000_0000
    ensures Follows(buffer + FixedAll(restarts) + Fixed(4, |restarts|), |buffer|, restarts, r)
  {
    hide Fixed, FixedAll, RestartPoint;
    FixedAllAt(restarts, r);
    PointIs(buffer, FixedAll(restarts), Fixed(4, |restarts|), r, restarts[r]);
  }

  /** Four bytes of an array in the middle of a block, read as a restart point. */
  lemma PointIs(buffer: bytes, array_: bytes, tail: bytes, r: nat, v: nat)
    requires v < 0x1_0000_0000 && 4 * r + 4 <= |array_| && array_[4 * r..4 * r + 4] == Fixed(4, v)
    ensures RestartPoint(buffer + array_ + tail, |buffer|, r) == v
  {
    hide Fixed, FromFixed;
    MiddleOf(buffer, array_, tail, 4 * r, |buffer| + 4 * r);
    Widths();
    FixedRoundTrip(4, v);
  }

  lemma MiddleOf(a: bytes, b: bytes, c: bytes, i: nat, at: nat)
    requires i + 4 <= |b| && at == |a| + i
    ensures (a + b + c)[at..at + 4] == b[i..i + 4]
  {
  }

  lemma StartBound(cmp: Comparator, buffer: bytes, restarts: seq<nat>, lay: Layout, shareds: seq<nat>, r: nat)
    requires Building(cmp, buffer, restarts, lay, shareds) && r < |restarts|
    ensures restarts[r] <= |buffer|
  {
    hide EncodeEntry;
    assert StartNoted(restarts, lay, shareds, r);
    if lay.starts[r] < |lay.entries| {
      assert EntryWritten(buffer, lay, shareds, lay.starts[r]);
    }
  }

  lemma StartDecodes(cmp: Comparator, buffer: bytes, block: bytes, restarts: seq<nat>, lay: Layout, shareds: seq<nat>, r: nat)
    requires Building(cmp, buffer, restarts, lay, shareds) && r < |restarts|
    requires buffer <= block && |buffer| < 0x1_0000_0000 && Follows(block, |buffer|, restarts, r)
    ensures StartOk(block, |buffer|, lay, r)
  {
    hide RestartPoint, DecodeEntry, EncodeEntry, EntryOk;
    assert StartNoted(restarts, lay, shareds, r);
    if lay.starts[r] < |lay.entries| {
      assert EntryWritten(buffer, lay, shareds, lay.starts[r]);
      EntryDecodes(buffer, block, lay, shareds, lay.starts[r]);
      EntryHasHead(block, |buffer|, lay, lay.starts[r]);
    }
  }

  lemma EntryHasHead(data: bytes, limit: nat, lay: Layout, i: nat)
    requires limit <= |data| && |lay.offs| == |lay.entries| + 1 && i < |lay.entries| && EntryOk(data, limit, lay, i)
    ensures DecodeEntry(data, lay.offs[i], limit).Some?
  {
  }

  lemma BuiltIsWellFormed(cmp: Comparator, buffer: bytes, restarts: seq<nat>, lay: Layout, shareds: seq<nat>)
    requires Building(cmp, buffer, restarts, lay, shareds) && |buffer| < 0x1_0000_0000
    ensures WellFormed(cmp, buffer + FixedAll(restarts) + Fixed(4, |restarts|), |buffer|, |restarts|, lay)
  {
    var block := buffer + FixedAll(restarts) + Fixed(4, |restarts|);
    SomeRestarts(cmp, buffer, restarts, lay, shareds);
    FixedAllAt(restarts, 0);
    hide Building, Fixed, FixedAll, RestartPoint;
    forall r | 0 <= r < |restarts| ensures Follows(block, |buffer|, restarts, r) {
      StartBound(cmp, buffer, restarts, lay, shareds, r);
      ArrayFollows(buffer, restarts, r);
    }
    ReadsBack(cmp, buffer, block, restarts, lay, shareds);
  }

  lemma ReadsBack(cmp: Comparator, buffer: bytes, block: bytes, restarts: seq<nat>, lay: Layout, shareds: seq<nat>)
    requires Building(cmp, buffer, restarts, lay, shareds)
    requires buffer <= block && |buffer| < 0x1_0000_0000 && |buffer| + 4 * |restarts| <= |block|
    requires forall r :: 0 <= r < |restarts| ==> Follows(block, |buffer|, restarts, r)
    ensures WellFormed(cmp, block, |buffer|, |restarts|, lay)
  {
    hide EncodeEntry, DecodeEntry, EntryWritten, StartNoted, EntryOk, StartOk, StartsAscend, Ascending, Follows;
    forall i | 0 <= i < |lay.entries| ensures EntryOk(block, |buffer|, lay, i) {
      assert EntryWritten(buffer, lay, shareds, i);
      EntryDecodes(buffer, block, lay, shareds, i);
    }
    forall r | 0 <= r < |restarts| ensures StartOk(block, |buffer|, lay, r) {
      assert Follows(block, |buffer|, restarts, r);
      StartDecodes(cmp, buffer, block, restarts, lay, shareds, r);
    }
    forall r | 0 <= r < |restarts| - 1 ensures StartsAscend(lay, r) {
      assert StartNoted(restarts, lay, shareds, r);
      NotedAscends(restarts, lay, shareds, r);
    }
  }

  lemma NotedAscends(restarts: seq<nat>, lay: Layout, shareds: seq<nat>, r: nat)
    requires r + 1 < |restarts| == |lay.starts| && |lay.offs| == |lay.entries| + 1 == |shareds| + 1
    requires StartNoted(restarts, lay, shareds, r)
    ensures StartsAscend(lay, r)
  {
  }

  /** Every entry takes three bytes or more. */
  lemma {:induction false} EntriesTakeRoom(cmp: Comparator, buffer: bytes, restarts: seq<nat>, lay: Layout, shareds: seq<nat>, n: nat)
    requires Building(cmp, buffer, restarts, lay, shareds) && n <= |lay.entries|
    ensures 3 * n <= lay.offs[n]
  {
    if n > 0 {
      EntriesTakeRoom(cmp, buffer, restarts, lay, shareds, n - 1);
      assert EntryWritten(buffer, lay, shareds, n - 1);
    }
  }

  lemma {:induction false} StartsAreApart(cmp: Comparator, buffer: bytes, restarts: seq<nat>, lay: Layout, shareds: seq<nat>, r: nat)
    requires Building(cmp, buffer, restarts, lay, shareds) && r < |restarts|
    ensures r <= lay.starts[r]
  {
    if r > 0 {
      StartsAreApart(cmp, buffer, restarts, lay, shareds, r - 1);
      assert StartNoted(restarts, lay, shareds, r - 1);
      assert StartsAscend(lay, r - 1);
    }
  }

  /** There is a restart point, and no more of them than entries or than a third of the bytes. */
  lemma FewRestarts(cmp: Comparator, buffer: bytes, restarts: seq<nat>, lay: Layout, shareds: seq<nat>)
    requires Building(cmp, buffer, restarts, lay, shareds)
    ensures 0 < |restarts| && 3 * (|restarts| - 1) <= |buffer|
  {
    SomeRestarts(cmp, buffer, restarts, lay, shareds);
    var r := |restarts| - 1;
    StartsAreApart(cmp, buffer, restarts, lay, shareds, r);
    assert StartNoted(restarts, lay, shareds, r);
    EntriesTakeRoom(cmp, buffer, restarts, lay, shareds, |lay.entries|);
  }

  lemma SomeRestarts(cmp: Comparator, buffer: bytes, restarts: seq<nat>, lay: Layout, shareds: seq<nat>)
    requires Building(cmp, buffer, restarts, lay, shareds)
    ensures |restarts| > 0
  {
  }
}
