/** The layout of a table block (table/block.cc, table/block_builder.cc): prefix-compressed entries and restart points. */
module BlockFormat {
  import opened Wrappers
  import opened UserKeys
  import opened Coding

  /** The three lengths in front of an entry, and where its key delta begins. */
  datatype Head = Head(shared: nat, nonShared: nat, valueLength: nat, body: nat)

  /** Three varints in a row, at the front of a slice that starts at offset p. */
  function ThreeVarints(s: bytes, p: nat): Option<Head> {
    match GetVarint32(s)
    case None => None
    case Some((shared, s1)) =>
      match GetVarint32(s1)
      case None => None
      case Some((nonShared, s2)) =>
        match GetVarint32(s2)
        case None => None
        case Some((valueLength, s3)) => Some(Head(shared, nonShared, valueLength, p + |s| - |s3|))
  }

  /** The code's size check: both the room and the two lengths' sum go through a uint32. */
  predicate Accepts(head: Head, limit: nat) {
    (limit - head.body) % 0x1_0000_0000 >= (head.nonShared + head.valueLength) % 0x1_0000_0000
  }

  function Fitting(head: Option<Head>, limit: nat): Option<Head> {
    if head.Some? && Accepts(head.value, limit) then head else None
  }

  /** The key delta and the value end at or before the limit. */
  predicate Inside(head: Head, limit: nat) {
    head.body + head.nonShared + head.valueLength <= limit
  }

  /** DecodeEntry: with a fast path for the case that each length takes one byte. */
  function DecodeEntry(data: bytes, p: nat, limit: nat): (head: Option<Head>)
    requires limit <= |data|
    ensures head.Some? ==> p + 3 <= head.value.body <= limit && Accepts(head.value, limit)
  {
    if p + 3 > limit then None
    else
      var s := data[p..limit];
      if s[0] < 128 && s[1] < 128 && s[2] < 128 then Fitting(Some(Head(s[0], s[1], s[2], p + 3)), limit)
      else
        VarintsAreLong(s);
        Fitting(ThreeVarints(s, p), limit)
  }

  /** The fast path decodes what three varints would. */
  lemma FastPathIsExact(data: bytes, p: nat, limit: nat)
    requires limit <= |data| && p + 3 <= limit
    ensures DecodeEntry(data, p, limit) == Fitting(ThreeVarints(data[p..limit], p), limit)
  {
    var s := data[p..limit];
    if s[0] < 128 && s[1] < 128 && s[2] < 128 {
      OneByte(s);
      OneByte(s[1..]);
      OneByte(s[2..]);
      assert s[1..][1..] == s[2..] && s[2..][1..] == s[3..];
    }
  }

  lemma OneByte(s: bytes)
    requires s != [] && s[0] < 128
    ensures GetVarint32(s) == Some((s[0], s[1..]))
  {
  }

  lemma VarintsAreLong(s: bytes)
    ensures var head := ThreeVarints(s, 0); head.Some? ==> head.value.body >= 3
    ensures forall p: nat :: ThreeVarints(s, p).Some? ==> p + 3 <= ThreeVarints(s, p).value.body <= p + |s|
  {
  }

  /** In a block under 4 GiB, an accepted entry stays inside exactly when its two lengths' sum does not wrap. */
  lemma AcceptedStaysInside(data: bytes, p: nat, limit: nat)
    requires limit <= |data| && limit < 0x1_0000_0000 && DecodeEntry(data, p, limit).Some?
    ensures var head := DecodeEntry(data, p, limit).value;
            Inside(head, limit) <==> head.nonShared + head.valueLength < 0x1_0000_0000
  {
    hide DecodeEntry;
    var head := DecodeEntry(data, p, limit).value;
    NoWrap(limit - head.body);
    if head.nonShared + head.valueLength < 0x1_0000_0000 { NoWrap(head.nonShared + head.valueLength); }
  }

  lemma NoWrap(n: nat)
    requires n < 0x1_0000_0000
    ensures n % 0x1_0000_0000 == n
  {
  }

  /** Seven bytes that the check lets through although their key delta would end 4 GiB past them. */
  lemma WrappedSumIsAccepted()
    ensures var s := [0, 255, 255, 255, 255, 15, 1];
            && DecodeEntry(s, 0, 7) == Some(Head(0, 0xFFFF_FFFF, 1, 7))
            && !Inside(DecodeEntry(s, 0, 7).value, 7)
  {
    hide DecodeEntry, GetVarint32, Varint;
    var s: bytes := [0, 255, 255, 255, 255, 15, 1];
    OneByte(s);
    OneByte([1]);
    LargestVarint();
    assert s[1..] == Varint(0xFFFF_FFFF) + [1];
    Varint32RoundTrip(0xFFFF_FFFF, [1]);
    assert s[0..7] == s;
    FastPathIsExact(s, 0, 7);
  }

  lemma LargestVarint()
    ensures Varint(0xFFFF_FFFF) == [255, 255, 255, 255, 15]
  {
    assert Varint(0xFFFF_FFFF) == [255] + Varint(0x1FF_FFFF);
    assert Varint(0x1FF_FFFF) == [255] + Varint(0x3_FFFF);
    assert Varint(0x3_FFFF) == [255] + Varint(0x7FF);
    assert Varint(0x7FF) == [255] + Varint(15);
  }

  // ----- One parsing step -----

  /** What stands at an offset: nothing more, a bad entry, one whose lengths lead out of the block, or a good one. */
  datatype Found = Nothing | Bad | Overrun | Entry(head: Head)

  function EntryAt(data: bytes, p: nat, limit: nat, keyLength: nat): (found: Found)
    requires limit <= |data|
    ensures found.Entry? ==> p + 3 <= found.head.body && Inside(found.head, limit) && found.head.shared <= keyLength
  {
    if p >= limit then Nothing
    else
      var head := DecodeEntry(data, p, limit);
      if head.None? || keyLength < head.value.shared then Bad
      else if Inside(head.value, limit) then Entry(head.value)
      else Overrun
  }

  /** Lengths lead out of a block under 4 GiB exactly when an entry in its place has a sum of 2^32 or more. */
  lemma OverrunIsWrap(data: bytes, p: nat, limit: nat, keyLength: nat)
    requires limit <= |data| && limit < 0x1_0000_0000
    ensures EntryAt(data, p, limit, keyLength) == Overrun <==>
            var head := DecodeEntry(data, p, limit);
            && head.Some? && head.value.shared <= keyLength
            && head.value.nonShared + head.value.valueLength >= 0x1_0000_0000
  {
    hide DecodeEntry, Inside;
    if DecodeEntry(data, p, limit).Some? { AcceptedStaysInside(data, p, limit); }
  }

  function EncodeEntry(shared: nat, key: Key, value: bytes): bytes
    requires shared <= |key|
  {
    Varint(shared) + Varint(|key| - shared) + Varint(|value|) + key[shared..] + value
  }

  lemma EncodedParts(shared: nat, key: Key, value: bytes, tail: bytes)
    requires shared <= |key|
    ensures var e := EncodeEntry(shared, key, value);
            var body := |e| - |value| - (|key| - shared);
            && body == |Varint(shared)| + |Varint(|key| - shared)| + |Varint(|value|)|
            && e[body..body + |key| - shared] == key[shared..] && e[body + |key| - shared..] == value
            && e + tail == Varint(shared) + (Varint(|key| - shared) + (Varint(|value|) + (key[shared..] + value + tail)))
  {
    hide Varint;
  }

  /** An encoded entry in a block decodes to its lengths, and its delta and value lie behind them. */
  lemma EntryRoundTrip(data: bytes, p: nat, limit: nat, shared: nat, key: Key, value: bytes)
    requires shared <= |key| < 0x1_0000_0000 && limit < 0x1_0000_0000
    requires p + |EncodeEntry(shared, key, value)| <= limit <= |data|
    requires data[p..p + |EncodeEntry(shared, key, value)|] == EncodeEntry(shared, key, value)
    ensures var e := p + |EncodeEntry(shared, key, value)|;
            var body := e - |value| - (|key| - shared);
            && DecodeEntry(data, p, limit) == Some(Head(shared, |key| - shared, |value|, body))
            && Inside(Head(shared, |key| - shared, |value|, body), limit)
            && data[body..body + |key| - shared] == key[shared..]
            && data[body + |key| - shared..e] == value
  {
    hide EncodeEntry, DecodeEntry, ThreeVarints, Varint;
    var encoded := EncodeEntry(shared, key, value);
    var e := p + |encoded|;
    var body := e - |value| - (|key| - shared);
    EncodedParts(shared, key, value, data[e..limit]);
    SliceOfSlice(data, p, limit, 0, e - p);
    SliceOfSlice(data, p, limit, e - p, limit - p);
    assert data[p..limit] == encoded + data[e..limit];
    FastPathIsExact(data, p, limit);
    LengthsRoundTrip(shared, |key| - shared, |value|, key[shared..] + value + data[e..limit], p);
    SliceOfSlice(data, p, e, body - p, body + |key| - shared - p);
    SliceOfSlice(data, p, e, body + |key| - shared - p, e - p);
  }

  lemma LengthsRoundTrip(shared: nat, nonShared: nat, valueLength: nat, rest: bytes, p: nat)
    requires shared < 0x1_0000_0000 && nonShared < 0x1_0000_0000 && valueLength < 0x1_0000_0000
    ensures ThreeVarints(Varint(shared) + (Varint(nonShared) + (Varint(valueLength) + rest)), p)
            == Some(Head(shared, nonShared, valueLength,
                         p + |Varint(shared)| + |Varint(nonShared)| + |Varint(valueLength)|))
  {
    hide Varint, GetVarint32;
    Varint32RoundTrip(shared, Varint(nonShared) + (Varint(valueLength) + rest));
    Varint32RoundTrip(nonShared, Varint(valueLength) + rest);
    Varint32RoundTrip(valueLength, rest);
  }

  // ----- A block as the list it stands for -----

  /**
   * Entry i occupies offs[i] up to offs[i + 1]; restart point r is the offset of entry starts[r].
   */
  datatype Layout = Layout(offs: seq<nat>, entries: seq<(Key, bytes)>, starts: seq<nat>)

  /** The key before entry i, of which its own may share a prefix. */
  function KeyBefore(lay: Layout, i: nat): Key
    requires i <= |lay.entries|
  {
    if i == 0 then [] else lay.entries[i - 1].0
  }

  ghost predicate EntryOk(data: bytes, limit: nat, lay: Layout, i: nat)
    requires limit <= |data| && |lay.offs| == |lay.entries| + 1 && i < |lay.entries|
  {
    var head := DecodeEntry(data, lay.offs[i], limit);
    && head.Some? && Inside(head.value, limit) && head.value.shared <= |KeyBefore(lay, i)|
    && var middle := head.value.body + head.value.nonShared;
       && lay.entries[i].0 == KeyBefore(lay, i)[..head.value.shared] + data[head.value.body..middle]
       && lay.entries[i].1 == data[middle..middle + head.value.valueLength]
       && lay.offs[i + 1] == middle + head.value.valueLength
  }

  function RestartPoint(data: bytes, limit: nat, r: nat): nat
    requires limit + 4 * r + 4 <= |data|
  {
    FromFixed(data[limit + 4 * r..limit + 4 * r + 4])
  }

  ghost predicate StartOk(data: bytes, limit: nat, lay: Layout, r: nat)
    requires limit + 4 * r + 4 <= |data| && r < |lay.starts| && |lay.offs| == |lay.entries| + 1
  {
    && lay.starts[r] < |lay.offs| && RestartPoint(data, limit, r) == lay.offs[lay.starts[r]]
    && (lay.entries != [] ==>
          && lay.starts[r] < |lay.entries|
          && DecodeEntry(data, lay.offs[lay.starts[r]], limit).Some?
          && DecodeEntry(data, lay.offs[lay.starts[r]], limit).value.shared == 0)
  }

  ghost predicate StartsAscend(lay: Layout, r: nat)
    requires r + 1 < |lay.starts|
  {
    lay.starts[r] < lay.starts[r + 1]
  }

  ghost predicate Ascending(cmp: Comparator, lay: Layout, i: nat, j: nat)
    requires i < j < |lay.entries|
  {
    cmp(lay.entries[i].0, lay.entries[j].0) < 0
  }

  /** The block's bytes are those of this list, in key order, with its restart array at limit. */
  ghost predicate WellFormed(cmp: Comparator, data: bytes, limit: nat, restarts: nat, lay: Layout) {
    && 0 < restarts == |lay.starts| && limit + 4 * restarts <= |data|
    && |lay.offs| == |lay.entries| + 1 && lay.offs[0] == 0 && lay.offs[|lay.entries|] == limit
    && (forall i :: 0 <= i < |lay.entries| ==> EntryOk(data, limit, lay, i))
    && lay.starts[0] == 0
    && (forall r :: 0 <= r < restarts ==> StartOk(data, limit, lay, r))
    && (forall r :: 0 <= r < restarts - 1 ==> StartsAscend(lay, r))
    && (forall i, j :: 0 <= i < j < |lay.entries| ==> Ascending(cmp, lay, i, j))
  }

  /** Offsets ascend. */
  lemma {:induction false} OffsetsAscend(cmp: Comparator, data: bytes, limit: nat, restarts: nat, lay: Layout, i: nat, j: nat)
    requires WellFormed(cmp, data, limit, restarts, lay) && i <= j <= |lay.entries|
    ensures lay.offs[i] + 3 * (j - i) <= lay.offs[j]
    decreases j
  {
    if i < j {
      OffsetsAscend(cmp, data, limit, restarts, lay, i, j - 1);
      assert EntryOk(data, limit, lay, j - 1);
    }
  }

  lemma {:induction false} SamePrefix(cmp: Comparator, data: bytes, limit: nat, restarts: nat, a: Layout, b: Layout, i: nat)
    requires WellFormed(cmp, data, limit, restarts, a) && WellFormed(cmp, data, limit, restarts, b)
    requires i <= |a.entries| && i <= |b.entries|
    ensures a.offs[i] == b.offs[i] && a.entries[..i] == b.entries[..i]
  {
    hide DecodeEntry;
    if i > 0 {
      SamePrefix(cmp, data, limit, restarts, a, b, i - 1);
      assert EntryOk(data, limit, a, i - 1) && EntryOk(data, limit, b, i - 1);
      assert i > 1 ==> a.entries[i - 2] == a.entries[..i - 1][i - 2] == b.entries[i - 2];
      assert a.entries[..i] == a.entries[..i - 1] + [a.entries[i - 1]];
      assert b.entries[..i] == b.entries[..i - 1] + [b.entries[i - 1]];
    }
  }

  /** A block's bytes determine the list it stands for. */
  lemma ListIsDetermined(cmp: Comparator, data: bytes, limit: nat, restarts: nat, a: Layout, b: Layout)
    requires WellFormed(cmp, data, limit, restarts, a) && WellFormed(cmp, data, limit, restarts, b)
    ensures a.entries == b.entries
  {
    hide EntryOk, StartOk, StartsAscend, Ascending;
    var n := if |a.entries| < |b.entries| then |a.entries| else |b.entries|;
    SamePrefix(cmp, data, limit, restarts, a, b, n);
    OffsetsAscend(cmp, data, limit, restarts, a, n, |a.entries|);
    OffsetsAscend(cmp, data, limit, restarts, b, n, |b.entries|);
    assert a.entries[..n] == a.entries && b.entries[..n] == b.entries;
  }

  /** The Block constructor: where the restart array begins and how long it is, unless the contents cannot be a block. */
  function OpenBlock(contents: bytes): (r: Option<(nat, nat)>)
    ensures r.None? <==> |contents| < 4 || 4 * FromFixed(contents[|contents| - 4..]) + 4 > |contents|
    ensures r.Some? ==> r.value.1 == FromFixed(contents[|contents| - 4..])
    ensures r.Some? && |contents| < 0x1_0000_0000 ==> r.value.0 + 4 * r.value.1 + 4 == |contents|
    ensures r.Some? ==> r.value.0 < 0x1_0000_0000 && r.value.0 + 4 * r.value.1 <= |contents|
  {
    if |contents| < 4 then None
    else
      var restarts := FromFixed(contents[|contents| - 4..]);
      if restarts > (|contents| - 4) / 4 then None else Some((RestartOffset(|contents|, restarts), restarts))
  }

  /** The restart array's offset; both the count of words behind it and the offset itself are uint32. */
  function RestartOffset(size: nat, restarts: nat): (offset: nat)
    requires 4 * restarts + 4 <= size
    ensures offset < 0x1_0000_0000
    ensures restarts < 0x1_0000_0000 ==> offset + 4 * restarts <= size
    ensures size < 0x1_0000_0000 ==> offset + 4 * restarts + 4 == size
  {
    var words := (1 + restarts) % 0x1_0000_0000;
    (size - words * 4) % 0x1_0000_0000
  }
}
