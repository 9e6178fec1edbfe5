/** The block iterator (table/block.cc): a cursor over prefix-compressed entries with restart points. */
module BlockIter {
  import opened Wrappers
  import opened UserKeys
  import opened Coding
  import opened BlockFormat

  class Iter {
    const cmp: Comparator
    const data: bytes
    const restarts: nat          // where the restart array begins, right after the entries; a uint32
    const numRestarts: nat
    var current: nat             // offset of the current entry; at or past restarts when not valid
    var restartIndex: nat        // the restart block current falls in
    var key: Key
    var valueAt: nat             // the value's place in data
    var valueLength: nat
    var corrupted: bool
    var overran: bool            // a check let lengths through that lead out of the block; the model stops there
    ghost const lay: Layout      // what the block says, if it is well formed
    ghost var at: nat            // the current entry's index

    /** What holds of any block, however garbled. */
    ghost predicate Basic()
      reads this
    {
      && 0 < numRestarts && restarts < 0x1_0000_0000 && restarts + 4 * numRestarts <= |data|
      && (Valid() ==> restartIndex < numRestarts)
    }

    ghost predicate Good()
    {
      WellFormed(cmp, data, restarts, numRestarts, lay)
    }

    /** The iterator shows entry at, and its restart index brackets it; past the last entry it is not valid. */
    ghost predicate Positioned()
      reads this
      requires Good()
    {
      && at <= |lay.entries| && (current < restarts <==> at < |lay.entries|)
      && !corrupted && !overran
      && (at < |lay.entries| ==>
            && current == lay.offs[at] && key == lay.entries[at].0
            && valueAt + valueLength == lay.offs[at + 1] && valueAt <= valueAt + valueLength <= |data|
            && data[valueAt..valueAt + valueLength] == lay.entries[at].1
            && Brackets(lay, restartIndex, at))
    }

    constructor (cmp: Comparator, data: bytes, restarts: nat, numRestarts: nat, ghost lay: Layout)
      requires 0 < numRestarts && restarts < 0x1_0000_0000 && restarts + 4 * numRestarts <= |data|
      ensures Basic() && this.cmp == cmp && this.data == data && this.restarts == restarts && this.numRestarts == numRestarts
      ensures this.lay == lay && !Valid() && !corrupted && !overran
      ensures Good() ==> Positioned()
    {
      this.cmp, this.data, this.restarts, this.numRestarts := cmp, data, restarts, numRestarts;
      this.lay := lay;
      current, restartIndex, key, valueAt, valueLength := restarts, numRestarts, [], 0, 0;
      corrupted, overran := false, false;
      at := |lay.entries|;
    }

    predicate Valid()
      reads this
    {
      current < restarts
    }

    function NextEntryOffset(): nat
      reads this
    {
      valueAt + valueLength
    }

    function GetRestartPoint(index: nat): nat
      requires index < numRestarts && restarts + 4 * numRestarts <= |data|
    {
      RestartPoint(data, restarts, index)
    }

    /** The next parse decodes entry i: the key holds what it shares, and the restart index is not past it. */
    ghost predicate Primed(i: nat)
      reads this
      requires Good()
    {
      && i <= |lay.entries| && NextEntryOffset() == lay.offs[i] && !corrupted && !overran
      && restartIndex < numRestarts && lay.starts[restartIndex] <= i
      && (restartIndex + 1 < numRestarts ==> i <= lay.starts[restartIndex + 1] + 1)
      && (key == KeyBefore(lay, i) || lay.starts[restartIndex] == i)
    }

    method SeekToRestartPoint(index: nat)
      requires Basic() && index < numRestarts
      modifies this`key, this`restartIndex, this`valueAt, this`valueLength
      ensures Basic() && restartIndex == index && valueLength == 0
      ensures Good() && !corrupted && !overran ==> Primed(lay.starts[index])
    {
      key := [];
      restartIndex := index;
      var offset := GetRestartPoint(index);
      valueAt, valueLength := offset, 0;
      if Good() { StartsInRange(cmp, data, restarts, numRestarts, lay, index); }
    }

    method CorruptionError()
      modifies this
      ensures !Valid() && corrupted && overran == old(overran)
    {
      current, restartIndex, corrupted := restarts, numRestarts, true;
      key, valueAt, valueLength := [], 0, 0;
    }

    /** Where the code goes on with memory outside the block. */
    method Stop()
      modifies this
      ensures !Valid() && overran && corrupted == old(corrupted)
    {
      current, restartIndex, overran := restarts, numRestarts, true;
      key, valueAt, valueLength := [], 0, 0;
    }

    /**
     * Steps to the entry at the end of the last value. In any block the outcome is told by the bytes there;
     * in a well-formed one that is entry i, or there is none.
     */
    method ParseNextKey(ghost i: nat) returns (ok: bool)
      requires Basic() && restartIndex < numRestarts && (Good() ==> Primed(i))
      modifies this
      ensures Basic() && ok == Valid()
      ensures ok ==> current == old(NextEntryOffset()) && current < NextEntryOffset() <= restarts
      ensures old(corrupted) ==> corrupted
      ensures old(overran) ==> overran
      ensures var found := EntryAt(data, old(NextEntryOffset()), restarts, |old(key)|);
              && (ok <==> found.Entry?)
              && (corrupted <==> old(corrupted) || found.Bad?)
              && (overran <==> old(overran) || found.Overrun?)
              && (ok ==> Shows(old(NextEntryOffset()), old(key), found.head))
      ensures Good() ==> Positioned() && at == i && (ok <==> i < |lay.entries|)
    {
      hide DecodeEntry, EntryOk, StartOk, StartsAscend;
      current := NextEntryOffset();
      at := i;
      if Good() { OffsetsAscend(cmp, data, restarts, numRestarts, lay, i, |lay.entries|); }
      if current >= restarts {
        current := restarts;
        restartIndex := numRestarts;
        return false;
      }
      var head := DecodeEntry(data, current, restarts);
      if Good() { ParsedEntry(cmp, data, restarts, numRestarts, lay, i, restartIndex, key); }
      if head.None? || |key| < head.value.shared {
        CorruptionError();
        return false;
      }
      if !Inside(head.value, restarts) {
        Stop();
        return false;
      }
      var Head(shared, nonShared, length, body) := head.value;
      key := key[..shared] + data[body..body + nonShared];
      valueAt, valueLength := body + nonShared, length;
      AdvanceRestartIndex(i);
      return true;
    }

    /** The entry at offset p is current: its key completed from the one before, its value inside the block. */
    ghost predicate Shows(p: nat, before: Key, head: Head)
      reads this
    {
      && current == p < head.body && Inside(head, restarts) && restarts <= |data| && head.shared <= |before|
      && key == before[..head.shared] + data[head.body..head.body + head.nonShared]
      && valueAt == head.body + head.nonShared && valueLength == head.valueLength
    }

    method AdvanceRestartIndex(ghost i: nat)
      requires Basic() && Valid()
      requires Good() ==>
                 && i < |lay.entries| && current == lay.offs[i] && lay.starts[restartIndex] <= i
                 && (restartIndex + 1 < numRestarts ==> i <= lay.starts[restartIndex + 1] + 1)
      modifies this`restartIndex
      ensures Basic() && (Good() ==> Brackets(lay, restartIndex, i))
    {
      while restartIndex + 1 < numRestarts && GetRestartPoint(restartIndex + 1) < current
        invariant restartIndex < numRestarts
        invariant Good() ==> lay.starts[restartIndex] <= i
                             && (restartIndex + 1 < numRestarts ==> i <= lay.starts[restartIndex + 1] + 1)
        decreases numRestarts - restartIndex
      {
        if Good() { PointOrder(cmp, data, restarts, numRestarts, lay, restartIndex + 1, i); }
        restartIndex := restartIndex + 1;
      }
      if Good() && restartIndex + 1 < numRestarts {
        PointOrder(cmp, data, restarts, numRestarts, lay, restartIndex + 1, i);
      }
    }

    /** The current value lies in the block, and in a well-formed block the iterator is a cursor over its entries. */
    ghost predicate OnList()
      reads this
    {
      Basic() && (Valid() ==> current < NextEntryOffset() <= restarts) && (Good() ==> Positioned())
    }

    lemma NextIsPrimed()
      requires OnList() && Good() && Valid()
      ensures Primed(at + 1)
    {
    }

    method Next()
      requires OnList() && Valid()
      modifies this
      ensures OnList() && (Good() ==> at == old(at) + 1)
    {
      if Good() { NextIsPrimed(); }
      var _ := ParseNextKey(at + 1);
    }

    method SeekToFirst()
      requires OnList()
      modifies this
      ensures OnList() && (Good() ==> at == 0)
    {
      SeekToRestartPoint(0);
      var _ := ParseNextKey(0);
    }

    method SeekToLast()
      requires OnList()
      modifies this
      ensures OnList() && (Good() ==> at == if lay.entries == [] then 0 else |lay.entries| - 1)
    {
      hide DecodeEntry, Brackets, EntryOk, StartOk, StartsAscend, EntryAt, Shows, Inside;
      SeekToRestartPoint(numRestarts - 1);
      ghost var i: nat := if Good() then lay.starts[numRestarts - 1] else 0;
      if Good() { StartsInRange(cmp, data, restarts, numRestarts, lay, numRestarts - 1); }
      while true
        invariant Basic() && restartIndex < numRestarts && (Good() ==> Primed(i) && (lay.entries == [] || i < |lay.entries|))
        decreases restarts - NextEntryOffset()
      {
        var ok := ParseNextKey(i);
        if !ok { break; }
        if Good() {
          OffsetsAscend(cmp, data, restarts, numRestarts, lay, i + 1, |lay.entries|);
          LastOffset(cmp, data, restarts, numRestarts, lay);
        }
        if NextEntryOffset() >= restarts { break; }
        if Good() { NextIsPrimed(); }
        i := i + 1;
      }
    }

    /** Goes back to a restart point before the current entry, and forward from there to the entry before it. */
    method Prev()
      requires OnList() && Valid()
      modifies this
      ensures OnList() && (Good() ==> at == if old(at) == 0 then |lay.entries| else old(at) - 1)
    {
      hide DecodeEntry, EntryOk, StartOk, StartsAscend, EntryAt, Shows, Inside;
      var original := current;
      ghost var was := at;
      while GetRestartPoint(restartIndex) >= original
        invariant Basic() && Valid() && current == original && at == was && restartIndex < numRestarts
        invariant Good() ==> !corrupted && !overran && was < |lay.entries| && original == lay.offs[was]
        invariant Good() ==> restartIndex + 1 < numRestarts ==> was <= lay.starts[restartIndex + 1]
        decreases restartIndex
      {
        if Good() { PointOrder(cmp, data, restarts, numRestarts, lay, restartIndex, was); }
        if restartIndex == 0 {
          current := restarts;
          restartIndex := numRestarts;
          if Good() {
            FirstPoint(cmp, data, restarts, numRestarts, lay);
            at := |lay.entries|;
          }
          return;
        }
        restartIndex := restartIndex - 1;
      }
      if Good() { PointOrder(cmp, data, restarts, numRestarts, lay, restartIndex, was); }
      SeekToRestartPoint(restartIndex);
      ghost var i: nat := if Good() then lay.starts[restartIndex] else 0;
      while true
        invariant Basic() && restartIndex < numRestarts && (Good() ==> Primed(i) && i < was < |lay.entries|)
        decreases restarts - NextEntryOffset()
      {
        var ok := ParseNextKey(i);
        if !ok { break; }
        if Good() { OffsetOrder(cmp, data, restarts, numRestarts, lay, i + 1, was); }
        if NextEntryOffset() >= original { break; }
        if Good() { NextIsPrimed(); }
        i := i + 1;
      }
    }

    /** Binary search over the restart points, then a scan: the first entry at or after target. */
    method Seek(target: Key)
      requires OnList()
      modifies this
      ensures OnList() && (Good() ==> at == LowerBound(cmp, lay.entries, target))
      ensures Valid() ==> cmp(key, target) >= 0
      ensures (old(corrupted) ==> corrupted) && (old(overran) ==> overran)
    {
      hide DecodeEntry, EntryOk, StartOk, StartsAscend, Ascending, EntryAt, Shows;
      var left := 0;
      var right := numRestarts - 1;
      while left < right
        invariant OnList() && 0 <= left <= right < numRestarts && corrupted == old(corrupted) && overran == old(overran)
        invariant Good() ==> Bounds(cmp, lay, target, left, right)
        decreases right - left
      {
        var mid := (left + right + 1) / 2;
        var regionOffset := GetRestartPoint(mid);
        var head := DecodeEntry(data, regionOffset, restarts);
        if Good() { MidKey(cmp, data, restarts, numRestarts, lay, mid); }
        if head.None? || head.value.shared != 0 {
          CorruptionError();
          return;
        }
        if head.value.body + head.value.nonShared > restarts {
          Stop();
          return;
        }
        var midKey := data[head.value.body..head.value.body + head.value.nonShared];
        if cmp(midKey, target) < 0 {
          left := mid;
        } else {
          right := mid - 1;
        }
      }
      SeekToRestartPoint(left);
      ghost var i: nat := if Good() then lay.starts[left] else 0;
      if Good() { BeforeBlock(cmp, data, restarts, numRestarts, lay, target, left); }
      while true
        invariant Basic() && restartIndex < numRestarts && (old(corrupted) ==> corrupted) && (old(overran) ==> overran)
        invariant Good() ==> Primed(i) && AllBefore(cmp, lay, target, i)
        decreases restarts - NextEntryOffset()
      {
        var ok := ParseNextKey(i);
        if Good() && (!ok || cmp(key, target) >= 0) {
          FoundBound(cmp, data, restarts, numRestarts, lay, target, i);
        }
        if !ok { return; }
        if cmp(key, target) >= 0 { return; }
        if Good() { NextIsPrimed(); OneMoreBefore(cmp, lay, target, i); }
        i := i + 1;
      }
    }
  }

  /** The binary search: the block at left starts before the target (or is the first), the one after right does not. */
  ghost predicate Bounds(cmp: Comparator, lay: Layout, target: Key, left: nat, right: nat) {
    && left <= right < |lay.starts|
    && (left > 0 ==> lay.starts[left] < |lay.entries| && cmp(lay.entries[lay.starts[left]].0, target) < 0)
    && (right + 1 < |lay.starts| ==>
          lay.starts[right + 1] < |lay.entries| && cmp(lay.entries[lay.starts[right + 1]].0, target) >= 0)
  }

  ghost predicate AllBefore(cmp: Comparator, lay: Layout, target: Key, n: nat) {
    n <= |lay.entries| && forall i :: 0 <= i < n ==> BeforeAt(cmp, lay, target, i)
  }

  ghost predicate BeforeAt(cmp: Comparator, lay: Layout, target: Key, i: nat)
    requires i < |lay.entries|
  {
    cmp(lay.entries[i].0, target) < 0
  }

  lemma OneMoreBefore(cmp: Comparator, lay: Layout, target: Key, n: nat)
    requires AllBefore(cmp, lay, target, n) && n < |lay.entries| && cmp(lay.entries[n].0, target) < 0
    ensures AllBefore(cmp, lay, target, n + 1)
  {
    forall i | 0 <= i < n + 1 ensures BeforeAt(cmp, lay, target, i) {
      assert i < n ==> BeforeAt(cmp, lay, target, i);
    }
  }

  /** The whole key of a restart entry lies in its delta. */
  lemma MidKey(cmp: Comparator, data: bytes, limit: nat, restarts: nat, lay: Layout, r: nat)
    requires WellFormed(cmp, data, limit, restarts, lay) && 0 < r < restarts
    ensures lay.starts[r] < |lay.entries|
    ensures var head := DecodeEntry(data, RestartPoint(data, limit, r), limit);
            && head.Some? && head.value.shared == 0 && Inside(head.value, limit)
            && data[head.value.body..head.value.body + head.value.nonShared] == lay.entries[lay.starts[r]].0
  {
    hide DecodeEntry, RestartPoint;
    assert StartOk(data, limit, lay, r) && StartsAscend(lay, r - 1) && StartOk(data, limit, lay, r - 1);
    assert EntryOk(data, limit, lay, lay.starts[r]);
    assert KeyBefore(lay, lay.starts[r])[..0] == [];
  }

  /** Every entry before the chosen restart block comes before the target. */
  lemma BeforeBlock(cmp: Comparator, data: bytes, limit: nat, restarts: nat, lay: Layout, target: Key, left: nat)
    requires WellFormed(cmp, data, limit, restarts, lay) && Bounds(cmp, lay, target, left, left)
    ensures AllBefore(cmp, lay, target, lay.starts[left])
  {
    StartsInRange(cmp, data, limit, restarts, lay, left);
    var s := lay.starts[left];
    forall i | 0 <= i < s ensures BeforeAt(cmp, lay, target, i) {
      assert Ascending(cmp, lay, i, s);
      Before(cmp, lay.entries[i].0, lay.entries[s].0, target);
    }
  }

  /** The scan ends at the lower bound. */
  lemma FoundBound(cmp: Comparator, data: bytes, limit: nat, restarts: nat, lay: Layout, target: Key, n: nat)
    requires WellFormed(cmp, data, limit, restarts, lay) && AllBefore(cmp, lay, target, n)
    requires n < |lay.entries| ==> cmp(lay.entries[n].0, target) >= 0
    ensures LowerBound(cmp, lay.entries, target) == n
  {
    forall i | 0 <= i < n ensures cmp(lay.entries[i].0, target) < 0 {
      assert BeforeAt(cmp, lay, target, i);
    }
  }

  /** The restart block of an entry: it starts at or before the entry, and the next one at or after it. */
  ghost predicate Brackets(lay: Layout, r: nat, i: nat) {
    && r < |lay.starts| && lay.starts[r] <= i
    && (r + 1 < |lay.starts| ==> i <= lay.starts[r + 1])
  }

  lemma LastOffset(cmp: Comparator, data: bytes, limit: nat, restarts: nat, lay: Layout)
    requires WellFormed(cmp, data, limit, restarts, lay)
    ensures |lay.offs| == |lay.entries| + 1 && lay.offs[|lay.entries|] == limit
  {
  }

  lemma FirstPoint(cmp: Comparator, data: bytes, limit: nat, restarts: nat, lay: Layout)
    requires WellFormed(cmp, data, limit, restarts, lay)
    ensures |lay.starts| == restarts > 0 && lay.starts[0] == 0
  {
  }

  /** Entry i starts before entry j exactly when it comes before it. */
  lemma OffsetOrder(cmp: Comparator, data: bytes, limit: nat, restarts: nat, lay: Layout, i: nat, j: nat)
    requires WellFormed(cmp, data, limit, restarts, lay) && i <= |lay.entries| && j <= |lay.entries|
    ensures |lay.offs| == |lay.entries| + 1 && (lay.offs[i] < lay.offs[j] <==> i < j)
  {
    OffsetsAscend(cmp, data, limit, restarts, lay, if i < j then i else j, if i < j then j else i);
  }

  lemma StartsInRange(cmp: Comparator, data: bytes, limit: nat, restarts: nat, lay: Layout, r: nat)
    requires WellFormed(cmp, data, limit, restarts, lay) && r < restarts
    ensures lay.starts[r] <= |lay.entries| && (lay.entries != [] ==> lay.starts[r] < |lay.entries|)
    ensures RestartPoint(data, limit, r) == lay.offs[lay.starts[r]]
    ensures r + 1 < restarts ==> lay.starts[r] < lay.starts[r + 1]
  {
    assert StartOk(data, limit, lay, r) && (r + 1 < restarts ==> StartsAscend(lay, r));
  }

  /** A restart point lies before an entry exactly when its own entry does. */
  lemma PointOrder(cmp: Comparator, data: bytes, limit: nat, restarts: nat, lay: Layout, r: nat, i: nat)
    requires WellFormed(cmp, data, limit, restarts, lay) && r < restarts && i < |lay.entries|
    ensures lay.starts[r] <= |lay.entries|
    ensures RestartPoint(data, limit, r) < lay.offs[i] <==> lay.starts[r] < i
    ensures r + 1 < restarts ==> lay.starts[r] < lay.starts[r + 1]
  {
    StartsInRange(cmp, data, limit, restarts, lay, r);
    if lay.starts[r] < i {
      OffsetsAscend(cmp, data, limit, restarts, lay, lay.starts[r], i);
    } else {
      OffsetsAscend(cmp, data, limit, restarts, lay, i, lay.starts[r]);
    }
  }

  /** What parsing entry i gives when the key holds what the entry shares. */
  lemma ParsedEntry(cmp: Comparator, data: bytes, limit: nat, restarts: nat, lay: Layout, i: nat, r: nat, key: Key)
    requires WellFormed(cmp, data, limit, restarts, lay) && i < |lay.entries| && r < restarts
    requires key == KeyBefore(lay, i) || lay.starts[r] == i
    ensures var head := DecodeEntry(data, lay.offs[i], limit);
            && head.Some? && Inside(head.value, limit) && head.value.shared <= |key|
            && var middle := head.value.body + head.value.nonShared;
               && key[..head.value.shared] + data[head.value.body..middle] == lay.entries[i].0
               && data[middle..middle + head.value.valueLength] == lay.entries[i].1
               && middle + head.value.valueLength == lay.offs[i + 1]
  {
    hide DecodeEntry;
    assert EntryOk(data, limit, lay, i) && StartOk(data, limit, lay, r);
    if lay.starts[r] == i {
      assert key[..0] == KeyBefore(lay, i)[..0];
    }
  }
}
