/** Which queued writes ride together (DBImpl::BuildBatchGroup, db/db_impl.cc). */
module BatchGroup {
  import opened Wrappers
  import opened Coding
  import opened WriteBatch

  const MAX_GROUP := 1048576      // 1 << 20
  const SMALL_WRITE := 131072     // 128 << 10

  /** What one writer asks for; no operations stand for the null batch that forces a compaction. */
  datatype Request = Request(batch: Option<seq<Op>>, sync: bool)

  function ByteSize(ops: seq<Op>): nat {
    HEADER_SIZE + |EncodeOps(ops)|
  }

  function Weight(r: Request): nat {
    if r.batch.Some? then ByteSize(r.batch.value) else 0
  }

  function OpsOf(r: Request): seq<Op> {
    if r.batch.Some? then r.batch.value else []
  }

  function Total(rs: seq<Request>): nat {
    if rs == [] then 0 else Total(rs[..|rs| - 1]) + Weight(rs[|rs| - 1])
  }

  /** All operations of a group, in queue order. */
  function Merged(rs: seq<Request>): seq<Op> {
    if rs == [] then [] else Merged(rs[..|rs| - 1]) + OpsOf(rs[|rs| - 1])
  }

  /** How large a group led by a write of this size may get. */
  function Limit(first: nat): nat {
    if first <= SMALL_WRITE then first + SMALL_WRITE else if first > MAX_GROUP then first else MAX_GROUP
  }

  /** The first n requests may go together: no sync write behind a non-sync leader, and the group not too large. */
  ghost predicate Allowed(rs: seq<Request>, n: nat) {
    && 1 <= n <= |rs| && rs[0].batch.Some?
    && (forall i :: 0 < i < n ==> SyncOk(rs, i))
    && Total(rs[..n]) <= Limit(Weight(rs[0]))
  }

  predicate SyncOk(rs: seq<Request>, i: nat)
    requires i < |rs|
  {
    rs[i].sync ==> rs[0].sync
  }

  /** The group is as large as it may be. */
  ghost predicate IsGroup(rs: seq<Request>, n: nat) {
    Allowed(rs, n) && !Allowed(rs, n + 1)
  }

  lemma {:induction false} TotalGrows(rs: seq<Request>, m: nat, n: nat)
    requires m <= n <= |rs|
    ensures Total(rs[..m]) <= Total(rs[..n])
    decreases n
  {
    if m < n {
      TotalGrows(rs, m, n - 1);
      assert rs[..n][..n - 1] == rs[..n - 1];
    }
  }

  /** Any shorter group may go together as well, so a group that cannot take one more is the largest of all. */
  lemma GroupIsLargest(rs: seq<Request>, n: nat, k: nat)
    requires IsGroup(rs, n)
    ensures Allowed(rs, k) <==> 1 <= k <= n
  {
    hide Allowed;
    if 1 <= k <= n {
      Shorter(rs, k, n);
    } else if n < k && Allowed(rs, k) {
      Shorter(rs, n + 1, k);
    } else if k < 1 {
      NotEmptyGroup(rs, k);
    }
  }

  /**
   * A small write does not wait for much more than itself, and nobody waits for more than one mebibyte, but for a leader
   * that brings more.
   */
  lemma SmallWritesStaySmall(rs: seq<Request>, n: nat)
    requires Allowed(rs, n)
    ensures Weight(rs[0]) <= 128 * 1024 ==> Total(rs[..n]) <= Weight(rs[0]) + 128 * 1024
    ensures Weight(rs[0]) > 128 * 1024 ==> Total(rs[..n]) <= 1024 * 1024 || Total(rs[..n]) == Weight(rs[0])
  {
    hide Weight;
    TotalFirst(rs);
    TotalGrows(rs, 1, n);
  }

  /** A leader of up to these sizes takes along whatever fits. */
  lemma RoomIsUsed(rs: seq<Request>, n: nat)
    requires IsGroup(rs, n) && n < |rs| && SyncOk(rs, n)
    ensures Weight(rs[0]) <= 128 * 1024 ==> Total(rs[..n]) + Weight(rs[n]) > Weight(rs[0]) + 128 * 1024
    ensures Weight(rs[0]) > 128 * 1024 ==> Total(rs[..n]) + Weight(rs[n]) > 1024 * 1024
  {
    hide Weight;
    TotalSnoc(rs, n);
    forall i | 0 < i < n + 1 ensures SyncOk(rs, i) {
      assert i < n ==> SyncOk(rs, i);
    }
  }

  lemma NotEmptyGroup(rs: seq<Request>, k: nat)
    requires k < 1
    ensures !Allowed(rs, k)
  {
  }

  lemma Shorter(rs: seq<Request>, k: nat, n: nat)
    requires Allowed(rs, n) && 1 <= k <= n
    ensures Allowed(rs, k)
  {
    hide Total;
    TotalGrows(rs, k, n);
    forall i | 0 < i < k ensures SyncOk(rs, i) {
      assert SyncOk(rs, i);
    }
  }

  lemma TotalSnoc(rs: seq<Request>, n: nat)
    requires n < |rs|
    ensures Total(rs[..n + 1]) == Total(rs[..n]) + Weight(rs[n])
    ensures Merged(rs[..n + 1]) == Merged(rs[..n]) + OpsOf(rs[n])
  {
    hide ByteSize;
    assert rs[..n + 1][..n] == rs[..n];
  }

  lemma TotalFirst(rs: seq<Request>)
    requires rs != []
    ensures Total(rs[..1]) == Weight(rs[0]) && Merged(rs[..1]) == OpsOf(rs[0])
  {
    hide ByteSize;
    TotalSnoc(rs, 0);
    assert rs[..0] == [];
  }

  /** A leader can always go alone, so there is always a group. */
  lemma {:induction false} GroupExists(rs: seq<Request>, n: nat) returns (g: nat)
    requires Allowed(rs, n)
    ensures IsGroup(rs, g) && g >= n
    decreases |rs| - n
  {
    hide Total, Weight, Limit, SyncOk;
    if Allowed(rs, n + 1) {
      g := GroupExists(rs, n + 1);
    } else {
      g := n;
    }
  }

  lemma AloneIsAllowed(rs: seq<Request>)
    requires rs != [] && rs[0].batch.Some?
    ensures Allowed(rs, 1)
  {
    hide ByteSize;
    TotalFirst(rs);
  }

  /** Every operation takes at least two bytes, so a batch has fewer operations than bytes. */
  lemma {:induction false} CountBelowSize(ops: seq<Op>)
    ensures |ops| <= |EncodeOps(ops)|
  {
    hide EncodeOp;
    if ops != [] {
      CountBelowSize(ops[..|ops| - 1]);
      EncodedNotEmpty(ops[|ops| - 1]);
    }
  }

  /** A queued Write call, as far as grouping is concerned. */
  class Writer {
    const batch: WriteBatch?
    const sync: bool

    constructor (batch: WriteBatch?, sync: bool)
      ensures this.batch == batch && this.sync == sync
    {
      this.batch := batch;
      this.sync := sync;
    }

    /** The batch holds what the request says. */
    ghost predicate Asks(r: Request)
      reads batch
    {
      && r.sync == sync
      && (batch == null <==> r.batch.None?)
      && (batch != null ==> batch.Valid() && batch.ops == r.batch.value)
    }
  }

  class DBImpl {
    var writers: seq<Writer>
    const tmpBatch: WriteBatch

    constructor ()
      ensures writers == [] && fresh(tmpBatch) && tmpBatch.Valid() && tmpBatch.ops == []
    {
      writers := [];
      tmpBatch := new WriteBatch();
    }

    /** The queue's writers ask for rs, with these batches, none of which is the temporary one. */
    ghost predicate Queued(rs: seq<Request>, batches: set<WriteBatch>)
      reads this, batches
    {
      && |rs| == |writers| && tmpBatch !in batches
      && forall i :: 0 <= i < |rs| ==> QueuedAt(rs, batches, i)
    }

    ghost predicate QueuedAt(rs: seq<Request>, batches: set<WriteBatch>, i: nat)
      requires i < |rs| == |writers|
      reads this, batches
    {
      (writers[i].batch == null || writers[i].batch in batches) && writers[i].Asks(rs[i])
    }

    /**
     * Merges the largest allowed group into one batch: the first writer's own batch when nothing is added to it, and
     * the temporary batch otherwise. The writers' batches stay as they are.
     */
    method BuildBatchGroup(ghost rs: seq<Request>, ghost batches: set<WriteBatch>)
      returns (result: WriteBatch, lastWriter: nat)
      requires Queued(rs, batches) && rs != [] && rs[0].batch.Some?
      requires tmpBatch.Valid() && tmpBatch.ops == []
      modifies tmpBatch
      ensures Queued(rs, batches) && lastWriter < |rs| && IsGroup(rs, lastWriter + 1)
      ensures result.Valid() && result.ops == Merged(rs[..lastWriter + 1])
      ensures result == tmpBatch <==> Joined(rs, lastWriter + 1)
      ensures result != tmpBatch ==> result == writers[0].batch && tmpBatch.Valid() && tmpBatch.ops == []
    {
      hide EncodeOps, Merged, Total, Allowed, Queued, Joined, ByteSize, Weight, Limit, OpsOf;
      QueueHas(rs, batches, 0);
      var first := writers[0];
      result := first.batch;
      var size := |first.batch.rep|;
      SizeIsWeight(first, rs[0]);
      var maxSize := MAX_GROUP;
      if size <= SMALL_WRITE {
        maxSize := size + SMALL_WRITE;
      }
      lastWriter := 0;
      TotalFirst(rs);
      AloneIsAllowed(rs);
      FirstOps(rs);
      var iter := 1;
      while iter < |writers|
        invariant 1 <= iter <= |rs| && lastWriter == iter - 1
        invariant Queued(rs, batches) && Allowed(rs, iter) && size == Total(rs[..iter])
        invariant result.Valid() && result.ops == Merged(rs[..iter])
        invariant result == tmpBatch || (result == first.batch && tmpBatch.Valid() && tmpBatch.ops == [])
        invariant result == tmpBatch <==> Joined(rs, iter)
      {
        QueueHas(rs, batches, iter);
        var w := writers[iter];
        TotalSnoc(rs, iter);
        JoinedSnoc(rs, iter);
        if w.sync && !first.sync {
          SyncEnds(rs, iter);
          break;
        }
        if w.batch != null {
          SizeIsWeight(w, rs[iter]);
          size := size + |w.batch.rep|;
          if size > maxSize {
            SizeEnds(rs, iter, size);
            break;
          }
          SizeFits(rs, iter, size);
          result := Join(result, first.batch, w.batch);
        }
        OneMore(rs, iter);
        lastWriter := iter;
        iter := iter + 1;
      }
      if iter == |writers| { EndOfQueue(rs); }
    }

    /** Appends a batch to the group, switching to the temporary batch instead of disturbing the caller's. */
    method Join(group: WriteBatch, first: WriteBatch, batch: WriteBatch) returns (result: WriteBatch)
      requires tmpBatch.Valid() && group.Valid() && batch.Valid() && batch != tmpBatch && first != tmpBatch
      requires group == tmpBatch || (group == first && tmpBatch.ops == [])
      requires |group.ops| + |batch.ops| < 0x8000_0000
      modifies tmpBatch
      ensures result == tmpBatch && result.Valid() && result.ops == old(group.ops) + batch.ops
    {
      hide Fixed, EncodeOps;
      result := group;
      if result == first {
        result := tmpBatch;
        result.Append(first);
      }
      result.Append(batch);
    }

    lemma QueueHas(rs: seq<Request>, batches: set<WriteBatch>, i: nat)
      requires Queued(rs, batches) && i < |rs|
      ensures |rs| == |writers| && writers[i].Asks(rs[i])
      ensures tmpBatch !in batches && writers[i].batch != tmpBatch
      ensures writers[i].batch != null ==> writers[i].batch in batches && OpsOf(rs[i]) == writers[i].batch.ops
    {
      assert QueuedAt(rs, batches, i);
    }
  }

  /** Some writer behind the leader brought a batch. */
  ghost predicate Joined(rs: seq<Request>, n: nat) {
    exists i :: 0 < i < n && i < |rs| && rs[i].batch.Some?
  }

  lemma JoinedSnoc(rs: seq<Request>, n: nat)
    requires 1 <= n < |rs|
    ensures Joined(rs, n + 1) <==> Joined(rs, n) || rs[n].batch.Some?
    ensures rs[n].batch.None? ==> Weight(rs[n]) == 0 && Merged(rs[..n]) + OpsOf(rs[n]) == Merged(rs[..n])
  {
    hide Merged;
  }

  lemma FirstOps(rs: seq<Request>)
    requires rs != [] && rs[0].batch.Some?
    ensures OpsOf(rs[0]) == rs[0].batch.value && !Joined(rs, 1)
  {
  }

  lemma SizeIsWeight(w: Writer, r: Request)
    requires w.Asks(r) && w.batch != null
    ensures |w.batch.rep| == Weight(r) == ByteSize(w.batch.ops)
  {
    hide EncodeOps, Fixed;
    assert |w.batch.rep[8..]| == |w.batch.rep| - 8;
    FourBytes(|w.batch.ops|);
  }

  lemma FourBytes(n: nat)
    ensures |Fixed(4, n)| == 4
  {
  }

  lemma SyncEnds(rs: seq<Request>, n: nat)
    requires 1 <= n < |rs| && rs[n].sync && !rs[0].sync
    ensures !Allowed(rs, n + 1)
  {
    assert !SyncOk(rs, n);
  }

  lemma SizeEnds(rs: seq<Request>, n: nat, size: nat)
    requires Allowed(rs, n) && n < |rs| && rs[n].batch.Some?
    requires size == Total(rs[..n]) + Weight(rs[n])
    requires size > if Weight(rs[0]) <= SMALL_WRITE then Weight(rs[0]) + SMALL_WRITE else MAX_GROUP
    ensures !Allowed(rs, n + 1)
  {
    TotalSnoc(rs, n);
    TotalFirst(rs);
    TotalGrows(rs, 1, n);
    hide EncodeOps;
  }

  lemma OneMore(rs: seq<Request>, n: nat)
    requires Allowed(rs, n) && n < |rs| && (rs[n].sync ==> rs[0].sync)
    requires rs[n].batch.Some? ==> Total(rs[..n]) + Weight(rs[n]) <= Limit(Weight(rs[0]))
    ensures Allowed(rs, n + 1)
  {
    hide EncodeOps;
    TotalSnoc(rs, n);
    forall i | 0 < i < n + 1 ensures SyncOk(rs, i) {
      assert i < n ==> SyncOk(rs, i);
    }
  }

  lemma EndOfQueue(rs: seq<Request>)
    ensures !Allowed(rs, |rs| + 1)
  {
  }

  lemma {:induction false} MergedBelowTotal(rs: seq<Request>)
    ensures |Merged(rs)| <= Total(rs)
  {
    hide EncodeOps;
    if rs != [] {
      MergedBelowTotal(rs[..|rs| - 1]);
      CountBelowSize(OpsOf(rs[|rs| - 1]));
    }
  }

  /** A group that takes one more holds fewer operations than the 32-bit count can tell. */
  lemma SizeFits(rs: seq<Request>, n: nat, size: nat)
    requires 1 <= n < |rs| && rs[n].batch.Some? && size == Total(rs[..n]) + Weight(rs[n])
    requires size <= if Weight(rs[0]) <= SMALL_WRITE then Weight(rs[0]) + SMALL_WRITE else MAX_GROUP
    ensures |Merged(rs[..n])| + |OpsOf(rs[n])| < 0x8000_0000
    ensures size <= Limit(Weight(rs[0]))
  {
    hide EncodeOps;
    MergedBelowTotal(rs[..n]);
    CountBelowSize(OpsOf(rs[n]));
  }
}
