/** The compaction merge (DoCompactionWork in db/db_impl.cc) and what it keeps readable. */
module Compaction {
  import opened Wrappers
  import opened UserKeys
  import opened DbFormat
  import opened SnapshotList

  // ----- Reading a set of entries -----

  /** e is the newest entry of key k at or below sequence s. */
  ghost predicate NewestIn(es: set<Entry>, k: Key, s: nat, e: Entry) {
    && e in es && e.ukey == k && e.Visible(s)
    && forall f :: f in es && f.ukey == k && f.Visible(s) ==> f.Sequence() <= e.Sequence()
  }

  /** A read of k at snapshot s: the newest value, or none when there is no entry or a deletion is newest. */
  ghost function Read(es: set<Entry>, k: Key, s: nat): Option<seq<byte>> {
    if e :| NewestIn(es, k, s, e) && e.IsValue() then Some(e.value) else None
  }

  ghost function Elements(es: seq<Entry>): set<Entry> {
    set e | e in es
  }

  /** No two entries of one user key that parse carry the same sequence number. */
  ghost predicate UniqueSequences(es: set<Entry>) {
    forall e, f :: e in es && f in es && e.Parses() && f.Parses() && e.ukey == f.ukey && e.Sequence() == f.Sequence() ==> e == f
  }

  lemma ReadIs(es: set<Entry>, k: Key, s: nat, e: Entry)
    requires UniqueSequences(es) && NewestIn(es, k, s, e)
    ensures Read(es, k, s) == if e.IsValue() then Some(e.value) else None
  {
    assert forall f :: NewestIn(es, k, s, f) ==> f == e;
  }

  lemma {:induction false} HasNewest(es: set<Entry>, k: Key, s: nat, e: Entry)
    requires e in es && e.ukey == k && e.Visible(s)
    ensures exists n :: NewestIn(es, k, s, n)
    decreases s - e.Sequence()
  {
    if f :| f in es && f.ukey == k && f.Visible(s) && f.Sequence() > e.Sequence() {
      HasNewest(es, k, s, f);
    } else {
      assert NewestIn(es, k, s, e);
    }
  }

  // ----- The drop rule -----

  /** The loop's last_sequence_for_key when it reaches entry i. */
  function LastSequenceForKey(es: seq<Entry>, i: nat): nat
    requires i < |es|
  {
    if i > 0 && es[i - 1].Parses() && es[i - 1].ukey == es[i].ukey then es[i - 1].Sequence() else MAX_SEQUENCE
  }

  /** The input entries that survive among the first n. */
  ghost function Kept(es: seq<Entry>, smallest: nat, base: Key -> bool, n: nat): seq<Entry>
    requires n <= |es|
  {
    if n == 0 then []
    else Kept(es, smallest, base, n - 1) + (if Dropped(es, smallest, base, n - 1) then [] else [es[n - 1]])
  }

  /** Hidden by a newer entry every reader sees, or a deletion marker with nothing left to hide. */
  ghost predicate Dropped(es: seq<Entry>, smallest: nat, base: Key -> bool, i: nat)
    requires i < |es|
  {
    && es[i].Parses()
    && (|| LastSequenceForKey(es, i) <= smallest
        || (es[i].IsDeletion() && es[i].Sequence() <= smallest && base(es[i].ukey)))
  }

  lemma {:induction false} KeptElements(es: seq<Entry>, smallest: nat, base: Key -> bool, n: nat, e: Entry)
    requires n <= |es|
    ensures e in Kept(es, smallest, base, n) <==>
            exists i :: 0 <= i < n && es[i] == e && !Dropped(es, smallest, base, i)
  {
    if n > 0 {
      KeptElements(es, smallest, base, n - 1, e);
    }
  }

  // ----- The levels below the two being compacted -----

  /** A table file of a deeper level, as the user keys of its range. */
  datatype FileRange = FileRange(smallest: Key, largest: Key)

  ghost predicate Covers(cmp: UserComparator, f: FileRange, k: Key) {
    cmp(k, f.smallest) >= 0 && cmp(k, f.largest) <= 0
  }

  /** No file of any deeper level spans k. */
  ghost predicate BaseLevel(cmp: UserComparator, levels: seq<seq<FileRange>>, k: Key) {
    forall l, i :: 0 <= l < |levels| && 0 <= i < |levels[l]| ==> !Covers(cmp, levels[l][i], k)
  }

  ghost function BaseLevelKeys(cmp: UserComparator, levels: seq<seq<FileRange>>): Key -> bool {
    k => BaseLevel(cmp, levels, k)
  }

  /** The files of one level are in key order; neighbours may share a boundary key. */
  ghost predicate LevelSorted(cmp: UserComparator, files: seq<FileRange>) {
    && (forall i :: 0 <= i < |files| ==> cmp(files[i].smallest, files[i].largest) <= 0)
    && forall i, j :: 0 <= i < j < |files| ==> cmp(files[i].largest, files[j].smallest) <= 0
  }

  lemma {:induction false} KeptGrows(es: seq<Entry>, smallest: nat, base: Key -> bool, m: nat, n: nat)
    requires m <= n <= |es|
    ensures Kept(es, smallest, base, m) <= Kept(es, smallest, base, n)
    decreases n
  {
    if m < n {
      KeptGrows(es, smallest, base, m, n - 1);
    }
  }

  lemma {:induction false} KeptOrigin(es: seq<Entry>, smallest: nat, base: Key -> bool, n: nat, c: nat)
    returns (i: nat)
    requires n <= |es| && c < |Kept(es, smallest, base, n)|
    ensures i < n && Kept(es, smallest, base, n)[c] == es[i]
    ensures |Kept(es, smallest, base, i)| == c && !Dropped(es, smallest, base, i)
  {
    if c < |Kept(es, smallest, base, n - 1)| {
      i := KeptOrigin(es, smallest, base, n - 1, c);
    } else {
      i := n - 1;
    }
  }

  /** Survivors stay in order, and no internal key comes up twice. */
  lemma KeptSorted(cmp: UserComparator, es: seq<Entry>, smallest: nat, base: Key -> bool)
    requires Sorted(cmp, es) && Distinct(es)
    ensures Sorted(cmp, Kept(es, smallest, base, |es|)) && Distinct(Kept(es, smallest, base, |es|))
  {
    var kept := Kept(es, smallest, base, |es|);
    forall c, d | 0 <= c < d < |kept|
      ensures InOrder(cmp, kept, c, d) && (kept[c].ukey != kept[d].ukey || kept[c].tag != kept[d].tag)
    {
      var i := KeptOrigin(es, smallest, base, |es|, c);
      var j := KeptOrigin(es, smallest, base, |es|, d);
      if j <= i {
        KeptGrows(es, smallest, base, j, i);
      }
      assert InOrder(cmp, es, i, j);
    }
  }

  // ----- Reads are preserved -----

  /**
   * The compaction's surroundings. Entries of a compacted key that lie elsewhere are either all newer
   * (memtables, shallower levels, tables flushed meanwhile) or all older and inside the range of some file of a
   * deeper level. Keys are compacted as a whole: the other files of the two levels involved hold no entry of a
   * compacted key, so their entries may be counted with the newer ones.
   */
  ghost predicate Surroundings(cmp: UserComparator, newer: set<Entry>, es: seq<Entry>, older: set<Entry>,
                               levels: seq<seq<FileRange>>) {
    && UniqueSequences(newer + Elements(es) + older)
    && (forall e, f :: e in es && f in newer && e.Parses() && f.Parses() && e.ukey == f.ukey ==> e.Sequence() < f.Sequence())
    && (forall e, f :: e in es && f in older && e.Parses() && f.Parses() && e.ukey == f.ukey ==> f.Sequence() < e.Sequence())
    && (forall f :: f in older ==> !BaseLevel(cmp, levels, f.ukey))
  }

  /** An entry that is newest for some reader at or above the smallest snapshot is not hidden by rule (A). */
  lemma NewestNotHidden(cmp: UserComparator, es: seq<Entry>, k: Key, s: nat, smallest: nat, i: nat)
    requires Sorted(cmp, es) && UniqueSequences(Elements(es)) && Distinct(es) && i < |es|
    requires NewestIn(Elements(es), k, s, es[i]) && smallest <= s && smallest < MAX_SEQUENCE
    ensures LastSequenceForKey(es, i) > smallest
  {
    if i > 0 && es[i - 1].ukey == k {
      assert es[i - 1] in Elements(es) && es[i] in Elements(es);
      KeysAscend(cmp, es, i - 1, i);
    }
  }

  /** Behind an entry at or below the smallest snapshot, only what follows an unparseable entry escapes the first rule. */
  lemma OlderDropped(cmp: UserComparator, es: seq<Entry>, smallest: nat, base: Key -> bool, i: nat, j: nat)
    requires Sorted(cmp, es) && i < j < |es| && es[i].ukey == es[j].ukey && es[i].Sequence() <= smallest < MAX_SEQUENCE
    ensures es[j].Sequence() <= smallest
    ensures Dropped(es, smallest, base, j) <==>
            es[j].Parses() && (es[j - 1].Parses() || (es[j].IsDeletion() && base(es[j].ukey)))
  {
    Contiguous(cmp, es, i, j - 1, j);
    KeysAscend(cmp, es, i, j - 1);
    KeysAscend(cmp, es, i, j);
  }

  /** Survivors are the input entries that are not dropped. */
  lemma SurvivorAt(es: seq<Entry>, smallest: nat, base: Key -> bool, e: Entry) returns (j: nat)
    requires e in Elements(Kept(es, smallest, base, |es|))
    ensures j < |es| && es[j] == e && !Dropped(es, smallest, base, j)
  {
    KeptElements(es, smallest, base, |es|, e);
    j :| 0 <= j < |es| && es[j] == e && !Dropped(es, smallest, base, j);
  }

  /** A marker that the second rule drops, and nothing before it that a reader of k at s would see. */
  ghost predicate Lifted(newer: set<Entry>, es: seq<Entry>, smallest: nat, base: Key -> bool, k: Key, s: nat, i: nat) {
    && i < |es| && es[i].ukey == k && es[i].IsDeletion() && es[i].Sequence() <= smallest && base(k)
    && (forall h :: 0 <= h < i && es[h].ukey == k ==> !es[h].Visible(s))
    && (forall f :: f in newer && f.ukey == k ==> !f.Visible(s))
  }

  /** A value of the same user key behind entry i, right after an unparseable entry. */
  ghost predicate Revived(es: seq<Entry>, i: nat, j: nat) {
    i < j < |es| && es[j].ukey == es[i].ukey && es[j].IsValue() && !es[j - 1].Parses()
  }

  /** A deleted value of k comes back for a reader at s. */
  ghost predicate Revives(newer: set<Entry>, es: seq<Entry>, smallest: nat, base: Key -> bool, k: Key, s: nat) {
    exists i, j :: Lifted(newer, es, smallest, base, k, s, i) && Revived(es, i, j)
  }

  /** What a dropped marker leaves for its readers: exactly the revived values. */
  lemma DroppedLeaves(cmp: UserComparator, newer: set<Entry>, es: seq<Entry>, older: set<Entry>,
                      levels: seq<seq<FileRange>>, smallest: nat, k: Key, s: nat, i: nat, f: Entry)
    requires Sorted(cmp, es) && Distinct(es) && Surroundings(cmp, newer, es, older, levels)
    requires smallest <= s && smallest < MAX_SEQUENCE
    requires Lifted(newer, es, smallest, BaseLevelKeys(cmp, levels), k, s, i)
    ensures f in newer + Elements(Kept(es, smallest, BaseLevelKeys(cmp, levels), |es|)) + older && f.ukey == k && f.Visible(s)
            <==> exists j: nat :: Revived(es, i, j) && f == es[j]
  {
    hide Sorted, Distinct, Dropped, Kept;
    var base := BaseLevelKeys(cmp, levels);
    var kept := Elements(Kept(es, smallest, base, |es|));
    if f in newer + kept + older && f.ukey == k && f.Visible(s) {
      var j := SurvivorAt(es, smallest, base, f);
      MarkerDropped(es, smallest, base, i);
      if i < j { OlderDropped(cmp, es, smallest, base, i, j); }
      assert Revived(es, i, j);
    }
    if j: nat :| Revived(es, i, j) && f == es[j] {
      OlderDropped(cmp, es, smallest, base, i, j);
      KeptElements(es, smallest, base, |es|, f);
    }
  }

  lemma MarkerDropped(es: seq<Entry>, smallest: nat, base: Key -> bool, i: nat)
    requires i < |es| && es[i].IsDeletion() && es[i].Sequence() <= smallest && base(es[i].ukey)
    ensures Dropped(es, smallest, base, i)
  {
  }

  /** With every key parseable, no entry of its key that the reader could see survives anywhere. */
  lemma DroppedLeavesNothing(cmp: UserComparator, newer: set<Entry>, es: seq<Entry>, older: set<Entry>,
                             levels: seq<seq<FileRange>>, smallest: nat, k: Key, s: nat, i: nat, f: Entry)
    requires Sorted(cmp, es) && Distinct(es) && (forall e :: e in es ==> e.Parses())
    requires Surroundings(cmp, newer, es, older, levels)
    requires smallest <= s && smallest < MAX_SEQUENCE && i < |es|
    requires NewestIn(newer + Elements(es) + older, k, s, es[i])
    requires Dropped(es, smallest, BaseLevelKeys(cmp, levels), i)
    requires f in newer + Elements(Kept(es, smallest, BaseLevelKeys(cmp, levels), |es|)) + older
    ensures !(f.ukey == k && f.Visible(s))
  {
    hide Dropped, Kept, Sorted, Distinct;
    DroppedIsLifted(cmp, newer, es, older, levels, smallest, k, s, i);
    DroppedLeaves(cmp, newer, es, older, levels, smallest, k, s, i, f);
  }

  /** An entry some reader sees is dropped exactly when it is a marker for the second rule, with nothing before it. */
  lemma DroppedIsLifted(cmp: UserComparator, newer: set<Entry>, es: seq<Entry>, older: set<Entry>,
                        levels: seq<seq<FileRange>>, smallest: nat, k: Key, s: nat, i: nat)
    requires Sorted(cmp, es) && Distinct(es) && Surroundings(cmp, newer, es, older, levels)
    requires smallest <= s && smallest < MAX_SEQUENCE && i < |es|
    requires NewestIn(newer + Elements(es) + older, k, s, es[i])
    ensures Dropped(es, smallest, BaseLevelKeys(cmp, levels), i)
            <==> Lifted(newer, es, smallest, BaseLevelKeys(cmp, levels), k, s, i)
  {
    assert es[i] in Elements(es);
    assert UniqueSequences(Elements(es)) && NewestIn(Elements(es), k, s, es[i]);
    NewestNotHidden(cmp, es, k, s, smallest, i);
    forall h | 0 <= h < i && es[h].ukey == k ensures !es[h].Visible(s) {
      assert es[h] in Elements(es);
      KeysAscend(cmp, es, h, i);
    }
  }

  /** Such a marker is what its readers see before the compaction, and it is gone after. */
  lemma LiftedIsNewest(cmp: UserComparator, newer: set<Entry>, es: seq<Entry>, older: set<Entry>,
                       levels: seq<seq<FileRange>>, smallest: nat, k: Key, s: nat, i: nat)
    requires Sorted(cmp, es) && Surroundings(cmp, newer, es, older, levels) && smallest <= s
    requires Lifted(newer, es, smallest, BaseLevelKeys(cmp, levels), k, s, i)
    ensures NewestIn(newer + Elements(es) + older, k, s, es[i])
  {
    assert es[i] in Elements(es);
    forall f | f in newer + Elements(es) + older && f.ukey == k && f.Visible(s) ensures f.Sequence() <= es[i].Sequence() {
      if f in Elements(es) {
        var j: nat :| j < |es| && es[j] == f;
        if i < j { KeysAscend(cmp, es, i, j); }
      }
    }
  }

  /** Where the newest entry for a reader is not a marker that goes, the read is as before. */
  lemma OthersRead(cmp: UserComparator, newer: set<Entry>, es: seq<Entry>, older: set<Entry>,
                   levels: seq<seq<FileRange>>, smallest: nat, k: Key, s: nat)
    requires Sorted(cmp, es) && Distinct(es) && Surroundings(cmp, newer, es, older, levels)
    requires smallest <= s && smallest < MAX_SEQUENCE
    requires forall i :: !Lifted(newer, es, smallest, BaseLevelKeys(cmp, levels), k, s, i)
    ensures Read(newer + Elements(Kept(es, smallest, BaseLevelKeys(cmp, levels), |es|)) + older, k, s)
            == Read(newer + Elements(es) + older, k, s)
  {
    hide Sorted, Distinct, Dropped, Kept, Lifted;
    var base := BaseLevelKeys(cmp, levels);
    var before := newer + Elements(es) + older;
    var after := newer + Elements(Kept(es, smallest, base, |es|)) + older;
    KeptAreInputs(es, smallest, base);
    if n :| NewestIn(before, k, s, n) {
      ReadIs(before, k, s, n);
      if n !in after {
        var i: nat :| i < |es| && es[i] == n;
        DroppedIsLifted(cmp, newer, es, older, levels, smallest, k, s, i);
        KeptElements(es, smallest, base, |es|, n);
      }
      assert NewestIn(after, k, s, n);
      ReadIs(after, k, s, n);
    } else {
      if e :| NewestIn(after, k, s, e) {
        HasNewest(before, k, s, e);
      }
    }
  }

  lemma KeptAreInputs(es: seq<Entry>, smallest: nat, base: Key -> bool)
    ensures Elements(Kept(es, smallest, base, |es|)) <= Elements(es)
  {
    forall e | e in Elements(Kept(es, smallest, base, |es|)) ensures e in Elements(es) {
      var j := SurvivorAt(es, smallest, base, e);
    }
  }

  lemma SurroundedAreUnique(cmp: UserComparator, newer: set<Entry>, es: seq<Entry>, older: set<Entry>,
                            levels: seq<seq<FileRange>>)
    requires Surroundings(cmp, newer, es, older, levels)
    ensures UniqueSequences(newer + Elements(es) + older)
  {
  }

  /** A reader who sees a marker that goes reads nothing before, and after it a value exactly when one is revived. */
  lemma LiftedReads(cmp: UserComparator, newer: set<Entry>, es: seq<Entry>, older: set<Entry>,
                    levels: seq<seq<FileRange>>, smallest: nat, k: Key, s: nat, i: nat)
    requires Sorted(cmp, es) && Distinct(es) && Surroundings(cmp, newer, es, older, levels)
    requires smallest <= s && smallest < MAX_SEQUENCE
    requires Lifted(newer, es, smallest, BaseLevelKeys(cmp, levels), k, s, i)
    ensures Read(newer + Elements(es) + older, k, s) == None
    ensures Read(newer + Elements(Kept(es, smallest, BaseLevelKeys(cmp, levels), |es|)) + older, k, s).Some?
            <==> exists j: nat :: Revived(es, i, j)
  {
    hide Sorted, Distinct, Kept, Surroundings;
    var before := newer + Elements(es) + older;
    var after := newer + Elements(Kept(es, smallest, BaseLevelKeys(cmp, levels), |es|)) + older;
    LiftedIsNewest(cmp, newer, es, older, levels, smallest, k, s, i);
    KeptAreInputs(es, smallest, BaseLevelKeys(cmp, levels));
    SurroundedAreUnique(cmp, newer, es, older, levels);
    ReadIs(before, k, s, es[i]);
    if j: nat :| Revived(es, i, j) {
      DroppedLeaves(cmp, newer, es, older, levels, smallest, k, s, i, es[j]);
      HasNewest(after, k, s, es[j]);
      var n :| NewestIn(after, k, s, n);
      DroppedLeaves(cmp, newer, es, older, levels, smallest, k, s, i, n);
      ReadIs(after, k, s, n);
    } else if n :| NewestIn(after, k, s, n) {
      DroppedLeaves(cmp, newer, es, older, levels, smallest, k, s, i, n);
    }
  }

  /** Replacing the inputs by the survivors keeps a read at or above the smallest snapshot exactly when nothing revives. */
  lemma CompactionPreservesReads(cmp: UserComparator, newer: set<Entry>, es: seq<Entry>, older: set<Entry>,
                                 levels: seq<seq<FileRange>>, smallest: nat, k: Key, s: nat)
    requires Sorted(cmp, es) && Distinct(es) && Surroundings(cmp, newer, es, older, levels)
    requires smallest <= s && smallest < MAX_SEQUENCE
    ensures Read(newer + Elements(Kept(es, smallest, BaseLevelKeys(cmp, levels), |es|)) + older, k, s)
            == Read(newer + Elements(es) + older, k, s)
            <==> !Revives(newer, es, smallest, BaseLevelKeys(cmp, levels), k, s)
  {
    hide Sorted, Distinct, Kept, Surroundings, Lifted, Revived, Read;
    var base := BaseLevelKeys(cmp, levels);
    if i :| Lifted(newer, es, smallest, base, k, s, i) {
      LiftedReads(cmp, newer, es, older, levels, smallest, k, s, i);
      forall i' | Lifted(newer, es, smallest, base, k, s, i') ensures i' == i {
        OneLifted(newer, es, smallest, base, k, s, i, i');
      }
    } else {
      OthersRead(cmp, newer, es, older, levels, smallest, k, s);
    }
  }

  /** No value of a user key stands right after an unparseable entry and behind a marker that the second rule drops. */
  ghost predicate NoneRevived(es: seq<Entry>, smallest: nat, base: Key -> bool) {
    forall i: nat, j: nat :: Revived(es, i, j) ==> !(es[i].IsDeletion() && es[i].Sequence() <= smallest && base(es[i].ukey))
  }

  /** A condition on the inputs alone: every read is kept whatever lies around them. */
  lemma NoneRevivedReads(cmp: UserComparator, newer: set<Entry>, es: seq<Entry>, older: set<Entry>,
                         levels: seq<seq<FileRange>>, smallest: nat, k: Key, s: nat)
    requires Sorted(cmp, es) && Distinct(es) && Surroundings(cmp, newer, es, older, levels)
    requires smallest <= s && smallest < MAX_SEQUENCE
    requires NoneRevived(es, smallest, BaseLevelKeys(cmp, levels))
    ensures Read(newer + Elements(Kept(es, smallest, BaseLevelKeys(cmp, levels), |es|)) + older, k, s)
            == Read(newer + Elements(es) + older, k, s)
  {
    hide Sorted, Distinct, Kept, Surroundings, Read, Revived;
    CompactionPreservesReads(cmp, newer, es, older, levels, smallest, k, s);
  }

  lemma ParseableNoneRevived(es: seq<Entry>, smallest: nat, base: Key -> bool)
    requires forall e :: e in es ==> e.Parses()
    ensures NoneRevived(es, smallest, base)
  {
    assert forall m :: 0 <= m < |es| ==> es[m].Parses();
  }

  lemma OneLifted(newer: set<Entry>, es: seq<Entry>, smallest: nat, base: Key -> bool, k: Key, s: nat, i: nat, j: nat)
    requires Lifted(newer, es, smallest, base, k, s, i) && Lifted(newer, es, smallest, base, k, s, j) && smallest <= s
    ensures i == j
  {
  }

  /** All reads of all keys are kept exactly when no value comes back for a reader at the smallest snapshot. */
  lemma AllReadsKept(cmp: UserComparator, newer: set<Entry>, es: seq<Entry>, older: set<Entry>,
                     levels: seq<seq<FileRange>>, smallest: nat)
    requires Sorted(cmp, es) && Distinct(es) && Surroundings(cmp, newer, es, older, levels)
    requires smallest < MAX_SEQUENCE
    ensures (forall k, s: nat :: smallest <= s ==>
               Read(newer + Elements(Kept(es, smallest, BaseLevelKeys(cmp, levels), |es|)) + older, k, s)
               == Read(newer + Elements(es) + older, k, s))
            <==> (forall k :: !Revives(newer, es, smallest, BaseLevelKeys(cmp, levels), k, smallest))
  {
    hide Sorted, Distinct, Kept, Surroundings, Revives, Read;
    forall k, s: nat | smallest <= s
      ensures Read(newer + Elements(Kept(es, smallest, BaseLevelKeys(cmp, levels), |es|)) + older, k, s)
              == Read(newer + Elements(es) + older, k, s)
              <==> !Revives(newer, es, smallest, BaseLevelKeys(cmp, levels), k, s)
      ensures Revives(newer, es, smallest, BaseLevelKeys(cmp, levels), k, s)
              ==> Revives(newer, es, smallest, BaseLevelKeys(cmp, levels), k, smallest)
    {
      CompactionPreservesReads(cmp, newer, es, older, levels, smallest, k, s);
      if Revives(newer, es, smallest, BaseLevelKeys(cmp, levels), k, s) {
        RevivesLower(newer, es, smallest, BaseLevelKeys(cmp, levels), k, s);
      }
    }
  }

  lemma RevivesLower(newer: set<Entry>, es: seq<Entry>, smallest: nat, base: Key -> bool, k: Key, s: nat)
    requires smallest <= s && Revives(newer, es, smallest, base, k, s)
    ensures Revives(newer, es, smallest, base, k, smallest)
  {
    var i, j :| Lifted(newer, es, smallest, base, k, s, i) && Revived(es, i, j);
    assert Lifted(newer, es, smallest, base, k, smallest, i);
  }

  /** An entry some reader sees goes only as a deletion marker. */
  lemma DroppedIsDeletion(cmp: UserComparator, newer: set<Entry>, es: seq<Entry>, older: set<Entry>,
                          levels: seq<seq<FileRange>>, smallest: nat, k: Key, s: nat, i: nat)
    requires Sorted(cmp, es) && Distinct(es) && Surroundings(cmp, newer, es, older, levels)
    requires smallest <= s && smallest < MAX_SEQUENCE && i < |es|
    requires NewestIn(newer + Elements(es) + older, k, s, es[i])
    requires Dropped(es, smallest, BaseLevelKeys(cmp, levels), i)
    ensures es[i].IsDeletion()
  {
    DroppedIsLifted(cmp, newer, es, older, levels, smallest, k, s, i);
  }

  /** A deletion marker, an unparseable key and an older value, all of one user key. */
  function Revival(k: Key): seq<Entry> {
    [Entry(k, Tag(3, TYPE_DELETION), []), Entry(k, Tag(2, 9), []), Entry(k, Tag(1, TYPE_VALUE), [5])]
  }

  lemma RevivalIsSorted(cmp: UserComparator, k: Key)
    ensures Sorted(cmp, Revival(k)) && Distinct(Revival(k))
    ensures Surroundings(cmp, {}, Revival(k), {}, []) && BaseLevel(cmp, [], k)
  {
    assert OrderedAt(cmp, k, k, k);
  }

  /**
   * It does happen: the unparseable key resets last_sequence_for_key, so the value outlives the marker that deleted
   * it and comes back.
   */
  lemma UnparseableKeyRevivesDeletedValue(cmp: UserComparator, k: Key)
    ensures Read(Elements(Revival(k)), k, 3) == None
    ensures Read(Elements(Kept(Revival(k), 3, BaseLevelKeys(cmp, []), 3)), k, 3) == Some([5])
  {
    var es := Revival(k);
    assert es[0] in Elements(es) && NewestIn(Elements(es), k, 3, es[0]);
    ReadIs(Elements(es), k, 3, es[0]);
    OnlyMarkerDropped(cmp, k);
    var kept := [es[1], es[2]];
    assert es[2] in Elements(kept) && NewestIn(Elements(kept), k, 3, es[2]);
    ReadIs(Elements(kept), k, 3, es[2]);
  }

  lemma OnlyMarkerDropped(cmp: UserComparator, k: Key)
    ensures Kept(Revival(k), 3, BaseLevelKeys(cmp, []), 3) == [Revival(k)[1], Revival(k)[2]]
  {
    var es, base := Revival(k), BaseLevelKeys(cmp, []);
    assert Dropped(es, 3, base, 0) && !Dropped(es, 3, base, 1) && !Dropped(es, 3, base, 2);
    assert Kept(es, 3, base, 1) == Kept(es, 3, base, 0);
    assert Kept(es, 3, base, 2) == [es[1]];
  }

  // ----- IsBaseLevelForKey: cursors that only move forward over the files of the deeper levels -----

  class BaseLevelCursor {
    const cmp: UserComparator
    const levels: seq<seq<FileRange>>
    var ptrs: seq<nat>
    ghost var asked: Option<Key>  // the last key asked about

    ghost predicate Valid()
      reads this
    {
      && |ptrs| == |levels|
      && (forall l :: 0 <= l < |levels| ==> ptrs[l] <= |levels[l]| && LevelSorted(cmp, levels[l]))
      && (asked == None ==> forall l :: 0 <= l < |ptrs| ==> ptrs[l] == 0)
      && (asked.Some? ==> forall l, i :: 0 <= l < |levels| && 0 <= i < ptrs[l] ==>
                            cmp(levels[l][i].largest, asked.value) < 0)
    }

    /** k may be asked about next: keys are asked about in ascending order. */
    ghost predicate Ascends(k: Key)
      reads this
    {
      asked.Some? ==> cmp(asked.value, k) <= 0
    }

    constructor (cmp: UserComparator, levels: seq<seq<FileRange>>)
      requires forall l :: 0 <= l < |levels| ==> LevelSorted(cmp, levels[l])
      ensures Valid() && this.cmp == cmp && this.levels == levels && asked == None
    {
      this.cmp, this.levels := cmp, levels;
      ptrs := seq(|levels|, _ => 0);
      asked := None;
    }

    /** A file that starts after k, and every file behind it, does not cover k. */
    lemma StartsAfter(k: Key, l: nat, i: nat)
      requires l < |levels| && i < |levels[l]| && LevelSorted(cmp, levels[l])
      requires cmp(k, levels[l][i].smallest) < 0
      ensures forall j :: i <= j < |levels[l]| ==> !Covers(cmp, levels[l][j], k)
    {
      var files := levels[l];
      forall j | i < j < |files| ensures !Covers(cmp, files[j], k) {
        assert cmp(files[i].largest, files[j].smallest) <= 0 && cmp(files[i].smallest, files[i].largest) <= 0;
        assert OrderedAt(cmp, k, files[i].smallest, files[i].largest);
        assert OrderedAt(cmp, k, files[i].largest, files[j].smallest);
        assert OrderedAt(cmp, files[i].smallest, files[i].largest, k);
        assert OrderedAt(cmp, files[i].largest, files[j].smallest, k);
      }
    }

    /** Despite never looking back, the answer is exact. */
    method IsBaseLevelForKey(k: Key) returns (base: bool)
      requires Valid() && Ascends(k)
      modifies this
      ensures Valid() && asked == Some(k)
      ensures base == BaseLevel(cmp, levels, k)
      ensures base <==> forall l, i :: 0 <= l < |levels| && 0 <= i < |levels[l]| ==>
                cmp(k, levels[l][i].smallest) < 0 || cmp(k, levels[l][i].largest) > 0
    {
      forall l, i | 0 <= l < |levels| && 0 <= i < ptrs[l] ensures cmp(levels[l][i].largest, k) < 0 {
        assert OrderedAt(cmp, levels[l][i].largest, asked.value, k) && OrderedAt(cmp, asked.value, k, k);
      }
      asked := Some(k);
      for lvl := 0 to |levels|
        invariant Valid() && asked == Some(k)
        invariant forall l :: 0 <= l < lvl ==> Clear(l, k)
      {
        var covered := Advance(lvl, k);
        if covered { return false; }
      }
      forall l, i | 0 <= l < |levels| && 0 <= i < |levels[l]| ensures !Covers(cmp, levels[l][i], k) {
        assert Clear(l, k);
      }
      return true;
    }

    /** No file of level l spans k. */
    ghost predicate Clear(l: nat, k: Key)
      requires l < |levels|
    {
      forall i :: 0 <= i < |levels[l]| ==> !Covers(cmp, levels[l][i], k)
    }

    /** Moves one level's cursor to the first file that does not end before k. */
    method Advance(lvl: nat, k: Key) returns (covered: bool)
      requires Valid() && asked == Some(k) && lvl < |levels|
      modifies this`ptrs
      ensures Valid()
      ensures covered <==> !Clear(lvl, k)
    {
      var files := levels[lvl];
      while ptrs[lvl] < |files|
        invariant Valid()
        decreases |files| - ptrs[lvl]
      {
        var f := files[ptrs[lvl]];
        if cmp(k, f.largest) <= 0 {
          if cmp(k, f.smallest) >= 0 {
            return true;
          }
          StartsAfter(k, lvl, ptrs[lvl]);
          break;
        }
        assert OrderedAt(cmp, f.largest, k, k);
        ptrs := ptrs[lvl := ptrs[lvl] + 1];
      }
      forall i | 0 <= i < ptrs[lvl] ensures !Covers(cmp, files[i], k) {
        assert OrderedAt(cmp, files[i].largest, k, k);
      }
      return false;
    }
  }

  // ----- The compaction loop -----

  datatype InternalKey = InternalKey(ukey: Key, tag: nat)

  /** An output table: its file number, the key range recorded for it, and the entries added to its builder. */
  datatype Output = Output(number: nat, smallest: Option<InternalKey>, largest: Option<InternalKey>,
                           entries: seq<Entry>)
  {
    /** Not empty, and the recorded range is exactly the first and the last key added. */
    ghost predicate WellFormed() {
      && entries != []
      && smallest == Some(KeyOf(entries[0]))
      && largest == Some(KeyOf(entries[|entries| - 1]))
    }
  }

  function KeyOf(e: Entry): InternalKey {
    InternalKey(e.ukey, e.tag)
  }

  ghost function Flatten(outputs: seq<Output>): seq<Entry> {
    if outputs == [] then [] else Flatten(outputs[..|outputs| - 1]) + outputs[|outputs| - 1].entries
  }

  /** Output c of a list of outputs occupies a run of the flattened list, and later outputs come after it. */
  lemma FlattenNone()
    ensures Flatten([]) == []
  {
  }

  lemma {:induction false} FlattenRuns(outputs: seq<Output>, c: nat) returns (at: nat)
    requires c < |outputs|
    ensures at + |outputs[c].entries| <= |Flatten(outputs)|
    ensures Flatten(outputs)[at..at + |outputs[c].entries|] == outputs[c].entries
    ensures at == |Flatten(outputs[..c])|
  {
    var m := |outputs| - 1;
    if c == m {
      at := |Flatten(outputs[..m])|;
    } else {
      at := FlattenRuns(outputs[..m], c);
      assert outputs[..m][..c] == outputs[..c];
      assert Flatten(outputs)[at..at + |outputs[c].entries|] == Flatten(outputs[..m])[at..at + |outputs[c].entries|];
    }
  }

  lemma {:induction false} FlattenGrows(outputs: seq<Output>, c: nat, d: nat)
    requires c < d <= |outputs|
    ensures |Flatten(outputs[..c])| + |outputs[c].entries| <= |Flatten(outputs[..d])|
    decreases d
  {
    assert outputs[..d][..d - 1] == outputs[..d - 1];
    if c + 1 < d {
      FlattenGrows(outputs, c, d - 1);
    }
  }

  lemma EmptyLast(outputs: seq<Output>, outputs': seq<Output>)
    requires |outputs'| == |outputs| + 1 && outputs'[..|outputs|] == outputs && outputs'[|outputs|].entries == []
    ensures Flatten(outputs') == Flatten(outputs)
  {
  }

  lemma OneMoreEntry(outputs: seq<Output>, outputs': seq<Output>, e: Entry)
    requires outputs != [] && |outputs'| == |outputs| && outputs'[..|outputs| - 1] == outputs[..|outputs| - 1]
    requires outputs'[|outputs| - 1].entries == outputs[|outputs| - 1].entries + [e]
    ensures Flatten(outputs') == Flatten(outputs) + [e]
  {
  }

  /** The key ranges recorded for the outputs do not overlap, and they follow one another in key order. */
  lemma OutputsDisjoint(cmp: UserComparator, outputs: seq<Output>, c: nat, d: nat)
    requires Sorted(cmp, Flatten(outputs)) && Distinct(Flatten(outputs))
    requires c < d < |outputs| && outputs[c].WellFormed() && outputs[d].WellFormed()
    ensures Compare(cmp, outputs[c].entries[|outputs[c].entries| - 1], outputs[d].entries[0]) < 0
  {
    var i := FlattenRuns(outputs, c);
    var j := FlattenRuns(outputs, d);
    FlattenGrows(outputs, c, d);
    var all, m := Flatten(outputs), i + |outputs[c].entries| - 1;
    assert all[m] == all[i..m + 1][|outputs[c].entries| - 1];
    assert all[j] == all[j..j + |outputs[d].entries|][0];
    assert InOrder(cmp, all, m, j);
    assert OrderedAt(cmp, all[m].ukey, all[j].ukey, all[j].ukey);
  }

  class CompactionState {
    const cmp: UserComparator
    const input: seq<Entry>        // the merged input iterator
    const deeper: BaseLevelCursor  // the levels below the two being compacted
    var smallestSnapshot: nat
    var outputs: seq<Output>
    var building: bool             // builder != nullptr: the last output is still open
    var nextFileNumber: nat
    ghost var failures: nat        // calls on files, or on the input, that did not return ok
    ghost var stopped: bool        // the loop saw shutting_down_

    constructor (cmp: UserComparator, input: seq<Entry>, deeper: BaseLevelCursor, fileNumber: nat)
      ensures this.cmp == cmp && this.input == input && this.deeper == deeper
      ensures nextFileNumber == fileNumber && outputs == [] && !building && failures == 0 && !stopped
    {
      this.cmp, this.input, this.deeper := cmp, input, deeper;
      smallestSnapshot := 0;
      outputs, building, nextFileNumber, failures, stopped := [], false, fileNumber, 0, false;
    }

    /** The input entries that survive among the first n. */
    ghost function Survivors(n: nat): seq<Entry>
      requires n <= |input|
      reads this
    {
      Kept(input, smallestSnapshot, BaseLevelKeys(cmp, deeper.levels), n)
    }

    ghost predicate Numbered(first: nat)
      reads this
    {
      && first + |outputs| == nextFileNumber
      && forall i :: 0 <= i < |outputs| ==> outputs[i].number == first + i
    }

    method OpenCompactionOutputFile() returns (ok: bool)
      requires !building
      modifies this`outputs, this`building, this`nextFileNumber, this`failures
      ensures failures == old(failures) + (if ok then 0 else 1)
      ensures nextFileNumber == old(nextFileNumber) + 1
      ensures outputs == old(outputs) + [Output(old(nextFileNumber), None, None, [])] && building == ok
    {
      outputs := outputs + [Output(nextFileNumber, None, None, [])];
      nextFileNumber := nextFileNumber + 1;
      ok := *;  // creating the file may fail
      failures := failures + (if ok then 0 else 1);
      building := ok;
    }

    method FinishCompactionOutputFile() returns (ok: bool)
      requires building
      modifies this`building, this`failures
      ensures !building && failures == old(failures) + (if ok then 0 else 1)
    {
      ok := *;  // finishing, syncing, closing or reopening the table may fail
      failures := failures + (if ok then 0 else 1);
      building := false;
    }

    /** Adds one surviving entry to the open output. */
    method Add(e: Entry)
      requires building && outputs != []
      requires outputs[|outputs| - 1].entries == [] || outputs[|outputs| - 1].WellFormed()
      modifies this`outputs
      ensures |outputs| == |old(outputs)| && outputs[..|outputs| - 1] == old(outputs)[..|outputs| - 1]
      ensures outputs[|outputs| - 1].WellFormed()
      ensures outputs[|outputs| - 1].number == old(outputs)[|outputs| - 1].number
      ensures outputs[|outputs| - 1].entries == old(outputs)[|outputs| - 1].entries + [e]
    {
      var last := |outputs| - 1;
      var out := outputs[last];
      if |out.entries| == 0 {
        out := out.(smallest := Some(KeyOf(e)));
      }
      out := out.(largest := Some(KeyOf(e)), entries := out.entries + [e]);
      outputs := outputs[last := out];
    }

    ghost predicate Ready()
      reads this
    {
      && (building ==> outputs != [])
      && forall o :: o in outputs ==> o.WellFormed()
    }

    /** Opens an output if none is open, adds the entry, and closes the output once it is big enough. */
    method Emit(e: Entry, ghost first: nat) returns (ok: bool)
      requires Ready() && Numbered(first)
      modifies this`outputs, this`building, this`nextFileNumber, this`failures
      ensures failures == old(failures) + (if ok then 0 else 1)
      ensures ok ==> Ready() && Flatten(outputs) == Flatten(old(outputs)) + [e]
      ensures Numbered(first)
    {
      hide Flatten;
      ghost var before := outputs;
      if !building {
        ok := OpenCompactionOutputFile();
        if !ok { return; }
        EmptyLast(before, outputs);
      }
      ghost var open := outputs;
      Add(e);
      OneMoreEntry(open, outputs, e);
      assert forall o :: o in outputs[..|open| - 1] ==> o in before;
      assert forall i :: 0 <= i < |outputs| - 1 ==> outputs[i] == open[..|open| - 1][i];
      ok := true;
      var full: bool := *;  // the builder reached MaxOutputFileSize
      if full {
        ok := FinishCompactionOutputFile();
      }
    }

    /** The sequence number every live snapshot, and every snapshot taken from now on, is at or above. */
    method SmallestSnapshot(snapshots: SnapshotList, lastSequence: nat) returns (smallest: nat)
      requires snapshots.Valid() && forall t :: t in snapshots.nodes ==> t.sequenceNumber <= lastSequence
      ensures smallest <= lastSequence
      ensures forall t :: t in snapshots.nodes ==> smallest <= t.sequenceNumber
      ensures smallest == lastSequence || exists t :: t in snapshots.nodes && smallest == t.sequenceNumber
    {
      if snapshots.Empty() {
        smallest := lastSequence;
      } else {
        var oldest := snapshots.Oldest();
        smallest := oldest.sequenceNumber;
      }
    }

    /** Decides whether entry i is dropped, from the key and sequence number seen just before it. */
    method Classify(i: nat, currentKey: Option<Key>, lastSequence: nat)
      returns (drop: bool, currentUserKey: Option<Key>, lastSequenceForKey: nat)
      requires Sorted(cmp, input) && i < |input| && deeper.Valid() && deeper.cmp == cmp
      requires i == 0 ==> deeper.asked == None
      requires i > 0 ==> deeper.Ascends(input[i - 1].ukey)
      requires currentKey == if i > 0 && input[i - 1].Parses() then Some(input[i - 1].ukey) else None
      requires currentKey.Some? ==> lastSequence == input[i - 1].Sequence()
      modifies deeper
      ensures deeper.Valid() && deeper.Ascends(input[i].ukey)
      ensures drop == Dropped(input, smallestSnapshot, BaseLevelKeys(cmp, deeper.levels), i)
      ensures currentUserKey == if input[i].Parses() then Some(input[i].ukey) else None
      ensures currentUserKey.Some? ==> lastSequenceForKey == input[i].Sequence()
    {
      var key := input[i];
      currentUserKey, lastSequenceForKey, drop := currentKey, lastSequence, false;
      AscendsTo(i);
      if !key.Parses() {
        currentUserKey := None;
        lastSequenceForKey := MAX_SEQUENCE;
      } else {
        if currentUserKey == None || cmp(key.ukey, currentUserKey.value) != 0 {
          currentUserKey := Some(key.ukey);
          lastSequenceForKey := MAX_SEQUENCE;
        }
        assert lastSequenceForKey == LastSequenceForKey(input, i);
        if lastSequenceForKey <= smallestSnapshot {
          drop := true;
        } else if key.IsDeletion() && key.Sequence() <= smallestSnapshot {
          drop := deeper.IsBaseLevelForKey(key.ukey);
        }
        lastSequenceForKey := key.Sequence();
      }
    }

    /**
     * On success the outputs hold exactly the surviving entries, in order, cut into non-empty tables with exact
     * key ranges and fresh consecutive numbers. Survival is decided at the oldest live snapshot, or at the last
     * sequence number if there is none; so what every reader sees overwritten goes, and so do markers that everybody
     * sees and that hide nothing. File errors and shutdown make it fail instead, and nothing else does.
     */
    method DoCompactionWork(snapshots: SnapshotList, lastSequence: nat) returns (ok: bool)
      requires Sorted(cmp, input) && outputs == [] && !building
      requires deeper.Valid() && deeper.asked == None && deeper.cmp == cmp
      requires snapshots.Valid() && lastSequence < MAX_SEQUENCE
      requires forall t :: t in snapshots.nodes ==> t.sequenceNumber <= lastSequence
      modifies this, deeper
      ensures smallestSnapshot <= lastSequence
      ensures forall t :: t in snapshots.nodes ==> smallestSnapshot <= t.sequenceNumber
      ensures smallestSnapshot == lastSequence || exists t :: t in snapshots.nodes && smallestSnapshot == t.sequenceNumber
      ensures ok ==> Flatten(outputs) == Survivors(|input|)
      ensures ok && Distinct(input) ==> forall i :: 0 <= i && Overwrites(i) && input[i + 1] in Flatten(outputs) ==>
                Unseen(snapshots, lastSequence, input[i].Sequence())
      ensures ok ==> forall e :: e in Flatten(outputs) && e.IsDeletion() ==>
                Unseen(snapshots, lastSequence, e.Sequence()) || !BaseLevel(cmp, deeper.levels, e.ukey)
      ensures !ok <==> failures > old(failures) || stopped
      ensures failures >= old(failures)
      ensures ok ==> (forall o :: o in outputs ==> o.WellFormed()) && !building
      ensures Numbered(old(nextFileNumber))
    {
      hide Sorted, Distinct, Flatten, Overwrites, Unseen, BaseLevel, LevelSorted, Kept;
      smallestSnapshot := SmallestSnapshot(snapshots, lastSequence);
      stopped := false;
      ok := Merge();
      Reclaimed(snapshots, lastSequence);
    }

    /** The loop over the merged input, and the end of the last output. */
    method Merge() returns (ok: bool)
      requires Sorted(cmp, input) && outputs == [] && !building && !stopped
      requires deeper.Valid() && deeper.asked == None && deeper.cmp == cmp
      modifies this`outputs, this`building, this`nextFileNumber, this`failures, this`stopped, deeper
      ensures ok ==> Flatten(outputs) == Survivors(|input|)
      ensures ok ==> (forall o :: o in outputs ==> o.WellFormed()) && !building
      ensures Numbered(old(nextFileNumber))
      ensures !ok <==> failures > old(failures) || stopped
      ensures failures >= old(failures)
    {
      hide Sorted, Dropped, Covers, BaseLevel, LevelSorted, Flatten;
      FlattenNone();
      var i := 0;
      var currentUserKey: Option<Key> := None;
      var lastSequenceForKey: nat := MAX_SEQUENCE;
      var shuttingDown := false;
      ok := true;
      while i < |input|
        invariant 0 <= i <= |input| && Numbered(old(nextFileNumber))
        invariant !shuttingDown && ok && failures == old(failures) && !stopped
        invariant Ready() && deeper.Valid()
        invariant i == 0 ==> deeper.asked == None
        invariant i > 0 ==> deeper.Ascends(input[i - 1].ukey)
        invariant Flatten(outputs) == Survivors(i)
        invariant currentUserKey == if i > 0 && input[i - 1].Parses() then Some(input[i - 1].ukey) else None
        invariant currentUserKey.Some? ==> lastSequenceForKey == input[i - 1].Sequence()
      {
        shuttingDown := *;
        if shuttingDown {
          stopped := true;
          break;
        }
        var key := input[i];
        var shouldStopBefore: bool := *;  // depends on the grandparent overlap
        if shouldStopBefore && building {
          ok := FinishCompactionOutputFile();
          if !ok { break; }
        }
        var drop: bool;
        drop, currentUserKey, lastSequenceForKey := Classify(i, currentUserKey, lastSequenceForKey);
        if !drop {
          ok := Emit(key, old(nextFileNumber));
          if !ok { break; }
        }
        i := i + 1;
      }
      if ok && shuttingDown {
        ok := false;
      }
      if ok && building {
        ok := FinishCompactionOutputFile();
      }
      if ok {
        ok := *;  // input->status()
        failures := failures + (if ok then 0 else 1);
      }
    }

    /** Entry i of the input has the same user key as the next one, which it overwrites. */
    ghost predicate Overwrites(i: int) {
      && 0 <= i < |input| - 1 && input[i].Parses() && input[i + 1].Parses() && input[i].ukey == input[i + 1].ukey
    }

    /** Some reader, at a live snapshot or at the last sequence number, does not see this sequence number. */
    ghost predicate Unseen(snapshots: SnapshotList, lastSequence: nat, sequence: nat)
      reads snapshots
    {
      lastSequence < sequence || exists t :: t in snapshots.nodes && t.sequenceNumber < sequence
    }

    /** What the two rules must take away, told by the snapshots themselves. */
    lemma Reclaimed(snapshots: SnapshotList, lastSequence: nat)
      requires lastSequence < MAX_SEQUENCE && smallestSnapshot <= lastSequence
      requires smallestSnapshot == lastSequence || exists t :: t in snapshots.nodes && smallestSnapshot == t.sequenceNumber
      ensures Sorted(cmp, input) && Distinct(input) ==> forall i :: 0 <= i && Overwrites(i) && input[i + 1] in Survivors(|input|) ==>
                Unseen(snapshots, lastSequence, input[i].Sequence())
      ensures forall e :: e in Survivors(|input|) && e.IsDeletion() ==>
                Unseen(snapshots, lastSequence, e.Sequence()) || !BaseLevel(cmp, deeper.levels, e.ukey)
    {
      hide Kept, Sorted, BaseLevel;
      var base := BaseLevelKeys(cmp, deeper.levels);
      if Sorted(cmp, input) && Distinct(input) {
        forall i | 0 <= i && Overwrites(i) && input[i + 1] in Survivors(|input|)
          ensures Unseen(snapshots, lastSequence, input[i].Sequence())
        {
          var j := SurvivorAt(input, smallestSnapshot, base, input[i + 1]);
          assert j == i + 1;
        }
      }
      forall e | e in Survivors(|input|) && e.IsDeletion()
        ensures Unseen(snapshots, lastSequence, e.Sequence()) || !BaseLevel(cmp, deeper.levels, e.ukey)
      {
        var j := SurvivorAt(input, smallestSnapshot, base, e);
      }
    }

    lemma AscendsTo(i: nat)
      requires Sorted(cmp, input) && i < |input| && deeper.cmp == cmp
      requires i == 0 ==> deeper.asked == None
      requires i > 0 ==> deeper.Ascends(input[i - 1].ukey)
      ensures deeper.Ascends(input[i].ukey)
      ensures i > 0 ==> (cmp(input[i].ukey, input[i - 1].ukey) == 0 <==> input[i].ukey == input[i - 1].ukey)
      ensures cmp(input[i].ukey, input[i].ukey) == 0
    {
      var k := input[i].ukey;
      assert OrderedAt(cmp, k, k, k);
      if i > 0 {
        var p := input[i - 1].ukey;
        KeysAscend(cmp, input, i - 1, i);
        assert OrderedAt(cmp, k, p, p);
        if deeper.asked.Some? {
          assert OrderedAt(cmp, deeper.asked.value, p, k) && OrderedAt(cmp, p, k, k);
        }
      }
    }
  }
}
