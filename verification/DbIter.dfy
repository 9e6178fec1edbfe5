/** The user-facing cursor (db/db_iter.cc): live user keys out of versioned internal entries. */
module DbIter {
  import opened Wrappers
  import opened UserKeys
  import opened DbFormat

  // ----- What a reader at sequence s should see -----

  /** Entry i is the newest visible entry of its user key, and it is a value. */
  ghost predicate Shows(es: seq<Entry>, s: nat, i: int) {
    && 0 <= i < |es| && es[i].Visible(s) && es[i].IsValue()
    && forall j :: 0 <= j < i && es[j].Visible(s) ==> es[j].ukey != es[i].ukey
  }

  /** The live (key, value) pairs among the first n entries, in key order. */
  ghost function Live(es: seq<Entry>, s: nat, n: nat): seq<(Key, seq<byte>)>
    requires n <= |es|
  {
    if n == 0 then []
    else Live(es, s, n - 1) + (if Shows(es, s, n - 1) then [(es[n-1].ukey, es[n-1].value)] else [])
  }

  /** The newest entry of key k at or below sequence s, as an index. */
  ghost predicate Newest(es: seq<Entry>, s: nat, k: Key, i: int) {
    && 0 <= i < |es| && es[i].Visible(s) && es[i].ukey == k
    && forall j :: 0 <= j < |es| && es[j].Visible(s) && es[j].ukey == k ==> es[j].tag <= es[i].tag
  }

  // ----- The simple cursor over the sorted list of live pairs -----

  datatype Op = ToFirst | ToLast | ToKey(target: Key) | Forth | Back

  /** One operation; Forth and Back are only allowed on a valid cursor, and do nothing on another. */
  ghost function Move(cmp: UserComparator, pairs: seq<(Key, seq<byte>)>, c: Option<nat>, op: Op): Option<nat> {
    match op
    case ToFirst => if pairs == [] then None else Some(0)
    case ToLast => if pairs == [] then None else Some(|pairs| - 1)
    case ToKey(target) => var b := LowerBound(cmp, pairs, target); if b < |pairs| then Some(b) else None
    case Forth => if c.Some? && c.value + 1 < |pairs| then Some(c.value + 1) else None
    case Back => if c.Some? && c.value > 0 then Some(c.value - 1) else None
  }

  ghost function Moves(cmp: UserComparator, pairs: seq<(Key, seq<byte>)>, c: Option<nat>, ops: seq<Op>): Option<nat> {
    if ops == [] then c
    else Move(cmp, pairs, Moves(cmp, pairs, c, ops[..|ops| - 1]), ops[|ops| - 1])
  }

  lemma {:induction false} LiveGrows(es: seq<Entry>, s: nat, m: nat, n: nat)
    requires m <= n <= |es|
    ensures Live(es, s, m) <= Live(es, s, n)
    decreases n
  {
    if m < n {
      LiveGrows(es, s, m, n - 1);
    }
  }

  /** Entries that do not show leave the list alone. */
  lemma {:induction false} LiveSkips(es: seq<Entry>, s: nat, m: nat, n: nat)
    requires m <= n <= |es|
    requires forall i :: m <= i < n ==> !Shows(es, s, i)
    ensures Live(es, s, m) == Live(es, s, n)
    decreases n
  {
    if m < n {
      LiveSkips(es, s, m, n - 1);
    }
  }

  /** The pair of a showing entry sits at the position counted by the entries before it. */
  lemma LiveAt(es: seq<Entry>, s: nat, i: nat)
    requires Shows(es, s, i)
    ensures |Live(es, s, i)| < |Live(es, s, |es|)|
    ensures Live(es, s, |es|)[|Live(es, s, i)|] == (es[i].ukey, es[i].value)
  {
    LiveGrows(es, s, i + 1, |es|);
    assert Live(es, s, i + 1)[|Live(es, s, i)|] == (es[i].ukey, es[i].value);
  }

  lemma {:induction false} LiveOrigin(es: seq<Entry>, s: nat, n: nat, c: nat) returns (i: nat)
    requires n <= |es| && c < |Live(es, s, n)|
    ensures i < n && Shows(es, s, i) && |Live(es, s, i)| == c
    ensures Live(es, s, n)[c] == (es[i].ukey, es[i].value)
  {
    if c < |Live(es, s, n - 1)| {
      i := LiveOrigin(es, s, n - 1, c);
    } else {
      i := n - 1;
    }
  }

  /** The live keys are strictly increasing. */
  lemma LiveSorted(cmp: UserComparator, es: seq<Entry>, s: nat, c: nat, d: nat)
    requires Sorted(cmp, es) && c < d < |Live(es, s, |es|)|
    ensures cmp(Live(es, s, |es|)[c].0, Live(es, s, |es|)[d].0) < 0
  {
    var i := LiveOrigin(es, s, |es|, c);
    var j := LiveOrigin(es, s, |es|, d);
    if j < i {
      LiveGrows(es, s, j, i);
    }
    KeysAscend(cmp, es, i, j);
  }

  /** A pair is live exactly when the newest entry of its key at or below s is that value. */
  lemma LiveIsNewest(cmp: UserComparator, es: seq<Entry>, s: nat, k: Key, v: seq<byte>)
    requires Sorted(cmp, es) && Distinct(es)
    ensures (k, v) in Live(es, s, |es|) <==>
            exists i :: Newest(es, s, k, i) && es[i].IsValue() && es[i].value == v
  {
    var live := Live(es, s, |es|);
    if (k, v) in live {
      var c :| 0 <= c < |live| && live[c] == (k, v);
      var i := LiveOrigin(es, s, |es|, c);
      forall j | 0 <= j < |es| && es[j].Visible(s) && es[j].ukey == k
        ensures es[j].tag <= es[i].tag
      {
        KeysAscend(cmp, es, i, if i < j then j else i);
      }
      assert Newest(es, s, k, i);
    }
    if i :| Newest(es, s, k, i) && es[i].IsValue() && es[i].value == v {
      forall j | 0 <= j < i && es[j].Visible(s)
        ensures es[j].ukey != k
      {
        KeysAscend(cmp, es, j, i);
      }
      LiveAt(es, s, i);
    }
  }

  /** From a showing entry (or the front, was = -1) to the next one counts one pair further. */
  lemma Advance(es: seq<Entry>, s: nat, was: int, found: bool, next: int)
    requires -1 <= was < |es| && (was >= 0 ==> Shows(es, s, was))
    requires found ==> Shows(es, s, next) && was < next
    requires forall i :: was < i < (if found then next else |es|) ==> !Shows(es, s, i)
    ensures |Live(es, s, if found then next else |es|)| == if was < 0 then 0 else |Live(es, s, was)| + 1
  {
    LiveSkips(es, s, was + 1, if found then next else |es|);
  }

  /** From position was back to the previous showing entry counts one pair fewer. */
  lemma Retreat(es: seq<Entry>, s: nat, was: nat, found: bool, prev: int)
    requires was <= |es|
    requires found ==> Shows(es, s, prev) && prev < was
    requires forall i :: (if found then prev else -1) < i < was ==> !Shows(es, s, i)
    ensures |Live(es, s, was)| == if found then |Live(es, s, prev)| + 1 else 0
  {
    LiveSkips(es, s, if found then prev + 1 else 0, was);
  }

  /** The first showing entry at or after a lower bound is the lower bound of the live list. */
  lemma SeekPosition(cmp: UserComparator, es: seq<Entry>, s: nat, target: Key, at: nat)
    requires at <= |es| && (at < |es| ==> Shows(es, s, at) && cmp(es[at].ukey, target) >= 0)
    requires forall i :: 0 <= i < at && Shows(es, s, i) ==> cmp(es[i].ukey, target) < 0
    ensures LowerBound(cmp, Live(es, s, |es|), target) == |Live(es, s, at)|
  {
    var live := Live(es, s, |es|);
    LiveGrows(es, s, at, |es|);
    forall c | 0 <= c < |Live(es, s, at)| ensures cmp(live[c].0, target) < 0 {
      var i := LiveOrigin(es, s, at, c);
    }
    if at < |es| {
      LiveAt(es, s, at);
    }
  }

  // ----- The internal iterator: a cursor over the merged, sorted internal entries -----

  class MergedIterator {
    const entries: seq<Entry>
    var pos: int  // out of range when the iterator is not valid

    constructor (entries: seq<Entry>)
      ensures this.entries == entries && pos == -1
    {
      this.entries := entries;
      pos := -1;
    }

    predicate Valid()
      reads this
    {
      0 <= pos < |entries|
    }

    method Next()
      requires Valid()
      modifies this
      ensures pos == if old(pos) + 1 < |entries| then old(pos) + 1 else -1
    {
      pos := if pos + 1 < |entries| then pos + 1 else -1;
    }

    method Prev()
      requires Valid()
      modifies this
      ensures pos == old(pos) - 1
    {
      pos := pos - 1;
    }

    method SeekToFirst()
      modifies this
      ensures pos == if entries == [] then -1 else 0
    {
      pos := if entries == [] then -1 else 0;
    }

    method SeekToLast()
      modifies this
      ensures pos == |entries| - 1
    {
      pos := |entries| - 1;
    }

    /** Positions at the first entry at or after target. */
    method Seek(cmp: UserComparator, target: Entry)
      modifies this
      ensures pos == -1 || Valid()
      ensures forall i :: 0 <= i < |entries| && (pos == -1 || i < pos) ==> Compare(cmp, entries[i], target) < 0
      ensures Valid() ==> Compare(cmp, entries[pos], target) >= 0
    {
      pos := 0;
      while pos < |entries| && Compare(cmp, entries[pos], target) < 0
        invariant 0 <= pos <= |entries|
        invariant forall i :: 0 <= i < pos ==> Compare(cmp, entries[i], target) < 0
      {
        pos := pos + 1;
      }
      if pos == |entries| {
        pos := -1;
      }
    }
  }

  datatype Direction = Forward | Reverse

  ghost predicate HasBadKey(es: seq<Entry>) {
    exists e :: e in es && !e.Parses()
  }

  ghost predicate AllParse(es: seq<Entry>, lo: int, hi: int) {
    forall q :: 0 <= q < |es| && lo <= q < hi ==> es[q].Parses()
  }

  /** Unparseable entries strictly between are of the later one's user key. */
  ghost predicate SameOrParse(es: seq<Entry>, lo: int, at: int) {
    -1 <= lo < at < |es| && forall q :: lo < q < at ==> es[q].Parses() || es[q].ukey == es[at].ukey
  }

  lemma BackNoticed(es: seq<Entry>, to: int, start: int, at: int)
    requires SameOrParse(es, start, at) && AllParse(es, to, start + 1)
    ensures forall q :: 0 <= q && to <= q < at && !es[q].Parses() ==> es[q].ukey == es[at].ukey
  {
  }

  lemma NoneUnparsed(es: seq<Entry>, at: int)
    ensures AllParse(es, at, at)
  {
  }

  lemma OneMoreParses(es: seq<Entry>, lo: int, q: int, hi: int)
    requires 0 <= q < |es| && es[q].Parses()
    ensures AllParse(es, lo, q) ==> AllParse(es, lo, q + 1)
    ensures AllParse(es, q + 1, hi) ==> AllParse(es, q, hi)
  {
  }

  lemma FewerParse(es: seq<Entry>, lo: int, hi: int, lo': int, hi': int)
    requires AllParse(es, lo, hi) && lo <= lo' && hi' <= hi
    ensures AllParse(es, lo', hi')
  {
  }

  /** Moving in reverse, the internal iterator stands just before the current entry's key, which has been saved. */
  ghost predicate Behind(cmp: UserComparator, es: seq<Entry>, s: nat, q: int, cur: int, savedKey: Key, savedValue: seq<byte>) {
    && -1 <= q < cur < |es|
    && savedKey == es[cur].ukey && savedValue == es[cur].value
    && (q >= 0 ==> cmp(es[q].ukey, savedKey) < 0)
    && forall i :: q < i < cur ==> !es[i].Visible(s)
  }

  // ----- The forward scan: entry q is next, and entry h, if skipping, hides the rest of its key -----

  /** Nothing from index from up to q shows, and what the scan remembers of them is right. */
  ghost predicate Passed(es: seq<Entry>, s: nat, from: nat, hider: int, skipping: bool, h: int, q: int, savedKey: Key) {
    && 0 <= q <= |es|
    && (skipping ==>
          && 0 <= h < |es| && es[h].Visible(s) && savedKey == es[h].ukey
          && (q <= h ==> from == h + 1 && es[h].IsValue() && h == hider && forall i :: q <= i < h ==> !es[i].Visible(s))
          && (h < q ==> from <= q)
          && forall i :: h < i < q && es[i].Visible(s) ==> es[i].ukey == es[h].ukey)
    && (!skipping ==>
          && from <= q && from < |es|
          && (forall i :: from <= i < q ==> !es[i].Visible(s))
          && forall i :: 0 <= i < from && es[i].Visible(s) ==> es[i].ukey != es[from].ukey)
    && NoneShow(es, s, from, q)
  }

  ghost predicate NoneShow(es: seq<Entry>, s: nat, from: nat, q: int) {
    forall i :: from <= i < q ==> !Shows(es, s, i)
  }

  lemma PassedAtStart(cmp: UserComparator, es: seq<Entry>, s: nat, from: nat, hider: int, skip: bool, q: int, savedKey: Key)
    requires Sorted(cmp, es) && 0 <= q < |es|
    requires skip ==>
               && Shows(es, s, hider) && savedKey == es[hider].ukey && from == hider + 1
               && q <= hider && forall i :: q <= i < hider ==> !es[i].Visible(s)
    requires !skip ==>
               from == q && forall i :: 0 <= i < from && es[i].Visible(s) ==> es[i].ukey != es[from].ukey
    ensures Passed(es, s, from, hider, skip, hider, q, savedKey)
  {
  }

  lemma PassedUnseen(es: seq<Entry>, s: nat, from: nat, hider: int, skipping: bool, h: int, q: int, savedKey: Key)
    requires Passed(es, s, from, hider, skipping, h, q, savedKey) && q < |es| && !es[q].Visible(s)
    ensures Passed(es, s, from, hider, skipping, h, q + 1, savedKey)
  {
  }

  lemma PassedDeletion(cmp: UserComparator, es: seq<Entry>, s: nat, from: nat, hider: int, skipping: bool, h: int, q: int, savedKey: Key)
    requires Sorted(cmp, es) && Passed(es, s, from, hider, skipping, h, q, savedKey)
    requires q < |es| && es[q].Visible(s) && es[q].IsDeletion()
    ensures Passed(es, s, from, hider, true, q, q + 1, es[q].ukey)
  {
  }

  lemma PassedHidden(cmp: UserComparator, es: seq<Entry>, s: nat, from: nat, hider: int, h: int, q: int, savedKey: Key)
    requires Sorted(cmp, es) && Passed(es, s, from, hider, true, h, q, savedKey)
    requires q < |es| && es[q].Visible(s) && cmp(es[q].ukey, savedKey) <= 0
    ensures Passed(es, s, from, hider, true, h, q + 1, savedKey)
  {
    if h < q {
      KeysAscend(cmp, es, h, q);
    }
  }

  /** A visible value that no remembered entry hides is the newest of its key. */
  lemma PassedToShowing(cmp: UserComparator, es: seq<Entry>, s: nat, from: nat, hider: int, skipping: bool, h: int, q: int, savedKey: Key)
    requires Sorted(cmp, es) && Passed(es, s, from, hider, skipping, h, q, savedKey)
    requires q < |es| && es[q].Visible(s) && es[q].IsValue() && !(skipping && cmp(es[q].ukey, savedKey) <= 0)
    ensures Shows(es, s, q) && from <= q && NoneShow(es, s, from, q)
  {
    if skipping {
      assert OrderedAt(cmp, es[q].ukey, es[q].ukey, es[q].ukey);
      if h < q { KeysAscend(cmp, es, h, q); } else { KeysAscend(cmp, es, q, h); }
    }
    forall j | 0 <= j < q && es[j].Visible(s) ensures es[j].ukey != es[q].ukey {
      if es[j].ukey == es[q].ukey {
        Contiguous(cmp, es, j, if skipping && j <= h then h else if !skipping then from else q, q);
      }
    }
  }

  lemma PassedAll(es: seq<Entry>, s: nat, from: nat, hider: int, skipping: bool, h: int, savedKey: Key)
    requires Passed(es, s, from, hider, skipping, h, |es|, savedKey)
    ensures forall i :: from <= i ==> !Shows(es, s, i)
  {
  }

  // ----- The backward scan from start: entries after q are behind it, and c, if there is a value, is the last seen -----

  ghost predicate BackPassed(es: seq<Entry>, s: nat, start: int, isValue: bool, c: int, q: int, savedKey: Key,
                             savedValue: seq<byte>) {
    && -1 <= q <= start < |es|
    && (!isValue ==> NoneShow(es, s, q + 1, start + 1))
    && (isValue ==>
          && q < c <= start && es[c].Visible(s) && es[c].IsValue()
          && savedKey == es[c].ukey && savedValue == es[c].value
          && (forall i :: q < i < c ==> !es[i].Visible(s))
          && NoneShow(es, s, c + 1, start + 1))
  }

  lemma BackStarts(es: seq<Entry>, s: nat, start: int, savedKey: Key, savedValue: seq<byte>)
    requires -1 <= start < |es|
    ensures BackPassed(es, s, start, false, -1, start, savedKey, savedValue)
  {
  }

  lemma BackUnseen(es: seq<Entry>, s: nat, start: int, isValue: bool, c: int, q: int, savedKey: Key, savedValue: seq<byte>)
    requires BackPassed(es, s, start, isValue, c, q, savedKey, savedValue) && q >= 0 && !es[q].Visible(s)
    ensures BackPassed(es, s, start, isValue, c, q - 1, savedKey, savedValue)
  {
    assert !Shows(es, s, q);
  }

  /** A visible entry takes the place of the one remembered, which is of the same key and so is hidden by it. */
  lemma BackSeen(cmp: UserComparator, es: seq<Entry>, s: nat, start: int, isValue: bool, c: int, q: int, savedKey: Key, savedValue: seq<byte>)
    requires Sorted(cmp, es) && BackPassed(es, s, start, isValue, c, q, savedKey, savedValue) && q >= 0 && es[q].Visible(s)
    requires isValue ==> cmp(es[q].ukey, savedKey) >= 0
    ensures es[q].IsValue() ==> BackPassed(es, s, start, true, q, q - 1, es[q].ukey, es[q].value)
    ensures !es[q].IsValue() ==> BackPassed(es, s, start, false, c, q - 1, [], [])
  {
    if isValue {
      KeysAscend(cmp, es, q, c);
      assert !Shows(es, s, c);
    }
    assert !es[q].IsValue() ==> !Shows(es, s, q);
  }

  lemma BackEnds(cmp: UserComparator, es: seq<Entry>, s: nat, start: int, isValue: bool, c: int, q: int, savedKey: Key, savedValue: seq<byte>)
    requires Sorted(cmp, es) && BackPassed(es, s, start, isValue, c, q, savedKey, savedValue)
    requires q >= 0 ==> isValue && cmp(es[q].ukey, savedKey) < 0
    ensures isValue ==> Shows(es, s, c) && Behind(cmp, es, s, q, c, savedKey, savedValue)
    ensures isValue ==> c <= start && forall i :: c < i <= start ==> !Shows(es, s, i)
    ensures !isValue ==> forall i :: i <= start ==> !Shows(es, s, i)
  {
    if isValue {
      assert OrderedAt(cmp, es[c].ukey, es[c].ukey, es[c].ukey);
      forall j | 0 <= j < c && es[j].Visible(s) ensures es[j].ukey != es[c].ukey {
        if es[j].ukey == es[c].ukey && q >= 0 {
          Contiguous(cmp, es, j, q, c);
        }
      }
    }
  }

  /** The internal seek stops at the first entry at or after target that the sequence number allows. */
  lemma SeekStart(cmp: UserComparator, es: seq<Entry>, s: nat, target: Key, first: int)
    requires Sorted(cmp, es) && 0 <= first <= |es|
    requires forall i :: 0 <= i < first ==> Compare(cmp, es[i], Entry(target, Tag(s, TYPE_VALUE), [])) < 0
    requires first < |es| ==> Compare(cmp, es[first], Entry(target, Tag(s, TYPE_VALUE), [])) >= 0
    ensures forall i :: 0 <= i < first && es[i].Visible(s) ==> cmp(es[i].ukey, target) < 0
    ensures forall i :: 0 <= i < first && Shows(es, s, i) ==> cmp(es[i].ukey, target) < 0
    ensures first < |es| ==> cmp(es[first].ukey, target) >= 0
    ensures first < |es| ==> forall i :: 0 <= i < first && es[i].Visible(s) ==> es[i].ukey != es[first].ukey
  {
  }

  lemma SeekResult(cmp: UserComparator, es: seq<Entry>, target: Key, first: int, cur: int)
    requires Sorted(cmp, es) && 0 <= first <= cur < |es| && cmp(es[first].ukey, target) >= 0
    ensures cmp(es[cur].ukey, target) >= 0
  {
    KeysAscend(cmp, es, first, cur);
    assert OrderedAt(cmp, target, es[first].ukey, es[cur].ukey) && OrderedAt(cmp, es[first].ukey, target, target);
    assert OrderedAt(cmp, es[cur].ukey, target, target) && OrderedAt(cmp, target, es[cur].ukey, target);
  }

  // ----- DBIter -----

  class DBIter {
    const cmp: UserComparator
    const sequence: nat
    const iter: MergedIterator
    var savedKey: Key            // current key when direction is Reverse
    var savedValue: seq<byte>    // current value when direction is Reverse
    var direction: Direction
    var valid: bool
    var corrupted: bool          // status_ holds a corruption
    ghost var cur: int           // the internal entry that yields the current pair

    ghost predicate Inv()
      reads this, iter
    {
      && Sorted(cmp, iter.entries)
      && -1 <= iter.pos < |iter.entries|
      && (corrupted ==> HasBadKey(iter.entries))
      && (valid ==>
            && Shows(iter.entries, sequence, cur)
            && (direction == Forward ==> iter.pos == cur)
            && (direction == Reverse ==> Behind(cmp, iter.entries, sequence, iter.pos, cur, savedKey, savedValue))
            && (direction == Reverse ==> corrupted || AllParse(iter.entries, iter.pos + 1, cur)))
    }

    /** The sorted list of live pairs this iterator walks. */
    ghost function Pairs(): seq<(Key, seq<byte>)>
      reads this, iter
    {
      Live(iter.entries, sequence, |iter.entries|)
    }

    /** Where in that list the iterator stands; none when it is not valid. */
    ghost function Cursor(): (c: Option<nat>)
      requires Inv()
      reads this, iter
    {
      if valid then Some(|Live(iter.entries, sequence, cur)|) else None
    }

    /** Corruption is not forgotten, and an unparseable key from lo up to hi has been noticed. */
    ghost predicate Noticed(before: bool, lo: int, hi: int)
      reads this, iter
    {
      (before ==> corrupted) && (corrupted || AllParse(iter.entries, lo, hi))
    }

    /** key() and value() report the pair at the cursor. */
    ghost predicate Reports()
      requires Inv()
      reads this, iter
    {
      match Cursor()
      case None => !valid
      case Some(c) => valid && c < |Pairs()| && Pairs()[c] == (CurrentKey(), CurrentValue())
    }

    constructor (cmp: UserComparator, iter: MergedIterator, sequence: nat)
      requires Sorted(cmp, iter.entries) && -1 <= iter.pos < |iter.entries|
      ensures this.cmp == cmp && this.iter == iter && this.sequence == sequence
      ensures Inv() && !valid
    {
      this.cmp, this.iter, this.sequence := cmp, iter, sequence;
      savedKey, savedValue, direction, valid, corrupted := [], [], Forward, false, false;
      cur := -1;
    }

    function CurrentKey(): Key
      requires Inv() && valid
      reads this, iter
    {
      if direction == Forward then iter.entries[iter.pos].ukey else savedKey
    }

    function CurrentValue(): seq<byte>
      requires Inv() && valid
      reads this, iter
    {
      if direction == Forward then iter.entries[iter.pos].value else savedValue
    }

    lemma AtCursor()
      requires Inv()
      ensures Reports()
    {
      if valid {
        LiveAt(iter.entries, sequence, cur);
      }
    }

    method ParseKey() returns (ok: bool)
      requires iter.Valid()
      modifies this`corrupted
      ensures ok == iter.entries[iter.pos].Parses()
      ensures corrupted == (old(corrupted) || !ok)
      ensures !ok ==> HasBadKey(iter.entries)
    {
      ok := iter.entries[iter.pos].Parses();
      if !ok {
        corrupted := true;
      }
    }

    /** Moves forward to the first showing entry at or after index from; hider is the entry whose key is skipped. */
    method FindNextUserEntry(skip: bool, ghost hider: int, ghost from: nat)
      requires Sorted(cmp, iter.entries) && iter.Valid() && direction == Forward
      requires corrupted ==> HasBadKey(iter.entries)
      requires Passed(iter.entries, sequence, from, hider, skip, hider, iter.pos, savedKey)
      modifies this, iter
      ensures Inv() && direction == Forward
      ensures valid ==> from <= cur && forall i :: from <= i < cur ==> !Shows(iter.entries, sequence, i)
      ensures !valid ==> forall i :: from <= i ==> !Shows(iter.entries, sequence, i)
      ensures Noticed(old(corrupted), old(iter.pos), if valid then cur else |iter.entries|)
    {
      hide Sorted, Shows, Passed, HasBadKey, Behind, AllParse;
      NoneUnparsed(iter.entries, iter.pos);
      var skipping := skip;
      ghost var es, h := iter.entries, hider;
      while true
        invariant iter.Valid() && direction == Forward && es == iter.entries
        invariant corrupted ==> HasBadKey(es)
        invariant Noticed(old(corrupted), old(iter.pos), iter.pos)
        invariant Passed(es, sequence, from, hider, skipping, h, iter.pos, savedKey)
        decreases |es| - iter.pos
      {
        var e := iter.entries[iter.pos];
        ghost var q := iter.pos;
        var parsed := ParseKey();
        if parsed && e.Sequence() <= sequence {
          if e.IsDeletion() {
            PassedDeletion(cmp, es, sequence, from, hider, skipping, h, q, savedKey);
            savedKey := e.ukey;
            skipping := true;
            h := q;
          } else if skipping && cmp(e.ukey, savedKey) <= 0 {
            // Entry hidden
            PassedHidden(cmp, es, sequence, from, hider, h, q, savedKey);
          } else {
            PassedToShowing(cmp, es, sequence, from, hider, skipping, h, q, savedKey);
            valid := true;
            savedKey := [];
            cur := q;
            return;
          }
        } else {
          PassedUnseen(es, sequence, from, hider, skipping, h, q, savedKey);
        }
        if parsed { OneMoreParses(es, old(iter.pos), q, 0); }
        iter.Next();
        if !iter.Valid() {
          break;
        }
      }
      PassedAll(es, sequence, from, hider, skipping, h, savedKey);
      savedKey := [];
      valid := false;
    }

    /** Moves backward to the last showing entry at or before the current position. */
    method FindPrevUserEntry()
      requires Sorted(cmp, iter.entries) && -1 <= iter.pos < |iter.entries| && direction == Reverse
      requires corrupted ==> HasBadKey(iter.entries)
      modifies this, iter
      ensures Inv()
      ensures valid ==> cur <= old(iter.pos) && forall i :: cur < i <= old(iter.pos) ==> !Shows(iter.entries, sequence, i)
      ensures !valid ==> forall i :: i <= old(iter.pos) ==> !Shows(iter.entries, sequence, i)
      ensures Noticed(old(corrupted), if valid then cur else 0, old(iter.pos) + 1)
    {
      hide Sorted, Shows, BackPassed, HasBadKey, Behind, AllParse;
      NoneUnparsed(iter.entries, iter.pos + 1);
      var isValue := false;  // value_type == kTypeValue
      ghost var es, start, c := iter.entries, iter.pos, -1;
      BackStarts(es, sequence, start, savedKey, savedValue);
      while iter.Valid()
        invariant -1 <= iter.pos <= start < |es| && direction == Reverse && es == iter.entries
        invariant corrupted ==> HasBadKey(es)
        invariant Noticed(old(corrupted), iter.pos + 1, start + 1) && (isValue ==> iter.pos < c) && c <= start
        invariant BackPassed(es, sequence, start, isValue, c, iter.pos, savedKey, savedValue)
        decreases iter.pos
      {
        var e := iter.entries[iter.pos];
        var parsed := ParseKey();
        if parsed && e.Sequence() <= sequence {
          if isValue {
            if cmp(e.ukey, savedKey) < 0 {
              break;
            }
          }
          BackSeen(cmp, es, sequence, start, isValue, c, iter.pos, savedKey, savedValue);
          isValue := e.IsValue();
          if !isValue {
            savedKey, savedValue := [], [];
          } else {
            savedKey, savedValue := e.ukey, e.value;
            c := iter.pos;
          }
        } else {
          BackUnseen(es, sequence, start, isValue, c, iter.pos, savedKey, savedValue);
        }
        if parsed { OneMoreParses(es, 0, iter.pos, start + 1); }
        iter.Prev();
      }
      if !corrupted {
        FewerParse(es, iter.pos + 1, start + 1, if isValue then c else 0, start + 1);
        FewerParse(es, iter.pos + 1, start + 1, iter.pos + 1, c);
      }
      BackEnds(cmp, es, sequence, start, isValue, c, iter.pos, savedKey, savedValue);
      if !isValue {
        valid := false;
        savedKey, savedValue := [], [];
        direction := Forward;
      } else {
        valid := true;
        cur := c;
      }
    }

    /** The first half of Next: the internal iterator faces forward, at or before the current entry, whose key is saved. */
    method FaceForward()
      requires Inv() && valid
      modifies this`direction, this`savedKey, iter
      ensures direction == Forward && iter.Valid() && iter.pos <= cur
      ensures Passed(iter.entries, sequence, cur + 1, cur, true, cur, iter.pos, savedKey)
    {
      hide Sorted, HasBadKey, Passed;
      ghost var es, was := iter.entries, cur;
      if direction == Reverse {
        direction := Forward;
        if !iter.Valid() {
          iter.SeekToFirst();
        } else {
          iter.Next();
        }
        if !iter.Valid() {
          assert false;  // the entries of the current key lie ahead
        }
      } else {
        savedKey := iter.entries[iter.pos].ukey;
      }
      PassedAtStart(cmp, es, sequence, was + 1, was, true, iter.pos, savedKey);
    }

    method Next()
      requires Inv() && valid
      modifies this, iter
      ensures Inv() && Reports() && Pairs() == old(Pairs())
      ensures Cursor() == Move(cmp, Pairs(), old(Cursor()), Forth)
      ensures Noticed(old(corrupted), old(cur), if valid then cur else |iter.entries|)
    {
      hide Sorted, HasBadKey, Passed, Behind, AllParse;
      ghost var es, was := iter.entries, cur;
      FaceForward();
      ghost var at := iter.pos;
      FindNextUserEntry(true, was, was + 1);
      if !corrupted { FewerParse(es, at, if valid then cur else |es|, was, if valid then cur else |es|); }
      AtCursor();
      Advance(es, sequence, was, valid, cur);
      LiveAt(es, sequence, was);
    }

    method Prev()
      requires Inv() && valid
      modifies this, iter
      ensures Inv() && Reports() && Pairs() == old(Pairs())
      ensures Cursor() == Move(cmp, Pairs(), old(Cursor()), Back)
      ensures old(corrupted) ==> corrupted
      ensures forall q :: 0 <= q && (if valid then cur else 0) <= q < old(cur) && !iter.entries[q].Parses() ==>
                corrupted || iter.entries[q].ukey == iter.entries[old(cur)].ukey
    {
      hide Sorted, HasBadKey, Behind, Shows, AllParse;
      ghost var es, was := iter.entries, cur;
      var any := FaceBackward();
      if !any {
        Retreat(es, sequence, was, false, -1);
        return;
      }
      ghost var start := iter.pos;
      FindPrevUserEntry();
      AtCursor();
      Retreat(es, sequence, was, valid, cur);
      if !corrupted { BackNoticed(es, if valid then cur else 0, start, was); }
    }

    /**
     * The first half of Prev: the internal iterator goes to before the current entry's key, or off the front. Keys of
     * the current user key are passed unparsed on the way.
     */
    method FaceBackward() returns (any: bool)
      requires Inv() && valid
      modifies this`direction, this`savedKey, this`savedValue, this`valid, iter
      ensures cur < |iter.entries| && (any ==> direction == Reverse && -1 <= iter.pos < cur)
      ensures any ==> (corrupted || SameOrParse(iter.entries, iter.pos, cur))
      ensures any ==> forall i :: iter.pos < i < cur ==> !Shows(iter.entries, sequence, i)
      ensures !any ==> Inv() && !valid && (forall i :: 0 <= i < cur ==> !Shows(iter.entries, sequence, i)) && SameOrParse(iter.entries, -1, cur)
    {
      hide HasBadKey;
      ghost var es := iter.entries;
      if direction == Forward {
        savedKey := iter.entries[iter.pos].ukey;
        while true
          invariant iter.Valid() && es == iter.entries && iter.pos <= cur
          invariant valid && direction == Forward && savedKey == es[cur].ukey
          invariant forall i :: iter.pos <= i <= cur ==> es[i].ukey == savedKey
          decreases iter.pos
        {
          iter.Prev();
          if !iter.Valid() {
            valid := false;
            savedKey, savedValue := [], [];
            return false;
          }
          KeysAscend(cmp, es, iter.pos, cur);
          if cmp(iter.entries[iter.pos].ukey, savedKey) < 0 {
            break;
          }
        }
        direction := Reverse;
      }
      any := true;
    }

    /** Entries from the lookup on: those of the target that the reader might see, and those of later keys. */
    method Seek(target: Key)
      requires Inv()
      modifies this, iter
      ensures Inv() && Reports() && Pairs() == old(Pairs())
      ensures Cursor() == Move(cmp, Pairs(), old(Cursor()), ToKey(target))
      ensures old(corrupted) ==> corrupted
      ensures forall q :: 0 <= q < (if valid then cur else |iter.entries|) && !iter.entries[q].Parses() ==>
                corrupted || Compare(cmp, iter.entries[q], Entry(target, Tag(sequence, TYPE_VALUE), [])) < 0
    {
      hide Sorted, Shows, Behind, HasBadKey, Compare, NoneShow;
      ghost var es := iter.entries;
      direction := Forward;
      savedValue := [];
      savedKey := [];  // scratch space for the encoded lookup key, never read back
      var lookup := Entry(target, Tag(sequence, TYPE_VALUE), []);
      iter.Seek(cmp, lookup);
      ghost var first := if iter.Valid() then iter.pos else |es|;
      SeekStart(cmp, es, sequence, target, first);
      if iter.Valid() {
        PassedAtStart(cmp, es, sequence, first, -1, false, iter.pos, savedKey);
        FindNextUserEntry(false, -1, first);
      } else {
        valid := false;
      }
      AtCursor();
      ghost var at := if valid then cur else |es|;
      if valid {
        SeekResult(cmp, es, target, first, cur);
      }
      SeekPosition(cmp, es, sequence, target, at);
    }

    method SeekToFirst()
      requires Inv()
      modifies this, iter
      ensures Inv() && Reports() && Pairs() == old(Pairs())
      ensures Cursor() == Move(cmp, Pairs(), old(Cursor()), ToFirst)
      ensures Noticed(old(corrupted), 0, if valid then cur else |iter.entries|)
    {
      direction := Forward;
      savedValue := [];
      iter.SeekToFirst();
      if iter.Valid() {
        PassedAtStart(cmp, iter.entries, sequence, 0, -1, false, iter.pos, savedKey);
        FindNextUserEntry(false, -1, 0);
      } else {
        valid := false;
      }
      AtCursor();
      Advance(iter.entries, sequence, -1, valid, cur);
    }

    method SeekToLast()
      requires Inv()
      modifies this, iter
      ensures Inv() && Reports() && Pairs() == old(Pairs())
      ensures Cursor() == Move(cmp, Pairs(), old(Cursor()), ToLast)
      ensures Noticed(old(corrupted), if valid then cur else 0, |iter.entries|)
    {
      direction := Reverse;
      savedValue := [];
      iter.SeekToLast();
      FindPrevUserEntry();
      AtCursor();
      Retreat(iter.entries, sequence, |iter.entries|, valid, cur);
    }

    /** Any run of operations, in any order, leaves the iterator where the simple cursor ends up. */
    method Run(ops: seq<Op>)
      requires Inv()
      modifies this, iter
      ensures Inv() && Reports() && Pairs() == old(Pairs())
      ensures Cursor() == Moves(cmp, Pairs(), old(Cursor()), ops)
      ensures old(corrupted) ==> corrupted
    {
      AtCursor();
      for n := 0 to |ops|
        invariant Inv() && Reports() && Pairs() == old(Pairs()) && (old(corrupted) ==> corrupted)
        invariant Cursor() == Moves(cmp, Pairs(), old(Cursor()), ops[..n])
      {
        assert ops[..n+1][..n] == ops[..n];
        match ops[n] {
          case ToFirst => SeekToFirst();
          case ToLast => SeekToLast();
          case ToKey(target) => Seek(target);
          case Forth => if valid { Next(); }
          case Back => if valid { Prev(); }
        }
      }
      assert ops[..|ops|] == ops;
    }
  }
}
