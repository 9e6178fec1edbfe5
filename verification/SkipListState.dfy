/**
 * The skip list (db/skiplist.h) as shared memory: an arena of nodes, one store or load at a time. Node 0 is the
 * head; a link holding 0 is null.
 */
module SkipListState {
  import opened UserKeys

  const MAX_HEIGHT := 12

  /** keys[n] and next[n][level] of every node allocated so far; a node has as many links as its height. */
  datatype Memory = Memory(keys: seq<Key>, next: seq<seq<nat>>, maxHeight: nat)

  /** The nodes of each level's list, in order, without the head. */
  type Chains = seq<seq<nat>>

  function At(c: seq<nat>, i: nat): nat {
    if i < |c| then c[i] else 0
  }

  ghost predicate Shape(m: Memory) {
    && |m.keys| == |m.next| > 0
    && |m.next[0]| == MAX_HEIGHT
    && 1 <= m.maxHeight <= MAX_HEIGHT
  }

  ghost predicate InArena(m: Memory, level: nat, n: nat) {
    0 < n < |m.keys| == |m.next| && level < |m.next[n]|
  }

  ghost predicate Less(cmp: Comparator, m: Memory, a: nat, b: nat)
    requires a < |m.keys| && b < |m.keys|
  {
    cmp(m.keys[a], m.keys[b]) < 0
  }

  /** The link out of entry i of a level's chain (entry -1 is the head) leads to entry i + 1. */
  ghost predicate LinkOk(m: Memory, c: seq<nat>, level: nat, i: int)
    requires Shape(m) && level < MAX_HEIGHT && -1 <= i < |c|
  {
    var n := if i == -1 then 0 else c[i];
    (i >= 0 ==> InArena(m, level, n)) && m.next[n][level] == At(c, i + 1)
  }

  ghost predicate OrderOk(cmp: Comparator, m: Memory, c: seq<nat>, i: nat, j: nat)
    requires i < j < |c|
  {
    c[i] < |m.keys| && c[j] < |m.keys| && Less(cmp, m, c[i], c[j])
  }

  /** The links of one level thread exactly the nodes of its chain, in strictly ascending key order. */
  ghost predicate LevelOk(cmp: Comparator, m: Memory, c: seq<nat>, level: nat)
    requires Shape(m) && level < MAX_HEIGHT
  {
    && (forall i :: -1 <= i < |c| ==> LinkOk(m, c, level, i))
    && (forall i, j :: 0 <= i < j < |c| ==> OrderOk(cmp, m, c, i, j))
  }

  ghost predicate LinkedBelow(chains: Chains, level: nat)
    requires 0 < level < |chains|
  {
    forall n :: n in chains[level] ==> n in chains[level - 1]
  }

  /** The list is in order at every level, and what is linked at a level is linked below it. */
  ghost predicate Inv(cmp: Comparator, m: Memory, chains: Chains) {
    && Shape(m)
    && |chains| == MAX_HEIGHT
    && (forall l :: 0 <= l < MAX_HEIGHT ==> LevelOk(cmp, m, chains[l], l))
    && (forall l :: 0 < l < MAX_HEIGHT ==> LinkedBelow(chains, l))
    && forall l :: m.maxHeight <= l < MAX_HEIGHT ==> chains[l] == []
  }

  /** Node n comes before the searched key; a search without a key (FindLast) passes every node. */
  predicate KeyIsAfterNode(cmp: Comparator, m: Memory, target: Search, n: nat)
    requires n < |m.keys|
  {
    n != 0 && (target.End? || cmp(m.keys[n], target.key) < 0)
  }

  datatype Search = To(key: Key) | End

  /** Node x (or the head) is the last of a level before the target, and r (or null) is the first not before it. */
  ghost predicate Splits(cmp: Comparator, m: Memory, c: seq<nat>, target: Search, x: nat, r: nat) {
    exists i :: SplitsAt(cmp, m, c, target, x, r, i)
  }

  /** Entry j lies before the target exactly when it is one of the first i. */
  ghost predicate SideOk(cmp: Comparator, m: Memory, c: seq<nat>, target: Search, i: nat, j: nat)
    requires j < |c|
  {
    c[j] < |m.keys| && (KeyIsAfterNode(cmp, m, target, c[j]) <==> j < i)
  }

  ghost predicate SplitsAt(cmp: Comparator, m: Memory, c: seq<nat>, target: Search, x: nat, r: nat, i: nat) {
    && i <= |c|
    && x == (if i == 0 then 0 else c[i - 1])
    && r == At(c, i)
    && forall j :: 0 <= j < |c| ==> SideOk(cmp, m, c, target, i, j)
  }

  /** Where the searches may stand: on the head, or on a node of the level they are at that is before the target. */
  ghost predicate Standing(cmp: Comparator, m: Memory, chains: Chains, target: Search, x: nat, level: nat) {
    && level < MAX_HEIGHT == |chains|
    && x < |m.keys|
    && (x == 0 || (x in chains[level] && KeyIsAfterNode(cmp, m, target, x)))
  }

  /** The node a search stands on is entry i - 1 of its level (the head when i is 0). */
  ghost predicate StandsAt(chains: Chains, x: nat, level: nat, i: nat)
    requires level < |chains|
  {
    i <= |chains[level]| && x == if i == 0 then 0 else chains[level][i - 1]
  }

  lemma FindPlace(cmp: Comparator, m: Memory, chains: Chains, target: Search, x: nat, level: nat) returns (i: nat)
    requires Inv(cmp, m, chains) && Standing(cmp, m, chains, target, x, level)
    ensures StandsAt(chains, x, level, i)
  {
    if x == 0 {
      i := 0;
    } else {
      i :| i < |chains[level]| && chains[level][i] == x;
      i := i + 1;
    }
  }

  /** Loading a link at a level splits that level when the node found is not before the target. */
  lemma LoadedLink(cmp: Comparator, m: Memory, chains: Chains, target: Search, x: nat, level: nat, i: nat)
    requires Inv(cmp, m, chains) && Standing(cmp, m, chains, target, x, level) && StandsAt(chains, x, level, i)
    ensures level < |m.next[x]| && m.next[x][level] < |m.keys|
    ensures var r := m.next[x][level];
            if KeyIsAfterNode(cmp, m, target, r)
            then Standing(cmp, m, chains, target, r, level) && StandsAt(chains, r, level, i + 1)
            else SplitsAt(cmp, m, chains[level], target, x, r, i)
  {
    var c := chains[level];
    assert LevelOk(cmp, m, c, level);
    assert LinkOk(m, c, level, i - 1);
    if i < |c| {
      assert LinkOk(m, c, level, i);
    }
    if !KeyIsAfterNode(cmp, m, target, m.next[x][level]) {
      forall j | 0 <= j < |c| ensures SideOk(cmp, m, c, target, i, j) {
        assert LinkOk(m, c, level, j);
        if j < i - 1 && target.To? {
          assert OrderOk(cmp, m, c, j, i - 1);
          Before(cmp, m.keys[c[j]], m.keys[x], target.key);
        } else if j > i && target.To? {
          assert OrderOk(cmp, m, c, i, j);
          Before(cmp, m.keys[c[i]], m.keys[c[j]], target.key);
        }
      }
    }
  }

  /** A search may go down a level from where it stands. */
  lemma GoDown(cmp: Comparator, m: Memory, chains: Chains, target: Search, x: nat, level: nat)
    requires Inv(cmp, m, chains) && Standing(cmp, m, chains, target, x, level) && level > 0
    ensures Standing(cmp, m, chains, target, x, level - 1)
  {
    assert LinkedBelow(chains, level);
  }

  // ----- The stores of an insertion -----

  function StoreNext(m: Memory, n: nat, level: nat, x: nat): Memory
    requires n < |m.next| && level < |m.next[n]|
  {
    var links: seq<nat> := m.next[n];
    m.(next := m.next[n := links[level := x]])
  }

  lemma Stored(m: Memory, n: nat, level: nat, x: nat, k: nat)
    requires n < |m.next| && level < |m.next[n]| && k < |m.next|
    ensures var m' := StoreNext(m, n, level, x);
            && |m'.next| == |m.next| && |m'.next[k]| == |m.next[k]| && m'.keys == m.keys && m'.maxHeight == m.maxHeight
            && (level < |m.next[k]| ==> m'.next[k][level] == if k == n then x else m.next[k][level])
  {
  }

  function StoreMaxHeight(m: Memory, height: nat): Memory {
    m.(maxHeight := height)
  }

  /** A new node with null links; nothing points at it yet. */
  function Allocate(m: Memory, key: Key, height: nat): Memory {
    m.(keys := m.keys + [key], next := m.next + [seq(height, _ => 0)])
  }

  function InsertAt(c: seq<nat>, i: nat, x: nat): seq<nat>
    requires i <= |c|
  {
    c[..i] + [x] + c[i..]
  }

  /** Chains only grow. */
  ghost predicate Grows(before: Chains, after: Chains) {
    |before| == |after| && forall l :: 0 <= l < |before| ==> Within(before[l], after[l])
  }

  ghost predicate Within(c: seq<nat>, d: seq<nat>) {
    forall n :: n in c ==> n in d
  }

  /** Keys of allocated nodes never change. */
  ghost predicate KeepsKeys(before: Memory, after: Memory) {
    before.keys <= after.keys
  }

  /** Where a search stands is not disturbed by stores made meanwhile. */
  lemma StandingLasts(cmp: Comparator, before: Memory, after: Memory, old_: Chains, new_: Chains, target: Search, x: nat, level: nat)
    requires Standing(cmp, before, old_, target, x, level)
    requires KeepsKeys(before, after) && Grows(old_, new_)
    ensures Standing(cmp, after, new_, target, x, level)
  {
    if x != 0 {
      assert Within(old_[level], new_[level]);
    }
  }

  lemma RaisedHeight(cmp: Comparator, m: Memory, chains: Chains, height: nat)
    requires Inv(cmp, m, chains) && m.maxHeight <= height <= MAX_HEIGHT
    ensures Inv(cmp, StoreMaxHeight(m, height), chains)
  {
    var m' := StoreMaxHeight(m, height);
    forall l | 0 <= l < MAX_HEIGHT ensures LevelOk(cmp, m', chains[l], l) {
      assert LevelOk(cmp, m, chains[l], l);
      SameLevel(cmp, m, m', chains[l], l);
    }
  }

  /** A level is as it was when its nodes' keys and links are. */
  lemma SameLevel(cmp: Comparator, m: Memory, m': Memory, c: seq<nat>, level: nat)
    requires Shape(m) && Shape(m') && level < MAX_HEIGHT && LevelOk(cmp, m, c, level)
    requires KeepsKeys(m, m') && m'.next[0][level] == m.next[0][level]
    requires forall n :: n in c && InArena(m, level, n) ==> InArena(m', level, n) && m'.next[n][level] == m.next[n][level]
    ensures LevelOk(cmp, m', c, level)
  {
    forall i | -1 <= i < |c| ensures LinkOk(m', c, level, i) {
      assert LinkOk(m, c, level, i);
    }
    forall i, j | 0 <= i < j < |c| ensures OrderOk(cmp, m', c, i, j) {
      assert OrderOk(cmp, m, c, i, j);
    }
  }

  lemma Allocated(cmp: Comparator, m: Memory, chains: Chains, key: Key, height: nat)
    requires Inv(cmp, m, chains)
    ensures Inv(cmp, Allocate(m, key, height), chains)
  {
    var m' := Allocate(m, key, height);
    forall l | 0 <= l < MAX_HEIGHT ensures LevelOk(cmp, m', chains[l], l) {
      assert LevelOk(cmp, m, chains[l], l);
      SameLevel(cmp, m, m', chains[l], l);
    }
  }

  /** Storing into a node that is not linked at that level yet disturbs nothing. */
  lemma Prepared(cmp: Comparator, m: Memory, chains: Chains, x: nat, level: nat, r: nat)
    requires Inv(cmp, m, chains) && level < MAX_HEIGHT && InArena(m, level, x) && x !in chains[level]
    ensures Inv(cmp, StoreNext(m, x, level, r), chains)
  {
    var m' := StoreNext(m, x, level, r);
    forall l | 0 <= l < MAX_HEIGHT ensures LevelOk(cmp, m', chains[l], l) {
      assert LevelOk(cmp, m, chains[l], l);
      SameLevel(cmp, m, m', chains[l], l);
    }
  }

  /** No node of the level compares equal to the key. */
  ghost predicate Absent(cmp: Comparator, m: Memory, c: seq<nat>, key: Key) {
    forall n :: n in c && n < |m.keys| ==> cmp(m.keys[n], key) != 0
  }

  /** Entry k of a chain after an insertion at i. */
  function Shifted(c: seq<nat>, i: nat, x: nat, k: nat): nat
    requires i <= |c| && k <= |c|
  {
    if k < i then c[k] else if k == i then x else c[k - 1]
  }

  lemma InsertedAt(c: seq<nat>, i: nat, x: nat, k: nat)
    requires i <= |c| && k <= |c|
    ensures |InsertAt(c, i, x)| == |c| + 1 && InsertAt(c, i, x)[k] == Shifted(c, i, x, k)
  {
  }

  lemma InsertedMembers(c: seq<nat>, i: nat, x: nat)
    requires i <= |c|
    ensures Within(c, InsertAt(c, i, x)) && x in InsertAt(c, i, x) && Within(InsertAt(c, i, x), c + [x])
  {
    var d := InsertAt(c, i, x);
    forall n | n in c ensures n in d {
      var k :| 0 <= k < |c| && c[k] == n;
      assert d[if k < i then k else k + 1] == n;
    }
    assert d[i] == x;
  }

  /** Storing a prepared node into its predecessor links it at that level, in order. */
  lemma Published(cmp: Comparator, m: Memory, chains: Chains, p: nat, x: nat, level: nat, i: nat)
    requires Inv(cmp, m, chains) && level < m.maxHeight && InArena(m, level, x) && x !in chains[level]
    requires level > 0 ==> x in chains[level - 1]
    requires SplitsAt(cmp, m, chains[level], To(m.keys[x]), p, m.next[x][level], i)
    requires Absent(cmp, m, chains[level], m.keys[x])
    requires p < |m.next| && level < |m.next[p]|
    ensures var chains' := chains[level := InsertAt(chains[level], i, x)];
            Inv(cmp, StoreNext(m, p, level, x), chains') && Grows(chains, chains')
  {
    hide InsertAt, SplitsAt, Absent, LevelOk, Within;
    var c := chains[level];
    SplitsBound(cmp, m, c, To(m.keys[x]), p, m.next[x][level], i);
    InsertedMembers(c, i, x);
    var chains' := chains[level := InsertAt(c, i, x)];
    var m' := StoreNext(m, p, level, x);
    forall l | 0 <= l < MAX_HEIGHT ensures LevelOk(cmp, m', chains'[l], l) {
      hide LinkedBelow;
      assert LevelOk(cmp, m, chains[l], l);
      if l != level {
        SameLevel(cmp, m, m', chains[l], l);
      } else {
        PublishedLevel(cmp, m, c, p, x, level, i);
      }
    }
    forall l | 0 <= l < MAX_HEIGHT ensures Within(chains[l], chains'[l]) {
      WithinSelf(chains[l]);
    }
    forall l | 0 < l < MAX_HEIGHT ensures LinkedBelow(chains', l) {
      assert LinkedBelow(chains, l);
      StillLinkedBelow(chains, level, InsertAt(c, i, x), x, l);
    }
  }

  lemma WithinSelf(c: seq<nat>)
    ensures Within(c, c)
  {
  }

  lemma GrowsSelf(chains: Chains)
    ensures Grows(chains, chains)
  {
    forall l | 0 <= l < |chains| ensures Within(chains[l], chains[l]) {
      WithinSelf(chains[l]);
    }
  }

  lemma StillLinkedBelow(chains: Chains, level: nat, d: seq<nat>, x: nat, l: nat)
    requires level < |chains| && 0 < l < |chains| && LinkedBelow(chains, l)
    requires Within(chains[level], d) && Within(d, chains[level] + [x])
    requires level > 0 ==> x in chains[level - 1]
    ensures LinkedBelow(chains[level := d], l)
  {
  }

  lemma SplitsBound(cmp: Comparator, m: Memory, c: seq<nat>, target: Search, x: nat, r: nat, i: nat)
    requires SplitsAt(cmp, m, c, target, x, r, i)
    ensures i <= |c|
  {
  }

  lemma PublishedLevel(cmp: Comparator, m: Memory, c: seq<nat>, p: nat, x: nat, level: nat, i: nat)
    requires Shape(m) && level < MAX_HEIGHT && LevelOk(cmp, m, c, level) && InArena(m, level, x) && x !in c
    requires SplitsAt(cmp, m, c, To(m.keys[x]), p, m.next[x][level], i)
    requires Absent(cmp, m, c, m.keys[x])
    requires p < |m.next| && level < |m.next[p]|
    ensures LevelOk(cmp, StoreNext(m, p, level, x), InsertAt(c, i, x), level)
  {
    hide InsertAt, StoreNext;
    var m', c' := StoreNext(m, p, level, x), InsertAt(c, i, x);
    InsertedAt(c, i, x, i);
    Stored(m, p, level, x, 0);
    forall a, b | 0 <= a < b < |c'| ensures OrderOk(cmp, m', c', a, b) {
      InsertedAt(c, i, x, a);
      InsertedAt(c, i, x, b);
      InsertedOrder(cmp, m, c, p, x, level, i, a, b);
    }
    forall k | -1 <= k < |c'| ensures LinkOk(m', c', level, k) {
      if k >= 0 { InsertedAt(c, i, x, k); }
      if k < |c| { InsertedAt(c, i, x, k + 1); }
      InsertedLink(cmp, m, c, p, x, level, i, k);
    }
  }

  lemma InsertedLink(cmp: Comparator, m: Memory, c: seq<nat>, p: nat, x: nat, level: nat, i: nat, k: int)
    requires Shape(m) && level < MAX_HEIGHT && LevelOk(cmp, m, c, level) && InArena(m, level, x) && x !in c
    requires SplitsAt(cmp, m, c, To(m.keys[x]), p, m.next[x][level], i)
    requires p < |m.next| && level < |m.next[p]| && -1 <= k <= |c|
    ensures var n, m' := if k == -1 then 0 else Shifted(c, i, x, k), StoreNext(m, p, level, x);
            && n < |m'.next| == |m'.keys| && level < |m'.next[n]| && (k >= 0 ==> n > 0)
            && m'.next[n][level] == if k < |c| then Shifted(c, i, x, k + 1) else 0
  {
    hide StoreNext;
    if k == i {
      Stored(m, p, level, x, x);
    } else {
      var j := if k < i then k else k - 1;
      assert LinkOk(m, c, level, j);
      Stored(m, p, level, x, if j == -1 then 0 else c[j]);
      if i > 0 && j >= 0 && j != i - 1 {
        DifferentNodes(cmp, m, c, level, if j < i - 1 then j else i - 1, if j < i - 1 then i - 1 else j);
      }
      if i > 0 { assert LinkOk(m, c, level, i - 1); }
    }
  }

  lemma DifferentNodes(cmp: Comparator, m: Memory, c: seq<nat>, level: nat, a: nat, b: nat)
    requires Shape(m) && level < MAX_HEIGHT && LevelOk(cmp, m, c, level) && a < b < |c|
    ensures c[a] != c[b]
  {
    assert OrderOk(cmp, m, c, a, b);
    Irreflexive(cmp, m.keys[c[a]]);
  }

  lemma InsertedOrder(cmp: Comparator, m: Memory, c: seq<nat>, p: nat, x: nat, level: nat, i: nat, a: nat, b: nat)
    requires Shape(m) && level < MAX_HEIGHT && LevelOk(cmp, m, c, level) && InArena(m, level, x)
    requires SplitsAt(cmp, m, c, To(m.keys[x]), p, m.next[x][level], i)
    requires Absent(cmp, m, c, m.keys[x])
    requires a < b <= |c|
    ensures var na, nb := Shifted(c, i, x, a), Shifted(c, i, x, b);
            na < |m.keys| && nb < |m.keys| && Less(cmp, m, na, nb)
  {
    if a != i && b != i {
      assert OrderOk(cmp, m, c, if a < i then a else a - 1, if b < i then b else b - 1);
    } else if b == i {
      assert SideOk(cmp, m, c, To(m.keys[x]), i, a);
    } else {
      assert LinkOk(m, c, level, b - 1) && SideOk(cmp, m, c, To(m.keys[x]), i, b - 1);
      assert c[b - 1] in c;
      Before(cmp, m.keys[c[b - 1]], m.keys[x], m.keys[x]);
      Before(cmp, m.keys[x], m.keys[c[b - 1]], m.keys[x]);
    }
  }

  lemma Irreflexive(cmp: Comparator, a: Key)
    ensures !(cmp(a, a) < 0)
  {
    Before(cmp, a, a, a);
  }

  // ----- The writer, between its stores -----

  /**
   * Idle; or searching for the new key, with prev filled in above level; or the search is done (prev[l] is the last
   * node before the key on level l); or node x is linked below level, and prepared tells whether its link at level
   * has been set.
   */
  datatype Writer =
    | Idle
    | Searching(key: Key, prev: seq<nat>, x: nat, level: nat)
    | Found(key: Key, height: nat, prev: seq<nat>)
    | Linking(x: nat, height: nat, prev: seq<nat>, level: nat, prepared: bool)

  /** prev[l] is where a node with this key belongs on level l, and no node there compares equal. */
  ghost predicate PrevOk(cmp: Comparator, m: Memory, chains: Chains, key: Key, prev: seq<nat>, l: nat) {
    PrevAt(cmp, m, chains, key, prev, l) && Absent(cmp, m, chains[l], key)
  }

  /** prev[l] is the last node before the key on level l, and its link is to the first node that is not. */
  ghost predicate PrevAt(cmp: Comparator, m: Memory, chains: Chains, key: Key, prev: seq<nat>, l: nat) {
    && l < |prev| && l < |chains| && prev[l] < |m.next| && l < |m.next[prev[l]]|
    && Splits(cmp, m, chains[l], To(key), prev[l], m.next[prev[l]][l])
  }

  ghost predicate WriterOk(cmp: Comparator, m: Memory, chains: Chains, w: Writer) {
    match w
    case Idle => true
    case Searching(key, prev, x, level) =>
      && |prev| == MAX_HEIGHT == |chains|
      && level < MAX_HEIGHT && Standing(cmp, m, chains, To(key), x, level)
      && (forall l :: 0 <= l < MAX_HEIGHT ==> Absent(cmp, m, chains[l], key))
      && forall l :: level < l < m.maxHeight ==> PrevOk(cmp, m, chains, key, prev, l)
    case Found(key, height, prev) =>
      && 1 <= height <= MAX_HEIGHT == |prev|
      && forall l :: 0 <= l < height ==> PrevOk(cmp, m, chains, key, prev, l)
    case Linking(x, height, prev, level, prepared) =>
      && level <= height <= m.maxHeight && 1 <= height && |prev| == MAX_HEIGHT == |chains|
      && 0 < x < |m.keys| == |m.next| && |m.next[x]| == height
      && (forall l :: 0 <= l < MAX_HEIGHT ==> LinkedUpTo(chains, x, level, l))
      && (forall l :: level <= l < height ==> PrevOk(cmp, m, chains, m.keys[x], prev, l))
      && (prepared ==>
            && level < height && level < |prev| && prev[level] < |m.next| && level < |m.next[prev[level]]|
            && m.next[x][level] == m.next[prev[level]][level])
  }

  ghost predicate LinkedUpTo(chains: Chains, x: nat, level: nat, l: nat)
    requires l < |chains|
  {
    x in chains[l] <==> l < level
  }

  /** Insert starts: nothing that compares equal to the key is in the list. */
  lemma SearchStarts(cmp: Comparator, m: Memory, chains: Chains, key: Key, prev: seq<nat>)
    requires Inv(cmp, m, chains) && |prev| == MAX_HEIGHT
    requires forall n :: 0 < n < |m.keys| ==> cmp(m.keys[n], key) != 0
    ensures WriterOk(cmp, m, chains, Searching(key, prev, 0, m.maxHeight - 1))
  {
    forall l | 0 <= l < MAX_HEIGHT ensures Absent(cmp, m, chains[l], key) {
      assert LevelOk(cmp, m, chains[l], l);
      forall n | n in chains[l] && n < |m.keys| ensures cmp(m.keys[n], key) != 0 {
        var i :| 0 <= i < |chains[l]| && chains[l][i] == n;
        assert LinkOk(m, chains[l], l, i);
      }
    }
  }

  /** One load of the writer's search: move along, or remember the predecessor. */
  lemma SearchMoves(cmp: Comparator, m: Memory, chains: Chains, w: Writer)
    requires Inv(cmp, m, chains) && w.Searching? && WriterOk(cmp, m, chains, w)
    ensures w.level < |m.next[w.x]| && m.next[w.x][w.level] < |m.keys|
    ensures KeyIsAfterNode(cmp, m, To(w.key), m.next[w.x][w.level]) ==>
              WriterOk(cmp, m, chains, Searching(w.key, w.prev, m.next[w.x][w.level], w.level))
    ensures !KeyIsAfterNode(cmp, m, To(w.key), m.next[w.x][w.level]) ==>
              PrevOk(cmp, m, chains, w.key, w.prev[w.level := w.x], w.level)
    ensures !KeyIsAfterNode(cmp, m, To(w.key), m.next[w.x][w.level]) && w.level > 0 ==>
              WriterOk(cmp, m, chains, Searching(w.key, w.prev[w.level := w.x], w.x, w.level - 1))
  {
    var x, level := w.x, w.level;
    var i := FindPlace(cmp, m, chains, To(w.key), x, level);
    LoadedLink(cmp, m, chains, To(w.key), x, level, i);
    if !KeyIsAfterNode(cmp, m, To(w.key), m.next[x][level]) {
      var prev: seq<nat> := w.prev[level := x];
      assert PrevOk(cmp, m, chains, w.key, prev, level);
      forall l | level < l < m.maxHeight ensures PrevOk(cmp, m, chains, w.key, prev, l) {
        assert PrevOk(cmp, m, chains, w.key, w.prev, l);
      }
      if level > 0 {
        GoDown(cmp, m, chains, To(w.key), x, level);
      }
    }
  }

  /** The search has seen every level: the levels above the list's height start at the head. */
  lemma FoundIsOk(cmp: Comparator, m: Memory, chains: Chains, key: Key, height: nat, prev: seq<nat>)
    requires Inv(cmp, m, chains) && 1 <= height <= MAX_HEIGHT == |prev|
    requires forall l :: 0 <= l < m.maxHeight ==> PrevOk(cmp, m, chains, key, prev, l)
    requires forall l :: m.maxHeight <= l < height ==> prev[l] == 0
    ensures WriterOk(cmp, m, chains, Found(key, height, prev))
  {
    forall l | 0 <= l < height ensures PrevOk(cmp, m, chains, key, prev, l) {
      if l >= m.maxHeight {
        assert LevelOk(cmp, m, chains[l], l) && LinkOk(m, chains[l], l, -1);
        assert SplitsAt(cmp, m, chains[l], To(key), 0, 0, 0);
      }
    }
  }

  lemma RaiseKeepsWriter(cmp: Comparator, m: Memory, chains: Chains, w: Writer, height: nat)
    requires WriterOk(cmp, m, chains, w) && w.Found?
    ensures WriterOk(cmp, StoreMaxHeight(m, height), chains, w)
  {
    var m' := StoreMaxHeight(m, height);
    forall l | 0 <= l < w.height ensures PrevOk(cmp, m', chains, w.key, w.prev, l) {
      assert PrevOk(cmp, m, chains, w.key, w.prev, l);
      SamePrev(cmp, m, m', chains, w.key, w.prev, l);
    }
  }

  /** A predecessor stays right while its link and the level it is on stay the same. */
  lemma SamePrev(cmp: Comparator, m: Memory, m': Memory, chains: Chains, key: Key, prev: seq<nat>, l: nat)
    requires PrevOk(cmp, m, chains, key, prev, l) && KeepsKeys(m, m')
    requires prev[l] < |m'.next| && l < |m'.next[prev[l]]| && m'.next[prev[l]][l] == m.next[prev[l]][l]
    ensures PrevOk(cmp, m', chains, key, prev, l)
  {
    var c := chains[l];
    var i :| SplitsAt(cmp, m, c, To(key), prev[l], m.next[prev[l]][l], i);
    forall j | 0 <= j < |c| ensures SideOk(cmp, m', c, To(key), i, j) {
      assert SideOk(cmp, m, c, To(key), i, j);
    }
    assert SplitsAt(cmp, m', c, To(key), prev[l], m'.next[prev[l]][l], i);
    forall n | n in c && n < |m'.keys| ensures cmp(m'.keys[n], key) != 0 {
      var j :| 0 <= j < |c| && c[j] == n;
      assert SideOk(cmp, m, c, To(key), i, j);
    }
  }

  lemma AllocateStartsLinking(cmp: Comparator, m: Memory, chains: Chains, w: Writer)
    requires Inv(cmp, m, chains) && WriterOk(cmp, m, chains, w) && w.Found? && w.height <= m.maxHeight
    ensures WriterOk(cmp, Allocate(m, w.key, w.height), chains, Linking(|m.keys|, w.height, w.prev, 0, false))
  {
    var m', x := Allocate(m, w.key, w.height), |m.keys|;
    forall l | 0 <= l < MAX_HEIGHT ensures LinkedUpTo(chains, x, 0, l) {
      assert LevelOk(cmp, m, chains[l], l);
      forall n | n in chains[l] ensures n < x {
        var i :| 0 <= i < |chains[l]| && chains[l][i] == n;
        assert LinkOk(m, chains[l], l, i);
      }
    }
    forall l | 0 <= l < w.height ensures PrevOk(cmp, m', chains, m'.keys[x], w.prev, l) {
      assert PrevOk(cmp, m, chains, w.key, w.prev, l);
      SamePrev(cmp, m, m', chains, w.key, w.prev, l);
    }
  }

  /** Nobody can see x at this level yet, so its link may be set at leisure. */
  lemma PrepareKeepsWriter(cmp: Comparator, m: Memory, chains: Chains, w: Writer)
    requires Inv(cmp, m, chains) && WriterOk(cmp, m, chains, w) && w.Linking? && w.level < w.height
    ensures PrevOk(cmp, m, chains, m.keys[w.x], w.prev, w.level)
    ensures var m' := StoreNext(m, w.x, w.level, m.next[w.prev[w.level]][w.level]);
            Inv(cmp, m', chains) && WriterOk(cmp, m', chains, w.(prepared := true))
  {
    var x, level := w.x, w.level;
    assert PrevOk(cmp, m, chains, m.keys[x], w.prev, level) && LinkedUpTo(chains, x, level, level);
    var r := m.next[w.prev[level]][level];
    var m' := StoreNext(m, x, level, r);
    Prepared(cmp, m, chains, x, level, r);
    hide StoreNext;
    Stored(m, x, level, r, x);
    forall l | level <= l < w.height ensures PrevOk(cmp, m', chains, m'.keys[x], w.prev, l) {
      assert PrevOk(cmp, m, chains, m.keys[x], w.prev, l) && LinkedUpTo(chains, x, level, l);
      PrevIsNotNew(cmp, m, chains, x, w.prev, l);
      OtherLinks(m, x, level, r, w.prev[l], l);
      SamePrev(cmp, m, m', chains, m.keys[x], w.prev, l);
    }
    PrevIsNotNew(cmp, m, chains, x, w.prev, level);
    Stored(m, x, level, r, w.prev[level]);
  }

  lemma PrevIsNotNew(cmp: Comparator, m: Memory, chains: Chains, x: nat, prev: seq<nat>, l: nat)
    requires x != 0 && x < |m.keys| && PrevOk(cmp, m, chains, m.keys[x], prev, l) && x !in chains[l]
    ensures prev[l] != x
  {
  }

  lemma OtherLinks(m: Memory, n: nat, level: nat, x: nat, k: nat, l: nat)
    requires n < |m.next| && level < |m.next[n]| && k < |m.next| && l < |m.next[k]| && (k != n || l != level)
    ensures var m' := StoreNext(m, n, level, x);
            k < |m'.next| && l < |m'.next[k]| && m'.next[k][l] == m.next[k][l]
  {
  }

  /** Publishing x at its level: the store that makes it visible there. */
  lemma PublishKeepsWriter(cmp: Comparator, m: Memory, chains: Chains, w: Writer) returns (i: nat)
    requires Inv(cmp, m, chains) && WriterOk(cmp, m, chains, w) && w.Linking? && w.prepared
    ensures PrevOk(cmp, m, chains, m.keys[w.x], w.prev, w.level)
    ensures i <= |chains[w.level]|
    ensures SplitsAt(cmp, m, chains[w.level], To(m.keys[w.x]), w.prev[w.level], m.next[w.x][w.level], i)
    ensures var m' := StoreNext(m, w.prev[w.level], w.level, w.x);
            var chains' := chains[w.level := InsertAt(chains[w.level], i, w.x)];
            && Inv(cmp, m', chains') && Grows(chains, chains')
            && WriterOk(cmp, m', chains', w.(level := w.level + 1, prepared := false))
  {
    var x, level := w.x, w.level;
    assert PrevOk(cmp, m, chains, m.keys[x], w.prev, level) && LinkedUpTo(chains, x, level, level);
    assert level > 0 ==> LinkedUpTo(chains, x, level, level - 1);
    var p := w.prev[level];
    i :| SplitsAt(cmp, m, chains[level], To(m.keys[x]), p, m.next[x][level], i);
    Published(cmp, m, chains, p, x, level, i);
    var chains' := chains[level := InsertAt(chains[level], i, x)];
    var m' := StoreNext(m, p, level, x);
    InsertedMembers(chains[level], i, x);
    hide InsertAt, StoreNext, Inv;
    Stored(m, p, level, x, x);
    var upper := level + 1;
    forall l | 0 <= l < MAX_HEIGHT ensures LinkedUpTo(chains', x, upper, l) {
      assert LinkedUpTo(chains, x, level, l);
    }
    forall l | level + 1 <= l < w.height ensures PrevOk(cmp, m', chains', m'.keys[x], w.prev, l) {
      assert PrevOk(cmp, m, chains, m.keys[x], w.prev, l);
      OtherLinks(m, p, level, x, w.prev[l], l);
      SamePrev(cmp, m, m', chains, m.keys[x], w.prev, l);
      SameChain(cmp, m', chains, chains', m.keys[x], w.prev, l);
    }
  }

  lemma SameChain(cmp: Comparator, m: Memory, chains: Chains, chains': Chains, key: Key, prev: seq<nat>, l: nat)
    requires PrevOk(cmp, m, chains, key, prev, l) && l < |chains'| && chains'[l] == chains[l]
    ensures PrevOk(cmp, m, chains', key, prev, l)
  {
  }
}
