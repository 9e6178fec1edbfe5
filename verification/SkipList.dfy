/** The skip list's operations (db/skiplist.h) as one thread runs them. */
module SkipList {
  import opened UserKeys
  import opened SkipListState

  predicate IsBefore(cmp: Comparator, key: Key, target: Search) {
    target.End? || cmp(key, target.key) < 0
  }

  /** How many keys of an ascending list come before the target. */
  function Position(cmp: Comparator, keys: seq<Key>, target: Search): (i: nat)
    ensures i <= |keys|
  {
    if keys == [] || !IsBefore(cmp, keys[0], target) then 0 else 1 + Position(cmp, keys[1..], target)
  }

  lemma {:induction false} PositionIsSplit(cmp: Comparator, keys: seq<Key>, target: Search, i: nat)
    requires i <= |keys|
    requires forall j :: 0 <= j < |keys| ==> (IsBefore(cmp, keys[j], target) <==> j < i)
    ensures Position(cmp, keys, target) == i
  {
    if i > 0 {
      PositionIsSplit(cmp, keys[1..], target, i - 1);
    }
  }

  /** The keys before the position come before the target, and the one at it does not. */
  lemma {:induction false} AroundPosition(cmp: Comparator, keys: seq<Key>, target: Search, j: nat)
    ensures j < Position(cmp, keys, target) ==> IsBefore(cmp, keys[j], target)
    ensures Position(cmp, keys, target) < |keys| ==> !IsBefore(cmp, keys[Position(cmp, keys, target)], target)
  {
    if keys != [] && IsBefore(cmp, keys[0], target) {
      AroundPosition(cmp, keys[1..], target, if j > 0 then j - 1 else 0);
    }
  }

  /** The keys of the bottom list, in order. */
  ghost function KeysOf(m: Memory, c: seq<nat>): seq<Key> {
    if c == [] then [] else KeysOf(m, c[..|c| - 1]) + [if c[|c| - 1] < |m.keys| then m.keys[c[|c| - 1]] else []]
  }

  lemma {:induction false} KeyAt(m: Memory, c: seq<nat>, i: nat)
    requires i < |c|
    ensures |KeysOf(m, c)| == |c| && KeysOf(m, c)[i] == if c[i] < |m.keys| then m.keys[c[i]] else []
  {
    if i < |c| - 1 {
      KeyAt(m, c[..|c| - 1], i);
    } else if |c| > 1 {
      KeyAt(m, c[..|c| - 1], 0);
    }
  }

  lemma {:induction false} KeysCount(m: Memory, c: seq<nat>)
    ensures |KeysOf(m, c)| == |c|
  {
    if c != [] { KeyAt(m, c, 0); }
  }

  lemma SplitIsPosition(cmp: Comparator, m: Memory, c: seq<nat>, target: Search, x: nat, r: nat, i: nat)
    requires Shape(m) && LevelOk(cmp, m, c, 0) && SplitsAt(cmp, m, c, target, x, r, i)
    ensures Position(cmp, KeysOf(m, c), target) == i
  {
    KeysCount(m, c);
    forall j | 0 <= j < |c| ensures IsBefore(cmp, KeysOf(m, c)[j], target) <==> j < i {
      KeyAt(m, c, j);
      assert SideOk(cmp, m, c, target, i, j) && LinkOk(m, c, 0, j);
    }
    PositionIsSplit(cmp, KeysOf(m, c), target, i);
  }

  /** Where a node is in the list; null is past the end. */
  function IndexOf(c: seq<nat>, n: nat): (i: nat)
    ensures i <= |c|
    ensures i < |c| ==> c[i] == n
    ensures i == |c| ==> n !in c
  {
    if c == [] || c[0] == n then 0 else 1 + IndexOf(c[1..], n)
  }

  lemma LinkedOnLevels(cmp: Comparator, m: Memory, chains: Chains, x: nat, height: nat, prev: seq<nat>)
    requires WriterOk(cmp, m, chains, Linking(x, height, prev, height, false))
    ensures x < |m.next| && |m.next[x]| == height && |chains| == MAX_HEIGHT
    ensures forall l :: 0 <= l < |chains| ==> (x in chains[l] <==> l < height)
  {
    forall l | 0 <= l < MAX_HEIGHT ensures |chains| == MAX_HEIGHT && (x in chains[l] <==> l < height) {
      assert LinkedUpTo(chains, x, height, l);
    }
  }

  class SkipList {
    const cmp: Comparator
    var mem: Memory
    ghost var chains: Chains
    ghost var drawn: seq<nat>    // what rnd_ has given so far

    ghost predicate Valid()
      reads this
    {
      && Inv(cmp, mem, chains)
      && forall n :: 0 < n < |mem.keys| ==> n in chains[0]
    }

    ghost function Keys(): seq<Key>
      reads this
    {
      if chains == [] then [] else KeysOf(mem, chains[0])
    }

    constructor (cmp: Comparator)
      ensures Valid() && Keys() == [] && this.cmp == cmp
    {
      this.cmp := cmp;
      var m := Memory([[]], [seq(MAX_HEIGHT, _ => 0)], 1);
      mem := m;
      chains := seq(MAX_HEIGHT, _ => []);
      drawn := [];
      new;
      forall l | 0 <= l < MAX_HEIGHT ensures LevelOk(cmp, m, chains[l], l) {
        assert LinkOk(m, chains[l], l, -1);
      }
    }

    /** Keys come in strictly ascending order. */
    lemma KeysAscend(i: nat, j: nat)
      requires Valid() && i < j < |Keys()|
      ensures cmp(Keys()[i], Keys()[j]) < 0
    {
      KeysCount(mem, chains[0]);
      KeyAt(mem, chains[0], i);
      KeyAt(mem, chains[0], j);
      assert LevelOk(cmp, mem, chains[0], 0);
      assert OrderOk(cmp, mem, chains[0], i, j);
    }

    /** The first node at or after the key, and on each level the last node before it. */
    method FindGreaterOrEqual(key: Key) returns (r: nat, prev: seq<nat>)
      requires Valid()
      ensures |prev| == MAX_HEIGHT && forall l :: 0 <= l < mem.maxHeight ==> PrevAt(cmp, mem, chains, key, prev, l)
      ensures 1 <= mem.maxHeight && r < |mem.keys| && |mem.keys| == |mem.next| && |mem.next[0]| == MAX_HEIGHT
      ensures r == At(chains[0], Position(cmp, Keys(), To(key)))
      ensures r != 0 && cmp(key, mem.keys[r]) == 0 <==> exists k :: k in Keys() && cmp(k, key) == 0
    {
      prev :| |prev| == MAX_HEIGHT;
      var x: nat, level: nat := 0, mem.maxHeight - 1;
      ghost var i: nat := 0;
      while true
        invariant |prev| == MAX_HEIGHT && Standing(cmp, mem, chains, To(key), x, level) && level < mem.maxHeight
        invariant StandsAt(chains, x, level, i)
        invariant forall l :: level < l < mem.maxHeight ==> PrevAt(cmp, mem, chains, key, prev, l)
        decreases level, |chains[level]| - i
      {
        hide Inv, StandsAt, SplitsAt, Standing, LevelOk;
        LoadedLink(cmp, mem, chains, To(key), x, level, i);
        var next := mem.next[x][level];
        if KeyIsAfterNode(cmp, mem, To(key), next) {
          x := next;
          i := i + 1;
          WithinLevel(chains, x, level, i);
        } else {
          ghost var filled := prev;
          prev := prev[level := x];
          Kept(cmp, mem, chains, key, filled, prev, level);
          assert Splits(cmp, mem, chains[level], To(key), x, next);
          if level == 0 {
            FoundAt(cmp, mem, chains, To(key), x, next, i);
            FoundIfThere(cmp, mem, chains, key, x, next, i);
            r := next;
            return;
          }
          GoDown(cmp, mem, chains, To(key), x, level);
          level := level - 1;
          i := FindPlace(cmp, mem, chains, To(key), x, level);
        }
      }
    }

    /** The last node before the key, or the head. */
    method FindLessThan(key: Key) returns (x: nat)
      requires Valid()
      ensures var i := Position(cmp, Keys(), To(key)); i <= |chains[0]| && x == if i == 0 then 0 else chains[0][i - 1]
    {
      x := 0;
      var level: nat := mem.maxHeight - 1;
      ghost var i: nat := 0;
      while true
        invariant Standing(cmp, mem, chains, To(key), x, level) && StandsAt(chains, x, level, i)
        decreases level, |chains[level]| - i
      {
        hide Inv, SplitsAt, LevelOk;
        LoadedLink(cmp, mem, chains, To(key), x, level, i);
        var next := mem.next[x][level];
        if next == 0 || cmp(mem.keys[next], key) >= 0 {
          if level == 0 {
            FoundAt(cmp, mem, chains, To(key), x, next, i);
            return;
          }
          GoDown(cmp, mem, chains, To(key), x, level);
          level := level - 1;
          i := FindPlace(cmp, mem, chains, To(key), x, level);
        } else {
          x := next;
          i := i + 1;
        }
      }
    }

    /** The last node, or the head. */
    method FindLast() returns (x: nat)
      requires Valid()
      ensures x == if chains[0] == [] then 0 else chains[0][|chains[0]| - 1]
    {
      x := 0;
      var level: nat := mem.maxHeight - 1;
      ghost var i: nat := 0;
      while true
        invariant Standing(cmp, mem, chains, End, x, level) && StandsAt(chains, x, level, i)
        decreases level, |chains[level]| - i
      {
        hide Inv, LevelOk;
        LoadedLink(cmp, mem, chains, End, x, level, i);
        var next := mem.next[x][level];
        if next == 0 {
          if level == 0 {
            FoundAt(cmp, mem, chains, End, x, next, i);
            AllBefore(cmp, mem, chains[0], x, next, i);
            return;
          }
          GoDown(cmp, mem, chains, End, x, level);
          level := level - 1;
          i := FindPlace(cmp, mem, chains, End, x, level);
        } else {
          x := next;
          i := i + 1;
        }
      }
    }

    /** Whether a key that compares equal is in the list. */
    method Contains(key: Key) returns (found: bool)
      requires Valid()
      ensures found <==> exists k :: k in Keys() && cmp(k, key) == 0
    {
      var x, _ := FindGreaterOrEqual(key);
      found := x != 0 && cmp(key, mem.keys[x]) == 0;
    }

    /** A new node of any height goes in where its key belongs; the rest of the list stays as it was. */
    method Insert(key: Key)
      requires Valid()
      requires forall k :: k in Keys() ==> cmp(k, key) != 0
      modifies this
      ensures Valid()
      ensures var i := Position(cmp, old(Keys()), To(key));
              Keys() == old(Keys())[..i] + [key] + old(Keys())[i..]
      ensures mem.keys == old(mem.keys) + [key] && Grows(old(chains), chains)
      ensures old(drawn) <= drawn && |old(mem.keys)| < |mem.next|
      ensures Drawn(drawn[|old(drawn)|..], |mem.next[|old(mem.keys)|]|)
      ensures OnLevels(|old(mem.keys)|, |mem.next[|old(mem.keys)|]|)
    {
      var _, prev := FindGreaterOrEqual(key);
      AbsentEverywhere(cmp, mem, chains, key);
      var height := RandomHeight();
      RaiseTo(key, height, prev);
    }

    /** The node has this height, and is in the list of each of its levels and of no other. */
    ghost predicate OnLevels(x: nat, height: nat)
      reads this
    {
      && x < |mem.next| && |mem.next[x]| == height
      && forall l :: 0 <= l < |chains| ==> (x in chains[l] <==> l < height)
    }

    /** One more than how often in a row a number drawn was a multiple of four, and no more than the greatest height. */
    ghost predicate Drawn(numbers: seq<nat>, height: nat) {
      && 1 <= height <= MAX_HEIGHT
      && |numbers| == (if height < MAX_HEIGHT then height else height - 1)
      && (forall i :: 0 <= i < height - 1 ==> numbers[i] % 4 == 0)
      && (height < MAX_HEIGHT ==> numbers[height - 1] % 4 != 0)
    }

    method NextRandom() returns (number: nat)
      modifies this`drawn
      ensures drawn == old(drawn) + [number]
    {
      number := *;
      drawn := drawn + [number];
    }

    method RandomHeight() returns (height: nat)
      modifies this`drawn
      ensures old(drawn) <= drawn && Drawn(drawn[|old(drawn)|..], height)
    {
      height := 1;
      ghost var numbers: seq<nat> := [];
      while height < MAX_HEIGHT
        invariant 1 <= height <= MAX_HEIGHT && |numbers| == height - 1 && drawn == old(drawn) + numbers
        invariant forall i :: 0 <= i < |numbers| ==> numbers[i] % 4 == 0
      {
        var number := NextRandom();
        numbers := numbers + [number];
        if number % 4 != 0 { break; }
        height := height + 1;
      }
      assert drawn[|old(drawn)|..] == numbers;
    }

    /** The rest of Insert: the head precedes the node on the levels that are new. */
    method RaiseTo(key: Key, height: nat, found: seq<nat>)
      requires Valid() && 1 <= height <= MAX_HEIGHT == |found|
      requires forall l :: 0 <= l < mem.maxHeight ==> PrevOk(cmp, mem, chains, key, found, l)
      modifies this`mem, this`chains
      ensures Valid()
      ensures var i := Position(cmp, old(Keys()), To(key));
              Keys() == old(Keys())[..i] + [key] + old(Keys())[i..]
      ensures mem.keys == old(mem.keys) + [key] && Grows(old(chains), chains)
      ensures OnLevels(|old(mem.keys)|, height)
    {
      hide Inv, WriterOk, PrevOk, Position, InsertAt, Grows, LevelOk, LinkedUpTo;
      ShapeHolds(cmp, mem, chains);
      var prev := found;
      if height > mem.maxHeight {
        var i := mem.maxHeight;
        while i < height
          invariant mem.maxHeight <= i <= height && |prev| == MAX_HEIGHT
          invariant forall l :: 0 <= l < MAX_HEIGHT ==> prev[l] == if mem.maxHeight <= l < i then 0 else found[l]
        {
          prev := prev[i := 0];
          i := i + 1;
        }
        HeadStandsIn(cmp, mem, chains, key, height, found, prev);
        RaisedHeight(cmp, mem, chains, height);
        RaiseKeepsWriter(cmp, mem, chains, Found(key, height, prev), height);
        mem := StoreMaxHeight(mem, height);
        BottomInArena(cmp, mem, chains);
        KeysOfGrown(old(mem), mem, chains[0]);
      } else {
        FoundIsOk(cmp, mem, chains, key, height, prev);
      }
      LinkNode(key, height, prev);
    }

    method LinkNode(key: Key, height: nat, prev: seq<nat>)
      requires Inv(cmp, mem, chains) && (forall n :: 0 < n < |mem.keys| ==> n in chains[0])
      requires 1 <= height <= mem.maxHeight && WriterOk(cmp, mem, chains, Found(key, height, prev))
      modifies this`mem, this`chains
      ensures Valid()
      ensures var i := Position(cmp, old(Keys()), To(key));
              Keys() == old(Keys())[..i] + [key] + old(Keys())[i..]
      ensures mem.keys == old(mem.keys) + [key] && Grows(old(chains), chains)
      ensures OnLevels(|old(mem.keys)|, height)
    {
      hide Inv, WriterOk, Position, InsertAt, Within;
      ShapeHolds(cmp, mem, chains);
      var x := |mem.keys|;
      Allocated(cmp, mem, chains, key, height);
      AllocateStartsLinking(cmp, mem, chains, Found(key, height, prev));
      mem := Allocate(mem, key, height);
      ghost var start := mem;
      BottomInArena(cmp, old(mem), chains);
      KeysOfGrown(old(mem), mem, chains[0]);
      GrowsSelf(chains);
      ghost var p := Position(cmp, old(Keys()), To(key));
      assert mem.keys[x] == key;
      var level: nat := 0;
      while level < height
        invariant level <= height && |chains| == MAX_HEIGHT && mem.keys == start.keys
        invariant Inv(cmp, mem, chains) && WriterOk(cmp, mem, chains, Linking(x, height, prev, level, false))
        invariant level == 0 ==> mem == start && chains[0] == old(chains)[0]
        invariant level > 0 ==> p <= |old(chains)[0]| && chains[0] == InsertAt(old(chains)[0], p, x)
        invariant Grows(old(chains), chains)
      {
        ghost var before := chains;
        LinkLevel(x, height, prev, level);
        GrowsOn(old(chains), before, chains);
        level := level + 1;
      }
      assert OnLevels(x, height) by { LinkedOnLevels(cmp, mem, chains, x, height, prev); }
      InsertedMembers(old(chains)[0], p, x);
      InsertedKeys(old(mem), mem, old(chains)[0], p, x);
      assert Within(old(chains)[0], chains[0]);
      AllThere(old(chains)[0], chains[0], x);
    }

    /** Set the new node's link at one level, then publish the node there. */
    method LinkLevel(x: nat, height: nat, prev: seq<nat>, level: nat)
      requires Inv(cmp, mem, chains) && level < height
      requires WriterOk(cmp, mem, chains, Linking(x, height, prev, level, false))
      modifies this`mem, this`chains
      ensures Inv(cmp, mem, chains) && WriterOk(cmp, mem, chains, Linking(x, height, prev, level + 1, false))
      ensures mem.keys == old(mem.keys) && |chains| == MAX_HEIGHT == |old(chains)| && x < |mem.keys|
      ensures Grows(old(chains), chains)
      ensures level > 0 ==> chains[0] == old(chains)[0]
      ensures level == 0 ==> var p := Position(cmp, KeysOf(old(mem), old(chains)[0]), To(mem.keys[x]));
                             p <= |old(chains)[0]| && chains[0] == InsertAt(old(chains)[0], p, x)
    {
      hide Inv, Position, InsertAt, SplitsAt, Grows, LinkedUpTo;
      ShapeHolds(cmp, mem, chains);
      PrepareKeepsWriter(cmp, mem, chains, Linking(x, height, prev, level, false));
      mem := StoreNext(mem, x, level, mem.next[prev[level]][level]);
      ghost var linked := mem;
      ghost var i := PublishKeepsWriter(cmp, mem, chains, Linking(x, height, prev, level, true));
      mem := StoreNext(mem, prev[level], level, x);
      chains := chains[level := InsertAt(chains[level], i, x)];
      if level == 0 {
        SplitIsPlace(cmp, linked, old(chains), To(linked.keys[x]), prev[0], linked.next[x][0], i);
        BottomInArena(cmp, old(mem), old(chains));
        KeysOfGrown(old(mem), linked, old(chains)[0]);
      }
    }
  }

  /** A position in the list; node 0 is null, past the end. */
  class Iterator {
    const list: SkipList
    var node: nat

    ghost predicate Valid()
      reads this, list
    {
      list.Valid() && (node == 0 || node in list.chains[0])
    }

    /** How many keys of the list come before the iterator. */
    ghost function Index(): nat
      requires list.Valid()
      reads this, list
    {
      IndexOf(list.chains[0], node)
    }

    constructor (list: SkipList)
      requires list.Valid()
      ensures Valid() && node == 0 && this.list == list
    {
      this.list := list;
      node := 0;
    }

    method Key() returns (key: Key)
      requires Valid() && node != 0
      ensures Index() < |list.Keys()| && key == list.Keys()[Index()]
    {
      IndexedKey(list.cmp, list.mem, list.chains, node);
      KeyAt(list.mem, list.chains[0], Index());
      key := list.mem.keys[node];
    }

    method Next()
      requires Valid() && node != 0
      modifies this
      ensures Valid() && Index() == old(Index()) + 1
    {
      NextIndex(list.cmp, list.mem, list.chains, node);
      node := list.mem.next[node][0];
    }

    /** Finds the last node before this one by searching for it; the first node's predecessor is null. */
    method Prev()
      requires Valid() && node != 0
      modifies this
      ensures Valid() && Index() == if old(Index()) == 0 then |list.Keys()| else old(Index()) - 1
    {
      IndexedKey(list.cmp, list.mem, list.chains, node);
      PositionOfMember(list.cmp, list.mem, list.chains, Index());
      KeysCount(list.mem, list.chains[0]);
      node := list.FindLessThan(list.mem.keys[node]);
      if old(Index()) > 0 {
        IndexOfEntry(list.cmp, list.mem, list.chains, old(Index()) - 1);
      } else {
        NullIndex(list.cmp, list.mem, list.chains);
      }
    }

    method Seek(target: Key)
      requires Valid()
      modifies this
      ensures Valid() && Index() == Position(list.cmp, list.Keys(), To(target))
      ensures node == 0 <==> Index() == |list.Keys()|
    {
      var r, _ := list.FindGreaterOrEqual(target);
      node := r;
      KeysCount(list.mem, list.chains[0]);
      IndexOfEntry(list.cmp, list.mem, list.chains, Position(list.cmp, list.Keys(), To(target)));
    }

    method SeekToFirst()
      requires Valid()
      modifies this
      ensures Valid() && Index() == 0
    {
      FirstLink(list.cmp, list.mem, list.chains);
      node := list.mem.next[0][0];
      IndexOfEntry(list.cmp, list.mem, list.chains, 0);
    }

    method SeekToLast()
      requires Valid()
      modifies this
      ensures Valid() && Index() == if list.Keys() == [] then 0 else |list.Keys()| - 1
    {
      node := list.FindLast();
      KeysCount(list.mem, list.chains[0]);
      IndexOfEntry(list.cmp, list.mem, list.chains, if list.chains[0] == [] then 0 else |list.chains[0]| - 1);
    }
  }

  /** Entry i of the list is found at i, and null past the end. */
  lemma IndexOfEntry(cmp: Comparator, m: Memory, chains: Chains, i: nat)
    requires Inv(cmp, m, chains) && i <= |chains[0]|
    ensures IndexOf(chains[0], At(chains[0], i)) == i && (At(chains[0], i) == 0 <==> i == |chains[0]|)
  {
    var c := chains[0];
    assert LevelOk(cmp, m, c, 0);
    if i < |c| {
      var k := IndexOf(c, c[i]);
      assert LinkOk(m, c, 0, i);
      if k != i {
        DifferentNodes(cmp, m, c, 0, if k < i then k else i, if k < i then i else k);
      }
    } else {
      NullIndex(cmp, m, chains);
    }
  }

  lemma NullIndex(cmp: Comparator, m: Memory, chains: Chains)
    requires Inv(cmp, m, chains)
    ensures IndexOf(chains[0], 0) == |chains[0]|
  {
    assert LevelOk(cmp, m, chains[0], 0);
    forall k | 0 <= k < |chains[0]| ensures chains[0][k] > 0 {
      assert LinkOk(m, chains[0], 0, k);
    }
  }

  lemma NextIndex(cmp: Comparator, m: Memory, chains: Chains, n: nat)
    requires Inv(cmp, m, chains) && n in chains[0]
    ensures n < |m.next| && |m.next[n]| > 0
    ensures var r := m.next[n][0];
            (r == 0 || r in chains[0]) && IndexOf(chains[0], r) == IndexOf(chains[0], n) + 1
  {
    var i := IndexOf(chains[0], n);
    assert LevelOk(cmp, m, chains[0], 0) && LinkOk(m, chains[0], 0, i);
    IndexOfEntry(cmp, m, chains, i + 1);
  }

  lemma FirstLink(cmp: Comparator, m: Memory, chains: Chains)
    requires Inv(cmp, m, chains)
    ensures |m.next| > 0 && |m.next[0]| > 0 && m.next[0][0] == At(chains[0], 0)
  {
    assert LevelOk(cmp, m, chains[0], 0) && LinkOk(m, chains[0], 0, -1);
  }

  lemma IndexedKey(cmp: Comparator, m: Memory, chains: Chains, n: nat)
    requires Inv(cmp, m, chains) && n in chains[0]
    ensures n < |m.keys| && IndexOf(chains[0], n) < |chains[0]| && chains[0][IndexOf(chains[0], n)] == n
  {
    var i := IndexOf(chains[0], n);
    assert LevelOk(cmp, m, chains[0], 0) && LinkOk(m, chains[0], 0, i);
  }

  /** Exactly the entries before an entry come before its key. */
  lemma PositionOfMember(cmp: Comparator, m: Memory, chains: Chains, i: nat)
    requires Inv(cmp, m, chains) && i < |chains[0]|
    ensures chains[0][i] < |m.keys|
    ensures Position(cmp, KeysOf(m, chains[0]), To(m.keys[chains[0][i]])) == i
  {
    var c := chains[0];
    assert LevelOk(cmp, m, c, 0) && LinkOk(m, c, 0, i);
    KeysCount(m, c);
    var key := m.keys[c[i]];
    forall j | 0 <= j < |c| ensures IsBefore(cmp, KeysOf(m, c)[j], To(key)) <==> j < i {
      KeyAt(m, c, j);
      assert LinkOk(m, c, 0, j);
      Irreflexive(cmp, key);
      if j != i {
        assert OrderOk(cmp, m, c, if j < i then j else i, if j < i then i else j);
        Before(cmp, m.keys[c[j]], key, key);
        Before(cmp, key, m.keys[c[j]], key);
      }
    }
    PositionIsSplit(cmp, KeysOf(m, c), To(key), i);
  }

  lemma ShapeHolds(cmp: Comparator, m: Memory, chains: Chains)
    requires Inv(cmp, m, chains)
    ensures Shape(m) && |chains| == MAX_HEIGHT
  {
  }

  lemma BottomInArena(cmp: Comparator, m: Memory, chains: Chains)
    requires Inv(cmp, m, chains)
    ensures forall i :: 0 <= i < |chains[0]| ==> chains[0][i] < |m.keys|
  {
    assert LevelOk(cmp, m, chains[0], 0);
    forall i | 0 <= i < |chains[0]| ensures chains[0][i] < |m.keys| {
      assert LinkOk(m, chains[0], 0, i);
    }
  }

  lemma SplitIsPlace(cmp: Comparator, m: Memory, chains: Chains, target: Search, x: nat, r: nat, i: nat)
    requires Inv(cmp, m, chains) && SplitsAt(cmp, m, chains[0], target, x, r, i)
    ensures Position(cmp, KeysOf(m, chains[0]), target) == i <= |chains[0]|
  {
    assert LevelOk(cmp, m, chains[0], 0);
    SplitIsPosition(cmp, m, chains[0], target, x, r, i);
  }

  lemma HeadStandsIn(cmp: Comparator, m: Memory, chains: Chains, key: Key, height: nat, found: seq<nat>, prev: seq<nat>)
    requires Inv(cmp, m, chains) && m.maxHeight < height <= MAX_HEIGHT == |found| == |prev|
    requires forall l :: 0 <= l < m.maxHeight ==> PrevOk(cmp, m, chains, key, found, l)
    requires forall l :: 0 <= l < MAX_HEIGHT ==> prev[l] == if m.maxHeight <= l < height then 0 else found[l]
    ensures WriterOk(cmp, m, chains, Found(key, height, prev))
  {
    forall l | 0 <= l < m.maxHeight ensures PrevOk(cmp, m, chains, key, prev, l) {
      assert PrevOk(cmp, m, chains, key, found, l);
    }
    FoundIsOk(cmp, m, chains, key, height, prev);
  }

  lemma GrowsOn(a: Chains, b: Chains, c: Chains)
    requires Grows(a, b) && Grows(b, c)
    ensures Grows(a, c)
  {
    forall l | 0 <= l < |a| ensures Within(a[l], c[l]) {
      assert Within(a[l], b[l]) && Within(b[l], c[l]);
    }
  }

  lemma AllThere(c: seq<nat>, d: seq<nat>, x: nat)
    requires Within(c, d) && x in d && forall n :: 0 < n < x ==> n in c
    ensures forall n :: 0 < n <= x ==> n in d
  {
  }

  /** Allocating more nodes leaves the keys of a list alone. */
  lemma {:induction false} KeysOfGrown(m: Memory, m': Memory, c: seq<nat>)
    requires KeepsKeys(m, m') && forall i :: 0 <= i < |c| ==> c[i] < |m.keys|
    ensures KeysOf(m', c) == KeysOf(m, c)
  {
    if c != [] {
      KeysOfGrown(m, m', c[..|c| - 1]);
    }
  }

  lemma InsertedKeys(m: Memory, m': Memory, c: seq<nat>, i: nat, x: nat)
    requires KeepsKeys(m, m') && i <= |c| && x < |m'.keys|
    requires forall j :: 0 <= j < |c| ==> c[j] < |m.keys|
    ensures |KeysOf(m, c)| == |c|
    ensures KeysOf(m', InsertAt(c, i, x)) == KeysOf(m, c)[..i] + [m'.keys[x]] + KeysOf(m, c)[i..]
  {
    hide KeysOf, InsertAt, KeepsKeys;
    var ks, d := KeysOf(m, c), InsertAt(c, i, x);
    KeysCount(m, c);
    KeysCount(m', d);
    InsertedAt(c, i, x, 0);
    var expected := ks[..i] + [m'.keys[x]] + ks[i..];
    forall j | 0 <= j < |d| ensures KeysOf(m', d)[j] == expected[j] {
      InsertedKeyAt(m, m', c, i, x, j);
    }
  }

  lemma InsertedKeyAt(m: Memory, m': Memory, c: seq<nat>, i: nat, x: nat, j: nat)
    requires KeepsKeys(m, m') && i <= |c| && x < |m'.keys| && j <= |c|
    requires forall j :: 0 <= j < |c| ==> c[j] < |m.keys|
    ensures |KeysOf(m, c)| == |c| && |KeysOf(m', InsertAt(c, i, x))| == |c| + 1
    ensures KeysOf(m', InsertAt(c, i, x))[j]
            == if j < i then KeysOf(m, c)[j] else if j == i then m'.keys[x] else KeysOf(m, c)[j - 1]
  {
    hide KeysOf, InsertAt;
    KeysCount(m, c);
    InsertedAt(c, i, x, j);
    KeyAt(m', InsertAt(c, i, x), j);
    if j != i { KeyAt(m, c, if j < i then j else j - 1); }
  }

  lemma AllBefore(cmp: Comparator, m: Memory, c: seq<nat>, x: nat, r: nat, i: nat)
    requires Shape(m) && LevelOk(cmp, m, c, 0) && SplitsAt(cmp, m, c, End, x, r, i)
    ensures i == |c|
  {
    if c != [] {
      assert LinkOk(m, c, 0, |c| - 1);
      assert SideOk(cmp, m, c, End, i, |c| - 1);
    }
  }

  /** The first key at or after a key compares equal to it exactly when some key in the list does. */
  lemma FoundIfThere(cmp: Comparator, m: Memory, chains: Chains, key: Key, x: nat, r: nat, i: nat)
    requires Inv(cmp, m, chains) && SplitsAt(cmp, m, chains[0], To(key), x, r, i)
    ensures r < |m.keys| && (r != 0 && cmp(key, m.keys[r]) == 0 <==> exists k :: k in KeysOf(m, chains[0]) && cmp(k, key) == 0)
  {
    var c := chains[0];
    assert LevelOk(cmp, m, c, 0);
    KeysCount(m, c);
    if i < |c| {
      assert LinkOk(m, c, 0, i);
      KeyAt(m, c, i);
      Before(cmp, key, m.keys[r], key);
      Before(cmp, m.keys[r], key, key);
    }
    if k :| k in KeysOf(m, c) && cmp(k, key) == 0 {
      var j: nat :| j < |c| && KeysOf(m, c)[j] == k;
      KeyAt(m, c, j);
      assert SideOk(cmp, m, c, To(key), i, j) && LinkOk(m, c, 0, j);
      assert i <= j;
      if i < j {
        assert OrderOk(cmp, m, c, i, j) && SideOk(cmp, m, c, To(key), i, i);
        Before(cmp, m.keys[c[i]], k, key);
      }
    }
  }

  lemma AbsentEverywhere(cmp: Comparator, m: Memory, chains: Chains, key: Key)
    requires Inv(cmp, m, chains)
    requires forall k :: k in KeysOf(m, chains[0]) ==> cmp(k, key) != 0
    ensures forall l :: 0 <= l < MAX_HEIGHT ==> Absent(cmp, m, chains[l], key)
  {
    forall l | 0 <= l < MAX_HEIGHT ensures Absent(cmp, m, chains[l], key) {
      forall n | n in chains[l] && n < |m.keys| ensures cmp(m.keys[n], key) != 0 {
        LinkedAtBottom(chains, l, n);
        var j: nat :| j < |chains[0]| && chains[0][j] == n;
        KeyAt(m, chains[0], j);
        assert m.keys[n] in KeysOf(m, chains[0]);
      }
    }
  }

  lemma {:induction false} LinkedAtBottom(chains: Chains, l: nat, n: nat)
    requires l < |chains| && n in chains[l] && forall k :: 0 < k < |chains| ==> LinkedBelow(chains, k)
    ensures n in chains[0]
    decreases l
  {
    if l > 0 {
      assert LinkedBelow(chains, l);
      LinkedAtBottom(chains, l - 1, n);
    }
  }

  lemma WithinLevel(chains: Chains, x: nat, level: nat, i: nat)
    requires level < |chains| && StandsAt(chains, x, level, i)
    ensures i <= |chains[level]|
  {
  }

  lemma Kept(cmp: Comparator, m: Memory, chains: Chains, key: Key, before: seq<nat>, after: seq<nat>, level: nat)
    requires level < |before| == |after| && forall l :: level < l < |before| ==> after[l] == before[l]
    requires forall l :: level < l < m.maxHeight ==> PrevAt(cmp, m, chains, key, before, l)
    ensures forall l :: level < l < m.maxHeight ==> PrevAt(cmp, m, chains, key, after, l)
  {
    forall l | level < l < m.maxHeight ensures PrevAt(cmp, m, chains, key, after, l) {
      assert PrevAt(cmp, m, chains, key, before, l);
    }
  }

  lemma FoundAt(cmp: Comparator, m: Memory, chains: Chains, target: Search, x: nat, r: nat, i: nat)
    requires Inv(cmp, m, chains) && SplitsAt(cmp, m, chains[0], target, x, r, i)
    ensures |m.keys| == |m.next| && |m.next[0]| == MAX_HEIGHT && r < |m.keys|
    ensures i == Position(cmp, KeysOf(m, chains[0]), target)
    ensures r == At(chains[0], i) && x == if i == 0 then 0 else chains[0][i - 1]
  {
    assert LevelOk(cmp, m, chains[0], 0);
    if i < |chains[0]| {
      assert LinkOk(m, chains[0], 0, i);
    }
    SplitIsPosition(cmp, m, chains[0], target, x, r, i);
  }
}
