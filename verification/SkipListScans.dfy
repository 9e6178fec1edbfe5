/** Iterators that walk the bottom list while the writer goes on inserting (SkipList::Iterator, db/skiplist.h). */
module SkipListScans {
  import opened UserKeys
  import opened SkipListState
  import opened SkipListRuns

  /**
   * A walk over a run: load i happens at moment times[i] and takes it from node nodes[i] to nodes[i + 1]. Loads change
   * nothing that other threads see, so a walk is no more than these moments; it goes on from a node, or ends at null.
   */
  ghost predicate LoadsAt(cs: seq<Config>, times: seq<nat>, nodes: seq<nat>, i: nat)
    requires i < |times| && |nodes| == |times| + 1
  {
    && times[i] < |cs| && (i > 0 ==> times[i - 1] <= times[i] && nodes[i] != 0)
    && LinkExists(cs[times[i]].m, nodes[i], 0) && nodes[i + 1] == cs[times[i]].m.next[nodes[i]][0]
  }

  /** It starts on the head or on a node that is in the list by then. */
  ghost predicate Scan(cs: seq<Config>, history: seq<Chains>, times: seq<nat>, nodes: seq<nat>) {
    && |nodes| == |times| + 1 && times != [] && |cs| == |history|
    && (forall i :: 0 <= i < |times| ==> LoadsAt(cs, times, nodes, i))
    && times[0] < |history| && (nodes[0] == 0 || nodes[0] in Bottom(history[times[0]]))
  }

  /** y comes after x in key order; everything comes after the head. */
  ghost predicate After(cmp: Comparator, m: Memory, x: nat, y: nat) {
    x < |m.keys| && y < |m.keys| && (x == 0 || Less(cmp, m, x, y))
  }

  /** The memory when the run ends; it knows the keys of all nodes. */
  function Last(cs: seq<Config>): Memory
    requires cs != []
  {
    cs[|cs| - 1].m
  }

  /** One load: the node found is the next one, and nothing of the list lies between. */
  lemma Successor(cmp: Comparator, m: Memory, chains: Chains, x: nat) returns (r: nat)
    requires Inv(cmp, m, chains) && (x == 0 || x in Bottom(chains))
    ensures LinkExists(m, x, 0) && r == m.next[x][0]
    ensures r != 0 ==> r in Bottom(chains) && After(cmp, m, x, r)
    ensures forall y :: y in Bottom(chains) && After(cmp, m, x, y) ==> r != 0 && (y == r || After(cmp, m, r, y))
  {
    var c := Bottom(chains);
    assert LevelOk(cmp, m, c, 0);
    var i := if x == 0 then -1 else PlaceOf(c, x);
    assert LinkOk(m, c, 0, i);
    r := m.next[x][0];
    if i + 1 < |c| {
      assert LinkOk(m, c, 0, i + 1);
      if i >= 0 { assert OrderOk(cmp, m, c, i, i + 1); }
    }
    forall y | y in c && After(cmp, m, x, y) ensures r != 0 && (y == r || After(cmp, m, r, y)) {
      Between(cmp, m, c, x, i, y);
    }
  }

  function PlaceOf(c: seq<nat>, x: nat): (i: nat)
    requires x in c
    ensures i < |c| && c[i] == x
  {
    if c[0] == x then 0 else 1 + PlaceOf(c[1..], x)
  }

  lemma NotAfter(cmp: Comparator, m: Memory, c: seq<nat>, k: nat, i: nat)
    requires Shape(m) && LevelOk(cmp, m, c, 0) && k <= i < |c|
    ensures LinkOk(m, c, 0, i) && LinkOk(m, c, 0, k) && !Less(cmp, m, c[i], c[k])
  {
    assert LinkOk(m, c, 0, i) && LinkOk(m, c, 0, k);
    Irreflexive(cmp, m.keys[c[i]]);
    if k < i {
      assert OrderOk(cmp, m, c, k, i);
      Before(cmp, m.keys[c[i]], m.keys[c[k]], m.keys[c[i]]);
    }
  }

  lemma Between(cmp: Comparator, m: Memory, c: seq<nat>, x: nat, i: int, y: nat)
    requires Shape(m) && LevelOk(cmp, m, c, 0) && -1 <= i < |c| && x == (if i == -1 then 0 else c[i])
    requires y in c && After(cmp, m, x, y)
    ensures i + 1 < |c| && c[i + 1] != 0 && (y == c[i + 1] || After(cmp, m, c[i + 1], y))
  {
    var k := PlaceOf(c, y);
    assert LinkOk(m, c, 0, k);
    if k <= i { NotAfter(cmp, m, c, k, i); }
    assert LinkOk(m, c, 0, i + 1);
    if i + 1 < k { assert OrderOk(cmp, m, c, i + 1, k); }
  }

  /** Between two loads the node the walk stands on stays in the list. */
  lemma {:induction false} StandsInList(cmp: Comparator, cs: seq<Config>, steps: seq<Step>, history: seq<Chains>,
                                        times: seq<nat>, nodes: seq<nat>, i: nat)
    requires History(cmp, cs, steps, history) && Scan(cs, history, times, nodes) && i < |times|
    ensures times[i] < |history| && (nodes[i] == 0 || nodes[i] in Bottom(history[times[i]]))
  {
    hide History, Bottom;
    assert LoadsAt(cs, times, nodes, i);
    if i > 0 {
      StandsInList(cmp, cs, steps, history, times, nodes, i - 1);
      assert LoadsAt(cs, times, nodes, i - 1);
      var r := LoadFrom(cmp, cs, steps, history, times[i - 1], nodes[i - 1]);
      NodesStay(cmp, cs, steps, history, times[i - 1], times[i], nodes[i]);
    }
  }

  /** A load at moment k, with the order told by the keys of the last memory. */
  lemma LoadFrom(cmp: Comparator, cs: seq<Config>, steps: seq<Step>, history: seq<Chains>, k: nat, x: nat) returns (r: nat)
    requires History(cmp, cs, steps, history) && k < |cs| && (x == 0 || x in Bottom(history[k]))
    ensures LinkExists(cs[k].m, x, 0) && r == cs[k].m.next[x][0]
    ensures r != 0 ==> r in Bottom(history[k]) && After(cmp, Last(cs), x, r)
    ensures forall y :: y in Bottom(history[k]) && After(cmp, Last(cs), x, y) ==> r != 0 && (y == r || After(cmp, Last(cs), r, y))
  {
    hide Inv, Bottom;
    assert OkAt(cmp, cs, history, k);
    r := Successor(cmp, cs[k].m, history[k], x);
    if r != 0 { NodesStay(cmp, cs, steps, history, k, |cs| - 1, r); }
    forall y | y in Bottom(history[k]) && After(cmp, Last(cs), x, y)
      ensures r != 0 && (y == r || After(cmp, Last(cs), r, y))
    {
      NodesStay(cmp, cs, steps, history, k, |cs| - 1, y);
      IsAllocated(cmp, cs[k].m, history[k], y);
      if x != 0 { IsAllocated(cmp, cs[k].m, history[k], x); }
      assert cs[k].m.keys <= Last(cs).keys;
    }
  }

  lemma IsAllocated(cmp: Comparator, m: Memory, chains: Chains, y: nat)
    requires Inv(cmp, m, chains) && y in Bottom(chains)
    ensures y < |m.keys|
  {
    assert LevelOk(cmp, m, Bottom(chains), 0) && LinkOk(m, Bottom(chains), 0, PlaceOf(Bottom(chains), y));
  }

  /** Up to here the walk has met every node that was in the list when it set out, or will meet it later. */
  lemma {:induction false} Met(cmp: Comparator, cs: seq<Config>, steps: seq<Step>, history: seq<Chains>,
                               times: seq<nat>, nodes: seq<nat>, i: nat, y: nat)
    requires History(cmp, cs, steps, history) && Scan(cs, history, times, nodes) && i <= |times|
    requires y in Bottom(history[times[0]]) && After(cmp, Last(cs), nodes[0], y)
    ensures y in nodes[..i + 1] || ((i > 0 ==> nodes[i] != 0) && After(cmp, Last(cs), nodes[i], y))
  {
    hide History, Bottom, After;
    if i > 0 {
      Met(cmp, cs, steps, history, times, nodes, i - 1, y);
      if y !in nodes[..i] {
        StandsInList(cmp, cs, steps, history, times, nodes, i - 1);
        assert LoadsAt(cs, times, nodes, i - 1);
        TimesAscend(cs, history, times, nodes, i - 1);
        NodesStay(cmp, cs, steps, history, times[0], times[i - 1], y);
        var r := LoadFrom(cmp, cs, steps, history, times[i - 1], nodes[i - 1]);
        assert nodes[..i + 1][i] == r;
      }
      assert y in nodes[..i] ==> y in nodes[..i + 1];
    }
  }

  lemma {:induction false} TimesAscend(cs: seq<Config>, history: seq<Chains>, times: seq<nat>, nodes: seq<nat>, i: nat)
    requires Scan(cs, history, times, nodes) && i < |times|
    ensures times[0] <= times[i] < |cs|
  {
    assert LoadsAt(cs, times, nodes, i);
    if i > 0 { TimesAscend(cs, history, times, nodes, i - 1); }
  }

  lemma {:induction false} WalkAscends(cmp: Comparator, cs: seq<Config>, steps: seq<Step>, history: seq<Chains>,
                                       times: seq<nat>, nodes: seq<nat>, i: nat, j: nat)
    requires History(cmp, cs, steps, history) && Scan(cs, history, times, nodes)
    requires i < j <= |times| && nodes[j] != 0
    ensures After(cmp, Last(cs), nodes[i], nodes[j])
    decreases j
  {
    hide History, Bottom;
    StandsInList(cmp, cs, steps, history, times, nodes, j - 1);
    assert LoadsAt(cs, times, nodes, j - 1);
    var r := LoadFrom(cmp, cs, steps, history, times[j - 1], nodes[j - 1]);
    if i < j - 1 {
      WalkAscends(cmp, cs, steps, history, times, nodes, i, j - 1);
      var m := Last(cs);
      Before(cmp, m.keys[nodes[i]], m.keys[nodes[j - 1]], m.keys[nodes[j]]);
    }
  }

  /**
   * A walk under concurrent insertions meets nodes in strictly ascending key order, each of them in the list when it is
   * met; and one that has come to the end has met every later node that was in the list when it set out.
   */
  lemma ScanIsExact(cmp: Comparator, cs: seq<Config>, steps: seq<Step>, history: seq<Chains>, times: seq<nat>, nodes: seq<nat>)
    requires Run(cmp, cs, steps) && History(cmp, cs, steps, history) && Scan(cs, history, times, nodes)
    ensures forall i, j :: 0 <= i < j <= |times| && nodes[j] != 0 ==> After(cmp, Last(cs), nodes[i], nodes[j])
    ensures forall i :: 0 < i < |times| ==> times[i] < |history| && nodes[i] in Bottom(history[times[i]])
    ensures nodes[|times|] == 0 ==>
              forall y :: y in Bottom(history[times[0]]) && After(cmp, Last(cs), nodes[0], y) ==> y in nodes
  {
    hide History, Bottom, After, Run;
    forall i, j | 0 <= i < j <= |times| && nodes[j] != 0 ensures After(cmp, Last(cs), nodes[i], nodes[j]) {
      WalkAscends(cmp, cs, steps, history, times, nodes, i, j);
    }
    forall i | 0 < i < |times| ensures times[i] < |history| && nodes[i] in Bottom(history[times[i]]) {
      StandsInList(cmp, cs, steps, history, times, nodes, i);
      assert LoadsAt(cs, times, nodes, i);
    }
    if nodes[|times|] == 0 {
      forall y | y in Bottom(history[times[0]]) && After(cmp, Last(cs), nodes[0], y) ensures y in nodes {
        Met(cmp, cs, steps, history, times, nodes, |times|, y);
        assert nodes[..|times| + 1] == nodes;
      }
    }
  }

  /** Seek and then Next to the end: every node at or after the target that was there when Seek returned is met. */
  lemma SeekAndScan(cmp: Comparator, cs: seq<Config>, steps: seq<Step>, history: seq<Chains>,
                    times: seq<nat>, nodes: seq<nat>, id: nat, r: nat, y: nat)
    requires History(cmp, cs, steps, history) && Scan(cs, history, times, nodes)
    requires ReturnsAt(cmp, cs, steps, times[0], id, nodes[0], r) && nodes[|times|] == 0
    requires y in Bottom(history[times[0]]) && y < |cs[times[0]].m.keys|
    requires !KeyIsAfterNode(cmp, cs[times[0]].m, cs[times[0]].readers[id].target, y)
    ensures nodes[1] == r && y in nodes
  {
    var k, x := times[0], nodes[0];
    assert LoadsAt(cs, times, nodes, 0);
    ReadersAreExact(cmp, cs, steps, history, k, id, x, r);
    NodesStay(cmp, cs, steps, history, k, |cs| - 1, y);
    assert OkAt(cmp, cs, history, k);
    BehindSplit(cmp, cs[k].m, Bottom(history[k]), cs[k].readers[id].target, x, r, y);
    ScanIsExact(cmp, cs, steps, history, times, nodes);
  }

  lemma BehindSplit(cmp: Comparator, m: Memory, c: seq<nat>, target: Search, x: nat, r: nat, y: nat)
    requires Shape(m) && LevelOk(cmp, m, c, 0) && Splits(cmp, m, c, target, x, r)
    requires y in c && y < |m.keys| && !KeyIsAfterNode(cmp, m, target, y)
    ensures After(cmp, m, x, y)
  {
    var i: nat :| SplitsAt(cmp, m, c, target, x, r, i);
    var k := PlaceOf(c, y);
    assert SideOk(cmp, m, c, target, i, k);
    if i > 0 { assert OrderOk(cmp, m, c, i - 1, k); }
  }
}
