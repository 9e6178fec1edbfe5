/**
 * One inserting writer and any number of lock-free readers of a skip list (db/skiplist.h), interleaved one load or
 * store at a time.
 */
module SkipListRuns {
  import opened Wrappers
  import opened UserKeys
  import opened SkipListState

  /** A search in progress: it stands on node x and is about to load x's link at this level. */
  datatype Reader = Reader(target: Search, x: nat, level: nat)

  /** The shared memory and what each thread remembers. */
  datatype Config = Config(m: Memory, writer: Writer, readers: map<nat, Reader>)

  datatype Step =
    | StartInsert(key: Key, prev: seq<nat>)
    | SearchLoad(height: nat)
    | RaiseHeight
    | NewNode
    | PrepareLink
    | PublishLink
    | Finish
    | StartRead(id: nat, target: Search)
    | Load(id: nat)

  /** The height drawn for the new node, and the head standing in for the levels above the list. */
  function Predecessors(prev: seq<nat>, maxHeight: nat, height: nat): seq<nat> {
    seq(|prev|, l requires 0 <= l < |prev| => if maxHeight <= l < height then 0 else prev[l])
  }

  /** Every load and store is of a link that exists. */
  predicate LinkExists(m: Memory, n: nat, level: nat) {
    n < |m.next| && level < |m.next[n]|
  }

  /** Whether Insert takes this step here; prev starts uninitialised, so it may hold anything. */
  predicate WriterSteps(cmp: Comparator, c: Config, step: Step, c': Config) {
    var m, w := c.m, c.writer;
    && c'.readers == c.readers
    && match step
       case StartInsert(key, prev) =>
         && w.Idle? && |prev| == MAX_HEIGHT && m.maxHeight > 0
         && (forall n :: 0 < n < |m.keys| ==> cmp(m.keys[n], key) != 0)
         && c'.m == m && c'.writer == Searching(key, prev, 0, m.maxHeight - 1)
       case SearchLoad(height) =>
         && w.Searching? && LinkExists(m, w.x, w.level) && m.next[w.x][w.level] < |m.keys| && w.level < |w.prev|
         && c'.m == m
         && if KeyIsAfterNode(cmp, m, To(w.key), m.next[w.x][w.level]) then
              c'.writer == Searching(w.key, w.prev, m.next[w.x][w.level], w.level)
            else if w.level > 0 then
              c'.writer == Searching(w.key, w.prev[w.level := w.x], w.x, w.level - 1)
            else
              && 1 <= height <= MAX_HEIGHT
              && c'.writer == Found(w.key, height, Predecessors(w.prev[0 := w.x], m.maxHeight, height))
       case RaiseHeight =>
         w.Found? && w.height > m.maxHeight && c'.m == StoreMaxHeight(m, w.height) && c'.writer == w
       case NewNode =>
         && w.Found? && w.height <= m.maxHeight
         && c'.m == Allocate(m, w.key, w.height)
         && c'.writer == Linking(|m.keys|, w.height, w.prev, 0, false)
       case PrepareLink =>
         && w.Linking? && w.level < w.height && !w.prepared && w.level < |w.prev|
         && LinkExists(m, w.prev[w.level], w.level) && LinkExists(m, w.x, w.level)
         && c'.m == StoreNext(m, w.x, w.level, m.next[w.prev[w.level]][w.level])
         && c'.writer == w.(prepared := true)
       case PublishLink =>
         && w.Linking? && w.prepared && w.level < |w.prev| && LinkExists(m, w.prev[w.level], w.level)
         && c'.m == StoreNext(m, w.prev[w.level], w.level, w.x)
         && c'.writer == w.(level := w.level + 1, prepared := false)
       case Finish => w.Linking? && w.level == w.height && c'.m == m && c'.writer == Idle
       case _ => false
  }

  /** What a reader's load tells it: stand on another node, go down a level, or return the node and its successor. */
  datatype Outcome = Goes(x: nat, level: nat) | Returns(x: nat, r: nat)

  function LoadLink(cmp: Comparator, m: Memory, reader: Reader): Outcome
    requires LinkExists(m, reader.x, reader.level) && m.next[reader.x][reader.level] < |m.keys|
  {
    var r := m.next[reader.x][reader.level];
    if KeyIsAfterNode(cmp, m, reader.target, r) then Goes(r, reader.level)
    else if reader.level > 0 then Goes(reader.x, reader.level - 1)
    else Returns(reader.x, r)
  }

  function AfterLoad(readers: map<nat, Reader>, id: nat, outcome: Outcome): map<nat, Reader>
    requires id in readers
  {
    match outcome
    case Goes(x, level) => readers[id := Reader(readers[id].target, x, level)]
    case Returns(_, _) => readers - {id}
  }

  /** A reader starts at the height it happens to load, and is forgotten when it returns. */
  predicate ReaderSteps(cmp: Comparator, c: Config, step: Step, c': Config) {
    && c'.m == c.m && c'.writer == c.writer
    && match step
       case StartRead(id, target) =>
         && c.m.maxHeight > 0
         && c'.readers == c.readers[id := Reader(target, 0, c.m.maxHeight - 1)]
       case Load(id) =>
         && id in c.readers && LinkExists(c.m, c.readers[id].x, c.readers[id].level)
         && c.m.next[c.readers[id].x][c.readers[id].level] < |c.m.keys|
         && c'.readers == AfterLoad(c.readers, id, LoadLink(cmp, c.m, c.readers[id]))
       case _ => false
  }

  predicate Steps(cmp: Comparator, c: Config, step: Step, c': Config) {
    if step.StartRead? || step.Load? then ReaderSteps(cmp, c, step, c') else WriterSteps(cmp, c, step, c')
  }

  /** The constructor's list: the head alone, at height one. */
  function Empty(): Config {
    Config(Memory([[]], [seq(MAX_HEIGHT, _ => 0)], 1), Idle, map[])
  }

  // ----- What holds between any two steps -----

  ghost predicate ReaderOk(cmp: Comparator, c: Config, chains: Chains, id: nat)
    requires id in c.readers
  {
    Standing(cmp, c.m, chains, c.readers[id].target, c.readers[id].x, c.readers[id].level)
  }

  ghost predicate Ok(cmp: Comparator, c: Config, chains: Chains) {
    && Inv(cmp, c.m, chains)
    && WriterOk(cmp, c.m, chains, c.writer)
    && forall id :: id in c.readers ==> ReaderOk(cmp, c, chains, id)
  }

  lemma EmptyIsOk(cmp: Comparator)
    ensures Ok(cmp, Empty(), seq(MAX_HEIGHT, _ => []))
  {
    var m, chains := Empty().m, seq(MAX_HEIGHT, _ => []);
    forall l | 0 <= l < MAX_HEIGHT ensures LevelOk(cmp, m, chains[l], l) {
      assert LinkOk(m, chains[l], l, -1);
    }
  }

  /** What one step may do to the lists: nothing, or add the writer's node where it belongs on the writer's level. */
  ghost predicate Extends(cmp: Comparator, c: Config, chains: Chains, step: Step, chains': Chains) {
    && Grows(chains, chains')
    && if step.PublishLink? && c.writer.Linking? && c.writer.level < |chains| then
         exists i :: Inserts(cmp, c.m, c.writer, chains, chains', i)
       else chains' == chains
  }

  ghost predicate Inserts(cmp: Comparator, m: Memory, w: Writer, chains: Chains, chains': Chains, i: nat) {
    && w.Linking? && w.x < |m.next| && w.level < |m.next[w.x]| && w.level < |w.prev| && w.level < |chains|
    && w.x < |m.keys|
    && SplitsAt(cmp, m, chains[w.level], To(m.keys[w.x]), w.prev[w.level], m.next[w.x][w.level], i)
    && chains' == chains[w.level := InsertAt(chains[w.level], i, w.x)]
  }

  /** Every step of any thread keeps every level in order and every other thread where it may be. */
  lemma StepIsOk(cmp: Comparator, c: Config, chains: Chains, step: Step, c': Config) returns (chains': Chains)
    requires Ok(cmp, c, chains) && Steps(cmp, c, step, c')
    ensures Ok(cmp, c', chains') && Extends(cmp, c, chains, step, chains') && KeepsKeys(c.m, c'.m)
  {
    GrowsSelf(chains);
    if step.StartRead? || step.Load? {
      chains' := chains;
      ReaderStepIsOk(cmp, c, chains, step, c');
    } else {
      chains' := WriterStepIsOk(cmp, c, chains, step, c');
      forall id | id in c'.readers ensures ReaderOk(cmp, c', chains', id) {
        assert ReaderOk(cmp, c, chains, id);
        var reader := c.readers[id];
        StandingLasts(cmp, c.m, c'.m, chains, chains', reader.target, reader.x, reader.level);
      }
    }
  }

  lemma ReaderStepIsOk(cmp: Comparator, c: Config, chains: Chains, step: Step, c': Config)
    requires Ok(cmp, c, chains) && ReaderSteps(cmp, c, step, c')
    ensures Ok(cmp, c', chains)
  {
    forall id | id in c'.readers ensures ReaderOk(cmp, c', chains, id) {
      if id in c.readers {
        assert ReaderOk(cmp, c, chains, id);
        if step == Load(id) {
          var reader := c.readers[id];
          var i := FindPlace(cmp, c.m, chains, reader.target, reader.x, reader.level);
          LoadedLink(cmp, c.m, chains, reader.target, reader.x, reader.level, i);
          if reader.level > 0 {
            GoDown(cmp, c.m, chains, reader.target, reader.x, reader.level);
          }
        }
      }
    }
  }

  lemma WriterStepIsOk(cmp: Comparator, c: Config, chains: Chains, step: Step, c': Config) returns (chains': Chains)
    requires Inv(cmp, c.m, chains) && WriterOk(cmp, c.m, chains, c.writer) && WriterSteps(cmp, c, step, c')
    ensures Inv(cmp, c'.m, chains') && WriterOk(cmp, c'.m, chains', c'.writer)
    ensures Extends(cmp, c, chains, step, chains') && KeepsKeys(c.m, c'.m)
  {
    hide Inv;
    GrowsSelf(chains);
    chains' := chains;
    var w := c.writer;
    match step {
      case StartInsert(key, prev) => {
        SearchStarts(cmp, c.m, chains, key, prev);
      }
      case SearchLoad(height) => {
        SearchMoves(cmp, c.m, chains, w);
        if c'.writer.Found? {
          SearchEnds(cmp, c.m, chains, w, height);
        }
      }
      case RaiseHeight => {
        RaisedHeight(cmp, c.m, chains, w.height);
        RaiseKeepsWriter(cmp, c.m, chains, w, w.height);
      }
      case NewNode => {
        Allocated(cmp, c.m, chains, w.key, w.height);
        AllocateStartsLinking(cmp, c.m, chains, w);
      }
      case PrepareLink => {
        PrepareKeepsWriter(cmp, c.m, chains, w);
      }
      case PublishLink => {
        var i := PublishKeepsWriter(cmp, c.m, chains, w);
        chains' := chains[w.level := InsertAt(chains[w.level], i, w.x)];
        assert Inserts(cmp, c.m, w, chains, chains', i);
      }
      case _ => {
      }
    }
  }

  lemma SearchEnds(cmp: Comparator, m: Memory, chains: Chains, w: Writer, height: nat)
    requires Inv(cmp, m, chains) && w.Searching? && w.level == 0 && WriterOk(cmp, m, chains, w)
    requires PrevOk(cmp, m, chains, w.key, w.prev[0 := w.x], 0) && 1 <= height <= MAX_HEIGHT
    ensures WriterOk(cmp, m, chains, Found(w.key, height, Predecessors(w.prev[0 := w.x], m.maxHeight, height)))
  {
    var prev := Predecessors(w.prev[0 := w.x], m.maxHeight, height);
    forall l | 0 <= l < m.maxHeight ensures PrevOk(cmp, m, chains, w.key, prev, l) {
      assert l > 0 ==> PrevOk(cmp, m, chains, w.key, w.prev, l);
      assert prev[l] == w.prev[0 := w.x][l];
    }
    FoundIsOk(cmp, m, chains, w.key, height, prev);
  }

  // ----- Whole runs -----

  ghost predicate StepAt(cmp: Comparator, cs: seq<Config>, steps: seq<Step>, k: nat)
    requires |cs| == |steps| + 1 && k < |steps|
  {
    Steps(cmp, cs[k], steps[k], cs[k + 1])
  }

  ghost predicate Run(cmp: Comparator, cs: seq<Config>, steps: seq<Step>) {
    && |cs| == |steps| + 1 && cs[0] == Empty()
    && forall k :: 0 <= k < |steps| ==> StepAt(cmp, cs, steps, k)
  }

  ghost predicate OkAt(cmp: Comparator, cs: seq<Config>, history: seq<Chains>, k: nat)
    requires k < |cs| == |history|
  {
    Ok(cmp, cs[k], history[k])
  }

  ghost predicate ExtendsAt(cmp: Comparator, cs: seq<Config>, steps: seq<Step>, history: seq<Chains>, k: nat)
    requires |cs| == |steps| + 1 == |history| && k < |steps|
  {
    Extends(cmp, cs[k], history[k], steps[k], history[k + 1]) && KeepsKeys(cs[k].m, cs[k + 1].m)
  }

  /** The bottom list, which holds every node inserted. */
  function Bottom(chains: Chains): seq<nat> {
    if chains == [] then [] else chains[0]
  }

  /** The lists at each moment of a run. */
  ghost predicate History(cmp: Comparator, cs: seq<Config>, steps: seq<Step>, history: seq<Chains>) {
    && |cs| == |steps| + 1 == |history|
    && history[0] == seq(MAX_HEIGHT, _ => [])
    && (forall k :: 0 <= k < |cs| ==> OkAt(cmp, cs, history, k))
    && forall k :: 0 <= k < |steps| ==> ExtendsAt(cmp, cs, steps, history, k)
  }

  /**
   * In every interleaving every level is in order at every moment, what is linked at a level is linked below it, and
   * the lists change only by the writer's publishing stores, each putting its node where its key belongs.
   */
  lemma {:induction false} RunIsOk(cmp: Comparator, cs: seq<Config>, steps: seq<Step>) returns (history: seq<Chains>)
    requires Run(cmp, cs, steps)
    ensures History(cmp, cs, steps, history)
    decreases |steps|
  {
    hide Ok, Extends, KeepsKeys, Steps;
    if steps == [] {
      EmptyIsOk(cmp);
      history := [seq(MAX_HEIGHT, _ => [])];
    } else {
      var n := |steps| - 1;
      var cs0, steps0 := cs[..n + 1], steps[..n];
      forall k | 0 <= k < |steps0| ensures StepAt(cmp, cs0, steps0, k) {
        assert StepAt(cmp, cs, steps, k);
      }
      var before := RunIsOk(cmp, cs0, steps0);
      assert OkAt(cmp, cs0, before, n) && StepAt(cmp, cs, steps, n);
      var after := StepIsOk(cmp, cs[n], before[n], steps[n], cs[n + 1]);
      history := before + [after];
      forall k | 0 <= k < |cs| ensures OkAt(cmp, cs, history, k) {
        assert k <= n ==> OkAt(cmp, cs0, before, k);
      }
      forall k | 0 <= k < |steps| ensures ExtendsAt(cmp, cs, steps, history, k) {
        assert k < n ==> ExtendsAt(cmp, cs0, steps0, before, k);
      }
    }
  }

  /** A node once in the list stays in it, with its key. */
  lemma {:induction false} NodesStay(cmp: Comparator, cs: seq<Config>, steps: seq<Step>, history: seq<Chains>, i: nat, j: nat, x: nat)
    requires History(cmp, cs, steps, history) && i <= j < |cs| && x in Bottom(history[i])
    ensures x in Bottom(history[j]) && KeepsKeys(cs[i].m, cs[j].m)
    decreases j
  {
    if i < j {
      NodesStay(cmp, cs, steps, history, i, j - 1, x);
      assert OkAt(cmp, cs, history, j - 1) && ExtendsAt(cmp, cs, steps, history, j - 1);
      assert Within(Bottom(history[j - 1]), Bottom(history[j]));
    }
  }

  /** At step k of a run, reader id finishes with nodes x and r. */
  ghost predicate ReturnsAt(cmp: Comparator, cs: seq<Config>, steps: seq<Step>, k: nat, id: nat, x: nat, r: nat) {
    && Run(cmp, cs, steps) && k < |steps| && steps[k] == Load(id) && StepAt(cmp, cs, steps, k)
    && LoadLink(cmp, cs[k].m, cs[k].readers[id]) == Returns(x, r)
  }

  /**
   * Linearizability of searches: when a reader returns, the nodes it returns split the list of that very moment
   * exactly at its target, whatever was inserted while it was searching.
   */
  lemma ReadersAreExact(cmp: Comparator, cs: seq<Config>, steps: seq<Step>, history: seq<Chains>, k: nat, id: nat, x: nat, r: nat)
    requires ReturnsAt(cmp, cs, steps, k, id, x, r) && History(cmp, cs, steps, history)
    ensures Splits(cmp, cs[k].m, Bottom(history[k]), cs[k].readers[id].target, x, r)
  {
    assert OkAt(cmp, cs, history, k) && ReaderOk(cmp, cs[k], history[k], id);
    var reader := cs[k].readers[id];
    var i := FindPlace(cmp, cs[k].m, history[k], reader.target, reader.x, reader.level);
    LoadedLink(cmp, cs[k].m, history[k], reader.target, reader.x, reader.level, i);
  }

  /** Once a node is in the list, every search for its key that returns later returns that node. */
  lemma InsertedIsFound(cmp: Comparator, cs: seq<Config>, steps: seq<Step>, history: seq<Chains>,
                        i: nat, k: nat, id: nat, x: nat, r: nat, n: nat)
    requires ReturnsAt(cmp, cs, steps, k, id, x, r) && History(cmp, cs, steps, history)
    requires i <= k && n in Bottom(history[i]) && n < |cs[i].m.keys|
    requires cs[k].readers[id].target == To(cs[i].m.keys[n])
    ensures r == n
  {
    NodesStay(cmp, cs, steps, history, i, k, n);
    ReadersAreExact(cmp, cs, steps, history, k, id, x, r);
    assert OkAt(cmp, cs, history, k);
    SplitAtMember(cmp, cs[k].m, Bottom(history[k]), cs[i].m.keys[n], x, r, n);
  }

  lemma SplitAtMember(cmp: Comparator, m: Memory, c: seq<nat>, key: Key, x: nat, r: nat, n: nat)
    requires Shape(m) && LevelOk(cmp, m, c, 0) && Splits(cmp, m, c, To(key), x, r)
    requires n in c && n < |m.keys| && m.keys[n] == key
    ensures r == n
  {
    var i: nat :| SplitsAt(cmp, m, c, To(key), x, r, i);
    var k: nat :| 0 <= k < |c| && c[k] == n;
    assert SideOk(cmp, m, c, To(key), i, k);
    Irreflexive(cmp, key);
    assert SideOk(cmp, m, c, To(key), i, i) && LinkOk(m, c, 0, i);
    if i < k {
      InOrderAt(cmp, m, c, i, k);
    }
  }

  lemma InOrderAt(cmp: Comparator, m: Memory, c: seq<nat>, i: nat, k: nat)
    requires Shape(m) && LevelOk(cmp, m, c, 0) && i < k < |c|
    ensures OrderOk(cmp, m, c, i, k)
  {
  }

  /** No thread is ever in the middle of nothing: in a run, the writer and every reader can take their next step. */
  lemma NobodyIsStuck(cmp: Comparator, c: Config, chains: Chains) returns (step: Step, c': Config)
    requires Ok(cmp, c, chains) && !c.writer.Idle?
    ensures Steps(cmp, c, step, c') && !step.StartRead? && !step.Load?
    ensures forall id :: id in c.readers ==>
              LinkExists(c.m, c.readers[id].x, c.readers[id].level) && c.m.next[c.readers[id].x][c.readers[id].level] < |c.m.keys|
  {
    forall id | id in c.readers
      ensures LinkExists(c.m, c.readers[id].x, c.readers[id].level)
      ensures c.m.next[c.readers[id].x][c.readers[id].level] < |c.m.keys|
    {
      assert ReaderOk(cmp, c, chains, id);
      var reader := c.readers[id];
      var i := FindPlace(cmp, c.m, chains, reader.target, reader.x, reader.level);
      LoadedLink(cmp, c.m, chains, reader.target, reader.x, reader.level, i);
    }
    step, c' := WriterIsNotStuck(cmp, c, chains);
  }

  lemma WriterIsNotStuck(cmp: Comparator, c: Config, chains: Chains) returns (step: Step, c': Config)
    requires Ok(cmp, c, chains) && !c.writer.Idle?
    ensures WriterSteps(cmp, c, step, c') && !step.StartRead? && !step.Load?
  {
    if c.writer.Linking? {
      step, c' := LinkerIsNotStuck(cmp, c, chains);
    } else {
      step, c' := SearcherIsNotStuck(cmp, c, chains);
    }
  }

  lemma SearcherIsNotStuck(cmp: Comparator, c: Config, chains: Chains) returns (step: Step, c': Config)
    requires Ok(cmp, c, chains) && (c.writer.Searching? || c.writer.Found?)
    ensures WriterSteps(cmp, c, step, c') && !step.StartRead? && !step.Load?
  {
    var m, w := c.m, c.writer;
    match w {
      case Searching(key, prev, x, level) => {
        SearchMoves(cmp, m, chains, w);
        step := SearchLoad(1);
        c' := Config(m, if KeyIsAfterNode(cmp, m, To(key), m.next[x][level]) then Searching(key, prev, m.next[x][level], level)
                        else if level > 0 then Searching(key, prev[level := x], x, level - 1)
                        else Found(key, 1, Predecessors(prev[0 := x], m.maxHeight, 1)), c.readers);
      }
      case Found(key, height, prev) => {
        if height > m.maxHeight {
          step, c' := RaiseHeight, c.(m := StoreMaxHeight(m, height));
        } else {
          step, c' := NewNode, Config(Allocate(m, key, height), Linking(|m.keys|, height, prev, 0, false), c.readers);
        }
      }
    }
  }

  lemma LinkerIsNotStuck(cmp: Comparator, c: Config, chains: Chains) returns (step: Step, c': Config)
    requires Ok(cmp, c, chains) && c.writer.Linking?
    ensures WriterSteps(cmp, c, step, c') && !step.StartRead? && !step.Load?
  {
    var m, w := c.m, c.writer;
    var (x, prev, level) := (w.x, w.prev, w.level);
    if level == w.height {
      step, c' := Finish, c.(writer := Idle);
    } else if !w.prepared {
      PrepareKeepsWriter(cmp, m, chains, w);
      step, c' := PrepareLink, Config(StoreNext(m, x, level, m.next[prev[level]][level]), w.(prepared := true), c.readers);
    } else {
      var _ := PublishKeepsWriter(cmp, m, chains, w);
      step, c' := PublishLink, Config(StoreNext(m, prev[level], level, x), w.(level := level + 1, prepared := false), c.readers);
    }
  }
}
