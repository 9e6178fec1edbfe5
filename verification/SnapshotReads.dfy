/**
 * Reads at a snapshot (DBImpl::Get, db/db_impl.cc): looking in the memtable, then the immutable memtable, then the
 * version gives the newest entry at or below the snapshot, and a batch becomes visible all at once.
 */
module SnapshotReads {
  import opened Wrappers
  import opened UserKeys
  import opened DbFormat
  import opened Compaction
  import opened MemTable
  import opened Lifecycle
  import Batches = WriteBatch

  // ----- Short-circuit lookups -----

  /** Entries of an upper layer are newer than those of the same key further down. */
  ghost predicate Newer(upper: set<Entry>, lower: set<Entry>) {
    forall e, f :: e in upper && f in lower ==> NewerAt(e, f)
  }

  predicate NewerAt(e: Entry, f: Entry) {
    e.ukey == f.ukey ==> f.Sequence() < e.Sequence()
  }

  /** What is found in the upper layer is found in both; what is absent there is up to the lower layer. */
  lemma UpperFirst(upper: set<Entry>, lower: set<Entry>, k: Key, s: nat, r: Lookup)
    requires Newer(upper, lower)
    requires Finds(upper, k, s, r) && !r.Absent?
    ensures Finds(upper + lower, k, s, r)
  {
    var e :| NewestIn(upper, k, s, e) && r == OutcomeOf(e);
    forall f | f in upper + lower && f.ukey == k && f.Visible(s) ensures f.Sequence() <= e.Sequence() {
      if f in lower { assert NewerAt(e, f); }
    }
    assert NewestIn(upper + lower, k, s, e);
  }

  lemma LowerNext(upper: set<Entry>, lower: set<Entry>, k: Key, s: nat, r: Lookup)
    requires Finds(upper, k, s, Absent) && Finds(lower, k, s, r)
    ensures Finds(upper + lower, k, s, r)
  {
    if !r.Absent? {
      var e :| NewestIn(lower, k, s, e) && r == OutcomeOf(e);
      assert NewestIn(upper + lower, k, s, e);
    }
  }

  ghost predicate HoldsExactly(m: MemTable, es: set<Entry>)
    reads m, m.table
  {
    m.Valid() && Elements(m.entries) == es && forall e :: e in m.entries ==> e.Parses()
  }

  /**
   * Get without the mutex: two memtables and a version captured with it. The version's own answer is handed in; it
   * is the one the version's tables call for.
   */
  method Get(mem: MemTable, imm: MemTable?, version: Lookup, ukey: Key, s: nat,
             ghost top: set<Entry>, ghost middle: set<Entry>, ghost bottom: set<Entry>) returns (r: Lookup)
    requires |ukey| + 8 < 0x1_0000_0000 && s <= MAX_SEQUENCE
    requires HoldsExactly(mem, top) && (if imm == null then middle == {} else HoldsExactly(imm, middle))
    requires Finds(bottom, ukey, s, version)
    requires Newer(top, middle + bottom) && Newer(middle, bottom)
    ensures Finds(top + (middle + bottom), ukey, s, r)
  {
    hide Finds, Newer, Elements;
    r := mem.Get(ukey, s);
    if r != Absent {
      UpperFirst(top, middle + bottom, ukey, s, r);
      return;
    }
    if imm != null {
      r := imm.Get(ukey, s);
      if r != Absent {
        UpperFirst(middle, bottom, ukey, s, r);
        LowerNext(top, middle + bottom, ukey, s, r);
        return;
      }
    } else {
      NothingThere(ukey, s);
    }
    r := version;
    LowerNext(middle, bottom, ukey, s, r);
    LowerNext(top, middle + bottom, ukey, s, r);
  }

  lemma NothingThere(k: Key, s: nat)
    ensures Finds({}, k, s, Absent)
  {
  }

  /** A lookup's outcome is the read of the abstract store. */
  lemma FoundIsRead(es: set<Entry>, k: Key, s: nat, r: Lookup)
    requires UniqueSequences(es) && Finds(es, k, s, r)
    ensures Read(es, k, s) == if r.Found? then Some(r.value) else None
  {
    if !r.Absent? {
      var e :| NewestIn(es, k, s, e) && r == OutcomeOf(e);
      ReadIs(es, k, s, e);
    }
  }

  /** Entries added after the snapshot was taken do not disturb a lookup that runs beside the insertions. */
  lemma LaterInsertsUnseen(es: set<Entry>, later: set<Entry>, k: Key, s: nat, r: Lookup)
    requires forall e :: e in later ==> e.Sequence() > s
    ensures Finds(es + later, k, s, r) <==> Finds(es, k, s, r)
  {
    forall e ensures NewestIn(es + later, k, s, e) <==> NewestIn(es, k, s, e) {
    }
  }

  // ----- The layers in every reachable state -----

  /** Each layer of a database is newer than those below it. */
  ghost predicate Layered(db: Db) {
    Layers(db.mem, Imm(db), TablesOf(db.tables, db.current.tables))
  }

  ghost predicate Layers(top: set<Entry>, middle: set<Entry>, bottom: set<Entry>) {
    && (forall e, f :: e in top && f in middle + bottom ==> f.Sequence() < e.Sequence())
    && (forall e, f :: e in middle && f in bottom ==> f.Sequence() < e.Sequence())
  }

  lemma LayersShrink(top: set<Entry>, middle: set<Entry>, bottom: set<Entry>, bottom': set<Entry>)
    requires Layers(top, middle, bottom) && bottom' <= bottom
    ensures Layers(top, middle, bottom')
  {
  }

  lemma NextIsLayered(cmp: UserComparator, db: Db, step: Step, db': Db)
    requires Ok(cmp, db) && Layered(db) && Next(cmp, db, step, db')
    ensures Layered(db')
  {
    hide Ok, Next, Layered;
    if step.Insert? {
      InsertKeepsLayers(cmp, db, db');
    } else if step.TableBuilt? || step.FinishOutput? {
      NewTableKeepsLayers(cmp, db, step, db');
    } else if step.FlushReturns? && step.ok {
      FlushKeepsLayers(cmp, db, step.garbage, db');
    } else if step.JobReturns? && step.ok {
      CompactionKeepsLayers(cmp, db, step.garbage, db');
    } else {
      OthersKeepLayers(cmp, db, step, db');
    }
  }

  /** The other steps add nothing, and at most make the memtable the immutable one, when there was none. */
  lemma OthersKeepLayers(cmp: UserComparator, db: Db, step: Step, db': Db)
    requires Layered(db) && Next(cmp, db, step, db')
    requires !step.Insert? && !step.TableBuilt? && !step.FinishOutput?
    requires (step.FlushReturns? || step.JobReturns?) ==> !step.ok
    ensures Layered(db')
  {
    hide TablesOf, Survivors, Obsolete, Collected, Picked, UniqueSequences;
  }

  lemma InsertKeepsLayers(cmp: UserComparator, db: Db, db': Db)
    requires Ok(cmp, db) && Layered(db) && Next(cmp, db, Insert, db')
    ensures Layered(db')
  {
    hide FilesOk, LogsOk, FlushOk, ManifestOk, InSync, JobOk, Faithful, TablesOf, UniqueSequences;
  }

  lemma NewTableKeepsLayers(cmp: UserComparator, db: Db, step: Step, db': Db)
    requires Ok(cmp, db) && Layered(db) && (step.TableBuilt? || step.FinishOutput?) && Next(cmp, db, step, db')
    ensures Layered(db')
  {
    hide LogsOk, ManifestOk, InSync, SequencesOk, Faithful, TablesOf, WorkOk, Survivors, Layers, UniqueSequences, Picked, Obsolete;
    if db'.tables != db.tables {
      var n := if step.TableBuilt? then db.flush.n else step.n;
      TableAdded(db.tables, n, db'.tables[n], db.current.tables);
    }
  }

  lemma FlushKeepsLayers(cmp: UserComparator, db: Db, g: Garbage, db': Db)
    requires Ok(cmp, db) && Layered(db) && Next(cmp, db, FlushReturns(true, g), db')
    ensures Layered(db')
  {
    hide FilesOk, LogsOk, ManifestOk, InSync, SequencesOk, JobOk, Faithful, TablesOf;
    FlushedTables(db, db.current.tables);
    GarbageIsNotCurrent(Committed(db), g);
  }

  lemma GarbageIsNotCurrent(db: Db, g: Garbage)
    requires Obsolete(db, g)
    ensures TablesOf(Collected(db, g).tables, db.current.tables) == TablesOf(db.tables, db.current.tables)
  {
    hide TablesOf;
    TablesGone(db.tables, g.tables, db.current.tables);
  }

  lemma CompactionKeepsLayers(cmp: UserComparator, db: Db, g: Garbage, db': Db)
    requires Ok(cmp, db) && Layered(db) && Next(cmp, db, JobReturns(true, g), db')
    ensures Layered(db')
  {
    hide FilesOk, LogsOk, FlushOk, ManifestOk, InSync, SequencesOk, Faithful, TablesOf, Survivors, Layers;
    var w := db.job.w;
    TablesUnion(db.tables, db.current.tables - w.inputs, w.outputs);
    TablesSplit(db.tables, db.current.tables, w.inputs);
    SurvivorsSubset(cmp, w);
    GarbageIsNotCurrent(Replaced(db), g);
    LayersShrink(db.mem, Imm(db), TablesOf(db.tables, db.current.tables), TablesOf(db'.tables, db'.current.tables));
  }

  lemma {:induction false} RunIsLayered(cmp: UserComparator, dbs: seq<Db>, steps: seq<Step>, i: nat)
    requires Run(cmp, dbs, steps) && i < |dbs|
    ensures Layered(dbs[i])
  {
    hide Ok, Next, Layers;
    if i == 0 {
      var tables, manifest, logFile, last :| Fresh(dbs[0], tables, manifest, logFile, last);
      FreshIsLayered(dbs[0], tables, manifest, logFile, last);
    } else {
      RunIsLayered(cmp, dbs, steps, i - 1);
      RunIsOk(cmp, dbs, steps, i - 1);
      assert StepAt(cmp, dbs, steps, i - 1);
      NextIsLayered(cmp, dbs[i - 1], steps[i - 1], dbs[i]);
    }
  }

  lemma FreshIsLayered(db: Db, tables: map<nat, set<Entry>>, manifest: nat, logFile: nat, last: nat)
    requires Fresh(db, tables, manifest, logFile, last)
    ensures Layered(db)
  {
  }

  /**
   * In every reachable state a lookup in mem, then imm, then the version's tables answers as a read of every write
   * acknowledged so far does, at the latest sequence number and at every live snapshot.
   */
  lemma ShortCircuitIsExact(cmp: UserComparator, dbs: seq<Db>, steps: seq<Step>, i: nat, k: Key, s: nat, r: Lookup)
    requires Run(cmp, dbs, steps) && i < |dbs| && Readable(dbs[i], s)
    requires var db := dbs[i]; Finds(db.mem + (Imm(db) + TablesOf(db.tables, db.current.tables)), k, s, r)
    ensures var db := dbs[i];
            Newer(db.mem, Imm(db) + TablesOf(db.tables, db.current.tables))
            && Newer(Imm(db), TablesOf(db.tables, db.current.tables))
    ensures Read(dbs[i].written, k, s) == if r.Found? then Some(r.value) else None
  {
    hide FilesOk, LogsOk, FlushOk, ManifestOk, InSync, JobOk, TablesOf, Next, Finds;
    var db := dbs[i];
    RunIsLayered(cmp, dbs, steps, i);
    RunIsOk(cmp, dbs, steps, i);
    NoWriteIsLost(cmp, dbs, steps, i, k, s);
    assert db.mem + (Imm(db) + TablesOf(db.tables, db.current.tables)) == Held(db);
    UniqueSubset(Held(db), db.written + db.inflight);
    FoundIsRead(Held(db), k, s, r);
  }

  // ----- Batches become visible all at once -----

  /** A batch as Write logs it: its operations and the sequence number of the first. */
  datatype Batch = Batch(first: nat, ops: seq<Batches.Op>)

  /** Insertion one entry at a time, beside readers that take snapshots of the latest sequence number. */
  datatype Visibility = Visibility(
    base: nat,                   // the last sequence number at the start
    mem: set<Entry>,             // what has been inserted since
    batches: seq<Batch>,         // the batches whose turn is over
    current: seq<Batches.Op>,    // the batch being inserted
    inserted: nat,               // how many of its operations are in
    lastSequence: nat,
    snapshots: set<nat>)         // every sequence number a reader has ever been given

  datatype Turn = Begin(ops: seq<Batches.Op>) | InsertOne | Publish | Observe

  ghost predicate Turns(v: Visibility, t: Turn, v': Visibility) {
    match t
    case Begin(ops) =>
      && v.current == [] && v.lastSequence + |ops| <= MAX_SEQUENCE
      && v' == v.(current := ops, inserted := 0)
    case InsertOne =>
      && v.inserted < |v.current|
      && v' == v.(mem := v.mem + {EntryNumber(v.lastSequence + 1, v.current, v.inserted)}, inserted := v.inserted + 1)
    case Publish =>
      && v.inserted == |v.current|
      && v' == v.(batches := v.batches + [Batch(v.lastSequence + 1, v.current)], current := [], inserted := 0,
                  lastSequence := v.lastSequence + |v.current|)
    case Observe => v' == v.(snapshots := v.snapshots + {v.lastSequence})
  }

  /** The entry of a batch's i-th operation. */
  function EntryNumber(first: nat, ops: seq<Batches.Op>, i: nat): Entry
    requires i < |ops|
  {
    Batches.EntryOf(Batches.SequenceAt(first, i), ops[i])
  }

  /** It is the entry InsertInto adds. */
  lemma {:induction false} EntryNumberIs(first: nat, ops: seq<Batches.Op>, i: nat)
    requires i < |ops| && first + |ops| <= MAX_SEQUENCE + 1
    ensures |Batches.Entries(first, ops)| == |ops| && EntryNumber(first, ops, i) == Batches.Entries(first, ops)[i]
    ensures EntryNumber(first, ops, i).Sequence() == first + i && EntryNumber(first, ops, i).Parses()
  {
    Batches.EntriesAt(first, ops, i);
    EntryIs(first, ops, i);
  }

  lemma {:induction false} EntryIs(first: nat, ops: seq<Batches.Op>, i: nat)
    requires i < |ops|
    ensures |Batches.Entries(first, ops)| == |ops| && EntryNumber(first, ops, i) == Batches.Entries(first, ops)[i]
  {
    hide Batches.EntryOf, Batches.SequenceAt;
    Batches.EntriesLength(first, ops);
    var n := |ops| - 1;
    if i < n {
      Batches.EntriesLength(first, ops[..n]);
      EntryIs(first, ops[..n], i);
    }
  }

  /** The sequence number after the first j batches. */
  function Boundary(v: Visibility, j: nat): int
    requires j <= |v.batches|
  {
    if j == 0 then v.base else v.batches[j - 1].first + |v.batches[j - 1].ops| - 1
  }

  /** Operation i of a batch has been inserted. */
  ghost predicate IsIn(mem: set<Entry>, first: nat, ops: seq<Batches.Op>, i: nat)
    requires i < |ops|
  {
    EntryNumber(first, ops, i) in mem
  }

  ghost predicate AllIn(mem: set<Entry>, first: nat, ops: seq<Batches.Op>, n: nat)
    requires n <= |ops|
  {
    forall i :: 0 <= i < n ==> IsIn(mem, first, ops, i)
  }

  lemma AllStillIn(mem: set<Entry>, mem': set<Entry>, first: nat, ops: seq<Batches.Op>, n: nat)
    requires n <= |ops| && AllIn(mem, first, ops, n) && mem <= mem'
    ensures AllIn(mem', first, ops, n)
    ensures n < |ops| && IsIn(mem', first, ops, n) ==> AllIn(mem', first, ops, n + 1)
  {
    hide EntryNumber;
    forall i | 0 <= i < n ensures IsIn(mem', first, ops, i) {
      assert IsIn(mem, first, ops, i);
    }
  }

  ghost predicate BatchOk(v: Visibility, j: nat)
    requires j < |v.batches|
  {
    && v.batches[j].first == Boundary(v, j) + 1
    && v.batches[j].first + |v.batches[j].ops| <= MAX_SEQUENCE + 1
    && AllIn(v.mem, v.batches[j].first, v.batches[j].ops, |v.batches[j].ops|)
  }

  /** A reader's sequence number lies between two batches. */
  ghost predicate AtBoundary(v: Visibility, s: nat) {
    exists j :: 0 <= j <= |v.batches| && s == Boundary(v, j)
  }

  ghost predicate VisibilityOk(v: Visibility) {
    && (forall j :: 0 <= j < |v.batches| ==> BatchOk(v, j))
    && v.lastSequence == Boundary(v, |v.batches|) && v.inserted <= |v.current|
    && v.lastSequence + |v.current| <= MAX_SEQUENCE
    && AllIn(v.mem, v.lastSequence + 1, v.current, v.inserted)
    && (forall s :: s in v.snapshots ==> AtBoundary(v, s))
  }

  lemma NoneIn(mem: set<Entry>, first: nat, ops: seq<Batches.Op>)
    ensures AllIn(mem, first, ops, 0)
  {
  }

  lemma TurnIsOk(v: Visibility, t: Turn, v': Visibility)
    requires VisibilityOk(v) && Turns(v, t, v')
    ensures VisibilityOk(v')
  {
    hide EntryNumber;
    hide AllIn;
    forall j | 0 <= j < |v'.batches| ensures BatchOk(v', j) {
      if j < |v.batches| {
        assert BatchOk(v, j);
        AllStillIn(v.mem, v'.mem, v.batches[j].first, v.batches[j].ops, |v.batches[j].ops|);
      }
    }
    AllStillIn(v.mem, v'.mem, v.lastSequence + 1, v.current, v.inserted);
    NoneIn(v'.mem, v'.lastSequence + 1, v'.current);
    forall s | s in v'.snapshots ensures AtBoundary(v', s) {
      if s in v.snapshots {
        assert AtBoundary(v, s);
        var j :| 0 <= j <= |v.batches| && s == Boundary(v, j);
        assert s == Boundary(v', j);
      } else {
        assert s == Boundary(v', |v'.batches|);
      }
    }
  }

  lemma {:induction false} BoundariesAscend(v: Visibility, i: nat, j: nat)
    requires VisibilityOk(v) && i <= j <= |v.batches|
    ensures Boundary(v, i) <= Boundary(v, j)
    decreases j
  {
    hide EntryNumber;
    if i < j {
      BoundariesAscend(v, i, j - 1);
      assert BatchOk(v, j - 1);
    }
  }

  ghost predicate TurnAt(vs: seq<Visibility>, ts: seq<Turn>, k: nat)
    requires |vs| == |ts| + 1 && k < |ts|
  {
    Turns(vs[k], ts[k], vs[k + 1])
  }

  ghost predicate VisibilityRun(vs: seq<Visibility>, ts: seq<Turn>) {
    && |vs| == |ts| + 1
    && (var v := vs[0]; v == Visibility(v.base, {}, [], [], 0, v.base, {}) && v.base <= MAX_SEQUENCE)
    && forall k :: 0 <= k < |ts| ==> TurnAt(vs, ts, k)
  }

  lemma {:induction false} VisibilityRunIsOk(vs: seq<Visibility>, ts: seq<Turn>, k: nat)
    requires VisibilityRun(vs, ts) && k < |vs|
    ensures VisibilityOk(vs[k])
  {
    hide Turns;
    if k > 0 {
      VisibilityRunIsOk(vs, ts, k - 1);
      assert TurnAt(vs, ts, k - 1);
      hide VisibilityOk;
      TurnIsOk(vs[k - 1], ts[k - 1], vs[k]);
    }
  }

  /**
   * At every moment of every run, whatever sequence number a reader was given, it sees all of a batch or none of it;
   * and it sees nothing of the batch that is only half inserted.
   */
  lemma AllOrNone(vs: seq<Visibility>, ts: seq<Turn>, k: nat, s: nat, j: nat)
    requires VisibilityRun(vs, ts) && k < |vs| && s in vs[k].snapshots && j < |vs[k].batches|
    ensures var v, b := vs[k], vs[k].batches[j];
            || (forall i :: 0 <= i < |b.ops| ==>
                  IsIn(v.mem, b.first, b.ops, i) && EntryNumber(b.first, b.ops, i).Visible(s))
            || (forall i :: 0 <= i < |b.ops| ==> !EntryNumber(b.first, b.ops, i).Visible(s))
  {
    hide EntryNumber, Turns;
    var v, b := vs[k], vs[k].batches[j];
    VisibilityRunIsOk(vs, ts, k);
    assert AtBoundary(v, s) && BatchOk(v, j);
    var c :| 0 <= c <= |v.batches| && s == Boundary(v, c);
    if c <= j { BoundariesAscend(v, c, j); } else { BoundariesAscend(v, j + 1, c); }
    forall i | 0 <= i < |b.ops| ensures EntryNumber(b.first, b.ops, i).Visible(s) <==> j < c {
      EntryNumberIs(b.first, b.ops, i);
    }
  }

  lemma HalfInsertedUnseen(vs: seq<Visibility>, ts: seq<Turn>, k: nat, s: nat, i: nat)
    requires VisibilityRun(vs, ts) && k < |vs| && s in vs[k].snapshots && i < |vs[k].current|
    ensures !EntryNumber(vs[k].lastSequence + 1, vs[k].current, i).Visible(s)
  {
    hide EntryNumber, Turns;
    var v := vs[k];
    VisibilityRunIsOk(vs, ts, k);
    assert AtBoundary(v, s);
    var c :| 0 <= c <= |v.batches| && s == Boundary(v, c);
    BoundariesAscend(v, c, |v.batches|);
    EntryNumberIs(v.lastSequence + 1, v.current, i);
  }

  /** Turns from one moment to another. */
  ghost predicate VisibilityPath(vs: seq<Visibility>, ts: seq<Turn>) {
    |vs| == |ts| + 1 && forall k :: 0 <= k < |ts| ==> TurnAt(vs, ts, k)
  }

  lemma TurnFirst(v: Visibility, t: Turn, vs: seq<Visibility>, ts: seq<Turn>)
    requires VisibilityPath(vs, ts) && Turns(v, t, vs[0])
    ensures VisibilityPath([v] + vs, [t] + ts)
  {
    hide Turns;
    forall k | 0 <= k < |[t] + ts| ensures TurnAt([v] + vs, [t] + ts, k) {
      assert k > 0 ==> TurnAt(vs, ts, k - 1);
    }
  }

  /** The rest of a batch goes in, it is published, and a reader looks. */
  lemma {:induction false} RestGetsVisible(v: Visibility) returns (vs: seq<Visibility>, ts: seq<Turn>, end: Visibility)
    requires v.inserted <= |v.current|
    ensures VisibilityPath(vs, ts) && vs[0] == v && vs[|ts|] == end
    ensures end.batches == v.batches + [Batch(v.lastSequence + 1, v.current)]
    ensures end.lastSequence == v.lastSequence + |v.current| && end.lastSequence in end.snapshots && end.base == v.base
    decreases |v.current| - v.inserted
  {
    hide EntryNumber;
    if v.inserted < |v.current| {
      var w := v.(mem := v.mem + {EntryNumber(v.lastSequence + 1, v.current, v.inserted)}, inserted := v.inserted + 1);
      vs, ts, end := RestGetsVisible(w);
      TurnFirst(v, InsertOne, vs, ts);
      vs, ts := [v] + vs, [InsertOne] + ts;
    } else {
      var w := v.(batches := v.batches + [Batch(v.lastSequence + 1, v.current)], current := [], inserted := 0,
                  lastSequence := v.lastSequence + |v.current|);
      end := w.(snapshots := w.snapshots + {w.lastSequence});
      vs, ts := [v, w, end], [Publish, Observe];
      assert TurnAt(vs, ts, 0) && TurnAt(vs, ts, 1);
    }
  }

  lemma {:induction false} PathIsOk(vs: seq<Visibility>, ts: seq<Turn>, k: nat)
    requires VisibilityPath(vs, ts) && VisibilityOk(vs[0]) && k < |vs|
    ensures VisibilityOk(vs[k])
  {
    hide Turns, VisibilityOk;
    if k > 0 {
      PathIsOk(vs, ts, k - 1);
      assert TurnAt(vs, ts, k - 1);
      TurnIsOk(vs[k - 1], ts[k - 1], vs[k]);
    }
  }

  /** A batch gets inserted and published, and a reader who looks then sees all of it. */
  lemma BatchGetsVisible(v: Visibility, ops: seq<Batches.Op>) returns (vs: seq<Visibility>, ts: seq<Turn>, end: Visibility)
    requires VisibilityOk(v) && v.current == [] && v.lastSequence + |ops| <= MAX_SEQUENCE
    ensures VisibilityPath(vs, ts) && vs[0] == v && vs[|ts|] == end
    ensures end.batches == v.batches + [Batch(v.lastSequence + 1, ops)] && end.lastSequence in end.snapshots
    ensures var b := end.batches[|v.batches|];
            forall i :: 0 <= i < |b.ops| ==>
              IsIn(end.mem, b.first, b.ops, i) && EntryNumber(b.first, b.ops, i).Visible(end.lastSequence)
  {
    hide EntryNumber;
    var w := v.(current := ops, inserted := 0);
    vs, ts, end := RestGetsVisible(w);
    TurnFirst(v, Begin(ops), vs, ts);
    vs, ts := [v] + vs, [Begin(ops)] + ts;
    PathIsOk(vs, ts, |ts|);
    assert BatchOk(end, |v.batches|);
    var b := end.batches[|v.batches|];
    forall i | 0 <= i < |b.ops|
      ensures IsIn(end.mem, b.first, b.ops, i) && EntryNumber(b.first, b.ops, i).Visible(end.lastSequence)
    {
      EntryNumberIs(b.first, b.ops, i);
    }
  }
}
