/** What runs of the life cycle do (db/db_impl.cc): snapshots hold still, and writes, flushes and compactions get done. */
module LifecycleRuns {
  import opened Wrappers
  import opened UserKeys
  import opened DbFormat
  import opened Compaction
  import opened Lifecycle

  // ----- Snapshots -----

  lemma NextWritesAbove(cmp: UserComparator, db: Db, step: Step, db': Db)
    requires Ok(cmp, db) && Next(cmp, db, step, db')
    ensures db.written <= db'.written && forall e :: e in db'.written - db.written ==> e.Sequence() > db.lastSequence
  {
    hide FilesOk, LogsOk, FlushOk, ManifestOk, InSync, JobOk, Faithful, TablesOf, Surroundings, UniqueSequences, Held, Rest, LimboOk;
  }

  /** Writes acknowledged later have later sequence numbers. */
  lemma {:induction false} WrittenAbove(cmp: UserComparator, dbs: seq<Db>, steps: seq<Step>, i: nat, j: nat)
    requires Run(cmp, dbs, steps) && i <= j < |dbs|
    ensures dbs[i].written <= dbs[j].written && dbs[i].lastSequence <= dbs[j].lastSequence
    ensures forall e :: e in dbs[j].written - dbs[i].written ==> e.Sequence() > dbs[i].lastSequence
    decreases j
  {
    hide Ok, Next;
    if i < j {
      WrittenAbove(cmp, dbs, steps, i, j - 1);
      RunIsOk(cmp, dbs, steps, j - 1);
      assert StepAt(cmp, dbs, steps, j - 1);
      NextWritesAbove(cmp, dbs[j - 1], steps[j - 1], dbs[j]);
      NextAcknowledges(cmp, dbs[j - 1], steps[j - 1], dbs[j]);
    }
  }

  /** As long as a reader may be at a sequence number, what it reads there never changes. */
  lemma ReadsStandStill(cmp: UserComparator, dbs: seq<Db>, steps: seq<Step>, i: nat, j: nat, k: Key, s: nat)
    requires Run(cmp, dbs, steps) && i <= j < |dbs| && s <= dbs[i].lastSequence
    requires Readable(dbs[i], s) && Readable(dbs[j], s)
    ensures Read(Held(dbs[j]), k, s) == Read(Held(dbs[i]), k, s)
  {
    hide Ok, Next, Held, Read;
    WrittenAbove(cmp, dbs, steps, i, j);
    NoWriteIsLost(cmp, dbs, steps, i, k, s);
    NoWriteIsLost(cmp, dbs, steps, j, k, s);
    RunIsOk(cmp, dbs, steps, j);
    WrittenUnique(cmp, dbs[j]);
    NewerUnseen(dbs[i].written, dbs[j].written, k, s);
  }

  lemma WrittenUnique(cmp: UserComparator, db: Db)
    requires Ok(cmp, db)
    ensures UniqueSequences(db.written)
  {
    hide FilesOk, LogsOk, FlushOk, ManifestOk, InSync, JobOk, Faithful;
    UniqueSubset(db.written, db.written + db.inflight + db.limbo);
  }

  /** A snapshot can be read at, with what it showed when it was taken, until it is released. */
  lemma SnapshotsHold(cmp: UserComparator, dbs: seq<Db>, steps: seq<Step>, i: nat, j: nat, k: Key)
    requires Run(cmp, dbs, steps) && i < j < |dbs| && steps[i] == TakeSnapshot
    requires forall m :: i < m < j ==> steps[m] != ReleaseSnapshot(dbs[i].lastSequence)
    ensures Readable(dbs[j], dbs[i].lastSequence)
    ensures Read(Held(dbs[j]), k, dbs[i].lastSequence) == Read(dbs[i].written, k, dbs[i].lastSequence)
  {
    hide Ok, Next, Held, Read;
    var t := dbs[i].lastSequence;
    SnapshotStays(cmp, dbs, steps, i, j);
    WrittenAbove(cmp, dbs, steps, i, j);
    ReadsStandStill(cmp, dbs, steps, i, j, k, t);
    NoWriteIsLost(cmp, dbs, steps, i, k, t);
  }

  lemma {:induction false} SnapshotStays(cmp: UserComparator, dbs: seq<Db>, steps: seq<Step>, i: nat, j: nat)
    requires Run(cmp, dbs, steps) && i < j < |dbs| && steps[i] == TakeSnapshot
    requires forall m :: i < m < j ==> steps[m] != ReleaseSnapshot(dbs[i].lastSequence)
    ensures dbs[i].lastSequence in dbs[j].snapshots
    decreases j
  {
    hide Ok, Next;
    assert StepAt(cmp, dbs, steps, j - 1);
    if i == j - 1 {
      SnapshotTaken(cmp, dbs[i], dbs[j]);
    } else {
      SnapshotStays(cmp, dbs, steps, i, j - 1);
      OthersKeepSnapshot(cmp, dbs[j - 1], steps[j - 1], dbs[j], dbs[i].lastSequence);
    }
  }

  lemma SnapshotTaken(cmp: UserComparator, db: Db, db': Db)
    requires Next(cmp, db, TakeSnapshot, db')
    ensures db.lastSequence in db'.snapshots
  {
  }

  lemma OthersKeepSnapshot(cmp: UserComparator, db: Db, step: Step, db': Db, t: nat)
    requires Next(cmp, db, step, db') && t in db.snapshots && step != ReleaseSnapshot(t)
    ensures t in db'.snapshots
  {
    hide TablesOf, Surroundings, UniqueSequences, Picked, Survivors;
  }

  // ----- What gets done -----

  /** Steps from one state to another. */
  ghost predicate Path(cmp: UserComparator, dbs: seq<Db>, steps: seq<Step>) {
    |dbs| == |steps| + 1 && forall k :: 0 <= k < |steps| ==> StepAt(cmp, dbs, steps, k)
  }

  /** A leader with room gets its batch into the log and the memtable. */
  lemma WriteGetsDone(cmp: UserComparator, db: Db, batch: set<Entry>, count: nat) returns (dbs: seq<Db>, steps: seq<Step>)
    requires Ok(cmp, db) && db.inflight == {} && db.limbo == {} && db.nextSequence == db.lastSequence
    requires UniqueSequences(batch)
    requires forall e :: e in batch ==> db.lastSequence < e.Sequence() <= db.lastSequence + count
    ensures Path(cmp, dbs, steps) && dbs[0] == db && steps == [Append(batch, count), Insert]
    ensures dbs[2].written == db.written + batch && dbs[2].lastSequence == db.lastSequence + count && dbs[2].inflight == {}
  {
    hide TablesOf, LogsFrom, UniqueSequences, FilesOk, FlushOk, ManifestOk, InSync, JobOk, Faithful;
    var a := db.(logs := db.logs[db.logFile := db.logs[db.logFile] + batch], inflight := batch,
                 nextSequence := db.lastSequence + count);
    var b := a.(mem := a.mem + a.inflight, written := a.written + a.inflight, inflight := {}, lastSequence := a.nextSequence);
    dbs, steps := [db, a, b], [Append(batch, count), Insert];
    assert StepAt(cmp, dbs, steps, 0) && StepAt(cmp, dbs, steps, 1);
  }

  /** A full memtable becomes the immutable one, if there is none and no error. */
  lemma SwitchGetsDone(cmp: UserComparator, db: Db) returns (db': Db)
    requires !db.bgError && db.imm.None? && db.inflight == {} && db.nextSequence == db.lastSequence
    ensures Next(cmp, db, Switch, db') && db'.imm == Some(db.mem) && db'.mem == {} && db'.logs[db'.logFile] == {}
  {
    db' := db.(logs := db.logs[db.nextFile := {}], logFile := db.nextFile, nextFile := db.nextFile + 1,
               imm := Some(db.mem), mem := {});
  }

  lemma TableGetsBuilt(cmp: UserComparator, db: Db) returns (a: Db, b: Db)
    requires MayFlush(db)
    ensures Next(cmp, db, FlushStart, a) && Next(cmp, a, TableBuilt(true), b)
    ensures b.flush.Built? && b.imm == db.imm && b.mem == db.mem && b.current == db.current && b.bgError == db.bgError
    ensures b.tables == if Imm(db) == {} then db.tables else db.tables[db.nextFile := Imm(db)]
  {
    hide TablesOf;
    var n := db.nextFile;
    a := db.(nextFile := n + 1, pending := db.pending + {n}, flush := Building(n));
    var unlisted := a.pending - {n};
    b := if Imm(a) == {} then a.(pending := unlisted, flush := Built(n, false, a.logFile))
         else a.(tables := a.tables[n := Imm(a)], pending := unlisted, flush := Built(n, true, a.logFile));
  }

  lemma TableGetsListed(cmp: UserComparator, db: Db) returns (c: Db, d: Db)
    requires db.flush.Built?
    ensures Next(cmp, db, FlushWritten, c) && Next(cmp, c, FlushReturns(true, Garbage({}, {}, {})), d)
    ensures c.tables == db.tables && c.imm == db.imm && c.current == db.current
    ensures d.mem == db.mem && d.bgError == db.bgError
  {
    hide TablesOf;
    c := db.(persisted := Flushed(db.persisted, db.flush.n, db.flush.has, db.flush.log),
             flush := Manifest(db.flush.n, db.flush.has, db.flush.log));
    d := Collected(Committed(c), Garbage({}, {}, {}));
  }

  /** An immutable memtable gets into a table, and the manifest says so. */
  lemma FlushGetsDone(cmp: UserComparator, db: Db) returns (dbs: seq<Db>, steps: seq<Step>)
    requires Ok(cmp, db) && MayFlush(db)
    ensures Path(cmp, dbs, steps) && dbs[0] == db && |steps| == 4 && Ok(cmp, dbs[4])
    ensures dbs[4].imm.None? && dbs[4].flush.NoFlush? && dbs[4].mem == db.mem && dbs[4].bgError == db.bgError
    ensures TablesOf(dbs[4].tables, dbs[4].current.tables) == TablesOf(db.tables, db.current.tables) + Imm(db)
  {
    hide TablesOf, Ok, Next;
    var a, b := TableGetsBuilt(cmp, db);
    var c, d := TableGetsListed(cmp, b);
    dbs, steps := [db, a, b, c, d], [FlushStart, TableBuilt(true), FlushWritten, FlushReturns(true, Garbage({}, {}, {}))];
    assert StepAt(cmp, dbs, steps, 0) && StepAt(cmp, dbs, steps, 1) && StepAt(cmp, dbs, steps, 2) && StepAt(cmp, dbs, steps, 3);
    StaysOk(cmp, dbs, steps, 4);
    FlushMovesEntries(cmp, c, Garbage({}, {}, {}), d);
    NewTableUnused(cmp, db, db.nextFile, Imm(db));
  }

  lemma NewTableUnused(cmp: UserComparator, db: Db, n: nat, part: set<Entry>)
    requires Ok(cmp, db) && n == db.nextFile
    ensures n !in db.tables && n !in db.current.tables
    ensures TablesOf(db.tables[n := part], db.current.tables) == TablesOf(db.tables, db.current.tables)
  {
    hide LogsOk, FlushOk, ManifestOk, InSync, JobOk, SequencesOk, Faithful, TablesOf;
    TableAdded(db.tables, n, part, db.current.tables);
  }

  /** The states of a compaction that writes one table. */
  function WithOutput(db: Db, w: Work): Db {
    db.(nextFile := db.nextFile + 1, pending := db.pending + {db.nextFile}, job := Running(w, Working))
  }

  function OneOutput(w: Work, n: nat): Work {
    w.(outputs := w.outputs + {n})
  }

  lemma OutputOpens(cmp: UserComparator, db: Db)
    requires db.job.Running? && db.job.stage.Working? && db.flush.NoFlush?
    ensures Next(cmp, db, OpenOutput, WithOutput(db, OneOutput(db.job.w, db.nextFile)))
  {
  }

  lemma OutputFinishes(cmp: UserComparator, db: Db, n: nat, part: set<Entry>)
    requires db.job.Running? && db.job.stage.Working? && db.flush.NoFlush? && n in db.job.w.outputs && n !in db.tables
    ensures Next(cmp, db, FinishOutput(n, part), db.(tables := db.tables[n := part]))
  {
  }

  lemma OutputInstalls(cmp: UserComparator, db: Db, n: nat)
    requires db.job.Running? && db.job.stage.Working? && db.flush.NoFlush? && db.job.w.outputs == {n} && n in db.tables
    requires TablesOf(db.tables, {n}) == Survivors(cmp, db.job.w)
    ensures Next(cmp, db, Install, db.(job := Running(db.job.w, Committing)))
  {
    hide TablesOf, Survivors;
  }

  lemma OutputCommits(cmp: UserComparator, db: Db)
    requires db.job.Running? && db.job.stage.Committing? && !db.bgError
    ensures var e := db.(persisted := Compacted(db.persisted, db.job.w, db.current.logNumber), job := Running(db.job.w, Reached));
            && Next(cmp, db, JobWritten, e)
            && Next(cmp, e, JobReturns(true, Garbage({}, {}, {})), Collected(Replaced(e), Garbage({}, {}, {})))
  {
  }

  lemma OutputGetsWritten(cmp: UserComparator, db: Db, w: Work) returns (a: Db, b: Db, c: Db)
    requires Ok(cmp, db) && db.job.Idle? && db.flush.NoFlush? && db.imm.None? && !db.bgError && Picked(cmp, db, w)
    ensures Next(cmp, db, JobStart(w), a) && Next(cmp, a, OpenOutput, b)
    ensures Next(cmp, b, FinishOutput(db.nextFile, Survivors(cmp, w)), c)
    ensures c.job == Running(OneOutput(w, db.nextFile), Working) && c.flush.NoFlush? && !c.bgError && c.current == db.current
    ensures db.nextFile in c.tables && TablesOf(c.tables, {db.nextFile}) == Survivors(cmp, w) && w.outputs == {}
  {
    PickedNothingYet(cmp, db, w);
    a := db.(job := Running(w, Working));
    assert Next(cmp, db, JobStart(w), a);
    hide TablesOf, Ok, Picked, Survivors, Next;
    var n, part := db.nextFile, Survivors(cmp, w);
    NewTableUnused(cmp, db, n, part);
    b := WithOutput(a, OneOutput(w, n));
    OutputOpens(cmp, a);
    c := b.(tables := b.tables[n := part]);
    OutputFinishes(cmp, b, n, part);
    TableAdded(b.tables, n, part, {});
  }

  lemma OutputGetsInstalled(cmp: UserComparator, db: Db, n: nat) returns (d: Db, e: Db, f: Db)
    requires db.job.Running? && db.job.stage.Working? && db.flush.NoFlush? && !db.bgError
    requires db.job.w.outputs == {n} && n in db.tables && TablesOf(db.tables, {n}) == Survivors(cmp, db.job.w)
    ensures Next(cmp, db, Install, d) && Next(cmp, d, JobWritten, e)
    ensures Next(cmp, e, JobReturns(true, Garbage({}, {}, {})), f) && !f.bgError
    ensures e.job.Running? && e.job.w == db.job.w && f.current.tables == db.current.tables - db.job.w.inputs + {n}
  {
    hide TablesOf, Survivors, Next;
    OutputInstalls(cmp, db, n);
    d := db.(job := Running(db.job.w, Committing));
    OutputCommits(cmp, d);
    e := d.(persisted := Compacted(d.persisted, d.job.w, d.current.logNumber), job := Running(d.job.w, Reached));
    f := Collected(Replaced(e), Garbage({}, {}, {}));
  }

  /** A compaction that has been picked gets installed, with its survivors in place of its inputs. */
  lemma CompactionGetsDone(cmp: UserComparator, db: Db, w: Work) returns (dbs: seq<Db>, steps: seq<Step>)
    requires Ok(cmp, db) && db.job.Idle? && db.flush.NoFlush? && db.imm.None? && !db.bgError && Picked(cmp, db, w)
    ensures Path(cmp, dbs, steps) && dbs[0] == db && |steps| == 6 && Ok(cmp, dbs[6])
    ensures dbs[6].job.Idle? && !dbs[6].bgError && dbs[6].current.tables !! w.inputs
    ensures exists n :: dbs[6].current.tables == db.current.tables - w.inputs + {n} && TablesOf(dbs[6].tables, {n}) == Survivors(cmp, w)
  {
    hide TablesOf, Ok, Picked, Survivors, Next;
    var none, n := Garbage({}, {}, {}), db.nextFile;
    var a, b, c := OutputGetsWritten(cmp, db, w);
    SameSurvivors(cmp, w, OneOutput(w, n));
    var d, e, f := OutputGetsInstalled(cmp, c, n);
    dbs := [db, a, b, c, d, e, f];
    steps := [JobStart(w), OpenOutput, FinishOutput(n, Survivors(cmp, w)), Install, JobWritten, JobReturns(true, none)];
    assert StepAt(cmp, dbs, steps, 0) && StepAt(cmp, dbs, steps, 1) && StepAt(cmp, dbs, steps, 2);
    assert StepAt(cmp, dbs, steps, 3) && StepAt(cmp, dbs, steps, 4) && StepAt(cmp, dbs, steps, 5);
    StaysOk(cmp, dbs, steps, 6);
    JobReplacesInputs(cmp, e, none, f);
    assert e.job.w.outputs == {n};
  }

  lemma {:induction false} StaysOk(cmp: UserComparator, dbs: seq<Db>, steps: seq<Step>, k: nat)
    requires Path(cmp, dbs, steps) && Ok(cmp, dbs[0]) && k < |dbs|
    ensures forall i :: 0 <= i <= k ==> Ok(cmp, dbs[i])
  {
    hide Ok, Next;
    if k > 0 {
      StaysOk(cmp, dbs, steps, k - 1);
      assert StepAt(cmp, dbs, steps, k - 1);
      NextIsOk(cmp, dbs[k - 1], steps[k - 1], dbs[k]);
    }
  }

  lemma PickedNothingYet(cmp: UserComparator, db: Db, w: Work)
    requires Picked(cmp, db, w)
    ensures w.outputs == {}
  {
  }

  lemma SameSurvivors(cmp: UserComparator, w: Work, w': Work)
    requires w'.es == w.es && w'.smallest == w.smallest && w'.levels == w.levels
    ensures Survivors(cmp, w') == Survivors(cmp, w)
  {
  }
}
