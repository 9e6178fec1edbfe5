/**
 * Where acknowledged writes live (db/db_impl.cc): logs, memtables, tables, the manifest, background work that may
 * fail, and the deletion of obsolete files. One step per stretch between two releases of the mutex or two disk writes.
 */
module Lifecycle {
  import opened Wrappers
  import opened UserKeys
  import opened DbFormat
  import opened Compaction

  /** What a manifest says: the live tables, and the first log that still matters. */
  datatype Version = Version(tables: set<nat>, logNumber: nat)

  /** A compaction of some tables: their merged entries, the entries below them, and the tables it has written. */
  datatype Work = Work(inputs: set<nat>, es: seq<Entry>, older: set<Entry>, levels: seq<seq<FileRange>>,
                       smallest: nat, outputs: set<nat>)

  /** The background job's compaction. Halted: its commit failed, and yet it reached the manifest. */
  datatype Job = Idle | Running(w: Work, stage: Stage) | Halted(w: Work)

  datatype Stage = Working | Committing | Reached

  /**
   * The background job's memtable flush into table n; has tells whether there was anything to write, and log is the
   * first log its commit will call needed.
   */
  datatype Flush = NoFlush | Building(n: nat) | Built(n: nat, has: bool, log: nat) | Manifest(n: nat, has: bool, log: nat)

  datatype Db = Db(
    logs: map<nat, set<Entry>>,      // log files on disk, by number
    tables: map<nat, set<Entry>>,    // complete table files on disk, by number
    manifest: nat,                   // the number of the manifest in use, which CURRENT names
    manifests: set<nat>,             // manifests on disk, by number
    persisted: Version,              // what the manifest in use says
    current: Version,                // versions_->current() and versions_->LogNumber()
    nextFile: nat,
    pending: set<nat>,               // pending_outputs_
    logFile: nat,                    // logfile_number_
    mem: set<Entry>,
    imm: Option<set<Entry>>,
    inflight: set<Entry>,            // logged by a writer, not yet in mem
    limbo: set<Entry>,               // logged, but the sync failed: not in mem, and not acknowledged
    lastSequence: nat,
    nextSequence: nat,               // what lastSequence will be after the write in flight
    snapshots: multiset<nat>,
    bgError: bool,
    flush: Flush,
    job: Job,
    written: set<Entry>)             // every write acknowledged so far

  ghost function TablesOf(tables: map<nat, set<Entry>>, ns: set<nat>): set<Entry> {
    set n, e | n in ns && n in tables && e in tables[n] :: e
  }

  ghost function LogsFrom(logs: map<nat, set<Entry>>, first: nat): set<Entry> {
    set n, e | n in logs && n >= first && e in logs[n] :: e
  }

  /** What is in the log and in no memtable. */
  function Unapplied(db: Db): set<Entry> {
    db.inflight + db.limbo
  }

  function Imm(db: Db): set<Entry> {
    if db.imm.Some? then db.imm.value else {}
  }

  /** What reads look at: both memtables and the current version's tables. */
  ghost function Held(db: Db): set<Entry> {
    TablesOf(db.tables, db.current.tables) + Imm(db) + db.mem
  }

  /** What the next incarnation finds: the manifest's tables, and the logs it does not call obsolete. */
  ghost function Recovered(db: Db): set<Entry> {
    TablesOf(db.tables, db.persisted.tables) + LogsFrom(db.logs, db.persisted.logNumber)
  }

  /** A reader may be at s: s is the latest sequence number, or at least the number of some live snapshot. */
  predicate Readable(db: Db, s: nat) {
    s == db.lastSequence || (s < db.lastSequence && exists t :: t in db.snapshots && t <= s)
  }

  ghost predicate Faithful(db: Db, es: set<Entry>) {
    forall k, s :: Readable(db, s) ==> FaithfulAt(db.written, es, k, s)
  }

  /** A read of es gives what a read of every acknowledged write would give. */
  ghost predicate FaithfulAt(written: set<Entry>, es: set<Entry>, k: Key, s: nat) {
    Read(es, k, s) == Read(written, k, s)
  }

  // ----- The steps -----

  datatype Step =
    | Append(batch: set<Entry>, count: nat)
    | Insert
    | SyncFails
    | Switch
    | TakeSnapshot
    | ReleaseSnapshot(t: nat)
    | FlushStart
    | TableBuilt(ok: bool)
    | FlushWritten
    | FlushReturns(ok: bool, garbage: Garbage)
    | JobStart(w: Work)
    | TrivialMove(ok: bool)
    | OpenOutput
    | FinishOutput(n: nat, part: set<Entry>)
    | JobFails
    | Install
    | JobWritten
    | JobReturns(ok: bool, garbage: Garbage)

  datatype Garbage = Garbage(tables: set<nat>, logs: set<nat>, manifests: set<nat>)

  /** DeleteObsoleteFiles: nothing after an error; otherwise any files that are neither live nor pending. */
  predicate Obsolete(db: Db, g: Garbage) {
    if db.bgError then g == Garbage({}, {}, {})
    else
      && g.tables !! db.current.tables && g.tables !! db.pending
      && (forall n :: n in g.logs ==> n < db.current.logNumber) && forall n :: n in g.manifests ==> n < db.manifest
  }

  function Collected(db: Db, g: Garbage): Db {
    db.(tables := db.tables - g.tables, logs := db.logs - g.logs, manifests := db.manifests - g.manifests)
  }

  function Single(n: nat, has: bool): set<nat> {
    if has then {n} else {}
  }

  /** The edit of a flush: the table if there is one, and the logs before the current one are obsolete. */
  function Flushed(v: Version, n: nat, has: bool, logFile: nat): Version {
    Version(v.tables + Single(n, has), logFile)
  }

  /** The edit of a compaction; it repeats the log number in memory. */
  function Compacted(v: Version, w: Work, logNumber: nat): Version {
    Version(v.tables - w.inputs + w.outputs, logNumber)
  }

  /** What picking a compaction promises about its inputs and their surroundings. */
  ghost predicate Picked(cmp: UserComparator, db: Db, w: Work) {
    && w.inputs <= db.current.tables && w.outputs == {}
    && Elements(w.es) == TablesOf(db.tables, w.inputs)
    && Sorted(cmp, w.es) && Distinct(w.es) && NoneRevived(w.es, w.smallest, BaseLevelKeys(cmp, w.levels))
    && w.older <= Rest(db, w.inputs)
    && Surroundings(cmp, Rest(db, w.inputs) - w.older, w.es, w.older, w.levels)
    && w.smallest <= db.lastSequence < MAX_SEQUENCE && (forall t :: t in db.snapshots ==> w.smallest <= t)
  }

  /** The entries reads look at outside some tables. */
  ghost function Rest(db: Db, inputs: set<nat>): set<Entry> {
    TablesOf(db.tables, db.current.tables - inputs) + Imm(db) + db.mem
  }

  ghost function Survivors(cmp: UserComparator, w: Work): set<Entry> {
    Elements(Kept(w.es, w.smallest, BaseLevelKeys(cmp, w.levels), |w.es|))
  }

  /** The mutex holder may start a flush: an idle background job without an error, or a compaction in its loop. */
  predicate MayFlush(db: Db) {
    db.flush.NoFlush? && db.imm.Some? && match db.job
                                         case Idle => !db.bgError
                                         case Running(_, stage) => stage.Working?
                                         case Halted(_) => false
  }

  ghost predicate Next(cmp: UserComparator, db: Db, step: Step, db': Db) {
    match step
    case Append(batch, count) =>
      // A leader makes room only where no error is known, so it never logs behind a write whose sync failed.
      && db.inflight == {} && db.limbo == {} && db.nextSequence == db.lastSequence && db.logFile in db.logs
      && UniqueSequences(batch)
      && (forall e :: e in batch ==> db.lastSequence < e.Sequence() <= db.lastSequence + count)
      && db' == db.(logs := db.logs[db.logFile := db.logs[db.logFile] + batch], inflight := batch,
                    nextSequence := db.lastSequence + count)
    case Insert =>
      db' == db.(mem := db.mem + db.inflight, written := db.written + db.inflight, inflight := {},
                 lastSequence := db.nextSequence)
    case SyncFails =>
      // The batch in flight stays in the log and uses up its sequence numbers; an empty one is just the error.
      db' == db.(limbo := db.limbo + db.inflight, inflight := {}, lastSequence := db.nextSequence, bgError := true)
    case Switch =>
      && !db.bgError && db.imm.None? && db.inflight == {} && db.nextSequence == db.lastSequence
      && db' == db.(logs := db.logs[db.nextFile := {}], logFile := db.nextFile, nextFile := db.nextFile + 1,
                    imm := Some(db.mem), mem := {})
    case TakeSnapshot => db' == db.(snapshots := db.snapshots + multiset{db.lastSequence})
    case ReleaseSnapshot(t) => t in db.snapshots && db' == db.(snapshots := db.snapshots - multiset{t})
    case FlushStart =>
      && MayFlush(db)
      && db' == db.(nextFile := db.nextFile + 1, pending := db.pending + {db.nextFile}, flush := Building(db.nextFile))
    case TableBuilt(ok) =>
      && db.flush.Building?
      && var unlisted := db.pending - {db.flush.n};
         if !ok then db' == db.(pending := unlisted, flush := NoFlush, bgError := true)
         else if Imm(db) == {} then db' == db.(pending := unlisted, flush := Built(db.flush.n, false, db.logFile))
         else db' == db.(tables := db.tables[db.flush.n := Imm(db)], pending := unlisted, flush := Built(db.flush.n, true, db.logFile))
    case FlushWritten =>
      && db.flush.Built?
      && db' == db.(persisted := Flushed(db.persisted, db.flush.n, db.flush.has, db.flush.log),
                    flush := Manifest(db.flush.n, db.flush.has, db.flush.log))
    case FlushReturns(ok, garbage) =>
      if ok then
        && db.flush.Manifest?
        && var now := db.(current := Flushed(db.current, db.flush.n, db.flush.has, db.flush.log), imm := None, flush := NoFlush);
           Obsolete(now, garbage) && db' == Collected(now, garbage)
      else
        (db.flush.Built? || db.flush.Manifest?) && db' == db.(flush := NoFlush, bgError := true)
    case JobStart(w) =>
      && db.job.Idle? && db.flush.NoFlush? && db.imm.None? && !db.bgError && Picked(cmp, db, w)
      && db' == db.(job := Running(w, Working))
    case TrivialMove(ok) =>
      && db.job.Idle? && db.flush.NoFlush? && db.imm.None? && !db.bgError
      && db' == db.(bgError := !ok)
    case OpenOutput =>
      && db.job.Running? && db.job.stage.Working? && db.flush.NoFlush?
      && db' == db.(nextFile := db.nextFile + 1, pending := db.pending + {db.nextFile},
                    job := Running(db.job.w.(outputs := db.job.w.outputs + {db.nextFile}), Working))
    case FinishOutput(n, part) =>
      && db.job.Running? && db.job.stage.Working? && db.flush.NoFlush? && n in db.job.w.outputs && n !in db.tables
      && db' == db.(tables := db.tables[n := part])
    case JobFails =>
      && db.job.Running? && db.job.stage.Working? && db.flush.NoFlush?
      && db' == db.(job := Idle, pending := db.pending - db.job.w.outputs, bgError := true)
    case Install =>
      && db.job.Running? && db.job.stage.Working? && db.flush.NoFlush?
      && TablesOf(db.tables, db.job.w.outputs) == Survivors(cmp, db.job.w) && db.job.w.outputs <= db.tables.Keys
      && db' == db.(job := Running(db.job.w, Committing))
    case JobWritten =>
      && db.job.Running? && db.job.stage.Committing?
      && db' == db.(persisted := Compacted(db.persisted, db.job.w, db.current.logNumber), job := Running(db.job.w, Reached))
    case JobReturns(ok, garbage) =>
      if ok then
        && db.job.Running? && db.job.stage.Reached?
        && var now := db.(current := Compacted(db.current, db.job.w, db.current.logNumber), job := Idle,
                          pending := db.pending - db.job.w.outputs);
           Obsolete(now, garbage) && db' == Collected(now, garbage)
      else
        && db.job.Running? && !db.job.stage.Working?
        && db' == db.(job := if db.job.stage.Reached? then Halted(db.job.w) else Idle,
                      pending := db.pending - db.job.w.outputs, bgError := true)
  }

  /** A database just opened: what its tables hold counts as acknowledged, and the log is empty. */
  ghost function Opened(tables: map<nat, set<Entry>>, manifest: nat, logFile: nat, lastSequence: nat): Db {
    var v := Version(tables.Keys, logFile);
    Db(map[logFile := {}], tables, manifest, {manifest}, v, v, logFile + 1, {}, logFile, {}, None, {}, {}, lastSequence, lastSequence, multiset{},
       false, NoFlush, Idle, TablesOf(tables, tables.Keys))
  }

  // ----- Tables and logs as sets of entries -----

  lemma TablesUnion(tables: map<nat, set<Entry>>, a: set<nat>, b: set<nat>)
    ensures TablesOf(tables, a + b) == TablesOf(tables, a) + TablesOf(tables, b)
  {
  }

  lemma TablesSplit(tables: map<nat, set<Entry>>, a: set<nat>, b: set<nat>)
    requires b <= a
    ensures TablesOf(tables, a) == TablesOf(tables, a - b) + TablesOf(tables, b)
  {
    TablesUnion(tables, a - b, b);
    assert a - b + b == a;
  }

  lemma TableAdded(tables: map<nat, set<Entry>>, n: nat, part: set<Entry>, ns: set<nat>)
    ensures n !in ns ==> TablesOf(tables[n := part], ns) == TablesOf(tables, ns)
    ensures TablesOf(tables[n := part], {n}) == part
  {
    var after := tables[n := part];
    if n !in ns {
      forall e ensures e in TablesOf(after, ns) <==> e in TablesOf(tables, ns) {
        if e in TablesOf(tables, ns) {
          var m :| m in ns && m in tables && e in tables[m];
          assert m in after && e in after[m];
        }
      }
    }
    forall e | e in part ensures e in TablesOf(after, {n}) {
      assert n in {n} && n in after && e in after[n];
    }
  }

  lemma TablesGone(tables: map<nat, set<Entry>>, dead: set<nat>, ns: set<nat>)
    requires dead !! ns
    ensures TablesOf(tables - dead, ns) == TablesOf(tables, ns)
  {
    forall e | e in TablesOf(tables, ns) ensures e in TablesOf(tables - dead, ns) {
      var m :| m in ns && m in tables && e in tables[m];
      assert m in tables - dead && e in (tables - dead)[m];
    }
  }

  lemma NoTables(tables: map<nat, set<Entry>>)
    ensures TablesOf(tables, {}) == {}
  {
  }

  lemma LogAppended(logs: map<nat, set<Entry>>, n: nat, batch: set<Entry>, first: nat)
    requires n in logs && first <= n
    ensures LogsFrom(logs[n := logs[n] + batch], first) == LogsFrom(logs, first) + batch
  {
    var after := logs[n := logs[n] + batch];
    forall e ensures e in LogsFrom(after, first) <==> e in LogsFrom(logs, first) + batch {
      if e in LogsFrom(logs, first) {
        var m :| m in logs && m >= first && e in logs[m];
        assert m in after && e in after[m];
      } else if e in batch {
        assert n in after && e in after[n];
      }
    }
  }

  lemma LogStarted(logs: map<nat, set<Entry>>, n: nat, first: nat)
    requires n !in logs
    ensures LogsFrom(logs[n := {}], first) == LogsFrom(logs, first)
  {
    var after := logs[n := {}];
    forall e | e in LogsFrom(logs, first) ensures e in LogsFrom(after, first) {
      var m :| m in logs && m >= first && e in logs[m];
      assert m in after && e in after[m];
    }
  }

  lemma LogsGone(logs: map<nat, set<Entry>>, dead: set<nat>, first: nat)
    requires forall n :: n in dead ==> n < first
    ensures LogsFrom(logs - dead, first) == LogsFrom(logs, first)
  {
    forall e | e in LogsFrom(logs, first) ensures e in LogsFrom(logs - dead, first) {
      var m :| m in logs && m >= first && e in logs[m];
      assert m in logs - dead && e in (logs - dead)[m];
    }
  }

  lemma LastLog(logs: map<nat, set<Entry>>, n: nat)
    requires n in logs && forall m :: m in logs ==> m <= n
    ensures LogsFrom(logs, n) == logs[n]
  {
  }

  // ----- What holds between any two steps -----

  function InputsOf(job: Job): set<nat> {
    match job case Idle => {} case Running(w, _) => w.inputs case Halted(w) => w.inputs
  }

  /** The manifest has the compaction's outputs in place of its inputs. */
  predicate Swapped(job: Job) {
    job.Halted? || (job.Running? && job.stage.Reached?)
  }

  function Disputed(job: Job): set<nat> {
    if Swapped(job) then job.w.outputs else InputsOf(job)
  }

  ghost predicate Below(ns: set<nat>, limit: nat) {
    forall n :: n in ns ==> n < limit
  }

  ghost predicate FilesOk(db: Db) {
    && Below(db.tables.Keys, db.nextFile) && Below(db.pending, db.nextFile)
    && db.current.tables <= db.tables.Keys && db.persisted.tables <= db.tables.Keys
  }

  ghost predicate LogsOk(db: Db) {
    && db.logFile in db.logs && db.logFile < db.nextFile && (forall n :: n in db.logs ==> n <= db.logFile)
    && db.logs[db.logFile] == db.mem + Unapplied(db)
    && db.current.logNumber <= db.logFile && db.persisted.logNumber <= db.logFile
    && LogsFrom(db.logs, db.current.logNumber) == Imm(db) + db.mem + Unapplied(db)
  }

  /** A flush under way is the background job's only activity. */
  ghost predicate FlushOk(db: Db) {
    !db.flush.NoFlush? ==>
      && db.imm.Some? && (db.job.Idle? || (db.job.Running? && db.job.stage.Working?))
      && db.flush.n < db.nextFile && db.flush.n !in db.current.tables
      && (db.job.Running? ==> db.flush.n !in db.job.w.outputs)
      && (db.flush.Building? ==> db.flush.n !in db.tables)
      && (!db.flush.Building? ==>
            && db.flush.log == db.logFile
            && (if db.flush.has then db.flush.n in db.tables && db.tables[db.flush.n] == Imm(db) else Imm(db) == {}))
      && (db.flush.Built? ==> db.flush.n !in db.persisted.tables)
      && (db.flush.Manifest? && db.flush.has ==> db.flush.n in db.persisted.tables)
  }

  /** Outside a compaction's own tables, the manifest and the logs hold just what memory holds. */
  ghost predicate ManifestOk(db: Db) {
    && Disputed(db.job) <= db.persisted.tables
    && db.current.tables - InputsOf(db.job) <= db.persisted.tables - Disputed(db.job)
    && TablesOf(db.tables, db.persisted.tables - Disputed(db.job)) + LogsFrom(db.logs, db.persisted.logNumber)
       == Rest(db, InputsOf(db.job)) + Unapplied(db)
  }

  /** Until an error, the manifest says what memory says, plus the edit that has just reached it. */
  ghost predicate InSync(db: Db) {
    && (db.job.Halted? ==> db.bgError)
    && (!db.bgError ==>
          if db.flush.Manifest? then db.persisted == Flushed(db.current, db.flush.n, db.flush.has, db.flush.log)
          else if Swapped(db.job) then db.persisted == Compacted(db.current, db.job.w, db.current.logNumber)
          else db.persisted == db.current)
  }

  ghost predicate WorkOk(cmp: UserComparator, db: Db, w: Work) {
    && w.inputs <= db.current.tables && w.outputs !! db.current.tables
    && Elements(w.es) == TablesOf(db.tables, w.inputs)
    && Sorted(cmp, w.es) && Distinct(w.es) && NoneRevived(w.es, w.smallest, BaseLevelKeys(cmp, w.levels))
    && w.older <= Rest(db, w.inputs)
    && Surroundings(cmp, Rest(db, w.inputs) - w.older, w.es, w.older, w.levels)
    && w.smallest <= db.lastSequence && w.smallest < MAX_SEQUENCE && (forall t :: t in db.snapshots ==> w.smallest <= t)
  }

  ghost predicate JobOk(cmp: UserComparator, db: Db) {
    && (!db.job.Idle? ==> WorkOk(cmp, db, db.job.w))
    && (db.job.Running? ==> db.job.w.outputs <= db.pending)
    && (db.job.Running? && !db.job.stage.Reached? ==> db.job.w.outputs !! db.persisted.tables)
    && (db.job.Halted? || (db.job.Running? && !db.job.stage.Working?) ==>
          db.job.w.outputs <= db.tables.Keys && TablesOf(db.tables, db.job.w.outputs) == Survivors(cmp, db.job.w))
  }

  /** A write whose sync failed is the last one ever logged. */
  ghost predicate LimboOk(db: Db) {
    && (db.limbo != {} ==> db.bgError && db.inflight == {})
    && (forall e :: e in db.limbo ==> e.Sequence() <= db.lastSequence)
    && forall e, f :: e in db.limbo && f in db.written ==> f.Sequence() < e.Sequence()
  }

  ghost predicate SequencesOk(db: Db) {
    && UniqueSequences(db.written + db.inflight + db.limbo) && LimboOk(db)
    && (forall e :: e in db.written ==> e.Sequence() <= db.lastSequence)
    && (forall e :: e in db.inflight ==> db.lastSequence < e.Sequence() <= db.nextSequence)
    && db.lastSequence <= db.nextSequence && (db.inflight != {} ==> db.lastSequence < db.nextSequence)
    && Held(db) <= db.written
    && forall t :: t in db.snapshots ==> t <= db.lastSequence
  }

  ghost predicate Ok(cmp: UserComparator, db: Db) {
    && FilesOk(db) && LogsOk(db) && FlushOk(db) && ManifestOk(db) && InSync(db) && JobOk(cmp, db)
    && SequencesOk(db) && Faithful(db, Held(db))
  }

  lemma OpenedIsOk(cmp: UserComparator, tables: map<nat, set<Entry>>, manifest: nat, logFile: nat, lastSequence: nat)
    requires Below(tables.Keys, logFile)
    requires var es := TablesOf(tables, tables.Keys); UniqueSequences(es) && forall e :: e in es ==> e.Sequence() <= lastSequence
    ensures Ok(cmp, Opened(tables, manifest, logFile, lastSequence))
  {
    var db := Opened(tables, manifest, logFile, lastSequence);
    LastLog(db.logs, logFile);
    assert tables.Keys - {} == tables.Keys;
    assert Held(db) == db.written;
  }

  lemma HeldIsRest(db: Db, inputs: set<nat>)
    requires inputs <= db.current.tables
    ensures Held(db) == Rest(db, inputs) + TablesOf(db.tables, inputs)
    ensures Rest(db, {}) == Held(db)
  {
    TablesSplit(db.tables, db.current.tables, inputs);
    assert db.current.tables - {} == db.current.tables;
  }

  // ----- Reading through the steps -----

  lemma SameNewest(a: set<Entry>, b: set<Entry>, k: Key, s: nat)
    requires UniqueSequences(a) && UniqueSequences(b)
    requires forall e :: NewestIn(a, k, s, e) <==> NewestIn(b, k, s, e)
    ensures Read(a, k, s) == Read(b, k, s)
  {
    if n :| NewestIn(a, k, s, n) {
      assert NewestIn(b, k, s, n);
      ReadIs(a, k, s, n);
      ReadIs(b, k, s, n);
    }
  }

  /** Entries newer than the reader do not matter. */
  lemma NewerUnseen(a: set<Entry>, b: set<Entry>, k: Key, s: nat)
    requires a <= b && UniqueSequences(b) && forall e :: e in b - a ==> e.Sequence() > s
    ensures Read(a, k, s) == Read(b, k, s)
  {
    forall e ensures NewestIn(a, k, s, e) <==> NewestIn(b, k, s, e) {
    }
    SameNewest(a, b, k, s);
  }

  /** Two sets that read alike up to sequence number l read alike after the same newer entries are added to both. */
  lemma NewerAdded(a: set<Entry>, b: set<Entry>, batch: set<Entry>, k: Key, l: nat, s: nat)
    requires UniqueSequences(a + b + batch) && l <= s
    requires forall e :: e in a + b ==> e.Sequence() <= l
    requires forall e :: e in batch ==> e.Sequence() > l
    requires Read(a, k, l) == Read(b, k, l)
    ensures Read(a + batch, k, s) == Read(b + batch, k, s)
  {
    hide Read;
    if e :| e in batch && e.ukey == k && e.Visible(s) {
      HasNewest(batch, k, s, e);
      var n :| NewestIn(batch, k, s, n);
      NewestOnTop(a, batch, k, l, s, n);
      NewestOnTop(b, batch, k, l, s, n);
      ReadIs(a + batch, k, s, n);
      ReadIs(b + batch, k, s, n);
    } else {
      OnlyOlder(a, batch, k, l, s);
      OnlyOlder(b, batch, k, l, s);
    }
  }

  lemma NewestOnTop(a: set<Entry>, batch: set<Entry>, k: Key, l: nat, s: nat, n: Entry)
    requires (forall e :: e in a ==> e.Sequence() <= l) && (forall e :: e in batch ==> e.Sequence() > l)
    requires NewestIn(batch, k, s, n)
    ensures NewestIn(a + batch, k, s, n)
  {
  }

  lemma OnlyOlder(a: set<Entry>, batch: set<Entry>, k: Key, l: nat, s: nat)
    requires UniqueSequences(a + batch) && l <= s
    requires forall e :: e in a ==> e.Sequence() <= l
    requires forall e :: e in batch ==> !(e.ukey == k && e.Visible(s))
    ensures Read(a + batch, k, s) == Read(a, k, l)
  {
    forall e ensures NewestIn(a + batch, k, s, e) <==> NewestIn(a, k, l, e) {
    }
    if n :| NewestIn(a, k, l, n) {
      ReadIs(a, k, l, n);
      ReadIs(a + batch, k, s, n);
    }
  }

  // ----- What a step leaves alone -----

  lemma FilesKept(db: Db, db': Db)
    requires FilesOk(db) && db'.tables == db.tables && db'.nextFile >= db.nextFile
    requires forall n :: n in db'.pending ==> n in db.pending || n < db'.nextFile
    requires db'.current.tables == db.current.tables && db'.persisted.tables == db.persisted.tables
    ensures FilesOk(db')
  {
  }

  lemma LogsKept(db: Db, db': Db)
    requires LogsOk(db) && db'.logs == db.logs && db'.logFile == db.logFile && db'.nextFile >= db.nextFile
    requires db'.mem == db.mem && db'.imm == db.imm && db'.inflight == db.inflight && db'.limbo == db.limbo
    requires db'.current.logNumber == db.current.logNumber && db'.persisted.logNumber == db.persisted.logNumber
    ensures LogsOk(db')
  {
    hide LogsFrom;
  }

  lemma FlushKept(db: Db, db': Db)
    requires FlushOk(db) && db'.flush == db.flush && db'.imm == db.imm && db'.job == db.job && db'.tables == db.tables
    requires db'.nextFile >= db.nextFile && db'.current.tables == db.current.tables
    requires db'.persisted == db.persisted && db'.logFile == db.logFile
    ensures FlushOk(db')
  {
  }

  lemma ManifestKept(db: Db, db': Db)
    requires ManifestOk(db) && db'.persisted == db.persisted && db'.current.tables == db.current.tables
    requires db'.tables == db.tables && db'.logs == db.logs && Rest(db', InputsOf(db.job)) == Rest(db, InputsOf(db.job))
    requires db'.inflight == db.inflight && db'.limbo == db.limbo
    requires InputsOf(db'.job) == InputsOf(db.job) && Disputed(db'.job) == Disputed(db.job)
    ensures ManifestOk(db')
  {
    hide TablesOf, LogsFrom, Rest;
  }

  lemma JobKept(cmp: UserComparator, db: Db, db': Db)
    requires JobOk(cmp, db) && db'.job == db.job && db'.tables == db.tables && db'.current.tables == db.current.tables
    requires db'.persisted.tables == db.persisted.tables && db.pending <= db'.pending
    requires Rest(db', InputsOf(db.job)) == Rest(db, InputsOf(db.job))
    requires db.lastSequence <= db'.lastSequence && (forall t :: t in db'.snapshots ==> t in db.snapshots || t == db.lastSequence)
    ensures JobOk(cmp, db')
  {
    hide TablesOf, Rest, WorkOk, Survivors;
    if !db.job.Idle? { WorkKept(cmp, db, db', db.job.w); }
  }

  /** A compaction's facts last while memory stays and snapshots come and go. */
  lemma WorkKept(cmp: UserComparator, db: Db, db': Db, w: Work)
    requires WorkOk(cmp, db, w)
    requires db'.current.tables == db.current.tables
    requires TablesOf(db'.tables, w.inputs) == TablesOf(db.tables, w.inputs)
    requires Rest(db', w.inputs) == Rest(db, w.inputs)
    requires db.lastSequence <= db'.lastSequence && (forall t :: t in db'.snapshots ==> t in db.snapshots || t == db.lastSequence)
    ensures WorkOk(cmp, db', w)
  {
    hide TablesOf, Surroundings, Sorted, Distinct, Rest, Elements;
  }

  lemma SequencesKept(db: Db, db': Db)
    requires SequencesOk(db) && db'.written == db.written && db'.inflight == db.inflight && db'.limbo == db.limbo
    requires db.bgError ==> db'.bgError
    requires db'.lastSequence == db.lastSequence && db'.nextSequence == db.nextSequence && Held(db') == Held(db)
    requires forall t :: t in db'.snapshots ==> t in db.snapshots || t == db.lastSequence
    ensures SequencesOk(db')
  {
    hide Held, UniqueSequences;
  }

  lemma FaithfulKept(db: Db, db': Db)
    requires Faithful(db, Held(db)) && db'.written == db.written && Held(db') == Held(db)
    requires db'.lastSequence == db.lastSequence
    requires forall t :: t in db'.snapshots ==> t in db.snapshots || t == db.lastSequence
    ensures Faithful(db', Held(db'))
  {
    hide Held, FaithfulAt;
    forall k, s | Readable(db', s) ensures FaithfulAt(db'.written, Held(db'), k, s) {
      assert Readable(db, s);
    }
  }

  // ----- The writer's steps -----

  lemma AppendIsOk(cmp: UserComparator, db: Db, batch: set<Entry>, count: nat, db': Db)
    requires Ok(cmp, db) && Next(cmp, db, Append(batch, count), db')
    ensures Ok(cmp, db')
  {
    hide FilesOk, FlushOk, LogsOk, ManifestOk, SequencesOk, JobOk, Faithful, TablesOf, LogsFrom;
    LogsAppended(db, batch, db');
    FilesKept(db, db');
    FlushKept(db, db');
    assert Rest(db', InputsOf(db.job)) == Rest(db, InputsOf(db.job)) && Held(db') == Held(db);
    JobKept(cmp, db, db');
    FaithfulKept(db, db');
    BatchAdded(db, batch, count, db');
  }

  lemma LogsAppended(db: Db, batch: set<Entry>, db': Db)
    requires LogsOk(db) && ManifestOk(db) && db.inflight == {} && db.limbo == {}
    requires db' == db.(logs := db.logs[db.logFile := db.logs[db.logFile] + batch], inflight := batch,
                        nextSequence := db'.nextSequence)
    ensures LogsOk(db') && ManifestOk(db')
  {
    hide TablesOf, LogsFrom, Rest;
    LogAppended(db.logs, db.logFile, batch, db.current.logNumber);
    LogAppended(db.logs, db.logFile, batch, db.persisted.logNumber);
    assert Rest(db', InputsOf(db.job)) == Rest(db, InputsOf(db.job)) by { SameRest(db, db', InputsOf(db.job)); }
  }

  lemma SameRest(db: Db, db': Db, inputs: set<nat>)
    requires db'.tables == db.tables && db'.current.tables == db.current.tables && db'.imm == db.imm && db'.mem == db.mem
    ensures Rest(db', inputs) == Rest(db, inputs)
  {
  }

  lemma BatchAdded(db: Db, batch: set<Entry>, count: nat, db': Db)
    requires SequencesOk(db) && db.inflight == {} && db.limbo == {} && UniqueSequences(batch) && Held(db') == Held(db)
    requires forall e :: e in batch ==> db.lastSequence < e.Sequence() <= db.lastSequence + count
    requires db'.written == db.written && db'.inflight == batch && db'.limbo == {} && db'.snapshots == db.snapshots
    requires db'.lastSequence == db.lastSequence && db'.nextSequence == db.lastSequence + count
    ensures SequencesOk(db')
  {
    hide Held;
  }

  lemma InsertIsOk(cmp: UserComparator, db: Db, db': Db)
    requires Ok(cmp, db) && Next(cmp, db, Insert, db')
    ensures Ok(cmp, db')
  {
    hide FilesOk, FlushOk, LogsOk, ManifestOk, SequencesOk, WorkOk, TablesOf, LogsFrom, FaithfulAt, Faithful;
    assert Held(db') == Held(db) + db.inflight;
    FilesKept(db, db');
    FlushKept(db, db');
    InsertedLogs(db, db');
    assert JobOk(cmp, db') by {
      if !db.job.Idle? { WorkGrows(cmp, db, db', db.job.w); }
    }
    InsertedSequences(db, db');
    assert Faithful(db', Held(db')) by {
      InsertedIsFaithful(db, db');
    }
  }

  lemma InsertedLogs(db: Db, db': Db)
    requires LogsOk(db) && ManifestOk(db)
    requires db' == db.(mem := db.mem + db.inflight, inflight := {}, written := db'.written, lastSequence := db'.lastSequence)
    ensures LogsOk(db') && ManifestOk(db')
  {
    hide TablesOf, LogsFrom;
    assert Rest(db', InputsOf(db.job)) + Unapplied(db') == Rest(db, InputsOf(db.job)) + Unapplied(db);
  }

  lemma InsertedSequences(db: Db, db': Db)
    requires SequencesOk(db) && Held(db') == Held(db) + db.inflight && db'.snapshots == db.snapshots
    requires db'.written == db.written + db.inflight && db'.inflight == {} && db'.limbo == db.limbo
    requires db'.lastSequence == db.nextSequence == db'.nextSequence && db'.bgError == db.bgError
    ensures SequencesOk(db')
  {
    hide Held;
    assert db'.written + db'.inflight + db'.limbo == db.written + db.inflight + db.limbo;
  }

  lemma InsertedIsFaithful(db: Db, db': Db)
    requires SequencesOk(db) && Faithful(db, Held(db)) && Held(db') == Held(db) + db.inflight
    requires db'.written == db.written + db.inflight && db'.snapshots == db.snapshots
    requires db'.lastSequence == db.nextSequence
    ensures Faithful(db', Held(db'))
  {
    hide Held, FaithfulAt, UniqueSequences, SequencesOk, Faithful;
    forall k, s | Readable(db', s) ensures FaithfulAt(db'.written, Held(db'), k, s) {
      InsertedReads(db, k, s);
    }
    MakeFaithful(db');
  }

  lemma MakeFaithful(db: Db)
    requires forall k, s :: Readable(db, s) ==> FaithfulAt(db.written, Held(db), k, s)
    ensures Faithful(db, Held(db))
  {
  }

  lemma InsertedReads(db: Db, k: Key, s: nat)
    requires SequencesOk(db) && Faithful(db, Held(db))
    requires s == db.nextSequence || (s < db.nextSequence && exists t :: t in db.snapshots && t <= s)
    ensures FaithfulAt(db.written + db.inflight, Held(db) + db.inflight, k, s)
  {
    hide Held;
    assert Readable(db, db.lastSequence);
    if s <= db.lastSequence {
      assert Readable(db, s);
      assert FaithfulAt(db.written, Held(db), k, s);
      NewerUnseen(Held(db), Held(db) + db.inflight, k, s);
      NewerUnseen(db.written, db.written + db.inflight, k, s);
    } else {
      assert FaithfulAt(db.written, Held(db), k, db.lastSequence);
      NewerAdded(Held(db), db.written, db.inflight, k, db.lastSequence, s);
    }
  }

  lemma WorkGrows(cmp: UserComparator, db: Db, db': Db, w: Work)
    requires WorkOk(cmp, db, w) && SequencesOk(db)
    requires db' == db.(mem := db.mem + db.inflight, written := db.written + db.inflight, inflight := {},
                        lastSequence := db.nextSequence)
    ensures WorkOk(cmp, db', w)
  {
    hide Sorted, Distinct, TablesOf;
    var rest, rest' := Rest(db, w.inputs), Rest(db', w.inputs);
    HeldIsRest(db, w.inputs);
    assert rest' == rest + db.inflight;
    SurroundingsGrow(cmp, rest, w, db.inflight, db.lastSequence);
  }

  lemma SurroundingsGrow(cmp: UserComparator, rest: set<Entry>, w: Work, batch: set<Entry>, l: nat)
    requires Surroundings(cmp, rest - w.older, w.es, w.older, w.levels) && w.older <= rest
    requires forall e :: e in rest + Elements(w.es) ==> e.Sequence() <= l
    requires forall e :: e in batch ==> e.Sequence() > l
    requires UniqueSequences(rest + Elements(w.es) + batch)
    ensures Surroundings(cmp, rest + batch - w.older, w.es, w.older, w.levels)
  {
    hide BaseLevel;
    forall e, f | e in w.es && f in rest + batch - w.older && e.Parses() && f.Parses() && e.ukey == f.ukey
      ensures e.Sequence() < f.Sequence()
    {
      assert e in Elements(w.es);
      if f !in batch { assert f in rest - w.older; }
    }
  }

  /** A failed sync leaves memory as it was; sequence numbers that nothing in memory has become readable. */
  lemma SyncFailsIsOk(cmp: UserComparator, db: Db, db': Db)
    requires Ok(cmp, db) && Next(cmp, db, SyncFails, db')
    ensures Ok(cmp, db')
  {
    hide FilesOk, FlushOk, LogsOk, ManifestOk, JobOk, TablesOf, LogsFrom, Faithful, SequencesOk;
    assert Held(db') == Held(db) && Rest(db', InputsOf(db.job)) == Rest(db, InputsOf(db.job));
    assert Unapplied(db') == Unapplied(db);
    FilesKept(db, db');
    FlushKept(db, db');
    SyncFailsKeepsLogs(db, db');
    NextIsLater(db);
    JobKept(cmp, db, db');
    assert SequencesOk(db') by { SyncFailsKeepsSequences(db, db'); }
    SyncFailsIsFaithful(db, db');
  }

  lemma NextIsLater(db: Db)
    requires SequencesOk(db)
    ensures db.lastSequence <= db.nextSequence
  {
  }

  lemma SyncFailsKeepsLogs(db: Db, db': Db)
    requires LogsOk(db) && ManifestOk(db) && Unapplied(db') == Unapplied(db)
    requires Rest(db', InputsOf(db.job)) == Rest(db, InputsOf(db.job))
    requires db' == db.(limbo := db'.limbo, inflight := db'.inflight, lastSequence := db'.lastSequence, bgError := true)
    ensures LogsOk(db') && ManifestOk(db')
  {
    hide TablesOf, LogsFrom, Rest, Unapplied;
  }

  lemma SyncFailsKeepsSequences(db: Db, db': Db)
    requires SequencesOk(db) && Held(db') == Held(db)
    requires db' == db.(limbo := db.limbo + db.inflight, inflight := {}, lastSequence := db.nextSequence, bgError := true)
    ensures SequencesOk(db')
  {
    hide Held;
    assert db'.written + db'.inflight + db'.limbo == db.written + db.inflight + db.limbo;
  }

  lemma SyncFailsIsFaithful(db: Db, db': Db)
    requires SequencesOk(db) && Faithful(db, Held(db)) && Held(db') == Held(db)
    requires db'.written == db.written && db'.snapshots == db.snapshots && db'.lastSequence == db.nextSequence
    ensures Faithful(db', Held(db'))
  {
    hide Held, FaithfulAt, UniqueSequences;
    forall k, s | Readable(db', s) ensures FaithfulAt(db'.written, Held(db'), k, s) {
      NothingNewer(db, k, s);
    }
  }

  /** Between the last sequence number and the next there is nothing to read. */
  lemma NothingNewer(db: Db, k: Key, s: nat)
    requires SequencesOk(db) && Faithful(db, Held(db))
    requires s == db.nextSequence || (s < db.nextSequence && exists t :: t in db.snapshots && t <= s)
    ensures FaithfulAt(db.written, Held(db), k, s)
  {
    hide Held;
    if s <= db.lastSequence {
      assert Readable(db, s);
    } else {
      assert Readable(db, db.lastSequence);
      assert FaithfulAt(db.written, Held(db), k, db.lastSequence);
      assert db.written + {} == db.written && Held(db) + {} == Held(db);
      OnlyOlder(Held(db), {}, k, db.lastSequence, s);
      OnlyOlder(db.written, {}, k, db.lastSequence, s);
    }
  }

  lemma SwitchIsOk(cmp: UserComparator, db: Db, db': Db)
    requires Ok(cmp, db) && Next(cmp, db, Switch, db')
    ensures Ok(cmp, db')
  {
    hide FilesOk, FlushOk, JobOk, SequencesOk, Faithful, TablesOf, LogsFrom;
    NothingInLimbo(db);
    LogStarted(db.logs, db.nextFile, db.current.logNumber);
    LogStarted(db.logs, db.nextFile, db.persisted.logNumber);
    assert Rest(db', InputsOf(db.job)) == Rest(db, InputsOf(db.job)) && Held(db') == Held(db);
    FilesKept(db, db');
    NoFlushYet(db, db');
    JobKept(cmp, db, db');
    SequencesKept(db, db');
    FaithfulKept(db, db');
  }

  lemma NothingInLimbo(db: Db)
    requires SequencesOk(db) && !db.bgError
    ensures db.limbo == {}
  {
  }

  /** A flush needs an immutable memtable. */
  lemma NoFlushYet(db: Db, db': Db)
    requires FlushOk(db) && db.imm.None? && db'.flush == db.flush
    ensures FlushOk(db')
  {
  }

  lemma SnapshotsAreOk(cmp: UserComparator, db: Db, step: Step, db': Db)
    requires Ok(cmp, db) && Next(cmp, db, step, db') && (step.TakeSnapshot? || step.ReleaseSnapshot?)
    ensures Ok(cmp, db')
  {
    hide FilesOk, LogsOk, FlushOk, ManifestOk, JobOk, SequencesOk, Faithful, TablesOf;
    assert Rest(db', InputsOf(db.job)) == Rest(db, InputsOf(db.job)) && Held(db') == Held(db);
    FilesKept(db, db');
    LogsKept(db, db');
    FlushKept(db, db');
    ManifestKept(db, db');
    JobKept(cmp, db, db');
    SequencesKept(db, db');
    FaithfulKept(db, db');
  }

  // ----- The flush -----

  lemma FlushStartIsOk(cmp: UserComparator, db: Db, db': Db)
    requires Ok(cmp, db) && Next(cmp, db, FlushStart, db')
    ensures Ok(cmp, db')
  {
    hide FilesOk, LogsOk, ManifestOk, SequencesOk, JobOk, Faithful, TablesOf;
    assert Rest(db', InputsOf(db.job)) == Rest(db, InputsOf(db.job)) && Held(db') == Held(db);
    FreshNumber(cmp, db);
    FilesKept(db, db');
    LogsKept(db, db');
    ManifestKept(db, db');
    JobKept(cmp, db, db');
    SequencesKept(db, db');
    FaithfulKept(db, db');
  }

  lemma FreshNumber(cmp: UserComparator, db: Db)
    requires FilesOk(db) && JobOk(cmp, db)
    ensures db.nextFile !in db.tables && db.nextFile !in db.current.tables && db.nextFile !in db.persisted.tables
    ensures db.job.Running? ==> db.nextFile !in db.job.w.outputs
    ensures db.job.Running? ==> db.job.w.outputs !! db.current.tables
  {
    hide Survivors, TablesOf, Surroundings;
  }

  /** A table nobody refers to yet changes what no set of other tables holds. */
  lemma NewTable(db: Db, n: nat, part: set<Entry>, db': Db)
    requires n !in db.tables && FilesOk(db) && n < db.nextFile && db'.tables == db.tables[n := part]
    requires db'.current == db.current && db'.persisted == db.persisted && db'.nextFile == db.nextFile
    requires db'.pending <= db.pending && db'.mem == db.mem && db'.imm == db.imm
    ensures FilesOk(db') && Held(db') == Held(db)
    ensures forall ns :: n !in ns ==> SameTables(db, db', ns)
    ensures forall ns :: SameRestAt(db, db', ns)
  {
    hide TablesOf;
    forall ns: set<nat> | n !in ns ensures SameTables(db, db', ns) {
      TableAdded(db.tables, n, part, ns);
    }
    assert SameTables(db, db', db.current.tables);
    forall ns: set<nat> ensures SameRestAt(db, db', ns) {
      assert SameTables(db, db', db.current.tables - ns);
    }
  }

  ghost predicate SameTables(db: Db, db': Db, ns: set<nat>) {
    TablesOf(db'.tables, ns) == TablesOf(db.tables, ns)
  }

  ghost predicate SameRestAt(db: Db, db': Db, ns: set<nat>) {
    Rest(db', ns) == Rest(db, ns)
  }

  /** Writing a new table, whether a memtable's or a compaction's, disturbs nothing. */
  lemma NewTableIsOk(cmp: UserComparator, db: Db, n: nat, part: set<Entry>, db': Db)
    requires Ok(cmp, db) && n !in db.tables && n < db.nextFile
    requires db' == db.(tables := db.tables[n := part], pending := db'.pending, flush := db'.flush)
    requires db'.pending <= db.pending
    requires db.job.Running? ==> db.job.w.outputs <= db'.pending
    requires db.job.Idle? || (db.job.Running? && db.job.stage.Working?)
    requires FlushOk(db') && InSync(db')
    ensures Ok(cmp, db')
  {
    hide LogsOk, FlushOk, InSync, SequencesOk, Faithful, TablesOf, LogsFrom, Rest, Held, Survivors, SameTables, SameRestAt, FilesOk;
    NewTable(db, n, part, db');
    LogsKept(db, db');
    SequencesKept(db, db');
    FaithfulKept(db, db');
    ManifestKeptByTable(db, n, db');
    JobKeptByTable(cmp, db, n, db');
  }

  lemma ManifestKeptByTable(db: Db, n: nat, db': Db)
    requires ManifestOk(db) && FilesOk(db) && n !in db.tables
    requires forall ns :: n !in ns ==> SameTables(db, db', ns)
    requires forall ns :: SameRestAt(db, db', ns)
    requires db'.persisted == db.persisted && db'.current == db.current && db'.job == db.job
    requires db'.logs == db.logs && db'.inflight == db.inflight && db'.limbo == db.limbo
    ensures ManifestOk(db')
  {
    hide TablesOf, LogsFrom, Rest;
    assert SameTables(db, db', db.persisted.tables - Disputed(db.job)) && SameRestAt(db, db', InputsOf(db.job));
  }

  lemma JobKeptByTable(cmp: UserComparator, db: Db, n: nat, db': Db)
    requires JobOk(cmp, db) && FilesOk(db) && n !in db.tables && (db.job.Idle? || (db.job.Running? && db.job.stage.Working?))
    requires forall ns :: n !in ns ==> SameTables(db, db', ns)
    requires forall ns :: SameRestAt(db, db', ns)
    requires db'.persisted == db.persisted && db'.current == db.current && db'.job == db.job
    requires db'.lastSequence == db.lastSequence && db'.snapshots == db.snapshots
    requires db.job.Running? ==> db.job.w.outputs <= db'.pending
    ensures JobOk(cmp, db')
  {
    hide TablesOf, Rest, WorkOk, Survivors;
    if db.job.Running? {
      WorkInputs(cmp, db, db.job.w);
      assert SameTables(db, db', db.job.w.inputs) && SameRestAt(db, db', db.job.w.inputs);
      WorkKept(cmp, db, db', db.job.w);
    }
  }

  lemma WorkInputs(cmp: UserComparator, db: Db, w: Work)
    requires WorkOk(cmp, db, w)
    ensures w.inputs <= db.current.tables && w.outputs !! db.current.tables
  {
  }

  lemma TableBuiltIsOk(cmp: UserComparator, db: Db, ok: bool, db': Db)
    requires Ok(cmp, db) && Next(cmp, db, TableBuilt(ok), db')
    ensures Ok(cmp, db')
  {
    hide FilesOk, LogsOk, ManifestOk, SequencesOk, JobOk, Faithful, TablesOf;
    OutputsPending(cmp, db);
    NumbersBelow(db);
    if ok && Imm(db) != {} {
      hide Ok;
      assert FlushOk(db') && InSync(db');
      NewTableIsOk(cmp, db, db.flush.n, Imm(db), db');
    } else {
      assert Rest(db', InputsOf(db.job)) == Rest(db, InputsOf(db.job)) && Held(db') == Held(db);
      FilesKept(db, db');
      LogsKept(db, db');
      ManifestKept(db, db');
      JobStays(cmp, db, db');
      SequencesKept(db, db');
      FaithfulKept(db, db');
    }
  }

  lemma OutputsPending(cmp: UserComparator, db: Db)
    requires JobOk(cmp, db)
    ensures db.job.Running? ==> db.job.w.outputs <= db.pending
  {
    hide WorkOk, Survivors;
  }

  lemma NumbersBelow(db: Db)
    requires FilesOk(db)
    ensures db.persisted.tables <= db.tables.Keys && db.current.tables <= db.tables.Keys
    ensures forall n :: n in db.pending ==> n < db.nextFile
  {
  }

  /** Like JobKept, for a shrinking set of pending files that keeps the outputs. */
  lemma JobStays(cmp: UserComparator, db: Db, db': Db)
    requires JobOk(cmp, db) && db'.job == db.job && db'.tables == db.tables && db'.current.tables == db.current.tables
    requires db'.persisted.tables == db.persisted.tables && (db.job.Running? ==> db.job.w.outputs <= db'.pending)
    requires Rest(db', InputsOf(db.job)) == Rest(db, InputsOf(db.job))
    requires db.lastSequence == db'.lastSequence && db'.snapshots == db.snapshots
    ensures JobOk(cmp, db')
  {
    hide TablesOf, Rest, WorkOk, Survivors;
    if !db.job.Idle? { WorkKept(cmp, db, db', db.job.w); }
  }

  lemma FinishOutputIsOk(cmp: UserComparator, db: Db, n: nat, part: set<Entry>, db': Db)
    requires Ok(cmp, db) && Next(cmp, db, FinishOutput(n, part), db')
    ensures Ok(cmp, db')
  {
    hide FilesOk, LogsOk, ManifestOk, SequencesOk, JobOk, Faithful, TablesOf;
    OutputsPending(cmp, db);
    NumbersBelow(db);
    hide Ok;
    assert FlushOk(db') && InSync(db');
    NewTableIsOk(cmp, db, n, part, db');
  }

  /** The memtable's table replaces the memtable in every sum of live entries. */
  lemma FlushedTables(db: Db, ns: set<nat>)
    requires FlushOk(db) && (db.flush.Built? || db.flush.Manifest?)
    ensures TablesOf(db.tables, ns + Single(db.flush.n, db.flush.has)) == TablesOf(db.tables, ns) + Imm(db)
  {
    TablesUnion(db.tables, ns, Single(db.flush.n, db.flush.has));
    if db.flush.has {
      assert TablesOf(db.tables, {db.flush.n}) == db.tables[db.flush.n] by {
        assert db.tables[db.flush.n := db.tables[db.flush.n]] == db.tables;
        TableAdded(db.tables, db.flush.n, db.tables[db.flush.n], {});
      }
    } else {
      NoTables(db.tables);
    }
  }

  lemma TablesGrow(tables: map<nat, set<Entry>>, a: set<nat>, b: set<nat>)
    requires a <= b
    ensures TablesOf(tables, a) <= TablesOf(tables, b)
  {
    TablesSplit(tables, b, a);
  }

  lemma FlushWrittenIsOk(cmp: UserComparator, db: Db, db': Db)
    requires Ok(cmp, db) && Next(cmp, db, FlushWritten, db')
    ensures Ok(cmp, db')
  {
    hide LogsOk, ManifestOk, SequencesOk, Faithful, TablesOf, WorkOk, Survivors;
    assert Rest(db', InputsOf(db.job)) == Rest(db, InputsOf(db.job)) && Held(db') == Held(db);
    SequencesKept(db, db');
    FaithfulKept(db, db');
    FlushReached(cmp, db, db');
    if !db.job.Idle? { WorkKept(cmp, db, db', db.job.w); }
  }

  lemma FlushReached(cmp: UserComparator, db: Db, db': Db)
    requires LogsOk(db) && ManifestOk(db) && FlushOk(db) && JobOk(cmp, db) && Next(cmp, db, FlushWritten, db')
    ensures LogsOk(db') && ManifestOk(db')
  {
    hide TablesOf, LogsFrom, Survivors, WorkOk;
    var inputs, new_ := InputsOf(db.job), Single(db.flush.n, db.flush.has);
    if db.job.Running? { WorkInputs(cmp, db, db.job.w); }
    LastLog(db.logs, db.logFile);
    assert db'.persisted.tables - inputs == (db.persisted.tables - inputs) + new_;
    FlushedTables(db, db.persisted.tables - inputs);
    TablesGrow(db.tables, db.current.tables - inputs, db.persisted.tables - inputs);
  }

  /** A commit that failed, or a job that gave up before it: only the error is remembered. */
  lemma FlushFailedIsOk(cmp: UserComparator, db: Db, g: Garbage, db': Db)
    requires Ok(cmp, db) && Next(cmp, db, FlushReturns(false, g), db')
    ensures Ok(cmp, db')
  {
    hide FilesOk, LogsOk, ManifestOk, SequencesOk, JobOk, Faithful, TablesOf;
    assert Rest(db', InputsOf(db.job)) == Rest(db, InputsOf(db.job)) && Held(db') == Held(db);
    FilesKept(db, db');
    LogsKept(db, db');
    ManifestKept(db, db');
    JobKept(cmp, db, db');
    SequencesKept(db, db');
    FaithfulKept(db, db');
  }

  /** The flush's commit before the collection of garbage. */
  function Committed(db: Db): Db
    requires db.flush.Manifest?
  {
    db.(current := Flushed(db.current, db.flush.n, db.flush.has, db.flush.log), imm := None, flush := NoFlush)
  }

  lemma CommittedIsOk(cmp: UserComparator, db: Db)
    requires Ok(cmp, db) && db.flush.Manifest?
    ensures Ok(cmp, Committed(db))
  {
    hide LogsOk, ManifestOk, SequencesOk, Faithful, TablesOf, WorkOk, Survivors;
    var db' := Committed(db);
    if db.job.Running? { WorkInputs(cmp, db, db.job.w); }
    CommittedSums(db);
    SequencesKept(db, db');
    FaithfulKept(db, db');
    CommittedManifest(db);
    if db.job.Running? { CommittedWork(cmp, db, db.job.w); }
  }

  lemma CommittedSums(db: Db)
    requires FlushOk(db) && db.flush.Manifest?
    requires db.flush.n !in InputsOf(db.job)
    ensures Held(Committed(db)) == Held(db) && Rest(Committed(db), InputsOf(db.job)) == Rest(db, InputsOf(db.job))
  {
    hide TablesOf;
    var inputs := InputsOf(db.job);
    FlushedTables(db, db.current.tables);
    FlushedTables(db, db.current.tables - inputs);
    assert Committed(db).current.tables - inputs == (db.current.tables - inputs) + Single(db.flush.n, db.flush.has);
  }

  lemma CommittedManifest(db: Db)
    requires LogsOk(db) && ManifestOk(db) && FlushOk(db) && db.flush.Manifest? && db.flush.n !in InputsOf(db.job)
    ensures LogsOk(Committed(db)) && ManifestOk(Committed(db))
  {
    hide TablesOf, LogsFrom, Rest;
    CommittedSums(db);
    LastLog(db.logs, db.logFile);
  }

  lemma CommittedWork(cmp: UserComparator, db: Db, w: Work)
    requires FlushOk(db) && db.flush.Manifest? && WorkOk(cmp, db, w) && db.flush.n !in w.inputs && db.flush.n !in w.outputs
    requires Rest(Committed(db), w.inputs) == Rest(db, w.inputs)
    ensures WorkOk(cmp, Committed(db), w)
  {
    hide TablesOf, Surroundings, Sorted, Distinct, Rest, Elements;
  }

  // ----- Collecting garbage -----

  /** DeleteObsoleteFiles removes nothing that is needed, by this incarnation or the next. */
  lemma CollectedIsOk(cmp: UserComparator, db: Db, g: Garbage)
    requires Ok(cmp, db) && Obsolete(db, g) && db.flush.NoFlush?
    requires db.job.Idle? || (db.job.Running? && db.job.stage.Working?)
    ensures Ok(cmp, Collected(db, g))
  {
    hide FilesOk, LogsOk, ManifestOk, SequencesOk, JobOk, Faithful, TablesOf;
    var db' := Collected(db, g);
    if db.bgError {
      assert db.tables - {} == db.tables && db.logs - {} == db.logs;
      assert db' == db;
    } else {
      assert db.persisted == db.current;
      assert g.tables !! db.current.tables - InputsOf(db.job);
      TablesGone(db.tables, g.tables, db.current.tables);
      TablesGone(db.tables, g.tables, db.current.tables - InputsOf(db.job));
      LogsGone(db.logs, g.logs, db.current.logNumber);
      assert Held(db') == Held(db) && Rest(db', InputsOf(db.job)) == Rest(db, InputsOf(db.job));
      SequencesKept(db, db');
      FaithfulKept(db, db');
      CollectedFiles(db, g);
      CollectedJob(cmp, db, g);
    }
  }

  lemma CollectedFiles(db: Db, g: Garbage)
    requires FilesOk(db) && LogsOk(db) && ManifestOk(db) && db.persisted == db.current && !db.bgError && Obsolete(db, g)
    requires !Swapped(db.job)
    requires LogsFrom(Collected(db, g).logs, db.current.logNumber) == LogsFrom(db.logs, db.current.logNumber)
    requires Rest(Collected(db, g), InputsOf(db.job)) == Rest(db, InputsOf(db.job))
    requires TablesOf(Collected(db, g).tables, db.current.tables - InputsOf(db.job))
             == TablesOf(db.tables, db.current.tables - InputsOf(db.job))
    ensures var db' := Collected(db, g); FilesOk(db') && LogsOk(db') && ManifestOk(db')
  {
    hide TablesOf, LogsFrom, Rest;
  }

  lemma CollectedJob(cmp: UserComparator, db: Db, g: Garbage)
    requires JobOk(cmp, db) && (db.job.Idle? || (db.job.Running? && db.job.stage.Working?))
    requires g.tables !! db.current.tables
    requires Rest(Collected(db, g), InputsOf(db.job)) == Rest(db, InputsOf(db.job))
    ensures JobOk(cmp, Collected(db, g))
  {
    hide TablesOf, Rest, WorkOk, Survivors;
    if db.job.Running? {
      WorkInputs(cmp, db, db.job.w);
      TablesGone(db.tables, g.tables, db.job.w.inputs);
      WorkKept(cmp, db, Collected(db, g), db.job.w);
    }
  }

  lemma FlushReturnsIsOk(cmp: UserComparator, db: Db, g: Garbage, db': Db)
    requires Ok(cmp, db) && Next(cmp, db, FlushReturns(true, g), db')
    ensures Ok(cmp, db')
  {
    hide Ok;
    CommittedIsOk(cmp, db);
    FlushAlone(cmp, db);
    CollectedIsOk(cmp, Committed(db), g);
  }

  /** A flush gets done: the memtable's entries are in the current version's tables, and the memtable is gone. */
  lemma FlushMovesEntries(cmp: UserComparator, db: Db, g: Garbage, db': Db)
    requires Ok(cmp, db) && Next(cmp, db, FlushReturns(true, g), db')
    ensures db'.imm.None? && db'.flush.NoFlush?
    ensures TablesOf(db'.tables, db'.current.tables) == TablesOf(db.tables, db.current.tables) + Imm(db)
    ensures db'.current.logNumber == db.logFile
  {
    hide FilesOk, LogsOk, ManifestOk, InSync, JobOk, SequencesOk, Faithful, TablesOf;
    FlushedTables(db, db.current.tables);
    TablesGone(db.tables, g.tables, Committed(db).current.tables);
  }

  lemma FlushAlone(cmp: UserComparator, db: Db)
    requires Ok(cmp, db) && !db.flush.NoFlush?
    ensures db.job.Idle? || (db.job.Running? && db.job.stage.Working?)
  {
  }

  // ----- The compaction -----

  lemma JobStartIsOk(cmp: UserComparator, db: Db, w: Work, db': Db)
    requires Ok(cmp, db) && Next(cmp, db, JobStart(w), db')
    ensures Ok(cmp, db')
  {
    hide LogsOk, SequencesOk, Faithful, TablesOf, LogsFrom, Surroundings, Sorted, Distinct, Survivors, Elements;
    assert Held(db') == Held(db);
    SequencesKept(db, db');
    FaithfulKept(db, db');
    LogsKept(db, db');
    LogsHold(db);
    assert Rest(db', w.inputs) == Rest(db, w.inputs);
  }

  lemma LogsHold(db: Db)
    requires LogsOk(db)
    ensures LogsFrom(db.logs, db.current.logNumber) == Imm(db) + db.mem + Unapplied(db)
  {
  }

  lemma TrivialMoveIsOk(cmp: UserComparator, db: Db, ok: bool, db': Db)
    requires Ok(cmp, db) && Next(cmp, db, TrivialMove(ok), db')
    ensures Ok(cmp, db')
  {
    hide FilesOk, LogsOk, ManifestOk, SequencesOk, JobOk, Faithful, TablesOf;
    assert Rest(db', InputsOf(db.job)) == Rest(db, InputsOf(db.job)) && Held(db') == Held(db);
    FilesKept(db, db');
    LogsKept(db, db');
    ManifestKept(db, db');
    JobKept(cmp, db, db');
    SequencesKept(db, db');
    FaithfulKept(db, db');
  }

  lemma OpenOutputIsOk(cmp: UserComparator, db: Db, db': Db)
    requires Ok(cmp, db) && Next(cmp, db, OpenOutput, db')
    ensures Ok(cmp, db')
  {
    hide FilesOk, LogsOk, ManifestOk, SequencesOk, Faithful, TablesOf, LogsFrom, Surroundings, Sorted, Distinct, Survivors, Elements;
    FreshNumber(cmp, db);
    assert Rest(db', InputsOf(db.job)) == Rest(db, InputsOf(db.job)) && Held(db') == Held(db);
    FilesKept(db, db');
    LogsKept(db, db');
    ManifestKept(db, db');
    SequencesKept(db, db');
    FaithfulKept(db, db');
  }

  lemma InstallIsOk(cmp: UserComparator, db: Db, db': Db)
    requires Ok(cmp, db) && Next(cmp, db, Install, db')
    ensures Ok(cmp, db')
  {
    hide FilesOk, LogsOk, ManifestOk, SequencesOk, Faithful, TablesOf, LogsFrom, WorkOk, Survivors, Elements;
    assert Rest(db', InputsOf(db.job)) == Rest(db, InputsOf(db.job)) && Held(db') == Held(db);
    FilesKept(db, db');
    LogsKept(db, db');
    ManifestKept(db, db');
    WorkKept(cmp, db, db', db.job.w);
    SequencesKept(db, db');
    FaithfulKept(db, db');
  }

  /** A compaction gives up before its commit, or its commit fails before reaching the manifest. */
  lemma JobDroppedIsOk(cmp: UserComparator, db: Db, db': Db)
    requires Ok(cmp, db) && db.job.Running? && !db.job.stage.Reached? && db.flush.NoFlush?
    requires db' == db.(job := Idle, pending := db.pending - db.job.w.outputs, bgError := true)
    ensures Ok(cmp, db')
  {
    hide FilesOk, LogsOk, SequencesOk, Faithful, TablesOf, LogsFrom, Rest, Held, ManifestOk, WorkOk, Survivors;
    WorkInputs(cmp, db, db.job.w);
    SameRestAndHeld(db, db');
    FilesKept(db, db');
    LogsKept(db, db');
    DroppedManifest(db, db');
    SequencesKept(db, db');
    FaithfulKept(db, db');
  }

  lemma DroppedManifest(db: Db, db': Db)
    requires ManifestOk(db) && db.job.Running? && !db.job.stage.Reached? && db.job.w.inputs <= db.current.tables
    requires db' == db.(job := Idle, pending := db'.pending, bgError := true)
    ensures ManifestOk(db')
  {
    hide TablesOf, LogsFrom, Rest;
    var inputs := db.job.w.inputs;
    SameRest(db, db', inputs);
    HeldIsRest(db, inputs);
    SameRest(db, db', {});
    TablesSplit(db.tables, db.persisted.tables, inputs);
    assert db.persisted.tables - {} == db.persisted.tables && db.current.tables - {} == db.current.tables;
    assert Rest(db', {}) == Rest(db, inputs) + TablesOf(db.tables, inputs);
    assert Disputed(db.job) == inputs;
    var tables, logs := TablesOf(db.tables, db.persisted.tables - inputs), LogsFrom(db.logs, db.persisted.logNumber);
    assert tables + logs == Rest(db, inputs) + Unapplied(db);
    assert db'.persisted.tables - Disputed(db'.job) == db.persisted.tables && InputsOf(db'.job) == {};
    forall n | n in db.current.tables ensures n in db.persisted.tables {
      assert n in inputs || n in db.current.tables - inputs;
    }
    assert (tables + TablesOf(db.tables, inputs)) + logs == (Rest(db, inputs) + TablesOf(db.tables, inputs)) + Unapplied(db);
  }

  lemma SameRestAndHeld(db: Db, db': Db)
    requires db'.tables == db.tables && db'.current.tables == db.current.tables && db'.imm == db.imm && db'.mem == db.mem
    ensures Held(db') == Held(db)
  {
  }

  lemma JobWrittenIsOk(cmp: UserComparator, db: Db, db': Db)
    requires Ok(cmp, db) && Next(cmp, db, JobWritten, db')
    ensures Ok(cmp, db')
  {
    hide LogsOk, SequencesOk, Faithful, TablesOf, LogsFrom, Rest, Held, Survivors, Surroundings, Sorted, Distinct, Elements, ManifestOk;
    var w := db.job.w;
    SameRest(db, db', w.inputs);
    SameRestAndHeld(db, db');
    SequencesKept(db, db');
    FaithfulKept(db, db');
    JobReached(cmp, db, db');
  }

  lemma JobReached(cmp: UserComparator, db: Db, db': Db)
    requires LogsOk(db) && ManifestOk(db) && JobOk(cmp, db) && Next(cmp, db, JobWritten, db')
    ensures LogsOk(db') && ManifestOk(db')
  {
    hide TablesOf, LogsFrom, Survivors, Surroundings, Sorted, Distinct, Elements;
    var w := db.job.w;
    assert db'.persisted.tables - w.outputs == db.persisted.tables - w.inputs;
    TablesGrow(db.tables, db.current.tables - w.inputs, db.persisted.tables - w.inputs);
  }

  /** The compaction's commit before the collection of garbage. */
  function Replaced(db: Db): Db
    requires db.job.Running?
  {
    db.(current := Compacted(db.current, db.job.w, db.current.logNumber), job := Idle,
        pending := db.pending - db.job.w.outputs)
  }

  lemma ReplacedIsOk(cmp: UserComparator, db: Db)
    requires Ok(cmp, db) && db.job.Running? && db.job.stage.Reached?
    ensures Ok(cmp, Replaced(db)) && db.flush.NoFlush?
  {
    hide LogsOk, SequencesOk, Faithful, TablesOf, LogsFrom, Held, Survivors, Surroundings, Sorted, Distinct, Elements;
    var db', w := Replaced(db), db.job.w;
    ReplacedHeld(cmp, db);
    LogsKept(db, db');
    HeldIsRest(db', {});
    HeldIsRest(db, w.inputs);
    TablesSplit(db.tables, db.persisted.tables, w.outputs);
    assert db.persisted.tables - {} == db.persisted.tables;
    ReplacedSequences(cmp, db);
    ReplacedReads(cmp, db);
  }

  lemma ReplacedHeld(cmp: UserComparator, db: Db)
    requires db.job.Running? && JobOk(cmp, db) && db.job.stage.Reached?
    ensures Held(Replaced(db)) == Rest(db, db.job.w.inputs) + Survivors(cmp, db.job.w)
    ensures Held(db) == Rest(db, db.job.w.inputs) + Elements(db.job.w.es)
  {
    hide TablesOf, Survivors, Surroundings, Sorted, Distinct, Elements;
    var w := db.job.w;
    TablesUnion(db.tables, db.current.tables - w.inputs, w.outputs);
    HeldIsRest(db, w.inputs);
  }

  lemma SurvivorsSubset(cmp: UserComparator, w: Work)
    ensures Survivors(cmp, w) <= Elements(w.es)
  {
    var base := BaseLevelKeys(cmp, w.levels);
    forall e | e in Survivors(cmp, w) ensures e in Elements(w.es) {
      KeptElements(w.es, w.smallest, base, |w.es|, e);
    }
  }

  lemma ReplacedSequences(cmp: UserComparator, db: Db)
    requires SequencesOk(db) && db.job.Running? && JobOk(cmp, db) && db.job.stage.Reached?
    ensures SequencesOk(Replaced(db))
  {
    hide TablesOf, Survivors, Surroundings, Sorted, Distinct, Elements, Held, Rest, UniqueSequences, WorkOk;
    ReplacedHeld(cmp, db);
    SurvivorsSubset(cmp, db.job.w);
  }

  /** Reads at every sequence number some reader may be at are the same after the compaction. */
  lemma ReplacedReads(cmp: UserComparator, db: Db)
    requires Faithful(db, Held(db)) && db.job.Running? && JobOk(cmp, db) && db.job.stage.Reached?
    ensures Faithful(Replaced(db), Held(Replaced(db)))
  {
    hide TablesOf, Survivors, Surroundings, Sorted, Distinct, Elements, Held, Rest, WorkOk;
    var db', w := Replaced(db), db.job.w;
    ReplacedHeld(cmp, db);
    forall k, s | Readable(db', s) ensures FaithfulAt(db'.written, Held(db'), k, s) {
      assert Readable(db, s);
      assert FaithfulAt(db.written, Held(db), k, s);
      SurvivorsRead(cmp, db, w, k, s);
    }
  }

  lemma SurvivorsRead(cmp: UserComparator, db: Db, w: Work, k: Key, s: nat)
    requires WorkOk(cmp, db, w) && Readable(db, s)
    ensures Read(Rest(db, w.inputs) + Survivors(cmp, w), k, s) == Read(Rest(db, w.inputs) + Elements(w.es), k, s)
  {
    hide TablesOf, Surroundings, Sorted, Distinct, Elements, Rest, Kept;
    var rest := Rest(db, w.inputs);
    NoneRevivedReads(cmp, rest - w.older, w.es, w.older, w.levels, w.smallest, k, s);
    assert rest - w.older + Elements(w.es) + w.older == rest + Elements(w.es);
    assert rest - w.older + Survivors(cmp, w) + w.older == rest + Survivors(cmp, w);
  }

  lemma JobReturnsIsOk(cmp: UserComparator, db: Db, ok: bool, g: Garbage, db': Db)
    requires Ok(cmp, db) && Next(cmp, db, JobReturns(ok, g), db')
    ensures Ok(cmp, db')
  {
    hide Ok;
    if ok {
      ReplacedIsOk(cmp, db);
      CollectedIsOk(cmp, Replaced(db), g);
    } else {
      CommitAlone(cmp, db);
      if db.job.stage.Reached? {
        JobHaltedIsOk(cmp, db, db');
      } else {
        JobDroppedIsOk(cmp, db, db');
      }
    }
  }

  /** A compaction gets done: its inputs are no longer current, and its outputs, which hold the survivors, are. */
  lemma JobReplacesInputs(cmp: UserComparator, db: Db, g: Garbage, db': Db)
    requires Ok(cmp, db) && Next(cmp, db, JobReturns(true, g), db')
    ensures db'.job.Idle? && db'.current.tables !! db.job.w.inputs && db.job.w.outputs <= db'.current.tables
    ensures TablesOf(db'.tables, db.job.w.outputs) == Survivors(cmp, db.job.w)
    ensures db'.pending == db.pending - db.job.w.outputs
  {
    hide FilesOk, LogsOk, FlushOk, ManifestOk, InSync, SequencesOk, Faithful, TablesOf, Survivors, Surroundings, Sorted, Distinct;
    TablesGone(db.tables, g.tables, db.job.w.outputs);
  }

  lemma CommitAlone(cmp: UserComparator, db: Db)
    requires Ok(cmp, db) && db.job.Running? && !db.job.stage.Working?
    ensures db.flush.NoFlush?
  {
  }

  /** The commit reached the manifest and still failed: both tables' files stay, and background work ends. */
  lemma JobHaltedIsOk(cmp: UserComparator, db: Db, db': Db)
    requires Ok(cmp, db) && db.job.Running? && db.job.stage.Reached? && db.flush.NoFlush?
    requires db' == db.(job := Halted(db.job.w), pending := db.pending - db.job.w.outputs, bgError := true)
    ensures Ok(cmp, db')
  {
    hide FilesOk, LogsOk, ManifestOk, SequencesOk, Faithful, TablesOf, LogsFrom, Rest, Held, Survivors, WorkOk;
    SameRest(db, db', db.job.w.inputs);
    SameRestAndHeld(db, db');
    FilesKept(db, db');
    LogsKept(db, db');
    ManifestKept(db, db');
    WorkKept(cmp, db, db', db.job.w);
    SequencesKept(db, db');
    FaithfulKept(db, db');
  }

  lemma JobFailsIsOk(cmp: UserComparator, db: Db, db': Db)
    requires Ok(cmp, db) && Next(cmp, db, JobFails, db')
    ensures Ok(cmp, db')
  {
    hide Ok;
    JobDroppedIsOk(cmp, db, db');
  }

  // ----- Whole runs -----

  lemma NextIsOk(cmp: UserComparator, db: Db, step: Step, db': Db)
    requires Ok(cmp, db) && Next(cmp, db, step, db')
    ensures Ok(cmp, db')
  {
    hide Ok, Next;
    match step
    case Append(batch, count) => { AppendIsOk(cmp, db, batch, count, db'); }
    case Insert => { InsertIsOk(cmp, db, db'); }
    case SyncFails => { SyncFailsIsOk(cmp, db, db'); }
    case Switch => { SwitchIsOk(cmp, db, db'); }
    case TakeSnapshot => { SnapshotsAreOk(cmp, db, step, db'); }
    case ReleaseSnapshot(_) => { SnapshotsAreOk(cmp, db, step, db'); }
    case FlushStart => { FlushStartIsOk(cmp, db, db'); }
    case TableBuilt(ok) => { TableBuiltIsOk(cmp, db, ok, db'); }
    case FlushWritten => { FlushWrittenIsOk(cmp, db, db'); }
    case FlushReturns(ok, g) => {
      if ok { FlushReturnsIsOk(cmp, db, g, db'); } else { FlushFailedIsOk(cmp, db, g, db'); }
    }
    case JobStart(w) => { JobStartIsOk(cmp, db, w, db'); }
    case TrivialMove(ok) => { TrivialMoveIsOk(cmp, db, ok, db'); }
    case OpenOutput => { OpenOutputIsOk(cmp, db, db'); }
    case FinishOutput(n, part) => { FinishOutputIsOk(cmp, db, n, part, db'); }
    case JobFails => { JobFailsIsOk(cmp, db, db'); }
    case Install => { InstallIsOk(cmp, db, db'); }
    case JobWritten => { JobWrittenIsOk(cmp, db, db'); }
    case JobReturns(ok, g) => { JobReturnsIsOk(cmp, db, ok, g, db'); }
  }

  ghost predicate StepAt(cmp: UserComparator, dbs: seq<Db>, steps: seq<Step>, i: nat)
    requires |dbs| == |steps| + 1 && i < |steps|
  {
    Next(cmp, dbs[i], steps[i], dbs[i + 1])
  }

  /** A run from a freshly opened database. */
  ghost predicate Run(cmp: UserComparator, dbs: seq<Db>, steps: seq<Step>) {
    && |dbs| == |steps| + 1
    && (exists tables, manifest, logFile, last :: Fresh(dbs[0], tables, manifest, logFile, last))
    && forall i :: 0 <= i < |steps| ==> StepAt(cmp, dbs, steps, i)
  }

  ghost predicate Fresh(db: Db, tables: map<nat, set<Entry>>, manifest: nat, logFile: nat, last: nat) {
    && Below(tables.Keys, logFile)
    && var es := TablesOf(tables, tables.Keys);
       && UniqueSequences(es) && (forall e :: e in es ==> e.Sequence() <= last)
       && db == Opened(tables, manifest, logFile, last)
  }

  lemma {:induction false} RunIsOk(cmp: UserComparator, dbs: seq<Db>, steps: seq<Step>, i: nat)
    requires Run(cmp, dbs, steps) && i < |dbs|
    ensures Ok(cmp, dbs[i])
  {
    hide Ok, Next;
    if i == 0 {
      var tables, manifest, logFile, last :| Fresh(dbs[0], tables, manifest, logFile, last);
      OpenedIsOk(cmp, tables, manifest, logFile, last);
    } else {
      RunIsOk(cmp, dbs, steps, i - 1);
      assert StepAt(cmp, dbs, steps, i - 1);
      NextIsOk(cmp, dbs[i - 1], steps[i - 1], dbs[i]);
    }
  }

  /** The manifest in use is never collected. */
  lemma {:induction false} ManifestIsThere(cmp: UserComparator, dbs: seq<Db>, steps: seq<Step>, i: nat)
    requires Run(cmp, dbs, steps) && i < |dbs|
    ensures dbs[i].manifest == dbs[0].manifest && dbs[i].manifest in dbs[i].manifests
  {
    hide Next;
    if i > 0 {
      ManifestIsThere(cmp, dbs, steps, i - 1);
      assert StepAt(cmp, dbs, steps, i - 1);
      NextKeepsManifest(cmp, dbs[i - 1], steps[i - 1], dbs[i]);
    }
  }

  lemma NextKeepsManifest(cmp: UserComparator, db: Db, step: Step, db': Db)
    requires Next(cmp, db, step, db') && db.manifest in db.manifests
    ensures db'.manifest == db.manifest && db'.manifest in db'.manifests
  {
    hide TablesOf, Surroundings, UniqueSequences, Picked, Survivors;
  }

  // ----- What the next incarnation would find -----

  /** The entries of the manifest's tables and logs, but for the write in flight. */
  ghost function Settled(cmp: UserComparator, db: Db): set<Entry> {
    if Swapped(db.job) then Rest(db, db.job.w.inputs) + Survivors(cmp, db.job.w) else Held(db)
  }

  lemma RecoveredIs(cmp: UserComparator, db: Db)
    requires ManifestOk(db) && JobOk(cmp, db)
    ensures Recovered(db) == Settled(cmp, db) + Unapplied(db)
  {
    hide TablesOf, LogsFrom, Held, Rest, Survivors, Elements, Surroundings, Sorted, Distinct;
    TablesSplit(db.tables, db.persisted.tables, Disputed(db.job));
    HeldIsRest(db, InputsOf(db.job));
    NoTables(db.tables);
  }

  lemma SettledIsWritten(cmp: UserComparator, db: Db)
    requires SequencesOk(db) && JobOk(cmp, db)
    ensures Settled(cmp, db) <= db.written
  {
    hide TablesOf, Held, Rest, Survivors, Elements, Surroundings, Sorted, Distinct, UniqueSequences;
    if Swapped(db.job) {
      SurvivorsSubset(cmp, db.job.w);
      HeldIsRest(db, db.job.w.inputs);
    }
  }

  lemma SettledReads(cmp: UserComparator, db: Db, k: Key, s: nat)
    requires JobOk(cmp, db) && Readable(db, s)
    ensures Read(Settled(cmp, db), k, s) == Read(Held(db), k, s)
  {
    hide TablesOf, Held, Rest, Survivors, Elements, Surroundings, Sorted, Distinct;
    if Swapped(db.job) {
      SurvivorsRead(cmp, db, db.job.w, k, s);
      HeldIsRest(db, db.job.w.inputs);
    }
  }

  /** Two sets that read alike still do after the same entries, newer than all of theirs, are added to both. */
  lemma AddedOnTop(a: set<Entry>, b: set<Entry>, top: set<Entry>, k: Key, s: nat)
    requires UniqueSequences(a + top) && UniqueSequences(b + top) && Read(a, k, s) == Read(b, k, s)
    requires forall e, f :: e in top && f in a + b ==> f.Sequence() < e.Sequence()
    ensures Read(a + top, k, s) == Read(b + top, k, s)
  {
    TopFirst(a, top, k, s);
    TopFirst(b, top, k, s);
  }

  /** The entries of limbo that a reader of k at s would see. */
  ghost predicate Touched(top: set<Entry>, k: Key, s: nat) {
    exists e :: e in top && e.ukey == k && e.Visible(s)
  }

  /** What is on top decides where it has anything. */
  lemma TopFirst(a: set<Entry>, top: set<Entry>, k: Key, s: nat)
    requires UniqueSequences(a + top)
    requires forall e, f :: e in top && f in a ==> f.Sequence() < e.Sequence()
    ensures Read(a + top, k, s) == if Touched(top, k, s) then Read(top, k, s) else Read(a, k, s)
    ensures forall n :: NewestIn(a + top, k, s, n) ==> (n in top <==> Touched(top, k, s))
    ensures Touched(top, k, s) ==> exists n :: NewestIn(a + top, k, s, n)
  {
    hide Read;
    UniqueSubset(a, a + top);
    UniqueSubset(top, a + top);
    if e :| e in top && e.ukey == k && e.Visible(s) {
      HasNewest(top, k, s, e);
      var n :| NewestIn(top, k, s, n);
      assert NewestIn(a + top, k, s, n);
      ReadIs(top, k, s, n);
      ReadIs(a + top, k, s, n);
    } else {
      forall e ensures NewestIn(a + top, k, s, e) <==> NewestIn(a, k, s, e) {
      }
      SameNewest(a + top, a, k, s);
    }
  }

  /** What the next incarnation finds when the record of the write whose sync failed did not survive. */
  ghost function RecoveredWithout(db: Db): set<Entry> {
    Recovered(db) - db.limbo
  }

  /** Whatever the manifest says right now, its tables are there, and with its logs they read like memory does. */
  lemma RecoveredIsFaithful(cmp: UserComparator, db: Db)
    requires Ok(cmp, db)
    ensures db.persisted.tables <= db.tables.Keys
    ensures Faithful(db, RecoveredWithout(db))
    ensures forall k, s :: Readable(db, s) ==> FaithfulAt(db.written + db.limbo, Recovered(db), k, s)
  {
    hide LogsOk, FlushOk, InSync, TablesOf, LogsFrom, Held, JobOk, Settled, ManifestOk, UniqueSequences, Recovered;
    RecoveredIs(cmp, db);
    SettledIsWritten(cmp, db);
    forall k, s | Readable(db, s)
      ensures FaithfulAt(db.written, RecoveredWithout(db), k, s) && FaithfulAt(db.written + db.limbo, Recovered(db), k, s)
    {
      RecoveredReads(cmp, db, k, s);
    }
  }

  lemma RecoveredReads(cmp: UserComparator, db: Db, k: Key, s: nat)
    requires JobOk(cmp, db) && SequencesOk(db) && Faithful(db, Held(db)) && Readable(db, s)
    requires Recovered(db) == Settled(cmp, db) + Unapplied(db) && Settled(cmp, db) <= db.written
    ensures FaithfulAt(db.written, RecoveredWithout(db), k, s)
    ensures FaithfulAt(db.written + db.limbo, Recovered(db), k, s)
  {
    hide JobOk, Held, Settled, UniqueSequences, Recovered, Read;
    var settled := Settled(cmp, db);
    assert FaithfulAt(db.written, Held(db), k, s);
    SettledReads(cmp, db, k, s);
    UniqueSubset(settled + db.inflight, db.written + db.inflight + db.limbo);
    UniqueSubset(settled + db.limbo, db.written + db.inflight + db.limbo);
    UniqueSubset(db.written + db.limbo, db.written + db.inflight + db.limbo);
    NewerUnseen(settled, settled + db.inflight, k, s);
    assert RecoveredWithout(db) == settled + db.inflight;
    if db.limbo == {} {
      assert db.written + db.limbo == db.written && Recovered(db) == settled + db.inflight;
    } else {
      AddedOnTop(settled, db.written, db.limbo, k, s);
      assert Recovered(db) == settled + db.limbo;
    }
  }

  lemma UniqueSubset(a: set<Entry>, b: set<Entry>)
    requires a <= b && UniqueSequences(b)
    ensures UniqueSequences(a)
  {
  }

  /**
   * No acknowledged write is lost: at every moment of every run, whether the next thing is a read or a crash and a
   * recovery from the manifest of that moment, every key reads as all writes acknowledged so far say, at the latest
   * sequence number and at every live snapshot; and neither the manifest nor a table it names has been deleted. Only a write whose
   * sync failed may turn up after a recovery, on top of all that was acknowledged, or not, as its record survived.
   */
  lemma NoWriteIsLost(cmp: UserComparator, dbs: seq<Db>, steps: seq<Step>, i: nat, k: Key, s: nat)
    requires Run(cmp, dbs, steps) && i < |dbs| && Readable(dbs[i], s)
    ensures Read(Held(dbs[i]), k, s) == Read(dbs[i].written, k, s)
    ensures Read(RecoveredWithout(dbs[i]), k, s) == Read(dbs[i].written, k, s)
    ensures Read(Recovered(dbs[i]), k, s) == Read(dbs[i].written + dbs[i].limbo, k, s)
    ensures dbs[i].persisted.tables <= dbs[i].tables.Keys && dbs[i].current.tables <= dbs[i].tables.Keys
    ensures dbs[i].manifest in dbs[i].manifests
  {
    hide LogsOk, FlushOk, InSync, TablesOf, LogsFrom, Held, JobOk, ManifestOk, SequencesOk, Recovered, Next;
    RunIsOk(cmp, dbs, steps, i);
    RecoveredIsFaithful(cmp, dbs[i]);
    ManifestIsThere(cmp, dbs, steps, i);
    assert FaithfulAt(dbs[i].written, Held(dbs[i]), k, s);
    assert FaithfulAt(dbs[i].written, RecoveredWithout(dbs[i]), k, s);
    assert FaithfulAt(dbs[i].written + dbs[i].limbo, Recovered(dbs[i]), k, s);
  }

  /**
   * When a recovery shows anything but acknowledged writes. Where the write whose sync failed has no entry of the key
   * that the reader would see, it shows just those; where it has one, it shows that write's, and never an acknowledged
   * one. So the two readings agree if and only if there is none, or it happens to say what was there before.
   */
  lemma RecoveredShowsLimbo(cmp: UserComparator, dbs: seq<Db>, steps: seq<Step>, i: nat, k: Key, s: nat)
    requires Run(cmp, dbs, steps) && i < |dbs| && Readable(dbs[i], s)
    ensures var db := dbs[i];
            && Read(Recovered(db), k, s) == (if Touched(db.limbo, k, s) then Read(db.limbo, k, s) else Read(db.written, k, s))
            && ((exists n :: NewestIn(db.written + db.limbo, k, s, n) && n !in db.written) <==> Touched(db.limbo, k, s))
            && (Read(Recovered(db), k, s) == Read(db.written, k, s)
                <==> !Touched(db.limbo, k, s) || Read(db.limbo, k, s) == Read(db.written, k, s))
  {
    hide LogsOk, FlushOk, InSync, TablesOf, Held, JobOk, ManifestOk, Recovered, Next, Read;
    var db := dbs[i];
    RunIsOk(cmp, dbs, steps, i);
    NoWriteIsLost(cmp, dbs, steps, i, k, s);
    LimboOnTop(db, k, s);
  }

  lemma LimboOnTop(db: Db, k: Key, s: nat)
    requires SequencesOk(db)
    ensures Read(db.written + db.limbo, k, s)
            == if Touched(db.limbo, k, s) then Read(db.limbo, k, s) else Read(db.written, k, s)
    ensures (exists n :: NewestIn(db.written + db.limbo, k, s, n) && n !in db.written) <==> Touched(db.limbo, k, s)
  {
    hide Held, Read;
    UniqueSubset(db.written + db.limbo, db.written + db.inflight + db.limbo);
    TopFirst(db.written, db.limbo, k, s);
    if Touched(db.limbo, k, s) {
      var n :| NewestIn(db.written + db.limbo, k, s, n);
      assert n in db.limbo && n !in db.written;
    }
  }

  /** It does happen: a write whose sync failed, and which was reported as failed, is read after a recovery. */
  lemma FailedSyncTurnsUp(cmp: UserComparator, k: Key, v: seq<byte>) returns (dbs: seq<Db>, steps: seq<Step>)
    ensures Run(cmp, dbs, steps) && |steps| == 2 && steps[1] == SyncFails && Readable(dbs[2], 1)
    ensures Read(Recovered(dbs[2]), k, 1) == Some(v) && Read(dbs[2].written, k, 1) == None == Read(Held(dbs[2]), k, 1)
  {
    var e := Entry(k, 257, v);
    var db0 := Opened(map[], 0, 1, 0);
    var db1 := db0.(logs := db0.logs[1 := db0.logs[1] + {e}], inflight := {e}, nextSequence := 1);
    var db2 := db1.(limbo := {} + {e}, inflight := {}, lastSequence := 1, bgError := true);
    dbs, steps := [db0, db1, db2], [Append({e}, 1), SyncFails];
    assert Fresh(db0, map[], 0, 1, 0);
    assert StepAt(cmp, dbs, steps, 0) && StepAt(cmp, dbs, steps, 1);
    NoWriteIsLost(cmp, dbs, steps, 2, k, 1);
    assert db2.written == {} && {} + {e} == {e} == db2.limbo && db2.written + db2.limbo == {e};
    assert NewestIn({e}, k, 1, e);
    ReadIs({e}, k, 1, e);
  }

  /** What has been acknowledged stays acknowledged, and sequence numbers never fall. */
  lemma {:induction false} AcknowledgedStay(cmp: UserComparator, dbs: seq<Db>, steps: seq<Step>, i: nat, j: nat)
    requires Run(cmp, dbs, steps) && i <= j < |dbs|
    ensures dbs[i].written <= dbs[j].written && dbs[i].lastSequence <= dbs[j].lastSequence
    decreases j
  {
    hide Ok, Next;
    if i < j {
      AcknowledgedStay(cmp, dbs, steps, i, j - 1);
      RunIsOk(cmp, dbs, steps, j - 1);
      assert StepAt(cmp, dbs, steps, j - 1);
      NextAcknowledges(cmp, dbs[j - 1], steps[j - 1], dbs[j]);
    }
  }

  lemma NextAcknowledges(cmp: UserComparator, db: Db, step: Step, db': Db)
    requires Ok(cmp, db) && Next(cmp, db, step, db')
    ensures db.written <= db'.written && db.lastSequence <= db'.lastSequence
  {
    hide FilesOk, LogsOk, FlushOk, ManifestOk, InSync, JobOk, Faithful, TablesOf, Surroundings, UniqueSequences, Held, Rest;
  }
}
