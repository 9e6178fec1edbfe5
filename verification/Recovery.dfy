/** Replaying a log into memtables (RecoverLogFile in db/db_impl.cc). */
module Recovery {
  import opened Wrappers
  import opened UserKeys
  import opened Coding
  import opened DbFormat
  import opened LogFormat
  import opened LogReading
  import LogReader
  import LogWriter
  import LogTheorems
  import WB = WriteBatch

  // ----- What replaying a list of log records gives -----

  /** The entries one record contributes: those of the operations decoded before any error in it. */
  function Inserted(record: bytes): seq<Entry> {
    if |record| < WB.HEADER_SIZE then []
    else WB.Entries(FromFixed(record[..8]), WB.DecodeOps(record[WB.HEADER_SIZE..]).0)
  }

  /** The record is a batch in full working order. */
  predicate GoodRecord(record: bytes) {
    && |record| >= WB.HEADER_SIZE
    && var (ops, end) := WB.DecodeOps(record[WB.HEADER_SIZE..]);
    && end.Ok? && |ops| == FromFixed(record[8..12])
  }

  /** The sequence number of a batch's last operation, from its header, in 64-bit arithmetic. */
  function LastSequence(record: bytes): nat
    requires |record| >= WB.HEADER_SIZE
  {
    (FromFixed(record[..8]) + FromFixed(record[8..12]) - 1) % 0x1_0000_0000_0000_0000
  }

  function Max(a: nat, b: nat): nat { if a < b then b else a }

  ghost function AllInserted(records: seq<Record>): seq<Entry> {
    if records == [] then []
    else AllInserted(records[..|records| - 1]) + Inserted(records[|records| - 1].data)
  }

  ghost function MaxSequence(start: nat, records: seq<Record>): nat {
    if records == [] then start
    else
      var before, data := MaxSequence(start, records[..|records| - 1]), records[|records| - 1].data;
      if |data| < WB.HEADER_SIZE then before else Max(before, LastSequence(data))
  }

  ghost predicate AllGood(records: seq<Record>) {
    forall r :: r in records ==> GoodRecord(r.data)
  }

  ghost function Flatten(tables: seq<seq<Entry>>): seq<Entry> {
    if tables == [] then [] else Flatten(tables[..|tables| - 1]) + tables[|tables| - 1]
  }

  class Replay {
    const paranoid: bool
    var mem: WB.Additions?
    var tables: seq<seq<Entry>>  // level-0 tables written so far
    var maxSequence: nat
    var ok: bool                 // status
    var tableFailed: bool
    var saveManifest: bool       // *save_manifest: the manifest is to list the tables
    ghost var failures: nat      // table builds that failed

    constructor (paranoid: bool, maxSequence: nat)
      ensures this.paranoid == paranoid && this.maxSequence == maxSequence
      ensures Recovered() == [] && ok && !tableFailed && mem == null && tables == [] && !saveManifest && failures == 0
    {
      this.paranoid := paranoid;
      mem, tables, this.maxSequence, ok, tableFailed, saveManifest := null, [], maxSequence, true, false, false;
      failures := 0;
    }

    /** The entries replayed so far, in order. */
    ghost function Recovered(): seq<Entry>
      reads this, mem
    {
      Flatten(tables) + (if mem == null then [] else mem.entries)
    }

    /** BuildTable on the memtable's entries; writing the file may fail. */
    method BuildTable() returns (built: bool)
      modifies this`failures
      ensures failures == old(failures) + (if built then 0 else 1)
    {
      built := *;
      failures := failures + (if built then 0 else 1);
    }

    method WriteLevel0Table()
      requires mem != null && ok && !tableFailed
      modifies this`tables, this`ok, this`tableFailed, this`mem, this`saveManifest, this`failures
      ensures failures == old(failures) + (if tableFailed then 1 else 0)
      ensures mem == null && ok == !tableFailed && saveManifest
      ensures ok ==> tables == old(tables) + [old(mem.entries)] && Recovered() == old(Recovered())
    {
      saveManifest := true;
      var built := BuildTable();
      if built {
        tables := tables + [mem.entries];
        assert tables[..|tables| - 1] == old(tables);
      } else {
        ok, tableFailed := false, true;
      }
      mem := null;
    }

    /**
     * The log stays in use, with what is in the memtable, only if that is wanted and possible and no table has been
     * written from it; otherwise what is left in the memtable is written to a table, and the memtable is given up.
     */
    method Finish(reusable: bool) returns (reused: bool)
      requires ok ==> !tableFailed && (saveManifest <==> tables != [])
      modifies this`tables, this`ok, this`tableFailed, this`mem, this`saveManifest, this`failures
      requires tableFailed <==> failures > 0
      ensures tableFailed <==> failures > 0
      ensures reused <==> old(ok) && reusable && old(tables) == []
      ensures ok && !reused ==> mem == null && Flatten(tables) == old(Recovered())
      ensures reused ==> ok && mem != null && tables == [] && mem.entries == old(Recovered())
      ensures ok ==> Recovered() == old(Recovered()) && (saveManifest <==> tables != [])
      ensures || (ok == old(ok) && tableFailed == old(tableFailed))
              || (old(ok) && !ok && tableFailed)
    {
      reused := ok && reusable && tables == [];
      if reused {
        if mem == null {
          mem := new WB.Additions();
        }
      } else if mem != null {
        if ok {
          WriteLevel0Table();
        }
        mem := null;
      }
    }

    /** The record's operations go into the memtable, up to the first that cannot be decoded. */
    method InsertRecord(record: bytes, batch: WB.WriteBatch) returns (status: WB.Status)
      requires |record| >= WB.HEADER_SIZE && (mem != null ==> batch != mem as object)
      modifies this`mem, mem, batch
      ensures mem != null && (mem == old(mem) || fresh(mem)) && batch.rep == record
      ensures mem.entries == (if old(mem) == null then [] else old(mem.entries)) + Inserted(record)
      ensures status.Ok? <==> GoodRecord(record)
    {
      hide WB.Entries, WB.DecodeOps, FromFixed;
      batch.SetContents(record);
      if mem == null {
        mem := new WB.Additions();
      }
      status := batch.InsertInto(mem);
    }

    /** The body of the replay loop for one record, with the reporter and MaybeIgnoreError folded in. */
    method Apply(record: bytes, batch: WB.WriteBatch)
      requires ok && !tableFailed && (mem != null ==> batch != mem as object)
      requires saveManifest <==> tables != []
      requires tableFailed <==> failures > 0
      modifies this`mem, this`tables, this`maxSequence, this`ok, this`tableFailed, this`saveManifest, this`failures, mem, batch
      ensures tableFailed <==> failures > 0
      ensures ok ==> Recovered() == old(Recovered()) + Inserted(record) && (saveManifest <==> tables != [])
      ensures ok ==> maxSequence == if |record| < WB.HEADER_SIZE then old(maxSequence)
                                    else Max(old(maxSequence), LastSequence(record))
      ensures ok <==> !tableFailed && (paranoid ==> GoodRecord(record))
      ensures mem != null ==> mem == old(mem) || fresh(mem)
    {
      hide WB.Entries, WB.DecodeOps, FromFixed, Flatten;
      if |record| < WB.HEADER_SIZE {
        if paranoid { ok := false; }
        return;
      }
      ghost var flat, was := Flatten(tables), if mem == null then [] else mem.entries;
      hide Inserted, GoodRecord;
      var status := InsertRecord(record, batch);
      assert Recovered() == flat + was + Inserted(record);
      if status.Corruption? && paranoid {
        ok := false;
        return;
      }
      var lastSequence := (batch.Sequence() + batch.Count() - 1) % 0x1_0000_0000_0000_0000;
      if lastSequence > maxSequence {
        maxSequence := lastSequence;
      }
      var big: bool := *;  // ApproximateMemoryUsage() > write_buffer_size
      if big {
        WriteLevel0Table();
      }
    }
  }

  /** One turn of the replay loop; it ends when there is nothing more to read or the status is not ok. */
  method ReplayNext(reader: LogReader.Reader, replay: Replay, batch: WB.WriteBatch)
    returns (more: bool, ghost last: Record)
    requires reader.Ready() && reader.initialOffset == 0 && replay.ok && !replay.tableFailed
    requires (replay.saveManifest <==> replay.tables != []) && (replay.tableFailed <==> replay.failures > 0)
    ensures replay.tableFailed <==> replay.failures > 0
    requires replay.mem != null ==> batch != replay.mem as object
    modifies reader, replay, replay.mem, batch
    ensures replay.mem != null ==> replay.mem == old(replay.mem) || fresh(replay.mem)
    ensures replay.ok ==> (replay.saveManifest <==> replay.tables != [])
    ensures more ==>
              && reader.Ready() && replay.ok && !replay.tableFailed
              && old(reader.Rest()).records == [last] + reader.Rest().records
              && old(reader.drops) + old(reader.Rest()).drops == reader.drops + reader.Rest().drops
              && replay.Recovered() == old(replay.Recovered()) + Inserted(last.data)
              && replay.maxSequence == (if |last.data| < WB.HEADER_SIZE then old(replay.maxSequence)
                                        else Max(old(replay.maxSequence), LastSequence(last.data)))
              && (replay.paranoid ==> reader.drops == old(reader.drops) && GoodRecord(last.data))
    ensures !more && replay.ok ==>
              && !replay.tableFailed
              && old(reader.Rest()).records == []
              && replay.Recovered() == old(replay.Recovered()) && replay.maxSequence == old(replay.maxSequence)
              && (replay.paranoid ==> old(reader.Rest()).drops == 0)
    ensures !more && !replay.ok ==>
              replay.tableFailed || (replay.paranoid && (old(reader.Rest()).drops > 0 || !AllGood(old(reader.Rest()).records)))
  {
    hide Inserted, GoodRecord, LastSequence, Read;
    var before := reader.drops;
    var got, record := reader.ReadRecord();
    last := Record(reader.lastRecordOffset, record);
    if replay.paranoid && reader.drops > before {
      replay.ok := false;  // the reporter records the corruption in status
    }
    if !got || !replay.ok { return false, last; }
    ghost var rest := reader.Rest();
    replay.Apply(record, batch);
    more := replay.ok;
    assert last in old(reader.Rest()).records;
  }

  /**
   * Replays a log. It succeeds exactly when every table could be built and, in paranoid mode, the reader reported
   * nothing and every record was a good batch. Then the tables hold exactly the entries of the records read, in
   * order, and the manifest is to list them; or, if logs may be reused and this one is, its memtable holds them.
   */
  method RecoverLogFile(crc: Checksum, file: bytes, paranoid: bool, reuse: bool, maxSequence: nat)
    returns (ok: bool, reused: bool, replay: Replay)
    ensures reused ==> ok && reuse && replay.tables == [] && replay.mem != null
    ensures reused ==> replay.mem.entries == AllInserted(ReadFrom(crc, file, 0).records)
    ensures ok && !reused ==> replay.mem == null && Flatten(replay.tables) == AllInserted(ReadFrom(crc, file, 0).records)
    ensures ok ==> (replay.saveManifest <==> replay.tables != [])
    ensures replay.tableFailed <==> replay.failures > 0
    ensures ok ==> maxSequence <= replay.maxSequence
    ensures ok ==> forall r :: r in ReadFrom(crc, file, 0).records && |r.data| >= WB.HEADER_SIZE ==>
              LastSequence(r.data) <= replay.maxSequence
    ensures var outcome := ReadFrom(crc, file, 0);
            && (ok ==> replay.Recovered() == AllInserted(outcome.records))
            && (ok ==> replay.maxSequence == MaxSequence(maxSequence, outcome.records))
            && (ok <==> !replay.tableFailed && (paranoid ==> outcome.drops == 0 && AllGood(outcome.records)))
  {
    hide Inserted, GoodRecord, LastSequence, ReadFrom, AllInserted, MaxSequence, Read, AllGood, Replaying, Replayed;
    var reader := new LogReader.Reader(crc, file, 0);
    replay := new Replay(paranoid, maxSequence);
    var batch := new WB.WriteBatch();
    ghost var outcome := reader.Rest();
    ghost var done: seq<Record> := [];
    ReplayStarts(outcome, paranoid, maxSequence);
    var more := true;
    while more
      invariant fresh(reader) && fresh(replay) && fresh(batch) && (replay.mem != null ==> fresh(replay.mem))
      invariant replay.mem != null ==> batch != replay.mem as object
      invariant replay.paranoid == paranoid && reader.initialOffset == 0
      invariant replay.tableFailed <==> replay.failures > 0
      invariant replay.ok ==> (replay.saveManifest <==> replay.tables != [])
      invariant more ==>
                  && reader.Ready() && replay.ok && !replay.tableFailed
                  && Replaying(outcome, done, reader.Rest(), reader.drops, replay.Recovered(), replay.maxSequence, paranoid, maxSequence)
      invariant !more ==>
                  Replayed(outcome, replay.ok, replay.tableFailed, replay.Recovered(), replay.maxSequence, paranoid, maxSequence)
      decreases more, |outcome.records| - |done|
    {
      ghost var rest, drops, recovered, reached := reader.Rest(), reader.drops, replay.Recovered(), replay.maxSequence;
      DoneIsShorter(outcome, done, rest, drops, recovered, reached, paranoid, maxSequence);
      ghost var last;
      more, last := ReplayNext(reader, replay, batch);
      if more {
        ReplayGoesOn(outcome, done, last, rest, drops, recovered, reached, paranoid, maxSequence, reader.Rest(), reader.drops,
                     replay.Recovered(), replay.maxSequence);
        done := done + [last];
      } else {
        ReplayEnds(outcome, done, rest, drops, recovered, reached, paranoid, maxSequence,
                   replay.ok, replay.tableFailed, replay.Recovered(), replay.maxSequence);
      }
    }
    var appendable: bool := *;  // the log's size could be found, and it could be opened for appending
    ReplayedTells(outcome, replay.ok, replay.tableFailed, replay.Recovered(), replay.maxSequence, paranoid, maxSequence);
    reused := replay.Finish(reuse && appendable);
    MaxSequenceIsMax(maxSequence, outcome.records);
    ok := replay.ok;
  }

  /** The records done have been replayed, and the reader has the rest. */
  ghost predicate Replaying(outcome: Outcome, done: seq<Record>, rest: Outcome, drops: nat, recovered: seq<Entry>, reached: nat,
                            paranoid: bool, start: nat) {
    && outcome.records == done + rest.records && outcome.drops == drops + rest.drops
    && (paranoid ==> drops == 0 && AllGood(done))
    && recovered == AllInserted(done) && reached == MaxSequence(start, done)
  }

  /** The replay is over. */
  ghost predicate Replayed(outcome: Outcome, ok: bool, tableFailed: bool, recovered: seq<Entry>, reached: nat, paranoid: bool,
                           start: nat) {
    && (ok ==> recovered == AllInserted(outcome.records) && reached == MaxSequence(start, outcome.records))
    && (ok <==> !tableFailed && (paranoid ==> outcome.drops == 0 && AllGood(outcome.records)))
  }

  lemma ReplayStarts(outcome: Outcome, paranoid: bool, start: nat)
    ensures Replaying(outcome, [], outcome, 0, [], start, paranoid, start)
  {
    NoneAreGood();
    NothingReplayed(start);
    hide AllGood, AllInserted, MaxSequence;
    assert outcome.records == [] + outcome.records;
  }

  lemma DoneIsShorter(outcome: Outcome, done: seq<Record>, rest: Outcome, drops: nat, recovered: seq<Entry>, reached: nat,
                      paranoid: bool, start: nat)
    requires Replaying(outcome, done, rest, drops, recovered, reached, paranoid, start)
    ensures |done| + |rest.records| == |outcome.records|
  {
  }

  lemma ReplayGoesOn(outcome: Outcome, done: seq<Record>, last: Record, rest: Outcome, drops: nat, recovered: seq<Entry>, reached: nat,
                     paranoid: bool, start: nat, rest': Outcome, drops': nat, recovered': seq<Entry>, reached': nat)
    requires Replaying(outcome, done, rest, drops, recovered, reached, paranoid, start)
    requires rest.records == [last] + rest'.records && drops + rest.drops == drops' + rest'.drops
    requires recovered' == recovered + Inserted(last.data)
    requires reached' == if |last.data| < WB.HEADER_SIZE then reached else Max(reached, LastSequence(last.data))
    requires paranoid ==> drops' == drops && GoodRecord(last.data)
    ensures Replaying(outcome, done + [last], rest', drops', recovered', reached', paranoid, start)
  {
    hide Inserted, GoodRecord, LastSequence, AllInserted, MaxSequence, AllGood;
    ReplayedOne(start, done, last);
    if paranoid { OneMoreGood(done, last); }
    assert outcome.records == (done + [last]) + rest'.records;
  }

  lemma ReplayEnds(outcome: Outcome, done: seq<Record>, rest: Outcome, drops: nat, recovered: seq<Entry>, reached: nat,
                   paranoid: bool, start: nat, ok: bool, tableFailed: bool, recovered': seq<Entry>, reached': nat)
    requires Replaying(outcome, done, rest, drops, recovered, reached, paranoid, start)
    requires ok ==> !tableFailed && rest.records == [] && recovered' == recovered && reached' == reached
                    && (paranoid ==> rest.drops == 0)
    requires !ok ==> tableFailed || (paranoid && (rest.drops > 0 || !AllGood(rest.records)))
    ensures Replayed(outcome, ok, tableFailed, recovered', reached', paranoid, start)
  {
    hide AllInserted, MaxSequence, AllGood;
    RestIsGood(done, rest.records);
    if ok { assert outcome.records == done; }
  }

  lemma ReplayedTells(outcome: Outcome, ok: bool, tableFailed: bool, recovered: seq<Entry>, reached: nat, paranoid: bool, start: nat)
    requires Replayed(outcome, ok, tableFailed, recovered, reached, paranoid, start)
    ensures ok ==> recovered == AllInserted(outcome.records) && reached == MaxSequence(start, outcome.records)
    ensures ok <==> !tableFailed && (paranoid ==> outcome.drops == 0 && AllGood(outcome.records))
  {
  }

  lemma NothingReplayed(start: nat)
    ensures AllInserted([]) == [] && MaxSequence(start, []) == start
  {
  }

  /** Replay never lowers the last sequence number, and ends at the largest there is. */
  lemma {:induction false} MaxSequenceIsMax(start: nat, records: seq<Record>)
    ensures MaxSequence(start, records) >= start
    ensures forall r :: r in records && |r.data| >= WB.HEADER_SIZE ==> LastSequence(r.data) <= MaxSequence(start, records)
    ensures MaxSequence(start, records) == start
            || exists r :: r in records && |r.data| >= WB.HEADER_SIZE && LastSequence(r.data) == MaxSequence(start, records)
  {
    hide LastSequence;
    if records != [] {
      var n := |records| - 1;
      MaxSequenceIsMax(start, records[..n]);
      assert records == records[..n] + [records[n]];
      var before, now := MaxSequence(start, records[..n]), MaxSequence(start, records);
      assert now == before || (|records[n].data| >= WB.HEADER_SIZE && now == LastSequence(records[n].data));
      if before != start {
        var r :| r in records[..n] && |r.data| >= WB.HEADER_SIZE && LastSequence(r.data) == before;
        assert r in records;
      }
    }
  }

  lemma ReplayedOne(start: nat, done: seq<Record>, last: Record)
    ensures AllInserted(done + [last]) == AllInserted(done) + Inserted(last.data)
    ensures MaxSequence(start, done + [last])
            == if |last.data| < WB.HEADER_SIZE then MaxSequence(start, done)
               else Max(MaxSequence(start, done), LastSequence(last.data))
  {
    assert (done + [last])[..|done|] == done;
  }

  // ----- Crash-prefix recovery -----

  /** A batch as it was logged. */
  datatype Batch = Batch(sequence: nat, ops: seq<WB.Op>) {
    ghost predicate WellFormed() {
      && sequence < 0x1_0000_0000_0000_0000
      && |ops| < 0x8000_0000
      && forall op :: op in ops ==> op.Fits()
    }

    function Encoded(): bytes { WB.EncodeBatch(sequence, ops) }
  }

  function Encoded(batches: seq<Batch>): seq<bytes> {
    seq(|batches|, i requires 0 <= i < |batches| => batches[i].Encoded())
  }

  ghost function AllEntries(batches: seq<Batch>): seq<Entry> {
    if batches == [] then []
    else AllEntries(batches[..|batches| - 1]) + WB.Entries(batches[|batches| - 1].sequence, batches[|batches| - 1].ops)
  }

  /** The last sequence number after these batches, from start on. */
  ghost function Reached(start: nat, batches: seq<Batch>): nat {
    if batches == [] then start
    else
      var b := batches[|batches| - 1];
      Max(Reached(start, batches[..|batches| - 1]), (b.sequence + |b.ops| - 1) % 0x1_0000_0000_0000_0000)
  }

  /** A logged batch is a good record and contributes exactly its own entries. */
  lemma BatchReplayed(b: Batch)
    requires b.WellFormed()
    ensures GoodRecord(b.Encoded()) && Inserted(b.Encoded()) == WB.Entries(b.sequence, b.ops)
    ensures |b.Encoded()| >= WB.HEADER_SIZE
    ensures LastSequence(b.Encoded()) == (b.sequence + |b.ops| - 1) % 0x1_0000_0000_0000_0000
  {
    hide Fixed, FromFixed, WB.EncodeOps, WB.DecodeOps, WB.Entries;
    var record := b.Encoded();
    assert record[..8] == Fixed(8, b.sequence) && record[8..12] == Fixed(4, |b.ops|);
    assert record[WB.HEADER_SIZE..] == WB.EncodeOps(b.ops) == WB.EncodeOps(b.ops) + [];
    Widths();
    FixedRoundTrip(8, b.sequence);
    FixedRoundTrip(4, |b.ops|);
    WB.DecodeOpsRoundTrip(b.ops, []);
    WB.DecodeNone(b.ops);
  }

  lemma {:induction false} BatchesReplayed(records: seq<Record>, batches: seq<Batch>, start: nat)
    requires |records| == |batches|
    requires forall i :: 0 <= i < |records| ==> batches[i].WellFormed() && records[i].data == batches[i].Encoded()
    ensures AllGood(records) && AllInserted(records) == AllEntries(batches)
    ensures MaxSequence(start, records) == Reached(start, batches)
  {
    hide GoodRecord, Inserted, WB.Entries, WB.EncodeBatch, AllGood, LastSequence, Max;
    if records == [] {
      NoneAreGood();
    } else {
      var n := |records| - 1;
      var init, last := records[..n], records[n];
      BatchesReplayed(init, batches[..n], start);
      BatchReplayed(batches[n]);
      OneMoreGood(init, last);
      assert records == init + [last];
    }
  }

  lemma RestIsGood(done: seq<Record>, rest: seq<Record>)
    ensures AllGood(done + rest) ==> AllGood(rest)
  {
    hide GoodRecord;
    assert forall r :: r in rest ==> r in done + rest;
  }

  lemma NoneAreGood()
    ensures AllGood([])
  {
  }

  lemma OneMoreGood(records: seq<Record>, last: Record)
    requires AllGood(records) && GoodRecord(last.data)
    ensures AllGood(records + [last])
  {
    hide GoodRecord;
  }

  /**
   * Whatever prefix of a log of batches survives a crash, replay finds no corruption and rebuilds exactly the
   * entries, with their sequence numbers, of the batches that were logged completely; from the whole log, all.
   */
  lemma CrashPrefixRecovery(crc: Checksum, batches: seq<Batch>, m: nat, start: nat)
    returns (k: nat)
    requires forall b :: b in batches ==> b.WellFormed()
    requires m <= |EmitAll(crc, 0, Encoded(batches))|
    ensures k <= |batches| && (m == |EmitAll(crc, 0, Encoded(batches))| ==> k == |batches|)
    ensures k == |LogTheorems.Whole(crc, 0, Encoded(batches), m)|
    ensures var outcome := ReadFrom(crc, EmitAll(crc, 0, Encoded(batches))[..m], 0);
            && outcome.drops == 0 && AllGood(outcome.records) && AllInserted(outcome.records) == AllEntries(batches[..k])
            && MaxSequence(start, outcome.records) == Reached(start, batches[..k])
  {
    hide ReadFrom, EmitAll, LogTheorems.Whole, AllGood, AllInserted, AllEntries, MaxSequence, Reached;
    var records := Encoded(batches);
    var whole := LogTheorems.Whole(crc, 0, records, m);
    LogTheorems.CutLog(crc, records, m);
    LogTheorems.WholeIsPrefix(crc, 0, records, m);
    k := |whole|;
    BatchesReplayed(whole, batches[..k], start);
  }

  /** Logs the batches one after the other into a new file; whole tells that no trailer was lost on the way. */
  method LogAll(crc: Checksum, batches: seq<Batch>)
    returns (ok: bool, file: LogWriter.WritableFile, ghost whole: bool)
    ensures ok && whole ==> file.contents == EmitAll(crc, 0, Encoded(batches))
    ensures file.failures == 0 ==> ok && whole
  {
    hide EmitAll, Emit, Encoded, WB.EncodeBatch;
    file := new LogWriter.WritableFile([]);
    var writer := new LogWriter.Writer(crc, file);
    NothingEmitted(crc);
    assert batches[..0] == [];
    for i := 0 to |batches|
      invariant writer.Valid() && writer.dest == file && writer.crc == crc && writer.lostTrailers <= file.failures
      invariant fresh(writer) && fresh(file) && writer.intended == EmitAll(crc, 0, Encoded(batches[..i]))
    {
      whole := false;
      ok := writer.AddRecord(batches[i].Encoded());
      if !ok { return; }
      OneMoreLogged(crc, batches, i);
    }
    assert batches[..|batches|] == batches;
    ok, whole := true, writer.lostTrailers == 0;
  }

  lemma OneMoreLogged(crc: Checksum, batches: seq<Batch>, i: nat)
    requires i < |batches|
    ensures var before := EmitAll(crc, 0, Encoded(batches[..i]));
            EmitAll(crc, 0, Encoded(batches[..i + 1])) == before + Emit(crc, |before|, batches[i].Encoded(), true)
  {
    hide EmitAll, Emit, WB.EncodeBatch;
    EmitAllSnoc(crc, 0, Encoded(batches[..i]), batches[i].Encoded());
    assert Encoded(batches[..i + 1]) == Encoded(batches[..i]) + [batches[i].Encoded()];
  }

  lemma NothingEmitted(crc: Checksum)
    ensures EmitAll(crc, 0, Encoded([])) == []
  {
  }

  /**
   * The whole way: batches are logged without losing a trailer, a crash leaves some prefix of the file, and it is
   * recovered. Unless a table cannot be built, recovery succeeds, even with paranoid checks, and has the entries of
   * the first k batches, in tables unless the log stays in use.
   */
  method LogCrashRecover(crc: Checksum, batches: seq<Batch>, survived: nat, paranoid: bool, reuse: bool, start: nat)
    returns (logged: bool, ok: bool, reused: bool, replay: Replay?, ghost whole: bool, ghost k: nat)
    requires forall b :: b in batches ==> b.WellFormed()
    ensures k <= |batches|
    ensures logged && whole ==> replay != null && ok == !replay.tableFailed
    ensures logged && whole && ok ==>
              replay.Recovered() == AllEntries(batches[..k]) && replay.maxSequence == Reached(start, batches[..k])
    ensures logged && whole && ok && !reused ==> Flatten(replay.tables) == AllEntries(batches[..k])
    ensures logged && whole && ok && reused ==> reuse && replay.mem != null && replay.mem.entries == AllEntries(batches[..k])
    ensures logged && whole && survived >= |EmitAll(crc, 0, Encoded(batches))| ==> k == |batches|
  {
    hide ReadFrom, EmitAll, LogTheorems.Whole, AllGood, AllInserted, AllEntries, MaxSequence, Reached;
    k, replay, ok, reused := 0, null, false, false;
    var file;
    logged, file, whole := LogAll(crc, batches);
    if !logged { return; }
    var m := if survived < |file.contents| then survived else |file.contents|;
    if whole {
      k := CrashPrefixRecovery(crc, batches, m, start);
    }
    ok, reused, replay := RecoverLogFile(crc, file.contents[..m], paranoid, reuse, start);
  }
}
