/** Reading a log back (db/log_reader.cc). */
module LogReader {
  import opened Wrappers
  import opened UserKeys
  import opened Coding
  import opened LogFormat
  import opened LogReading

  class Reader {
    const crc: Checksum
    const file: bytes
    const initialOffset: nat
    var buffer: bytes
    var eof: bool               // the last read returned less than a block
    var lastRecordOffset: nat
    var endOfBufferOffset: nat  // also where the next read of the file starts
    var resyncing: bool
    var drops: nat              // how often the reporter has been called

    ghost predicate Valid()
      reads this`buffer, this`eof, this`endOfBufferOffset
    {
      && |buffer| <= endOfBufferOffset
      && (buffer != [] ==> endOfBufferOffset <= |file| && buffer == file[endOfBufferOffset - |buffer|..endOfBufferOffset])
      && (!eof ==> endOfBufferOffset % BLOCK == 0 && |buffer| <= BLOCK)
      && (eof ==> endOfBufferOffset >= |file|)
      && (eof && buffer != [] ==> endOfBufferOffset - |buffer| >= |file| - |file| % BLOCK)
    }

    /** Nothing has been read yet, or a record at or after the initial offset has been returned. */
    ghost predicate Ready()
      reads this
    {
      Valid() && (lastRecordOffset < initialOffset ==>
        endOfBufferOffset == 0 && !eof && lastRecordOffset == 0 && resyncing)
    }

    function Position(): nat
      reads this`buffer, this`endOfBufferOffset
    {
      if |buffer| <= endOfBufferOffset then endOfBufferOffset - |buffer| else 0
    }

    /** Everything still to come. */
    ghost function Rest(): Outcome
      requires Valid()
      reads this
    {
      Read(crc, file, initialOffset,
           if lastRecordOffset < initialOffset then InitialBlock(initialOffset) else Position(), resyncing, None)
    }

    constructor (crc: Checksum, file: bytes, initialOffset: nat)
      ensures this.crc == crc && this.file == file && this.initialOffset == initialOffset
      ensures Ready() && Rest() == ReadFrom(crc, file, initialOffset) && drops == 0
    {
      this.crc, this.file, this.initialOffset := crc, file, initialOffset;
      buffer, eof, lastRecordOffset, endOfBufferOffset, resyncing, drops := [], false, 0, 0, initialOffset > 0, 0;
    }

    method SkipToInitialBlock() returns (ok: bool)
      requires Ready() && lastRecordOffset < initialOffset
      modifies this`endOfBufferOffset, this`drops
      ensures Valid() && Position() == InitialBlock(initialOffset) && drops >= old(drops)
      ensures ok ==> drops == old(drops)
      ensures !ok ==> InitialBlock(initialOffset) > |file|
    {
      var offsetInBlock := initialOffset % BLOCK;
      var blockStart := initialOffset - offsetInBlock;
      if offsetInBlock > BLOCK - 6 {
        blockStart := blockStart + BLOCK;
      }
      endOfBufferOffset := blockStart;
      ok := true;
      if blockStart > |file| {
        ok := *;  // skipping past the end of the file may or may not be an error
        if !ok {
          ReportDrop(blockStart);
        }
      }
    }

    lemma NothingBeyond()
      requires InitialBlock(initialOffset) > |file|
      ensures forall r :: Read(crc, file, initialOffset, InitialBlock(initialOffset), r, None).records == []
    {
    }

    method ReportDrop(dropped: nat)
      requires Valid()
      modifies this`drops
      ensures drops == old(drops) + Report(initialOffset, Position(), dropped)
    {
      hide FullBlock;
      if endOfBufferOffset - |buffer| - dropped >= initialOffset {
        drops := drops + 1;
      }
    }

    /** What is in the buffer is the rest of its block, and eof tells whether that block is whole. */
    lemma Window()
      requires Valid() && buffer != []
      ensures Position() < |file| && BlockEnd(file, Position()) == endOfBufferOffset
      ensures FullBlock(file, Position()) == !eof
    {
    }

    /** A short buffer in a whole block is its trailer: reading goes on behind it. */
    lemma TrailerSkipped()
      requires Valid() && |buffer| < HEADER && !eof
      ensures Meet(crc, file, initialOffset, Position()) == Meet(crc, file, initialOffset, endOfBufferOffset)
    {
      hide FullBlock, BlockEnd;
      if buffer != [] {
        Window();
      }
    }

    lemma NothingLeft()
      requires Valid() && |buffer| < HEADER && eof
      ensures Meet(crc, file, initialOffset, Position()).AtEnd?
    {
      hide FullBlock, BlockEnd;
      if buffer != [] {
        Window();
      }
    }

    /** The physical record at the front of the buffer. */
    lemma HeaderInBuffer()
      requires Valid() && |buffer| >= HEADER
      ensures var p, n := Position(), Length(buffer);
              Meet(crc, file, initialOffset, p) ==
              if HEADER + n > |buffer| then if eof then AtEnd else Skipped(endOfBufferOffset, Some(|buffer|))
              else if buffer[6] == ZERO && n == 0 then Skipped(endOfBufferOffset, None)
              else if FromFixed(buffer[..4]) != crc(buffer[6..HEADER + n]) then Skipped(endOfBufferOffset, Some(|buffer|))
              else if p < initialOffset then Skipped(p + HEADER + n, None)
              else Item(buffer[6], buffer[HEADER..HEADER + n], p, p + HEADER + n)
      ensures Position() + |buffer| == endOfBufferOffset
    {
      hide FullBlock, BlockEnd, FromFixed;
      Window();
      var p, n := Position(), Length(buffer);
      assert file[p..p + HEADER][4] == buffer[4] && file[p..p + HEADER][5] == buffer[5];
      assert LengthAt(file, p) == n;
      SliceOfSlice(file, p, endOfBufferOffset, 0, 4);
      if HEADER + n <= |buffer| {
        SliceOfSlice(file, p, endOfBufferOffset, 6, HEADER + n);
        SliceOfSlice(file, p, endOfBufferOffset, HEADER, HEADER + n);
      }
    }

    /** Reads the next block, or what there is of it. */
    method Refill()
      requires Valid() && !eof
      modifies this`buffer, this`eof, this`endOfBufferOffset
      ensures Valid() && Position() == old(endOfBufferOffset)
      ensures eof || endOfBufferOffset == old(endOfBufferOffset) + BLOCK <= |file|
    {
      var start := endOfBufferOffset;
      var n := if start >= |file| then 0 else Min(BLOCK, |file| - start);
      buffer := if n == 0 then [] else file[start..start + n];
      endOfBufferOffset := start + n;
      if n < BLOCK {
        eof := true;
      }
    }

    /** Returns the next physical record, or BAD_RECORD or EOF. */
    method ReadPhysicalRecord() returns (kind: byte, data: bytes)
      requires Valid()
      modifies this`buffer, this`eof, this`endOfBufferOffset, this`drops
      ensures Valid()
      ensures var m := Meet(crc, file, initialOffset, old(Position()));
              && drops == old(drops) + DropReport(initialOffset, m)
              && (m.AtEnd? ==> kind == EOF)
              && (m.Skipped? ==> kind == BAD_RECORD && Position() == m.next)
              && (m.Item? ==> kind == m.kind && data == m.data && Position() == m.next)
    {
      hide FullBlock, BlockEnd, FromFixed, Meet, Length, Valid;
      data := [];
      while true
        invariant Valid() && drops == old(drops)
        invariant Meet(crc, file, initialOffset, Position()) == Meet(crc, file, initialOffset, old(Position()))
        decreases !eof, |file| - endOfBufferOffset
      {
        if |buffer| < HEADER {
          if !eof {
            TrailerSkipped();
            Refill();
            continue;
          } else {
            NothingLeft();
            ClearBuffer();
            return EOF, data;
          }
        }
        HeaderInBuffer();
        var length := Length(buffer);
        var kind_ := buffer[6];
        if HEADER + length > |buffer| {
          var dropSize := |buffer|;
          ClearBuffer();
          if !eof {
            ReportDrop(dropSize);
            return BAD_RECORD, data;
          }
          return EOF, data;
        }
        if kind_ == ZERO && length == 0 {
          ClearBuffer();
          return BAD_RECORD, data;
        }
        if FromFixed(buffer[..4]) != crc(buffer[6..HEADER + length]) {
          var dropSize := |buffer|;
          ClearBuffer();
          ReportDrop(dropSize);
          return BAD_RECORD, data;
        }
        var payload := buffer[HEADER..HEADER + length];
        Consume(HEADER + length);
        if endOfBufferOffset - |buffer| - HEADER - length < initialOffset {
          return BAD_RECORD, data;
        }
        return kind_, payload;
      }
    }

    method ClearBuffer()
      requires Valid()
      modifies this`buffer
      ensures Valid() && buffer == [] && Position() == endOfBufferOffset
    {
      hide FullBlock;
      buffer := [];
    }

    /** Drops n bytes from the front of the buffer. */
    method Consume(n: nat)
      requires Valid() && n <= |buffer|
      modifies this`buffer
      ensures Valid() && Position() == old(Position()) + n && Position() + |buffer| == endOfBufferOffset
    {
      buffer := buffer[n..];
    }

    static ghost function Partial(inFragmentedRecord: bool, offset: nat, scratch: bytes): Option<Record> {
      if inFragmentedRecord then Some(Record(offset, scratch)) else None
    }

    /** Everything still to come, in the middle of a record. */
    ghost function RestOf(partial: Option<Record>): Outcome
      requires Valid()
      reads this`buffer, this`eof, this`endOfBufferOffset, this`resyncing
    {
      Read(crc, file, initialOffset, Position(), resyncing, partial)
    }

    /** Returns the next record; false at the end of what can be read. */
    method ReadRecord() returns (got: bool, record: bytes)
      requires Ready()
      modifies this
      ensures Valid() && drops >= old(drops)
      ensures got ==>
                && Ready()
                && old(Rest()).records == [Record(lastRecordOffset, record)] + Rest().records
                && old(drops) + old(Rest()).drops == drops + Rest().drops
      ensures !got ==> old(Rest()).records == []
      ensures !got && initialOffset == 0 ==> drops == old(drops) + old(Rest()).drops
    {
      hide Meet, Read, StepOn, Valid, InitialBlock, Report, DropReport;
      record := [];
      ghost var goal, told := Rest(), drops;
      if lastRecordOffset < initialOffset {
        var ok := SkipToInitialBlock();
        if !ok {
          NothingBeyond();
          return false, [];
        }
      }
      var scratch: bytes := [];
      var inFragmentedRecord := false;
      var prospectiveOffset: nat := 0;
      while true
        invariant Valid() && drops >= old(drops) && (inFragmentedRecord ==> prospectiveOffset >= initialOffset)
        invariant !inFragmentedRecord ==> scratch == []
        invariant goal.records == RestOf(Partial(inFragmentedRecord, prospectiveOffset, scratch)).records
        invariant told + goal.drops == drops + RestOf(Partial(inFragmentedRecord, prospectiveOffset, scratch)).drops
        decreases |file| - Position()
      {
        var end;
        end, got, inFragmentedRecord, scratch, prospectiveOffset :=
          NextFragment(inFragmentedRecord, scratch, prospectiveOffset);
        if end { return false, []; }
        if got {
          lastRecordOffset := prospectiveOffset;
          record := scratch;
          return true, record;
        }
      }
    }

    /** One pass of the loop: reads a physical record and acts on it. */
    method NextFragment(wasInFragmentedRecord: bool, oldScratch: bytes, oldOffset: nat)
      returns (end: bool, got: bool, inFragmentedRecord: bool, scratch: bytes, prospectiveOffset: nat)
      requires Valid() && (wasInFragmentedRecord ==> oldOffset >= initialOffset)
      requires !wasInFragmentedRecord ==> oldScratch == []
      modifies this`buffer, this`eof, this`endOfBufferOffset, this`drops, this`resyncing
      ensures Valid() && (inFragmentedRecord || got ==> prospectiveOffset >= initialOffset)
      ensures !inFragmentedRecord && !got ==> scratch == []
      ensures drops >= old(drops)
      ensures end ==> old(RestOf(Partial(wasInFragmentedRecord, oldOffset, oldScratch))) == Outcome([], 0)
                      && drops == old(drops)
      ensures got ==> !inFragmentedRecord
      ensures !end ==> Position() > old(Position()) && |file| > old(Position())
      ensures var before := old(RestOf(Partial(wasInFragmentedRecord, oldOffset, oldScratch)));
              var after := RestOf(Partial(inFragmentedRecord, prospectiveOffset, scratch));
              !end ==> before.records == (if got then [Record(prospectiveOffset, scratch)] else []) + after.records
                       && old(drops) + before.drops == drops + after.drops
    {
      hide Meet, Read, StepOn, Valid, Report;
      ghost var m := Meet(crc, file, initialOffset, Position());
      ReadUnfold(crc, file, initialOffset, Position(), resyncing,
                 Partial(wasInFragmentedRecord, oldOffset, oldScratch));
      var kind, fragment := ReadPhysicalRecord();
      var drop;
      resyncing, inFragmentedRecord, scratch, prospectiveOffset, drop, got :=
        Dispatch(initialOffset, m, kind, fragment, endOfBufferOffset - |buffer| - HEADER - |fragment|,
                 resyncing, wasInFragmentedRecord, oldScratch, oldOffset);
      if drop.Some? {
        ReportDrop(drop.value);
      }
      end := kind == EOF;
    }

    /**
     * What to do with one physical record: the new state, how many bytes to report as dropped, and whether
     * scratch now holds a whole record.
     */
    static method Dispatch(initialOffset: nat, ghost m: Met, kind: byte, fragment: bytes, physicalOffset: int,
                    wasResyncing: bool, wasInFragmentedRecord: bool, oldScratch: bytes, oldOffset: nat)
      returns (resyncing: bool, inFragmentedRecord: bool, scratch: bytes, prospectiveOffset: nat,
               drop: Option<nat>, got: bool)
      requires m.AtEnd? ==> kind == EOF
      requires m.Skipped? ==> kind == BAD_RECORD
      requires m.Item? ==> kind == m.kind && fragment == m.data && physicalOffset == m.start >= initialOffset
      requires wasInFragmentedRecord ==> oldOffset >= initialOffset
      requires !wasInFragmentedRecord ==> oldScratch == []
      ensures !inFragmentedRecord && !got ==> scratch == []
      ensures inFragmentedRecord || got ==> prospectiveOffset >= initialOffset
      ensures var step := StepOn(initialOffset, m, wasResyncing, Partial(wasInFragmentedRecord, oldOffset, oldScratch));
              && (step.Stop? <==> kind == EOF)
              && (step.Stop? ==> !got && drop == None)
              && (step.Go? ==>
                    && resyncing == step.resyncing
                    && Partial(inFragmentedRecord, prospectiveOffset, scratch) == step.partial
                    && step.record == (if got then [Record(prospectiveOffset, scratch)] else [])
                    && (got ==> !inFragmentedRecord)
                    && step.drop == DropReport(initialOffset, m) + ReportIf(initialOffset, m.next, drop))
    {
      inFragmentedRecord, scratch, prospectiveOffset := wasInFragmentedRecord, oldScratch, oldOffset;
      resyncing, drop, got := wasResyncing, None, false;
      if resyncing {
        if kind == MIDDLE {
          return;
        } else if kind == LAST {
          resyncing := false;
          return;
        } else {
          resyncing := false;
        }
      }
      if kind == FULL {
        if inFragmentedRecord && scratch != [] {
          drop := Some(|scratch|);
        }
        prospectiveOffset := physicalOffset;
        inFragmentedRecord, scratch := false, fragment;
        got := true;
      } else if kind == FIRST {
        if inFragmentedRecord && scratch != [] {
          drop := Some(|scratch|);
        }
        prospectiveOffset := physicalOffset;
        scratch := fragment;
        inFragmentedRecord := true;
      } else if kind == MIDDLE {
        if !inFragmentedRecord {
          drop := Some(|fragment|);
        } else {
          scratch := scratch + fragment;
        }
      } else if kind == LAST {
        if !inFragmentedRecord {
          drop := Some(|fragment|);
        } else {
          scratch := scratch + fragment;
          inFragmentedRecord := false;
          got := true;
        }
      } else if kind == EOF {
        // the caller returns; an unfinished record is given up without a report
        inFragmentedRecord, scratch := false, [];
      } else if kind == BAD_RECORD {
        if inFragmentedRecord {
          drop := Some(|scratch|);
          inFragmentedRecord := false;
          scratch := [];
        }
      } else {
        drop := Some(|fragment| + (if inFragmentedRecord then |scratch| else 0));
        inFragmentedRecord := false;
        scratch := [];
      }
    }
  }
}
