/** Appending records to a log (db/log_writer.cc). */
module LogWriter {
  import opened UserKeys
  import opened Coding
  import opened LogFormat

  /** An append-only file whose writes may fail part of the way through. */
  class WritableFile {
    var contents: bytes
    ghost var failures: nat      // calls that did not return ok

    constructor (contents: bytes)
      ensures this.contents == contents && failures == 0
    {
      this.contents, failures := contents, 0;
    }

    method Append(data: bytes) returns (ok: bool)
      modifies this
      ensures failures == old(failures) + (if ok then 0 else 1)
      ensures ok ==> contents == old(contents) + data
      ensures !ok ==> old(contents) <= contents <= old(contents) + data
    {
      ok := *;
      var k: int := *;
      k := if ok then |data| else if 0 <= k <= |data| then k else 0;
      contents := contents + data[..k];
      failures := failures + (if ok then 0 else 1);
    }

    method Flush() returns (ok: bool)
      modifies this`failures
      ensures failures == old(failures) + (if ok then 0 else 1)
    {
      ok := *;
      failures := failures + (if ok then 0 else 1);
    }
  }

  class Writer {
    const crc: Checksum
    const dest: WritableFile
    var blockOffset: nat
    ghost var intended: bytes    // what the file should hold by now
    ghost var lostTrailers: nat  // how often the zeros of a trailer did not all reach the file

    /**
     * The writer goes by what it meant to write. As an append of trailer zeros may fail unnoticed, the file may be
     * shorter than that; unless that happened, it is the same.
     */
    ghost predicate Valid()
      reads this, dest
    {
      && blockOffset <= BLOCK && blockOffset % BLOCK == |intended| % BLOCK
      && if lostTrailers == 0 then dest.contents == intended else |dest.contents| < |intended|
    }

    /** Covers both constructors: a fresh file has length zero. */
    constructor (crc: Checksum, dest: WritableFile)
      ensures Valid() && this.crc == crc && this.dest == dest && intended == dest.contents && lostTrailers == 0
    {
      this.crc, this.dest := crc, dest;
      blockOffset := |dest.contents| % BLOCK;
      intended, lostTrailers := dest.contents, 0;
    }

    /**
     * Appends one record, cut into fragments so that none crosses a block boundary. A failed append of a fragment
     * leaves a torn tail: some prefix of the record's bytes. A failed append of a trailer goes unnoticed. Nothing but
     * a failed call on the file makes it fail, or lose a trailer.
     */
    method AddRecord(slice: bytes) returns (ok: bool)
      requires Valid()
      modifies this`blockOffset, this`intended, this`lostTrailers, dest
      ensures ok ==> Valid() && intended == old(intended) + Emit(crc, |old(intended)|, slice, true)
      ensures old(dest.contents) <= dest.contents && old(lostTrailers) <= lostTrailers
      ensures !ok && lostTrailers == 0 ==> dest.contents <= old(intended) + Emit(crc, |old(intended)|, slice, true)
      ensures FailedFor(!ok, old(dest.failures), old(lostTrailers))
    {
      hide Emit, FragmentRecord;
      var rest := slice;
      var begin := true;
      ghost var goal := intended + Emit(crc, |intended|, slice, true);
      while true
        invariant Valid() && old(dest.contents) <= dest.contents && old(lostTrailers) <= lostTrailers
        invariant FailedFor(false, old(dest.failures), old(lostTrailers))
        invariant intended + Emit(crc, |intended|, rest, begin) == goal
        decreases |rest|, BLOCK - RecordStart(|intended|) % BLOCK == HEADER
      {
        EmitStep(crc, intended, rest, begin);
        var fragmentLength;
        ok, fragmentLength := AddFragment(rest, begin);
        if !ok { return; }
        rest := rest[fragmentLength..];
        begin := false;
        if |rest| == 0 { break; }
      }
    }

    /** One pass of the loop: as much of the record as the current block takes. */
    method AddFragment(rest: bytes, begin: bool) returns (ok: bool, fragmentLength: nat)
      requires Valid()
      modifies this`blockOffset, this`intended, this`lostTrailers, dest
      ensures old(dest.contents) <= dest.contents && old(lostTrailers) <= lostTrailers
      ensures var was := old(intended);
              var q := RecordStart(|was|);
              && intended == was + Zeros(q - |was|) + FragmentRecord(crc, q, rest, begin)
              && (ok ==> Valid() && fragmentLength == FragmentLength(q, rest))
              && (!ok && lostTrailers == 0 ==> dest.contents <= intended)
      ensures FailedFor(!ok, old(dest.failures), old(lostTrailers))
    {
      hide Physical;
      FillTrailer();
      var avail := BLOCK - blockOffset - HEADER;
      fragmentLength := if |rest| < avail then |rest| else avail;
      var end := |rest| == fragmentLength;
      var kind := if begin && end then FULL else if begin then FIRST else if end then LAST else MIDDLE;
      ok := EmitPhysicalRecord(kind, rest[..fragmentLength]);
    }

    /** Each failure, and each trailer lost, since the counts were these is that of another call on the file. */
    ghost predicate FailedFor(failed: bool, failures: nat, trailers: nat)
      reads this, dest
    {
      dest.failures + trailers >= failures + lostTrailers + (if failed then 1 else 0)
    }

    /** Moves to a new block when the current one has no room for a header. */
    method FillTrailer()
      requires Valid()
      modifies this`blockOffset, this`intended, this`lostTrailers, dest
      ensures Valid() && blockOffset + HEADER <= BLOCK && blockOffset == |intended| % BLOCK
      ensures intended == old(intended) + Zeros(RecordStart(|old(intended)|) - |old(intended)|)
      ensures old(dest.contents) <= dest.contents && old(lostTrailers) <= lostTrailers
      ensures FailedFor(false, old(dest.failures), old(lostTrailers))
    {
      var leftover := BLOCK - blockOffset;
      if leftover < HEADER {
        if leftover > 0 {
          ghost var before := |dest.contents|;
          var _ := dest.Append(Zeros(leftover));
          if |dest.contents| < before + leftover {
            lostTrailers := lostTrailers + 1;
          }
        }
        blockOffset := 0;
      }
      intended := intended + Zeros(RecordStart(|intended|) - |intended|);
    }

    method AppendBoth(header: bytes, data: bytes) returns (ok: bool)
      modifies dest
      ensures ok ==> dest.contents == old(dest.contents) + (header + data)
      ensures !ok ==> old(dest.contents) <= dest.contents <= old(dest.contents) + (header + data)
      ensures dest.failures == old(dest.failures) + (if ok then 0 else 1)
    {
      ok := dest.Append(header);
      if !ok { return; }
      ok := dest.Append(data);
      if !ok { return; }
      ok := dest.Flush();
    }

    method EmitPhysicalRecord(kind: byte, data: bytes) returns (ok: bool)
      requires Valid() && blockOffset + HEADER + |data| <= BLOCK && blockOffset == |intended| % BLOCK
      modifies this`blockOffset, this`intended, dest
      ensures intended == old(intended) + Physical(crc, kind, data)
      ensures ok ==> Valid() && dest.contents == old(dest.contents) + Physical(crc, kind, data)
      ensures !ok ==> old(dest.contents) <= dest.contents <= old(dest.contents) + Physical(crc, kind, data)
      ensures dest.failures == old(dest.failures) + (if ok then 0 else 1)
    {
      hide Fixed;
      OffsetAdd(|intended|, HEADER + |data|);
      var header := Fixed(4, crc([kind] + data)) + [|data| % 256, |data| / 256, kind];
      assert Physical(crc, kind, data) == header + data;
      ok := AppendBoth(header, data);
      blockOffset := blockOffset + HEADER + |data|;
      intended := intended + Physical(crc, kind, data);
    }
  }
}
