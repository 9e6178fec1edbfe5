/** What reading a log file means: the physical records met from a position on, and the records put together. */
module LogReading {
  import opened Wrappers
  import opened UserKeys
  import opened Coding
  import opened LogFormat

  /** The block holding position p ends inside the file, so reading it is not the last read. */
  predicate FullBlock(file: bytes, p: nat) {
    p / BLOCK * BLOCK + BLOCK <= |file|
  }

  function BlockEnd(file: bytes, p: nat): (e: nat)
    requires p <= |file|
    ensures p <= e <= |file|
    ensures FullBlock(file, p) ==> p < e && e % BLOCK == 0 && e - p <= BLOCK
    ensures !FullBlock(file, p) ==> e == |file|
  {
    if FullBlock(file, p) then p / BLOCK * BLOCK + BLOCK else |file|
  }

  /** The payload length in the header of a physical record. */
  function Length(record: bytes): nat
    requires |record| >= HEADER
  {
    var low: nat, high: nat := record[4], record[5];
    low + 256 * high
  }

  function LengthAt(file: bytes, p: nat): nat
    requires p + HEADER <= |file|
  {
    Length(file[p..p + HEADER])
  }

  /** The record at p lies inside its block, is not a preallocated gap, and its checksum matches. */
  predicate Intact(crc: Checksum, file: bytes, p: nat)
    requires p <= |file|
  {
    && p + HEADER <= BlockEnd(file, p)
    && var n := LengthAt(file, p);
    && p + HEADER + n <= BlockEnd(file, p)
    && (file[p + 6] != ZERO || n != 0)
    && FromFixed(file[p..p + 4]) == crc(file[p + 6..p + HEADER + n])
  }

  /** One result of ReadPhysicalRecord, with the position it leaves the reader at. */
  datatype Met =
    | AtEnd
    | Skipped(next: nat, dropped: Option<nat>)  // a bad record, and how many bytes are reported as dropped
    | Item(kind: byte, data: bytes, start: nat, next: nat)

  function Meet(crc: Checksum, file: bytes, initial: nat, p: nat): (m: Met)
    ensures m.Skipped? ==> p < m.next <= |file|
    ensures m.Item? ==> p < m.next <= |file| && initial <= m.start && p <= m.start
                        && m.next == m.start + HEADER + |m.data|
    decreases |file| - p
  {
    if p >= |file| then AtEnd
    else
      var e := BlockEnd(file, p);
      if e - p < HEADER then
        if FullBlock(file, p) then Meet(crc, file, initial, e) else AtEnd
      else
        var n, kind := LengthAt(file, p), file[p + 6];
        if p + HEADER + n > e then
          if FullBlock(file, p) then Skipped(e, Some(e - p)) else AtEnd
        else if kind == ZERO && n == 0 then Skipped(e, None)
        else if !Intact(crc, file, p) then Skipped(e, Some(e - p))
        else if p < initial then Skipped(p + HEADER + n, None)
        else Item(kind, file[p + HEADER..p + HEADER + n], p, p + HEADER + n)
  }

  /** A record put together from its fragments, with the position of the first one. */
  datatype Record = Record(offset: nat, data: bytes)

  /** Everything a reader returns up to its first false, and how often it reports a drop on the way. */
  datatype Outcome = Outcome(records: seq<Record>, drops: nat) {
    function After(record: seq<Record>, drop: nat): Outcome {
      Outcome(record + records, drop + drops)
    }
  }

  /** How often ReportDrop at position p reports: drops from before the initial offset are not reported. */
  function Report(initial: nat, p: nat, dropped: nat): nat {
    if p - dropped >= initial then 1 else 0
  }

  function ReportIf(initial: nat, p: nat, dropped: Option<nat>): nat {
    match dropped
    case None => 0
    case Some(n) => Report(initial, p, n)
  }

  function DropReport(initial: nat, m: Met): nat {
    if m.Skipped? then ReportIf(initial, m.next, m.dropped) else 0
  }

  /** The report made when a fragmented record is given up: not made for an empty one met by a new start. */
  function GiveUp(initial: nat, p: nat, partial: Option<Record>, evenEmpty: bool): nat {
    if partial.Some? && (evenEmpty || partial.value.data != []) then Report(initial, p, |partial.value.data|) else 0
  }

  /** What ReadRecord does with one physical record: stop, or go on in a new state with something to show for it. */
  datatype Step = Stop | Go(resyncing: bool, partial: Option<Record>, record: seq<Record>, drop: nat)

  function StepOn(initial: nat, m: Met, resyncing: bool, partial: Option<Record>): (s: Step)
    ensures m.AtEnd? ==> s.Stop?
    ensures s.Go? && s.record != [] ==> s.partial == None && !s.resyncing
  {
    match m
    case AtEnd => Stop
    case Skipped(next, _) => Go(false, None, [], DropReport(initial, m) + GiveUp(initial, next, partial, true))
    case Item(kind, data, start, next) =>
      if resyncing && kind == MIDDLE then Go(true, partial, [], 0)
      else if resyncing && kind == LAST then Go(false, partial, [], 0)
      else if kind == FULL then Go(false, None, [Record(start, data)], GiveUp(initial, next, partial, false))
      else if kind == FIRST then Go(false, Some(Record(start, data)), [], GiveUp(initial, next, partial, false))
      else if kind == MIDDLE && partial == None then Go(false, None, [], Report(initial, next, |data|))
      else if kind == MIDDLE then Go(false, Some(Record(partial.value.offset, partial.value.data + data)), [], 0)
      else if kind == LAST && partial == None then Go(false, None, [], Report(initial, next, |data|))
      else if kind == LAST then Go(false, None, [Record(partial.value.offset, partial.value.data + data)], 0)
      else if kind == EOF then Stop
      else if kind == BAD_RECORD then Go(false, None, [], GiveUp(initial, next, partial, true))
      else Go(false, None, [], Report(initial, next, |data| + (if partial.Some? then |partial.value.data| else 0)))
  }

  /** ReadRecord over and over, from position p, with the fragments of an unfinished record gathered so far. */
  function Read(crc: Checksum, file: bytes, initial: nat, p: nat, resyncing: bool, partial: Option<Record>): Outcome
    decreases |file| - p
  {
    var m := Meet(crc, file, initial, p);
    match StepOn(initial, m, resyncing, partial)
    case Stop => Outcome([], 0)
    case Go(r, partial', record, drop) => Read(crc, file, initial, m.next, r, partial').After(record, drop)
  }

  lemma ReadUnfold(crc: Checksum, file: bytes, initial: nat, p: nat, resyncing: bool, partial: Option<Record>)
    ensures var m := Meet(crc, file, initial, p);
            var step := StepOn(initial, m, resyncing, partial);
            Read(crc, file, initial, p, resyncing, partial)
            == if step.Stop? then Outcome([], 0)
               else Read(crc, file, initial, m.next, step.resyncing, step.partial).After(step.record, step.drop)
  {
  }

  /**
   * What is reported on the way: a record whose length leads past the end of its whole block, and one inside whose
   * checksum does not match; not what preallocation left as zeros, not what a file that ends early cuts off, and
   * nothing that lies before the initial offset. Of the good records those from the initial offset on are read.
   */
  lemma DamageIsReported(crc: Checksum, file: bytes, initial: nat, p: nat, resyncing: bool, partial: Option<Record>)
    requires p <= |file| && p + 7 <= BlockEnd(file, p)
    ensures var n, e := LengthAt(file, p), BlockEnd(file, p);
            var m := Meet(crc, file, initial, p);
            var overlong := p + 7 + n > e;
            var zeros := !overlong && file[p + 6] == 0 && n == 0;
            var mismatch := !overlong && !zeros && FromFixed(file[p..p + 4]) != crc(file[p + 6..p + 7 + n]);
            var good := !overlong && !zeros && !mismatch;
            && (m.AtEnd? <==> overlong && !FullBlock(file, p))
            && (m.Skipped? && m.dropped.Some? <==> (overlong && FullBlock(file, p)) || mismatch)
            && (m.Skipped? && m.dropped.None? <==> zeros || (good && p < initial))
            && (m.Item? <==> good && p >= initial)
            && (m.Skipped? ==> m.next == if good then p + 7 + n else e)
            && (m.Item? ==> m == Item(file[p + 6], file[p + 7..p + 7 + n], p, p + 7 + n))
            && (m.Skipped? ==> DropReport(initial, m) == if m.dropped.Some? && p >= initial then 1 else 0)
            && (m.Skipped? && m.dropped.Some? && p >= initial ==> Read(crc, file, initial, p, resyncing, partial).drops > 0)
  {
    hide Read, FromFixed;
    ReadUnfold(crc, file, initial, p, resyncing, partial);
  }

  /**
   * What fragments do, by kind (1 whole, 2 first, 3 middle, 4 last): a record left unfinished and a fragment without a
   * start are reported, and so is an unknown kind; right after an offset inside a record its other fragments are not.
   */
  lemma LostFragmentsAreReported(kind: byte, data: bytes, start: nat, next: nat, partial: Option<Record>)
    requires next == start + 7 + |data| && (partial.Some? ==> partial.value.data != [] && partial.value.offset + |partial.value.data| <= start)
    ensures var m, none := Item(kind, data, start, next), Record(start, data);
            var joined := if partial.Some? then Record(partial.value.offset, partial.value.data + data) else none;
            var lost := if partial.Some? then 1 else 0;
            && (kind == 1 ==> StepOn(0, m, false, partial) == Go(false, None, [none], lost))
            && (kind == 2 ==> StepOn(0, m, false, partial) == Go(false, Some(none), [], lost))
            && (kind == 3 ==> StepOn(0, m, false, partial) == if partial.None? then Go(false, None, [], 1) else Go(false, Some(joined), [], 0))
            && (kind == 4 ==> StepOn(0, m, false, partial) == if partial.None? then Go(false, None, [], 1) else Go(false, None, [joined], 0))
            && (kind > 6 || kind == 0 ==> StepOn(0, m, false, partial) == Go(false, None, [], 1))
            && (kind == 3 ==> StepOn(0, m, true, partial) == Go(true, partial, [], 0))
            && (kind == 4 ==> StepOn(0, m, true, partial) == Go(false, partial, [], 0))
  {
  }

  /** Where SkipToInitialBlock starts: the block of the initial offset, or the next one from its trailer. */
  function InitialBlock(initial: nat): nat {
    var offset := initial % BLOCK;
    if offset > BLOCK - 6 then initial - offset + BLOCK else initial - offset
  }

  function ReadFrom(crc: Checksum, file: bytes, initial: nat): Outcome {
    Read(crc, file, initial, InitialBlock(initial), initial > 0, None)
  }
}
