/** What a log reader gets back: from a log cut anywhere, from a damaged log, and from a given offset. */
module LogTheorems {
  import opened Wrappers
  import opened UserKeys
  import opened Coding
  import opened LogFormat
  import opened LogReading

  // ----- One physical record -----

  /** The file holds this physical record at q. */
  ghost predicate Holds(crc: Checksum, file: bytes, q: nat, kind: byte, data: bytes) {
    && |data| <= 0xffff
    && q + HEADER + |data| <= |file|
    && file[q..q + HEADER + |data|] == Physical(crc, kind, data)
  }

  lemma HeldHeader(crc: Checksum, file: bytes, q: nat, kind: byte, data: bytes)
    requires Holds(crc, file, q, kind, data)
    ensures LengthAt(file, q) == |data| && file[q + 6] == kind
    ensures FromFixed(file[q..q + 4]) == crc(file[q + 6..q + HEADER + |data|])
    ensures file[q + HEADER..q + HEADER + |data|] == data
  {
    hide Fixed, FromFixed;
    var r, n := Physical(crc, kind, data), |data|;
    var held := file[q..q + HEADER + n];
    assert held == r && r[4] == n % 256 && r[5] == n / 256 && r[6] == kind;
    assert held[4] == file[q + 4] && held[5] == file[q + 5] && held[6] == file[q + 6];
    assert held[..4] == file[q..q + 4] && r[..4] == Fixed(4, crc([kind] + data));
    assert held[6..] == file[q + 6..q + HEADER + n] && r[6..] == [kind] + data;
    assert held[HEADER..] == file[q + HEADER..q + HEADER + n] && r[HEADER..] == data;
    Widths();
    FixedRoundTrip(4, crc([kind] + data));
  }

  /** A reader at q meets exactly the physical record held there, unless it starts before the initial offset. */
  lemma MeetHeld(crc: Checksum, file: bytes, initial: nat, q: nat, kind: byte, data: bytes)
    requires Holds(crc, file, q, kind, data) && q % BLOCK + HEADER + |data| <= BLOCK && kind != ZERO
    ensures Intact(crc, file, q)
    ensures Meet(crc, file, initial, q) ==
            if q < initial then Skipped(q + HEADER + |data|, None) else Item(kind, data, q, q + HEADER + |data|)
  {
    hide Fixed, FromFixed, Length;
    HeldHeader(crc, file, q, kind, data);
    assert q + HEADER + |data| <= BlockEnd(file, q);
  }

  /** Before the start of the next record there is at most a block trailer, which reading passes over. */
  lemma MeetTrailer(crc: Checksum, file: bytes, initial: nat, p: nat)
    requires RecordStart(p) < |file|
    ensures Meet(crc, file, initial, p) == Meet(crc, file, initial, RecordStart(p))
  {
    hide Intact;
    if RecordStart(p) != p {
      assert FullBlock(file, p) && BlockEnd(file, p) == RecordStart(p);
    }
  }

  function Piece(q: nat, data: bytes): (r: bytes)
    requires q % BLOCK + HEADER <= BLOCK
    ensures |r| <= 0xffff && q % BLOCK + HEADER + |r| <= BLOCK
  {
    data[..FragmentLength(q, data)]
  }

  function Kind(q: nat, data: bytes, begin: bool): (k: byte)
    requires q % BLOCK + HEADER <= BLOCK
    ensures k != ZERO
  {
    FragmentKind(begin, FragmentLength(q, data) == |data|)
  }

  /** Where the fragment that starts at q ends. */
  function Next(q: nat, data: bytes): nat
    requires q % BLOCK + HEADER <= BLOCK
  {
    q + HEADER + FragmentLength(q, data)
  }

  /** The file holds, from p on, what AddRecord appends for what is left of a record. */
  ghost predicate HoldsEmitted(crc: Checksum, file: bytes, p: nat, data: bytes, begin: bool) {
    var e := p + |Emit(crc, p, data, begin)|;
    e <= |file| && file[p..e] == Emit(crc, p, data, begin)
  }

  /** Lengths and contents of an emitted record: its first fragment and what follows it. */
  lemma EmittedLength(crc: Checksum, p: nat, data: bytes, begin: bool)
    ensures var q := RecordStart(p);
            var n := FragmentLength(q, data);
            p + |Emit(crc, p, data, begin)| ==
            if n == |data| then Next(q, data) else Next(q, data) + |Emit(crc, Next(q, data), data[n..], false)|
  {
    hide Emit, EmitRest, FragmentRecord;
    EmitUnfold(crc, p, data, begin);
    EmitRestUnfold(crc, RecordStart(p), data);
  }

  lemma FirstFragmentHeld(crc: Checksum, file: bytes, p: nat, data: bytes, begin: bool)
    requires HoldsEmitted(crc, file, p, data, begin)
    ensures var q := RecordStart(p);
            var n := FragmentLength(q, data);
            && Holds(crc, file, q, Kind(q, data, begin), Piece(q, data))
            && (n < |data| ==> HoldsEmitted(crc, file, Next(q, data), data[n..], false))
  {
    hide Emit, EmitRest, Physical;
    var q, e := RecordStart(p), p + |Emit(crc, p, data, begin)|;
    EmitUnfold(crc, p, data, begin);
    EmitRestUnfold(crc, q, data);
    EmittedLength(crc, p, data, begin);
    var n := FragmentLength(q, data);
    SliceOfSlice(file, p, e, q - p, Next(q, data) - p);
    SliceOfSlice(file, p, e, Next(q, data) - p, e - p);
  }

  // ----- An undamaged log, whole or cut short -----

  /** The record gathered once the fragment that starts at q has been added. */
  function Gather(q: nat, piece: bytes, partial: Option<Record>): Record {
    match partial
    case None => Record(q, piece)
    case Some(r) => Record(r.offset, r.data + piece)
  }

  /** Reading one fragment of a record: its last one completes the record. */
  lemma FragmentReadBack(crc: Checksum, file: bytes, p: nat, data: bytes, partial: Option<Record>)
    requires var q := RecordStart(p);
             Holds(crc, file, q, Kind(q, data, partial.None?), Piece(q, data))
    ensures var q := RecordStart(p);
            var n, next := FragmentLength(q, data), Next(q, data);
            var gathered := Gather(q, Piece(q, data), partial);
            var rest := Read(crc, file, 0, next, false, if n == |data| then None else Some(gathered));
            var all := Read(crc, file, 0, p, false, partial);
            && all.drops == rest.drops
            && all.records == (if n == |data| then [gathered] else []) + rest.records
  {
    hide Read, Meet, Intact, Holds;
    var q := RecordStart(p);
    assert q < |file| by { HeldFits(crc, file, q, Kind(q, data, partial.None?), Piece(q, data)); }
    MeetTrailer(crc, file, 0, p);
    MeetHeld(crc, file, 0, q, Kind(q, data, partial.None?), Piece(q, data));
    ReadUnfold(crc, file, 0, p, false, partial);
  }

  lemma HeldFits(crc: Checksum, file: bytes, q: nat, kind: byte, data: bytes)
    requires Holds(crc, file, q, kind, data)
    ensures q + HEADER + |data| <= |file|
  {
  }

  /** A whole record in the file is read back, and nothing is reported. */
  lemma {:induction false} RecordReadBack(crc: Checksum, file: bytes, p: nat, data: bytes, begin: bool, partial: Option<Record>)
    requires HoldsEmitted(crc, file, p, data, begin) && begin == partial.None?
    ensures Read(crc, file, 0, p, false, partial) ==
            Read(crc, file, 0, p + |Emit(crc, p, data, begin)|, false, None).After(
              [Gather(RecordStart(p), data, partial)], 0)
    decreases |data|, BLOCK - RecordStart(p) % BLOCK == HEADER
  {
    hide Emit, Read, HoldsEmitted, Holds;
    var q := RecordStart(p);
    var n, next := FragmentLength(q, data), Next(q, data);
    FirstFragmentHeld(crc, file, p, data, begin);
    EmittedLength(crc, p, data, begin);
    FragmentReadBack(crc, file, p, data, partial);
    if n == |data| {
      assert Piece(q, data) == data;
    } else {
      var gathered := Gather(q, Piece(q, data), partial);
      RecordReadBack(crc, file, next, data[n..], false, Some(gathered));
      assert Piece(q, data) + data[n..] == data;
      assert gathered.data + data[n..] == Gather(q, data, partial).data;
    }
  }

  /** A file that ends inside a record: reading stops there without a report. */
  lemma {:induction false} TornRecord(crc: Checksum, file: bytes, p: nat, data: bytes, begin: bool, partial: Option<Record>)
    requires p <= |file| < p + |Emit(crc, p, data, begin)|
    requires file[p..] == Emit(crc, p, data, begin)[..|file| - p]
    requires begin == partial.None?
    ensures Read(crc, file, 0, p, false, partial) == Outcome([], 0)
    decreases |data|, BLOCK - RecordStart(p) % BLOCK == HEADER
  {
    hide Emit, Read, Meet, Intact, Physical;
    var q := RecordStart(p);
    var n, next := FragmentLength(q, data), Next(q, data);
    TornParts(crc, file, p, data, begin);
    TornHeader(crc, file, p, data, begin);
    ReadUnfold(crc, file, 0, p, false, partial);
    if next <= |file| {
      FragmentReadBack(crc, file, p, data, partial);
      TornRecord(crc, file, next, data[n..], false, Some(Gather(q, Piece(q, data), partial)));
    } else {
      TornFragment(crc, file, p, Kind(q, data, begin), Piece(q, data));
    }
  }

  /** Where the pieces of an emitted record lie in its bytes. */
  lemma EmittedParts(crc: Checksum, p: nat, data: bytes, begin: bool)
    ensures var q, e := RecordStart(p), Emit(crc, p, data, begin);
            var n, next := FragmentLength(q, data), Next(q, data);
            && next - p <= |e|
            && e[q - p..next - p] == Physical(crc, Kind(q, data, begin), Piece(q, data))
            && e[next - p..] == if n == |data| then [] else Emit(crc, next, data[n..], false)
  {
    hide Emit, EmitRest, Physical;
    EmitUnfold(crc, p, data, begin);
    EmitRestUnfold(crc, RecordStart(p), data);
  }

  lemma TornParts(crc: Checksum, file: bytes, p: nat, data: bytes, begin: bool)
    requires p <= |file| < p + |Emit(crc, p, data, begin)|
    requires file[p..] == Emit(crc, p, data, begin)[..|file| - p]
    ensures var q := RecordStart(p);
            var n, next := FragmentLength(q, data), Next(q, data);
            next <= |file| ==>
              && Holds(crc, file, q, Kind(q, data, begin), Piece(q, data))
              && n < |data|
              && |file| < next + |Emit(crc, next, data[n..], false)|
              && file[next..] == Emit(crc, next, data[n..], false)[..|file| - next]
  {
    hide Emit, Physical, FragmentLength, RecordStart;
    var q, e, m := RecordStart(p), Emit(crc, p, data, begin), |file|;
    var next := Next(q, data);
    EmittedParts(crc, p, data, begin);
    if next <= m {
      Shared(file, e, p, m, q, next);
      Shared(file, e, p, m, next, m);
      SliceOfSlice(e, next - p, |e|, 0, m - next);
    }
  }

  lemma TornHeader(crc: Checksum, file: bytes, p: nat, data: bytes, begin: bool)
    requires p <= |file| < p + |Emit(crc, p, data, begin)|
    requires file[p..] == Emit(crc, p, data, begin)[..|file| - p]
    ensures var q := RecordStart(p);
            q + HEADER <= |file| ==>
              file[q..q + HEADER] == Physical(crc, Kind(q, data, begin), Piece(q, data))[..HEADER]
  {
    hide Emit, Physical, FragmentLength, RecordStart;
    var q, e, m := RecordStart(p), Emit(crc, p, data, begin), |file|;
    EmittedParts(crc, p, data, begin);
    if q + HEADER <= m {
      Shared(file, e, p, m, q, q + HEADER);
      SliceOfSlice(e, q - p, Next(q, data) - p, 0, HEADER);
    }
  }

  lemma Shared(file: bytes, e: bytes, p: nat, m: nat, a: nat, b: nat)
    requires p <= a <= b <= m == |file| && m - p <= |e| && file[p..] == e[..m - p]
    ensures file[a..b] == e[a - p..b - p]
  {
    SliceOfSlice(file, p, m, a - p, b - p);
    SliceOfSlice(e, 0, m - p, a - p, b - p);
  }

  /** The last fragment of a torn file is cut short: its header or its payload runs past the end of the file. */
  lemma TornFragment(crc: Checksum, file: bytes, p: nat, kind: byte, data: bytes)
    requires p <= |file| && |data| <= 0xffff
    requires var q := RecordStart(p);
             && q % BLOCK + HEADER + |data| <= BLOCK && |file| < q + HEADER + |data|
             && (q + HEADER <= |file| ==> file[q..q + HEADER] == Physical(crc, kind, data)[..HEADER])
    ensures Meet(crc, file, 0, p).AtEnd?
  {
    hide Fixed, FromFixed;
    var q := RecordStart(p);
    if q < |file| {
      MeetTrailer(crc, file, 0, p);
      assert !FullBlock(file, q);
      if q + HEADER <= |file| {
        var h := file[q..q + HEADER];
        assert h[4] == |data| % 256 && h[5] == |data| / 256;
        assert LengthAt(file, q) == |data|;
      }
    }
  }

  /** The records that lie entirely within the first m bytes of the log, with their offsets. */
  ghost function Whole(crc: Checksum, p: nat, records: seq<bytes>, m: nat): seq<Record>
    decreases |records|
  {
    if records == [] then []
    else
      var next := p + |Emit(crc, p, records[0], true)|;
      if next <= m then [Record(RecordStart(p), records[0])] + Whole(crc, next, records[1..], m) else []
  }

  /** They are the first few of the records; in a log that was not cut they are all of them. */
  lemma {:induction false} WholeIsPrefix(crc: Checksum, p: nat, records: seq<bytes>, m: nat)
    ensures |Whole(crc, p, records, m)| <= |records|
    ensures forall i :: 0 <= i < |Whole(crc, p, records, m)| ==> Whole(crc, p, records, m)[i].data == records[i]
    ensures m >= p + |EmitAll(crc, p, records)| ==> |Whole(crc, p, records, m)| == |records|
    decreases |records|
  {
    hide Emit;
    if records != [] {
      WholeIsPrefix(crc, p + |Emit(crc, p, records[0], true)|, records[1..], m);
    }
  }

  lemma CutParts(crc: Checksum, file: bytes, p: nat, records: seq<bytes>)
    requires p <= |file| <= p + |EmitAll(crc, p, records)| && records != []
    requires file[p..] == EmitAll(crc, p, records)[..|file| - p]
    ensures var first := Emit(crc, p, records[0], true);
            var next, m := p + |first|, |file|;
            && (next <= m ==>
                  && HoldsEmitted(crc, file, p, records[0], true)
                  && m <= next + |EmitAll(crc, next, records[1..])|
                  && file[next..] == EmitAll(crc, next, records[1..])[..m - next])
            && (m < next ==> file[p..] == first[..m - p])
  {
    hide Emit;
    var all, first := EmitAll(crc, p, records), Emit(crc, p, records[0], true);
    var next, m := p + |first|, |file|;
    var rest := EmitAll(crc, next, records[1..]);
    assert all == first + rest;
    if next <= m {
      Shared(file, all, p, m, p, next);
      Shared(file, all, p, m, next, m);
      SliceOfSlice(all, next - p, |all|, 0, m - next);
      assert all[..next - p] == first && all[next - p..] == rest;
    } else {
      assert all[..m - p] == first[..m - p];
    }
  }

  /** Reading a log that was cut at any byte gives back exactly the records that are whole, and no report. */
  lemma {:induction false} CutLogReadBack(crc: Checksum, file: bytes, p: nat, records: seq<bytes>)
    requires p <= |file| <= p + |EmitAll(crc, p, records)|
    requires file[p..] == EmitAll(crc, p, records)[..|file| - p]
    ensures Read(crc, file, 0, p, false, None) == Outcome(Whole(crc, p, records, |file|), 0)
    decreases |records|
  {
    hide Emit, Read, EmitAll;
    if records == [] {
      assert p == |file| by { EmitNone(crc, p); }
      AtEndOfFile(crc, file, p);
    } else {
      CutParts(crc, file, p, records);
      var next := p + |Emit(crc, p, records[0], true)|;
      if next <= |file| {
        RecordReadBack(crc, file, p, records[0], true, None);
        CutLogReadBack(crc, file, next, records[1..]);
      } else {
        TornRecord(crc, file, p, records[0], true, None);
      }
    }
  }

  lemma EmitNone(crc: Checksum, p: nat)
    ensures EmitAll(crc, p, []) == []
  {
  }

  lemma AtEndOfFile(crc: Checksum, file: bytes, p: nat)
    requires p >= |file|
    ensures forall initial, r :: Read(crc, file, initial, p, r, None) == Outcome([], 0)
  {
  }

  // ----- A damaged log, read from any offset -----

  /** Fragments that are not expected back: they start in a damaged block, or before the initial offset. */
  ghost predicate Lost(damaged: set<nat>, initial: nat, q: nat) {
    q / BLOCK in damaged || q < initial
  }

  /**
   * Where the reader may be when the log it should be reading has reached length p: right there, or further on
   * with everything in between lost.
   */
  ghost predicate Tracks(file: bytes, damaged: set<nat>, initial: nat, p: nat, r: nat, partial: Option<Record>) {
    || r == p
    || (&& p < r && partial == None
        && (r % BLOCK == 0 || r >= |file|)
        && forall q :: p <= q < r ==> InTrailer(q) || Lost(damaged, initial, q))
  }

  predicate InTrailer(q: nat) {
    q % BLOCK + HEADER > BLOCK
  }

  /** A fragment lies in the file, and unless its block is damaged and the checksum tells, it is genuine. */
  ghost predicate FaithfulAt(crc: Checksum, file: bytes, damaged: set<nat>, q: nat, data: bytes, begin: bool)
    requires q % BLOCK + HEADER <= BLOCK
  {
    && Next(q, data) <= |file|
    && (q / BLOCK !in damaged || Intact(crc, file, q) ==> Holds(crc, file, q, Kind(q, data, begin), Piece(q, data)))
  }

  lemma MeetDamaged(crc: Checksum, file: bytes, initial: nat, q: nat)
    requires q % BLOCK + HEADER <= BLOCK && q + HEADER <= |file| && !Intact(crc, file, q)
    ensures var m := Meet(crc, file, initial, q);
            || (m.AtEnd? && !FullBlock(file, q))
            || (m.Skipped? && m.next == BlockEnd(file, q))
  {
    hide Length, FromFixed;
  }

  /** A reader that is not behind the next record start reads on from there. */
  lemma MeetFrom(crc: Checksum, file: bytes, damaged: set<nat>, initial: nat, p: nat, r: nat, partial: Option<Record>)
    requires Tracks(file, damaged, initial, p, r, partial) && r <= RecordStart(p) < |file|
    ensures Meet(crc, file, initial, r) == Meet(crc, file, initial, RecordStart(p))
  {
    hide Intact;
    MeetTrailer(crc, file, initial, p);
    if r != p {
      assert r == RecordStart(p);
    }
  }

  /** The rest of a damaged block is lost. */
  lemma TracksBlock(file: bytes, damaged: set<nat>, initial: nat, q: nat, next: nat, r: nat)
    requires q / BLOCK in damaged && q < next <= |file|
    requires next <= q / BLOCK * BLOCK + BLOCK
    requires r == BlockEnd(file, q) || (r == |file| && !FullBlock(file, q))
    ensures Tracks(file, damaged, initial, next, r, None)
  {
    forall k | next <= k < r ensures Lost(damaged, initial, k) {
      assert k / BLOCK == q / BLOCK;
    }
  }

  /** Passing over one fragment: it is used, or the record it belongs to is given up. */
  lemma PassFragment(crc: Checksum, file: bytes, damaged: set<nat>, initial: nat, p: nat, data: bytes, begin: bool,
                     r: nat, resync: bool, partial: Option<Record>)
    returns (r': nat, resync': bool, partial': Option<Record>, got: bool)
    requires FaithfulAt(crc, file, damaged, RecordStart(p), data, begin)
    requires Tracks(file, damaged, initial, p, r, partial)
    requires begin || resync ==> partial == None
    requires partial.Some? ==> initial <= partial.value.offset <= p
    ensures var q := RecordStart(p);
            var last := FragmentLength(q, data) == |data|;
            var gathered := Gather(q, Piece(q, data), partial);
            && Tracks(file, damaged, initial, Next(q, data), r', partial')
            && Read(crc, file, initial, r, resync, partial).records
               == (if got then [gathered] else []) + Read(crc, file, initial, r', resync', partial').records
            && (resync' || last ==> partial' == None)
            && (partial'.Some? ==> partial'.value == gathered)
            && (got ==> last)
            && (got || partial'.Some? ==> (begin || partial.Some?) && initial <= gathered.offset <= q)
            && (q / BLOCK !in damaged && (if begin then q >= initial else partial.Some?) ==> if last then got else partial'.Some?)
  {
    hide Read, Meet, Intact, Holds;
    var q := RecordStart(p);
    var next := Next(q, data);
    got, partial', resync' := false, None, false;
    if q < r {
      r', resync' := r, resync;
      assert !InTrailer(q) && Lost(damaged, initial, q);
    } else {
      MeetFrom(crc, file, damaged, initial, p, r, partial);
      ReadUnfold(crc, file, initial, r, resync, partial);
      var m := Meet(crc, file, initial, r);
      if q / BLOCK !in damaged || Intact(crc, file, q) {
        MeetHeld(crc, file, initial, q, Kind(q, data, begin), Piece(q, data));
        var step := StepOn(initial, m, resync, partial);
        r', resync', partial' := next, step.resyncing, step.partial;
        got := step.record != [];
      } else {
        MeetDamaged(crc, file, initial, q);
        r' := if m.AtEnd? then |file| else m.next;
        if m.AtEnd? { AtEndOfFile(crc, file, r'); }
        TracksBlock(file, damaged, initial, q, next, r');
      }
    }
  }

  /** Every fragment of what is left of a record is faithful. */
  ghost predicate Faithful(crc: Checksum, file: bytes, damaged: set<nat>, p: nat, data: bytes, begin: bool)
    decreases |data|, BLOCK - RecordStart(p) % BLOCK == HEADER
  {
    var q := RecordStart(p);
    var n := FragmentLength(q, data);
    && FaithfulAt(crc, file, damaged, q, data, begin)
    && (n < |data| ==> Faithful(crc, file, damaged, Next(q, data), data[n..], false))
  }

  /** No fragment of what is left of a record starts in a damaged block. */
  ghost predicate Untouched(damaged: set<nat>, p: nat, data: bytes)
    decreases |data|, BLOCK - RecordStart(p) % BLOCK == HEADER
  {
    var q := RecordStart(p);
    var n := FragmentLength(q, data);
    q / BLOCK !in damaged && (n < |data| ==> Untouched(damaged, Next(q, data), data[n..]))
  }

  /** Passing over what is left of a record: it comes back whole, or not at all. */
  lemma {:induction false} PassRecord(crc: Checksum, file: bytes, damaged: set<nat>, initial: nat, p: nat, data: bytes,
                                      begin: bool, r: nat, resync: bool, partial: Option<Record>)
    returns (r': nat, resync': bool, got: bool)
    requires Faithful(crc, file, damaged, p, data, begin)
    requires Tracks(file, damaged, initial, p, r, partial)
    requires begin || resync ==> partial == None
    requires partial.Some? ==> initial <= partial.value.offset <= p
    ensures Tracks(file, damaged, initial, p + |Emit(crc, p, data, begin)|, r', None)
    ensures Read(crc, file, initial, r, resync, partial).records
            == (if got then [Gather(RecordStart(p), data, partial)] else [])
               + Read(crc, file, initial, r', resync', None).records
    ensures got ==> (begin || partial.Some?) && Gather(RecordStart(p), data, partial).offset >= initial
    ensures Untouched(damaged, p, data) && (if begin then RecordStart(p) >= initial else partial.Some?) ==> got
    decreases |Emit(crc, p, data, begin)|
  {
    hide Read, Tracks, FaithfulAt, Emit, RecordStart, FragmentLength;
    var q := RecordStart(p);
    var n, next := FragmentLength(q, data), Next(q, data);
    EmittedLength(crc, p, data, begin);
    var partial';
    r', resync', partial', got := PassFragment(crc, file, damaged, initial, p, data, begin, r, resync, partial);
    if n == |data| {
      assert Piece(q, data) == data;
    } else {
      r', resync', got := PassRecord(crc, file, damaged, initial, next, data[n..], false, r', resync', partial');
      assert Piece(q, data) + data[n..] == data;
      if got {
        assert Gather(RecordStart(next), data[n..], partial') == Gather(q, data, partial);
      }
    }
  }

  ghost predicate FaithfulAll(crc: Checksum, file: bytes, damaged: set<nat>, p: nat, records: seq<bytes>)
    decreases |records|
  {
    records != [] ==>
      && Faithful(crc, file, damaged, p, records[0], true)
      && FaithfulAll(crc, file, damaged, p + |Emit(crc, p, records[0], true)|, records[1..])
  }

  /** The records picked out by keep, with their offsets. */
  ghost function Chosen(crc: Checksum, p: nat, records: seq<bytes>, keep: seq<bool>): seq<Record>
    requires |keep| == |records|
    decreases |records|
  {
    if records == [] then []
    else (if keep[0] then [Record(RecordStart(p), records[0])] else [])
         + Chosen(crc, p + |Emit(crc, p, records[0], true)|, records[1..], keep[1..])
  }

  /** Only records from the initial offset on are picked, and of those every untouched one is. */
  ghost predicate KeepsUntouched(crc: Checksum, damaged: set<nat>, initial: nat, p: nat, records: seq<bytes>, keep: seq<bool>)
    requires |keep| == |records|
    decreases |records|
  {
    records != [] ==>
      && (keep[0] ==> RecordStart(p) >= initial)
      && (Untouched(damaged, p, records[0]) && RecordStart(p) >= initial ==> keep[0])
      && KeepsUntouched(crc, damaged, initial, p + |Emit(crc, p, records[0], true)|, records[1..], keep[1..])
  }

  lemma {:induction false} PassRecords(crc: Checksum, file: bytes, damaged: set<nat>, initial: nat, p: nat,
                                       records: seq<bytes>, r: nat, resync: bool)
    returns (keep: seq<bool>)
    requires FaithfulAll(crc, file, damaged, p, records) && p + |EmitAll(crc, p, records)| == |file|
    requires Tracks(file, damaged, initial, p, r, None)
    ensures |keep| == |records|
    ensures Read(crc, file, initial, r, resync, None).records == Chosen(crc, p, records, keep)
    ensures KeepsUntouched(crc, damaged, initial, p, records, keep)
    decreases |records|
  {
    hide Emit, Read, Faithful, Untouched;
    if records == [] {
      keep := [];
      AtEndOfFile(crc, file, r);
    } else {
      var next := p + |Emit(crc, p, records[0], true)|;
      var r', resync', got := PassRecord(crc, file, damaged, initial, p, records[0], true, r, resync, None);
      var rest := PassRecords(crc, file, damaged, initial, next, records[1..], r', resync');
      keep := [got] + rest;
      assert keep[1..] == rest;
      assert Gather(RecordStart(p), records[0], None) == Record(RecordStart(p), records[0]);
    }
  }

  // ----- The hypotheses in terms of the log as written -----

  /** The two files differ only inside damaged blocks. */
  ghost predicate SameOutside(written: bytes, file: bytes, damaged: set<nat>) {
    && |file| == |written|
    && forall i :: 0 <= i < |written| && i / BLOCK !in damaged ==> file[i] == written[i]
  }

  /** Damage is detected: a fragment in a damaged block whose checksum matches is still the one written there. */
  ghost predicate Detected(crc: Checksum, file: bytes, damaged: set<nat>, p: nat, data: bytes, begin: bool)
    decreases |data|, BLOCK - RecordStart(p) % BLOCK == HEADER
  {
    var q := RecordStart(p);
    var n := FragmentLength(q, data);
    && (q / BLOCK in damaged && q <= |file| && Intact(crc, file, q) ==> Holds(crc, file, q, Kind(q, data, begin), Piece(q, data)))
    && (n < |data| ==> Detected(crc, file, damaged, Next(q, data), data[n..], false))
  }

  ghost predicate DetectedAll(crc: Checksum, file: bytes, damaged: set<nat>, p: nat, records: seq<bytes>)
    decreases |records|
  {
    records != [] ==>
      && Detected(crc, file, damaged, p, records[0], true)
      && DetectedAll(crc, file, damaged, p + |Emit(crc, p, records[0], true)|, records[1..])
  }

  lemma SameFragment(crc: Checksum, written: bytes, file: bytes, damaged: set<nat>, q: nat, kind: byte, data: bytes)
    requires Holds(crc, written, q, kind, data) && q % BLOCK + HEADER + |data| <= BLOCK
    requires SameOutside(written, file, damaged) && q / BLOCK !in damaged
    ensures Holds(crc, file, q, kind, data)
  {
    hide Physical;
    var e := q + HEADER + |data|;
    forall i | q <= i < e ensures file[i] == written[i] {
      assert i / BLOCK == q / BLOCK;
    }
    assert file[q..e] == written[q..e];
  }

  lemma {:induction false} RecordIsFaithful(crc: Checksum, written: bytes, file: bytes, damaged: set<nat>, p: nat, data: bytes, begin: bool)
    requires HoldsEmitted(crc, written, p, data, begin)
    requires SameOutside(written, file, damaged) && Detected(crc, file, damaged, p, data, begin)
    ensures Faithful(crc, file, damaged, p, data, begin)
    decreases |data|, BLOCK - RecordStart(p) % BLOCK == HEADER
  {
    hide Emit, Holds, SameOutside, HoldsEmitted, Intact;
    var q := RecordStart(p);
    var n := FragmentLength(q, data);
    FirstFragmentHeld(crc, written, p, data, begin);
    HeldFits(crc, written, q, Kind(q, data, begin), Piece(q, data));
    assert |file| == |written| by { SameLength(written, file, damaged); }
    if q / BLOCK !in damaged {
      SameFragment(crc, written, file, damaged, q, Kind(q, data, begin), Piece(q, data));
    }
    if n < |data| {
      RecordIsFaithful(crc, written, file, damaged, Next(q, data), data[n..], false);
    }
  }

  lemma SameLength(written: bytes, file: bytes, damaged: set<nat>)
    requires SameOutside(written, file, damaged)
    ensures |file| == |written|
  {
  }

  lemma {:induction false} LogIsFaithful(crc: Checksum, written: bytes, file: bytes, damaged: set<nat>, p: nat, records: seq<bytes>)
    requires p + |EmitAll(crc, p, records)| == |written| && written[p..] == EmitAll(crc, p, records)
    requires SameOutside(written, file, damaged) && DetectedAll(crc, file, damaged, p, records)
    ensures FaithfulAll(crc, file, damaged, p, records)
    decreases |records|
  {
    hide Emit, SameOutside, Detected, Faithful;
    if records != [] {
      CutParts(crc, written, p, records);
      var next := p + |Emit(crc, p, records[0], true)|;
      assert EmitAll(crc, p, records) == Emit(crc, p, records[0], true) + EmitAll(crc, next, records[1..]);
      RecordIsFaithful(crc, written, file, damaged, p, records[0], true);
      LogIsFaithful(crc, written, file, damaged, next, records[1..]);
    }
  }

  lemma TracksInitialBlock(file: bytes, damaged: set<nat>, initial: nat)
    ensures Tracks(file, damaged, initial, 0, InitialBlock(initial), None)
  {
    var r := InitialBlock(initial);
    forall q | 0 <= q < r ensures InTrailer(q) || Lost(damaged, initial, q) {
    }
  }

  /**
   * Damage is confined to the blocks it is in. Whatever was done to the damaged blocks, as long as checksums tell,
   * a reader returns only records that were written, in order, each with its own offset, and none it should have
   * skipped; and it returns every record with all its fragments outside the damaged blocks.
   */
  lemma DamageIsConfined(crc: Checksum, records: seq<bytes>, file: bytes, damaged: set<nat>, initial: nat)
    returns (keep: seq<bool>)
    requires SameOutside(EmitAll(crc, 0, records), file, damaged) && DetectedAll(crc, file, damaged, 0, records)
    ensures |keep| == |records|
    ensures ReadFrom(crc, file, initial).records == Chosen(crc, 0, records, keep)
    ensures KeepsUntouched(crc, damaged, initial, 0, records, keep)
  {
    hide Read, DetectedAll, FaithfulAll, EmitAll, SameOutside, Tracks;
    var written := EmitAll(crc, 0, records);
    assert written[0..] == written;
    SameLength(written, file, damaged);
    LogIsFaithful(crc, written, file, damaged, 0, records);
    TracksInitialBlock(file, damaged, initial);
    keep := PassRecords(crc, file, damaged, initial, 0, records, InitialBlock(initial), initial > 0);
  }

  /** The records that start at or after an offset. */
  ghost function StartingFrom(crc: Checksum, p: nat, records: seq<bytes>, initial: nat): seq<Record>
    decreases |records|
  {
    if records == [] then []
    else (if RecordStart(p) >= initial then [Record(RecordStart(p), records[0])] else [])
         + StartingFrom(crc, p + |Emit(crc, p, records[0], true)|, records[1..], initial)
  }

  lemma {:induction false} NothingDamaged(crc: Checksum, file: bytes, p: nat, data: bytes, begin: bool)
    ensures Untouched({}, p, data) && Detected(crc, file, {}, p, data, begin)
    decreases |data|, BLOCK - RecordStart(p) % BLOCK == HEADER
  {
    hide Intact, Holds;
    var q := RecordStart(p);
    var n := FragmentLength(q, data);
    if n < |data| {
      NothingDamaged(crc, file, Next(q, data), data[n..], false);
    }
  }

  lemma {:induction false} NothingDamagedAtAll(crc: Checksum, file: bytes, p: nat, records: seq<bytes>)
    ensures DetectedAll(crc, file, {}, p, records)
    decreases |records|
  {
    hide Emit, Detected;
    if records != [] {
      NothingDamaged(crc, file, p, records[0], true);
      NothingDamagedAtAll(crc, file, p + |Emit(crc, p, records[0], true)|, records[1..]);
    }
  }

  lemma {:induction false} UntouchedAreChosen(crc: Checksum, initial: nat, p: nat, records: seq<bytes>, keep: seq<bool>)
    requires |keep| == |records| && KeepsUntouched(crc, {}, initial, p, records, keep)
    ensures Chosen(crc, p, records, keep) == StartingFrom(crc, p, records, initial)
    decreases |records|
  {
    hide Emit, Untouched;
    if records != [] {
      NothingDamaged(crc, [], p, records[0], true);
      UntouchedAreChosen(crc, initial, p + |Emit(crc, p, records[0], true)|, records[1..], keep[1..]);
    }
  }

  /** A reader with an initial offset returns exactly the records whose first fragment starts there or later. */
  lemma ReadFromOffset(crc: Checksum, records: seq<bytes>, initial: nat)
    ensures ReadFrom(crc, EmitAll(crc, 0, records), initial).records == StartingFrom(crc, 0, records, initial)
  {
    hide ReadFrom, EmitAll, KeepsUntouched, DetectedAll;
    var file := EmitAll(crc, 0, records);
    NothingDamagedAtAll(crc, file, 0, records);
    var keep := DamageIsConfined(crc, records, file, {}, initial);
    UntouchedAreChosen(crc, initial, 0, records, keep);
  }

  /** The whole log gives back all records; a log cut at any byte gives back those that are whole. */
  lemma CutLog(crc: Checksum, records: seq<bytes>, m: nat)
    requires m <= |EmitAll(crc, 0, records)|
    ensures ReadFrom(crc, EmitAll(crc, 0, records)[..m], 0) == Outcome(Whole(crc, 0, records, m), 0)
  {
    hide Read, EmitAll, Whole;
    var file := EmitAll(crc, 0, records)[..m];
    assert file[0..] == file;
    CutLogReadBack(crc, file, 0, records);
  }
}
