/** Batches of updates and their representation (db/write_batch.cc). */
module WriteBatch {
  import opened Wrappers
  import opened UserKeys
  import opened Coding
  import opened DbFormat

  const HEADER_SIZE := 12  // 8-byte sequence number, 4-byte count

  datatype Op = Put(key: Key, value: bytes) | Delete(key: Key) {
    /** The lengths fit the 32-bit length prefixes. */
    predicate Fits() {
      |key| < 0x1_0000_0000 && (Put? ==> |value| < 0x1_0000_0000)
    }
  }

  function EncodeOp(op: Op): bytes {
    match op
    case Put(key, value) => [TYPE_VALUE] + LengthPrefixed(key) + LengthPrefixed(value)
    case Delete(key) => [TYPE_DELETION] + LengthPrefixed(key)
  }

  function EncodeOps(ops: seq<Op>): bytes {
    if ops == [] then [] else EncodeOps(ops[..|ops| - 1]) + EncodeOp(ops[|ops| - 1])
  }

  /** The whole representation of a batch. */
  function EncodeBatch(sequence: nat, ops: seq<Op>): bytes {
    Fixed(8, sequence) + Fixed(4, |ops|) + EncodeOps(ops)
  }

  datatype Status = Ok | Corruption(message: string)

  /** One turn of Iterate's loop: the operation at the front and what is left, or why there is none. */
  function DecodeOp(input: bytes): (r: (Parsed<Op>, Status))
    requires input != []
    ensures r.0.Some? <==> r.1.Ok?
    ensures r.0.Some? ==> |r.0.value.1| < |input|
  {
    if input[0] == TYPE_VALUE then
      match GetLengthPrefixed(input[1..]) {
        case None => (None, Corruption("bad WriteBatch Put"))
        case Some((key, rest)) =>
          match GetLengthPrefixed(rest)
          case None => (None, Corruption("bad WriteBatch Put"))
          case Some((value, rest)) => (Some((Put(key, value), rest)), Ok)
      }
    else if input[0] == TYPE_DELETION then
      match GetLengthPrefixed(input[1..]) {
        case None => (None, Corruption("bad WriteBatch Delete"))
        case Some((key, rest)) => (Some((Delete(key), rest)), Ok)
      }
    else (None, Corruption("unknown WriteBatch tag"))
  }

  /** The operations handed to the handler, and how the iteration over the operations ends. */
  function DecodeOps(input: bytes): (r: (seq<Op>, Status))
    decreases |input|
  {
    if input == [] then ([], Ok)
    else
      var (parsed, status) := DecodeOp(input);
      match parsed
      case None => ([], status)
      case Some((op, rest)) => var (ops, status) := DecodeOps(rest); ([op] + ops, status)
  }

  lemma DecodeOpRoundTrip(op: Op, rest: bytes)
    requires op.Fits()
    ensures DecodeOp(EncodeOp(op) + rest) == (Some((op, rest)), Ok)
  {
    hide LengthPrefixed, GetLengthPrefixed;
    var all := EncodeOp(op) + rest;
    match op
    case Put(key, value) =>
      assert all[1..] == LengthPrefixed(key) + (LengthPrefixed(value) + rest);
      LengthPrefixedRoundTrip(key, LengthPrefixed(value) + rest);
      LengthPrefixedRoundTrip(value, rest);
    case Delete(key) =>
      assert all[1..] == LengthPrefixed(key) + rest;
      LengthPrefixedRoundTrip(key, rest);
  }

  /** Decoding gives back the operations in order, whatever follows them decodes as it would on its own. */
  lemma {:induction false} DecodeOpsRoundTrip(ops: seq<Op>, tail: bytes)
    requires forall op :: op in ops ==> op.Fits()
    ensures DecodeOps(EncodeOps(ops) + tail) == (ops + DecodeOps(tail).0, DecodeOps(tail).1)
  {
    hide EncodeOp, DecodeOp;
    if ops == [] {
      assert EncodeOps(ops) + tail == tail && ops + DecodeOps(tail).0 == DecodeOps(tail).0;
    } else {
      var init, last := ops[..|ops| - 1], ops[|ops| - 1];
      DecodeOpsRoundTrip(init, EncodeOp(last) + tail);
      DecodeFirst(last, tail);
      assert EncodeOps(ops) + tail == EncodeOps(init) + (EncodeOp(last) + tail);
      hide DecodeOps, EncodeOps;
      assert init + ([last] + DecodeOps(tail).0) == ops + DecodeOps(tail).0;
    }
  }

  lemma DecodeFirst(op: Op, tail: bytes)
    requires op.Fits()
    ensures DecodeOps(EncodeOp(op) + tail) == ([op] + DecodeOps(tail).0, DecodeOps(tail).1)
  {
    DecodeOpRoundTrip(op, tail);
    EncodedNotEmpty(op);
    hide EncodeOp, DecodeOp;
  }

  lemma EncodedNotEmpty(op: Op)
    ensures EncodeOp(op) != []
  {
  }

  lemma {:induction false} EncodeOpsAppend(a: seq<Op>, b: seq<Op>)
    ensures EncodeOps(a + b) == EncodeOps(a) + EncodeOps(b)
  {
    hide EncodeOp;
    if b == [] {
      assert a + b == a;
    } else {
      EncodeOpsAppend(a, b[..|b| - 1]);
      assert (a + b)[..|a + b| - 1] == a + b[..|b| - 1];
    }
  }

  /** The sequence number of a batch's n-th operation, in 64-bit arithmetic. */
  function SequenceAt(start: nat, n: nat): nat {
    (start + n) % 0x1_0000_0000_0000_0000
  }

  function Increment(sequence: nat): nat {
    (sequence + 1) % 0x1_0000_0000_0000_0000
  }

  /** The entries a batch puts into a memtable: consecutive sequence numbers. */
  function Entries(sequence: nat, ops: seq<Op>): seq<Entry> {
    if ops == [] then [] else
      Entries(sequence, ops[..|ops| - 1]) + [EntryOf(SequenceAt(sequence, |ops| - 1), ops[|ops| - 1])]
  }

  /** MemTable::Add packs the sequence number into the upper 56 bits of the tag. */
  function EntryOf(sequence: nat, op: Op): Entry {
    match op
    case Put(key, value) => Entry(key, sequence * 256 % 0x1_0000_0000_0000_0000 + TYPE_VALUE, value)
    case Delete(key) => Entry(key, sequence * 256 % 0x1_0000_0000_0000_0000 + TYPE_DELETION, [])
  }

  lemma EncodeOne(op: Op)
    ensures EncodeOps([op]) == EncodeOp(op)
  {
    hide EncodeOp;
    assert [op][..0] == [];
  }

  /** A batch's bytes after the count has been replaced and more records have been appended. */
  lemma RecordAppended(rep: bytes, ops: seq<Op>, n: nat, more: bytes)
    requires |rep| >= HEADER_SIZE && rep[8..] == Fixed(4, |ops|) + EncodeOps(ops)
    ensures var longer := rep[..8] + Fixed(4, n) + rep[12..] + more;
            longer[8..] == Fixed(4, n) + (EncodeOps(ops) + more) && longer[..8] == rep[..8]
  {
    hide Fixed, EncodeOps;
    assert rep[12..] == rep[8..][4..] == EncodeOps(ops);
    Regroup(rep[..8], Fixed(4, n), EncodeOps(ops), more);
  }

  lemma Regroup(a: bytes, b: bytes, c: bytes, d: bytes)
    ensures (a + b + c + d)[|a|..] == b + (c + d) && (a + b + c + d)[..|a|] == a
  {
  }

  lemma EntriesSnoc(sequence: nat, ops: seq<Op>, op: Op)
    ensures Entries(sequence, ops + [op])
            == Entries(sequence, ops) + [EntryOf(SequenceAt(sequence, |ops|), op)]
  {
    hide EntryOf;
    assert (ops + [op])[..|ops|] == ops;
  }

  lemma InsertStep(was: seq<Entry>, start: nat, done: seq<Op>, op: Op)
    ensures was + Entries(start, done) + [EntryOf(SequenceAt(start, |done|), op)] == was + Entries(start, done + [op])
  {
    hide EntryOf, SequenceAt;
    EntriesSnoc(start, done, op);
  }

  lemma DecodeStep(input: bytes, done: seq<Op>)
    requires input != []
    ensures var (parsed, status) := DecodeOp(input);
            && (parsed.None? ==> DecodeOps(input) == ([], status) && done + DecodeOps(input).0 == done)
            && (parsed.Some? ==>
                  && done + DecodeOps(input).0 == (done + [parsed.value.0]) + DecodeOps(parsed.value.1).0
                  && DecodeOps(input).1 == DecodeOps(parsed.value.1).1)
  {
    hide DecodeOp;
  }

  lemma SequenceStep(start: nat, found: nat)
    ensures Increment(SequenceAt(start, found)) == SequenceAt(start, found + 1)
  {
  }

  /**
   * What reaches MemTable::Add, in order. The memtable itself (module MemTable) takes every sequence number of a key
   * once, which a batch from a damaged log need not respect.
   */
  class Additions {
    var entries: seq<Entry>

    constructor ()
      ensures entries == []
    {
      entries := [];
    }

    method Add(sequence: nat, kind: nat, key: Key, value: bytes)
      modifies this
      ensures entries == old(entries) + [Entry(key, sequence * 256 % 0x1_0000_0000_0000_0000 + kind, value)]
    {
      entries := entries + [Entry(key, sequence * 256 % 0x1_0000_0000_0000_0000 + kind, value)];
    }
  }

  class WriteBatch {
    var rep: bytes
    ghost var ops: seq<Op>  // what has been put into it

    ghost predicate Valid()
      reads this
    {
      && |rep| >= HEADER_SIZE
      && |ops| < 0x8000_0000
      && rep[8..] == Fixed(4, |ops|) + EncodeOps(ops)
    }

    constructor ()
      ensures Valid() && ops == []
    {
      rep := seq(HEADER_SIZE, _ => 0);
      ops := [];
      new;
      assert Fixed(4, 0) == [0, 0, 0, 0];
    }

    method Clear()
      modifies this
      ensures Valid() && ops == []
    {
      rep := seq(HEADER_SIZE, _ => 0);
      ops := [];
      assert Fixed(4, 0) == [0, 0, 0, 0];
    }

    function Count(): nat
      requires |rep| >= HEADER_SIZE
      reads this
    {
      FromFixed(rep[8..12])
    }

    function Sequence(): nat
      requires |rep| >= HEADER_SIZE
      reads this
    {
      FromFixed(rep[..8])
    }

    lemma CountIsSize()
      requires Valid()
      ensures Count() == |ops|
    {
      hide Fixed, FromFixed;
      assert rep[8..12] == rep[8..][..4];
      Widths();
      FixedRoundTrip(4, |ops|);
    }

    method SetCount(n: nat)
      requires |rep| >= HEADER_SIZE
      modifies this`rep
      ensures rep == old(rep)[..8] + Fixed(4, n) + old(rep)[12..]
    {
      rep := rep[..8] + Fixed(4, n) + rep[12..];
    }

    method SetSequence(sequence: nat)
      requires Valid()
      modifies this`rep
      ensures Valid() && rep == EncodeBatch(sequence, ops)
    {
      hide Fixed;
      rep := Fixed(8, sequence) + rep[8..];
    }

    method Put(key: Key, value: bytes)
      requires Valid() && |ops| + 1 < 0x8000_0000
      modifies this
      ensures Valid() && ops == old(ops) + [Op.Put(key, value)] && rep[..8] == old(rep)[..8]
    {
      hide Fixed, LengthPrefixed, EncodeOps;
      CountIsSize();
      SetCount(Count() + 1);
      ghost var op := Op.Put(key, value);
      RecordAppended(old(rep), ops, |ops| + 1, EncodeOps([op]));
      EncodeOne(op);
      rep := rep + [TYPE_VALUE] + LengthPrefixed(key) + LengthPrefixed(value);
      assert rep == old(rep)[..8] + Fixed(4, |ops| + 1) + old(rep)[12..] + EncodeOps([op]);
      EncodeOpsAppend(ops, [op]);
      ops := ops + [op];
    }

    method Delete(key: Key)
      requires Valid() && |ops| + 1 < 0x8000_0000
      modifies this
      ensures Valid() && ops == old(ops) + [Op.Delete(key)] && rep[..8] == old(rep)[..8]
    {
      hide Fixed, LengthPrefixed, EncodeOps;
      CountIsSize();
      SetCount(Count() + 1);
      ghost var op := Op.Delete(key);
      RecordAppended(old(rep), ops, |ops| + 1, EncodeOps([op]));
      EncodeOne(op);
      rep := rep + [TYPE_DELETION] + LengthPrefixed(key);
      assert rep == old(rep)[..8] + Fixed(4, |ops| + 1) + old(rep)[12..] + EncodeOps([op]);
      EncodeOpsAppend(ops, [op]);
      ops := ops + [op];
    }

    /** Appends another batch's operations; the sequence number stays. */
    method Append(src: WriteBatch)
      requires Valid() && src.Valid() && src != this && |ops| + |src.ops| < 0x8000_0000
      modifies this
      ensures Valid() && ops == old(ops) + src.ops && rep[..8] == old(rep)[..8]
    {
      hide Fixed, EncodeOps;
      CountIsSize();
      src.CountIsSize();
      SetCount(Count() + src.Count());
      assert src.rep[8..][4..] == src.rep[HEADER_SIZE..] == EncodeOps(src.ops);
      RecordAppended(old(rep), ops, |ops| + |src.ops|, EncodeOps(src.ops));
      rep := rep + src.rep[HEADER_SIZE..];
      EncodeOpsAppend(ops, src.ops);
      ops := ops + src.ops;
    }

    method SetContents(contents: bytes)
      requires |contents| >= HEADER_SIZE
      modifies this
      ensures rep == contents
    {
      rep := contents;
    }

    /** The body of Iterate's loop: decodes one operation and hands it to the inserter. */
    static method HandleRecord(input: bytes, sequence: nat, mem: Additions) returns (status: Status, rest: bytes)
      requires input != []
      modifies mem
      ensures var (parsed, end) := DecodeOp(input);
              && status == end
              && mem.entries == old(mem.entries) + (if parsed.Some? then [EntryOf(sequence, parsed.value.0)] else [])
              && (parsed.Some? ==> rest == parsed.value.1)
    {
      hide GetLengthPrefixed;
      var tag := input[0];
      rest := input[1..];
      if tag == TYPE_VALUE {
        var key := GetLengthPrefixed(rest);
        if key.None? { return Corruption("bad WriteBatch Put"), rest; }
        var value := GetLengthPrefixed(key.value.1);
        if value.None? { return Corruption("bad WriteBatch Put"), rest; }
        mem.Add(sequence, TYPE_VALUE, key.value.0, value.value.0);
        return Ok, value.value.1;
      } else if tag == TYPE_DELETION {
        var key := GetLengthPrefixed(rest);
        if key.None? { return Corruption("bad WriteBatch Delete"), rest; }
        mem.Add(sequence, TYPE_DELETION, key.value.0, []);
        return Ok, key.value.1;
      } else {
        return Corruption("unknown WriteBatch tag"), rest;
      }
    }

    /** Iterate with a MemTableInserter: every operation decoded before an error has been inserted. */
    method InsertInto(mem: Additions) returns (status: Status)
      modifies mem
      ensures |rep| < HEADER_SIZE ==> status.Corruption? && mem.entries == old(mem.entries)
      ensures |rep| >= HEADER_SIZE ==>
                var (decoded, end) := DecodeOps(rep[HEADER_SIZE..]);
                && mem.entries == old(mem.entries) + Entries(Sequence(), decoded)
                && (status.Ok? <==> end.Ok? && |decoded| == Count())
    {
      if |rep| < HEADER_SIZE {
        return Corruption("malformed WriteBatch (too small)");
      }
      hide Fixed, FromFixed, DecodeOp, DecodeOps, EntryOf, Entries, SequenceAt, Increment, Progress;
      var input := rep[HEADER_SIZE..];
      var found := 0;
      var sequence := Sequence();
      ghost var start, was, done: seq<Op> := Sequence(), mem.entries, [];
      ghost var goal := DecodeOps(input);
      SequenceFits();
      ProgressStarts(was, start, input);
      while input != []
        invariant found == |done| && Progress(was, mem.entries, start, goal, done, input, sequence)
        decreases |input|
      {
        found := found + 1;
        ProgressGoesOn(was, mem.entries, start, goal, done, input, sequence);
        ghost var (parsed, _) := DecodeOp(input);
        var rest;
        status, rest := HandleRecord(input, sequence, mem);
        if status.Corruption? { return; }
        sequence := Increment(sequence);
        done := done + [parsed.value.0];
        input := rest;
      }
      ProgressEnds(was, mem.entries, start, goal, done, sequence);
      if found != Count() {
        return Corruption("WriteBatch has wrong count");
      }
      status := Ok;
    }

    lemma SequenceFits()
      requires |rep| >= HEADER_SIZE
      ensures Sequence() == SequenceAt(Sequence(), 0)
    {
      hide FromFixed;
      FromFixedBound(rep[..8]);
      Widths();
    }
  }

  /** Where Iterate stands: done operations have been inserted, and the rest of the goal is still to be decoded. */
  ghost predicate Progress(was: seq<Entry>, now: seq<Entry>, start: nat, goal: (seq<Op>, Status), done: seq<Op>,
                           input: bytes, sequence: nat) {
    && sequence == SequenceAt(start, |done|)
    && now == was + Entries(start, done)
    && goal.0 == done + DecodeOps(input).0 && goal.1 == DecodeOps(input).1
  }

  lemma ProgressStarts(was: seq<Entry>, start: nat, input: bytes)
    requires start == SequenceAt(start, 0)
    ensures Progress(was, was, start, DecodeOps(input), [], input, start)
  {
    hide DecodeOps, SequenceAt;
    assert was + Entries(start, []) == was && [] + DecodeOps(input).0 == DecodeOps(input).0;
  }

  lemma ProgressGoesOn(was: seq<Entry>, now: seq<Entry>, start: nat, goal: (seq<Op>, Status), done: seq<Op>,
                       input: bytes, sequence: nat)
    requires input != [] && Progress(was, now, start, goal, done, input, sequence)
    ensures var (parsed, status) := DecodeOp(input);
            if parsed.None? then goal == (done, status) && now == was + Entries(start, done)
            else
              Progress(was, now + [EntryOf(sequence, parsed.value.0)], start, goal, done + [parsed.value.0], parsed.value.1,
                       Increment(sequence))
  {
    hide DecodeOp, DecodeOps, EntryOf, Entries, SequenceAt, Increment;
    DecodeStep(input, done);
    var (parsed, status) := DecodeOp(input);
    if parsed.Some? {
      InsertStep(was, start, done, parsed.value.0);
      SequenceStep(start, |done|);
    }
  }

  lemma ProgressEnds(was: seq<Entry>, now: seq<Entry>, start: nat, goal: (seq<Op>, Status), done: seq<Op>, sequence: nat)
    requires Progress(was, now, start, goal, done, [], sequence)
    ensures goal == (done, Ok) && now == was + Entries(start, done)
  {
    hide Entries, SequenceAt;
    DecodeNone(done);
  }

  lemma DecodeNone(done: seq<Op>)
    ensures done + DecodeOps([]).0 == done && DecodeOps([]).1 == Ok
  {
  }

  /** As long as sequence numbers stay within 56 bits, operation i becomes an entry with sequence number start + i. */
  lemma {:induction false} EntriesAt(start: nat, ops: seq<Op>, i: nat)
    requires i < |ops| && start + |ops| <= MAX_SEQUENCE + 1
    ensures |Entries(start, ops)| == |ops|
    ensures var e := Entries(start, ops)[i];
            && e.Sequence() == start + i && e.ukey == ops[i].key
            && (ops[i].Put? ==> e.IsValue() && e.value == ops[i].value)
            && (ops[i].Delete? ==> e.IsDeletion())
  {
    hide EntryOf, SequenceAt;
    EntriesLength(start, ops);
    var n := |ops| - 1;
    if i < n {
      EntriesAt(start, ops[..n], i);
      EntriesLength(start, ops[..n]);
    } else {
      EntryIs(start, ops[n], n);
      EntriesLength(start, ops[..n]);
    }
  }

  lemma EntryIs(start: nat, op: Op, i: nat)
    requires start + i <= MAX_SEQUENCE
    ensures var e := EntryOf(SequenceAt(start, i), op);
            && e.Sequence() == start + i && e.ukey == op.key
            && (op.Put? ==> e.IsValue() && e.value == op.value)
            && (op.Delete? ==> e.IsDeletion())
  {
    assert SequenceAt(start, i) == start + i;
  }

  lemma {:induction false} EntriesLength(start: nat, ops: seq<Op>)
    ensures |Entries(start, ops)| == |ops|
  {
    if ops != [] {
      EntriesLength(start, ops[..|ops| - 1]);
    }
  }
}
