/** The write-ahead log format (db/log_format.h) and what the log means as bytes. */
module LogFormat {
  import opened UserKeys
  import opened Coding

  const ZERO: byte := 0
  const FULL: byte := 1
  const FIRST: byte := 2
  const MIDDLE: byte := 3
  const LAST: byte := 4
  // The reader's extra record types.
  const EOF: byte := 5
  const BAD_RECORD: byte := 6

  const BLOCK := 32768
  const HEADER := 7

  /** The masked crc32c of a record's type and payload, as it is stored; any function of those bytes will do. */
  type Checksum = f: bytes -> nat | forall s :: f(s) < 0x1_0000_0000 witness (_ => 0)

  function Zeros(n: nat): (r: bytes)
    ensures |r| == n
  {
    seq(n, _ => 0)
  }

  /** A physical record: checksum, length, type, payload. */
  function Physical(crc: Checksum, kind: byte, data: bytes): (r: bytes)
    requires |data| <= 0xffff
    ensures |r| == HEADER + |data|
  {
    Fixed(4, crc([kind] + data)) + [|data| % 256, |data| / 256, kind] + data
  }

  function Min(a: nat, b: nat): nat { if a < b then a else b }

  lemma OffsetAdd(p: nat, n: nat)
    ensures (p + n) % BLOCK == (p % BLOCK + n) % BLOCK
  {
  }

  /** Where the next physical record starts when the log is p bytes long: never in a block's last six bytes. */
  function RecordStart(p: nat): (q: nat)
    ensures p <= q < p + HEADER && q % BLOCK + HEADER <= BLOCK
    ensures q != p ==> q % BLOCK == 0
  {
    var left := BLOCK - p % BLOCK;
    if left < HEADER then p + left else p
  }

  /** How much of the data fits into the record that starts at q. */
  function FragmentLength(q: nat, data: bytes): (n: nat)
    requires q % BLOCK + HEADER <= BLOCK
    ensures n <= |data| && q % BLOCK + HEADER + n <= BLOCK
  {
    Min(|data|, BLOCK - q % BLOCK - HEADER)
  }

  /** No block is left early: a header goes where it fits, and a record is cut only where its block is full. */
  lemma BlocksAreFilled(p: nat, data: bytes)
    ensures RecordStart(p) == p <==> p % BLOCK + HEADER <= BLOCK
    ensures var q := RecordStart(p); FragmentLength(q, data) < |data| ==> (q + HEADER + FragmentLength(q, data)) % BLOCK == 0
  {
    var q := RecordStart(p);
    OffsetAdd(q, HEADER + FragmentLength(q, data));
  }

  function FragmentKind(begin: bool, end: bool): byte {
    if begin && end then FULL else if begin then FIRST else if end then LAST else MIDDLE
  }

  /** The bytes AddRecord appends to a log of length p for what is left of a record. */
  function Emit(crc: Checksum, p: nat, data: bytes, begin: bool): (r: bytes)
    ensures |r| >= HEADER
    decreases |data|, BLOCK - RecordStart(p) % BLOCK == HEADER, 2
  {
    var q := RecordStart(p);
    Zeros(q - p) + FragmentRecord(crc, q, data, begin) + EmitRest(crc, q, data)
  }

  /** What follows the physical record that starts at q. */
  function EmitRest(crc: Checksum, q: nat, data: bytes): bytes
    requires q % BLOCK + HEADER <= BLOCK
    decreases |data|, BLOCK - q % BLOCK == HEADER, 1
  {
    var n := FragmentLength(q, data);
    if n == |data| then [] else Emit(crc, q + HEADER + n, data[n..], false)
  }

  function FragmentRecord(crc: Checksum, q: nat, data: bytes, begin: bool): (r: bytes)
    requires q % BLOCK + HEADER <= BLOCK
    ensures |r| == HEADER + FragmentLength(q, data)
  {
    var n := FragmentLength(q, data);
    Physical(crc, FragmentKind(begin, n == |data|), data[..n])
  }

  lemma EmitUnfold(crc: Checksum, p: nat, data: bytes, begin: bool)
    ensures var q := RecordStart(p);
            Emit(crc, p, data, begin)
            == Zeros(q - p) + FragmentRecord(crc, q, data, begin) + EmitRest(crc, q, data)
  {
  }

  lemma EmitRestUnfold(crc: Checksum, q: nat, data: bytes)
    requires q % BLOCK + HEADER <= BLOCK
    ensures var n := FragmentLength(q, data);
            EmitRest(crc, q, data) == if n == |data| then [] else Emit(crc, q + HEADER + n, data[n..], false)
  {
  }

  /** Emitting one fragment and then the rest is emitting the whole. */
  lemma EmitStep(crc: Checksum, contents: bytes, data: bytes, begin: bool)
    ensures var p := |contents|;
            var q := RecordStart(p);
            var n := FragmentLength(q, data);
            var next := contents + Zeros(q - p) + FragmentRecord(crc, q, data, begin);
            && contents + Emit(crc, p, data, begin) == next + (if n == |data| then [] else Emit(crc, |next|, data[n..], false))
            && next <= contents + Emit(crc, p, data, begin)
  {
    hide Emit, EmitRest, FragmentRecord, Physical;
    var p := |contents|;
    var q := RecordStart(p);
    EmitUnfold(crc, p, data, begin);
    EmitRestUnfold(crc, q, data);
    var next := contents + Zeros(q - p) + FragmentRecord(crc, q, data, begin);
    assert |next| == q + HEADER + FragmentLength(q, data);
    assert contents + Emit(crc, p, data, begin) == next + EmitRest(crc, q, data);
  }

  /** The bytes appended to a log of length p by a list of records. */
  function EmitAll(crc: Checksum, p: nat, records: seq<bytes>): bytes
    decreases |records|
  {
    if records == [] then []
    else
      var first := Emit(crc, p, records[0], true);
      first + EmitAll(crc, p + |first|, records[1..])
  }

  lemma {:induction false} EmitAllSnoc(crc: Checksum, p: nat, records: seq<bytes>, record: bytes)
    ensures EmitAll(crc, p, records + [record])
            == EmitAll(crc, p, records) + Emit(crc, p + |EmitAll(crc, p, records)|, record, true)
    decreases |records|
  {
    hide Emit;
    if records == [] {
      assert [record][1..] == [];
    } else {
      var first := Emit(crc, p, records[0], true);
      assert (records + [record])[1..] == records[1..] + [record];
      EmitAllSnoc(crc, p + |first|, records[1..], record);
    }
  }
}
