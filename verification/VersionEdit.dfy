/** Version edits as they are written to the manifest (db/version_edit.cc). */
module VersionEdit {
  import opened Wrappers
  import opened UserKeys
  import opened Coding

  const NUM_LEVELS := 7

  const COMPARATOR := 1
  const LOG_NUMBER := 2
  const NEXT_FILE_NUMBER := 3
  const LAST_SEQUENCE := 4
  const COMPACT_POINTER := 5
  const DELETED_FILE := 6
  const NEW_FILE := 7
  const PREV_LOG_NUMBER := 9

  datatype FileMetaData = FileMetaData(number: nat, fileSize: nat, smallest: bytes, largest: bytes)

  /** What an edit says; a number is there when its has flag is set. */
  datatype Edit = Edit(
    comparator: Option<bytes>,
    logNumber: Option<nat>,
    prevLogNumber: Option<nat>,
    nextFileNumber: Option<nat>,
    lastSequence: Option<nat>,
    compactPointers: seq<(nat, bytes)>,
    deletedFiles: set<(nat, nat)>,
    newFiles: seq<(nat, FileMetaData)>)

  /** One tagged item of the encoding. */
  datatype Item =
    | Comparator(name: bytes)
    | LogNumber(n: nat)
    | PrevLogNumber(n: nat)
    | NextFileNumber(n: nat)
    | LastSequence(n: nat)
    | CompactPointer(level: nat, key: bytes)
    | DeletedFile(level: nat, n: nat)
    | NewFile(level: nat, file: FileMetaData)

  function Encode(item: Item): bytes {
    match item
    case Comparator(name) => Varint(COMPARATOR) + LengthPrefixed(name)
    case LogNumber(n) => Varint(LOG_NUMBER) + Varint(n)
    case PrevLogNumber(n) => Varint(PREV_LOG_NUMBER) + Varint(n)
    case NextFileNumber(n) => Varint(NEXT_FILE_NUMBER) + Varint(n)
    case LastSequence(n) => Varint(LAST_SEQUENCE) + Varint(n)
    case CompactPointer(level, key) => Varint(COMPACT_POINTER) + Varint(level) + LengthPrefixed(key)
    case DeletedFile(level, n) => Varint(DELETED_FILE) + Varint(level) + Varint(n)
    case NewFile(level, f) =>
      Varint(NEW_FILE) + Varint(level) + Varint(f.number) + Varint(f.fileSize) + LengthPrefixed(f.smallest) + LengthPrefixed(f.largest)
  }

  function EncodeAll(items: seq<Item>): bytes {
    if items == [] then [] else EncodeAll(items[..|items| - 1]) + Encode(items[|items| - 1])
  }

  // ----- Decoding -----

  datatype Decoded = Got(item: Item, rest: bytes) | Bad(message: string) | End

  function GetLevel(input: bytes): (r: Parsed<nat>)
    ensures r.Some? ==> |r.value.1| < |input| && r.value.0 < NUM_LEVELS
  {
    match GetVarint32(input)
    case None => None
    case Some((v, rest)) => if v < NUM_LEVELS then Some((v, rest)) else None
  }

  function GetNumber(input: bytes, message: string, wrap: nat -> Item): Decoded {
    match GetVarint64(input)
    case None => Bad(message)
    case Some((n, rest)) => Got(wrap(n), rest)
  }

  function GetNewFile(input: bytes): (r: Parsed<Item>)
    ensures r.Some? ==> |r.value.1| < |input|
  {
    match GetLevel(input)
    case None => None
    case Some((level, s1)) =>
      match GetVarint64(s1)
      case None => None
      case Some((number, s2)) =>
        match GetVarint64(s2)
        case None => None
        case Some((size, s3)) =>
          match GetLengthPrefixed(s3)
          case None => None
          case Some((smallest, s4)) =>
            match GetLengthPrefixed(s4)
            case None => None
            case Some((largest, s5)) => Some((NewFile(level, FileMetaData(number, size, smallest, largest)), s5))
  }

  /** The item of a tag that has been read. */
  function DecodeTagged(tag: nat, s: bytes): (d: Decoded)
    ensures d.Got? ==> |d.rest| < |s|
  {
    if tag == COMPARATOR then
      match GetLengthPrefixed(s) case None => Bad("comparator name") case Some((name, rest)) => Got(Comparator(name), rest)
    else if tag == LOG_NUMBER then GetNumber(s, "log number", (n: nat) => LogNumber(n))
    else if tag == PREV_LOG_NUMBER then GetNumber(s, "previous log number", (n: nat) => PrevLogNumber(n))
    else if tag == NEXT_FILE_NUMBER then GetNumber(s, "next file number", (n: nat) => NextFileNumber(n))
    else if tag == LAST_SEQUENCE then GetNumber(s, "last sequence number", (n: nat) => LastSequence(n))
    else if tag == COMPACT_POINTER then
      match GetLevel(s) {
        case None => Bad("compaction pointer")
        case Some((level, s1)) =>
          match GetLengthPrefixed(s1)
          case None => Bad("compaction pointer")
          case Some((key, rest)) => Got(CompactPointer(level, key), rest)
      }
    else if tag == DELETED_FILE then
      match GetLevel(s) {
        case None => Bad("deleted file")
        case Some((level, s1)) =>
          match GetVarint64(s1)
          case None => Bad("deleted file")
          case Some((n, rest)) => Got(DeletedFile(level, n), rest)
      }
    else if tag == NEW_FILE then
      match GetNewFile(s) case None => Bad("new-file entry") case Some((item, rest)) => Got(item, rest)
    else Bad("unknown tag")
  }

  function Decode(input: bytes): (d: Decoded)
    ensures d.Got? ==> |d.rest| < |input|
  {
    match GetVarint32(input)
    case None => if input == [] then End else Bad("invalid tag")
    case Some((tag, rest)) => DecodeTagged(tag, rest)
  }

  /** The items up to the first problem, and that problem. */
  function DecodeAll(input: bytes): (seq<Item>, Option<string>)
    decreases |input|
  {
    match Decode(input)
    case End => ([], None)
    case Bad(message) => ([], Some(message))
    case Got(item, rest) => var (items, problem) := DecodeAll(rest); ([item] + items, problem)
  }

  /** What the encoder's fields may hold: 64-bit numbers, known levels, lengths of 32 bits. */
  predicate Fits(item: Item) {
    match item
    case Comparator(name) => |name| < 0x1_0000_0000
    case CompactPointer(level, key) => level < NUM_LEVELS && |key| < 0x1_0000_0000
    case DeletedFile(level, n) => level < NUM_LEVELS && n < 0x1_0000_0000_0000_0000
    case NewFile(level, f) =>
      && level < NUM_LEVELS && f.number < 0x1_0000_0000_0000_0000 && f.fileSize < 0x1_0000_0000_0000_0000
      && |f.smallest| < 0x1_0000_0000 && |f.largest| < 0x1_0000_0000
    case _ => item.n < 0x1_0000_0000_0000_0000
  }

  lemma NumberRoundTrip(item: Item, tail: bytes)
    requires Fits(item)
    requires item.LogNumber? || item.PrevLogNumber? || item.NextFileNumber? || item.LastSequence?
    ensures Decode(Encode(item) + tail) == Got(item, tail)
  {
    hide Varint, GetVarint32, GetVarint64;
    var tag := match item case LogNumber(_) => LOG_NUMBER case PrevLogNumber(_) => PREV_LOG_NUMBER
                          case NextFileNumber(_) => NEXT_FILE_NUMBER case _ => LAST_SEQUENCE;
    assert Encode(item) + tail == Varint(tag) + (Varint(item.n) + tail);
    Varint32RoundTrip(tag, Varint(item.n) + tail);
    Varint64RoundTrip(item.n, tail);
  }

  lemma NewFileRoundTrip(level: nat, f: FileMetaData, tail: bytes)
    requires Fits(NewFile(level, f))
    ensures Decode(Encode(NewFile(level, f)) + tail) == Got(NewFile(level, f), tail)
  {
    hide Varint, GetVarint32, GetVarint64, LengthPrefixed, GetLengthPrefixed;
    var s4 := LengthPrefixed(f.largest) + tail;
    var s3 := LengthPrefixed(f.smallest) + s4;
    var s2 := Varint(f.fileSize) + s3;
    var s1 := Varint(f.number) + s2;
    var s0 := Varint(level) + s1;
    assert Encode(NewFile(level, f)) + tail == Varint(NEW_FILE) + s0;
    Varint32RoundTrip(NEW_FILE, s0);
    Varint32RoundTrip(level, s1);
    Varint64RoundTrip(f.number, s2);
    Varint64RoundTrip(f.fileSize, s3);
    LengthPrefixedRoundTrip(f.smallest, s4);
    LengthPrefixedRoundTrip(f.largest, tail);
  }

  lemma ItemRoundTrip(item: Item, tail: bytes)
    requires Fits(item)
    ensures Decode(Encode(item) + tail) == Got(item, tail)
  {
    hide Varint, GetVarint32, GetVarint64, LengthPrefixed, GetLengthPrefixed;
    match item {
      case Comparator(name) => {
        assert Encode(item) + tail == Varint(COMPARATOR) + (LengthPrefixed(name) + tail);
        Varint32RoundTrip(COMPARATOR, LengthPrefixed(name) + tail);
        LengthPrefixedRoundTrip(name, tail);
      }
      case CompactPointer(level, key) => {
        var s := LengthPrefixed(key) + tail;
        assert Encode(item) + tail == Varint(COMPACT_POINTER) + (Varint(level) + s);
        Varint32RoundTrip(COMPACT_POINTER, Varint(level) + s);
        Varint32RoundTrip(level, s);
        LengthPrefixedRoundTrip(key, tail);
      }
      case DeletedFile(level, n) => {
        var s := Varint(n) + tail;
        assert Encode(item) + tail == Varint(DELETED_FILE) + (Varint(level) + s);
        Varint32RoundTrip(DELETED_FILE, Varint(level) + s);
        Varint32RoundTrip(level, s);
        Varint64RoundTrip(n, tail);
      }
      case NewFile(level, f) => { NewFileRoundTrip(level, f, tail); }
      case _ => { NumberRoundTrip(item, tail); }
    }
  }

  lemma {:induction false} ItemsRoundTrip(items: seq<Item>, tail: bytes)
    requires forall item :: item in items ==> Fits(item)
    ensures DecodeAll(EncodeAll(items) + tail) == (items + DecodeAll(tail).0, DecodeAll(tail).1)
  {
    hide Encode, Decode;
    if items == [] {
      assert EncodeAll(items) + tail == tail && items + DecodeAll(tail).0 == DecodeAll(tail).0;
    } else {
      var init, last := items[..|items| - 1], items[|items| - 1];
      ItemsRoundTrip(init, Encode(last) + tail);
      ItemRoundTrip(last, tail);
      assert EncodeAll(items) + tail == EncodeAll(init) + (Encode(last) + tail);
      assert init + ([last] + DecodeAll(tail).0) == items + DecodeAll(tail).0;
    }
  }

  // ----- From an edit to its items and back -----

  function Single<T>(x: Option<T>, wrap: T -> Item): seq<Item> {
    match x case None => [] case Some(v) => [wrap(v)]
  }

  function Numbers(e: Edit): seq<Item> {
    Single(e.comparator, (name: bytes) => Comparator(name))
    + Single(e.logNumber, (n: nat) => LogNumber(n))
    + Single(e.prevLogNumber, (n: nat) => PrevLogNumber(n))
    + Single(e.nextFileNumber, (n: nat) => NextFileNumber(n))
    + Single(e.lastSequence, (n: nat) => LastSequence(n))
  }

  function Pointers(ps: seq<(nat, bytes)>): seq<Item> {
    if ps == [] then [] else Pointers(ps[..|ps| - 1]) + [CompactPointer(ps[|ps| - 1].0, ps[|ps| - 1].1)]
  }

  function Deletions(ds: seq<(nat, nat)>): seq<Item> {
    if ds == [] then [] else Deletions(ds[..|ds| - 1]) + [DeletedFile(ds[|ds| - 1].0, ds[|ds| - 1].1)]
  }

  function NewFiles(fs: seq<(nat, FileMetaData)>): seq<Item> {
    if fs == [] then [] else NewFiles(fs[..|fs| - 1]) + [NewFile(fs[|fs| - 1].0, fs[|fs| - 1].1)]
  }

  /** The items of an edit, its deleted files in the order the set is walked. */
  function Items(e: Edit, order: seq<(nat, nat)>): seq<Item> {
    Numbers(e) + Pointers(e.compactPointers) + Deletions(order) + NewFiles(e.newFiles)
  }

  predicate Less(a: (nat, nat), b: (nat, nat)) {
    a.0 < b.0 || (a.0 == b.0 && a.1 < b.1)
  }

  /** The elements of the set in ascending order. */
  ghost predicate Lists(order: seq<(nat, nat)>, files: set<(nat, nat)>) {
    && (forall d :: d in order <==> d in files)
    && forall i, j :: 0 <= i < j < |order| ==> Less(order[i], order[j])
  }

  function Apply(e: Edit, item: Item): Edit {
    match item
    case Comparator(name) => e.(comparator := Some(name))
    case LogNumber(n) => e.(logNumber := Some(n))
    case PrevLogNumber(n) => e.(prevLogNumber := Some(n))
    case NextFileNumber(n) => e.(nextFileNumber := Some(n))
    case LastSequence(n) => e.(lastSequence := Some(n))
    case CompactPointer(level, key) => e.(compactPointers := e.compactPointers + [(level, key)])
    case DeletedFile(level, n) => e.(deletedFiles := e.deletedFiles + {(level, n)})
    case NewFile(level, f) => e.(newFiles := e.newFiles + [(level, f)])
  }

  function ApplyAll(e: Edit, items: seq<Item>): Edit {
    if items == [] then e else Apply(ApplyAll(e, items[..|items| - 1]), items[|items| - 1])
  }

  /** Clear, which leaves the compaction pointers in place. */
  function Cleared(e: Edit): Edit {
    Edit(None, None, None, None, None, e.compactPointers, {}, [])
  }

  lemma {:induction false} ApplyBoth(e: Edit, a: seq<Item>, b: seq<Item>)
    ensures ApplyAll(e, a + b) == ApplyAll(ApplyAll(e, a), b)
  {
    hide Apply;
    if b == [] {
      assert a + b == a;
    } else {
      ApplyBoth(e, a, b[..|b| - 1]);
      assert (a + b)[..|a + b| - 1] == a + b[..|b| - 1];
    }
  }

  lemma {:induction false} ApplyPointers(e: Edit, ps: seq<(nat, bytes)>)
    ensures ApplyAll(e, Pointers(ps)) == e.(compactPointers := e.compactPointers + ps)
  {
    if ps == [] {
      assert e.compactPointers + [] == e.compactPointers;
    } else {
      ApplyPointers(e, ps[..|ps| - 1]);
      assert e.compactPointers + ps == (e.compactPointers + ps[..|ps| - 1]) + [ps[|ps| - 1]];
    }
  }

  function SetOf(ds: seq<(nat, nat)>): set<(nat, nat)> {
    set d | d in ds
  }

  lemma SetOfSnoc(s: set<(nat, nat)>, ds: seq<(nat, nat)>, d: (nat, nat))
    ensures s + SetOf(ds + [d]) == s + SetOf(ds) + {d}
  {
  }

  lemma {:induction false} ApplyDeletions(e: Edit, ds: seq<(nat, nat)>)
    ensures ApplyAll(e, Deletions(ds)) == e.(deletedFiles := e.deletedFiles + SetOf(ds))
  {
    if ds == [] {
      assert e.deletedFiles + SetOf(ds) == e.deletedFiles;
    } else {
      var init, last := ds[..|ds| - 1], ds[|ds| - 1];
      ApplyDeletions(e, init);
      assert ds == init + [last];
      SetOfSnoc(e.deletedFiles, init, last);
      hide SetOf;
    }
  }

  lemma {:induction false} ApplyNewFiles(e: Edit, fs: seq<(nat, FileMetaData)>)
    ensures ApplyAll(e, NewFiles(fs)) == e.(newFiles := e.newFiles + fs)
  {
    if fs == [] {
      assert e.newFiles + [] == e.newFiles;
    } else {
      ApplyNewFiles(e, fs[..|fs| - 1]);
      assert e.newFiles + fs == (e.newFiles + fs[..|fs| - 1]) + [fs[|fs| - 1]];
    }
  }

  lemma ApplySingle<T>(e: Edit, x: Option<T>, wrap: T -> Item)
    ensures ApplyAll(e, Single(x, wrap)) == if x.Some? then Apply(e, wrap(x.value)) else e
  {
    hide Apply;
    if x.Some? {
      assert Single(x, wrap)[..0] == [];
    }
  }

  lemma ApplyNumbers(e: Edit, f: Edit)
    requires e.comparator.None? && e.logNumber.None? && e.prevLogNumber.None? && e.nextFileNumber.None? && e.lastSequence.None?
    ensures ApplyAll(e, Numbers(f)) ==
            e.(comparator := f.comparator, logNumber := f.logNumber, prevLogNumber := f.prevLogNumber,
               nextFileNumber := f.nextFileNumber, lastSequence := f.lastSequence)
  {
    var a := Single(f.comparator, (name: bytes) => Comparator(name));
    var b := Single(f.logNumber, (n: nat) => LogNumber(n));
    var c := Single(f.prevLogNumber, (n: nat) => PrevLogNumber(n));
    var d := Single(f.nextFileNumber, (n: nat) => NextFileNumber(n));
    var g := Single(f.lastSequence, (n: nat) => LastSequence(n));
    hide ApplyAll, Single;
    ApplyBoth(e, a + b + c + d, g);
    ApplyBoth(e, a + b + c, d);
    ApplyBoth(e, a + b, c);
    ApplyBoth(e, a, b);
    ApplySingle(e, f.comparator, (name: bytes) => Comparator(name));
    var e1 := ApplyAll(e, a);
    ApplySingle(e1, f.logNumber, (n: nat) => LogNumber(n));
    var e2 := ApplyAll(e1, b);
    ApplySingle(e2, f.prevLogNumber, (n: nat) => PrevLogNumber(n));
    var e3 := ApplyAll(e2, c);
    ApplySingle(e3, f.nextFileNumber, (n: nat) => NextFileNumber(n));
    var e4 := ApplyAll(e3, d);
    ApplySingle(e4, f.lastSequence, (n: nat) => LastSequence(n));
  }

  /** The edit's numbers fit 64 bits, its levels exist, its keys and names have 32-bit lengths. */
  ghost predicate EditFits(e: Edit, order: seq<(nat, nat)>) {
    Lists(order, e.deletedFiles) && forall item :: item in Items(e, order) ==> Fits(item)
  }

  /**
   * Decoding an edit's encoding succeeds and restores every field, pointer, deletion and new file in order; but
   * compaction pointers the target had before stay in front.
   */
  lemma EditRoundTrip(e: Edit, order: seq<(nat, nat)>, target: Edit)
    requires EditFits(e, order)
    ensures var (items, problem) := DecodeAll(EncodeAll(Items(e, order)));
            && problem == None
            && ApplyAll(Cleared(target), items) == e.(compactPointers := target.compactPointers + e.compactPointers)
  {
    hide EncodeAll, DecodeAll, ApplyAll, Items, Fits;
    var items := Items(e, order);
    ItemsRoundTrip(items, []);
    NothingToDecode();
    assert EncodeAll(items) + [] == EncodeAll(items) && items + [] == items;
    ApplyItems(Cleared(target), e, order);
  }

  lemma ApplyItems(t: Edit, e: Edit, order: seq<(nat, nat)>)
    requires t == Cleared(t) && Lists(order, e.deletedFiles)
    ensures ApplyAll(t, Items(e, order)) == e.(compactPointers := t.compactPointers + e.compactPointers)
  {
    hide ApplyAll, Numbers, Pointers, Deletions, NewFiles;
    ApplyBoth(t, Numbers(e) + Pointers(e.compactPointers) + Deletions(order), NewFiles(e.newFiles));
    ApplyBoth(t, Numbers(e) + Pointers(e.compactPointers), Deletions(order));
    ApplyBoth(t, Numbers(e), Pointers(e.compactPointers));
    ApplyNumbers(t, e);
    var t1 := ApplyAll(t, Numbers(e));
    ApplyPointers(t1, e.compactPointers);
    var t2 := ApplyAll(t1, Pointers(e.compactPointers));
    ApplyDeletions(t2, order);
    ListedSet(order, e.deletedFiles);
    var t3 := ApplyAll(t2, Deletions(order));
    ApplyNewFiles(t3, e.newFiles);
  }

  lemma ListedSet(order: seq<(nat, nat)>, files: set<(nat, nat)>)
    requires Lists(order, files)
    ensures {} + SetOf(order) == files && [] + order == order
  {
  }

  lemma NothingToDecode()
    ensures DecodeAll([]) == ([], None)
  {
  }

  /** So the edit itself comes back exactly when the target had no compaction pointers, as a fresh one has none. */
  lemma ExactIntoFresh(e: Edit, order: seq<(nat, nat)>, target: Edit)
    requires EditFits(e, order)
    ensures ApplyAll(Cleared(target), DecodeAll(EncodeAll(Items(e, order))).0) == e <==> target.compactPointers == []
  {
    hide EncodeAll, ApplyAll, DecodeAll, Items, EditFits;
    EditRoundTrip(e, order, target);
    assert |target.compactPointers + e.compactPointers| == |e.compactPointers| <==> target.compactPointers == [];
    if target.compactPointers == [] {
      assert target.compactPointers + e.compactPointers == e.compactPointers;
    }
  }

  function ListOf(item: Option<Item>): seq<Item> {
    if item.Some? then [item.value] else []
  }

  lemma NumbersAre(e: Edit)
    ensures Numbers(e) == [] + ListOf(if e.comparator.Some? then Some(Comparator(e.comparator.value)) else None)
                          + ListOf(if e.logNumber.Some? then Some(LogNumber(e.logNumber.value)) else None)
                          + ListOf(if e.prevLogNumber.Some? then Some(PrevLogNumber(e.prevLogNumber.value)) else None)
                          + ListOf(if e.nextFileNumber.Some? then Some(NextFileNumber(e.nextFileNumber.value)) else None)
                          + ListOf(if e.lastSequence.Some? then Some(LastSequence(e.lastSequence.value)) else None)
  {
    assert [] + Single(e.comparator, (name: bytes) => Comparator(name)) == Single(e.comparator, (name: bytes) => Comparator(name));
  }

  // ----- The edit object -----

  class VersionEdit {
    var comparator: Option<bytes>
    var logNumber: Option<nat>
    var prevLogNumber: Option<nat>
    var nextFileNumber: Option<nat>
    var lastSequence: Option<nat>
    var compactPointers: seq<(nat, bytes)>
    var deletedFiles: set<(nat, nat)>
    var newFiles: seq<(nat, FileMetaData)>

    constructor ()
      ensures Value() == Edit(None, None, None, None, None, [], {}, [])
    {
      comparator, logNumber, prevLogNumber, nextFileNumber, lastSequence := None, None, None, None, None;
      compactPointers, deletedFiles, newFiles := [], {}, [];
    }

    function Value(): Edit
      reads this
    {
      Edit(comparator, logNumber, prevLogNumber, nextFileNumber, lastSequence, compactPointers, deletedFiles, newFiles)
    }

    method Clear()
      modifies this
      ensures Value() == Cleared(old(Value()))
    {
      comparator, logNumber, prevLogNumber, nextFileNumber, lastSequence := None, None, None, None, None;
      deletedFiles, newFiles := {}, [];
    }

    /** Appends the encoding; the set of deleted files is walked in ascending order. */
    method EncodeTo(dst: bytes) returns (out: bytes)
      ensures exists order :: Lists(order, deletedFiles) && out == dst + EncodeAll(Items(Value(), order))
    {
      hide EncodeAll, Encode, Numbers, Pointers, Deletions, NewFiles, Lists;
      out := EncodeNumbers();
      out := dst + out;
      out := EncodePointers(out);
      ghost var before := out;
      out := EncodeDeletions(out);
      ghost var order :| Lists(order, deletedFiles) && out == before + EncodeAll(Deletions(order));
      out := EncodeNewFiles(out);
      EncodeParts(Numbers(Value()), Pointers(compactPointers), Deletions(order), NewFiles(newFiles));
    }

    method EncodeNumbers() returns (out: bytes)
      ensures out == EncodeAll(Numbers(Value()))
    {
      hide Encode, Numbers, ListOf;
      var n0 := if comparator.Some? then Some(Comparator(comparator.value)) else None;
      var n1 := if logNumber.Some? then Some(LogNumber(logNumber.value)) else None;
      var n2 := if prevLogNumber.Some? then Some(PrevLogNumber(prevLogNumber.value)) else None;
      var n3 := if nextFileNumber.Some? then Some(NextFileNumber(nextFileNumber.value)) else None;
      var n4 := if lastSequence.Some? then Some(LastSequence(lastSequence.value)) else None;
      ghost var done: seq<Item> := [];
      out := [];
      out := Put(out, done, n0);
      done := done + ListOf(n0);
      out := Put(out, done, n1);
      done := done + ListOf(n1);
      out := Put(out, done, n2);
      done := done + ListOf(n2);
      out := Put(out, done, n3);
      done := done + ListOf(n3);
      out := Put(out, done, n4);
      NumbersAre(Value());
    }

    static method Put(out: bytes, ghost done: seq<Item>, item: Option<Item>) returns (more: bytes)
      requires out == EncodeAll(done)
      ensures more == EncodeAll(done + ListOf(item))
    {
      hide Encode;
      more := out;
      if item.Some? {
        EncodeSnoc(done, item.value);
        more := out + Encode(item.value);
      } else {
        assert done + [] == done;
      }
    }

    method EncodePointers(dst: bytes) returns (out: bytes)
      ensures out == dst + EncodeAll(Pointers(compactPointers))
    {
      hide Encode, EncodeAll, Pointers;
      out := dst;
      var i := 0;
      NoItems();
      while i < |compactPointers|
        invariant 0 <= i <= |compactPointers| && out == dst + EncodeAll(Pointers(compactPointers[..i]))
      {
        var (level, key) := compactPointers[i];
        PointersSnoc(compactPointers, i);
        EncodeSnoc(Pointers(compactPointers[..i]), CompactPointer(level, key));
        out := out + Encode(CompactPointer(level, key));
        i := i + 1;
      }
      assert compactPointers[..i] == compactPointers;
    }

    method EncodeDeletions(dst: bytes) returns (out: bytes)
      ensures exists order :: Lists(order, deletedFiles) && out == dst + EncodeAll(Deletions(order))
    {
      hide Encode, EncodeAll, Deletions, Lists, IsLeast;
      out := dst;
      ghost var order: seq<(nat, nat)> := [];
      NoDeletions(deletedFiles);
      var rest := deletedFiles;
      while rest != {}
        invariant rest <= deletedFiles && Lists(order, deletedFiles - rest)
        invariant AllLess(order, rest)
        invariant out == dst + EncodeAll(Deletions(order))
        decreases |rest|
      {
        LeastExists(rest);
        var d :| d in rest && IsLeast(d, rest);
        EncodeSnoc(Deletions(order), DeletedFile(d.0, d.1));
        DeletionsSnoc(order, d);
        out := out + Encode(DeletedFile(d.0, d.1));
        ListsSnoc(order, deletedFiles, rest, d);
        order := order + [d];
        rest := rest - {d};
      }
      assert deletedFiles - rest == deletedFiles;
    }

    method EncodeNewFiles(dst: bytes) returns (out: bytes)
      ensures out == dst + EncodeAll(NewFiles(newFiles))
    {
      hide Encode, EncodeAll, NewFiles;
      out := dst;
      var i := 0;
      NoItems();
      while i < |newFiles|
        invariant 0 <= i <= |newFiles| && out == dst + EncodeAll(NewFiles(newFiles[..i]))
      {
        var (level, f) := newFiles[i];
        NewFilesSnoc(newFiles, i);
        EncodeSnoc(NewFiles(newFiles[..i]), NewFile(level, f));
        out := out + Encode(NewFile(level, f));
        i := i + 1;
      }
      assert newFiles[..i] == newFiles;
    }

    /** Takes in the items up to the first problem, on top of a cleared edit. */
    method DecodeFrom(src: bytes) returns (message: Option<string>)
      modifies this
      ensures var (items, problem) := DecodeAll(src);
              Value() == ApplyAll(Cleared(old(Value())), items) && message == problem
    {
      hide Apply, Decode, DecodeAll;
      Clear();
      var input := src;
      ghost var start, done: seq<Item> := Value(), [];
      assert done + DecodeAll(src).0 == DecodeAll(src).0;
      while true
        invariant DecodeAll(src).0 == done + DecodeAll(input).0 && DecodeAll(src).1 == DecodeAll(input).1
        invariant Value() == ApplyAll(start, done)
        decreases |input|
      {
        DecodeStep(input, done);
        var d := Decode(input);
        if d.End? { return None; }
        if d.Bad? { return Some(d.message); }
        TakeIn(d.item);
        assert (done + [d.item])[..|done|] == done;
        done := done + [d.item];
        input := d.rest;
      }
    }

    method TakeIn(item: Item)
      modifies this
      ensures Value() == Apply(old(Value()), item)
    {
      match item
      case Comparator(name) => { comparator := Some(name); }
      case LogNumber(n) => { logNumber := Some(n); }
      case PrevLogNumber(n) => { prevLogNumber := Some(n); }
      case NextFileNumber(n) => { nextFileNumber := Some(n); }
      case LastSequence(n) => { lastSequence := Some(n); }
      case CompactPointer(level, key) => { compactPointers := compactPointers + [(level, key)]; }
      case DeletedFile(level, n) => { deletedFiles := deletedFiles + {(level, n)}; }
      case NewFile(level, f) => { newFiles := newFiles + [(level, f)]; }
    }
  }

  lemma NoItems()
    ensures Pointers([]) == [] && NewFiles([]) == [] && EncodeAll([]) == []
  {
  }

  lemma PointersSnoc(ps: seq<(nat, bytes)>, i: nat)
    requires i < |ps|
    ensures Pointers(ps[..i + 1]) == Pointers(ps[..i]) + [CompactPointer(ps[i].0, ps[i].1)]
  {
    assert ps[..i + 1][..i] == ps[..i];
  }

  lemma NewFilesSnoc(fs: seq<(nat, FileMetaData)>, i: nat)
    requires i < |fs|
    ensures NewFiles(fs[..i + 1]) == NewFiles(fs[..i]) + [NewFile(fs[i].0, fs[i].1)]
  {
    assert fs[..i + 1][..i] == fs[..i];
  }

  lemma EncodeSnoc(items: seq<Item>, item: Item)
    ensures EncodeAll(items + [item]) == EncodeAll(items) + Encode(item)
  {
    hide Encode;
    assert (items + [item])[..|items|] == items;
  }

  lemma {:induction false} EncodeBoth(a: seq<Item>, b: seq<Item>)
    ensures EncodeAll(a + b) == EncodeAll(a) + EncodeAll(b)
  {
    hide Encode;
    if b == [] {
      assert a + b == a;
    } else {
      EncodeBoth(a, b[..|b| - 1]);
      assert (a + b)[..|a + b| - 1] == a + b[..|b| - 1];
    }
  }

  lemma EncodeParts(a: seq<Item>, b: seq<Item>, c: seq<Item>, d: seq<Item>)
    ensures EncodeAll(a + b + c + d) == EncodeAll(a) + EncodeAll(b) + EncodeAll(c) + EncodeAll(d)
  {
    hide EncodeAll;
    EncodeBoth(a + b + c, d);
    EncodeBoth(a + b, c);
    EncodeBoth(a, b);
  }

  lemma DecodeStep(input: bytes, done: seq<Item>)
    ensures var d := Decode(input);
            && (d.End? ==> done + DecodeAll(input).0 == done && DecodeAll(input).1 == None)
            && (d.Bad? ==> done + DecodeAll(input).0 == done && DecodeAll(input).1 == Some(d.message))
            && (d.Got? ==> done + DecodeAll(input).0 == (done + [d.item]) + DecodeAll(d.rest).0
                           && DecodeAll(input).1 == DecodeAll(d.rest).1)
  {
    hide Decode;
  }

  predicate IsLeast(d: (nat, nat), s: set<(nat, nat)>) {
    forall e :: e in s ==> e == d || Less(d, e)
  }

  lemma LeastExists(s: set<(nat, nat)>)
    requires s != {}
    ensures exists d :: d in s && IsLeast(d, s)
  {
    hide IsLeast;
    var d := Least(s);
  }

  lemma {:induction false} Least(s: set<(nat, nat)>) returns (d: (nat, nat))
    requires s != {}
    ensures d in s && IsLeast(d, s)
    decreases |s|
  {
    hide IsLeast, Less;
    var x :| x in s;
    var others := s - {x};
    if others != {} {
      d := Least(others);
      LeastOfBoth(s, x, d);
      d := if Less(d, x) then d else x;
    } else {
      OnlyIsLeast(s, x);
      d := x;
    }
  }

  lemma OnlyIsLeast(s: set<(nat, nat)>, x: (nat, nat))
    requires s - {x} == {}
    ensures IsLeast(x, s)
  {
    forall e | e in s ensures e == x {
      assert e !in s - {x};
    }
  }

  lemma LeastOfBoth(s: set<(nat, nat)>, x: (nat, nat), d: (nat, nat))
    requires x in s && d in s && IsLeast(d, s - {x})
    ensures IsLeast(if Less(d, x) then d else x, s)
  {
    forall e | e in s && e != x ensures e == d || Less(d, e) {
      assert e in s - {x};
    }
  }

  /** What has been written comes before what has not. */
  ghost predicate AllLess(order: seq<(nat, nat)>, rest: set<(nat, nat)>) {
    forall d, e :: d in order && e in rest ==> Less(d, e)
  }

  lemma NoDeletions(files: set<(nat, nat)>)
    ensures EncodeAll(Deletions([])) == [] && Lists([], files - files) && AllLess([], files)
  {
  }

  lemma DeletionsSnoc(order: seq<(nat, nat)>, d: (nat, nat))
    ensures Deletions(order + [d]) == Deletions(order) + [DeletedFile(d.0, d.1)]
  {
    assert (order + [d])[..|order|] == order;
  }

  lemma ListsSnoc(order: seq<(nat, nat)>, files: set<(nat, nat)>, rest: set<(nat, nat)>, d: (nat, nat))
    requires rest <= files && Lists(order, files - rest) && AllLess(order, rest) && d in rest && IsLeast(d, rest)
    ensures Lists(order + [d], files - (rest - {d})) && AllLess(order + [d], rest - {d})
  {
    forall e | e in order ensures Less(e, d) {
    }
  }
}
