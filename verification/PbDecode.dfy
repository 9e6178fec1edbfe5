/** The decoder, as it works on streams and on message structs in place (pb_decode.c). */
module PbDecode {
  import opened Wrappers
  import opened UserKeys
  import opened Coding
  import opened PbVarint
  import opened PbDescriptor
  import opened PbMessage
  import opened PbStream
  import opened PbRequired
  import D = PbDefaults
  import R = PbRoundTrip
  import U = PbUnknown
  import W = PbWire

  /** The storage of one message. */
  class MessageStruct {
    var slots: seq<Slot>

    constructor (slots: seq<Slot>)
      ensures this.slots == slots
    {
      this.slots := slots;
    }
  }

  /** The outcome of a decoder: what it succeeds with, and what is left of the input. */
  ghost predicate Gives<T(!new)>(ok: bool, v: T, rest: bytes, r: Parsed<T>) {
    ok == r.Some? && (ok ==> r == Some((v, rest)))
  }

  // ----- Defaults -----

  /** pb_field_set_to_default */
  method FieldDefault(f: Field) returns (s: Slot)
    ensures s == DefaultSlot(f) && D.Unset(f, s)
    decreases f, 1
  {
    hide Defaults, D.Unset;
    D.DefaultIsUnset(f);
    match f.htype {
      case Repeated(_) => { return Many([]); }
      case Oneof(_) => { return Which(0, Num(0)); }
      case _ => {}
    }
    var v: Value;
    if f.ltype.Message? {
      v := MessageDefault(f.ltype.fields);
    } else if f.default.Some? {
      v := f.default.value;
    } else {
      v := ZeroOf(f.ltype);
    }
    s := if f.htype.Optional? then Has(false, v) else One(v);
  }

  method MessageDefault(fields: seq<Field>) returns (v: Value)
    ensures v == ZeroOf(Message(fields))
    decreases fields, 2
  {
    hide Defaults, D.AllUnset;
    var dest := new MessageStruct(Zeroed(SlotCount(fields)));
    SetToDefaults(dest, fields);
    v := Struct(dest.slots);
  }

  function Zeroed(n: nat): (s: seq<Slot>)
    ensures |s| == n
  {
    seq(n, _ => One(Num(0)))
  }

  lemma DefaultsStep(fields: seq<Field>, n: nat)
    requires n < |fields|
    ensures SlotOf(fields, n) <= |Defaults(fields, n)| && |Defaults(fields, n + 1)| == SlotOf(fields, n) + 1
    ensures SlotOf(fields, n) < SlotCount(fields)
    ensures Defaults(fields, n)[..SlotOf(fields, n)] + [DefaultSlot(fields[n])] == Defaults(fields, n + 1)
  {
    hide DefaultSlot;
    SlotInRange(fields, n);
    R.DefaultsAt(fields, n + 1, n);
  }

  /** pb_message_set_to_defaults: every field in descriptor order, over whatever the struct held. */
  method SetToDefaults(dest: MessageStruct, fields: seq<Field>)
    requires |dest.slots| == SlotCount(fields)
    modifies dest
    ensures dest.slots == Defaults(fields, |fields|) && D.AllUnset(fields, dest.slots)
    decreases fields, 1
  {
    hide Defaults, DefaultSlot, D.AllUnset, D.Unset;
    D.DefaultsAreUnset(fields);
    NoDefaults(fields);
    var iter := new FieldIter(fields);
    var any := iter.Begin();
    if !any { return; }
    while true
      invariant fresh(iter) && iter.Valid() && iter.pos < |fields| && |dest.slots| == SlotCount(fields)
      invariant Defaults(fields, iter.pos) <= dest.slots
      decreases |fields| - iter.pos
    {
      ghost var i, before := iter.pos, dest.slots;
      DefaultsStep(fields, i);
      var slot := FieldDefault(fields[iter.pos]);
      dest.slots := dest.slots[iter.slot := slot];
      Overwritten(before, Defaults(fields, i), iter.slot, slot);
      var more := iter.Next();
      if !more { break; }
    }
    assert dest.slots == Defaults(fields, |fields|);
  }

  lemma NoDefaults(fields: seq<Field>)
    ensures Defaults(fields, 0) == []
  {
  }

  lemma Overwritten(before: seq<Slot>, done: seq<Slot>, j: nat, slot: Slot)
    requires done <= before && j <= |done| && j < |before|
    ensures done[..j] + [slot] <= before[j := slot]
  {
  }

  // ----- Items -----

  /** Four bytes shifted into place. */
  function Combined(a: nat, b: nat, c: nat, d: nat): nat {
    a + 0x100 * b + 0x1_0000 * c + 0x100_0000 * d
  }

  lemma FourBytesBack(s: bytes)
    requires |s| == 4
    ensures FromFixed(s) == Combined(s[0], s[1], s[2], s[3])
  {
    FromFixedTwo(s);
    FromFixedTwo(s[2..]);
    assert FromFixed(s[2..][2..]) == 0;
  }

  lemma EightBytesBack(s: bytes)
    requires |s| == 8
    ensures FromFixed(s) == Combined(s[0], s[1], s[2], s[3]) + 0x1_0000_0000 * Combined(s[4], s[5], s[6], s[7])
  {
    FromFixedTwo(s);
    FromFixedTwo(s[2..]);
    assert s[2..][2..] == s[4..];
    FourBytesBack(s[4..]);
  }

  lemma FromFixedTwo(s: bytes)
    requires |s| >= 2
    ensures FromFixed(s) == s[0] as nat + 0x100 * s[1] as nat + 0x1_0000 * FromFixed(s[2..])
  {
    assert s[1..][1..] == s[2..];
  }

  /** pb_dec_varint, pb_dec_uvarint, pb_dec_svarint: into the field's own size, which the number must fit. */
  method DecodeInteger(stream: InputStream, t: LType) returns (ok: bool, v: Value)
    requires stream.Valid() && (t.Int? || t.UInt? || t.SInt?)
    modifies stream
    ensures stream.Valid() && stream.End() == old(stream.End())
    ensures Gives(ok, v, stream.Rest(), DecodeItem(t, false, Num(0), old(stream.Rest())))
  {
    hide PbVarint.DecodeVarint, Signed64, Signed32, Cast, Half, Unzigzag;
    v := Num(0);
    var value;
    ok, value := stream.DecodeVarint();
    if !ok { return; }
    assert value % UINT64 == value;
    if t.size != 1 && t.size != 2 && t.size != 4 && t.size != 8 { return false, v; }
    if t.UInt? {
      if value >= 2 * Half(t.size) { return false, v; }
      return true, Num(value);
    }
    var svalue;
    if t.Int? {
      svalue := if t.size == 8 then Signed64(value) else Signed32(value);
    } else {
      svalue := Unzigzag(value);
    }
    var clamped := Cast(svalue, t.size);
    if clamped != svalue { return false, v; }
    v := Num(svalue);
  }

  /** pb_decode_fixed32, pb_decode_fixed64 */
  method DecodeFixed(stream: InputStream, t: LType) returns (ok: bool, v: Value)
    requires stream.Valid() && (t.Fixed32? || t.Fixed64?)
    modifies stream
    ensures stream.Valid() && stream.End() == old(stream.End())
    ensures Gives(ok, v, stream.Rest(), DecodeItem(t, false, Num(0), old(stream.Rest())))
  {
    hide FromFixed;
    v := Num(0);
    var b;
    if t.Fixed32? {
      ok, b := stream.Read(4);
      if !ok { return; }
      FourBytesBack(b);
      v := Num(Combined(b[0], b[1], b[2], b[3]));
    } else {
      ok, b := stream.Read(8);
      if !ok { return; }
      EightBytesBack(b);
      v := Num(Combined(b[0], b[1], b[2], b[3]) + 0x1_0000_0000 * Combined(b[4], b[5], b[6], b[7]));
    }
  }

  /** pb_dec_bytes, pb_dec_string, pb_dec_fixed_length_bytes */
  method DecodeBlob(stream: InputStream, t: LType) returns (ok: bool, v: Value)
    requires stream.Valid() && (t.Bytes? || t.Text? || t.FixedBytes?)
    modifies stream
    ensures stream.Valid() && stream.End() == old(stream.End())
    ensures Gives(ok, v, stream.Rest(), DecodeItem(t, false, Num(0), old(stream.Rest())))
  {
    hide PbVarint.DecodeVarint32;
    v := Num(0);
    var size, b;
    ok, size := stream.DecodeVarint32();
    if !ok { return; }
    if t.Bytes? {
      if size > t.max { return false, v; }
    } else if t.Text? {
      var allocSize := size + 1;
      if allocSize > t.size { return false, v; }
    } else {
      if size == 0 { return true, Blob(seq(t.size, _ => 0)); }
      if size != t.size { return false, v; }
    }
    ok, b := stream.Read(size);
    v := Blob(b);
  }

  method DecodeBool(stream: InputStream) returns (ok: bool, v: Value)
    requires stream.Valid()
    modifies stream
    ensures stream.Valid() && stream.End() == old(stream.End())
    ensures Gives(ok, v, stream.Rest(), DecodeItem(Bool, false, Num(0), old(stream.Rest())))
  {
    hide PbVarint.DecodeVarint32;
    var value;
    ok, value := stream.DecodeVarint32();
    v := Num(if value != 0 then 1 else 0);
  }

  lemma SimpleItem(t: LType, fresh_: bool, before: Value, s: bytes)
    requires !t.Message?
    ensures DecodeItem(t, fresh_, before, s) == DecodeItem(t, false, Num(0), s)
  {
    hide PbVarint.DecodeVarint32, PbVarint.DecodeVarint;
  }

  /** The field decoders, pb_dec_bool to pb_dec_submessage. */
  method DecodeItemFrom(stream: InputStream, t: LType, fresh_: bool, before: Value) returns (ok: bool, v: Value)
    requires stream.Valid() && R.ValidType(t)
    modifies stream
    ensures stream.Valid() && stream.End() <= old(stream.End()) && (ok ==> stream.End() == old(stream.End()))
    ensures Gives(ok, v, stream.Rest(), DecodeItem(t, fresh_, before, old(stream.Rest())))
    decreases t, 0
  {
    hide DecodeItem, Gives;
    ghost var s := stream.Rest();
    match t {
      case Message(fields) => {
        TypeIsValid(fields);
        ok, v := DecodeSubmessage(stream, fields, fresh_, before);
        return;
      }
      case Bool => { ok, v := DecodeBool(stream); }
      case Fixed32 => { ok, v := DecodeFixed(stream, t); }
      case Fixed64 => { ok, v := DecodeFixed(stream, t); }
      case Bytes(_) => { ok, v := DecodeBlob(stream, t); }
      case Text(_) => { ok, v := DecodeBlob(stream, t); }
      case FixedBytes(_) => { ok, v := DecodeBlob(stream, t); }
      case _ => { ok, v := DecodeInteger(stream, t); }
    }
    SimpleItem(t, fresh_, before, s);
  }

  lemma TypeIsValid(fields: seq<Field>)
    requires R.ValidType(Message(fields))
    ensures R.Valid(fields)
  {
    assert R.ValidType(Message(fields)) == R.Valid(Message(fields).fields);
  }

  /** pb_dec_submessage: array entries start from defaults, other submessages from what their storage holds. */
  method DecodeSubmessage(stream: InputStream, fields: seq<Field>, fresh_: bool, before: Value)
    returns (ok: bool, v: Value)
    requires stream.Valid() && R.Valid(fields)
    modifies stream
    ensures stream.Valid() && stream.End() <= old(stream.End()) && (ok ==> stream.End() == old(stream.End()))
    ensures Gives(ok, v, stream.Rest(), DecodeItem(Message(fields), fresh_, before, old(stream.Rest())))
    decreases fields, 5
  {
    hide W.Delimited, DecodeMessage, Defaults, R.Valid;
    var substream;
    v := Num(0);
    ok, substream := stream.MakeSubstream();
    if !ok { return; }
    var dest := new MessageStruct(if fresh_ then Zeroed(SlotCount(fields)) else SlotsOf(fields, before));
    if fresh_ {
      ok := Decode(substream, fields, dest);
    } else {
      ok := DecodeNoinit(substream, fields, dest);
    }
    stream.CloseSubstream(substream);
    v := Struct(dest.slots);
  }

  // ----- Fields -----

  lemma PackedCases(t: LType, vs: seq<Value>, max: nat, s: bytes)
    ensures s == [] ==> DecodePacked(t, vs, max, s) == Some(vs)
    ensures s != [] && |vs| >= max ==> DecodePacked(t, vs, max, s) == None
    ensures s != [] && |vs| < max && DecodeItem(t, true, Num(0), s).None? ==> DecodePacked(t, vs, max, s) == None
    ensures s != [] && |vs| < max && DecodeItem(t, true, Num(0), s).Some? ==>
              var (v, rest) := DecodeItem(t, true, Num(0), s).value;
              |rest| < |s| && DecodePacked(t, vs, max, s) == DecodePacked(t, vs + [v], max, rest)
  {
    hide DecodeItem;
  }

  /** The loop over a packed array, on its substream. */
  method DecodePackedFrom(substream: InputStream, t: LType, before: seq<Value>, max: nat)
    returns (status: bool, vs: seq<Value>)
    requires substream.Valid() && R.ValidType(t)
    modifies substream
    ensures substream.Valid() && substream.End() <= old(substream.End())
    ensures status ==> substream.End() == old(substream.End())
    ensures var r := DecodePacked(t, before, max, old(substream.Rest()));
            (status && substream.bytesLeft == 0 <==> r.Some?) && (r.Some? ==> r == Some(vs))
    decreases t, 1
  {
    hide DecodePacked, DecodeItem;
    vs := before;
    ghost var goal := DecodePacked(t, before, max, substream.Rest());
    PackedCases(t, vs, max, substream.Rest());
    while substream.bytesLeft > 0 && |vs| < max
      invariant substream.Valid() && substream.End() == old(substream.End())
      invariant goal == DecodePacked(t, vs, max, substream.Rest())
      decreases substream.bytesLeft
    {
      PackedCases(t, vs, max, substream.Rest());
      var ok, v := DecodeItemFrom(substream, t, true, Num(0));
      if !ok { return false, vs; }
      vs := vs + [v];
    }
    PackedCases(t, vs, max, substream.Rest());
    status := true;
  }

  /** A repeated field whose items come in one piece. */
  method DecodePackedField(stream: InputStream, f: Field, before: seq<Value>) returns (ok: bool, vs: seq<Value>)
    requires stream.Valid() && R.ValidType(f.ltype) && f.htype.Repeated?
    modifies stream
    ensures stream.Valid() && stream.End() <= old(stream.End()) && (ok ==> stream.End() == old(stream.End()))
    ensures Gives(ok, vs, stream.Rest(), PackedField(f.ltype, before, f.htype.max, old(stream.Rest())))
    decreases f.ltype, 2
  {
    hide DecodePacked, W.Delimited;
    vs := before;
    var substream;
    ok, substream := stream.MakeSubstream();
    if !ok { return; }
    var status;
    status, vs := DecodePackedFrom(substream, f.ltype, before, f.htype.max);
    if substream.bytesLeft != 0 { return false, vs; }
    stream.CloseSubstream(substream);
    ok := status;
  }

  function PackedField(t: LType, vs: seq<Value>, max: nat, s: bytes): Parsed<seq<Value>> {
    match W.Delimited(s)
    case None => None
    case Some((sub, rest)) => match DecodePacked(t, vs, max, sub) case None => None case Some(vs') => Some((vs', rest))
  }

  /** decode_static_field: one occurrence of a field, into its storage. */
  method DecodeField(stream: InputStream, f: Field, wire: nat, dest: MessageStruct, j: nat) returns (ok: bool)
    requires stream.Valid() && R.ValidType(f.ltype) && j < |dest.slots|
    modifies stream, dest
    ensures stream.Valid() && stream.End() <= old(stream.End()) && (ok ==> stream.End() == old(stream.End()))
    ensures |dest.slots| == old(|dest.slots|) && dest.slots == old(dest.slots)[j := dest.slots[j]]
    ensures Gives(ok, dest.slots[j], stream.Rest(), DecodeSlot(f, wire, old(dest.slots[j]), old(stream.Rest())))
    decreases f
  {
    hide DecodeItem, DecodePacked, W.Delimited, R.ValidType;
    var slot := dest.slots[j];
    match f.htype
    case Required => {
      var v;
      ok, v := DecodeItemFrom(stream, f.ltype, false, Stored(slot));
      dest.slots := dest.slots[j := One(v)];
    }
    case Singular => {
      var v;
      ok, v := DecodeItemFrom(stream, f.ltype, false, Stored(slot));
      dest.slots := dest.slots[j := One(v)];
    }
    case Optional => {
      var v;
      ok, v := DecodeItemFrom(stream, f.ltype, false, Stored(slot));
      dest.slots := dest.slots[j := Has(true, v)];
    }
    case Repeated(max) => {
      var vs := if slot.Many? then slot.vs else [];
      if wire == W.WT_STRING && Packable(f.ltype) {
        ok, vs := DecodePackedField(stream, f, vs);
        dest.slots := dest.slots[j := Many(vs)];
      } else {
        if |vs| >= max { return false; }
        var v;
        ok, v := DecodeItemFrom(stream, f.ltype, true, Num(0));
        dest.slots := dest.slots[j := Many(vs + [v])];
      }
    }
    case Oneof(_) => {
      var before := Stored(slot);
      if f.ltype.Message? && !(slot.Which? && slot.tag == f.tag) {
        before := MessageDefault(f.ltype.fields);
      }
      var v;
      ok, v := DecodeItemFrom(stream, f.ltype, false, before);
      dest.slots := dest.slots[j := Which(f.tag, v)];
    }
  }

  // ----- Messages -----

  lemma TurnEnds(fields: seq<Field>, slots: seq<Slot>, seen: set<nat>, s: bytes)
    requires |slots| == SlotCount(fields)
    ensures s == [] ==> DecodeFields(fields, slots, seen, s) == Done(slots, seen, [])
    ensures s != [] && W.DecodeTag(s).NoKey? ==> DecodeFields(fields, slots, seen, s) == Failed
    ensures s != [] && W.DecodeTag(s).AtEnd? ==> DecodeFields(fields, slots, seen, s) == Done(slots, seen, W.DecodeTag(s).rest)
  {
    hide W.DecodeTag, W.SkipField, DecodeSlot;
  }

  lemma TurnSkips(fields: seq<Field>, slots: seq<Slot>, seen: set<nat>, s: bytes)
    requires |slots| == SlotCount(fields) && s != [] && W.DecodeTag(s).Key_?
    requires IndexOf(fields, W.DecodeTag(s).tag).None?
    ensures var k := W.DecodeTag(s); var r := W.SkipField(k.rest, k.wire);
            DecodeFields(fields, slots, seen, s) == if r.None? then Failed else DecodeFields(fields, slots, seen, r.value)
  {
    hide W.DecodeTag, W.SkipField, DecodeSlot;
  }

  lemma TurnDecodes(fields: seq<Field>, slots: seq<Slot>, seen: set<nat>, s: bytes, i: nat)
    requires |slots| == SlotCount(fields) && s != [] && W.DecodeTag(s).Key_?
    requires IndexOf(fields, W.DecodeTag(s).tag) == Some(i)
    ensures i < |fields| && SlotOf(fields, i) < |slots|
    ensures var k, j := W.DecodeTag(s), SlotOf(fields, i); var r := DecodeSlot(fields[i], k.wire, slots[j], k.rest);
            DecodeFields(fields, slots, seen, s)
            == if r.None? then Failed else DecodeFields(fields, slots[j := r.value.0], Ticked(fields, i, seen), r.value.1)
  {
    hide W.DecodeTag, W.SkipField, DecodeSlot;
    SlotInRange(fields, i);
  }

  lemma IndexUnique(fields: seq<Field>, i: nat)
    requires R.Valid(fields) && i < |fields|
    ensures IndexOf(fields, fields[i].tag) == Some(i)
  {
    R.IndexIs(fields, i);
  }

  lemma NotThere(fields: seq<Field>, tag: nat)
    requires forall i :: 0 <= i < |fields| ==> fields[i].tag != tag
    ensures IndexOf(fields, tag) == None
  {
  }

  /** Only numbers of required fields, and only the first 64, are ever ticked off. */
  ghost predicate InRange(fields: seq<Field>, seen: set<nat>) {
    forall i :: i in seen ==> i < RequiredBefore(fields, |fields|) && i < MAX_REQUIRED
  }

  lemma TickedInRange(fields: seq<Field>, i: nat, seen: set<nat>)
    requires i < |fields| && InRange(fields, seen)
    ensures InRange(fields, Ticked(fields, i, seen))
  {
    if fields[i].htype.Required? { RequiredBelow(fields, i); }
  }

  /** What the decoding loop keeps: the struct, the mask and the rest of the input are those of the specification. */
  ghost predicate Going(goal: Progress, fields: seq<Field>, slots: seq<Slot>, seen: set<nat>, rest: bytes,
                        words: seq<nat>)
  {
    && |slots| == SlotCount(fields) && goal == DecodeFields(fields, slots, seen, rest)
    && Holds(words, seen) && InRange(fields, seen)
  }

  ghost predicate Finished(goal: Progress, fields: seq<Field>, slots: seq<Slot>, seen: set<nat>, words: seq<nat>) {
    && |slots| == SlotCount(fields) && goal.Done? && goal.slots == slots && goal.seen == seen
    && Holds(words, seen) && InRange(fields, seen)
  }

  /** One field of known number: ticked off when it is required, then decoded. */
  method DecodeKnown(stream: InputStream, iter: FieldIter, wire: nat, dest: MessageStruct, fieldsSeen: array<nat>,
                     ghost seen: set<nat>)
    returns (ok: bool)
    requires stream.Valid() && iter.Valid() && R.Valid(iter.fields) && iter.pos < |iter.fields|
    requires |dest.slots| == SlotCount(iter.fields) && Holds(fieldsSeen[..], seen)
    modifies stream, dest, fieldsSeen
    ensures stream.Valid() && stream.End() <= old(stream.End()) && (ok ==> stream.End() == old(stream.End()))
    ensures |dest.slots| == old(|dest.slots|) && Holds(fieldsSeen[..], Ticked(iter.fields, iter.pos, seen))
    ensures var j := SlotOf(iter.fields, iter.pos);
            && j < |dest.slots| && dest.slots == old(dest.slots)[j := dest.slots[j]]
            && Gives(ok, dest.slots[j], stream.Rest(),
                     DecodeSlot(iter.fields[iter.pos], wire, old(dest.slots[j]), old(stream.Rest())))
    decreases iter.fields, 1
  {
    hide Holds, DecodeSlot, Gives, R.Valid;
    SlotInRange(iter.fields, iter.pos);
    R.FieldIsValid(iter.fields, iter.pos);
    if iter.fields[iter.pos].htype.Required? && iter.requiredFieldIndex < MAX_REQUIRED {
      Tick(fieldsSeen, iter.requiredFieldIndex, seen);
    }
    ok := DecodeField(stream, iter.fields[iter.pos], wire, dest, iter.slot);
  }

  /** The loop of pb_decode_noinit. */
  method DecodeLoop(stream: InputStream, iter: FieldIter, dest: MessageStruct, fieldsSeen: array<nat>)
    returns (ok: bool, ghost seen: set<nat>)
    requires stream.Valid() && iter.Valid() && R.Valid(iter.fields)
    requires |dest.slots| == SlotCount(iter.fields) && Holds(fieldsSeen[..], {})
    modifies stream, iter, dest, fieldsSeen
    ensures stream.Valid() && stream.End() <= old(stream.End()) && (ok ==> stream.End() == old(stream.End()))
    ensures iter.Valid() && |dest.slots| == SlotCount(iter.fields)
    ensures var goal := DecodeFields(iter.fields, old(dest.slots), {}, old(stream.Rest()));
            ok == goal.Done? && (ok ==> Finished(goal, iter.fields, dest.slots, seen, fieldsSeen[..]))
    decreases iter.fields, 2
  {
    hide Holds, InRange, DecodeFields, DecodeSlot, R.Valid, W.DecodeTag, W.SkipField, Ticked;
    var fields := iter.fields;
    ghost var goal := DecodeFields(fields, dest.slots, {}, stream.Rest());
    seen := {};
    NothingInRange(fields);
    while stream.bytesLeft > 0
      invariant stream.Valid() && stream.End() == old(stream.End()) && iter.Valid()
      invariant Going(goal, fields, dest.slots, seen, stream.Rest(), fieldsSeen[..])
      decreases stream.bytesLeft
    {
      ghost var s := stream.Rest();
      TurnEnds(fields, dest.slots, seen, s);
      var read, wire, tag, eof := stream.DecodeTag();
      if !read {
        if !eof { return false, seen; }
        return true, seen;
      }
      var found := iter.Find(tag);
      if !found {
        NotThere(fields, tag);
        TurnSkips(fields, dest.slots, seen, s);
        ok := stream.SkipField(wire);
        if !ok { return; }
      } else {
        IndexUnique(fields, iter.pos);
        TurnDecodes(fields, dest.slots, seen, s, iter.pos);
        TickedInRange(fields, iter.pos, seen);
        ok := DecodeKnown(stream, iter, wire, dest, fieldsSeen, seen);
        seen := Ticked(fields, iter.pos, seen);
        if !ok { return; }
      }
    }
    TurnEnds(fields, dest.slots, seen, stream.Rest());
    ok := true;
  }

  lemma NothingInRange(fields: seq<Field>)
    ensures InRange(fields, {})
  {
  }

  /** pb_decode_noinit: the fields of a whole stream, then the test that no required field is missing. */
  method DecodeNoinit(stream: InputStream, fields: seq<Field>, dest: MessageStruct) returns (ok: bool)
    requires stream.Valid() && R.Valid(fields) && |dest.slots| == SlotCount(fields)
    modifies stream, dest
    ensures stream.Valid() && stream.End() <= old(stream.End()) && (ok ==> stream.End() == old(stream.End()))
    ensures |dest.slots| == SlotCount(fields)
    ensures var r := DecodeMessage(fields, old(dest.slots), old(stream.Rest()));
            ok == r.Some? && (ok ==> r == Some(dest.slots))
    decreases fields, 3
  {
    hide DecodeFields, R.Valid, Holds;
    var fieldsSeen := new nat[2](_ => 0);
    assert fieldsSeen[..] == [0, 0];
    NoneSeen();
    var iter := new FieldIter(fields);
    var any := iter.Begin();
    ghost var seen;
    ok, seen := DecodeLoop(stream, iter, dest, fieldsSeen);
    if !ok { return; }
    var reqFieldCount := CountRequired(iter);
    ok := CheckRequired(fieldsSeen, reqFieldCount, seen);
    MaskIsAllRequired(fields, seen);
  }

  lemma MaskIsAllRequired(fields: seq<Field>, seen: set<nat>)
    ensures var n := RequiredBefore(fields, |fields|);
            AllSeen(seen, if n > MAX_REQUIRED then MAX_REQUIRED else n) == AllRequired(fields, seen)
  {
  }

  /** pb_decode */
  method Decode(stream: InputStream, fields: seq<Field>, dest: MessageStruct) returns (ok: bool)
    requires stream.Valid() && R.Valid(fields) && |dest.slots| == SlotCount(fields)
    modifies stream, dest
    ensures stream.Valid() && stream.End() <= old(stream.End()) && (ok ==> stream.End() == old(stream.End()))
    ensures |dest.slots| == SlotCount(fields)
    ensures var r := DecodeMessage(fields, Defaults(fields, |fields|), old(stream.Rest()));
            ok == r.Some? && (ok ==> r == Some(dest.slots))
    ensures ok ==> forall i :: 0 <= i < |fields| && U.WholeFields(fields, Defaults(fields, |fields|), {}, old(stream.Rest())) ==>
              D.Told(fields, U.TagsOf(fields, Defaults(fields, |fields|), {}, old(stream.Rest())), dest.slots, i)
    decreases fields, 4
  {
    hide DecodeMessage, Defaults, R.Valid, D.AllUnset, D.Told, U.WholeFields, U.TagsOf;
    ghost var s := stream.Rest();
    DefaultsFill(fields);
    SetToDefaults(dest, fields);
    ok := DecodeNoinit(stream, fields, dest);
    if ok && U.WholeFields(fields, Defaults(fields, |fields|), {}, s) {
      forall i | 0 <= i < |fields|
        ensures D.Told(fields, U.TagsOf(fields, Defaults(fields, |fields|), {}, s), dest.slots, i)
      {
        D.DecodingTells(fields, s, i);
      }
    }
  }

  lemma DefaultsFill(fields: seq<Field>)
    ensures |Defaults(fields, |fields|)| == SlotCount(fields)
  {
  }
}
