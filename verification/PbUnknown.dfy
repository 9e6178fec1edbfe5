/** Unknown fields make no difference, and required fields are counted exactly (pb_decode_noinit, pb_decode.c). */
module PbUnknown {
  import opened Wrappers
  import opened UserKeys
  import opened Coding
  import opened PbVarint
  import opened PbDescriptor
  import opened PbMessage
  import opened PbRoundTrip
  import opened PbRequired
  import W = PbWire

  // ----- What a decoder has read does not depend on what follows -----

  lemma {:induction false} ReadVarintMore(s: bytes, most: nat, y: bytes)
    requires ReadVarint(s, most).Some?
    ensures ReadVarint(s + y, most) == ReadVarint(s, most)
  {
    if s[0] >= 128 {
      ReadVarintMore(s[1..], most - 1, y);
      assert (s + y)[1..] == s[1..] + y;
    }
  }

  lemma DecodeVarintMore(s: bytes, y: bytes)
    requires DecodeVarint(s).Some?
    ensures DecodeVarint(s + y) == Some((DecodeVarint(s).value.0, DecodeVarint(s).value.1 + y))
  {
    hide ReadVarint;
    ReadVarintMore(s, 10, y);
    var n := ReadVarint(s, 10).value.1;
    assert (s + y)[n..] == s[n..] + y;
  }

  lemma {:induction false} Rest32More(s: bytes, bitpos: nat, result: nat, y: bytes)
    requires DecodeRest32(s, bitpos, result).Some?
    ensures DecodeRest32(s + y, bitpos, result)
            == Some((DecodeRest32(s, bitpos, result).value.0, DecodeRest32(s, bitpos, result).value.1 + y))
    decreases |s|
  {
    hide Accumulate;
    assert (s + y)[1..] == s[1..] + y && (s + y)[0] == s[0];
    if s[0] >= 128 {
      Rest32More(s[1..], (bitpos + 7) % 256, Accumulate(result, bitpos, s[0]), y);
    }
  }

  lemma Varint32More(s: bytes, y: bytes)
    requires DecodeVarint32(s).Some?
    ensures DecodeVarint32(s + y) == Some((DecodeVarint32(s).value.0, DecodeVarint32(s).value.1 + y))
  {
    hide DecodeRest32;
    assert (s + y)[1..] == s[1..] + y;
    if s[0] >= 128 { Rest32More(s[1..], 7, s[0] - 128, y); }
  }

  lemma DelimitedMore(s: bytes, y: bytes)
    requires W.Delimited(s).Some?
    ensures W.Delimited(s + y) == Some((W.Delimited(s).value.0, W.Delimited(s).value.1 + y))
  {
    hide DecodeVarint32;
    Varint32More(s, y);
    var (n, rest) := DecodeVarint32(s).value;
    TakeMore(rest, n, y);
  }

  lemma TakeMore(s: bytes, n: nat, y: bytes)
    requires n <= |s|
    ensures (s + y)[..n] == s[..n] && (s + y)[n..] == s[n..] + y
  {
  }

  lemma {:induction false} SkipVarintMore(s: bytes, y: bytes)
    requires W.SkipVarint(s).Some?
    ensures W.SkipVarint(s + y) == Some(W.SkipVarint(s).value + y)
  {
    assert (s + y)[1..] == s[1..] + y;
    if s[0] >= 128 { SkipVarintMore(s[1..], y); }
  }

  lemma SkipFieldMore(s: bytes, wire: nat, y: bytes)
    requires W.SkipField(s, wire).Some?
    ensures W.SkipField(s + y, wire) == Some(W.SkipField(s, wire).value + y)
  {
    hide DecodeVarint32, W.SkipVarint;
    if wire == W.WT_VARINT { SkipVarintMore(s, y); }
    else if wire == W.WT_64BIT { TakeMore(s, 8, y); }
    else if wire == W.WT_32BIT { TakeMore(s, 4, y); }
    else {
      Varint32More(s, y);
      TakeMore(DecodeVarint32(s).value.1, DecodeVarint32(s).value.0, y);
    }
  }

  lemma ItemMore(t: LType, fresh_: bool, before: Value, s: bytes, y: bytes)
    requires DecodeItem(t, fresh_, before, s).Some?
    ensures DecodeItem(t, fresh_, before, s + y)
            == Some((DecodeItem(t, fresh_, before, s).value.0, DecodeItem(t, fresh_, before, s).value.1 + y))
  {
    hide DecodeVarint32, DecodeVarint, W.Delimited, DecodeMessage, Clamped, Unzigzag, FromFixed;
    if t.Int? || t.UInt? || t.SInt? {
      DecodeVarintMore(s, y);
    } else if t.Fixed32? {
      TakeMore(s, 4, y);
    } else if t.Fixed64? {
      TakeMore(s, 8, y);
    } else if t.Message? {
      DelimitedMore(s, y);
    } else {
      Varint32More(s, y);
      var (n, rest) := DecodeVarint32(s).value;
      if n <= |rest| { TakeMore(rest, n, y); }
    }
  }

  lemma SlotMore(f: Field, wire: nat, slot: Slot, s: bytes, y: bytes)
    requires DecodeSlot(f, wire, slot, s).Some?
    ensures DecodeSlot(f, wire, slot, s + y)
            == Some((DecodeSlot(f, wire, slot, s).value.0, DecodeSlot(f, wire, slot, s).value.1 + y))
  {
    hide DecodeItem, DecodePacked, W.Delimited, ZeroOf;
    match f.htype
    case Repeated(_) => {
      if wire == W.WT_STRING && Packable(f.ltype) { DelimitedMore(s, y); } else { ItemMore(f.ltype, true, Num(0), s, y); }
    }
    case Oneof(_) => {
      ItemMore(f.ltype, false, if f.ltype.Message? && !(slot.Which? && slot.tag == f.tag) then ZeroOf(f.ltype) else Stored(slot), s, y);
    }
    case _ => { ItemMore(f.ltype, false, Stored(slot), s, y); }
  }

  lemma TagMore(s: bytes, y: bytes)
    requires W.DecodeTag(s).Key_?
    ensures var k := W.DecodeTag(s); W.DecodeTag(s + y) == W.Key_(k.tag, k.wire, k.rest + y)
  {
    hide DecodeVarint32;
    Varint32More(s, y);
  }

  // ----- Whole fields -----

  /** One turn of the decoding loop. */
  function Turn(fields: seq<Field>, slots: seq<Slot>, seen: set<nat>, s: bytes): (r: Option<(seq<Slot>, set<nat>, bytes)>)
    requires |slots| == SlotCount(fields)
    ensures r.Some? ==> |r.value.0| == SlotCount(fields) && |r.value.2| < |s|
  {
    if s == [] then None
    else match W.DecodeTag(s)
      case NoKey => None
      case AtEnd(_) => None
      case Key_(tag, wire, rest) =>
        match IndexOf(fields, tag)
        case None => (match W.SkipField(rest, wire) case None => None case Some(r) => Some((slots, seen, r)))
        case Some(i) =>
          SlotInRange(fields, i);
          (match DecodeSlot(fields[i], wire, slots[SlotOf(fields, i)], rest)
           case None => None
           case Some((slot, r)) => Some((slots[SlotOf(fields, i) := slot], Ticked(fields, i, seen), r)))
  }

  lemma TurnIsStep(fields: seq<Field>, slots: seq<Slot>, seen: set<nat>, s: bytes)
    requires |slots| == SlotCount(fields) && Turn(fields, slots, seen, s).Some?
    ensures var (slots', seen', rest) := Turn(fields, slots, seen, s).value;
            DecodeFields(fields, slots, seen, s) == DecodeFields(fields, slots', seen', rest)
  {
    hide DecodeSlot, W.DecodeTag, W.SkipField;
  }

  lemma TurnMore(fields: seq<Field>, slots: seq<Slot>, seen: set<nat>, s: bytes, y: bytes)
    requires |slots| == SlotCount(fields) && Turn(fields, slots, seen, s).Some?
    ensures var (slots', seen', rest) := Turn(fields, slots, seen, s).value;
            Turn(fields, slots, seen, s + y) == Some((slots', seen', rest + y))
  {
    hide DecodeSlot, W.DecodeTag, W.SkipField;
    TagMore(s, y);
    var k := W.DecodeTag(s);
    match IndexOf(fields, k.tag)
    case None => { SkipFieldMore(k.rest, k.wire, y); }
    case Some(i) => {
      SlotInRange(fields, i);
      SlotMore(fields[i], k.wire, slots[SlotOf(fields, i)], k.rest, y);
    }
  }

  /** The bytes are a sequence of whole fields, read over this storage. */
  predicate WholeFields(fields: seq<Field>, slots: seq<Slot>, seen: set<nat>, s: bytes)
    requires |slots| == SlotCount(fields)
    decreases |s|
  {
    s == [] ||
    match Turn(fields, slots, seen, s)
    case None => false
    case Some((slots', seen', rest)) => WholeFields(fields, slots', seen', rest)
  }

  /** Decoding goes through whole fields, and on from there with what follows. */
  lemma {:induction false} ThroughFields(fields: seq<Field>, slots: seq<Slot>, seen: set<nat>, s: bytes, y: bytes)
    requires |slots| == SlotCount(fields) && WholeFields(fields, slots, seen, s)
    ensures DecodeFields(fields, slots, seen, s).Done?
    ensures var r := DecodeFields(fields, slots, seen, s);
            DecodeFields(fields, slots, seen, s + y) == DecodeFields(fields, r.slots, r.seen, y)
    decreases |s|
  {
    hide Turn;
    if s == [] {
      assert s + y == y;
    } else {
      var (slots', seen', rest) := Turn(fields, slots, seen, s).value;
      TurnIsStep(fields, slots, seen, s);
      TurnMore(fields, slots, seen, s, y);
      TurnIsStep(fields, slots, seen, s + y);
      ThroughFields(fields, slots', seen', rest, y);
    }
  }

  /** A field whose number the descriptor does not know, with a payload that is all there. */
  ghost predicate UnknownField(fields: seq<Field>, u: bytes) {
    exists tag: nat, wire: nat, payload: bytes :: UnknownAs(fields, u, tag, wire, payload)
  }

  ghost predicate UnknownAs(fields: seq<Field>, u: bytes, tag: nat, wire: nat, payload: bytes) {
    && 0 < tag < 0x2000_0000 && wire < 8 && (forall i :: 0 <= i < |fields| ==> fields[i].tag != tag)
    && u == TagBytes(tag, wire) + payload && Payload(wire, payload)
  }

  /**
   * What may follow a key of each wire type: bytes of at least 128 and one below, eight bytes, a length and that many
   * bytes, or four bytes.
   */
  predicate Payload(wire: nat, p: bytes) {
    || (wire == 0 && p != [] && p[|p| - 1] < 128 && forall k :: 0 <= k < |p| - 1 ==> p[k] >= 128)
    || (wire == 1 && |p| == 8)
    || (wire == 2 && DecodeVarint32(p).Some? && DecodeVarint32(p).value.0 == |DecodeVarint32(p).value.1|)
    || (wire == 5 && |p| == 4)
  }

  /** Exactly these are skipped, as far as they go, whatever follows. */
  lemma PayloadIsSkipped(wire: nat, p: bytes, rest: bytes)
    ensures W.SkipField(p, wire) == Some([]) <==> Payload(wire, p)
    ensures Payload(wire, p) ==> W.SkipField(p + rest, wire) == Some(rest)
  {
    hide DecodeVarint32;
    if wire == 0 { VarintSkipped(p); }
    if Payload(wire, p) {
      assert W.SkipField(p, wire) == Some([]);
      SkipFieldMore(p, wire, rest);
      assert [] + rest == rest;
    }
  }

  lemma {:induction false} VarintSkipped(p: bytes)
    ensures W.SkipVarint(p) == Some([]) <==> Payload(0, p)
  {
    if p != [] && p[0] >= 128 {
      VarintSkipped(p[1..]);
      if Payload(0, p[1..]) {
        assert forall k :: 0 < k < |p| - 1 ==> p[k] == p[1..][k - 1];
      }
      if Payload(0, p) {
        assert |p| > 1 && p[1..][|p[1..]| - 1] == p[|p| - 1];
      }
    }
  }

  /** What the encoders write is such a payload. */
  lemma EncodedPayloads(v: nat, w: nat, b: bytes)
    requires v < UINT64 && w < UINT32 && |b| < UINT32
    ensures Payload(0, Varint(v)) && Payload(1, Fixed(8, v)) && Payload(5, Fixed(4, w)) && Payload(2, Prefixed(b))
  {
    hide Prefixed, DecodeVarint32, Varint, Fixed;
    VarintPayload(v);
    FixedWidth(8, v);
    FixedWidth(4, w);
    PrefixedRoundTrip(b, []);
    assert Prefixed(b) + [] == Prefixed(b) && b + [] == b;
  }

  lemma {:induction false} FixedWidth(n: nat, v: nat)
    ensures |Fixed(n, v)| == n
  {
    if n > 0 { FixedWidth(n - 1, v / 256); }
  }

  lemma {:induction false} VarintPayload(v: nat)
    ensures Payload(0, Varint(v))
  {
    if v >= 128 {
      VarintPayload(v / 128);
      var p, q := Varint(v), Varint(v / 128);
      assert p == [v % 128 + 128] + q;
      assert p[|p| - 1] == q[|q| - 1];
    }
  }

  lemma UnknownIsSkipped(fields: seq<Field>, slots: seq<Slot>, seen: set<nat>, u: bytes, y: bytes)
    requires |slots| == SlotCount(fields) && UnknownField(fields, u)
    ensures DecodeFields(fields, slots, seen, u + y) == DecodeFields(fields, slots, seen, y)
  {
    hide TagBytes, W.SkipField, W.DecodeTag, IndexOf, Payload;
    var tag: nat, wire: nat, payload: bytes :| UnknownAs(fields, u, tag, wire, payload);
    assert u + y == TagBytes(tag, wire) + (payload + y);
    TagRoundTrip(tag, wire, payload + y);
    KeyNotEmpty(tag, wire, payload + y);
    PayloadIsSkipped(wire, payload, y);
    assert IndexOf(fields, tag) == None;
    TurnIsStep(fields, slots, seen, u + y);
  }

  /**
   * Unknown fields are neutral: put between whole fields, before them or after them, an unknown field never changes
   * what the rest of the bytes decodes to, nor whether it does.
   */
  lemma UnknownIsNeutral(fields: seq<Field>, slots: seq<Slot>, s: bytes, u: bytes, y: bytes)
    requires |slots| == SlotCount(fields) && WholeFields(fields, slots, {}, s) && UnknownField(fields, u)
    ensures DecodeMessage(fields, slots, s + u + y) == DecodeMessage(fields, slots, s + y)
  {
    hide DecodeFields, WholeFields, UnknownField;
    ThroughFields(fields, slots, {}, s, y);
    ThroughFields(fields, slots, {}, s, u + y);
    assert s + u + y == s + (u + y);
    var r := DecodeFields(fields, slots, {}, s);
    UnknownIsSkipped(fields, r.slots, r.seen, u, y);
  }

  // ----- At any depth -----

  /** A place for an unknown field: between fields of a message, or inside one of its submessages. */
  datatype Place = Here(before: bytes, after: bytes) | Inside(before: bytes, i: nat, inner: Place, after: bytes)

  /** The message with u at that place; each submessage around it has its length written anew. */
  function With(fields: seq<Field>, place: Place, u: bytes): bytes
    decreases place
  {
    match place
    case Here(before, after) => before + u + after
    case Inside(before, i, inner, after) =>
      if i < |fields| && fields[i].ltype.Message? then
        before + (TagBytes(fields[i].tag, W.WT_STRING) + (Prefixed(With(fields[i].ltype.fields, inner, u)) + after))
      else before + after
  }

  /** The storage a submessage is decoded into. */
  function SubStorage(f: Field, slot: Slot): (slots: seq<Slot>)
    requires f.ltype.Message?
    ensures |slots| == SlotCount(f.ltype.fields)
  {
    match f.htype
    case Repeated(_) => Defaults(f.ltype.fields, |f.ltype.fields|)
    case Oneof(_) => SlotsOf(f.ltype.fields, if !(slot.Which? && slot.tag == f.tag) then ZeroOf(f.ltype) else Stored(slot))
    case _ => SlotsOf(f.ltype.fields, Stored(slot))
  }

  /** Whole fields come before the place, on every level down to the one that does not know u. */
  ghost predicate PlaceOk(fields: seq<Field>, slots: seq<Slot>, place: Place, u: bytes)
    requires |slots| == SlotCount(fields)
    decreases place
  {
    && WholeFields(fields, slots, {}, place.before)
    && match place
       case Here(_, _) => UnknownField(fields, u)
       case Inside(before, i, inner, _) =>
         && i < |fields| && fields[i].ltype.Message? && 0 < fields[i].tag < 0x2000_0000 && IndexOf(fields, fields[i].tag) == Some(i)
         && |With(fields[i].ltype.fields, inner, u)| < UINT32 && |With(fields[i].ltype.fields, inner, [])| < UINT32
         && var r := DecodeFields(fields, slots, {}, before);
            && r.Done? && SlotOf(fields, i) < |r.slots|
            && PlaceOk(fields[i].ltype.fields, SubStorage(fields[i], r.slots[SlotOf(fields, i)]), inner, u)
  }

  /** Two submessages that decode alike are alike to the message around them. */
  lemma SubmessagesAlike(f: Field, slot: Slot, a: bytes, b: bytes, after: bytes)
    requires f.ltype.Message? && |a| < UINT32 && |b| < UINT32
    requires DecodeMessage(f.ltype.fields, SubStorage(f, slot), a) == DecodeMessage(f.ltype.fields, SubStorage(f, slot), b)
    ensures DecodeSlot(f, W.WT_STRING, slot, Prefixed(a) + after) == DecodeSlot(f, W.WT_STRING, slot, Prefixed(b) + after)
  {
    hide DecodeMessage, W.Delimited, Prefixed;
    PrefixedRoundTrip(a, after);
    PrefixedRoundTrip(b, after);
  }

  lemma FieldsAlike(fields: seq<Field>, slots: seq<Slot>, seen: set<nat>, i: nat, a: bytes, b: bytes)
    requires |slots| == SlotCount(fields) && i < |fields| && SlotOf(fields, i) < |slots|
    requires 0 < fields[i].tag < 0x2000_0000 && IndexOf(fields, fields[i].tag) == Some(i)
    requires DecodeSlot(fields[i], W.WT_STRING, slots[SlotOf(fields, i)], a)
             == DecodeSlot(fields[i], W.WT_STRING, slots[SlotOf(fields, i)], b)
    ensures DecodeFields(fields, slots, seen, TagBytes(fields[i].tag, W.WT_STRING) + a)
            == DecodeFields(fields, slots, seen, TagBytes(fields[i].tag, W.WT_STRING) + b)
  {
    hide DecodeSlot, W.DecodeTag, W.SkipField, TagBytes, IndexOf;
    TagRoundTrip(fields[i].tag, W.WT_STRING, a);
    TagRoundTrip(fields[i].tag, W.WT_STRING, b);
    KeyNotEmpty(fields[i].tag, W.WT_STRING, a);
    KeyNotEmpty(fields[i].tag, W.WT_STRING, b);
  }

  /** An unknown field is neutral however deep in submessages it lies. */
  lemma {:induction false} UnknownInsideIsNeutral(fields: seq<Field>, slots: seq<Slot>, place: Place, u: bytes)
    requires |slots| == SlotCount(fields) && PlaceOk(fields, slots, place, u)
    ensures DecodeMessage(fields, slots, With(fields, place, u)) == DecodeMessage(fields, slots, With(fields, place, []))
    decreases place
  {
    hide DecodeFields, WholeFields, UnknownField, DecodeSlot, TagBytes, Prefixed, IndexOf, AllRequired, SubStorage;
    match place
    case Here(before, after) => {
      assert before + [] + after == before + after;
      UnknownIsNeutral(fields, slots, before, u, after);
    }
    case Inside(before, i, inner, after) => {
      var sub, f := fields[i].ltype.fields, fields[i];
      var r := DecodeFields(fields, slots, {}, before);
      var slot := r.slots[SlotOf(fields, i)];
      var a, b := With(sub, inner, u), With(sub, inner, []);
      UnknownInsideIsNeutral(sub, SubStorage(f, slot), inner, u);
      SubmessagesAlike(f, slot, a, b, after);
      FieldsAlike(fields, r.slots, r.seen, i, Prefixed(a) + after, Prefixed(b) + after);
      ThroughFields(fields, slots, {}, before, TagBytes(f.tag, W.WT_STRING) + (Prefixed(a) + after));
      ThroughFields(fields, slots, {}, before, TagBytes(f.tag, W.WT_STRING) + (Prefixed(b) + after));
    }
  }

  // ----- Required fields -----

  /** The field numbers of whole fields. */
  function TagsOf(fields: seq<Field>, slots: seq<Slot>, seen: set<nat>, s: bytes): set<nat>
    requires |slots| == SlotCount(fields) && WholeFields(fields, slots, seen, s)
    decreases |s|
  {
    if s == [] then {}
    else
      var (slots', seen', rest) := Turn(fields, slots, seen, s).value;
      {W.DecodeTag(s).tag} + TagsOf(fields, slots', seen', rest)
  }

  /** Field i is required, and one of the first 64 that are. */
  predicate Counted(fields: seq<Field>, i: nat)
    requires i < |fields|
  {
    fields[i].htype.Required? && RequiredBefore(fields, i) < 64
  }

  /** Every count of required fields is reached at one of them. */
  lemma {:induction false} RequiredAt(fields: seq<Field>, n: nat, r: nat) returns (i: nat)
    requires n <= |fields| && r < RequiredBefore(fields, n)
    ensures i < n && fields[i].htype.Required? && RequiredBefore(fields, i) == r
  {
    if fields[n - 1].htype.Required? && RequiredBefore(fields, n - 1) == r {
      i := n - 1;
    } else {
      i := RequiredAt(fields, n - 1, r);
    }
  }

  lemma OneTurn(fields: seq<Field>, slots: seq<Slot>, seen: set<nat>, s: bytes, i: nat)
    requires Valid(fields) && |slots| == SlotCount(fields) && Turn(fields, slots, seen, s).Some?
    requires i < |fields| && Counted(fields, i)
    ensures s != [] && W.DecodeTag(s).Key_?
    ensures RequiredBefore(fields, i) in Turn(fields, slots, seen, s).value.1
            <==> RequiredBefore(fields, i) in seen || W.DecodeTag(s).tag == fields[i].tag
  {
    hide W.DecodeTag, W.SkipField, DecodeSlot, Valid;
    IndexIsUnique(fields, i);
    match IndexOf(fields, W.DecodeTag(s).tag)
    case None => {}
    case Some(k) => {
      IndexIsUnique(fields, k);
      if k < i && fields[k].htype.Required? { RequiredAscend(fields, k + 1, i); }
      if i < k { RequiredAscend(fields, i + 1, k); }
    }
  }

  lemma IndexIsUnique(fields: seq<Field>, i: nat)
    requires Valid(fields) && i < |fields|
    ensures IndexOf(fields, fields[i].tag) == Some(i)
  {
    IndexIs(fields, i);
  }

  /** A required field is ticked off exactly when its number is among those that came. */
  lemma {:induction false} SeenIsExact(fields: seq<Field>, slots: seq<Slot>, seen: set<nat>, s: bytes, i: nat)
    requires Valid(fields) && |slots| == SlotCount(fields) && WholeFields(fields, slots, seen, s)
    requires i < |fields| && Counted(fields, i)
    ensures var r := DecodeFields(fields, slots, seen, s);
            r.Done? && (RequiredBefore(fields, i) in r.seen
                        <==> RequiredBefore(fields, i) in seen || fields[i].tag in TagsOf(fields, slots, seen, s))
    decreases |s|
  {
    hide Turn, Valid;
    if s != [] {
      var (slots', seen', rest) := Turn(fields, slots, seen, s).value;
      TurnIsStep(fields, slots, seen, s);
      OneTurn(fields, slots, seen, s, i);
      SeenIsExact(fields, slots', seen', rest, i);
    }
  }

  /**
   * Required fields are counted exactly: whole fields are accepted as a message exactly when the number of each of the
   * first 64 required fields is among them.
   */
  lemma RequiredAreCounted(fields: seq<Field>, slots: seq<Slot>, s: bytes)
    requires Valid(fields) && |slots| == SlotCount(fields) && WholeFields(fields, slots, {}, s)
    ensures DecodeMessage(fields, slots, s).Some?
            <==> forall i :: 0 <= i < |fields| && Counted(fields, i) ==> fields[i].tag in TagsOf(fields, slots, {}, s)
  {
    hide DecodeFields, WholeFields, Valid, TagsOf;
    ThroughFields(fields, slots, {}, s, []);
    var seen := DecodeFields(fields, slots, {}, s).seen;
    forall i | 0 <= i < |fields| && Counted(fields, i)
      ensures RequiredBefore(fields, i) in seen <==> fields[i].tag in TagsOf(fields, slots, {}, s)
    {
      SeenIsExact(fields, slots, {}, s, i);
    }
    if AllRequired(fields, seen) {
      forall i | 0 <= i < |fields| && Counted(fields, i) ensures RequiredBefore(fields, i) in seen {
        RequiredBelow(fields, i);
      }
    } else {
      var r: nat :| r < RequiredBefore(fields, |fields|) && r < MAX_REQUIRED && r !in seen;
      var i := RequiredAt(fields, |fields|, r);
      assert Counted(fields, i);
    }
  }
}
