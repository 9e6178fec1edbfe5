/** Decoding what was encoded gives back the message (pb_encode.c, pb_decode.c). */
module PbRoundTrip {
  import opened Wrappers
  import opened UserKeys
  import opened Coding
  import opened PbVarint
  import opened PbDescriptor
  import opened PbMessage
  import W = PbWire

  // ----- Descriptors and messages the codec is made for -----

  /** Field numbers are positive, below 2 to the power 29, and distinct; fields without has flag default to zero. */
  predicate Valid(fields: seq<Field>)
    decreases fields, 1
  {
    && (forall i :: 0 <= i < |fields| ==> ValidFieldAt(fields, i))
    && forall i, j :: 0 <= i < j < |fields| ==> DifferentTags(fields, i, j)
  }

  predicate DifferentTags(fields: seq<Field>, i: nat, j: nat)
    requires i < |fields| && j < |fields|
  {
    fields[i].tag != fields[j].tag
  }

  predicate ValidFieldAt(fields: seq<Field>, i: nat)
    requires i < |fields|
    decreases fields, 0
  {
    ValidField(fields[i])
  }

  predicate ValidField(f: Field)
    decreases f
  {
    0 < f.tag < 0x2000_0000 && (f.htype.Singular? ==> f.default.None?) && ValidType(f.ltype)
  }

  predicate ValidType(t: LType)
    decreases t
  {
    t.Message? ==> Valid(t.fields)
  }

  /** Strings leave room for their terminator. */
  predicate Terminated(t: LType, v: Value)
    requires Typed(t, v)
    decreases t
  {
    match t
    case Text(size) => |v.b| < size
    case Message(fields) => forall i :: 0 <= i < |fields| ==> TerminatedField(fields, v.slots, i)
    case _ => true
  }

  predicate TerminatedField(fields: seq<Field>, slots: seq<Slot>, i: nat)
    requires i < |fields| && TypedSlots(fields, slots)
    decreases fields, 0
  {
    assert TypedField(fields, slots, i);
    TerminatedSlot(fields[i], slots[SlotOf(fields, i)])
  }

  predicate TerminatedSlot(f: Field, s: Slot)
    requires TypedSlot(f, s)
    decreases f
  {
    match f.htype
    case Repeated(_) => forall i :: 0 <= i < |s.vs| ==> Terminated(f.ltype, s.vs[i])
    case Oneof(_) => s.tag == f.tag ==> Terminated(f.ltype, s.v)
    case _ => Terminated(f.ltype, s.v)
  }

  // ----- The value of a message: what is absent counts as default -----

  function NormalValue(t: LType, v: Value): Value
    requires Typed(t, v)
    decreases t, 0
  {
    if t.Message? then Struct(Written(t.fields, |t.fields|, v.slots)) else v
  }

  function NormalValues(t: LType, vs: seq<Value>, n: nat): (r: seq<Value>)
    requires n <= |vs| && forall i :: 0 <= i < |vs| ==> Typed(t, vs[i])
    ensures |r| == n
    decreases t, 1, n
  {
    if n == 0 then [] else NormalValues(t, vs, n - 1) + [NormalValue(t, vs[n - 1])]
  }

  /** The encoder writes something for this field. */
  predicate Present(f: Field, s: Slot)
    requires TypedSlot(f, s)
  {
    match f.htype
    case Required => true
    case Optional => s.has
    case Singular => !IsZero(f.ltype, s.v)
    case Repeated(_) => s.vs != []
    case Oneof(_) => s.tag == f.tag
  }

  function NormalSlot(f: Field, s: Slot): Slot
    requires TypedSlot(f, s) && Present(f, s)
    decreases f
  {
    match f.htype
    case Required => One(NormalValue(f.ltype, s.v))
    case Singular => One(NormalValue(f.ltype, s.v))
    case Optional => Has(true, NormalValue(f.ltype, s.v))
    case Repeated(_) => Many(NormalValues(f.ltype, s.vs, |s.vs|))
    case Oneof(_) => Which(f.tag, NormalValue(f.ltype, s.v))
  }

  /** A message of defaults with the first n fields that are present filled in. */
  function Written(fields: seq<Field>, n: nat, slots: seq<Slot>): (w: seq<Slot>)
    requires n <= |fields| && TypedSlots(fields, slots)
    ensures |w| == SlotCount(fields)
    decreases fields, n
  {
    if n == 0 then Defaults(fields, |fields|)
    else
      assert TypedField(fields, slots, n - 1);
      var j := SlotOf(fields, n - 1);
      var before := Written(fields, n - 1, slots);
      if Present(fields[n - 1], slots[j]) then before[j := NormalSlot(fields[n - 1], slots[j])] else before
  }

  /** The required fields ticked off after the first n fields. */
  function Seen(fields: seq<Field>, n: nat): set<nat>
    requires n <= |fields|
  {
    if n == 0 then {} else Ticked(fields, n - 1, Seen(fields, n - 1))
  }

  // ----- Keys -----

  lemma TagRoundTrip(tag: nat, wire: nat, rest: bytes)
    requires 0 < tag < 0x2000_0000 && wire < 8
    ensures W.DecodeTag(TagBytes(tag, wire) + rest) == W.Key_(tag, wire, rest)
  {
    hide Varint, PbVarint.DecodeVarint32;
    Varint32RoundTrips(tag * 8 + wire, rest);
    NotEmpty(tag * 8 + wire, rest);
  }

  lemma NotEmpty(v: nat, rest: bytes)
    ensures Varint(v) + rest != []
  {
  }

  lemma {:induction false} IndexIs(fields: seq<Field>, i: nat)
    requires i < |fields| && forall j, k :: 0 <= j < k < |fields| ==> DifferentTags(fields, j, k)
    ensures IndexOf(fields, fields[i].tag) == Some(i)
  {
    var n := |fields| - 1;
    if i < n {
      assert DifferentTags(fields, i, n);
      forall j, k | 0 <= j < k < n ensures DifferentTags(fields[..n], j, k) {
        assert DifferentTags(fields, j, k);
      }
      IndexIs(fields[..n], i);
    }
  }

  /** A known key at the front: its field is decoded, and the loop goes on. */
  lemma KnownField(fields: seq<Field>, i: nat, slots: seq<Slot>, seen: set<nat>, wire: nat, body: bytes, slot: Slot, rest: bytes)
    requires Valid(fields) && i < |fields| && |slots| == SlotCount(fields) && wire < 8
    requires SlotOf(fields, i) < |slots|
    requires DecodeSlot(fields[i], wire, slots[SlotOf(fields, i)], body) == Some((slot, rest))
    ensures DecodeFields(fields, slots, seen, TagBytes(fields[i].tag, wire) + body)
            == DecodeFields(fields, slots[SlotOf(fields, i) := slot], Ticked(fields, i, seen), rest)
  {
    hide DecodeSlot, TagBytes, W.DecodeTag;
    FieldIsValid(fields, i);
    TagRoundTrip(fields[i].tag, wire, body);
    IndexIs(fields, i);
    KeyNotEmpty(fields[i].tag, wire, body);
  }

  lemma FieldIsValid(fields: seq<Field>, i: nat)
    requires Valid(fields) && i < |fields|
    ensures 0 < fields[i].tag < 0x2000_0000 && ValidType(fields[i].ltype)
    ensures fields[i].htype.Singular? ==> fields[i].default.None?
  {
    assert ValidFieldAt(fields, i);
    FieldUnfold(fields[i]);
  }

  lemma FieldUnfold(f: Field)
    requires ValidField(f)
    ensures 0 < f.tag < 0x2000_0000 && ValidType(f.ltype) && (f.htype.Singular? ==> f.default.None?)
  {
  }

  lemma KeyNotEmpty(tag: nat, wire: nat, rest: bytes)
    ensures TagBytes(tag, wire) + rest != []
  {
    NotEmpty(tag * 8 + wire, rest);
  }

  // ----- Items -----

  lemma PrefixedRoundTrip(b: bytes, rest: bytes)
    requires |b| < UINT32
    ensures DecodeVarint32(Prefixed(b) + rest) == Some((|b|, b + rest))
    ensures (b + rest)[..|b|] == b && (b + rest)[|b|..] == rest
    ensures W.Delimited(Prefixed(b) + rest) == Some((b, rest))
  {
    hide Varint, DecodeVarint32;
    assert Prefixed(b) + rest == Varint(|b|) + (b + rest);
    Varint32RoundTrips(|b|, b + rest);
  }

  lemma NumberRoundTrip(t: LType, v: Value, fresh_: bool, before: Value, rest: bytes)
    requires t.Bool? || t.Int? || t.UInt? || t.SInt?
    requires Typed(t, v) && EncodeItem(t, v).Some?
    ensures DecodeItem(t, fresh_, before, EncodeItem(t, v).value + rest) == Some((v, rest))
  {
    hide Varint, DecodeVarint32, DecodeVarint, Clamped, Zigzag, Unzigzag;
    if t.Bool? {
      Varint32RoundTrips(v.n, rest);
    } else if t.Int? {
      Varint64RoundTrips(Bits64(v.n), rest);
      IntBack(v.n, t.size);
    } else if t.UInt? {
      Varint64RoundTrips(v.n, rest);
    } else {
      Varint64RoundTrips(Zigzag(v.n), rest);
      ZigzagRoundTrip(v.n);
      SIntBack(v.n, t.size);
    }
  }

  lemma IntBack(n: int, size: nat)
    requires IntSize(size) && 0 - Half(size) <= n < Half(size)
    ensures Clamped(if size == 8 then Signed64(Bits64(n) % UINT64) else Signed32(Bits64(n)), size) == Some(Num(n))
  {
    SIntBack(n, size);
    if size != 8 && n < 0 {
      assert Bits64(n) % UINT32 == UINT32 + n by { LowBits(n); }
    }
  }

  lemma LowBits(n: int)
    requires -0x8000_0000 <= n < 0
    ensures (UINT64 + n) % UINT32 == UINT32 + n
  {
    assert UINT64 + n == UINT32 * 4294967295 + (UINT32 + n);
  }

  lemma SIntBack(n: int, size: nat)
    requires IntSize(size) && 0 - Half(size) <= n < Half(size)
    ensures Clamped(n, size) == Some(Num(n))
  {
  }

  lemma FixedItem(t: LType, v: Value, fresh_: bool, before: Value, rest: bytes)
    requires t.Fixed32? || t.Fixed64?
    requires Typed(t, v)
    ensures DecodeItem(t, fresh_, before, EncodeItem(t, v).value + rest) == Some((v, rest))
  {
    hide Fixed, FromFixed;
    var n := if t.Fixed32? then 4 else 8;
    var s := Fixed(n, v.n) + rest;
    assert s[..n] == Fixed(n, v.n) && s[n..] == rest;
    Widths();
    FixedRoundTrip(n, v.n);
  }

  lemma {:induction false} CStringIs(s: bytes, size: nat)
    requires |s| <= size && 0 !in s
    ensures CString(s, size) == s
  {
    if s != [] {
      assert s[0] in s && 0 !in s[1..];
      CStringIs(s[1..], size - 1);
      assert s == [s[0]] + s[1..];
    }
  }

  lemma BlobItem(t: LType, v: Value, fresh_: bool, before: Value, rest: bytes)
    requires t.Bytes? || t.Text? || t.FixedBytes?
    requires Typed(t, v) && Terminated(t, v) && EncodeItem(t, v).Some? && |EncodeItem(t, v).value| < UINT32
    ensures DecodeItem(t, fresh_, before, EncodeItem(t, v).value + rest) == Some((v, rest))
  {
    hide Varint, DecodeVarint32;
    if t.Text? { CStringIs(v.b, t.size); }
    assert |v.b| <= |Prefixed(v.b)|;
    PrefixedRoundTrip(v.b, rest);
    hide Prefixed;
    if t.FixedBytes? && t.size == 0 {
      assert v.b == [] == seq(t.size, _ => 0);
      assert v.b + rest == rest;
    }
  }

  /** A full char array without terminator is encoded all the same, but no longer fits when it is decoded. */
  lemma UnterminatedTextIsRefused(size: nat, v: Value, rest: bytes, fresh_: bool, before: Value)
    requires Typed(Text(size), v) && size < UINT32
    ensures var e := EncodeItem(Text(size), v);
            e.Some? && (DecodeItem(Text(size), fresh_, before, e.value + rest) == Some((v, rest)) <==> Terminated(Text(size), v))
  {
    hide Varint, DecodeVarint32;
    CStringIs(v.b, size);
    PrefixedRoundTrip(v.b, rest);
    hide Prefixed;
  }

  // ----- Storage: fields share it only within a union, and until a field is written it holds its default -----

  lemma {:induction false} SharedAreOneofs(fields: seq<Field>, k: nat, i: nat)
    requires k < i < |fields| && SlotOf(fields, k) == SlotOf(fields, i)
    ensures fields[k].htype.Oneof? && fields[i].htype.Oneof?
    decreases i
  {
    SlotsAscend(fields, k, i - 1);
    SlotsAscend(fields, i - 1, i);
    if k < i - 1 { SharedAreOneofs(fields, k, i - 1); }
  }

  lemma {:induction false} DefaultsAt(fields: seq<Field>, n: nat, i: nat)
    requires i < n <= |fields|
    ensures SlotOf(fields, i) < |Defaults(fields, n)| && Defaults(fields, n)[SlotOf(fields, i)] == DefaultSlot(fields[i])
    decreases n
  {
    hide DefaultSlot;
    SlotsAscend(fields, i, n - 1);
    if i < n - 1 {
      SlotsAscend(fields, i, n - 2);
      DefaultsAt(fields, n - 1, i);
    } else if n > 1 && Shares(fields, n - 1) {
      DefaultsAt(fields, n - 1, n - 2);
      UnionDefault(fields[n - 2], fields[n - 1]);
    }
  }

  lemma UnionDefault(f: Field, g: Field)
    requires f.htype.Oneof? && g.htype.Oneof?
    ensures DefaultSlot(f) == DefaultSlot(g)
  {
  }

  /** Field k of the message is present. */
  predicate PresentAt(fields: seq<Field>, slots: seq<Slot>, k: nat)
    requires k < |fields| && TypedSlots(fields, slots)
  {
    assert TypedField(fields, slots, k);
    Present(fields[k], slots[SlotOf(fields, k)])
  }

  lemma {:induction false} Untouched(fields: seq<Field>, n: nat, slots: seq<Slot>, j: nat)
    requires n <= |fields| && TypedSlots(fields, slots) && j < SlotCount(fields)
    requires forall k :: 0 <= k < n && SlotOf(fields, k) == j ==> !PresentAt(fields, slots, k)
    ensures Written(fields, n, slots)[j] == Defaults(fields, |fields|)[j]
  {
    if n > 0 {
      assert SlotOf(fields, n - 1) == j ==> !PresentAt(fields, slots, n - 1);
      Untouched(fields, n - 1, slots, j);
    }
  }

  /** When a present field's turn comes, its storage still holds the default. */
  lemma StillDefault(fields: seq<Field>, i: nat, slots: seq<Slot>)
    requires Valid(fields) && i < |fields| && TypedSlots(fields, slots) && PresentAt(fields, slots, i)
    ensures SlotOf(fields, i) < SlotCount(fields)
    ensures Written(fields, i, slots)[SlotOf(fields, i)] == DefaultSlot(fields[i])
  {
    var j := SlotOf(fields, i);
    SlotInRange(fields, i);
    forall k | 0 <= k < i && SlotOf(fields, k) == j ensures !PresentAt(fields, slots, k) {
      SharedAreOneofs(fields, k, i);
      assert TypedField(fields, slots, i) && TypedField(fields, slots, k) && DifferentTags(fields, k, i);
    }
    Untouched(fields, i, slots, j);
    DefaultsAt(fields, |fields|, i);
  }

  // ----- The recursion over the descriptor -----

  /** Everything below is about messages that are typed, terminated, encodable, and shorter than 2 to the power 32. */
  ghost predicate GoodItem(t: LType, v: Value) {
    ValidType(t) && Typed(t, v) && Terminated(t, v) && EncodeItem(t, v).Some? && |EncodeItem(t, v).value| < UINT32
  }

  ghost predicate GoodMessage(fields: seq<Field>, slots: seq<Slot>) {
    && Valid(fields) && TypedSlots(fields, slots)
    && (forall i :: 0 <= i < |fields| ==> TerminatedField(fields, slots, i))
    && EncodeFields(fields, |fields|, slots).Some? && |EncodeFields(fields, |fields|, slots).value| < UINT32
  }

  lemma MessageIsGood(fields: seq<Field>, v: Value)
    requires GoodItem(Message(fields), v)
    ensures v.Struct? && GoodMessage(fields, v.slots)
    ensures EncodeItem(Message(fields), v) == Some(Prefixed(EncodeFields(fields, |fields|, v.slots).value))
  {
    hide Varint;
    assert Typed(Message(fields), v);
    assert Terminated(Message(fields), v);
    assert ValidType(Message(fields));
  }

  lemma ItemNotEmpty(t: LType, v: Value)
    requires Typed(t, v) && EncodeItem(t, v).Some?
    ensures EncodeItem(t, v).value != []
  {
  }

  lemma {:induction false} ItemBack(t: LType, v: Value, fresh_: bool, before: Value, rest: bytes)
    requires GoodItem(t, v) && (t.Message? && !fresh_ ==> before == ZeroOf(t))
    ensures DecodeItem(t, fresh_, before, EncodeItem(t, v).value + rest) == Some((NormalValue(t, v), rest))
    decreases t, 0
  {
    if t.Message? {
      MessageIsGood(t.fields, v);
      MessageBack(t.fields, v.slots);
      var b := EncodeFields(t.fields, |t.fields|, v.slots).value;
      PrefixedRoundTrip(b, rest);
      SubmessageDecodes(t.fields, v, fresh_, before, Prefixed(b) + rest, b, rest);
    } else if t.Fixed32? || t.Fixed64? {
      FixedItem(t, v, fresh_, before, rest);
    } else if t.Bytes? || t.Text? || t.FixedBytes? {
      BlobItem(t, v, fresh_, before, rest);
    } else {
      NumberRoundTrip(t, v, fresh_, before, rest);
    }
  }

  lemma SubmessageDecodes(fields: seq<Field>, v: Value, fresh_: bool, before: Value, s: bytes, b: bytes, rest: bytes)
    requires Typed(Message(fields), v) && W.Delimited(s) == Some((b, rest))
    requires !fresh_ ==> before == ZeroOf(Message(fields))
    requires TypedSlots(fields, v.slots)
    requires DecodeMessage(fields, Defaults(fields, |fields|), b) == Some(Written(fields, |fields|, v.slots))
    ensures DecodeItem(Message(fields), fresh_, before, s) == Some((NormalValue(Message(fields), v), rest))
  {
    hide W.Delimited, Written, DecodeMessage;
    if !fresh_ {
      assert before == Struct(Defaults(fields, |fields|));
      assert SlotsOf(fields, before) == Defaults(fields, |fields|);
    }
  }

  lemma {:induction false} MessageBack(fields: seq<Field>, slots: seq<Slot>)
    requires GoodMessage(fields, slots)
    ensures DecodeMessage(fields, Defaults(fields, |fields|), EncodeFields(fields, |fields|, slots).value)
            == Some(Written(fields, |fields|, slots))
    decreases fields, 3
  {
    var e := EncodeFields(fields, |fields|, slots).value;
    FieldsBack(fields, |fields|, slots, []);
    assert e + [] == e;
    SeenAll(fields, |fields|);
  }

  /** Every required field is ticked off once the walk is through. */
  lemma {:induction false} SeenAll(fields: seq<Field>, n: nat)
    requires n <= |fields|
    ensures forall r :: 0 <= r < RequiredBefore(fields, n) && r < MAX_REQUIRED ==> r in Seen(fields, n)
  {
    if n > 0 { SeenAll(fields, n - 1); }
  }

  lemma {:induction false} FieldsBack(fields: seq<Field>, n: nat, slots: seq<Slot>, tail: bytes)
    requires GoodMessage(fields, slots) && n <= |fields|
    ensures EncodeFields(fields, n, slots).Some?
    ensures DecodeFields(fields, Defaults(fields, |fields|), {}, EncodeFields(fields, n, slots).value + tail)
            == DecodeFields(fields, Written(fields, n, slots), Seen(fields, n), tail)
    decreases fields, 2, n
  {
    hide DecodeFields, EncodeFields, EncodeSlot, Written, Defaults, Ticked, TerminatedField, Valid, TypedSlots;
    PrefixEncodes(fields, n, slots);
    if n == 0 {
      NothingYet(fields, slots, tail);
    } else {
      SlotBack(fields, n - 1, slots, Seen(fields, n - 1), tail);
      var b, c := EncodeFields(fields, n - 1, slots).value, EncodeSlot(fields[n - 1], slots[SlotOf(fields, n - 1)]).value;
      FieldsBack(fields, n - 1, slots, c + tail);
      assert EncodeFields(fields, n, slots).value + tail == b + (c + tail);
    }
  }

  lemma NothingYet(fields: seq<Field>, slots: seq<Slot>, tail: bytes)
    requires TypedSlots(fields, slots)
    ensures EncodeFields(fields, 0, slots) == Some([]) && [] + tail == tail
    ensures Written(fields, 0, slots) == Defaults(fields, |fields|) && Seen(fields, 0) == {}
  {
  }

  lemma {:induction false} PrefixEncodes(fields: seq<Field>, n: nat, slots: seq<Slot>)
    requires GoodMessage(fields, slots) && n <= |fields|
    ensures EncodeFields(fields, n, slots).Some? && |EncodeFields(fields, n, slots).value| < UINT32
    ensures n > 0 ==>
              && TypedField(fields, slots, n - 1)
              && EncodeFields(fields, n - 1, slots).Some? && EncodeSlot(fields[n - 1], slots[SlotOf(fields, n - 1)]).Some?
              && EncodeFields(fields, n, slots).value
                 == EncodeFields(fields, n - 1, slots).value + EncodeSlot(fields[n - 1], slots[SlotOf(fields, n - 1)]).value
    decreases |fields| - n
  {
    if n < |fields| { PrefixEncodes(fields, n + 1, slots); }
    if n > 0 { assert TypedField(fields, slots, n - 1); }
  }

  /** One field's part of the encoding takes the message one step on. */
  lemma {:induction false} SlotBack(fields: seq<Field>, i: nat, slots: seq<Slot>, seen: set<nat>, tail: bytes)
    requires GoodMessage(fields, slots) && i < |fields|
    ensures TypedField(fields, slots, i) && EncodeSlot(fields[i], slots[SlotOf(fields, i)]).Some?
    ensures DecodeFields(fields, Written(fields, i, slots), seen, EncodeSlot(fields[i], slots[SlotOf(fields, i)]).value + tail)
            == DecodeFields(fields, Written(fields, i + 1, slots), Ticked(fields, i, seen), tail)
    decreases fields, 1
  {
    hide DecodeFields, Written, EncodeFields, DefaultSlot, Defaults;
    PrefixEncodes(fields, i + 1, slots);
    SlotIsGood(fields, i, slots);
    var f, s := fields[i], slots[SlotOf(fields, i)];
    WrittenStep(fields, i, slots);
    if !Present(f, s) {
      AbsentIsEmpty(f, s);
      NotTicked(fields, i, slots, seen);
      assert EncodeSlot(f, s).value + tail == tail;
    } else {
      StillDefault(fields, i, slots);
      if f.htype.Repeated? {
        ArrayBack(fields, i, slots, seen, tail);
      } else {
        SingleBack(fields, i, slots, seen, tail);
      }
    }
  }

  /** What a good message says of one of its fields. */
  ghost predicate GoodSlot(f: Field, s: Slot) {
    ValidType(f.ltype) && TypedSlot(f, s) && TerminatedSlot(f, s) && EncodeSlot(f, s).Some? && |EncodeSlot(f, s).value| < UINT32
  }

  lemma SlotIsGood(fields: seq<Field>, i: nat, slots: seq<Slot>)
    requires GoodMessage(fields, slots) && i < |fields|
    ensures TypedField(fields, slots, i) && GoodSlot(fields[i], slots[SlotOf(fields, i)])
  {
    hide EncodeFields, EncodeSlot;
    PrefixEncodes(fields, i + 1, slots);
    FieldIsValid(fields, i);
    assert TypedField(fields, slots, i) && TerminatedField(fields, slots, i);
  }

  lemma WrittenStep(fields: seq<Field>, i: nat, slots: seq<Slot>)
    requires TypedSlots(fields, slots) && i < |fields|
    ensures TypedField(fields, slots, i) && SlotOf(fields, i) < |Written(fields, i, slots)|
    ensures var j := SlotOf(fields, i);
            Written(fields, i + 1, slots)
            == if Present(fields[i], slots[j]) then Written(fields, i, slots)[j := NormalSlot(fields[i], slots[j])]
               else Written(fields, i, slots)
  {
    hide NormalSlot, Present;
    assert TypedField(fields, slots, i);
    SlotInRange(fields, i);
  }

  lemma AbsentIsEmpty(f: Field, s: Slot)
    requires TypedSlot(f, s) && !Present(f, s)
    ensures EncodeSlot(f, s) == Some([])
  {
  }

  lemma NotTicked(fields: seq<Field>, i: nat, slots: seq<Slot>, seen: set<nat>)
    requires i < |fields| && TypedSlots(fields, slots)
    requires TypedField(fields, slots, i) && !Present(fields[i], slots[SlotOf(fields, i)])
    ensures Ticked(fields, i, seen) == seen
  {
  }

  /** A field that holds one item, and has it encoded. */
  lemma {:induction false} SingleBack(fields: seq<Field>, i: nat, slots: seq<Slot>, seen: set<nat>, tail: bytes)
    requires GoodMessage(fields, slots) && i < |fields|
    requires TypedField(fields, slots, i) && Present(fields[i], slots[SlotOf(fields, i)]) && !fields[i].htype.Repeated?
    requires EncodeSlot(fields[i], slots[SlotOf(fields, i)]).Some?
    requires SlotOf(fields, i) < SlotCount(fields)
    requires Written(fields, i, slots)[SlotOf(fields, i)] == DefaultSlot(fields[i])
    ensures DecodeFields(fields, Written(fields, i, slots), seen, EncodeSlot(fields[i], slots[SlotOf(fields, i)]).value + tail)
            == DecodeFields(fields, Written(fields, i + 1, slots), Ticked(fields, i, seen), tail)
    decreases fields, 0
  {
    hide DecodeFields, Written, EncodeFields, EncodeItem, DecodeItem, TagBytes;
    SlotIsGood(fields, i, slots);
    WrittenStep(fields, i, slots);
    var f, j := fields[i], SlotOf(fields, i);
    var s := slots[j];
    SingleIsGood(f, s);
    var e := EncodeItem(f.ltype, s.v).value;
    var before := if f.htype.Oneof? && f.ltype.Message? then ZeroOf(f.ltype) else Stored(DefaultSlot(f));
    FieldIsValid(fields, i);
    FieldItemBack(f, s.v, false, before, tail);
    SlotDecodes(f, s, e + tail, tail);
    assert EncodeSlot(f, s).value + tail == TagBytes(f.tag, WireType(f.ltype)) + (e + tail);
    KnownField(fields, i, Written(fields, i, slots), seen, WireType(f.ltype), e + tail, NormalSlot(f, s), tail);
  }

  lemma {:induction false} FieldItemBack(f: Field, v: Value, fresh_: bool, before: Value, rest: bytes)
    requires GoodItem(f.ltype, v) && (f.ltype.Message? && !fresh_ ==> before == ZeroOf(f.ltype))
    ensures DecodeItem(f.ltype, fresh_, before, EncodeItem(f.ltype, v).value + rest) == Some((NormalValue(f.ltype, v), rest))
    decreases f
  {
    hide DecodeItem, EncodeItem, NormalValue, GoodItem, ZeroOf;
    ItemBack(f.ltype, v, fresh_, before, rest);
  }

  lemma SingleIsGood(f: Field, s: Slot)
    requires GoodSlot(f, s) && Present(f, s) && !f.htype.Repeated?
    ensures GoodItem(f.ltype, s.v)
    ensures EncodeSlot(f, s) == Some(TagBytes(f.tag, WireType(f.ltype)) + EncodeItem(f.ltype, s.v).value)
  {
    hide EncodeItem, TagBytes;
  }

  lemma SlotDecodes(f: Field, s: Slot, body: bytes, rest: bytes)
    requires TypedSlot(f, s) && Present(f, s) && !f.htype.Repeated? && f.tag > 0
    requires var before := if f.htype.Oneof? && f.ltype.Message? then ZeroOf(f.ltype) else Stored(DefaultSlot(f));
             DecodeItem(f.ltype, false, before, body) == Some((NormalValue(f.ltype, s.v), rest))
    ensures DecodeSlot(f, WireType(f.ltype), DefaultSlot(f), body) == Some((NormalSlot(f, s), rest))
  {
    hide DecodeItem, NormalValue, ZeroOf;
  }

  // ----- Arrays -----

  lemma {:induction false} ArrayBack(fields: seq<Field>, i: nat, slots: seq<Slot>, seen: set<nat>, tail: bytes)
    requires GoodMessage(fields, slots) && i < |fields|
    requires TypedField(fields, slots, i) && Present(fields[i], slots[SlotOf(fields, i)]) && fields[i].htype.Repeated?
    requires EncodeSlot(fields[i], slots[SlotOf(fields, i)]).Some?
    requires SlotOf(fields, i) < SlotCount(fields)
    requires Written(fields, i, slots)[SlotOf(fields, i)] == DefaultSlot(fields[i])
    ensures DecodeFields(fields, Written(fields, i, slots), seen, EncodeSlot(fields[i], slots[SlotOf(fields, i)]).value + tail)
            == DecodeFields(fields, Written(fields, i + 1, slots), Ticked(fields, i, seen), tail)
    decreases fields, 0
  {
    hide DecodeFields, Written, EncodeFields, EncodeItems, EncodeKeyed, NormalValues, TagBytes, Prefixed, DecodePacked;
    SlotIsGood(fields, i, slots);
    WrittenStep(fields, i, slots);
    var f, j, w := fields[i], SlotOf(fields, i), Written(fields, i, slots);
    var s := slots[j];
    var n := |s.vs|;
    if Packable(f.ltype) {
      var b := EncodeItems(f.ltype, s.vs, n).value;
      assert EncodeSlot(f, s).value == TagBytes(f.tag, W.WT_STRING) + Prefixed(b);
      PrefixedIsLonger(b);
      PackedBack(f.ltype, [], s.vs, n, f.htype.max, []);
      PackedEnds(f.ltype, s.vs, n, f.htype.max, b);
      PrefixedRoundTrip(b, tail);
      assert EncodeSlot(f, s).value + tail == TagBytes(f.tag, W.WT_STRING) + (Prefixed(b) + tail);
      PackedSlot(f, s, Prefixed(b) + tail, b, tail);
      KnownField(fields, i, w, seen, W.WT_STRING, Prefixed(b) + tail, NormalSlot(f, s), tail);
    } else {
      KeyedBack(fields, i, w, seen, [], s.vs, n, tail);
      assert w[j := Many([])] == w by { RepeatedDefault(f); }
      assert [] + NormalValues(f.ltype, s.vs, n) == NormalValues(f.ltype, s.vs, n);
    }
  }

  lemma RepeatedDefault(f: Field)
    requires f.htype.Repeated?
    ensures DefaultSlot(f) == Many([])
  {
  }

  lemma PrefixedIsLonger(b: bytes)
    ensures |Prefixed(b)| > |b|
  {
    hide Varint;
  }

  lemma PackedSlot(f: Field, s: Slot, body: bytes, b: bytes, rest: bytes)
    requires TypedSlot(f, s) && Present(f, s) && f.htype.Repeated? && Packable(f.ltype)
    requires W.Delimited(body) == Some((b, rest))
    requires DecodePacked(f.ltype, [], f.htype.max, b) == Some(NormalValues(f.ltype, s.vs, |s.vs|))
    ensures DecodeSlot(f, W.WT_STRING, DefaultSlot(f), body) == Some((NormalSlot(f, s), rest))
  {
    hide DecodePacked, NormalValues, W.Delimited;
  }

  lemma PackedEnds(t: LType, vs: seq<Value>, n: nat, max: nat, b: bytes)
    requires n <= |vs| && forall i :: 0 <= i < |vs| ==> Typed(t, vs[i])
    requires DecodePacked(t, [], max, b + []) == DecodePacked(t, [] + NormalValues(t, vs, n), max, [])
    ensures DecodePacked(t, [], max, b) == Some(NormalValues(t, vs, n))
  {
    hide NormalValues;
    assert b + [] == b && [] + NormalValues(t, vs, n) == NormalValues(t, vs, n);
  }

  ghost predicate GoodItems(t: LType, vs: seq<Value>) {
    ValidType(t) && forall i :: 0 <= i < |vs| ==> Typed(t, vs[i]) && Terminated(t, vs[i])
  }

  /** The first n items of a packed array are read back one by one, behind those that are there already. */
  lemma {:induction false} PackedBack(t: LType, old_: seq<Value>, vs: seq<Value>, n: nat, max: nat, tail: bytes)
    requires Packable(t) && GoodItems(t, vs) && n <= |vs| <= max - |old_|
    requires EncodeItems(t, vs, n).Some? && |EncodeItems(t, vs, n).value| < UINT32
    ensures DecodePacked(t, old_, max, EncodeItems(t, vs, n).value + tail)
            == DecodePacked(t, old_ + NormalValues(t, vs, n), max, tail)
    decreases n
  {
    hide DecodePacked, EncodeItem, DecodeItem, NormalValue;
    if n == 0 {
      assert EncodeItems(t, vs, 0).value + tail == tail && old_ + NormalValues(t, vs, 0) == old_;
    } else {
      var b, c := EncodeItems(t, vs, n - 1).value, EncodeItem(t, vs[n - 1]).value;
      assert EncodeItems(t, vs, n).value == b + c;
      PackedBack(t, old_, vs, n - 1, max, c + tail);
      assert b + c + tail == b + (c + tail);
      assert GoodItem(t, vs[n - 1]);
      PackableBack(t, vs[n - 1], tail);
      ItemNotEmpty(t, vs[n - 1]);
      PackedStep(t, old_ + NormalValues(t, vs, n - 1), max, c + tail, NormalValue(t, vs[n - 1]), tail);
      assert old_ + NormalValues(t, vs, n - 1) + [NormalValue(t, vs[n - 1])] == old_ + NormalValues(t, vs, n);
    }
  }

  lemma PackableBack(t: LType, v: Value, rest: bytes)
    requires Packable(t) && GoodItem(t, v)
    ensures DecodeItem(t, true, Num(0), EncodeItem(t, v).value + rest) == Some((NormalValue(t, v), rest))
  {
    hide EncodeItem, DecodeItem;
    if t.Fixed32? || t.Fixed64? { FixedItem(t, v, true, Num(0), rest); } else { NumberRoundTrip(t, v, true, Num(0), rest); }
  }

  lemma PackedStep(t: LType, vs: seq<Value>, max: nat, s: bytes, v: Value, rest: bytes)
    requires |vs| < max && DecodeItem(t, true, Num(0), s) == Some((v, rest))
    ensures DecodePacked(t, vs, max, s) == DecodePacked(t, vs + [v], max, rest)
  {
    hide DecodeItem;
  }

  /** The first n items of an array, each behind its own key; the decoder takes them whatever their type. */
  lemma {:induction false} KeyedBack(fields: seq<Field>, i: nat, w: seq<Slot>, seen: set<nat>, old_: seq<Value>, vs: seq<Value>,
                                     n: nat, tail: bytes)
    requires Valid(fields) && i < |fields| && |w| == SlotCount(fields) && SlotOf(fields, i) < |w|
    requires fields[i].htype.Repeated? && GoodItems(fields[i].ltype, vs)
    requires n <= |vs| <= fields[i].htype.max - |old_|
    requires var e := EncodeKeyed(fields[i].tag, fields[i].ltype, vs, n); e.Some? && |e.value| < UINT32
    ensures var f, j := fields[i], SlotOf(fields, i);
            DecodeFields(fields, w[j := Many(old_)], seen, EncodeKeyed(f.tag, f.ltype, vs, n).value + tail)
            == DecodeFields(fields, w[j := Many(old_ + NormalValues(f.ltype, vs, n))], seen, tail)
    decreases fields, 0, n
  {
    hide DecodeFields, EncodeItem, DecodeItem, NormalValue, TagBytes;
    var f, j := fields[i], SlotOf(fields, i);
    if n == 0 {
      assert EncodeKeyed(f.tag, f.ltype, vs, 0).value + tail == tail && old_ + NormalValues(f.ltype, vs, 0) == old_;
    } else {
      var b, c := EncodeKeyed(f.tag, f.ltype, vs, n - 1).value, EncodeItem(f.ltype, vs[n - 1]).value;
      var key := TagBytes(f.tag, WireType(f.ltype));
      assert EncodeKeyed(f.tag, f.ltype, vs, n).value == b + key + c;
      KeyedBack(fields, i, w, seen, old_, vs, n - 1, key + (c + tail));
      assert b + key + c + tail == b + (key + (c + tail));
      assert GoodItem(f.ltype, vs[n - 1]);
      FieldItemBack(f, vs[n - 1], true, Num(0), tail);
      var before, after := old_ + NormalValues(f.ltype, vs, n - 1), old_ + NormalValues(f.ltype, vs, n);
      assert before + [NormalValue(f.ltype, vs[n - 1])] == after;
      KeyedSlot(f, before, NormalValue(f.ltype, vs[n - 1]), c + tail, tail);
      KnownField(fields, i, w[j := Many(before)], seen, WireType(f.ltype), c + tail, Many(after), tail);
      assert w[j := Many(before)][j := Many(after)] == w[j := Many(after)];
    }
  }

  lemma KeyedSlot(f: Field, vs: seq<Value>, v: Value, body: bytes, rest: bytes)
    requires f.htype.Repeated? && |vs| < f.htype.max
    requires DecodeItem(f.ltype, true, Num(0), body) == Some((v, rest))
    ensures DecodeSlot(f, WireType(f.ltype), Many(vs), body) == Some((Many(vs + [v]), rest))
  {
    hide DecodeItem;
  }

  // ----- What other encoders may send -----

  /**
   * An array of numbers may come packed or unpacked, whatever the descriptor's own encoder would do, and in several
   * parts: either way its items go behind those that have come already.
   */
  lemma EitherPacking(fields: seq<Field>, i: nat, w: seq<Slot>, seen: set<nat>, old_: seq<Value>, vs: seq<Value>, tail: bytes)
    requires Valid(fields) && i < |fields| && |w| == SlotCount(fields) && SlotOf(fields, i) < |w|
    requires fields[i].htype.Repeated? && Packable(fields[i].ltype) && GoodItems(fields[i].ltype, vs)
    requires |vs| <= fields[i].htype.max - |old_|
    requires var e := EncodeItems(fields[i].ltype, vs, |vs|); e.Some? && |e.value| < UINT32
    requires var e := EncodeKeyed(fields[i].tag, fields[i].ltype, vs, |vs|); e.Some? && |e.value| < UINT32
    ensures var f, j, was := fields[i], SlotOf(fields, i), w[SlotOf(fields, i) := Many(old_)];
            var then_ := DecodeFields(fields, w[j := Many(old_ + vs)], seen, tail);
            && DecodeFields(fields, was, seen, TagBytes(f.tag, 2) + (Prefixed(EncodeItems(f.ltype, vs, |vs|).value) + tail)) == then_
            && DecodeFields(fields, was, seen, EncodeKeyed(f.tag, f.ltype, vs, |vs|).value + tail) == then_
  {
    hide DecodeFields, EncodeItems, EncodeKeyed, NormalValues, TagBytes, Prefixed, DecodePacked;
    var f, j := fields[i], SlotOf(fields, i);
    var b := EncodeItems(f.ltype, vs, |vs|).value;
    PackablesStay(f.ltype, vs, |vs|);
    assert vs[..|vs|] == vs;
    PackedBack(f.ltype, old_, vs, |vs|, f.htype.max, []);
    assert b + [] == b;
    NothingPacked(f.ltype, old_ + vs, f.htype.max);
    PrefixedRoundTrip(b, tail);
    PackedInto(f, old_, old_ + vs, Prefixed(b) + tail, b, tail);
    KnownField(fields, i, w[j := Many(old_)], seen, W.WT_STRING, Prefixed(b) + tail, Many(old_ + vs), tail);
    assert w[j := Many(old_)][j := Many(old_ + vs)] == w[j := Many(old_ + vs)];
    KeyedBack(fields, i, w, seen, old_, vs, |vs|, tail);
  }

  lemma NothingPacked(t: LType, vs: seq<Value>, max: nat)
    ensures DecodePacked(t, vs, max, []) == Some(vs)
  {
  }

  lemma PackedInto(f: Field, vs: seq<Value>, vs': seq<Value>, body: bytes, b: bytes, rest: bytes)
    requires f.htype.Repeated? && Packable(f.ltype) && W.Delimited(body) == Some((b, rest))
    requires DecodePacked(f.ltype, vs, f.htype.max, b) == Some(vs')
    ensures DecodeSlot(f, W.WT_STRING, Many(vs), body) == Some((Many(vs'), rest))
  {
    hide DecodePacked, W.Delimited;
  }

  lemma {:induction false} PackablesStay(t: LType, vs: seq<Value>, n: nat)
    requires Packable(t) && n <= |vs| && forall i :: 0 <= i < |vs| ==> Typed(t, vs[i])
    ensures NormalValues(t, vs, n) == vs[..n]
  {
    if n > 0 { PackablesStay(t, vs, n - 1); }
  }

  /** A negative number may come in five bytes, as its 32 bits, or in ten, sign-extended; both are the same number. */
  lemma ShortNegatives(n: int, size: nat, fresh_: bool, before: Value, rest: bytes)
    requires IntSize(size) && size <= 4 && 0 - Half(size) <= n < 0
    ensures |Varint(UINT32 + n)| == 5 && |Varint(UINT64 + n)| == 10
    ensures DecodeItem(Int(size), fresh_, before, Varint(UINT32 + n) + rest) == Some((Num(n), rest))
    ensures DecodeItem(Int(size), fresh_, before, Varint(UINT64 + n) + rest) == Some((Num(n), rest))
  {
    hide Varint, DecodeVarint, Clamped;
    Varint64RoundTrips(UINT32 + n, rest);
    Varint64RoundTrips(UINT64 + n, rest);
    IntBack(n, size);
    LowBits(n);
    SIntBack(n, size);
    NegativeLengths(n);
  }

  lemma NegativeLengths(n: int)
    requires -0x8000_0000 <= n < 0
    ensures |Varint(UINT32 + n)| == 5 && |Varint(UINT64 + n)| == 10
  {
    hide Varint;
    VarintLength(UINT32 + n, 5);
    VarintLength(UINT64 + n, 10);
  }

  /** A varint of n bytes takes numbers of up to 7n bits, and of more than 7(n - 1). */
  lemma {:induction false} VarintLength(v: nat, n: nat)
    requires n > 0 && v < Pow(128, n) && (n > 1 ==> v >= Pow(128, n - 1))
    ensures |Varint(v)| == n
  {
    if n > 1 {
      assert Pow(128, n) == 128 * Pow(128, n - 1) && v / 128 < Pow(128, n - 1);
      assert n > 2 ==> Pow(128, n - 1) == 128 * Pow(128, n - 2) && v / 128 >= Pow(128, n - 2);
      assert v >= 128;
      VarintLength(v / 128, n - 1);
    }
  }
}
