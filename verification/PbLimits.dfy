/** Exactly what the encoder leaves out or cannot encode, and what the decoder refuses (pb_encode.c, pb_decode.c). */
module PbLimits {
  import opened Wrappers
  import opened UserKeys
  import opened Coding
  import opened PbVarint
  import opened PbDescriptor
  import opened PbMessage
  import opened PbRoundTrip
  import W = PbWire

  // ----- What is left out -----

  lemma KeyIsLong(tag: nat, wire: nat)
    ensures TagBytes(tag, wire) != []
  {
  }

  lemma {:induction false} KeyedIsLong(tag: nat, t: LType, vs: seq<Value>, n: nat)
    requires 0 < n <= |vs| && forall i :: 0 <= i < |vs| ==> Typed(t, vs[i])
    ensures var e := EncodeKeyed(tag, t, vs, n); e.Some? ==> e.value != []
  {
    hide EncodeItem, TagBytes;
    KeyIsLong(tag, WireType(t));
  }

  /** A field contributes bytes exactly when it is present. */
  lemma PresentIsWritten(f: Field, s: Slot)
    requires TypedSlot(f, s) && EncodeSlot(f, s).Some?
    ensures EncodeSlot(f, s).value == [] <==> !Present(f, s)
  {
    hide EncodeItem, EncodeKeyed, EncodeItems, TagBytes, Prefixed, IsZero;
    KeyIsLong(f.tag, WireType(f.ltype));
    KeyIsLong(f.tag, W.WT_STRING);
    if f.htype.Repeated? && 0 < |s.vs| { KeyedIsLong(f.tag, f.ltype, s.vs, |s.vs|); }
  }

  /** A field without has flag is left out exactly when it holds zero or an empty string. */
  lemma ZeroIsLeftOut(f: Field, s: Slot)
    requires f.htype.Singular? && !f.ltype.Message? && TypedSlot(f, s) && EncodeSlot(f, s).Some?
    ensures s.One? && (EncodeSlot(f, s).value == [] <==> s.v == Num(0) || s.v == Blob([]))
  {
    hide EncodeSlot;
    PresentIsWritten(f, s);
  }

  /** A submessage without has flag is left out exactly when nothing in it is present. */
  lemma EmptySubmessageIsLeftOut(f: Field, s: Slot, sub: seq<Field>)
    requires f.htype.Singular? && f.ltype == Message(sub) && TypedSlot(f, s) && EncodeSlot(f, s).Some?
    ensures s.One? && s.v.Struct? && TypedSlots(sub, s.v.slots)
    ensures EncodeSlot(f, s).value == [] <==> forall i :: 0 <= i < |sub| ==> NothingAt(sub, s.v.slots, i)
  {
    hide EncodeSlot, TypedSlots;
    assert Typed(Message(sub), s.v);
    PresentIsWritten(f, s);
    assert IsZero(Message(sub), s.v) <==> AllZero(sub, s.v.slots);
    if AllZero(sub, s.v.slots) {
      forall i | 0 <= i < |sub| ensures NothingAt(sub, s.v.slots, i) { ZeroAt(sub, s.v.slots, i); }
    } else {
      var i := NotZeroAt(sub, s.v.slots);
    }
  }

  /** The field has not been set: no has flag, no items, no member of the union, or zero. */
  predicate NothingAt(fields: seq<Field>, slots: seq<Slot>, i: nat)
    requires i < |fields| && TypedSlots(fields, slots)
  {
    assert TypedField(fields, slots, i);
    var s := slots[SlotOf(fields, i)];
    if fields[i].htype.Oneof? then s.Which? && s.tag == 0 else !Present(fields[i], s)
  }

  lemma DefaultIsNothing(fields: seq<Field>, slots: seq<Slot>, i: nat)
    requires i < |fields| && TypedSlots(fields, slots)
    ensures IsDefaultAt(fields, slots, i) <==> NothingAt(fields, slots, i)
  {
    hide TypedSlots, IsZero, Typed;
    FieldIsTyped(fields, slots, i);
  }

  lemma ZeroAt(fields: seq<Field>, slots: seq<Slot>, i: nat)
    requires TypedSlots(fields, slots) && AllZero(fields, slots) && i < |fields|
    ensures NothingAt(fields, slots, i)
  {
    assert IsDefaultAt(fields, slots, i);
    DefaultIsNothing(fields, slots, i);
  }

  lemma NotZeroAt(fields: seq<Field>, slots: seq<Slot>) returns (i: nat)
    requires TypedSlots(fields, slots) && !AllZero(fields, slots)
    ensures i < |fields| && !NothingAt(fields, slots, i)
  {
    i :| i < |fields| && !IsDefaultAt(fields, slots, i);
    DefaultIsNothing(fields, slots, i);
  }

  // ----- What can be encoded -----

  /** Byte arrays and arrays are within their bounds, and integers are of a size there is; only what is present counts. */
  predicate Encodable(t: LType, v: Value)
    requires Typed(t, v)
    decreases t
  {
    match t
    case Int(size) => size in {1, 2, 4, 8}
    case UInt(size) => size in {1, 2, 4, 8}
    case SInt(size) => size in {1, 2, 4, 8}
    case Bytes(max) => |v.b| <= max
    case Message(fields) => AllEncodable(fields, v.slots)
    case _ => true
  }

  predicate AllEncodable(fields: seq<Field>, slots: seq<Slot>)
    requires TypedSlots(fields, slots)
    decreases fields, 1
  {
    forall i :: 0 <= i < |fields| ==> EncodableAt(fields, slots, i)
  }

  predicate EncodableAt(fields: seq<Field>, slots: seq<Slot>, i: nat)
    requires i < |fields| && TypedSlots(fields, slots)
    decreases fields, 0
  {
    assert TypedField(fields, slots, i);
    EncodableSlot(fields[i], slots[SlotOf(fields, i)])
  }

  predicate EncodableSlot(f: Field, s: Slot)
    requires TypedSlot(f, s)
    decreases f
  {
    Present(f, s) ==>
      if f.htype.Repeated? then |s.vs| <= f.htype.max && forall i :: 0 <= i < |s.vs| ==> Encodable(f.ltype, s.vs[i])
      else Encodable(f.ltype, s.v)
  }

  predicate FirstEncodable(fields: seq<Field>, n: nat, slots: seq<Slot>)
    requires n <= |fields| && TypedSlots(fields, slots)
  {
    forall i :: 0 <= i < n ==> EncodableAt(fields, slots, i)
  }

  lemma {:induction false} ItemEncodes(t: LType, v: Value)
    requires Typed(t, v)
    ensures EncodeItem(t, v).Some? <==> Encodable(t, v)
    decreases t, 0
  {
    hide AllEncodable, EncodeFields, Varint, CString;
    if t.Message? {
      assert Typed(t, v);
      FieldsEncode(t.fields, |t.fields|, v.slots);
      AllOfThem(t.fields, v.slots);
    }
  }

  lemma AllOfThem(fields: seq<Field>, slots: seq<Slot>)
    requires TypedSlots(fields, slots)
    ensures AllEncodable(fields, slots) <==> FirstEncodable(fields, |fields|, slots)
  {
    if AllEncodable(fields, slots) {
      forall i | 0 <= i < |fields| ensures EncodableAt(fields, slots, i) { OneOfAll(fields, slots, i); }
    }
    if FirstEncodable(fields, |fields|, slots) { AllOfAll(fields, slots); }
  }

  lemma OneOfAll(fields: seq<Field>, slots: seq<Slot>, i: nat)
    requires TypedSlots(fields, slots) && AllEncodable(fields, slots) && i < |fields|
    ensures EncodableAt(fields, slots, i)
  {
  }

  lemma AllOfAll(fields: seq<Field>, slots: seq<Slot>)
    requires TypedSlots(fields, slots) && FirstEncodable(fields, |fields|, slots)
    ensures AllEncodable(fields, slots)
  {
  }

  lemma {:induction false} ItemsEncode(t: LType, vs: seq<Value>, n: nat)
    requires n <= |vs| && forall i :: 0 <= i < |vs| ==> Typed(t, vs[i])
    ensures EncodeItems(t, vs, n).Some? <==> forall i :: 0 <= i < n ==> Encodable(t, vs[i])
    decreases t, 1, n
  {
    hide EncodeItem, Encodable;
    if n > 0 {
      ItemsEncode(t, vs, n - 1);
      ItemEncodes(t, vs[n - 1]);
    }
  }

  lemma {:induction false} KeyedEncode(tag: nat, t: LType, vs: seq<Value>, n: nat)
    requires n <= |vs| && forall i :: 0 <= i < |vs| ==> Typed(t, vs[i])
    ensures EncodeKeyed(tag, t, vs, n).Some? <==> forall i :: 0 <= i < n ==> Encodable(t, vs[i])
    decreases t, 1, n
  {
    hide EncodeItem, Encodable, TagBytes;
    if n > 0 {
      KeyedEncode(tag, t, vs, n - 1);
      ItemEncodes(t, vs[n - 1]);
    }
  }

  lemma {:induction false} SlotEncodes(f: Field, s: Slot)
    requires TypedSlot(f, s)
    ensures EncodeSlot(f, s).Some? <==> EncodableSlot(f, s)
    decreases f
  {
    hide EncodeItem, EncodeItems, EncodeKeyed, Encodable, TagBytes, Prefixed, IsZero, Typed;
    if f.htype.Repeated? {
      ItemsEncode(f.ltype, s.vs, |s.vs|);
      KeyedEncode(f.tag, f.ltype, s.vs, |s.vs|);
    } else if Present(f, s) {
      ItemEncodes(f.ltype, s.v);
    }
  }

  lemma {:induction false} FieldsEncode(fields: seq<Field>, n: nat, slots: seq<Slot>)
    requires n <= |fields| && TypedSlots(fields, slots)
    ensures EncodeFields(fields, n, slots).Some? <==> FirstEncodable(fields, n, slots)
    decreases fields, 1, n
  {
    hide EncodeSlot, EncodableSlot, TypedSlots;
    if n > 0 {
      FieldsEncode(fields, n - 1, slots);
      assert TypedField(fields, slots, n - 1) by { FieldIsTyped(fields, slots, n - 1); }
      SlotEncodes(fields[n - 1], slots[SlotOf(fields, n - 1)]);
      EncodableIs(fields, slots, n - 1);
    }
  }

  lemma EncodableIs(fields: seq<Field>, slots: seq<Slot>, i: nat)
    requires TypedSlots(fields, slots) && i < |fields|
    ensures TypedField(fields, slots, i)
    ensures EncodableAt(fields, slots, i) <==> EncodableSlot(fields[i], slots[SlotOf(fields, i)])
  {
    hide Encodable;
    FieldIsTyped(fields, slots, i);
  }

  lemma FieldIsTyped(fields: seq<Field>, slots: seq<Slot>, i: nat)
    requires TypedSlots(fields, slots) && i < |fields|
    ensures TypedField(fields, slots, i)
  {
  }

  /** An in-range message can be encoded exactly when its arrays fit their fields, at every depth. */
  lemma EncodingExists(fields: seq<Field>, slots: seq<Slot>)
    requires TypedSlots(fields, slots)
    ensures EncodeFields(fields, |fields|, slots).Some? <==> AllEncodable(fields, slots)
  {
    hide EncodeFields, AllEncodable;
    FieldsEncode(fields, |fields|, slots);
    AllOfThem(fields, slots);
  }

  /** In range means: all values of the C types, from int8_t to uint64_t. */
  lemma RangesOfTypes(n: int)
    ensures Typed(Int(1), Num(n)) == Typed(SInt(1), Num(n)) == (-128 <= n <= 127)
    ensures Typed(Int(2), Num(n)) == Typed(SInt(2), Num(n)) == (-32768 <= n <= 32767)
    ensures Typed(Int(4), Num(n)) == Typed(SInt(4), Num(n)) == (-2147483648 <= n <= 2147483647)
    ensures Typed(Int(8), Num(n)) == Typed(SInt(8), Num(n)) == (-9223372036854775808 <= n <= 9223372036854775807)
    ensures Typed(UInt(1), Num(n)) == (0 <= n <= 255) && Typed(UInt(2), Num(n)) == (0 <= n <= 65535)
    ensures Typed(UInt(4), Num(n)) == Typed(Fixed32, Num(n)) == (0 <= n <= 4294967295)
    ensures Typed(UInt(8), Num(n)) == Typed(Fixed64, Num(n)) == (0 <= n <= 18446744073709551615)
  {
  }

  // ----- What is refused -----

  lemma UnsignedMustFit(size: nat, u: nat, fresh_: bool, before: Value, rest: bytes)
    requires IntSize(size) && u < UINT64
    ensures DecodeItem(UInt(size), fresh_, before, Varint(u) + rest)
            == if u < 2 * Half(size) then Some((Num(u), rest)) else None
  {
    hide Varint, DecodeVarint;
    Varint64RoundTrips(u, rest);
  }

  /** Of the numbers a sender may mean, exactly those that fit the field's size are taken. */
  lemma NumbersMustFit(size: nat, n: int, u: nat, fresh_: bool, before: Value, rest: bytes)
    requires IntSize(size) && -0x8000_0000_0000_0000 <= n < 0x8000_0000_0000_0000 && u < UINT64
    ensures DecodeItem(SInt(size), fresh_, before, Varint(Zigzag(n)) + rest)
            == if 0 - Half(size) <= n < Half(size) then Some((Num(n), rest)) else None
    ensures DecodeItem(UInt(size), fresh_, before, Varint(u) + rest)
            == if u < 2 * Half(size) then Some((Num(u), rest)) else None
    ensures size == 8 || (-0x8000_0000 <= n < 0x8000_0000) ==>
              DecodeItem(Int(size), fresh_, before, Varint(Bits64(n)) + rest)
              == if 0 - Half(size) <= n < Half(size) then Some((Num(n), rest)) else None
  {
    hide Varint, DecodeVarint, Clamped, Zigzag, Unzigzag, Signed64, Signed32;
    ZigzagRoundTrip(n);
    Varint64RoundTrips(Zigzag(n), rest);
    UnsignedMustFit(size, u, fresh_, before, rest);
    BitsBack(n);
    Varint64RoundTrips(Bits64(n), rest);
    FitsOrNot(n, size);
  }

  lemma FitsOrNot(n: int, size: nat)
    requires IntSize(size)
    ensures Clamped(n, size) == if 0 - Half(size) <= n < Half(size) then Some(Num(n)) else None
  {
  }

  lemma BitsBack(n: int)
    requires -0x8000_0000_0000_0000 <= n < 0x8000_0000_0000_0000
    ensures Bits64(n) < UINT64 && Signed64(Bits64(n) % UINT64) == n
    ensures -0x8000_0000 <= n < 0x8000_0000 ==> Signed32(Bits64(n)) == n
  {
    if -0x8000_0000 <= n < 0 { LowBits(n); }
  }

  /** Every number but zero is true. */
  lemma TruthValues(u: nat, fresh_: bool, before: Value, rest: bytes)
    requires u < UINT32
    ensures DecodeItem(Bool, fresh_, before, Varint(u) + rest) == Some((Num(if u == 0 then 0 else 1), rest))
  {
    hide Varint, DecodeVarint32;
    Varint32RoundTrips(u, rest);
  }

  /** Strings must leave room for their terminator, and bytes of a fixed length must all come, or none. */
  lemma BytesMustFit(size: nat, b: bytes, fresh_: bool, before: Value, rest: bytes)
    requires |b| < UINT32
    ensures DecodeItem(Bytes(size), fresh_, before, Prefixed(b) + rest) == if |b| <= size then Some((Blob(b), rest)) else None
    ensures DecodeItem(Text(size), fresh_, before, Prefixed(b) + rest) == if |b| < size then Some((Blob(b), rest)) else None
    ensures DecodeItem(FixedBytes(size), fresh_, before, Prefixed(b) + rest)
            == if |b| == size then Some((Blob(b), rest))
               else if b == [] then Some((Blob(seq(size, _ => 0)), rest)) else None
  {
    hide Prefixed, DecodeVarint32;
    PrefixedRoundTrip(b, rest);
    if b == [] && size == 0 { assert seq(size, _ => 0 as byte) == b; }
  }

  /** A full array takes nothing more, packed or not. */
  lemma FullArrayRefuses(f: Field, wire: nat, vs: seq<Value>, sub: bytes, body: bytes)
    requires f.htype.Repeated? && |vs| >= f.htype.max
    ensures wire != 2 || !Packable(f.ltype) ==> DecodeSlot(f, wire, Many(vs), body) == None
    ensures wire == 2 && Packable(f.ltype) && W.Delimited(body).Some? && W.Delimited(body).value.0 != [] ==>
              DecodeSlot(f, wire, Many(vs), body) == None
  {
    hide DecodeItem, W.Delimited;
  }
}
