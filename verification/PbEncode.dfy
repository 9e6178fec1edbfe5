/** The encoder: two passes over every submessage and packed array, the first only counting (pb_encode.c). */
module PbEncode {
  import opened Wrappers
  import opened UserKeys
  import opened Coding
  import opened PbVarint
  import opened PbDescriptor
  import opened PbMessage
  import opened PbOutput
  import W = PbWire

  // ----- How the pieces of an encoding add up -----

  function Both(e: Option<bytes>, f: Option<bytes>): Option<bytes> {
    match e case None => None case Some(x) => After(x, f)
  }

  lemma FieldsStep(fields: seq<Field>, n: nat, slots: seq<Slot>)
    requires n < |fields| && TypedSlots(fields, slots)
    ensures TypedField(fields, slots, n)
    ensures EncodeFields(fields, n + 1, slots)
            == Both(EncodeFields(fields, n, slots), EncodeSlot(fields[n], slots[SlotOf(fields, n)]))
  {
    hide EncodeSlot;
    assert TypedField(fields, slots, n);
  }

  lemma {:induction false} FieldsGrow(fields: seq<Field>, n: nat, m: nat, slots: seq<Slot>)
    requires n <= m <= |fields| && TypedSlots(fields, slots)
    ensures var e, f := EncodeFields(fields, n, slots), EncodeFields(fields, m, slots);
            f.Some? ==> e.Some? && |e.value| <= |f.value|
    decreases m
  {
    hide EncodeFields, EncodeSlot;
    if n < m {
      FieldsStep(fields, m - 1, slots);
      FieldsGrow(fields, n, m - 1, slots);
    }
  }

  lemma ItemsStep(t: LType, vs: seq<Value>, n: nat)
    requires n < |vs| && forall i :: 0 <= i < |vs| ==> Typed(t, vs[i])
    ensures EncodeItems(t, vs, n + 1) == Both(EncodeItems(t, vs, n), EncodeItem(t, vs[n]))
  {
    hide EncodeItem;
  }

  lemma {:induction false} ItemsGrow(t: LType, vs: seq<Value>, n: nat, m: nat)
    requires n <= m <= |vs| && forall i :: 0 <= i < |vs| ==> Typed(t, vs[i])
    ensures var e, f := EncodeItems(t, vs, n), EncodeItems(t, vs, m);
            f.Some? ==> e.Some? && |e.value| <= |f.value|
    decreases m
  {
    hide EncodeItems, EncodeItem;
    if n < m {
      ItemsStep(t, vs, m - 1);
      ItemsGrow(t, vs, n, m - 1);
    }
  }

  lemma KeyedStep(tag: nat, t: LType, vs: seq<Value>, n: nat)
    requires n < |vs| && forall i :: 0 <= i < |vs| ==> Typed(t, vs[i])
    ensures EncodeKeyed(tag, t, vs, n + 1)
            == Both(EncodeKeyed(tag, t, vs, n), After(TagBytes(tag, WireType(t)), EncodeItem(t, vs[n])))
  {
    hide EncodeItem, TagBytes;
    if EncodeKeyed(tag, t, vs, n).Some? && EncodeItem(t, vs[n]).Some? {
      var b, k, c := EncodeKeyed(tag, t, vs, n).value, TagBytes(tag, WireType(t)), EncodeItem(t, vs[n]).value;
      assert b + k + c == b + (k + c);
    }
  }

  lemma {:induction false} KeyedGrow(tag: nat, t: LType, vs: seq<Value>, n: nat, m: nat)
    requires n <= m <= |vs| && forall i :: 0 <= i < |vs| ==> Typed(t, vs[i])
    ensures var e, f := EncodeKeyed(tag, t, vs, n), EncodeKeyed(tag, t, vs, m);
            f.Some? ==> e.Some? && |e.value| <= |f.value|
    decreases m
  {
    hide EncodeKeyed, EncodeItem;
    if n < m {
      KeyedStep(tag, t, vs, m - 1);
      KeyedGrow(tag, t, vs, n, m - 1);
    }
  }

  /** The sizes that encode_array computes without a counting pass. */
  lemma {:induction false} FixedItems(t: LType, vs: seq<Value>, n: nat)
    requires n <= |vs| && (t.Fixed32? || t.Fixed64?) && forall i :: 0 <= i < |vs| ==> Typed(t, vs[i])
    ensures EncodeItems(t, vs, n).Some? && |EncodeItems(t, vs, n).value| == (if t.Fixed32? then 4 else 8) * n
  {
    if n > 0 { FixedItems(t, vs, n - 1); }
  }

  // ----- Where a sequence of writes stands -----

  /** Everything so far has been written. */
  ghost predicate SoFar(a: Output, b: Output, e: Option<bytes>) {
    e.Some? && Wrote(a, b, true, e)
  }

  /** One more piece: either it is written as well, or nothing that starts with these pieces can be. */
  lemma Piece(a: Output, b: Output, c: Output, e: Option<bytes>, ok: bool, f: Option<bytes>)
    requires SoFar(a, b, e) && Wrote(b, c, ok, f)
    ensures ok ==> SoFar(a, c, Both(e, f))
    ensures Wrote(a, c, ok, Both(e, f))
  {
    hide Wrote;
    Then(a, b, c, e.value, ok, f);
    Succeeded(b, c, ok, f);
  }

  lemma Succeeded(a: Output, b: Output, ok: bool, e: Option<bytes>)
    requires Wrote(a, b, ok, e)
    ensures ok ==> e.Some?
  {
  }

  lemma Never(a: Output, b: Output, e: Option<bytes>, f: Option<bytes>)
    requires Wrote(a, b, false, e) && (f.Some? ==> e.Some? && |e.value| <= |f.value|)
    ensures Wrote(a, b, false, f)
  {
  }

  lemma CountedAll(a: Output, b: Output, e: Option<bytes>)
    requires a.sizing && Wrote(a, b, true, e)
    ensures e.Some? && b.written == a.written + |e.value|
  {
  }

  lemma CannotCount(a: Output, b: Output, e: Option<bytes>)
    requires a.sizing && Wrote(a, b, false, e)
    ensures e.None?
  {
  }

  // ----- pb_check_proto3_default_value -----

  method CheckDefault(f: Field, s: Slot) returns (r: bool)
    requires TypedSlot(f, s)
    ensures r == IsDefault(f, s)
    decreases f
  {
    hide IsDefaultAt, TypedSlots;
    match f.htype
    case Required => { return false; }
    case Repeated(_) => { return s.vs == []; }
    case Oneof(_) => { return s.tag == 0; }
    case Optional => { return !s.has; }
    case Singular => { r := CheckZero(f.ltype, s.v); }
  }

  /** Its part for fields without has flag. */
  method CheckZero(t: LType, v: Value) returns (r: bool)
    requires Typed(t, v)
    ensures r == IsZero(t, v)
    decreases t
  {
    match t
    case Bytes(_) => { return v.b == []; }
    case Text(_) => { return v.b == []; }
    case FixedBytes(size) => { return size == 0; }
    case Message(fields) => { r := AllDefault(fields, v.slots); }
    case _ => { return v.n == 0; }
  }

  /** The walk over a submessage: every one of its fields must be at zero. */
  method AllDefault(fields: seq<Field>, slots: seq<Slot>) returns (r: bool)
    requires TypedSlots(fields, slots)
    ensures r == AllZero(fields, slots)
    decreases fields, 0
  {
    hide IsDefault;
    var iter := new FieldIter(fields);
    var any := iter.Begin();
    if !any { return true; }
    while true
      invariant iter.Valid() && iter.pos < |fields|
      invariant forall i :: 0 <= i < iter.pos ==> IsDefaultAt(fields, slots, i)
      decreases |fields| - iter.pos
    {
      ghost var i := iter.pos;
      assert TypedField(fields, slots, i);
      var zero := CheckDefault(fields[iter.pos], slots[iter.slot]);
      assert zero == IsDefaultAt(fields, slots, i);
      if !zero { return false; }
      var more := iter.Next();
      if !more { break; }
    }
    r := true;
  }

  // ----- The encoders -----

  /** The field encoders, pb_enc_bool to pb_enc_fixed_length_bytes. */
  method EncodeItemTo(stream: OutputStream, t: LType, v: Value) returns (ok: bool)
    requires stream.Valid() && Typed(t, v)
    modifies stream, stream.buffer
    ensures stream.Valid() && Wrote(old(stream.Snap()), stream.Snap(), ok, EncodeItem(t, v))
    decreases t, 0
  {
    hide Wrote, Varint, Fixed, Prefixed, CString;
    match t
    case Bool => { ok := stream.EncodeVarint(v.n); }
    case Int(size) => {
      if size != 1 && size != 2 && size != 4 && size != 8 { NothingToWrite(stream.Snap()); return false; }
      ok := stream.EncodeVarint(Bits64(v.n));
    }
    case UInt(size) => {
      if size != 1 && size != 2 && size != 4 && size != 8 { NothingToWrite(stream.Snap()); return false; }
      ok := stream.EncodeVarint(v.n);
    }
    case SInt(size) => {
      if size != 1 && size != 2 && size != 4 && size != 8 { NothingToWrite(stream.Snap()); return false; }
      ok := stream.EncodeSvarint(v.n);
    }
    case Fixed32 => { ok := stream.EncodeFixed32(v.n); }
    case Fixed64 => { ok := stream.EncodeFixed64(v.n); }
    case Bytes(max) => {
      if |v.b| > max { NothingToWrite(stream.Snap()); return false; }
      ok := stream.EncodeString(v.b);
    }
    case Text(size) => {
      var n := StringLength(v.b, size);
      ok := stream.EncodeString(v.b[..n]);
    }
    case FixedBytes(_) => { ok := stream.EncodeString(v.b); }
    case Message(fields) => { ok := EncodeSubmessage(stream, fields, v.slots); }
  }

  /** The loop of pb_enc_string. */
  method StringLength(s: bytes, max: nat) returns (size: nat)
    ensures size <= |s| && s[..size] == CString(s, max)
  {
    hide CString;
    size := 0;
    while size < max && size < |s| && s[size] != 0
      invariant size <= |s| && size <= max && CString(s, max) == s[..size] + CString(s[size..], max - size)
    {
      CStringStep(s, size, max);
      size := size + 1;
    }
    CStringEnds(s[size..], max - size);
  }

  lemma CStringStep(s: bytes, i: nat, max: nat)
    requires i < |s| && i < max && s[i] != 0
    ensures s[..i] + CString(s[i..], max - i) == s[..i + 1] + CString(s[i + 1..], max - (i + 1))
  {
    assert s[i..][1..] == s[i + 1..];
    assert s[..i] + [s[i]] == s[..i + 1];
  }

  lemma CStringEnds(s: bytes, max: nat)
    requires max == 0 || s == [] || s[0] == 0
    ensures CString(s, max) == []
  {
  }

  /** pb_encode_submessage: the size is found by encoding once without writing. */
  method EncodeSubmessage(stream: OutputStream, fields: seq<Field>, slots: seq<Slot>) returns (ok: bool)
    requires stream.Valid() && TypedSlots(fields, slots)
    modifies stream, stream.buffer
    ensures stream.Valid()
    ensures Wrote(old(stream.Snap()), stream.Snap(), ok, Delimited(EncodeFields(fields, |fields|, slots)))
    decreases fields, 2
  {
    hide Wrote, Varint, Prefixed;
    ghost var e := EncodeFields(fields, |fields|, slots);
    ghost var a := stream.Snap();
    var counting := new OutputStream.Sizing();
    ghost var z := counting.Snap();
    ok := EncodeMessage(counting, fields, slots);
    assert stream.Snap() == a;
    if !ok {
      CannotCount(z, counting.Snap(), e);
      NothingToWrite(a);
      return;
    }
    var size := counting.bytesWritten;
    CountedAll(z, counting.Snap(), e);
    ok := stream.EncodeVarint(size);
    ghost var b := stream.Snap();
    if !ok {
      FailsThen(a, b, Varint(size), e);
      PrefixedIs(e);
      return;
    }
    if stream.sizing {
      stream.Count(size);
      Counted(b, e.value);
      Then(a, b, stream.Snap(), Varint(size), true, e);
      PrefixedIs(e);
      return;
    }
    if stream.bytesWritten + size > stream.maxSize {
      TooLong(a, b, Varint(size), e);
      PrefixedIs(e);
      return false;
    }
    ok := WriteSubmessage(stream, fields, slots, size);
    Then(a, b, stream.Snap(), Varint(size), true, e);
    PrefixedIs(e);
  }

  /** The second pass, through a substream that has room for exactly the size found. */
  method WriteSubmessage(stream: OutputStream, fields: seq<Field>, slots: seq<Slot>, size: nat) returns (ok: bool)
    requires stream.Valid() && !stream.sizing && stream.bytesWritten + size <= stream.maxSize && TypedSlots(fields, slots)
    requires var e := EncodeFields(fields, |fields|, slots); e.Some? && size == |e.value|
    modifies stream, stream.buffer
    ensures ok && stream.Valid() && Wrote(old(stream.Snap()), stream.Snap(), true, EncodeFields(fields, |fields|, slots))
    decreases fields, 1
  {
    hide Wrote, EncodeFields;
    ghost var e, b := EncodeFields(fields, |fields|, slots), stream.Snap();
    var sub := new OutputStream.On(stream.buffer, stream.state, size);
    ghost var w := sub.Snap();
    ok := EncodeMessage(sub, fields, slots);
    FillsWindow(w, sub.Snap(), ok, e);
    stream.bytesWritten := stream.bytesWritten + sub.bytesWritten;
    stream.state := sub.state;
    if sub.bytesWritten != size {
      assert false;
      ok := false;
    }
    WindowFilled(b, stream.Snap(), sub.Snap(), e.value);
  }

  function Delimited(e: Option<bytes>): Option<bytes> {
    match e case None => None case Some(b) => Some(Prefixed(b))
  }

  lemma PrefixedIs(e: Option<bytes>)
    ensures e.Some? ==> Delimited(e) == After(Varint(|e.value|), e)
    ensures e.None? ==> Delimited(e) == None
  {
  }

  lemma TooLong(a: Output, b: Output, x: bytes, e: Option<bytes>)
    requires Wrote(a, b, true, Some(x)) && e.Some? && !b.sizing && b.written + |e.value| > b.max
    ensures Wrote(a, b, false, After(x, e))
  {
  }

  /** A window of exactly the counted size is filled: the size cannot have changed. */
  lemma FillsWindow(w: Output, d: Output, ok: bool, e: Option<bytes>)
    requires Wrote(w, d, ok, e) && e.Some? && !w.sizing && w.written == 0 && w.max == |e.value|
    ensures ok && d.written == w.max && SoFar(w, d, e)
  {
  }

  /** encode_array */
  method EncodeArrayTo(stream: OutputStream, f: Field, vs: seq<Value>, max: nat) returns (ok: bool)
    requires stream.Valid() && forall i :: 0 <= i < |vs| ==> Typed(f.ltype, vs[i])
    modifies stream, stream.buffer
    ensures stream.Valid() && Wrote(old(stream.Snap()), stream.Snap(), ok, EncodeArray(f.tag, f.ltype, vs, max))
    decreases f.ltype, 4
  {
    hide Wrote, EncodeItems, EncodeKeyed, TagBytes, Prefixed;
    if |vs| == 0 { NothingWritten(stream.Snap()); return true; }
    if |vs| > max { NothingToWrite(stream.Snap()); return false; }
    if Packable(f.ltype) {
      ok := EncodePacked(stream, f, vs);
    } else {
      ok := EncodeUnpacked(stream, f, vs);
    }
  }

  function PackedSpec(f: Field, vs: seq<Value>): Option<bytes>
    requires forall i :: 0 <= i < |vs| ==> Typed(f.ltype, vs[i])
  {
    match EncodeItems(f.ltype, vs, |vs|) case None => None case Some(b) => Some(TagBytes(f.tag, W.WT_STRING) + Prefixed(b))
  }

  method EncodePacked(stream: OutputStream, f: Field, vs: seq<Value>) returns (ok: bool)
    requires stream.Valid() && forall i :: 0 <= i < |vs| ==> Typed(f.ltype, vs[i])
    modifies stream, stream.buffer
    ensures stream.Valid() && Wrote(old(stream.Snap()), stream.Snap(), ok, PackedSpec(f, vs))
    decreases f.ltype, 3
  {
    hide Wrote, EncodeItems, TagBytes, Prefixed, Varint;
    ghost var a, key := stream.Snap(), TagBytes(f.tag, W.WT_STRING);
    ghost var e := EncodeItems(f.ltype, vs, |vs|);
    ok := stream.EncodeTag(W.WT_STRING, f.tag);
    ghost var b := stream.Snap();
    if !ok {
      FailsThen(a, b, key, Delimited(e));
      return;
    }
    var size: nat;
    if f.ltype.Fixed32? || f.ltype.Fixed64? {
      size := if f.ltype.Fixed32? then 4 * |vs| else 8 * |vs|;
      FixedItems(f.ltype, vs, |vs|);
    } else {
      ok, size := CountItems(f, vs);
      assert stream.Snap() == b;
      if !ok {
        NoneAfter(a, b, key, PackedSpec(f, vs));
        return;
      }
    }
    ok := stream.EncodeVarint(size);
    ghost var c := stream.Snap();
    PrefixedIs(e);
    if !ok {
      FailsThen(b, c, Varint(size), e);
      Then(a, b, c, key, false, Delimited(e));
      return;
    }
    if stream.sizing {
      stream.Count(size);
      Counted(c, e.value);
    } else {
      ok := WriteItems(stream, f, vs);
    }
    Then(b, c, stream.Snap(), Varint(size), ok, e);
    Then(a, b, stream.Snap(), key, ok, Delimited(e));
  }

  lemma NoneAfter(a: Output, b: Output, x: bytes, e: Option<bytes>)
    requires Wrote(a, b, true, Some(x)) && e.None?
    ensures Wrote(a, b, false, e)
  {
  }

  /** The first pass over a packed array. */
  method CountItems(f: Field, vs: seq<Value>) returns (ok: bool, size: nat)
    requires forall i :: 0 <= i < |vs| ==> Typed(f.ltype, vs[i])
    ensures var e := EncodeItems(f.ltype, vs, |vs|); ok == e.Some? && (ok ==> size == |e.value|)
    decreases f.ltype, 2
  {
    hide Wrote, EncodeItem;
    var counting := new OutputStream.Sizing();
    ghost var z := counting.Snap();
    ok := WriteItems(counting, f, vs);
    size := counting.bytesWritten;
    if ok {
      CountedAll(z, counting.Snap(), EncodeItems(f.ltype, vs, |vs|));
    } else {
      CannotCount(z, counting.Snap(), EncodeItems(f.ltype, vs, |vs|));
    }
  }

  /** The items of a packed array, one after the other. */
  method WriteItems(stream: OutputStream, f: Field, vs: seq<Value>) returns (ok: bool)
    requires stream.Valid() && forall i :: 0 <= i < |vs| ==> Typed(f.ltype, vs[i])
    modifies stream, stream.buffer
    ensures stream.Valid() && Wrote(old(stream.Snap()), stream.Snap(), ok, EncodeItems(f.ltype, vs, |vs|))
    decreases f.ltype, 1
  {
    hide Wrote, EncodeItem, EncodeItems;
    ghost var a := stream.Snap();
    NothingWritten(a);
    NoItems(f.ltype, vs);
    for i := 0 to |vs|
      invariant stream.Valid() && SoFar(a, stream.Snap(), EncodeItems(f.ltype, vs, i))
    {
      ghost var b := stream.Snap();
      ok := EncodeItemTo(stream, f.ltype, vs[i]);
      Piece(a, b, stream.Snap(), EncodeItems(f.ltype, vs, i), ok, EncodeItem(f.ltype, vs[i]));
      ItemsStep(f.ltype, vs, i);
      if !ok {
        ItemsGrow(f.ltype, vs, i + 1, |vs|);
        Never(a, stream.Snap(), EncodeItems(f.ltype, vs, i + 1), EncodeItems(f.ltype, vs, |vs|));
        return;
      }
    }
    ok := true;
  }

  lemma NoItems(t: LType, vs: seq<Value>)
    requires forall i :: 0 <= i < |vs| ==> Typed(t, vs[i])
    ensures EncodeItems(t, vs, 0) == Some([])
  {
  }

  method EncodeUnpacked(stream: OutputStream, f: Field, vs: seq<Value>) returns (ok: bool)
    requires stream.Valid() && forall i :: 0 <= i < |vs| ==> Typed(f.ltype, vs[i])
    modifies stream, stream.buffer
    ensures stream.Valid() && Wrote(old(stream.Snap()), stream.Snap(), ok, EncodeKeyed(f.tag, f.ltype, vs, |vs|))
    decreases f.ltype, 3
  {
    hide Wrote, EncodeItem, EncodeKeyed, TagBytes;
    ghost var a := stream.Snap();
    NothingWritten(a);
    NothingKeyed(f.tag, f.ltype, vs);
    for i := 0 to |vs|
      invariant stream.Valid() && SoFar(a, stream.Snap(), EncodeKeyed(f.tag, f.ltype, vs, i))
    {
      ghost var b := stream.Snap();
      ok := EncodeKeyedItemTo(stream, f.tag, f.ltype, vs[i]);
      ghost var item := After(TagBytes(f.tag, WireType(f.ltype)), EncodeItem(f.ltype, vs[i]));
      Piece(a, b, stream.Snap(), EncodeKeyed(f.tag, f.ltype, vs, i), ok, item);
      KeyedStep(f.tag, f.ltype, vs, i);
      if !ok {
        KeyedGrow(f.tag, f.ltype, vs, i + 1, |vs|);
        Never(a, stream.Snap(), EncodeKeyed(f.tag, f.ltype, vs, i + 1), EncodeKeyed(f.tag, f.ltype, vs, |vs|));
        return;
      }
    }
    ok := true;
  }

  lemma NothingKeyed(tag: nat, t: LType, vs: seq<Value>)
    requires forall i :: 0 <= i < |vs| ==> Typed(t, vs[i])
    ensures EncodeKeyed(tag, t, vs, 0) == Some([])
  {
  }

  /** A key and an item: pb_encode_tag_for_field, then the field's encoder. */
  method EncodeKeyedItemTo(stream: OutputStream, tag: nat, t: LType, v: Value) returns (ok: bool)
    requires stream.Valid() && Typed(t, v)
    modifies stream, stream.buffer
    ensures stream.Valid()
    ensures Wrote(old(stream.Snap()), stream.Snap(), ok, After(TagBytes(tag, WireType(t)), EncodeItem(t, v)))
    decreases t, 1
  {
    hide Wrote, EncodeItem, TagBytes;
    ghost var a, key := stream.Snap(), TagBytes(tag, WireType(t));
    ok := stream.EncodeTag(WireType(t), tag);
    ghost var b := stream.Snap();
    if !ok {
      FailsThen(a, b, key, EncodeItem(t, v));
      return;
    }
    ok := EncodeItemTo(stream, t, v);
    Then(a, b, stream.Snap(), key, ok, EncodeItem(t, v));
  }

  /** encode_basic_field */
  method EncodeField(stream: OutputStream, f: Field, s: Slot) returns (ok: bool)
    requires stream.Valid() && TypedSlot(f, s)
    modifies stream, stream.buffer
    ensures stream.Valid() && Wrote(old(stream.Snap()), stream.Snap(), ok, EncodeSlot(f, s))
    decreases f
  {
    hide Wrote, EncodeItem, EncodeArray, TagBytes, IsZero;
    var present := true;
    match f.htype {
      case Repeated(max) => {
        ok := EncodeArrayTo(stream, f, s.vs, max);
        return;
      }
      case Required => {}
      case Optional => { present := s.has; }
      case Singular => {
        var zero := CheckDefault(f, s);
        present := !zero;
      }
      case Oneof(_) => { present := s.tag == f.tag; }
    }
    if !present {
      NothingWritten(stream.Snap());
      return true;
    }
    ok := EncodeKeyedItemTo(stream, f.tag, f.ltype, s.v);
  }

  /** pb_encode: all fields in descriptor order. */
  method EncodeMessage(stream: OutputStream, fields: seq<Field>, slots: seq<Slot>) returns (ok: bool)
    requires stream.Valid() && TypedSlots(fields, slots)
    modifies stream, stream.buffer
    ensures stream.Valid() && Wrote(old(stream.Snap()), stream.Snap(), ok, EncodeFields(fields, |fields|, slots))
    decreases fields, 0
  {
    hide Wrote, EncodeFields, EncodeSlot, TypedSlots, TypedSlot;
    ghost var a := stream.Snap();
    NothingWritten(a);
    NoFields(fields, slots);
    var iter := new FieldIter(fields);
    var any := iter.Begin();
    if !any { return true; }
    while true
      invariant fresh(iter) && iter.Valid() && iter.pos < |fields|
      invariant stream.Valid() && SoFar(a, stream.Snap(), EncodeFields(fields, iter.pos, slots))
      decreases |fields| - iter.pos
    {
      ghost var i, b := iter.pos, stream.Snap();
      FieldsStep(fields, i, slots);
      FieldIsTyped(fields, slots, i);
      ok := EncodeField(stream, fields[iter.pos], slots[iter.slot]);
      Piece(a, b, stream.Snap(), EncodeFields(fields, i, slots), ok, EncodeSlot(fields[i], slots[SlotOf(fields, i)]));
      if !ok {
        FieldsGrow(fields, i + 1, |fields|, slots);
        Never(a, stream.Snap(), EncodeFields(fields, i + 1, slots), EncodeFields(fields, |fields|, slots));
        return;
      }
      var more := iter.Next();
      if !more { break; }
    }
    ok := true;
  }

  lemma FieldIsTyped(fields: seq<Field>, slots: seq<Slot>, i: nat)
    requires i < |fields| && TypedSlots(fields, slots)
    ensures SlotOf(fields, i) < |slots| && TypedSlot(fields[i], slots[SlotOf(fields, i)])
  {
    assert TypedField(fields, slots, i);
  }

  lemma NoFields(fields: seq<Field>, slots: seq<Slot>)
    requires TypedSlots(fields, slots)
    ensures EncodeFields(fields, 0, slots) == Some([])
  {
  }

  /** pb_get_encoded_size: the exact size of the encoding, found without writing any of it. */
  method GetEncodedSize(fields: seq<Field>, slots: seq<Slot>) returns (ok: bool, size: nat)
    requires TypedSlots(fields, slots)
    ensures var e := EncodeFields(fields, |fields|, slots); ok == e.Some? && (ok ==> size == |e.value|)
  {
    hide Wrote, EncodeFields, TypedSlots;
    var stream := new OutputStream.Sizing();
    ghost var z := stream.Snap();
    ok := EncodeMessage(stream, fields, slots);
    size := stream.bytesWritten;
    if ok {
      CountedAll(z, stream.Snap(), EncodeFields(fields, |fields|, slots));
    } else {
      CannotCount(z, stream.Snap(), EncodeFields(fields, |fields|, slots));
    }
  }

  /**
   * Two-pass sizing is exact: a message whose size was found can be encoded into any buffer of at least that size, and
   * then takes up exactly that many bytes; a smaller buffer is refused.
   */
  method EncodeSized(fields: seq<Field>, slots: seq<Slot>, buffer: array<byte>) returns (ok: bool, size: nat, written: nat)
    requires TypedSlots(fields, slots)
    modifies buffer
    ensures var e := EncodeFields(fields, |fields|, slots);
            && (e.None? ==> !ok)
            && (e.Some? ==> size == |e.value| && (ok <==> size <= buffer.Length))
            && (ok ==> written == size <= buffer.Length && buffer[..written] == e.value)
  {
    hide EncodeFields, TypedSlots;
    ok, size := GetEncodedSize(fields, slots);
    if !ok { return false, 0, 0; }
    var stream := new OutputStream.On(buffer, 0, buffer.Length);
    ok := EncodeMessage(stream, fields, slots);
    written := stream.bytesWritten;
  }
}
