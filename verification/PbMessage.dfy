/** What nanopb messages may hold, their default values, and their encoding as a function (pb_encode.c, pb_decode.c). */
module PbMessage {
  import opened Wrappers
  import opened UserKeys
  import opened Coding
  import opened PbVarint
  import opened PbDescriptor
  import W = PbWire

  // ----- In-range values -----

  function Half(size: nat): nat {
    if size == 1 then 0x80 else if size == 2 then 0x8000 else if size == 4 then 0x8000_0000 else 0x8000_0000_0000_0000
  }

  predicate IntSize(size: nat) {
    size == 1 || size == 2 || size == 4 || size == 8
  }

  predicate Typed(t: LType, v: Value)
    decreases t
  {
    match t
    case Bool => v.Num? && 0 <= v.n <= 1
    case Int(size) => v.Num? && 0 - Half(size) <= v.n < Half(size)
    case UInt(size) => v.Num? && 0 <= v.n < 2 * Half(size)
    case SInt(size) => v.Num? && 0 - Half(size) <= v.n < Half(size)
    case Fixed32 => v.Num? && 0 <= v.n < UINT32
    case Fixed64 => v.Num? && 0 <= v.n < UINT64
    case Bytes(max) => v.Blob?
    case Text(size) => v.Blob? && |v.b| <= size && 0 !in v.b
    case FixedBytes(size) => v.Blob? && |v.b| == size
    case Message(fields) => v.Struct? && TypedSlots(fields, v.slots)
  }

  predicate TypedSlots(fields: seq<Field>, slots: seq<Slot>)
    decreases fields, 1
  {
    |slots| == SlotCount(fields) && forall i :: 0 <= i < |fields| ==> TypedField(fields, slots, i)
  }

  predicate TypedField(fields: seq<Field>, slots: seq<Slot>, i: nat)
    requires i < |fields|
    decreases fields, 0
  {
    SlotOf(fields, i) < |slots| && TypedSlot(fields[i], slots[SlotOf(fields, i)])
  }

  predicate TypedSlot(f: Field, s: Slot)
    decreases f
  {
    match f.htype
    case Required => s.One? && Typed(f.ltype, s.v)
    case Singular => s.One? && Typed(f.ltype, s.v)
    case Optional => s.Has? && Typed(f.ltype, s.v)
    case Repeated(_) => s.Many? && forall i :: 0 <= i < |s.vs| ==> Typed(f.ltype, s.vs[i])
    case Oneof(_) => s.Which? && (s.tag == f.tag ==> Typed(f.ltype, s.v))
  }

  // ----- Defaults -----

  function ZeroOf(t: LType): Value
    decreases t
  {
    match t
    case Bytes(_) => Blob([])
    case Text(_) => Blob([])
    case FixedBytes(size) => Blob(seq(size, _ => 0))
    case Message(fields) => Struct(Defaults(fields, |fields|))
    case _ => Num(0)
  }

  function DefaultOf(f: Field): Value
    decreases f, 0
  {
    if f.ltype.Message? || f.default.None? then ZeroOf(f.ltype) else f.default.value
  }

  /** What pb_field_set_to_default writes. */
  function DefaultSlot(f: Field): Slot
    decreases f, 1
  {
    match f.htype
    case Required => One(DefaultOf(f))
    case Singular => One(DefaultOf(f))
    case Optional => Has(false, DefaultOf(f))
    case Repeated(_) => Many([])
    case Oneof(_) => Which(0, Num(0))
  }

  /** The storage of the first n fields, all set to default. */
  function Defaults(fields: seq<Field>, n: nat): (slots: seq<Slot>)
    requires n <= |fields|
    ensures |slots| == if n == 0 then 0 else SlotOf(fields, n - 1) + 1
    decreases fields, n
  {
    if n == 0 then []
    else if n > 1 && Shares(fields, n - 1) then Defaults(fields, n - 1)
    else Defaults(fields, n - 1) + [DefaultSlot(fields[n - 1])]
  }

  // ----- Encoding -----

  /** A C string: the bytes before the terminator, or all of them. */
  function CString(s: bytes, size: nat): bytes {
    if s == [] || size == 0 || s[0] == 0 then [] else [s[0]] + CString(s[1..], size - 1)
  }

  function Prefixed(b: bytes): bytes {
    Varint(|b|) + b
  }

  function WireType(t: LType): nat {
    match t
    case Fixed32 => W.WT_32BIT
    case Fixed64 => W.WT_64BIT
    case Bytes(_) => W.WT_STRING
    case Text(_) => W.WT_STRING
    case Message(_) => W.WT_STRING
    case FixedBytes(_) => W.WT_STRING
    case _ => W.WT_VARINT
  }

  function TagBytes(tag: nat, wire: nat): bytes {
    Varint(tag * 8 + wire)
  }

  /** One item without its key; none when its field's description or its size is wrong. */
  function EncodeItem(t: LType, v: Value): Option<bytes>
    requires Typed(t, v)
    decreases t, 0
  {
    match t
    case Bool => Some(Varint(v.n))
    case Int(size) => if IntSize(size) then Some(Varint(Bits64(v.n))) else None
    case UInt(size) => if IntSize(size) then Some(Varint(v.n)) else None
    case SInt(size) => if IntSize(size) then Some(Varint(Zigzag(v.n))) else None
    case Fixed32 => Some(Fixed(4, v.n))
    case Fixed64 => Some(Fixed(8, v.n))
    case Bytes(max) => if |v.b| <= max then Some(Prefixed(v.b)) else None
    case Text(size) => Some(Prefixed(CString(v.b, size)))
    case FixedBytes(_) => Some(Prefixed(v.b))
    case Message(fields) =>
      match EncodeFields(fields, |fields|, v.slots) {
        case None => None
        case Some(b) => Some(Prefixed(b))
      }
  }

  /** The first n items of an array, one after the other. */
  function EncodeItems(t: LType, vs: seq<Value>, n: nat): Option<bytes>
    requires n <= |vs| && forall i :: 0 <= i < |vs| ==> Typed(t, vs[i])
    decreases t, 1, n
  {
    if n == 0 then Some([])
    else
      match EncodeItems(t, vs, n - 1)
      case None => None
      case Some(b) => match EncodeItem(t, vs[n - 1]) case None => None case Some(c) => Some(b + c)
  }

  /** The first n items of an array, each behind the field's key. */
  function EncodeKeyed(tag: nat, t: LType, vs: seq<Value>, n: nat): Option<bytes>
    requires n <= |vs| && forall i :: 0 <= i < |vs| ==> Typed(t, vs[i])
    decreases t, 1, n
  {
    if n == 0 then Some([])
    else
      match EncodeKeyed(tag, t, vs, n - 1)
      case None => None
      case Some(b) =>
        match EncodeItem(t, vs[n - 1]) case None => None case Some(c) => Some(b + TagBytes(tag, WireType(t)) + c)
  }

  function EncodeArray(tag: nat, t: LType, vs: seq<Value>, max: nat): Option<bytes>
    requires forall i :: 0 <= i < |vs| ==> Typed(t, vs[i])
    decreases t, 2
  {
    if vs == [] then Some([])
    else if |vs| > max then None
    else if Packable(t) then
      match EncodeItems(t, vs, |vs|) {
        case None => None
        case Some(b) => Some(TagBytes(tag, W.WT_STRING) + Prefixed(b))
      }
    else EncodeKeyed(tag, t, vs, |vs|)
  }

  function EncodeKeyedItem(f: Field, v: Value): Option<bytes>
    requires Typed(f.ltype, v)
    decreases f.ltype, 2
  {
    match EncodeItem(f.ltype, v) case None => None case Some(b) => Some(TagBytes(f.tag, WireType(f.ltype)) + b)
  }

  /** pb_check_proto3_default_value, for the value of a field without has flag. */
  predicate IsZero(t: LType, v: Value)
    requires Typed(t, v)
    decreases t
  {
    match t
    case Bytes(_) => v.b == []
    case Text(_) => v.b == []
    case FixedBytes(size) => size == 0
    case Message(fields) => AllZero(fields, v.slots)
    case _ => v.n == 0
  }

  predicate AllZero(fields: seq<Field>, slots: seq<Slot>)
    requires TypedSlots(fields, slots)
    decreases fields, 1
  {
    forall i :: 0 <= i < |fields| ==> IsDefaultAt(fields, slots, i)
  }

  predicate IsDefaultAt(fields: seq<Field>, slots: seq<Slot>, i: nat)
    requires i < |fields| && TypedSlots(fields, slots)
    decreases fields, 0
  {
    assert TypedField(fields, slots, i);
    IsDefault(fields[i], slots[SlotOf(fields, i)])
  }

  predicate IsDefault(f: Field, s: Slot)
    requires TypedSlot(f, s)
    decreases f
  {
    match f.htype
    case Required => false
    case Repeated(_) => s.vs == []
    case Oneof(_) => s.tag == 0
    case Optional => !s.has
    case Singular => IsZero(f.ltype, s.v)
  }

  function EncodeSlot(f: Field, s: Slot): Option<bytes>
    requires TypedSlot(f, s)
    decreases f
  {
    match f.htype
    case Required => EncodeKeyedItem(f, s.v)
    case Optional => if s.has then EncodeKeyedItem(f, s.v) else Some([])
    case Singular => if IsZero(f.ltype, s.v) then Some([]) else EncodeKeyedItem(f, s.v)
    case Repeated(max) => EncodeArray(f.tag, f.ltype, s.vs, max)
    case Oneof(_) => if s.tag == f.tag then EncodeKeyedItem(f, s.v) else Some([])
  }

  /** The first n fields of a message, in descriptor order. */
  function EncodeFields(fields: seq<Field>, n: nat, slots: seq<Slot>): Option<bytes>
    requires n <= |fields| && TypedSlots(fields, slots)
    decreases fields, n
  {
    if n == 0 then Some([])
    else
      match EncodeFields(fields, n - 1, slots)
      case None => None
      case Some(b) =>
        assert TypedField(fields, slots, n - 1);
        match EncodeSlot(fields[n - 1], slots[SlotOf(fields, n - 1)]) case None => None case Some(c) => Some(b + c)
  }

  // ----- Decoding -----

  function Signed32(u: nat): int {
    var low := u % UINT32;
    if low < 0x8000_0000 then low else low - UINT32
  }

  /** The signed number of this size with the same low bits. */
  function Cast(x: int, size: nat): int {
    var low := x % (2 * Half(size));
    if low < Half(size) then low else low - 2 * Half(size)
  }

  /** A decoded number that must fit the field. */
  function Clamped(x: int, size: nat): Option<Value> {
    if !IntSize(size) || Cast(x, size) != x then None else Some(Num(x))
  }

  /** The slots a submessage is decoded into; a field of that type never stores any other shape. */
  function SlotsOf(fields: seq<Field>, v: Value): (slots: seq<Slot>)
    ensures |slots| == SlotCount(fields)
  {
    if v.Struct? && |v.slots| == SlotCount(fields) then v.slots else Defaults(fields, |fields|)
  }

  function Stored(s: Slot): Value {
    if s.Many? then Num(0) else s.v
  }

  /** One item, decoded over what its storage held before; fresh array entries start from defaults. */
  function DecodeItem(t: LType, fresh_: bool, before: Value, s: bytes): (r: Parsed<Value>)
    ensures r.Some? ==> |r.value.1| < |s|
    decreases t, 0
  {
    match t
    case Bool => (match DecodeVarint32(s) case None => None case Some((u, rest)) => Some((Num(if u != 0 then 1 else 0), rest)))
    case Int(size) =>
      (match DecodeVarint(s)
       case None => None
       case Some((u, rest)) => (match Clamped(if size == 8 then Signed64(u % UINT64) else Signed32(u), size)
                                case None => None case Some(v) => Some((v, rest))))
    case UInt(size) =>
      (match DecodeVarint(s)
       case None => None
       case Some((u, rest)) => if !IntSize(size) || u >= 2 * Half(size) then None else Some((Num(u), rest)))
    case SInt(size) =>
      (match DecodeVarint(s)
       case None => None
       case Some((u, rest)) => (match Clamped(Unzigzag(u % UINT64), size) case None => None case Some(v) => Some((v, rest))))
    case Fixed32 => if |s| < 4 then None else Some((Num(FromFixed(s[..4])), s[4..]))
    case Fixed64 => if |s| < 8 then None else Some((Num(FromFixed(s[..8])), s[8..]))
    case Bytes(max) =>
      (match DecodeVarint32(s)
       case None => None
       case Some((n, rest)) => if n > max || n > |rest| then None else Some((Blob(rest[..n]), rest[n..])))
    case Text(size) =>
      (match DecodeVarint32(s)
       case None => None
       case Some((n, rest)) => if n + 1 > size || n > |rest| then None else Some((Blob(rest[..n]), rest[n..])))
    case FixedBytes(size) =>
      (match DecodeVarint32(s)
       case None => None
       case Some((n, rest)) =>
         if n == 0 then Some((Blob(seq(size, _ => 0)), rest))
         else if n != size || n > |rest| then None
         else Some((Blob(rest[..n]), rest[n..])))
    case Message(fields) =>
      (match W.Delimited(s)
       case None => None
       case Some((sub, rest)) =>
         match DecodeMessage(fields, if fresh_ then Defaults(fields, |fields|) else SlotsOf(fields, before), sub)
         case None => None
         case Some(slots) => Some((Struct(slots), rest)))
  }

  /** A packed array's items, as long as there is room. */
  function DecodePacked(t: LType, vs: seq<Value>, max: nat, s: bytes): Option<seq<Value>>
    decreases t, 1, |s|
  {
    if s == [] then Some(vs)
    else if |vs| >= max then None
    else match DecodeItem(t, true, Num(0), s)
      case None => None
      case Some((v, rest)) => DecodePacked(t, vs + [v], max, rest)
  }

  /** One occurrence of a field, taken into its storage. */
  function DecodeSlot(f: Field, wire: nat, slot: Slot, s: bytes): (r: Parsed<Slot>)
    ensures r.Some? ==> |r.value.1| < |s|
    decreases f
  {
    match f.htype
    case Required => (match DecodeItem(f.ltype, false, Stored(slot), s) case None => None case Some((v, rest)) => Some((One(v), rest)))
    case Singular => (match DecodeItem(f.ltype, false, Stored(slot), s) case None => None case Some((v, rest)) => Some((One(v), rest)))
    case Optional => (match DecodeItem(f.ltype, false, Stored(slot), s) case None => None case Some((v, rest)) => Some((Has(true, v), rest)))
    case Repeated(max) =>
      var vs := if slot.Many? then slot.vs else [];
      if wire == W.WT_STRING && Packable(f.ltype) then
        (match W.Delimited(s)
         case None => None
         case Some((sub, rest)) =>
           (match DecodePacked(f.ltype, vs, max, sub) case None => None case Some(vs') => Some((Many(vs'), rest))))
      else if |vs| >= max then None
      else (match DecodeItem(f.ltype, true, Num(0), s) case None => None case Some((v, rest)) => Some((Many(vs + [v]), rest)))
    case Oneof(_) =>
      var before := if f.ltype.Message? && !(slot.Which? && slot.tag == f.tag) then ZeroOf(f.ltype) else Stored(slot);
      (match DecodeItem(f.ltype, false, before, s) case None => None case Some((v, rest)) => Some((Which(f.tag, v), rest)))
  }

  const MAX_REQUIRED := 64

  /** The loop of pb_decode_noinit: fields as they come, with the required ones among the first 64 ticked off. */
  datatype Progress = Done(slots: seq<Slot>, seen: set<nat>, rest: bytes) | Failed

  function DecodeFields(fields: seq<Field>, slots: seq<Slot>, seen: set<nat>, s: bytes): (r: Progress)
    requires |slots| == SlotCount(fields)
    ensures r.Done? ==> |r.slots| == SlotCount(fields)
    decreases fields, |s|
  {
    if s == [] then Done(slots, seen, [])
    else match W.DecodeTag(s)
      case NoKey => Failed
      case AtEnd(rest) => Done(slots, seen, rest)
      case Key_(tag, wire, rest) =>
        match IndexOf(fields, tag)
        case None => (match W.SkipField(rest, wire) case None => Failed case Some(r) => DecodeFields(fields, slots, seen, r))
        case Some(i) =>
          SlotInRange(fields, i);
          (match DecodeSlot(fields[i], wire, slots[SlotOf(fields, i)], rest)
           case None => Failed
           case Some((slot, r)) => DecodeFields(fields, slots[SlotOf(fields, i) := slot], Ticked(fields, i, seen), r))
  }

  function Ticked(fields: seq<Field>, i: nat, seen: set<nat>): set<nat>
    requires i < |fields|
  {
    if fields[i].htype.Required? && RequiredBefore(fields, i) < MAX_REQUIRED then seen + {RequiredBefore(fields, i)} else seen
  }

  lemma SlotInRange(fields: seq<Field>, i: nat)
    requires i < |fields|
    ensures SlotOf(fields, i) < SlotCount(fields)
  {
    SlotsAscend(fields, i, |fields| - 1);
  }

  /** Each of the first 64 required fields has been seen. */
  predicate AllRequired(fields: seq<Field>, seen: set<nat>) {
    forall i :: 0 <= i < RequiredBefore(fields, |fields|) && i < MAX_REQUIRED ==> i in seen
  }

  /** pb_decode_noinit: the fields of a whole stream, over what the message held before. */
  function DecodeMessage(fields: seq<Field>, slots: seq<Slot>, s: bytes): (r: Option<seq<Slot>>)
    requires |slots| == SlotCount(fields)
    ensures r.Some? ==> |r.value| == SlotCount(fields)
    decreases fields, |s| + 1
  {
    match DecodeFields(fields, slots, {}, s)
    case Failed => None
    case Done(slots', seen, _) => if AllRequired(fields, seen) then Some(slots') else None
  }
}
