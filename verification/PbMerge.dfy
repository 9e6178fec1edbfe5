/** A field that comes more than once (pb_decode.c): what the later occurrences do to what is stored. */
module PbMerge {
  import opened Wrappers
  import opened UserKeys
  import opened Coding
  import opened PbVarint
  import opened PbDescriptor
  import opened PbMessage
  import opened PbRoundTrip
  import opened PbUnknown
  import W = PbWire

  /** What has been ticked off makes no difference to what is stored. */
  lemma {:induction false} SeenIsIrrelevant(fields: seq<Field>, slots: seq<Slot>, seen: set<nat>, seen': set<nat>, s: bytes)
    requires |slots| == SlotCount(fields)
    ensures var r, r' := DecodeFields(fields, slots, seen, s), DecodeFields(fields, slots, seen', s);
            r.Done? == r'.Done? && (r.Done? ==> r.slots == r'.slots && r.rest == r'.rest)
    decreases |s|
  {
    hide DecodeSlot, W.DecodeTag, W.SkipField, Ticked;
    if s != [] && W.DecodeTag(s).Key_? {
      var key := W.DecodeTag(s);
      match IndexOf(fields, key.tag)
      case None => {
        if W.SkipField(key.rest, key.wire).Some? {
          SeenIsIrrelevant(fields, slots, seen, seen', W.SkipField(key.rest, key.wire).value);
        }
      }
      case Some(i) => {
        SlotInRange(fields, i);
        var d := DecodeSlot(fields[i], key.wire, slots[SlotOf(fields, i)], key.rest);
        if d.Some? {
          SeenIsIrrelevant(fields, slots[SlotOf(fields, i) := d.value.0], Ticked(fields, i, seen), Ticked(fields, i, seen'), d.value.1);
        }
      }
    }
  }

  /** One message after another into the same storage is their bytes after one another. */
  lemma MessagesConcatenate(fields: seq<Field>, slots: seq<Slot>, a: bytes, b: bytes)
    requires |slots| == SlotCount(fields) && WholeFields(fields, slots, {}, a)
    requires DecodeMessage(fields, slots, a).Some? && DecodeMessage(fields, DecodeMessage(fields, slots, a).value, b).Some?
    ensures var both := DecodeFields(fields, slots, {}, a + b);
            both.Done? && DecodeMessage(fields, DecodeMessage(fields, slots, a).value, b) == Some(both.slots)
  {
    hide DecodeFields, WholeFields, AllRequired;
    ThroughFields(fields, slots, {}, a, b);
    var first := DecodeFields(fields, slots, {}, a);
    SeenIsIrrelevant(fields, first.slots, {}, first.seen, b);
  }

  /** What a single submessage field holds, if it has been stored before. */
  predicate Holds(sub: seq<Field>, slot: Slot) {
    !slot.Many? && slot.v.Struct? && |slot.v.slots| == SlotCount(sub)
  }

  /** A single submessage that comes twice is merged: its fields are those of both occurrences, one after the other. */
  lemma OccurrencesMerge(f: Field, sub: seq<Field>, wire: nat, slot: Slot, a: bytes, b: bytes, rest: bytes, rest': bytes)
    requires f.ltype == Message(sub) && (f.htype.Required? || f.htype.Optional? || f.htype.Singular?)
    requires |a| < UINT32 && |b| < UINT32 && Holds(sub, slot) && WholeFields(sub, slot.v.slots, {}, a)
    requires DecodeMessage(sub, slot.v.slots, a).Some?
    requires DecodeMessage(sub, DecodeMessage(sub, slot.v.slots, a).value, b).Some?
    ensures var first := DecodeSlot(f, wire, slot, Prefixed(a) + rest);
            && first.Some? && first.value.1 == rest
            && var second := DecodeSlot(f, wire, first.value.0, Prefixed(b) + rest');
               && second.Some? && second.value.1 == rest' && Holds(sub, second.value.0)
               && var both := DecodeFields(sub, slot.v.slots, {}, a + b);
                  both.Done? && second.value.0.v.slots == both.slots
  {
    hide DecodeMessage, DecodeFields, WholeFields, W.Delimited, Prefixed;
    MessagesConcatenate(sub, slot.v.slots, a, b);
    PrefixedRoundTrip(a, rest);
    PrefixedRoundTrip(b, rest');
    SingleSlot(f, sub, wire, slot, Prefixed(a) + rest, a, rest);
    var first := DecodeSlot(f, wire, slot, Prefixed(a) + rest).value.0;
    SingleSlot(f, sub, wire, first, Prefixed(b) + rest', b, rest');
  }

  lemma SingleSlot(f: Field, sub: seq<Field>, wire: nat, slot: Slot, s: bytes, a: bytes, rest: bytes)
    requires f.ltype == Message(sub) && (f.htype.Required? || f.htype.Optional? || f.htype.Singular?)
    requires Holds(sub, slot) && W.Delimited(s) == Some((a, rest)) && DecodeMessage(sub, slot.v.slots, a).Some?
    ensures DecodeSlot(f, wire, slot, s).Some? && DecodeSlot(f, wire, slot, s).value.1 == rest
    ensures Holds(sub, DecodeSlot(f, wire, slot, s).value.0)
    ensures DecodeSlot(f, wire, slot, s).value.0.v == Struct(DecodeMessage(sub, slot.v.slots, a).value)
  {
    hide DecodeMessage, W.Delimited;
  }

  /**
   * A member of a union that was not the current one starts from its defaults, whatever the union held; the current
   * one, if it is a submessage, is merged.
   */
  lemma UnionMembers(f: Field, sub: seq<Field>, wire: nat, tag: nat, v: Value, s: bytes, a: bytes, rest: bytes)
    requires f.htype.Oneof? && f.ltype == Message(sub) && W.Delimited(s) == Some((a, rest))
    ensures tag != f.tag ==>
              DecodeSlot(f, wire, Which(tag, v), s)
              == match DecodeMessage(sub, Defaults(sub, |sub|), a)
                 case None => None
                 case Some(slots) => Some((Which(f.tag, Struct(slots)), rest))
    ensures v.Struct? && |v.slots| == SlotCount(sub) ==>
              DecodeSlot(f, wire, Which(f.tag, v), s)
              == match DecodeMessage(sub, v.slots, a)
                 case None => None
                 case Some(slots) => Some((Which(f.tag, Struct(slots)), rest))
  {
    hide DecodeMessage, W.Delimited;
    assert |Defaults(sub, |sub|)| == SlotCount(sub);
  }
}
