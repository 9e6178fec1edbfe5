/** What decoding leaves behind for fields that came and for fields that did not (pb_decode.c). */
module PbDefaults {
  import opened Wrappers
  import opened UserKeys
  import opened Coding
  import opened PbVarint
  import opened PbDescriptor
  import opened PbMessage
  import opened PbRoundTrip
  import opened PbTheorems
  import opened PbUnknown
  import W = PbWire

  // ----- A message in which nothing has been set -----

  predicate ZeroValue(t: LType, v: Value)
    decreases t
  {
    match t
    case Bytes(_) => v == Blob([])
    case Text(_) => v == Blob([])
    case FixedBytes(size) => v.Blob? && |v.b| == size && forall k :: 0 <= k < size ==> v.b[k] == 0
    case Message(fields) => v.Struct? && AllUnset(fields, v.slots)
    case _ => v == Num(0)
  }

  predicate AllUnset(fields: seq<Field>, slots: seq<Slot>)
    decreases fields, 1
  {
    |slots| == SlotCount(fields) && forall i :: 0 <= i < |fields| ==> UnsetAt(fields, slots, i)
  }

  predicate UnsetAt(fields: seq<Field>, slots: seq<Slot>, i: nat)
    requires i < |fields|
    decreases fields, 0
  {
    SlotOf(fields, i) < |slots| && Unset(fields[i], slots[SlotOf(fields, i)])
  }

  /** An optional field is not there, an array is empty, a union has no member; values are the declared ones, or zero. */
  predicate Unset(f: Field, s: Slot)
    decreases f, 1
  {
    match f.htype
    case Required => s.One? && AtDefault(f, s.v)
    case Singular => s.One? && AtDefault(f, s.v)
    case Optional => s.Has? && !s.has && AtDefault(f, s.v)
    case Repeated(_) => s == Many([])
    case Oneof(_) => s.Which? && s.tag == 0
  }

  /** Submessages have the defaults of their own fields. */
  predicate AtDefault(f: Field, v: Value)
    decreases f, 0
  {
    if !f.ltype.Message? && f.default.Some? then v == f.default.value else ZeroValue(f.ltype, v)
  }

  /** Storage set to its defaults is a message in which nothing has been set, at every depth. */
  lemma {:induction false} DefaultsAreUnset(fields: seq<Field>)
    ensures AllUnset(fields, Defaults(fields, |fields|))
    decreases fields, 1
  {
    hide Defaults, DefaultSlot, Unset;
    DefaultsLong(fields);
    forall i | 0 <= i < |fields| ensures UnsetAt(fields, Defaults(fields, |fields|), i) {
      DefaultsAt(fields, |fields|, i);
      DefaultIsUnset(fields[i]);
    }
  }

  lemma DefaultsLong(fields: seq<Field>)
    ensures |Defaults(fields, |fields|)| == SlotCount(fields)
  {
  }

  lemma {:induction false} DefaultIsUnset(f: Field)
    ensures Unset(f, DefaultSlot(f))
    decreases f
  {
    hide ZeroValue, ZeroOf;
    ZeroIsZero(f.ltype);
  }

  lemma {:induction false} ZeroIsZero(t: LType)
    ensures ZeroValue(t, ZeroOf(t))
    decreases t
  {
    hide Defaults, AllUnset;
    if t.Message? { DefaultsAreUnset(t.fields); }
  }

  // ----- What one field leaves -----

  /** The storage is of the kind its field uses. */
  predicate Shaped(f: Field, s: Slot) {
    match f.htype
    case Required => s.One?
    case Singular => s.One?
    case Optional => s.Has?
    case Repeated(_) => s.Many?
    case Oneof(_) => s.Which?
  }

  lemma SlotLeft(f: Field, wire: nat, slot: Slot, s: bytes)
    requires DecodeSlot(f, wire, slot, s).Some?
    ensures var left := DecodeSlot(f, wire, slot, s).value.0;
            && Shaped(f, left)
            && (f.htype.Optional? ==> left.has)
            && (f.htype.Oneof? ==> left.tag == f.tag)
  {
    hide DecodeItem, DecodePacked, W.Delimited, ZeroOf, Packable;
  }

  /** Field i shares storage j with a field of this number. */
  predicate Stores(fields: seq<Field>, j: nat, tag: nat) {
    exists k :: 0 <= k < |fields| && StoresAt(fields, k, j, tag)
  }

  predicate StoresAt(fields: seq<Field>, k: nat, j: nat, tag: nat)
    requires k < |fields|
  {
    SlotOf(fields, k) == j && fields[k].tag == tag
  }

  lemma TurnIs(fields: seq<Field>, slots: seq<Slot>, seen: set<nat>, s: bytes)
    requires |slots| == SlotCount(fields) && Turn(fields, slots, seen, s).Some?
    ensures W.DecodeTag(s).Key_?
    ensures var key, slots' := W.DecodeTag(s), Turn(fields, slots, seen, s).value.0;
            match IndexOf(fields, key.tag)
            case None => slots' == slots
            case Some(m) =>
              && SlotOf(fields, m) < |slots|
              && DecodeSlot(fields[m], key.wire, slots[SlotOf(fields, m)], key.rest).Some?
              && slots' == slots[SlotOf(fields, m) := DecodeSlot(fields[m], key.wire, slots[SlotOf(fields, m)], key.rest).value.0]
  {
    hide W.DecodeTag, W.SkipField, DecodeSlot, Ticked;
    var key := W.DecodeTag(s);
    match IndexOf(fields, key.tag)
    case None => {}
    case Some(m) => { SlotInRange(fields, m); }
  }

  /** One turn of the loop touches no storage but that of the field that came. */
  lemma TurnLeaves(fields: seq<Field>, slots: seq<Slot>, seen: set<nat>, s: bytes, i: nat)
    requires Valid(fields) && |slots| == SlotCount(fields) && Turn(fields, slots, seen, s).Some? && i < |fields|
    requires SlotOf(fields, i) < |slots| && Shaped(fields[i], slots[SlotOf(fields, i)])
    ensures W.DecodeTag(s).Key_?
    ensures var j, tag := SlotOf(fields, i), W.DecodeTag(s).tag;
            var left := Turn(fields, slots, seen, s).value.0[j];
            && Shaped(fields[i], left)
            && (!Stores(fields, j, tag) ==> left == slots[j])
            && (Stores(fields, j, tag) && fields[i].htype.Optional? ==> fields[i].tag == tag && left.has)
            && (Stores(fields, j, tag) && fields[i].htype.Oneof? ==> left.tag == tag)
            && (Stores(fields, j, tag) && !fields[i].htype.Oneof? ==> fields[i].tag == tag)
  {
    hide W.DecodeTag, Turn, DecodeSlot, Valid, Shaped, Stores;
    TurnIs(fields, slots, seen, s);
    var j, key := SlotOf(fields, i), W.DecodeTag(s);
    match IndexOf(fields, key.tag)
    case None => {
      NotStored(fields, j, key.tag);
    }
    case Some(m) => {
      SlotLeft(fields[m], key.wire, slots[SlotOf(fields, m)], key.rest);
      StoredThere(fields, m, j);
      if SlotOf(fields, m) == j && m != i {
        if m < i { SharedAreOneofs(fields, m, i); } else { SharedAreOneofs(fields, i, m); }
      }
      if SlotOf(fields, m) == j { ShapeOfBoth(fields[m], fields[i], DecodeSlot(fields[m], key.wire, slots[SlotOf(fields, m)], key.rest).value.0); }
    }
  }

  lemma NotStored(fields: seq<Field>, j: nat, tag: nat)
    requires IndexOf(fields, tag) == None
    ensures !Stores(fields, j, tag)
  {
  }

  lemma StoredThere(fields: seq<Field>, m: nat, j: nat)
    requires Valid(fields) && m < |fields|
    ensures Stores(fields, j, fields[m].tag) <==> SlotOf(fields, m) == j
  {
    if Stores(fields, j, fields[m].tag) {
      var k: nat :| k < |fields| && StoresAt(fields, k, j, fields[m].tag);
      assert k < m ==> DifferentTags(fields, k, m);
      assert m < k ==> DifferentTags(fields, m, k);
    }
    assert StoresAt(fields, m, SlotOf(fields, m), fields[m].tag);
  }

  lemma ShapeOfBoth(f: Field, g: Field, s: Slot)
    requires Shaped(f, s)
    ensures f.htype.Oneof? && g.htype.Oneof? ==> Shaped(g, s) && s.Which?
  {
  }

  // ----- What whole fields leave -----

  /** Some field that has storage j is among the numbers that came. */
  ghost predicate Came(fields: seq<Field>, j: nat, tags: set<nat>) {
    exists tag :: tag in tags && Stores(fields, j, tag)
  }

  lemma {:induction false} FieldsLeave(fields: seq<Field>, slots: seq<Slot>, seen: set<nat>, s: bytes, i: nat)
    requires Valid(fields) && |slots| == SlotCount(fields) && WholeFields(fields, slots, seen, s) && i < |fields|
    requires SlotOf(fields, i) < |slots| && Shaped(fields[i], slots[SlotOf(fields, i)])
    ensures DecodeFields(fields, slots, seen, s).Done?
    ensures var j, tags := SlotOf(fields, i), TagsOf(fields, slots, seen, s);
            var left := DecodeFields(fields, slots, seen, s).slots[j];
            && Shaped(fields[i], left)
            && (!Came(fields, j, tags) ==> left == slots[j])
            && (fields[i].htype.Optional? ==> (left.has <==> slots[j].has || fields[i].tag in tags))
            && (fields[i].htype.Oneof? && Came(fields, j, tags) ==> left.tag in tags && Stores(fields, j, left.tag))
    decreases |s|
  {
    hide Turn, Valid, Shaped, Stores;
    if s == [] {
      Nothing(fields, slots, seen);
    } else {
      var (slots', seen', rest) := Turn(fields, slots, seen, s).value;
      TurnIsStep(fields, slots, seen, s);
      TurnLeaves(fields, slots, seen, s, i);
      FieldsLeave(fields, slots', seen', rest, i);
      var j, tag := SlotOf(fields, i), W.DecodeTag(s).tag;
      var tags, tags' := TagsOf(fields, slots, seen, s), TagsOf(fields, slots', seen', rest);
      assert tags == {tag} + tags';
      CameFirst(fields, j, tag, tags');
      OwnStorage(fields, i);
    }
  }

  lemma Nothing(fields: seq<Field>, slots: seq<Slot>, seen: set<nat>)
    requires |slots| == SlotCount(fields)
    ensures DecodeFields(fields, slots, seen, []) == Done(slots, seen, [])
    ensures WholeFields(fields, slots, seen, []) && TagsOf(fields, slots, seen, []) == {}
    ensures forall j :: !Came(fields, j, {})
  {
  }

  lemma CameFirst(fields: seq<Field>, j: nat, tag: nat, tags: set<nat>)
    ensures Came(fields, j, {tag} + tags) <==> Stores(fields, j, tag) || Came(fields, j, tags)
  {
    hide Stores;
    if Stores(fields, j, tag) { assert tag in {tag} + tags; }
    if Came(fields, j, tags) {
      var other :| other in tags && Stores(fields, j, other);
      assert other in {tag} + tags;
    }
  }

  lemma OwnStorage(fields: seq<Field>, i: nat)
    requires i < |fields|
    ensures Stores(fields, SlotOf(fields, i), fields[i].tag)
  {
    assert StoresAt(fields, i, SlotOf(fields, i), fields[i].tag);
  }

  /**
   * Decoding whole fields into fresh storage tells exactly which fields came: an optional field is there if and only if
   * its number came; a union has a member if and only if one of its members came, and then it is one that did; and
   * whatever did not come is unset.
   */
  lemma AbsentFieldsAreUnset(fields: seq<Field>, s: bytes, i: nat)
    requires Valid(fields) && i < |fields| && WholeFields(fields, Defaults(fields, |fields|), {}, s)
    ensures DecodeFields(fields, Defaults(fields, |fields|), {}, s).Done?
    ensures SlotOf(fields, i) < SlotCount(fields)
    ensures var f, j := fields[i], SlotOf(fields, i);
            var tags := TagsOf(fields, Defaults(fields, |fields|), {}, s);
            var left := DecodeFields(fields, Defaults(fields, |fields|), {}, s).slots[j];
            && (f.htype.Optional? ==> left.Has? && (left.has <==> f.tag in tags))
            && (f.htype.Oneof? ==> left.Which? && (left.tag != 0 <==> Came(fields, j, tags)))
            && (f.htype.Oneof? && left.tag != 0 ==> left.tag in tags && Stores(fields, j, left.tag))
            && (f.htype.Repeated? ==> left.Many?)
            && (!Came(fields, j, tags) ==> Unset(f, left))
            && (!f.htype.Oneof? ==> (Came(fields, j, tags) <==> f.tag in tags))
  {
    hide DecodeFields, TagsOf, WholeFields, Valid, Defaults, DefaultSlot, Unset, Stores;
    var slots, j := Defaults(fields, |fields|), SlotOf(fields, i);
    DefaultsLong(fields);
    DefaultsAt(fields, |fields|, i);
    DefaultIsUnset(fields[i]);
    UnsetIsShaped(fields[i], slots[j]);
    FieldsLeave(fields, slots, {}, s, i);
    var tags := TagsOf(fields, slots, {}, s);
    if Came(fields, j, tags) {
      var tag :| tag in tags && Stores(fields, j, tag);
      TagIsPositive(fields, j, DecodeFields(fields, slots, {}, s).slots[j], i);
      if !fields[i].htype.Oneof? { OnlyOne(fields, i, tag); }
    }
    OwnStorage(fields, i);
  }

  /** What the storage of field i says about the numbers that came. */
  ghost predicate Told(fields: seq<Field>, tags: set<nat>, slots: seq<Slot>, i: nat)
    requires i < |fields|
  {
    var f, j := fields[i], SlotOf(fields, i);
    && j < |slots|
    && (f.htype.Optional? ==> slots[j].Has? && (slots[j].has <==> f.tag in tags))
    && (f.htype.Oneof? ==> slots[j].Which? && (slots[j].tag != 0 <==> Came(fields, j, tags)))
    && (!Came(fields, j, tags) ==> Unset(f, slots[j]))
  }

  lemma DecodingTells(fields: seq<Field>, s: bytes, i: nat)
    requires Valid(fields) && i < |fields| && WholeFields(fields, Defaults(fields, |fields|), {}, s)
    requires DecodeMessage(fields, Defaults(fields, |fields|), s).Some?
    ensures Told(fields, TagsOf(fields, Defaults(fields, |fields|), {}, s),
                 DecodeMessage(fields, Defaults(fields, |fields|), s).value, i)
  {
    hide DecodeFields, TagsOf, WholeFields, Valid, Defaults, Unset, Came, AllRequired;
    AbsentFieldsAreUnset(fields, s, i);
  }

  lemma UnsetIsShaped(f: Field, s: Slot)
    requires Unset(f, s)
    ensures Shaped(f, s) && (f.htype.Optional? ==> !s.has) && (f.htype.Oneof? ==> s.tag == 0)
  {
  }

  lemma OnlyOne(fields: seq<Field>, i: nat, tag: nat)
    requires i < |fields| && !fields[i].htype.Oneof? && Stores(fields, SlotOf(fields, i), tag)
    ensures tag == fields[i].tag
  {
    var k: nat :| k < |fields| && StoresAt(fields, k, SlotOf(fields, i), tag);
    if k < i { SharedAreOneofs(fields, k, i); } else if i < k { SharedAreOneofs(fields, i, k); }
  }

  lemma TagIsPositive(fields: seq<Field>, j: nat, s: Slot, i: nat)
    requires Valid(fields) && i < |fields| && SlotOf(fields, i) == j
    ensures s.Which? && Stores(fields, j, s.tag) ==> s.tag != 0
    ensures Shaped(fields[i], s) && fields[i].htype.Oneof? ==> s.Which?
  {
    if s.Which? && Stores(fields, j, s.tag) {
      var k: nat :| k < |fields| && StoresAt(fields, k, j, s.tag);
      FieldIsValid(fields, k);
    }
  }

  // ----- Presence goes through the codec -----

  predicate SamePresence(fields: seq<Field>, i: nat, s: Slot, left: Slot)
    requires i < |fields|
  {
    match fields[i].htype
    case Optional => s.Has? && left.Has? && left.has == s.has
    case Repeated(_) => s.Many? && left.Many? && |left.vs| == |s.vs|
    case Oneof(_) => s.Which? && left.Which? && left.tag == if MemberOf(fields, i, s.tag) then s.tag else 0
    case _ => true
  }

  /**
   * Encoding and decoding keeps what is there and what is not: has flags, the lengths of arrays, the members of
   * unions; a field of which nothing was encoded comes back unset.
   */
  lemma PresenceKept(fields: seq<Field>, slots: seq<Slot>, i: nat)
    requires GoodMessage(fields, slots) && i < |fields|
    ensures TypedField(fields, slots, i)
    ensures DecodeMessage(fields, Defaults(fields, |fields|), EncodeFields(fields, |fields|, slots).value).Some?
    ensures var f, s := fields[i], slots[SlotOf(fields, i)];
            var back := DecodeMessage(fields, Defaults(fields, |fields|), EncodeFields(fields, |fields|, slots).value).value;
            && SlotOf(fields, i) < |back|
            && var left := back[SlotOf(fields, i)];
               SamePresence(fields, i, s, left) && (!f.htype.Oneof? && !Present(f, s) ==> Unset(f, left))
  {
    hide DecodeMessage, EncodeFields, Written, Defaults, Valid, TypedSlots, TerminatedField, NormalSlot, Present, Unset, DefaultSlot;
    hide SamePresence, MemberOf, NormalSlots;
    MessageRoundTrip(fields, slots);
    FieldTyped(fields, slots, i);
    var j := SlotOf(fields, i);
    var s := slots[j];
    SlotInRange(fields, i);
    DefaultsAt(fields, |fields|, i);
    DefaultIsUnset(fields[i]);
    if k :| 0 <= k < |fields| && SlotOf(fields, k) == j && PresentAt(fields, slots, k) {
      WrittenOnce(fields, |fields|, slots, k);
      if k < i { SharedAreOneofs(fields, k, i); } else if i < k { SharedAreOneofs(fields, i, k); }
      PresentIsSame(fields, i, k, s);
    } else {
      Untouched(fields, |fields|, slots, j);
      AbsentKinds(fields, slots, i);
      AbsentIsSame(fields, i, s);
    }
  }

  lemma PresentIsSame(fields: seq<Field>, i: nat, k: nat, s: Slot)
    requires i < |fields| && k < |fields| && SlotOf(fields, k) == SlotOf(fields, i)
    requires TypedSlot(fields[k], s) && Present(fields[k], s)
    requires k == i || (fields[i].htype.Oneof? && fields[k].htype.Oneof?)
    ensures SamePresence(fields, i, s, NormalSlot(fields[k], s)) && (!fields[i].htype.Oneof? ==> k == i)
  {
    hide NormalSlot, Present;
    PresentKinds(fields[k], s);
    MemberTold(fields, i, k, s);
  }

  lemma AbsentIsSame(fields: seq<Field>, i: nat, s: Slot)
    requires i < |fields| && (fields[i].htype.Optional? ==> s.Has? && !s.has) && (fields[i].htype.Repeated? ==> s == Many([]))
    requires fields[i].htype.Oneof? ==> s.Which? && !MemberOf(fields, i, s.tag)
    ensures SamePresence(fields, i, s, DefaultSlot(fields[i]))
  {
    hide DefaultSlot, MemberOf;
    DefaultIsUnset(fields[i]);
    UnsetKinds(fields[i], DefaultSlot(fields[i]));
  }

  lemma FieldTyped(fields: seq<Field>, slots: seq<Slot>, i: nat)
    requires TypedSlots(fields, slots) && i < |fields|
    ensures TypedField(fields, slots, i)
  {
  }

  lemma UnsetKinds(f: Field, s: Slot)
    requires Unset(f, s)
    ensures f.htype.Optional? ==> s.Has? && !s.has
    ensures f.htype.Repeated? ==> s == Many([])
    ensures f.htype.Oneof? ==> s.Which? && s.tag == 0
  {
  }

  lemma PresentKinds(f: Field, s: Slot)
    requires TypedSlot(f, s) && Present(f, s)
    ensures f.htype.Optional? ==> s.Has? && s.has && NormalSlot(f, s).Has? && NormalSlot(f, s).has
    ensures f.htype.Repeated? ==> s.Many? && NormalSlot(f, s).Many? && |NormalSlot(f, s).vs| == |s.vs|
    ensures f.htype.Oneof? ==> s.Which? && s.tag == f.tag && NormalSlot(f, s).Which? && NormalSlot(f, s).tag == f.tag
  {
    hide NormalValue, NormalValues, Typed;
  }

  lemma MemberTold(fields: seq<Field>, i: nat, k: nat, s: Slot)
    requires i < |fields| && k < |fields| && SlotOf(fields, k) == SlotOf(fields, i)
    ensures MemberOf(fields, i, fields[k].tag)
  {
  }

  /** No field of this storage is present. */
  lemma AbsentKinds(fields: seq<Field>, slots: seq<Slot>, i: nat)
    requires TypedSlots(fields, slots) && i < |fields| && TypedField(fields, slots, i)
    requires forall k :: 0 <= k < |fields| && SlotOf(fields, k) == SlotOf(fields, i) ==> !PresentAt(fields, slots, k)
    ensures var f, s := fields[i], slots[SlotOf(fields, i)];
            && !Present(f, s)
            && (f.htype.Optional? ==> s.Has? && !s.has)
            && (f.htype.Repeated? ==> s == Many([]))
            && (f.htype.Oneof? ==> s.Which? && !MemberOf(fields, i, s.tag))
  {
    hide TypedSlots, Typed, IsZero;
    var f, s := fields[i], slots[SlotOf(fields, i)];
    assert !PresentAt(fields, slots, i);
    if f.htype.Oneof? && MemberOf(fields, i, s.tag) {
      var k :| 0 <= k < |fields| && SlotOf(fields, k) == SlotOf(fields, i) && fields[k].tag == s.tag;
      MemberIsPresent(fields, slots, i, k);
    }
  }
}
