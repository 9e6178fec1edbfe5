/** Theorems about whole messages: the round trip, unknown fields, required fields (pb_encode.c, pb_decode.c). */
module PbTheorems {
  import opened Wrappers
  import opened UserKeys
  import opened Coding
  import opened PbVarint
  import opened PbDescriptor
  import opened PbMessage
  import opened PbRoundTrip
  import W = PbWire

  // ----- Messages whose absent parts hold their defaults -----

  predicate Normal(t: LType, v: Value)
    requires Typed(t, v)
    decreases t
  {
    t.Message? ==> NormalSlots(t.fields, v.slots)
  }

  predicate NormalSlots(fields: seq<Field>, slots: seq<Slot>)
    requires TypedSlots(fields, slots)
    decreases fields, 1
  {
    forall i :: 0 <= i < |fields| ==> NormalAt(fields, slots, i)
  }

  predicate NormalAt(fields: seq<Field>, slots: seq<Slot>, i: nat)
    requires i < |fields| && TypedSlots(fields, slots)
    decreases fields, 0
  {
    assert TypedField(fields, slots, i);
    var s := slots[SlotOf(fields, i)];
    if Present(fields[i], s) then NormalContents(fields[i], s)
    else if fields[i].htype.Oneof? && s.tag != 0 then MemberOf(fields, i, s.tag)
    else s == DefaultSlot(fields[i])
  }

  /** The union of field i has a member with this tag. */
  predicate MemberOf(fields: seq<Field>, i: nat, tag: nat)
    requires i < |fields|
  {
    exists k :: 0 <= k < |fields| && SlotOf(fields, k) == SlotOf(fields, i) && fields[k].tag == tag
  }

  predicate NormalContents(f: Field, s: Slot)
    requires TypedSlot(f, s) && Present(f, s)
    decreases f
  {
    if f.htype.Repeated? then forall i :: 0 <= i < |s.vs| ==> Normal(f.ltype, s.vs[i]) else Normal(f.ltype, s.v)
  }

  lemma {:induction false} ContentsStay(f: Field, s: Slot)
    requires ValidType(f.ltype) && TypedSlot(f, s) && Present(f, s) && NormalContents(f, s)
    ensures NormalSlot(f, s) == s
    decreases f
  {
    hide NormalValue, NormalValues, Normal;
    if f.htype.Repeated? {
      ItemsStay(f.ltype, s.vs, |s.vs|);
      assert s.vs[..|s.vs|] == s.vs;
    } else {
      ItemStays(f.ltype, s.v);
    }
  }

  lemma {:induction false} ItemsStay(t: LType, vs: seq<Value>, n: nat)
    requires ValidType(t) && n <= |vs| && forall i :: 0 <= i < |vs| ==> Typed(t, vs[i]) && Normal(t, vs[i])
    ensures NormalValues(t, vs, n) == vs[..n]
    decreases t, 1, n
  {
    hide NormalValue, Normal;
    if n > 0 {
      ItemsStay(t, vs, n - 1);
      ItemStays(t, vs[n - 1]);
    }
  }

  lemma {:induction false} ItemStays(t: LType, v: Value)
    requires ValidType(t) && Typed(t, v) && Normal(t, v)
    ensures NormalValue(t, v) == v
    decreases t, 0
  {
    if t.Message? {
      TypedMessage(t.fields, v);
      SlotsStay(t.fields, v.slots);
    }
  }

  lemma TypedMessage(fields: seq<Field>, v: Value)
    requires ValidType(Message(fields)) && Typed(Message(fields), v) && Normal(Message(fields), v)
    ensures v.Struct? && TypedSlots(fields, v.slots) && Valid(fields) && NormalSlots(fields, v.slots)
  {
    assert Normal(Message(fields), v);
  }

  lemma {:induction false} SlotsStay(fields: seq<Field>, slots: seq<Slot>)
    requires Valid(fields) && TypedSlots(fields, slots) && NormalSlots(fields, slots)
    ensures Written(fields, |fields|, slots) == slots
    decreases fields, 2
  {
    hide Written, NormalAt;
    forall j | 0 <= j < |slots| ensures Written(fields, |fields|, slots)[j] == slots[j] {
      var i := FieldOf(fields, j);
      SlotStays(fields, i, slots);
    }
  }

  /** Every slot belongs to some field. */
  lemma {:induction false} FieldOf(fields: seq<Field>, j: nat) returns (i: nat)
    requires j < SlotCount(fields)
    ensures i < |fields| && SlotOf(fields, i) == j
  {
    i := FieldBefore(fields, |fields| - 1, j);
  }

  lemma {:induction false} FieldBefore(fields: seq<Field>, n: nat, j: nat) returns (i: nat)
    requires n < |fields| && j <= SlotOf(fields, n)
    ensures i <= n && SlotOf(fields, i) == j
  {
    if SlotOf(fields, n) == j { i := n; } else { i := FieldBefore(fields, n - 1, j); }
  }

  lemma {:induction false} SlotStays(fields: seq<Field>, i: nat, slots: seq<Slot>)
    requires Valid(fields) && TypedSlots(fields, slots) && NormalSlots(fields, slots) && i < |fields|
    ensures SlotOf(fields, i) < SlotCount(fields) == |slots|
    ensures Written(fields, |fields|, slots)[SlotOf(fields, i)] == slots[SlotOf(fields, i)]
    decreases fields, 1
  {
    hide Written, NormalAt, NormalContents, NormalSlot, Defaults;
    var j := SlotOf(fields, i);
    SlotInRange(fields, i);
    if k :| 0 <= k < |fields| && SlotOf(fields, k) == j && PresentAt(fields, slots, k) {
      assert NormalAt(fields, slots, k) && TypedField(fields, slots, k);
      PresentIsNormal(fields, slots, k);
      FieldIsValid(fields, k);
      ContentsStay(fields[k], slots[j]);
      WrittenOnce(fields, |fields|, slots, k);
    } else {
      Untouched(fields, |fields|, slots, j);
      DefaultsAt(fields, |fields|, i);
      AbsentIsDefault(fields, slots, i);
    }
  }

  lemma PresentIsNormal(fields: seq<Field>, slots: seq<Slot>, k: nat)
    requires k < |fields| && TypedSlots(fields, slots) && NormalAt(fields, slots, k) && PresentAt(fields, slots, k)
    ensures TypedField(fields, slots, k) && Present(fields[k], slots[SlotOf(fields, k)])
    ensures NormalContents(fields[k], slots[SlotOf(fields, k)])
  {
    assert TypedField(fields, slots, k);
  }

  lemma UnionKind(f: Field, s: Slot)
    requires TypedSlot(f, s)
    ensures f.htype.Oneof? ==> s.Which?
  {
  }

  lemma AbsentIsDefault(fields: seq<Field>, slots: seq<Slot>, i: nat)
    requires i < |fields| && TypedSlots(fields, slots) && NormalSlots(fields, slots)
    requires forall k :: 0 <= k < |fields| && SlotOf(fields, k) == SlotOf(fields, i) ==> !PresentAt(fields, slots, k)
    ensures SlotOf(fields, i) < |slots| && slots[SlotOf(fields, i)] == DefaultSlot(fields[i])
  {
    assert TypedField(fields, slots, i) && NormalAt(fields, slots, i) && !PresentAt(fields, slots, i);
    var s := slots[SlotOf(fields, i)];
    UnionKind(fields[i], s);
    if fields[i].htype.Oneof? && s.tag != 0 {
      var k :| 0 <= k < |fields| && SlotOf(fields, k) == SlotOf(fields, i) && fields[k].tag == s.tag;
      MemberIsPresent(fields, slots, i, k);
    }
  }

  lemma MemberIsPresent(fields: seq<Field>, slots: seq<Slot>, i: nat, k: nat)
    requires i < |fields| && k < |fields| && TypedSlots(fields, slots) && SlotOf(fields, k) == SlotOf(fields, i)
    requires SlotOf(fields, i) < |slots| && fields[i].htype.Oneof?
    requires slots[SlotOf(fields, i)].Which? && slots[SlotOf(fields, i)].tag == fields[k].tag
    ensures PresentAt(fields, slots, k)
  {
    assert TypedField(fields, slots, k);
    if k < i { SharedAreOneofs(fields, k, i); } else if i < k { SharedAreOneofs(fields, i, k); }
  }

  /** A present field's storage is written in its turn and not again. */
  lemma {:induction false} WrittenOnce(fields: seq<Field>, n: nat, slots: seq<Slot>, k: nat)
    requires Valid(fields) && TypedSlots(fields, slots) && k < n <= |fields| && PresentAt(fields, slots, k)
    ensures TypedField(fields, slots, k) && Present(fields[k], slots[SlotOf(fields, k)])
    ensures SlotOf(fields, k) < SlotCount(fields)
    ensures Written(fields, n, slots)[SlotOf(fields, k)] == NormalSlot(fields[k], slots[SlotOf(fields, k)])
    decreases n
  {
    hide Written, NormalSlot;
    assert TypedField(fields, slots, k) && TypedField(fields, slots, n - 1);
    WrittenStep(fields, n - 1, slots);
    SlotInRange(fields, k);
    if k < n - 1 {
      WrittenOnce(fields, n - 1, slots, k);
      if SlotOf(fields, n - 1) == SlotOf(fields, k) {
        SharedAreOneofs(fields, k, n - 1);
        assert DifferentTags(fields, k, n - 1);
      }
    }
  }

  /**
   * The message round trip: for every valid descriptor and every in-range message that can be encoded, decoding the
   * bytes into fresh storage succeeds, uses all of them, and gives the message back, with what is absent at its
   * default. A message that holds those defaults already comes back unchanged.
   */
  lemma MessageRoundTrip(fields: seq<Field>, slots: seq<Slot>)
    requires GoodMessage(fields, slots)
    ensures var e := EncodeFields(fields, |fields|, slots).value;
            && DecodeMessage(fields, Defaults(fields, |fields|), e) == Some(Written(fields, |fields|, slots))
            && DecodeFields(fields, Defaults(fields, |fields|), {}, e)
               == Done(Written(fields, |fields|, slots), Seen(fields, |fields|), [])
            && (NormalSlots(fields, slots) ==> DecodeMessage(fields, Defaults(fields, |fields|), e) == Some(slots))
  {
    hide Written, Defaults, EncodeFields, NormalSlots;
    var e := EncodeFields(fields, |fields|, slots).value;
    MessageBack(fields, slots);
    FieldsBack(fields, |fields|, slots, []);
    assert e + [] == e;
    if NormalSlots(fields, slots) { SlotsStay(fields, slots); }
  }
}
