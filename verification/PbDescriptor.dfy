/** Message descriptors and message values of nanopb, and the circular walk over a descriptor (pb.h, pb_common.c). */
module PbDescriptor {
  import opened Wrappers
  import opened UserKeys
  import opened Coding
  import opened PbVarint

  /** How one item of a field is stored and encoded; sizes are in bytes, as in the C struct. */
  datatype LType =
    | Bool
    | Int(size: nat)
    | UInt(size: nat)
    | SInt(size: nat)
    | Fixed32
    | Fixed64
    | Bytes(max: nat)            // pb_bytes_array_t with room for max bytes
    | Text(size: nat)            // a char array, with its terminator
    | Message(fields: seq<Field>)
    | FixedBytes(size: nat)

  /** How often a field occurs. A oneof field that joins shares the union of the field before it. */
  datatype HType = Required | Optional | Singular | Repeated(max: nat) | Oneof(joins: bool)

  datatype Field = Field(tag: nat, htype: HType, ltype: LType, default: Option<Value>)

  datatype Value = Num(n: int) | Blob(b: bytes) | Struct(slots: seq<Slot>)

  /**
   * The storage of a field: a value; a has flag and a value; a count and an array; or a union and the tag of the
   * member it holds, 0 for none.
   */
  datatype Slot = One(v: Value) | Has(has: bool, v: Value) | Many(vs: seq<Value>) | Which(tag: nat, v: Value)

  predicate Packable(t: LType) {
    t.Bool? || t.Int? || t.UInt? || t.SInt? || t.Fixed32? || t.Fixed64?
  }

  // ----- The walk: where each field is stored, and how many required fields come before it -----

  /** Whether field i (not the first) shares the storage of the one before it. */
  predicate Shares(fields: seq<Field>, i: nat)
    requires 0 < i < |fields|
  {
    fields[i - 1].htype.Oneof? && fields[i].htype.Oneof? && fields[i].htype.joins
  }

  function SlotOf(fields: seq<Field>, i: nat): nat
    requires i < |fields|
  {
    if i == 0 then 0 else if Shares(fields, i) then SlotOf(fields, i - 1) else SlotOf(fields, i - 1) + 1
  }

  function SlotCount(fields: seq<Field>): nat {
    if fields == [] then 0 else SlotOf(fields, |fields| - 1) + 1
  }

  function RequiredBefore(fields: seq<Field>, i: nat): nat
    requires i <= |fields|
  {
    if i == 0 then 0 else RequiredBefore(fields, i - 1) + (if fields[i - 1].htype.Required? then 1 else 0)
  }

  lemma {:induction false} SlotsAscend(fields: seq<Field>, i: nat, j: nat)
    requires i <= j < |fields|
    ensures SlotOf(fields, i) <= SlotOf(fields, j)
    decreases j
  {
    if i < j { SlotsAscend(fields, i, j - 1); }
  }

  /** pb_field_iter_t: where the walk stands, and what it has added up on the way. */
  class FieldIter {
    const fields: seq<Field>
    var pos: nat
    var slot: nat                // pData and pSize
    var requiredFieldIndex: nat

    /** The sums are those of a walk from the start. */
    ghost predicate Valid()
      reads this
    {
      if fields == [] then pos == 0 && requiredFieldIndex == 0
      else pos < |fields| && slot == SlotOf(fields, pos) && requiredFieldIndex == RequiredBefore(fields, pos)
    }

    constructor (fields: seq<Field>)
      ensures Valid() && pos == 0 && this.fields == fields
    {
      this.fields := fields;
      pos, slot, requiredFieldIndex := 0, 0, 0;
    }

    method Begin() returns (any: bool)
      modifies this
      ensures Valid() && pos == 0 && any == (fields != [])
    {
      pos, slot, requiredFieldIndex := 0, 0, 0;
      any := fields != [];
    }

    /** Goes on to the next field, or back to the first after the last. */
    method Next() returns (more: bool)
      requires Valid()
      modifies this
      ensures Valid() && more == (old(pos) + 1 < |fields|)
      ensures pos == if more then old(pos) + 1 else 0
    {
      if fields == [] { return false; }
      var prev := fields[pos];
      pos := pos + 1;
      if pos == |fields| {
        var _ := Begin();
        return false;
      }
      if prev.htype.Oneof? && fields[pos].htype.Oneof? && fields[pos].htype.joins {
        return true;
      }
      if prev.htype.Required? {
        requiredFieldIndex := requiredFieldIndex + 1;
      }
      slot := slot + 1;
      more := true;
    }

    /** Looks for a tag all the way round, from wherever the walk stands. */
    method Find(tag: nat) returns (found: bool)
      requires Valid()
      modifies this
      ensures Valid() && (found ==> pos < |fields| && fields[pos].tag == tag)
      ensures !found ==> pos == old(pos) && forall i :: 0 <= i < |fields| ==> fields[i].tag != tag
    {
      var start := pos;
      ghost var steps := 0;
      while true
        invariant Valid() && 0 <= steps <= |fields|
        invariant fields != [] ==> start < |fields| && pos == if start + steps < |fields| then start + steps else start + steps - |fields|
        invariant forall i :: 0 <= i < |fields| && Passed(start, steps, |fields|, i) ==> fields[i].tag != tag
        invariant fields == [] || steps < |fields|
        decreases |fields| - steps
      {
        if fields != [] && fields[pos].tag == tag { return true; }
        var _ := Next();
        if fields != [] { steps := steps + 1; }
        if pos == start { break; }
      }
      found := false;
    }
  }

  /** Entry i is one of the first steps of a ring of n from start on. */
  predicate Passed(start: nat, steps: nat, n: nat, i: nat) {
    if i >= start then i - start < steps else i + n - start < steps
  }

  /** The index of a tag; distinct tags make it the only one. */
  function IndexOf(fields: seq<Field>, tag: nat): (r: Option<nat>)
    ensures r.Some? ==> r.value < |fields| && fields[r.value].tag == tag
    ensures r.None? ==> forall i :: 0 <= i < |fields| ==> fields[i].tag != tag
  {
    if fields == [] then None
    else if fields[|fields| - 1].tag == tag then Some(|fields| - 1)
    else IndexOf(fields[..|fields| - 1], tag)
  }

}
