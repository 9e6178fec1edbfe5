/** The bit mask of required fields that have been seen (pb_decode_noinit, pb_decode.c). */
module PbRequired {
  import opened Coding
  import opened PbDescriptor
  import opened PbMessage

  const ALL_BITS := 0xFFFF_FFFF

  // ----- Words as numbers: a bit at a time, lowest first -----

  /** w | (1 << k) */
  function OrBit(w: nat, k: nat): nat {
    if k == 0 then w / 2 * 2 + 1 else OrBit(w / 2, k - 1) * 2 + w % 2
  }

  /** w >> k */
  function ShiftRight(w: nat, k: nat): nat {
    if k == 0 then w else ShiftRight(w / 2, k - 1)
  }

  /** The word of n bits whose bit i says whether base + i is in the set. */
  function WordOf(seen: set<nat>, base: nat, n: nat): nat
    decreases n
  {
    if n == 0 then 0 else (if base in seen then 1 else 0) + 2 * WordOf(seen, base + 1, n - 1)
  }

  lemma {:induction false} EmptyWord(base: nat, n: nat)
    ensures WordOf({}, base, n) == 0
    decreases n
  {
    if n > 0 { EmptyWord(base + 1, n - 1); }
  }

  /** Setting a bit puts its number into the set, whether it was there or not. */
  lemma {:induction false} OrBitAdds(seen: set<nat>, base: nat, n: nat, k: nat)
    requires k < n
    ensures OrBit(WordOf(seen, base, n), k) == WordOf(seen + {base + k}, base, n)
    decreases n
  {
    var rest := WordOf(seen, base + 1, n - 1);
    assert WordOf(seen, base, n) / 2 == rest;
    if k == 0 {
      Elsewhere(seen, base + 1, n - 1, base);
    } else {
      OrBitAdds(seen, base + 1, n - 1, k - 1);
    }
  }

  /** A number outside the word's range does not show in it. */
  lemma {:induction false} Elsewhere(seen: set<nat>, base: nat, n: nat, i: nat)
    requires i < base || base + n <= i
    ensures WordOf(seen + {i}, base, n) == WordOf(seen, base, n)
    decreases n
  {
    if n > 0 { Elsewhere(seen, base + 1, n - 1, i); }
  }

  lemma {:induction false} ZeroWord(seen: set<nat>, base: nat, n: nat)
    ensures WordOf(seen, base, n) == 0 <==> forall i :: base <= i < base + n ==> i !in seen
    decreases n
  {
    if n > 0 { ZeroWord(seen, base + 1, n - 1); }
  }

  /** The word is 2 to the power m minus 1 exactly when its first m numbers are in the set, and none of the others is. */
  lemma {:induction false} LowOnes(seen: set<nat>, base: nat, n: nat, m: nat)
    requires m <= n
    ensures WordOf(seen, base, n) == Pow(2, m) - 1 <==> forall i :: base <= i < base + n ==> (i in seen <==> i < base + m)
    decreases n
  {
    if m == 0 {
      ZeroWord(seen, base, n);
    } else {
      var rest, ones := WordOf(seen, base + 1, n - 1), Pow(2, m - 1) - 1;
      LowOnes(seen, base + 1, n - 1, m - 1);
      assert Pow(2, m) - 1 == 1 + 2 * ones;
      assert WordOf(seen, base, n) == Pow(2, m) - 1 <==> base in seen && rest == ones;
    }
  }

  lemma {:induction false} ShiftedOnes(n: nat, k: nat)
    requires k <= n
    ensures ShiftRight(Pow(2, n) - 1, k) == Pow(2, n - k) - 1
  {
    if k > 0 {
      assert (Pow(2, n) - 1) / 2 == Pow(2, n - 1) - 1;
      ShiftedOnes(n - 1, k - 1);
    }
  }

  lemma AllBits()
    ensures Pow(2, 32) - 1 == ALL_BITS
  {
    assert Pow(2, 8) == 256;
    assert Pow(2, 16) == 65536;
    assert Pow(2, 24) == 16777216;
  }

  // ----- The two words of the decoder -----

  ghost predicate Holds(words: seq<nat>, seen: set<nat>) {
    |words| == 2 && words[0] == WordOf(seen, 0, 32) && words[1] == WordOf(seen, 32, 32)
  }

  lemma NoneSeen()
    ensures Holds([0, 0], {})
  {
    EmptyWord(0, 32);
    EmptyWord(32, 32);
  }

  lemma TickAdds(words: seq<nat>, seen: set<nat>, index: nat)
    requires Holds(words, seen) && index < MAX_REQUIRED
    ensures Holds(words[index / 32 := OrBit(words[index / 32], index % 32)], seen + {index})
  {
    hide OrBit, WordOf;
    if index < 32 {
      OrBitAdds(seen, 0, 32, index);
      Elsewhere(seen, 32, 32, index);
    } else {
      OrBitAdds(seen, 32, 32, index - 32);
      Elsewhere(seen, 0, 32, index);
    }
  }

  /** fields_seen[index >> 5] |= 1 << (index & 31) */
  method Tick(fieldsSeen: array<nat>, index: nat, ghost seen: set<nat>)
    requires Holds(fieldsSeen[..], seen) && index < MAX_REQUIRED
    modifies fieldsSeen
    ensures Holds(fieldsSeen[..], seen + {index})
  {
    hide OrBit, WordOf, Holds;
    HoldsTwo(fieldsSeen[..], seen);
    TickAdds(fieldsSeen[..], seen, index);
    fieldsSeen[index / 32] := OrBit(fieldsSeen[index / 32], index % 32);
  }

  lemma HoldsTwo(words: seq<nat>, seen: set<nat>)
    requires Holds(words, seen)
    ensures |words| == 2
  {
  }

  /** Every number below count is in the set. */
  ghost predicate AllSeen(seen: set<nat>, count: nat) {
    forall i :: 0 <= i < count ==> i in seen
  }

  lemma WholeWord(seen: set<nat>, base: nat)
    ensures WordOf(seen, base, 32) == ALL_BITS <==> forall i :: base <= i < base + 32 ==> i in seen
  {
    LowOnes(seen, base, 32, 32);
    AllBits();
  }

  lemma PartialWord(seen: set<nat>, base: nat, m: nat)
    requires 0 < m < 32 && forall i :: i in seen ==> i < base + m
    ensures WordOf(seen, base, 32) == ShiftRight(ALL_BITS, 32 - m) <==> forall i :: base <= i < base + m ==> i in seen
  {
    LowOnes(seen, base, 32, m);
    AllBits();
    ShiftedOnes(32, 32 - m);
  }

  /**
   * The mask test passes exactly when each of the first 64 required fields was seen. Whole words are compared with all
   * ones, and the bits that remain with as many ones; numbers at or above the count were never set.
   */
  method CheckRequired(fieldsSeen: array<nat>, reqFieldCount: nat, ghost seen: set<nat>) returns (ok: bool)
    requires Holds(fieldsSeen[..], seen)
    requires forall i :: i in seen ==> i < reqFieldCount && i < MAX_REQUIRED
    ensures ok <==> AllSeen(seen, if reqFieldCount > MAX_REQUIRED then MAX_REQUIRED else reqFieldCount)
  {
    hide ShiftRight, WordOf;
    var count := if reqFieldCount > MAX_REQUIRED then MAX_REQUIRED else reqFieldCount;
    for i := 0 to count / 32
      invariant AllSeen(seen, 32 * i)
    {
      WholeWord(seen, 32 * i);
      var word := fieldsSeen[i];
      assert word == WordOf(seen, 32 * i, 32);
      if word != ALL_BITS {
        MissingOne(seen, 32 * i, 32, count);
        return false;
      }
    }
    if count % 32 != 0 {
      var base := count / 32 * 32;
      PartialWord(seen, base, count % 32);
      assert fieldsSeen[count / 32] == WordOf(seen, base, 32);
      if fieldsSeen[count / 32] != ShiftRight(ALL_BITS, 32 - count % 32) {
        MissingOne(seen, base, count % 32, count);
        return false;
      }
    }
    ok := true;
  }

  lemma MissingOne(seen: set<nat>, base: nat, m: nat, count: nat)
    requires base + m <= count && !forall i :: base <= i < base + m ==> i in seen
    ensures !AllSeen(seen, count)
  {
  }

  // ----- Counting the required fields -----

  lemma {:induction false} RequiredAscend(fields: seq<Field>, i: nat, j: nat)
    requires i <= j <= |fields|
    ensures RequiredBefore(fields, i) <= RequiredBefore(fields, j)
    decreases j
  {
    if i < j { RequiredAscend(fields, i, j - 1); }
  }

  lemma RequiredBelow(fields: seq<Field>, i: nat)
    requires i < |fields| && fields[i].htype.Required?
    ensures RequiredBefore(fields, i) < RequiredBefore(fields, |fields|)
  {
    RequiredAscend(fields, i + 1, |fields|);
  }

  /** The number of required fields, found by walking on to the end from wherever the iterator stands. */
  method CountRequired(iter: FieldIter) returns (count: nat)
    requires iter.Valid()
    modifies iter
    ensures iter.Valid() && count == RequiredBefore(iter.fields, |iter.fields|)
  {
    var reqFieldCount, lastRequired;
    while true
      invariant iter.Valid()
      decreases |iter.fields| - iter.pos
    {
      reqFieldCount := iter.requiredFieldIndex;
      lastRequired := iter.fields == [] || iter.fields[iter.pos].htype.Required?;
      var more := iter.Next();
      if !more { break; }
    }
    if lastRequired && iter.fields != [] { reqFieldCount := reqFieldCount + 1; }
    return reqFieldCount;
  }
}
