/** Internal keys (db/dbformat.h): a user key followed by a 64-bit tag holding sequence and type. */
module DbFormat {
  import opened UserKeys

  const TYPE_DELETION := 0
  const TYPE_VALUE := 1
  const MAX_SEQUENCE := 0xff_ffff_ffff_ffff

  /** One internal key, split into its user key and its tag, with the value stored under it. */
  datatype Entry = Entry(ukey: Key, tag: nat, value: seq<byte>) {
    function Sequence(): nat { tag / 256 }

    predicate IsValue() { tag % 256 == TYPE_VALUE }

    predicate IsDeletion() { tag % 256 == TYPE_DELETION }

    /** ParseInternalKey accepts the two type bytes in use and rejects the others. */
    predicate Parses() { IsValue() || IsDeletion() }

    /** The entry can be seen by a reader at sequence s. */
    predicate Visible(s: nat) { Parses() && Sequence() <= s }
  }

  function Tag(sequence: nat, kind: nat): nat { sequence * 256 + kind }

  /** InternalKeyComparator::Compare: user keys ascending, then tags descending. */
  function Compare(cmp: UserComparator, a: Entry, b: Entry): int {
    var r := cmp(a.ukey, b.ukey);
    if r != 0 then r else b.tag - a.tag
  }

  ghost predicate InOrder(cmp: UserComparator, es: seq<Entry>, i: int, j: int)
    requires 0 <= i < j < |es|
  {
    Compare(cmp, es[i], es[j]) <= 0
  }

  ghost predicate Sorted(cmp: UserComparator, es: seq<Entry>) {
    forall i, j :: 0 <= i < j < |es| ==> InOrder(cmp, es, i, j)
  }

  /** No internal key occurs twice. */
  ghost predicate Distinct(es: seq<Entry>) {
    forall i, j :: 0 <= i < j < |es| ==> es[i].ukey != es[j].ukey || es[i].tag != es[j].tag
  }

  /** In a sorted list a later entry has the same user key or a larger one. */
  lemma KeysAscend(cmp: UserComparator, es: seq<Entry>, i: int, j: int)
    requires Sorted(cmp, es) && 0 <= i <= j < |es|
    ensures es[i].ukey == es[j].ukey ==> es[j].tag <= es[i].tag
    ensures es[i].ukey != es[j].ukey ==> cmp(es[i].ukey, es[j].ukey) < 0 < cmp(es[j].ukey, es[i].ukey)
    ensures cmp(es[j].ukey, es[i].ukey) <= 0 <==> es[i].ukey == es[j].ukey
    ensures cmp(es[i].ukey, es[j].ukey) < 0 <==> es[i].ukey != es[j].ukey
  {
    assert OrderedAt(cmp, es[i].ukey, es[j].ukey, es[j].ukey) && OrderedAt(cmp, es[j].ukey, es[i].ukey, es[i].ukey);
    if i < j {
      assert InOrder(cmp, es, i, j);
    }
  }

  /** The entries of one user key are contiguous. */
  lemma Contiguous(cmp: UserComparator, es: seq<Entry>, i: int, j: int, k: int)
    requires Sorted(cmp, es) && 0 <= i <= j <= k < |es| && es[i].ukey == es[k].ukey
    ensures es[j].ukey == es[i].ukey
  {
    KeysAscend(cmp, es, i, j);
    KeysAscend(cmp, es, j, k);
  }
}
