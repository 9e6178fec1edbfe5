/** User keys and the user-supplied comparator (include/leveldb/comparator.h). */
module UserKeys {

  type byte = x: int | 0 <= x < 256

  type Key = seq<byte>

  /** The comparator contract at three keys: negative, zero and positive mean before, equal and after. */
  ghost predicate OrderedAt(cmp: (Key, Key) -> int, a: Key, b: Key, c: Key) {
    && (cmp(a, b) == 0 <==> a == b)
    && (cmp(a, b) < 0 <==> cmp(b, a) > 0)
    && (cmp(a, b) < 0 && cmp(b, c) < 0 ==> cmp(a, c) < 0)
  }

  ghost predicate TotalOrder(cmp: (Key, Key) -> int) {
    forall a, b, c :: OrderedAt(cmp, a, b, c)
  }

  /** The default comparator: memcmp order, a proper prefix coming first. */
  function Bytewise(a: Key, b: Key): int {
    if a == [] && b == [] then 0
    else if a == [] then -1
    else if b == [] then 1
    else if a[0] != b[0] then a[0] - b[0]
    else Bytewise(a[1..], b[1..])
  }

  lemma {:induction false} BytewiseEqual(a: Key, b: Key)
    ensures Bytewise(a, b) == 0 <==> a == b
    ensures Bytewise(a, b) < 0 <==> Bytewise(b, a) > 0
  {
    if a != [] && b != [] {
      assert a == [a[0]] + a[1..] && b == [b[0]] + b[1..];
      BytewiseEqual(a[1..], b[1..]);
    }
  }

  lemma {:induction false} BytewiseTransitive(a: Key, b: Key, c: Key)
    requires Bytewise(a, b) < 0 && Bytewise(b, c) < 0
    ensures Bytewise(a, c) < 0
  {
    if a != [] {
      if a[0] == b[0] == c[0] {
        BytewiseTransitive(a[1..], b[1..], c[1..]);
      }
    }
  }

  /** The first byte in which two keys differ decides, and a proper prefix comes first. */
  lemma {:induction false} BytewiseIs(p: Key, a: byte, x: Key, b: byte, y: Key)
    ensures Bytewise(p + [a] + x, p + [b] + y) < 0 <==> a < b || (a == b && Bytewise(x, y) < 0)
    ensures Bytewise(p, p + [a] + x) < 0
  {
    var l, r := p + [a] + x, p + [b] + y;
    if p == [] {
      assert l[1..] == x && r[1..] == y;
    } else {
      assert l[1..] == p[1..] + [a] + x && r[1..] == p[1..] + [b] + y;
      BytewiseIs(p[1..], a, x, b, y);
    }
  }

  lemma BytewiseIsTotalOrder()
    ensures TotalOrder(Bytewise)
  {
    forall a, b, c
      ensures OrderedAt(Bytewise, a, b, c)
    {
      BytewiseEqual(a, b);
      if Bytewise(a, b) < 0 && Bytewise(b, c) < 0 {
        BytewiseTransitive(a, b, c);
      }
    }
  }

  /** Every comparator a caller may supply. */
  type UserComparator = cmp: (Key, Key) -> int | TotalOrder(cmp)
    ghost witness (BytewiseIsTotalOrder(); Bytewise)

  /** What sorted structures need of a comparator: a total preorder (keys may compare equal and differ). */
  ghost predicate WeakAt(cmp: (Key, Key) -> int, a: Key, b: Key, c: Key) {
    && (cmp(a, b) < 0 <==> cmp(b, a) > 0)
    && (cmp(a, b) <= 0 && cmp(b, c) <= 0 ==> cmp(a, c) <= 0)
  }

  ghost predicate WeakOrder(cmp: (Key, Key) -> int) {
    forall a, b, c :: WeakAt(cmp, a, b, c)
  }

  type Comparator = cmp: (Key, Key) -> int | WeakOrder(cmp) witness (a, b) => 0

  lemma Before(cmp: Comparator, a: Key, b: Key, c: Key)
    ensures cmp(a, b) < 0 && cmp(b, c) <= 0 ==> cmp(a, c) < 0
    ensures cmp(a, b) <= 0 && cmp(b, c) < 0 ==> cmp(a, c) < 0
    ensures cmp(a, b) < 0 <==> cmp(b, a) > 0
  {
    assert WeakAt(cmp, a, b, c) && WeakAt(cmp, b, c, a) && WeakAt(cmp, c, a, b) && WeakAt(cmp, a, c, b);
  }

  /** How many pairs, in key order, come before the target. */
  function LowerBound(cmp: (Key, Key) -> int, pairs: seq<(Key, seq<byte>)>, target: Key): (c: nat)
    ensures c <= |pairs|
    ensures forall i :: 0 <= i < c ==> cmp(pairs[i].0, target) < 0
    ensures c < |pairs| ==> cmp(pairs[c].0, target) >= 0
  {
    if pairs == [] || cmp(pairs[0].0, target) >= 0 then 0 else 1 + LowerBound(cmp, pairs[1..], target)
  }
}
