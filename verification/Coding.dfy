/** Fixed-width and variable-width integers and length-prefixed slices (util/coding.h). */
module Coding {
  import opened Wrappers
  import opened UserKeys

  type bytes = seq<byte>

  function Pow(b: nat, n: nat): (p: nat)
    ensures b > 0 ==> p > 0
  {
    if n == 0 then 1 else b * Pow(b, n - 1)
  }

  // ----- EncodeFixed32 (n == 4) and EncodeFixed64 (n == 8): least significant byte first -----

  function Fixed(n: nat, v: nat): (r: bytes)
    ensures |r| == n
  {
    if n == 0 then [] else [v % 256] + Fixed(n - 1, v / 256)
  }

  function FromFixed(s: bytes): nat {
    if s == [] then 0 else s[0] + 256 * FromFixed(s[1..])
  }

  lemma {:induction false} FixedRoundTrip(n: nat, v: nat)
    requires v < Pow(256, n)
    ensures FromFixed(Fixed(n, v)) == v
  {
    if n > 0 {
      FixedRoundTrip(n - 1, v / 256);
    }
  }

  lemma {:induction false} FromFixedBound(s: bytes)
    ensures FromFixed(s) < Pow(256, |s|)
  {
    if s != [] {
      FromFixedBound(s[1..]);
    }
  }

  /** Every byte string of the right length is the encoding of the value it decodes to. */
  lemma {:induction false} FixedOnto(s: bytes)
    ensures Fixed(|s|, FromFixed(s)) == s
  {
    if s != [] {
      LowByte(s[0], FromFixed(s[1..]));
      FixedOnto(s[1..]);
      FixedUnfold(|s|, FromFixed(s));
      hide Fixed;
      assert s == [s[0]] + s[1..];
    }
  }

  lemma LowByte(low: nat, high: nat)
    requires low < 256
    ensures (low + 256 * high) % 256 == low && (low + 256 * high) / 256 == high
  {
  }

  lemma FixedUnfold(n: nat, v: nat)
    requires n > 0
    ensures Fixed(n, v) == [v % 256] + Fixed(n - 1, v / 256)
  {
  }

  lemma Widths()
    ensures Pow(256, 4) == 0x1_0000_0000 && Pow(256, 8) == 0x1_0000_0000_0000_0000
    ensures Pow(128, 5) == 0x8_0000_0000 && Pow(128, 10) == 0x40_0000_0000_0000_0000
  {
    assert Pow(256, 2) == 0x1_0000;
    assert Pow(256, 4) == 0x1_0000_0000;
    assert Pow(256, 6) == 0x1_0000_0000_0000;
    assert Pow(128, 2) == 0x4000;
    assert Pow(128, 4) == 0x1000_0000;
    assert Pow(128, 6) == 0x400_0000_0000;
    assert Pow(128, 8) == 0x100_0000_0000_0000;
  }

  // ----- Varints: seven bits a byte, low bits first, the top bit set on every byte but the last -----

  function Varint(v: nat): (r: bytes)
    ensures |r| > 0
  {
    if v < 128 then [v] else [v % 128 + 128] + Varint(v / 128)
  }

  /** The value and the length of the varint at the front of s, which may take up to most bytes. */
  function ReadVarint(s: bytes, most: nat): (r: Option<(nat, nat)>)
    ensures r.Some? ==> 0 < r.value.1 <= |s| && r.value.1 <= most
  {
    if most == 0 || s == [] then None
    else if s[0] < 128 then Some((s[0], 1))
    else match ReadVarint(s[1..], most - 1)
      case None => None
      case Some((v, n)) => Some((s[0] - 128 + 128 * v, n + 1))
  }

  lemma {:induction false} VarintRoundTrip(v: nat, rest: bytes, most: nat)
    requires v < Pow(128, most) && most > 0
    ensures ReadVarint(Varint(v) + rest, most) == Some((v, |Varint(v)|))
  {
    if v >= 128 {
      assert most > 1 && v / 128 < Pow(128, most - 1);
      VarintRoundTrip(v / 128, rest, most - 1);
      assert (Varint(v) + rest)[1..] == Varint(v / 128) + rest;
    }
  }

  /** A decoder's view of the front of a slice: the value found there and what is left of the slice. */
  type Parsed<T> = Option<(T, bytes)>

  function GetVarint32(s: bytes): (r: Parsed<nat>)
    ensures r.Some? ==> |r.value.1| < |s|
  {
    match ReadVarint(s, 5)
    case None => None
    case Some((v, n)) => Some((v % 0x1_0000_0000, s[n..]))
  }

  function GetVarint64(s: bytes): (r: Parsed<nat>)
    ensures r.Some? ==> |r.value.1| < |s|
  {
    match ReadVarint(s, 10)
    case None => None
    case Some((v, n)) => Some((v % 0x1_0000_0000_0000_0000, s[n..]))
  }

  /** PutLengthPrefixedSlice: the length goes through a uint32. */
  function LengthPrefixed(s: bytes): bytes {
    Varint(|s| % 0x1_0000_0000) + s
  }

  function GetLengthPrefixed(s: bytes): (r: Parsed<bytes>)
    ensures r.Some? ==> |r.value.1| < |s|
  {
    match GetVarint32(s)
    case None => None
    case Some((n, rest)) => if n <= |rest| then Some((rest[..n], rest[n..])) else None
  }

  lemma Varint32RoundTrip(v: nat, rest: bytes)
    requires v < 0x1_0000_0000
    ensures GetVarint32(Varint(v) + rest) == Some((v, rest))
  {
    Widths();
    VarintRoundTrip(v, rest, 5);
  }

  lemma Varint64RoundTrip(v: nat, rest: bytes)
    requires v < 0x1_0000_0000_0000_0000
    ensures GetVarint64(Varint(v) + rest) == Some((v, rest))
  {
    Widths();
    VarintRoundTrip(v, rest, 10);
  }

  lemma LengthPrefixedRoundTrip(s: bytes, rest: bytes)
    requires |s| < 0x1_0000_0000
    ensures GetLengthPrefixed(LengthPrefixed(s) + rest) == Some((s, rest))
  {
    assert LengthPrefixed(s) + rest == Varint(|s|) + (s + rest);
    Varint32RoundTrip(|s|, s + rest);
  }

  lemma SliceOfSlice(s: bytes, lo: nat, hi: nat, a: nat, b: nat)
    requires a <= b <= hi - lo && hi <= |s|
    ensures s[lo..hi][a..b] == s[lo + a..lo + b]
  {
    forall i | 0 <= i < b - a ensures s[lo..hi][a..b][i] == s[lo + a..lo + b][i] {
      assert s[lo..hi][a + i] == s[lo + a + i];
    }
  }
}
