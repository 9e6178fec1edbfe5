/** The protocol buffers wire format as functions on bytes (pb_decode.c): keys, skipped fields, delimited values. */
module PbWire {
  import opened Wrappers
  import opened UserKeys
  import opened Coding
  import opened PbVarint

  const WT_VARINT := 0
  const WT_64BIT := 1
  const WT_STRING := 2
  const WT_32BIT := 5

  // ----- What is left of the input after skipping something -----

  function SkipBytes(s: bytes, n: nat): (r: Option<bytes>)
    ensures r.Some? ==> |r.value| + n == |s|
  {
    if n <= |s| then Some(s[n..]) else None
  }

  function SkipVarint(s: bytes): (r: Option<bytes>)
    ensures r.Some? ==> |r.value| < |s|
  {
    if s == [] then None else if s[0] < 128 then Some(s[1..]) else SkipVarint(s[1..])
  }

  function SkipString(s: bytes): (r: Option<bytes>)
    ensures r.Some? ==> |r.value| < |s|
  {
    match DecodeVarint32(s) case None => None case Some((n, rest)) => SkipBytes(rest, n)
  }

  function SkipField(s: bytes, wire: nat): (r: Option<bytes>)
    ensures r.Some? ==> |r.value| <= |s|
  {
    if wire == WT_VARINT then SkipVarint(s)
    else if wire == WT_64BIT then SkipBytes(s, 8)
    else if wire == WT_STRING then SkipString(s)
    else if wire == WT_32BIT then SkipBytes(s, 4)
    else None
  }

  /** A key: field number and wire type; or the end, which a zero key marks as well; or no key. */
  datatype Key_ = Key_(tag: nat, wire: nat, rest: bytes) | AtEnd(rest: bytes) | NoKey

  function DecodeTag(s: bytes): (k: Key_)
    ensures k.Key_? ==> |k.rest| < |s|
    ensures k.AtEnd? ==> |k.rest| <= |s|
  {
    if s == [] then AtEnd([])
    else
      match DecodeVarint32(s)
      case None => NoKey
      case Some((temp, rest)) => if temp == 0 then AtEnd(rest) else Key_(temp / 8, temp % 8, rest)
  }

  /** A length-delimited value and what follows it. */
  function Delimited(s: bytes): (r: Parsed<bytes>)
    ensures r.Some? ==> |r.value.0| + |r.value.1| < |s|
  {
    match DecodeVarint32(s)
    case None => None
    case Some((n, rest)) => if n <= |rest| then Some((rest[..n], rest[n..])) else None
  }
}
