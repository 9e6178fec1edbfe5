/** Input streams of the protocol buffers codec (pb_decode.c), over memory buffers. */
module PbStream {
  import opened Wrappers
  import opened UserKeys
  import opened Coding
  import opened PbVarint
  import W = PbWire

  class InputStream {
    const buffer: bytes
    var state: nat
    var bytesLeft: nat

    ghost predicate Valid()
      reads this
    {
      state + bytesLeft <= |buffer|
    }

    ghost function Rest(): bytes
      requires Valid()
      reads this
    {
      buffer[state..state + bytesLeft]
    }

    /** Where the bytes left end; reading does not move it. */
    ghost function End(): nat
      reads this
    {
      state + bytesLeft
    }

    constructor (buffer: bytes)
      ensures Valid() && Rest() == buffer && this.buffer == buffer
    {
      this.buffer := buffer;
      state, bytesLeft := 0, |buffer|;
    }

    constructor At(buffer: bytes, state: nat, bytesLeft: nat)
      requires state + bytesLeft <= |buffer|
      ensures Valid() && this.buffer == buffer && this.state == state && this.bytesLeft == bytesLeft
    {
      this.buffer, this.state, this.bytesLeft := buffer, state, bytesLeft;
    }

    method ReadByte() returns (ok: bool, b: byte)
      requires Valid()
      modifies this
      ensures End() == old(End())
      ensures Valid() && ok == (old(Rest()) != [])
      ensures ok ==> b == old(Rest())[0] && Rest() == old(Rest())[1..]
      ensures !ok ==> Rest() == []
    {
      if bytesLeft == 0 { return false, 0; }
      b := buffer[state];
      state, bytesLeft := state + 1, bytesLeft - 1;
      ok := true;
    }

    /** pb_read; skipping takes the same steps without a destination. */
    method Read(count: nat) returns (ok: bool, buf: bytes)
      requires Valid()
      modifies this
      ensures End() == old(End())
      ensures Valid() && (ok <==> count <= |old(Rest())|)
      ensures ok ==> buf == old(Rest())[..count] && Rest() == old(Rest())[count..]
      ensures ok ==> state == old(state) + count && bytesLeft == old(bytesLeft) - count
      ensures !ok ==> Rest() == old(Rest())
    {
      if count == 0 { return true, []; }
      if bytesLeft < count { return false, []; }
      buf := [];
      for i := 0 to count
        invariant state == old(state) && buf == buffer[state..state + i]
      {
        buf := buf + [buffer[state + i]];
      }
      state, bytesLeft := state + count, bytesLeft - count;
      ok := true;
    }

    method DecodeVarint32Eof() returns (ok: bool, dest: nat, eof: bool)
      requires Valid()
      modifies this
      ensures End() == old(End())
      ensures Valid()
      ensures ok == PbVarint.DecodeVarint32(old(Rest())).Some?
      ensures ok ==> PbVarint.DecodeVarint32(old(Rest())) == Some((dest, Rest()))
      ensures eof == (old(Rest()) == [])
    {
      hide DecodeRest32;
      var read, b := ReadByte();
      dest, eof := 0, false;
      if !read { return false, 0, true; }
      if b < 128 { return true, b, false; }
      var bitpos := 7;
      dest := b % 128;
      ghost var goal := DecodeRest32(Rest(), 7, dest);
      while true
        invariant Valid() && End() == old(End()) && 0 <= bitpos < 256 && dest >= 0 && goal == DecodeRest32(Rest(), bitpos, dest)
        decreases bytesLeft
      {
        RestCases(Rest(), bitpos, dest);
        read, b := ReadByte();
        if !read { return false, 0, false; }
        if bitpos >= 32 {
          var signExtension := if bitpos < 63 then 0xff else 0x01;
          if b % 128 != 0 && (dest < 0x8000_0000 || b != signExtension) { return false, 0, false; }
        } else {
          dest := Accumulate(dest, bitpos, b);
        }
        bitpos := (bitpos + 7) % 256;
        if b < 128 { break; }
      }
      if bitpos == 35 && b % 128 >= 16 { return false, 0, false; }
      ok := true;
    }

    method DecodeVarint32() returns (ok: bool, dest: nat)
      requires Valid()
      modifies this
      ensures End() == old(End())
      ensures Valid() && ok == PbVarint.DecodeVarint32(old(Rest())).Some?
      ensures ok ==> PbVarint.DecodeVarint32(old(Rest())) == Some((dest, Rest()))
    {
      var eof;
      ok, dest, eof := DecodeVarint32Eof();
    }

    /** pb_decode_varint: seven bits at a time into a 64-bit result. */
    method DecodeVarint() returns (ok: bool, dest: nat)
      requires Valid()
      modifies this
      ensures End() == old(End())
      ensures Valid() && ok == PbVarint.DecodeVarint(old(Rest())).Some?
      ensures ok ==> PbVarint.DecodeVarint(old(Rest())) == Some((dest, Rest())) && dest < UINT64
    {
      hide ReadVarint, Pow, Reading, Value64, Seventh;
      var bitpos, result := 0, 0;
      ghost var start, k: nat, acc: nat := Rest(), 0, 0;
      ReadingStarts(start);
      while true
        invariant Valid() && End() == old(End()) && bitpos == 7 * k && result == acc % UINT64 && Reading(start, k, acc, Rest())
        decreases bytesLeft
      {
        ReadingCases(start, k, acc, Rest());
        if bitpos >= 64 { return false, 0; }
        var read, b := ReadByte();
        if !read { return false, 0; }
        SeventhBits(acc, k, b);
        result := result + Seventh(bitpos, b);
        bitpos := bitpos + 7;
        acc := Value64(acc, k, b % 128);
        k := k + 1;
        if b < 128 { break; }
      }
      return true, result;
    }

    method SkipVarint() returns (ok: bool)
      requires Valid()
      modifies this
      ensures End() == old(End())
      ensures Valid() && ok == W.SkipVarint(old(Rest())).Some?
      ensures ok ==> W.SkipVarint(old(Rest())) == Some(Rest())
    {
      ghost var goal := W.SkipVarint(Rest());
      while true
        invariant Valid() && End() == old(End()) && goal == W.SkipVarint(Rest())
        decreases bytesLeft
      {
        var read, b := ReadByte();
        if !read { return false; }
        if b < 128 { return true; }
      }
    }

    method SkipString() returns (ok: bool)
      requires Valid()
      modifies this
      ensures End() == old(End())
      ensures Valid() && ok == W.SkipString(old(Rest())).Some?
      ensures ok ==> W.SkipString(old(Rest())) == Some(Rest())
    {
      hide PbVarint.DecodeVarint32;
      var length;
      ok, length := DecodeVarint32();
      if !ok { return; }
      var skipped;
      ok, skipped := Read(length);
    }

    method SkipField(wire: nat) returns (ok: bool)
      requires Valid()
      modifies this
      ensures End() == old(End())
      ensures Valid() && ok == W.SkipField(old(Rest()), wire).Some?
      ensures ok ==> W.SkipField(old(Rest()), wire) == Some(Rest())
    {
      hide W.SkipVarint, W.SkipString;
      var skipped;
      if wire == W.WT_VARINT { ok := SkipVarint(); }
      else if wire == W.WT_64BIT { ok, skipped := Read(8); }
      else if wire == W.WT_STRING { ok := SkipString(); }
      else if wire == W.WT_32BIT { ok, skipped := Read(4); }
      else { ok := false; }
    }

    method DecodeTag() returns (ok: bool, wire: nat, tag: nat, eof: bool)
      requires Valid()
      modifies this
      ensures End() == old(End())
      ensures Valid()
      ensures match W.DecodeTag(old(Rest()))
              case Key_(t, w, rest) => ok && tag == t && wire == w && Rest() == rest
              case AtEnd(rest) => !ok && eof && (old(Rest()) != [] ==> Rest() == rest)
              case NoKey => !ok && !eof
    {
      hide PbVarint.DecodeVarint32;
      var temp;
      wire, tag := 0, 0;
      ok, temp, eof := DecodeVarint32Eof();
      if !ok { return; }
      if temp == 0 { return false, 0, 0, true; }
      tag, wire := temp / 8, temp % 8;
    }

    /** A stream over the length-delimited value at the front; this stream no longer counts its bytes. */
    method MakeSubstream() returns (ok: bool, substream: InputStream)
      requires Valid()
      modifies this
      ensures Valid() && fresh(substream) && substream.Valid() && substream.buffer == buffer
      ensures ok == W.Delimited(old(Rest())).Some?
      ensures old(End()) == if ok then substream.End() + bytesLeft else End()
      ensures ok ==>
                && substream.state == state && state + substream.bytesLeft + bytesLeft <= |buffer|
                && W.Delimited(old(Rest()))
                   == Some((substream.Rest(), buffer[state + substream.bytesLeft..state + substream.bytesLeft + bytesLeft]))
    {
      hide PbVarint.DecodeVarint32;
      var size;
      ok, size := DecodeVarint32();
      substream := new InputStream.At(buffer, state, bytesLeft);
      if !ok { return; }
      if substream.bytesLeft < size { return false, substream; }
      SplitRest(buffer, state, bytesLeft, size);
      substream.bytesLeft := size;
      bytesLeft := bytesLeft - size;
    }

    /** The rest of the substream is skipped, and this stream goes on behind it. */
    method CloseSubstream(substream: InputStream)
      requires this != substream && substream.Valid() && substream.buffer == buffer
      requires substream.state + substream.bytesLeft + bytesLeft <= |buffer|
      modifies this, substream
      ensures Valid() && bytesLeft == old(bytesLeft) && state == old(substream.state + substream.bytesLeft)
    {
      if substream.bytesLeft > 0 {
        var _, _ := substream.Read(substream.bytesLeft);
      }
      state := substream.state;
    }
  }

  lemma SplitRest(buffer: bytes, state: nat, left: nat, size: nat)
    requires state + left <= |buffer| && size <= left
    ensures buffer[state..state + left][..size] == buffer[state..state + size]
    ensures buffer[state..state + left][size..] == buffer[state + size..state + left]
  {
  }

  /** What a tail t adds from bit 7k on. */
  function Value64(acc: nat, k: nat, t: nat): nat {
    acc + Pow(128, k) * t
  }

  lemma Value64Step(acc: nat, k: nat, low: nat, t: nat)
    requires acc < Pow(128, k) && low < 128
    ensures Value64(acc, k, low) < Pow(128, k + 1)
    ensures Value64(Value64(acc, k, low), k + 1, t) == Value64(acc, k, low + 128 * t)
  {
    var p := Pow(128, k);
    assert Pow(128, k + 1) == 128 * p;
    hide Pow;
    BelowNext(acc, p, low);
    PbVarint.Regroup(acc, p, low, t);
  }

  /** k bytes of a varint have been read, acc is what they hold, and the rest is still to come. */
  ghost predicate Reading(start: bytes, k: nat, acc: nat, rest: bytes) {
    && k <= 10 && k <= |start| && rest == start[k..] && acc < Pow(128, k)
    && match ReadVarint(rest, 10 - k)
       case None => ReadVarint(start, 10).None?
       case Some((t, n)) => ReadVarint(start, 10) == Some((Value64(acc, k, t), n + k))
  }

  lemma ReadingStarts(start: bytes)
    ensures Reading(start, 0, 0, start)
  {
    assert start[0..] == start;
  }

  lemma ReadingCases(start: bytes, k: nat, acc: nat, rest: bytes)
    requires Reading(start, k, acc, rest)
    ensures k == 10 || rest == [] ==> ReadVarint(start, 10).None?
    ensures k <= 10 && acc < Pow(128, k)
    ensures k < 10 && rest != [] ==>
              && (rest[0] >= 128 ==> Reading(start, k + 1, Value64(acc, k, rest[0] % 128), rest[1..]))
              && (rest[0] < 128 ==> ReadVarint(start, 10) == Some((Value64(acc, k, rest[0]), k + 1)) && start[k + 1..] == rest[1..])
  {
    hide Pow, Value64;
    if k < 10 && rest != [] {
      var b: nat := rest[0];
      assert rest[1..] == start[k + 1..];
      Value64Step(acc, k, b % 128, 0);
      if b >= 128 && ReadVarint(rest[1..], 9 - k).Some? {
        var (t, _) := ReadVarint(rest[1..], 9 - k).value;
        Value64Step(acc, k, b % 128, t);
      }
    }
  }

  /** What DecodeVarint adds to its result: seven bits at their position, cut off at 64 bits. */
  function Seventh(bitpos: nat, b: byte): nat {
    b % 128 * Pow(128, bitpos / 7) % UINT64
  }

  lemma SeventhBits(acc: nat, k: nat, b: byte)
    requires acc < Pow(128, k) && k <= 9
    ensures acc % UINT64 + Seventh(7 * k, b) == Value64(acc, k, b % 128) % UINT64
  {
    Powers(k);
    var p, low: nat := Pow(128, k), b % 128;
    hide Pow;
    assert 7 * k / 7 == k;
    if k <= 8 { LowBits(acc, p, low); } else { TopBit(acc, low); }
  }

  lemma LowBits(acc: nat, p: nat, low: nat)
    requires acc < p && 128 * p <= 0x8000_0000_0000_0000 && low < 128
    ensures acc % UINT64 + low * p % UINT64 == (acc + p * low) % UINT64
  {
    Below(p, low);
    SmallMods(acc, low * p);
  }

  lemma Below(p: nat, low: nat)
    requires low < 128
    ensures p * low == low * p <= 127 * p
  {
  }

  lemma SmallMods(a: nat, b: nat)
    requires a + b < UINT64
    ensures a % UINT64 == a && b % UINT64 == b && (a + b) % UINT64 == a + b
  {
  }

  lemma TopBit(acc: nat, low: nat)
    requires acc < 0x8000_0000_0000_0000
    ensures acc % UINT64 + low * 0x8000_0000_0000_0000 % UINT64 == (acc + 0x8000_0000_0000_0000 * low) % UINT64
  {
    var bit, top := low % 2, low / 2;
    assert low * 0x8000_0000_0000_0000 == bit * 0x8000_0000_0000_0000 + UINT64 * top;
    Mod64Add(bit * 0x8000_0000_0000_0000, top);
    Mod64Add(acc + bit * 0x8000_0000_0000_0000, top);
  }

  lemma Powers(k: nat)
    requires k <= 9
    ensures k <= 8 ==> 128 * Pow(128, k) <= 0x8000_0000_0000_0000
    ensures k == 9 ==> Pow(128, k) == 0x8000_0000_0000_0000
  {
    assert Pow(128, 3) == 0x20_0000;
    assert Pow(128, 6) == 0x400_0000_0000;
    assert Pow(128, 9) == 0x8000_0000_0000_0000;
    if k <= 8 { PowerBelow(k + 1, 9); }
  }

  lemma {:induction false} PowerBelow(k: nat, n: nat)
    requires k <= n
    ensures Pow(128, k) <= Pow(128, n)
    decreases n
  {
    if k < n { PowerBelow(k, n - 1); }
  }

  lemma Mod64Add(a: nat, q: nat)
    ensures (a + UINT64 * q) % UINT64 == a % UINT64
  {
  }

  lemma RestCases(s: bytes, bitpos: nat, result: nat)
    ensures s == [] ==> DecodeRest32(s, bitpos, result) == None
    ensures s != [] && bitpos >= 32 && s[0] % 128 != 0 && (result < 0x8000_0000 || s[0] != SignExtension(bitpos)) ==>
              DecodeRest32(s, bitpos, result) == None
    ensures s != [] && !(bitpos >= 32 && s[0] % 128 != 0 && (result < 0x8000_0000 || s[0] != SignExtension(bitpos))) ==>
              var result' := Accumulate(result, bitpos, s[0]);
              DecodeRest32(s, bitpos, result) ==
                if s[0] >= 128 then DecodeRest32(s[1..], (bitpos + 7) % 256, result')
                else if (bitpos + 7) % 256 == 35 && s[0] % 128 >= 16 then None
                else Some((result', s[1..]))
  {
  }
}
