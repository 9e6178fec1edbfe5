/** Varints, zigzag numbers and input streams (pb_encode.c, pb_decode.c). */
module PbVarint {
  import opened Wrappers
  import opened UserKeys
  import opened Coding

  const UINT32 := 0x1_0000_0000
  const UINT64 := 0x1_0000_0000_0000_0000

  /** 2 to the power 7k, as far as 32-bit results need it. */
  function Shift7(k: nat): nat {
    if k == 0 then 1 else if k == 1 then 128 else if k == 2 then 16384 else if k == 3 then 2097152
    else if k == 4 then 268435456 else 34359738368 * Pow(128, k - 5)
  }

  /** pb_decode_varint on a list of bytes: at most ten of them, and what does not fit 64 bits is cut off. */
  function DecodeVarint(s: bytes): (r: Parsed<nat>)
    ensures r.Some? ==> |r.value.1| < |s|
  {
    GetVarint64(s)
  }

  /** pb_decode_varint32 after its first byte: bit position and result so far. */
  function DecodeRest32(s: bytes, bitpos: nat, result: nat): (r: Parsed<nat>)
    ensures r.Some? ==> |r.value.1| < |s|
  {
    if s == [] then None
    else if bitpos >= 32 && s[0] % 128 != 0 && (result < 0x8000_0000 || s[0] != SignExtension(bitpos)) then None
    else
      var result' := Accumulate(result, bitpos, s[0]);
      var bitpos' := (bitpos + 7) % 256;
      if s[0] >= 128 then DecodeRest32(s[1..], bitpos', result')
      else if bitpos' == 35 && s[0] % 128 >= 16 then None
      else Some((result', s[1..]))
  }

  function SignExtension(bitpos: nat): nat {
    if bitpos < 63 then 0xff else 0x01
  }

  /** Seven more bits at a position below 32; those that do not fit are cut off. */
  function Accumulate(result: nat, bitpos: nat, b: byte): nat {
    if bitpos >= 32 then result
    else if bitpos == 7 then result + b % 128 * 128
    else if bitpos == 14 then result + b % 128 * 16384
    else if bitpos == 21 then result + b % 128 * 2097152
    else if bitpos == 28 then result + b % 128 * 268435456 % UINT32
    else result
  }

  function DecodeVarint32(s: bytes): (r: Parsed<nat>)
    ensures r.Some? ==> |r.value.1| < |s|
  {
    if s == [] then None
    else if s[0] < 128 then Some((s[0], s[1..]))
    else DecodeRest32(s[1..], 7, s[0] - 128)
  }

  lemma Shift7Step(k: nat, t: nat)
    ensures Shift7(k + 1) == 128 * Shift7(k)
  {
    if k > 4 {
      assert Pow(128, k + 1 - 5) == 128 * Pow(128, k - 5);
    }
  }

  /** Multiples of 2 to the power 7k, for k of at least 5, leave the low 32 bits alone. */
  lemma HighBits(acc: nat, k: nat, t: nat)
    requires k >= 5
    ensures (acc + Shift7(k) * t) % UINT32 == acc % UINT32
  {
    var q := 8 * Pow(128, k - 5);
    assert Shift7(k) == UINT32 * q;
    assert Shift7(k) * t == UINT32 * (q * t);
    ModAdd(acc, q * t);
  }

  lemma ModAdd(a: nat, q: nat)
    ensures (a + UINT32 * q) % UINT32 == a % UINT32
  {
  }

  /** The tail of a varint read in both ways: seven bits at a time, the results agree in their low 32 bits. */
  lemma {:induction false} TailsAgree(s: bytes, k: nat, acc: nat, result: nat)
    requires 1 <= k <= 9 && result == acc % UINT32 && acc < Shift7(k)
    requires ReadVarint(s, 10 - k).Some? && DecodeRest32(s, 7 * k, result).Some?
    ensures var (t, n) := ReadVarint(s, 10 - k).value;
            DecodeRest32(s, 7 * k, result).value == (Value(acc, k, t) % UINT32, s[n..])
    decreases |s|
  {
    hide Shift7, Accumulate, ReadVarint, DecodeRest32, Value;
    ReadUnfold(s, 10 - k);
    RestSteps(s, 7 * k, result);
    var b: nat := s[0];
    var low: nat := b % 128;
    AccumulatedValue(acc, k, s[0], result);
    if b >= 128 {
      var (t, n) := ReadVarint(s[1..], 9 - k).value;
      ValueStep(acc, k, low, t);
      TailsAgree(s[1..], k + 1, Value(acc, k, low), Accumulate(result, 7 * k, s[0]));
      Together(s, n);
    }
  }

  /** What a tail t adds from bit 7k on. */
  function Value(acc: nat, k: nat, t: nat): nat {
    acc + Shift7(k) * t
  }

  lemma ValueStep(acc: nat, k: nat, low: nat, t: nat)
    requires acc < Shift7(k) && low < 128
    ensures Value(acc, k, low) < Shift7(k + 1)
    ensures Value(Value(acc, k, low), k + 1, t) == Value(acc, k, low + 128 * t)
  {
    hide Shift7;
    Shift7Step(k, low);
    BelowNext(acc, Shift7(k), low);
    Regroup(acc, Shift7(k), low, t);
  }

  lemma AccumulatedValue(acc: nat, k: nat, b: byte, result: nat)
    requires 1 <= k && result == acc % UINT32 && acc < Shift7(k)
    ensures Accumulate(result, 7 * k, b) == Value(acc, k, b % 128) % UINT32
  {
    hide Shift7, Accumulate;
    Accumulated(acc, k, b, result);
  }

  lemma ReadUnfold(s: bytes, most: nat)
    requires ReadVarint(s, most).Some?
    ensures most > 0 && s != []
    ensures s[0] < 128 ==> ReadVarint(s, most) == Some((s[0], 1))
    ensures s[0] >= 128 ==>
              ReadVarint(s[1..], most - 1).Some?
              && var (t, n) := ReadVarint(s[1..], most - 1).value; ReadVarint(s, most) == Some((s[0] - 128 + 128 * t, n + 1))
  {
  }

  lemma RestSteps(s: bytes, bitpos: nat, result: nat)
    requires s != [] && bitpos <= 63 && DecodeRest32(s, bitpos, result).Some?
    ensures var result' := Accumulate(result, bitpos, s[0]);
            if s[0] >= 128 then
              DecodeRest32(s[1..], bitpos + 7, result').Some?
              && DecodeRest32(s, bitpos, result) == DecodeRest32(s[1..], bitpos + 7, result')
            else DecodeRest32(s, bitpos, result) == Some((result', s[1..]))
  {
    hide Accumulate;
  }

  lemma Together(s: bytes, n: nat)
    requires s != [] && n < |s|
    ensures s[1..][n..] == s[n + 1..]
  {
  }

  lemma BelowNext(acc: nat, p: nat, low: nat)
    requires acc < p && low <= 127
    ensures acc + p * low < 128 * p
  {
    assert p * low <= p * 127;
  }

  lemma Regroup(acc: nat, p: nat, low: nat, t: nat)
    ensures acc + p * (low + 128 * t) == (acc + p * low) + 128 * p * t
  {
  }

  lemma Accumulated(acc: nat, k: nat, b: byte, result: nat)
    requires 1 <= k && result == acc % UINT32 && acc < Shift7(k)
    ensures Accumulate(result, 7 * k, b) == (acc + Shift7(k) * (b % 128)) % UINT32
  {
    var low: nat := b % 128;
    if k >= 5 {
      hide Shift7;
      HighBits(acc, k, low);
    } else if k == 4 {
      FourthGroup(acc, low);
    } else if k == 3 {
      LowGroup(acc, low, 2097152);
    } else if k == 2 {
      LowGroup(acc, low, 16384);
    } else {
      LowGroup(acc, low, 128);
    }
  }

  lemma LowGroup(acc: nat, low: nat, p: nat)
    requires p <= 2097152 && acc < p && low < 128
    ensures acc % UINT32 == acc && (acc + p * low) % UINT32 == acc + low * p
  {
    assert p * low == low * p;
    assert low * p <= 127 * p;
  }

  lemma FourthGroup(acc: nat, low: nat)
    requires acc < 268435456 && low < 128
    ensures acc % UINT32 == acc && (acc + 268435456 * low) % UINT32 == acc + low * 268435456 % UINT32
  {
    var top, bits := low / 16, low % 16;
    assert low * 268435456 == UINT32 * top + bits * 268435456;
    ModAdd(bits * 268435456, top);
    ModAdd(acc + bits * 268435456, top);
  }

  /** A tail that the 32-bit decoder accepts ends where its first byte below 128 is. */
  lemma {:induction false} TailReads(s: bytes, k: nat, result: nat)
    requires 1 <= k <= 9 && DecodeRest32(s, 7 * k, result).Some?
    requires |s| - |DecodeRest32(s, 7 * k, result).value.1| <= 10 - k
    ensures ReadVarint(s, 10 - k).Some?
    decreases |s|
  {
    hide Accumulate, DecodeRest32;
    RestSteps(s, 7 * k, result);
    if s[0] >= 128 {
      TailReads(s[1..], k + 1, Accumulate(result, 7 * k, s[0]));
    }
  }

  /**
   * What the 32-bit decoder accepts, taking ten bytes at most, the 64-bit decoder accepts too, and the two agree modulo
   * 2 to the power 32 and about what is left.
   */
  lemma Varint32IsVarint64(s: bytes)
    requires DecodeVarint32(s).Some? && |s| - |DecodeVarint32(s).value.1| <= 10
    ensures DecodeVarint(s).Some?
    ensures DecodeVarint32(s).value == (DecodeVarint(s).value.0 % UINT32, DecodeVarint(s).value.1)
  {
    hide ReadVarint, DecodeRest32, Value;
    if s[0] < 128 {
      ShortReads(s);
    } else {
      TailReads(s[1..], 1, s[0] - 128);
      LongReads(s, 10);
    }
    var (v, n) := ReadVarint(s, 10).value;
    ReadUnfold(s, 10);
    if s[0] >= 128 {
      var low: nat := s[0] - 128;
      var (t, m) := ReadVarint(s[1..], 9).value;
      TailsAgree(s[1..], 1, low, low);
      FirstValue(low, t);
      Together(s, m);
    }
    TwoMods(v);
  }

  lemma ShortReads(s: bytes)
    requires s != [] && s[0] < 128
    ensures ReadVarint(s, 10).Some?
  {
  }

  lemma LongReads(s: bytes, most: nat)
    requires most > 0 && s != [] && s[0] >= 128 && ReadVarint(s[1..], most - 1).Some?
    ensures ReadVarint(s, most).Some?
  {
  }

  lemma FirstValue(low: nat, t: nat)
    ensures Value(low, 1, t) == low + 128 * t
  {
  }

  lemma TwoMods(v: nat)
    ensures v % UINT64 % UINT32 == v % UINT32
  {
    assert UINT64 == UINT32 * UINT32;
    var q, r := v / UINT64, v % UINT64;
    assert v == UINT64 * q + r;
    assert UINT64 * q == UINT32 * (UINT32 * q);
    ModAdd(r, UINT32 * q);
  }

  lemma VarintStep(t: nat, rest: bytes)
    requires t >= 128
    ensures Varint(t) + rest == [t % 128 + 128] + (Varint(t / 128) + rest)
    ensures (Varint(t) + rest)[1..] == Varint(t / 128) + rest && (Varint(t) + rest)[0] == t % 128 + 128
  {
  }

  lemma VarintEnd(t: nat, rest: bytes)
    requires t < 128
    ensures Varint(t) + rest != [] && (Varint(t) + rest)[0] == t && (Varint(t) + rest)[1..] == rest
  {
  }

  lemma RestUnfold(s: bytes, bitpos: nat, result: nat)
    requires s != [] && bitpos < 32
    ensures DecodeRest32(s, bitpos, result) ==
            (var result' := Accumulate(result, bitpos, s[0]);
             if s[0] >= 128 then DecodeRest32(s[1..], bitpos + 7, result')
             else if bitpos == 28 && s[0] % 128 >= 16 then None
             else Some((result', s[1..])))
  {
  }

  lemma {:induction false} RestAccepts(t: nat, k: nat, acc: nat, rest: bytes)
    requires 1 <= k <= 4 && acc < Shift7(k) && Value(acc, k, t) < UINT32
    ensures DecodeRest32(Varint(t) + rest, 7 * k, acc) == Some((Value(acc, k, t), rest))
    decreases t
  {
    hide Varint, DecodeRest32, Accumulate, Value, Shift7;
    var low: nat := t % 128;
    Smaller(acc, k, t);
    if t < 128 {
      VarintEnd(t, rest);
      RestUnfold(Varint(t) + rest, 7 * k, acc);
      AccumulatedValue(acc, k, t, acc);
    } else {
      VarintStep(t, rest);
      RestUnfold(Varint(t) + rest, 7 * k, acc);
      AccumulatedValue(acc, k, low + 128, acc);
      ValueStep(acc, k, low, t / 128);
      RestAccepts(t / 128, k + 1, Value(acc, k, low), rest);
    }
  }

  lemma Smaller(acc: nat, k: nat, t: nat)
    requires 1 <= k <= 4 && Value(acc, k, t) < UINT32
    ensures k == 4 ==> t < 16
    ensures acc % UINT32 == acc && Value(acc, k, t % 128) % UINT32 == Value(acc, k, t % 128)
  {
    var p, low := Shift7(k), t % 128;
    assert p * low <= p * t;
  }

  /** Every 32-bit number's encoding is accepted, and decodes to the number. */
  lemma Varint32RoundTrips(v: nat, rest: bytes)
    requires v < UINT32
    ensures DecodeVarint32(Varint(v) + rest) == Some((v, rest))
  {
    hide Varint, DecodeRest32;
    if v < 128 {
      VarintEnd(v, rest);
    } else {
      VarintStep(v, rest);
      assert Value(v % 128, 1, v / 128) == v;
      RestAccepts(v / 128, 1, v % 128, rest);
    }
  }

  lemma HighUnfold(s: bytes, bitpos: nat, result: nat)
    requires 32 <= bitpos <= 63
    ensures s != [] && s[0] >= 128 && DecodeRest32(s, bitpos, result).Some? ==>
              DecodeRest32(s, bitpos, result) == DecodeRest32(s[1..], bitpos + 7, result)
    ensures s != [] && 0 < s[0] < 128 && bitpos < 63 ==> DecodeRest32(s, bitpos, result) == None
  {
  }

  /** A tail above the 32 bits that is not one long sign extension. */
  lemma {:induction false} HighRefused(t: nat, k: nat, result: nat, rest: bytes)
    requires 5 <= k <= 9 && 1 <= t < Pow(128, 9 - k)
    ensures DecodeRest32(Varint(t) + rest, 7 * k, result) == None
    decreases t
  {
    hide Varint, DecodeRest32;
    HighUnfold(Varint(t) + rest, 7 * k, result);
    if t < 128 {
      VarintEnd(t, rest);
    } else {
      VarintStep(t, rest);
      assert Pow(128, 9 - k) == 128 * Pow(128, 8 - k);
      HighRefused(t / 128, k + 1, result, rest);
    }
  }

  lemma {:induction false} RestRefuses(t: nat, k: nat, acc: nat, rest: bytes)
    requires 1 <= k <= 4 && acc < Shift7(k) && UINT32 <= Value(acc, k, t) && t < Pow(128, 9 - k)
    ensures DecodeRest32(Varint(t) + rest, 7 * k, acc) == None
    decreases t
  {
    hide Varint, DecodeRest32, Accumulate, Value, Shift7, Pow;
    var low: nat := t % 128;
    Larger(acc, k, t);
    if t < 128 {
      VarintEnd(t, rest);
      RestUnfold(Varint(t) + rest, 7 * k, acc);
    } else {
      VarintStep(t, rest);
      RestUnfold(Varint(t) + rest, 7 * k, acc);
      PowStep(t, 9 - k);
      if k == 4 {
        HighRefused(t / 128, 5, Accumulate(acc, 28, low + 128), rest);
      } else {
        AccumulatedValue(acc, k, low + 128, acc);
        ValueStep(acc, k, low, t / 128);
        RestRefuses(t / 128, k + 1, Value(acc, k, low), rest);
      }
    }
  }

  lemma PowStep(t: nat, n: nat)
    requires 128 <= t < Pow(128, n)
    ensures n > 0 && 1 <= t / 128 < Pow(128, n - 1)
  {
    assert Pow(128, n) == 128 * Pow(128, n - 1);
  }

  lemma Larger(acc: nat, k: nat, t: nat)
    requires 1 <= k <= 4 && acc < Shift7(k) && UINT32 <= Value(acc, k, t)
    ensures t < 128 ==> k == 4 && t >= 16
    ensures acc % UINT32 == acc && (k < 4 ==> Value(acc, k, t % 128) % UINT32 == Value(acc, k, t % 128))
  {
    var p, low := Shift7(k), t % 128;
    assert p * low <= p * 127;
    if t < 128 { assert low == t; }
  }

  /** Of the numbers below 2 to the power 63, exactly those of 32 bits are accepted. */
  lemma LargeVarintRefused(v: nat, rest: bytes)
    requires v < 0x8000_0000_0000_0000
    ensures DecodeVarint32(Varint(v) + rest) == if v < UINT32 then Some((v, rest)) else None
  {
    hide Varint, DecodeRest32;
    if v < UINT32 {
      Varint32RoundTrips(v, rest);
    } else {
      VarintStep(v, rest);
      assert Value(v % 128, 1, v / 128) == v;
      assert v / 128 < Pow(128, 8) by { PowEight(); }
      RestRefuses(v / 128, 1, v % 128, rest);
    }
  }

  lemma PowEight()
    ensures Pow(128, 8) == 0x100_0000_0000_0000
  {
    assert Pow(128, 2) == 16384 && Pow(128, 4) == 268435456;
    assert Pow(128, 6) == 16384 * Pow(128, 4);
  }

  /** The tail of a sign-extended negative number: the high bytes are all ones. */
  lemma {:induction false} NegativeRest(t: nat, k: nat, acc: nat, y: nat, rest: bytes)
    requires 1 <= k <= 5 && acc < Shift7(k) && 1 <= y <= 0x8000_0000 && Value(acc, k, t) == UINT64 - y
    ensures DecodeRest32(Varint(t) + rest, 7 * k, acc % UINT32) == Some((UINT32 - y, rest))
    decreases 5 - k
  {
    hide Varint, DecodeRest32, Accumulate, Value, Shift7;
    if k == 5 {
      FifthValue(acc, t, y);
      AllOnes(rest, acc % UINT32);
    } else {
      LargeTail(k, acc, t, y);
      VarintStep(t, rest);
      var low: nat := t % 128;
      RestUnfold(Varint(t) + rest, 7 * k, acc % UINT32);
      AccumulatedValue(acc, k, low + 128, acc % UINT32);
      ValueStep(acc, k, low, t / 128);
      NegativeRest(t / 128, k + 1, Value(acc, k, low), y, rest);
    }
  }

  lemma FifthValue(acc: nat, t: nat, y: nat)
    requires acc < Shift7(5) && 1 <= y <= 0x8000_0000 && Value(acc, 5, t) == UINT64 - y
    ensures t == 536870911 && acc % UINT32 == UINT32 - y
  {
    assert Shift7(5) == 34359738368;
  }

  lemma LargeTail(k: nat, acc: nat, t: nat, y: nat)
    requires 1 <= k <= 4 && acc < Shift7(k) && 1 <= y <= 0x8000_0000 && Value(acc, k, t) == UINT64 - y
    ensures t >= 128
  {
    assert t < 128 ==> Shift7(k) * t <= Shift7(k) * 127;
  }

  lemma AllOnes(rest: bytes, result: nat)
    requires result >= 0x8000_0000
    ensures DecodeRest32(Varint(536870911) + rest, 35, result) == Some((result, rest))
  {
    FiveBytes(rest);
    hide Varint, DecodeRest32;
    var s1: bytes := [1] + rest;
    var s2: bytes := [255] + s1;
    var s3: bytes := [255] + s2;
    var s4: bytes := [255] + s3;
    OneUp(s4, 35, result);
    OneUp(s3, 42, result);
    OneUp(s2, 49, result);
    OneUp(s1, 56, result);
    LastOne(rest, result);
  }

  lemma FiveBytes(rest: bytes)
    ensures Varint(536870911) + rest == [255] + ([255] + ([255] + ([255] + ([1] + rest))))
  {
    VarintStep(536870911, rest);
    VarintStep(4194303, rest);
    VarintStep(32767, rest);
    VarintStep(255, rest);
    assert Varint(1) == [1];
  }

  lemma LastOne(rest: bytes, result: nat)
    requires result >= 0x8000_0000
    ensures DecodeRest32([1] + rest, 63, result) == Some((result, rest))
  {
    assert ([1] + rest)[1..] == rest;
  }

  lemma OneUp(tail: bytes, bitpos: nat, result: nat)
    requires 32 <= bitpos < 63 && result >= 0x8000_0000
    ensures DecodeRest32([255] + tail, bitpos, result) == DecodeRest32(tail, bitpos + 7, result)
  {
    assert ([255] + tail)[1..] == tail;
  }

  /** So is every negative 32-bit number, sign-extended to 64 bits, as two's complement. */
  lemma NegativeVarint32RoundTrips(x: int, rest: bytes)
    requires -0x8000_0000 <= x < 0
    ensures DecodeVarint32(Varint(UINT64 + x) + rest) == Some((UINT32 + x, rest))
  {
    hide Varint, DecodeRest32;
    var v: nat := UINT64 + x;
    VarintStep(v, rest);
    var low: nat := v % 128;
    assert Value(low, 1, v / 128) == v;
    NegativeRest(v / 128, 1, low, -x, rest);
  }

  // ----- Zigzag -----

  function Bits64(x: int): (u: nat)
    requires -0x8000_0000_0000_0000 <= x < 0x8000_0000_0000_0000
    ensures u < UINT64
  {
    if x < 0 then UINT64 + x else x
  }

  function Signed64(u: nat): (x: int)
    requires u < UINT64
    ensures -0x8000_0000_0000_0000 <= x < 0x8000_0000_0000_0000
  {
    if u < 0x8000_0000_0000_0000 then u else u - UINT64
  }

  function Complement64(u: nat): nat
    requires u < UINT64
  {
    UINT64 - 1 - u
  }

  /** pb_encode_svarint's folding of the sign into the lowest bit. */
  function Zigzag(x: int): (u: nat)
    requires -0x8000_0000_0000_0000 <= x < 0x8000_0000_0000_0000
    ensures u < UINT64
  {
    if x < 0 then Complement64(Bits64(x) * 2 % UINT64) else Bits64(x) * 2 % UINT64
  }

  /** pb_decode_svarint's unfolding of it. */
  function Unzigzag(u: nat): int
    requires u < UINT64
  {
    if u % 2 == 1 then Signed64(Complement64(u / 2)) else Signed64(u / 2)
  }

  /** Zigzag is a bijection between the signed and the unsigned 64-bit numbers; small magnitudes get small numbers. */
  lemma ZigzagRoundTrip(x: int)
    requires -0x8000_0000_0000_0000 <= x < 0x8000_0000_0000_0000
    ensures Unzigzag(Zigzag(x)) == x
    ensures Zigzag(x) == if x < 0 then -2 * x - 1 else 2 * x
  {
    if x < 0 {
      assert (UINT64 + x) * 2 == UINT64 + (UINT64 + 2 * x);
      assert (UINT64 + x) * 2 % UINT64 == UINT64 + 2 * x;
    }
  }

  lemma UnzigzagRoundTrip(u: nat)
    requires u < UINT64
    ensures -0x8000_0000_0000_0000 <= Unzigzag(u) < 0x8000_0000_0000_0000 && Zigzag(Unzigzag(u)) == u
  {
    ZigzagRoundTrip(Unzigzag(u));
  }

  /** A 64-bit number takes at most ten bytes. */
  lemma {:induction false} VarintLength(v: nat, n: nat)
    requires v < Pow(128, n) && n > 0
    ensures |Varint(v)| <= n
  {
    if v >= 128 {
      VarintLength(v / 128, n - 1);
    }
  }

  lemma Varint64RoundTrips(v: nat, rest: bytes)
    requires v < UINT64
    ensures DecodeVarint(Varint(v) + rest) == Some((v, rest)) && |Varint(v)| <= 10
  {
    Varint64RoundTrip(v, rest);
    Widths();
    VarintLength(v, 10);
  }
}
