/** Output streams of the protocol buffers codec (pb_encode.c): they write into a buffer, or only count. */
module PbOutput {
  import opened Wrappers
  import opened UserKeys
  import opened Coding
  import opened PbVarint
  import opened PbMessage

  // ----- What an encoder does to a stream, on values -----

  /** A stream that only counts, or one that may fill max bytes of memory from base on. */
  datatype Output = Output(sizing: bool, base: nat, max: nat, written: nat, mem: bytes) {
    predicate Good() {
      sizing || (written <= max && base + max <= |mem|)
    }
  }

  /** Only the window behind what was already written may differ. */
  ghost predicate Frame(a: Output, b: Output) {
    && a.Good() && b.Good() && a.sizing == b.sizing && a.base == b.base && a.max == b.max && |a.mem| == |b.mem|
    && a.written <= b.written
    && if a.sizing then a.mem == b.mem
       else b.mem[..a.base + a.written] == a.mem[..a.base + a.written] && b.mem[a.base + a.max..] == a.mem[a.base + a.max..]
  }

  predicate Fits(a: Output, n: nat) {
    a.sizing || a.written + n <= a.max
  }

  /** It succeeds when there is something to write and it fits; then exactly that has been counted, and written. */
  ghost predicate Wrote(a: Output, b: Output, ok: bool, e: Option<bytes>) {
    && Frame(a, b)
    && (ok <==> e.Some? && Fits(a, |e.value|))
    && (ok ==>
          && b.written == a.written + |e.value|
          && (!a.sizing ==> b.mem[a.base + a.written..a.base + b.written] == e.value))
  }

  function After(x: bytes, e: Option<bytes>): Option<bytes> {
    match e case None => None case Some(y) => Some(x + y)
  }

  lemma NothingWritten(a: Output)
    requires a.Good()
    ensures Wrote(a, a, true, Some([]))
  {
  }

  lemma NothingToWrite(a: Output)
    requires a.Good()
    ensures Wrote(a, a, false, None)
  {
  }

  lemma Then(a: Output, b: Output, c: Output, x: bytes, ok: bool, e: Option<bytes>)
    requires Wrote(a, b, true, Some(x)) && Wrote(b, c, ok, e)
    ensures Wrote(a, c, ok, After(x, e))
  {
    FrameThen(a, b, c);
    if ok && !a.sizing { WrittenThen(a, b, c, x, e.value); }
  }

  lemma FrameThen(a: Output, b: Output, c: Output)
    requires Frame(a, b) && Frame(b, c)
    ensures Frame(a, c)
  {
    if !a.sizing {
      var n := a.base + a.written;
      assert c.mem[..n] == c.mem[..b.base + b.written][..n];
    }
  }

  lemma WrittenThen(a: Output, b: Output, c: Output, x: bytes, y: bytes)
    requires Frame(a, b) && Frame(b, c) && !a.sizing
    requires b.mem[a.base + a.written..a.base + b.written] == x && c.mem[b.base + b.written..b.base + c.written] == y
    ensures c.mem[a.base + a.written..a.base + c.written] == x + y
  {
    var i, j, k := a.base + a.written, a.base + b.written, a.base + c.written;
    assert c.mem[i..j] == c.mem[..j][i..] == b.mem[..j][i..] == b.mem[i..j];
    assert c.mem[i..k] == c.mem[i..j] + c.mem[j..k];
  }

  lemma FailsThen(a: Output, b: Output, x: bytes, e: Option<bytes>)
    requires Wrote(a, b, false, Some(x))
    ensures Wrote(a, b, false, After(x, e))
  {
  }

  /** A stream on the front of another's window, filled to the brim, has filled the other as far. */
  lemma WindowFilled(a: Output, c: Output, d: Output, x: bytes)
    requires a.Good() && !a.sizing && a.written + |x| <= a.max
    requires Wrote(Output(false, a.base + a.written, |x|, 0, a.mem), d, true, Some(x))
    requires c == Output(false, a.base, a.max, a.written + |x|, d.mem)
    ensures Wrote(a, c, true, Some(x))
  {
    var i, j := a.base + a.written + |x|, a.base + a.max;
    assert d.mem[j..] == d.mem[i..][j - i..] && a.mem[j..] == a.mem[i..][j - i..];
  }

  lemma Counted(a: Output, x: bytes)
    requires a.sizing
    ensures Wrote(a, Output(a.sizing, a.base, a.max, a.written + |x|, a.mem), true, Some(x))
  {
  }

  // ----- The streams -----

  class OutputStream {
    const sizing: bool           // no callback: bytes are only counted
    const buffer: array<byte>
    const base: nat
    const maxSize: nat
    var state: nat
    var bytesWritten: nat

    ghost predicate Valid()
      reads this
    {
      !sizing ==> bytesWritten <= maxSize && base + maxSize <= buffer.Length && state == base + bytesWritten
    }

    ghost function Snap(): Output
      reads this, buffer
    {
      Output(sizing, base, maxSize, bytesWritten, buffer[..])
    }

    /** PB_OSTREAM_SIZING */
    constructor Sizing()
      ensures Valid() && sizing && bytesWritten == 0 && fresh(buffer)
    {
      sizing, base, maxSize, state, bytesWritten := true, 0, 0, 0, 0;
      buffer := new byte[0];
    }

    /** pb_ostream_from_buffer, with the buffer a stretch of an array. */
    constructor On(buffer: array<byte>, base: nat, maxSize: nat)
      requires base + maxSize <= buffer.Length
      ensures Valid() && !sizing && this.buffer == buffer && this.base == base && this.maxSize == maxSize
      ensures bytesWritten == 0 && state == base
    {
      sizing, this.base, this.maxSize, state, bytesWritten := false, base, maxSize, base, 0;
      this.buffer := buffer;
    }

    method BufWrite(buf: bytes)
      requires state + |buf| <= buffer.Length
      modifies `state, buffer
      ensures state == old(state) + |buf|
      ensures forall k :: 0 <= k < buffer.Length ==>
                            buffer[k] == if old(state) <= k < state then buf[k - old(state)] else old(buffer[k])
    {
      var dest := state;
      state := dest + |buf|;
      for i := 0 to |buf|
        invariant forall k :: 0 <= k < buffer.Length ==>
                                buffer[k] == if dest <= k < dest + i then buf[k - dest] else old(buffer[k])
        modifies buffer
      {
        buffer[dest + i] := buf[i];
      }
    }

    /** pb_write */
    method Write(buf: bytes) returns (ok: bool)
      requires Valid()
      modifies this, buffer
      ensures Valid() && Wrote(old(Snap()), Snap(), ok, Some(buf))
    {
      if |buf| > 0 && !sizing {
        if bytesWritten + |buf| > maxSize { return false; }
        BufWrite(buf);
      }
      bytesWritten := bytesWritten + |buf|;
      ok := true;
    }

    /** pb_write without data, on a stream that only counts. */
    method Count(count: nat)
      requires Valid() && sizing
      modifies `bytesWritten
      ensures Valid() && bytesWritten == old(bytesWritten) + count
    {
      bytesWritten := bytesWritten + count;
    }

    /** pb_encode_varint */
    method EncodeVarint(value: nat) returns (ok: bool)
      requires Valid()
      modifies this, buffer
      ensures Valid() && Wrote(old(Snap()), Snap(), ok, Some(Varint(value)))
    {
      hide Wrote;
      if value <= 0x7F {
        ok := Write([value]);
        return;
      }
      var buf := Groups(value);
      ok := Write(buf);
    }

    method EncodeSvarint(value: int) returns (ok: bool)
      requires Valid() && -0x8000_0000_0000_0000 <= value < 0x8000_0000_0000_0000
      modifies this, buffer
      ensures Valid() && Wrote(old(Snap()), Snap(), ok, Some(Varint(Zigzag(value))))
    {
      hide Wrote, Varint;
      var shifted := Bits64(value) * 2 % UINT64;
      var zigzagged := if value < 0 then Complement64(shifted) else shifted;
      ok := EncodeVarint(zigzagged);
    }

    method EncodeFixed32(val: nat) returns (ok: bool)
      requires Valid() && val < UINT32
      modifies this, buffer
      ensures Valid() && Wrote(old(Snap()), Snap(), ok, Some(Fixed(4, val)))
    {
      hide Wrote;
      FourBytes(val);
      ok := Write([val % 256, val / 0x100 % 256, val / 0x1_0000 % 256, val / 0x100_0000 % 256]);
    }

    method EncodeFixed64(val: nat) returns (ok: bool)
      requires Valid() && val < UINT64
      modifies this, buffer
      ensures Valid() && Wrote(old(Snap()), Snap(), ok, Some(Fixed(8, val)))
    {
      hide Wrote;
      EightBytes(val);
      ok := Write([val % 256, val / 0x100 % 256, val / 0x1_0000 % 256, val / 0x100_0000 % 256,
                   val / 0x1_0000_0000 % 256, val / 0x100_0000_0000 % 256,
                   val / 0x1_0000_0000_0000 % 256, val / 0x100_0000_0000_0000 % 256]);
    }

    method EncodeTag(wire: nat, tag: nat) returns (ok: bool)
      requires Valid()
      modifies this, buffer
      ensures Valid() && Wrote(old(Snap()), Snap(), ok, Some(TagBytes(tag, wire)))
    {
      ok := EncodeVarint(tag * 8 + wire);
    }

    method EncodeString(buf: bytes) returns (ok: bool)
      requires Valid()
      modifies this, buffer
      ensures Valid() && Wrote(old(Snap()), Snap(), ok, Some(Prefixed(buf)))
    {
      hide Wrote, Varint;
      ghost var a := Snap();
      ok := EncodeVarint(|buf|);
      ghost var b := Snap();
      if !ok {
        FailsThen(a, b, Varint(|buf|), Some(buf));
        return;
      }
      ok := Write(buf);
      Then(a, b, Snap(), Varint(|buf|), ok, Some(buf));
    }
  }

  /** The loop of pb_encode_varint: every group with its top bit set, then the last one cleared. Ten bytes are enough. */
  method Groups(value: nat) returns (buf: bytes)
    requires value > 0
    ensures buf == Varint(value) && (value < UINT64 ==> |buf| <= 10)
  {
    hide Varint;
    if value < UINT64 { Varint64RoundTrips(value, []); }
    var v: nat := value;
    buf := [];
    while v > 0
      invariant v > 0 ==> Varint(value) == buf + Varint(v)
      invariant v == 0 ==> buf != [] && Varint(value) == buf[..|buf| - 1] + [buf[|buf| - 1] % 128]
    {
      GroupStep(value, v, buf);
      buf := buf + [v % 128 + 128];
      v := v / 128;
    }
    buf := buf[|buf| - 1 := buf[|buf| - 1] % 128];
  }

  lemma GroupStep(value: nat, v: nat, buf: bytes)
    requires v > 0 && Varint(value) == buf + Varint(v)
    ensures v >= 128 ==> Varint(value) == buf + [v % 128 + 128] + Varint(v / 128)
    ensures v < 128 ==> Varint(value) == buf + [v]
  {
  }

  lemma FourBytes(v: nat)
    ensures Fixed(4, v) == [v % 256, v / 0x100 % 256, v / 0x1_0000 % 256, v / 0x100_0000 % 256]
  {
    FixedTwice(4, v);
    FixedTwice(2, v / 0x1_0000);
    Quotients(v);
  }

  lemma EightBytes(v: nat)
    ensures Fixed(8, v) == [v % 256, v / 0x100 % 256, v / 0x1_0000 % 256, v / 0x100_0000 % 256,
                            v / 0x1_0000_0000 % 256, v / 0x100_0000_0000 % 256,
                            v / 0x1_0000_0000_0000 % 256, v / 0x100_0000_0000_0000 % 256]
  {
    FixedTwice(8, v);
    FixedTwice(6, v / 0x1_0000);
    Quotients(v);
    FourBytes(v / 0x1_0000_0000);
  }

  lemma FixedTwice(n: nat, v: nat)
    requires n >= 2
    ensures Fixed(n, v) == [v % 256, v / 0x100 % 256] + Fixed(n - 2, v / 0x1_0000)
  {
    Quotients(v);
    FixedUnfold(n, v);
    FixedUnfold(n - 1, v / 256);
  }

  lemma Quotients(v: nat)
    ensures v / 0x100 / 0x100 == v / 0x1_0000
    ensures v / 0x1_0000 / 0x100 == v / 0x100_0000
    ensures v / 0x1_0000 / 0x1_0000 == v / 0x1_0000_0000
    ensures v / 0x1_0000_0000 / 0x100 == v / 0x100_0000_0000
    ensures v / 0x1_0000_0000 / 0x1_0000 == v / 0x1_0000_0000_0000
    ensures v / 0x1_0000_0000 / 0x100_0000 == v / 0x100_0000_0000_0000
  {
  }
}
