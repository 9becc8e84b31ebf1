/** The output and input streams over memory buffers, and the integer and length codecs on them. */
module PbStream {
  import opened Bytes
  import opened PbWire
  import opened PbCodec

  /**
   * The state of an output stream: how much has been counted, what has been written, and the memory
   * before and behind the stream's part of the buffer, which it must never touch.
   */
  datatype Output = Output(sizing: bool, limit: nat, count: nat, bytes: seq<byte>, before: seq<byte>, behind: seq<byte>)
  {
    predicate Accepts(n: nat) {
      sizing || count + n <= limit
    }

    /**
     * The outcome of encoding something whose wire form is `e`: it succeeds exactly when there is
     * such a form and room for it, and then it is counted and written, whole and in place. Whatever
     * happens, earlier output and memory outside the stream's limits stay as they were.
     */
    predicate Becomes(next: Output, e: Option<seq<byte>>, ok: bool) {
      && next.sizing == sizing && next.limit == limit && next.before == before && next.behind == behind
      && (ok <==> e.Some? && Accepts(|e.value|))
      && (ok ==> next.count == count + |e.value| && next.bytes == if sizing then bytes else bytes + e.value)
      && bytes <= next.bytes
    }
  }

  lemma {:induction false} BecomesNothing(a: Output)
    requires a.sizing || a.count <= a.limit
    ensures a.Becomes(a, Some([]), true)
  {
    assert a.bytes + [] == a.bytes;
  }

  /** One piece after another: written together exactly when both are. */
  lemma {:induction false} BecomesThen(a: Output, b: Output, c: Output, e: Option<seq<byte>>, f: Option<seq<byte>>, ok: bool)
    requires a.Becomes(b, e, true) && b.Becomes(c, f, ok)
    ensures a.Becomes(c, Join(e, f), ok)
  {
    if f.Some? {
      assert a.bytes + e.value + f.value == a.bytes + (e.value + f.value);
    }
  }

  /** A piece that fails makes the whole fail. */
  lemma {:induction false} BecomesFails(a: Output, b: Output, e: Option<seq<byte>>, f: Option<seq<byte>>)
    requires a.Becomes(b, e, false)
    ensures a.Becomes(b, Join(e, f), false)
  {
  }

  /**
   * An output stream either writes into `buf`, from `start` on and for at most `maxSize` bytes, or
   * only counts. A substream shares the buffer of its parent.
   */
  class OStream {
    const buf: array<byte>
    const sizing: bool
    const start: nat
    const maxSize: nat
    var pos: nat
    var bytesWritten: nat

    ghost predicate Valid()
      reads this
    {
      !sizing ==> pos == start + bytesWritten && bytesWritten <= maxSize && start + maxSize <= buf.Length
    }

    /** The stream as its user sees it. */
    ghost function Now(): Output
      requires Valid()
      reads this, buf
    {
      if sizing then Output(true, maxSize, bytesWritten, [], buf[..], [])
      else Output(false, maxSize, bytesWritten, buf[start..pos], buf[..start], buf[start + maxSize..])
    }

    constructor FromBuffer(b: array<byte>, size: nat)
      requires size <= b.Length
      ensures Valid() && buf == b && !sizing && Now() == Output(false, size, 0, [], [], b[size..])
    {
      buf, sizing, start, maxSize, pos, bytesWritten := b, false, 0, size, 0, 0;
    }

    constructor Sizing()
      ensures Valid() && sizing && bytesWritten == 0 && fresh(buf)
    {
      buf, sizing, start, maxSize, pos, bytesWritten := new byte[0], true, 0, 0, 0, 0;
    }

    constructor Sub(parent: OStream, size: nat)
      requires parent.Valid() && !parent.sizing && parent.bytesWritten + size <= parent.maxSize
      ensures Valid() && buf == parent.buf && !sizing && start == parent.pos && maxSize == size && bytesWritten == 0
    {
      buf, sizing, start, maxSize, pos, bytesWritten := parent.buf, false, parent.pos, size, parent.pos, 0;
    }

    /** Write `data`, byte by byte, unless it does not fit. */
    method Write(data: seq<byte>) returns (ok: bool)
      requires Valid()
      modifies this, buf
      ensures Valid() && old(Now()).Becomes(Now(), Some(data), ok)
    {
      if !sizing {
        if bytesWritten + |data| > maxSize {
          return false;
        }
        var dest := pos;
        pos := dest + |data|;
        var i := 0;
        while i < |data|
          invariant 0 <= i <= |data| && pos == dest + |data| && dest == old(pos) && bytesWritten == old(bytesWritten)
          invariant forall k | 0 <= k < buf.Length ::
            buf[k] == if dest <= k < dest + i then data[k - dest] else old(buf[k])
        {
          buf[dest + i] := data[i];
          i := i + 1;
        }
      }
      bytesWritten := bytesWritten + |data|;
      assert !sizing ==> buf[start..pos] == old(buf[start..pos]) + data;
      assert if sizing then buf[..] == old(buf[..])
        else buf[..start] == old(buf[..start]) && buf[start + maxSize..] == old(buf[start + maxSize..]);
      return true;
    }

    /** When only counting, bytes need not be at hand to be counted. */
    method Count(size: nat)
      requires Valid() && sizing
      modifies this
      ensures Valid() && bytesWritten == old(bytesWritten) + size
    {
      bytesWritten := bytesWritten + size;
    }

    method EncodeVarint(v: nat) returns (ok: bool)
      requires Valid() && v < U64
      modifies this, buf
      ensures Valid() && old(Now()).Becomes(Now(), Some(Varint(v)), ok)
    {
      if v <= 0x7f {
        ok := Write([v]);
        return;
      }
      var buffer := new byte[10];
      var i := FillVarint(buffer, v);
      ok := Write(buffer[..i]);
    }

    method EncodeSvarint(i: int) returns (ok: bool)
      requires Valid() && -0x8000_0000_0000_0000 <= i < 0x8000_0000_0000_0000
      modifies this, buf
      ensures Valid() && old(Now()).Becomes(Now(), Some(Varint(if i < 0 then -2 * i - 1 else 2 * i)), ok)
    {
      ZigZagRoundTrip(i);
      ok := EncodeVarint(ZigZag(i));
    }

    /** A fixed-width word, lowest byte first. */
    method EncodeFixed(v: nat, n: nat) returns (ok: bool)
      requires Valid()
      modifies this, buf
      ensures Valid() && old(Now()).Becomes(Now(), Some(LittleEndian(v, n)), ok)
    {
      ok := Write(LittleEndian(v, n));
    }

    method EncodeTag(wireType: nat, tag: nat) returns (ok: bool)
      requires Valid() && 8 * tag + wireType < U64
      modifies this, buf
      ensures Valid() && old(Now()).Becomes(Now(), Some(PbWire.EncodeTag(tag, wireType)), ok)
    {
      ok := EncodeVarint(8 * tag + wireType);
    }

    method EncodeString(data: seq<byte>) returns (ok: bool)
      requires Valid()
      modifies this, buf
      ensures Valid() && old(Now()).Becomes(Now(), Some(Delimited(data)), ok)
    {
      hide Output.Becomes, Varint;
      ok := EncodeVarint(|data| % U64);
      ghost var mid := Now();
      if ok {
        ok := Write(data);
        BecomesThen(old(Now()), mid, Now(), Some(Varint(|data| % U64)), Some(data), ok);
      } else {
        BecomesFails(old(Now()), mid, Some(Varint(|data| % U64)), Some(data));
      }
    }
  }

  /** The multi-byte form, laid out in the encoder's buffer. */
  method FillVarint(buffer: array<byte>, v: nat) returns (i: nat)
    requires buffer.Length == 10 && 0 < v < U64
    modifies buffer
    ensures i <= 10 && buffer[..i] == Varint(v)
  {
    hide Varint, Continued;
    var value := v;
    i := 0;
    VarintAtMostTen(v);
    ContinuedVarint(v);
    ghost var c := Continued(v);
    while value != 0
      invariant i <= |c| && c[i..] == Continued(value) && buffer[..i] == c[..i]
      decreases value
    {
      NextContinued(c, i, value);
      buffer[i] := value % 128 + 128;
      value := value / 128;
      i := i + 1;
    }
    assert Continued(0) == [] by { ContinuedZero(); }
    assert i == |c|;
    buffer[i - 1] := buffer[i - 1] - 128;
  }

  /** The encoder's loop sets the top bit of every byte, and clears it on the last one afterwards. */
  function Continued(v: nat): seq<byte> {
    if v == 0 then [] else [v % 128 + 128] + Continued(v / 128)
  }

  lemma {:induction false} ContinuedZero()
    ensures Continued(0) == []
  {
  }

  lemma {:induction false} NextContinued(c: seq<byte>, i: nat, value: nat)
    requires i <= |c| && c[i..] == Continued(value) && value > 0
    ensures i < |c| && c[i] == value % 128 + 128 && c[i + 1..] == Continued(value / 128)
  {
    assert c[i + 1..] == c[i..][1..];
  }

  lemma {:induction false} ContinuedVarint(v: nat)
    requires v > 0
    ensures var c, n := Continued(v), |Continued(v)|;
      n == |Varint(v)| && c[n - 1] >= 128 && Varint(v) == c[n - 1 := c[n - 1] - 128]
  {
    if v < 128 {
      assert Continued(v) == [v + 128] + Continued(0);
    } else {
      ContinuedVarint(v / 128);
    }
  }

  /** An input stream over bytes that nobody changes; a substream is another window on the same bytes. */
  class IStream {
    const input: seq<byte>
    var pos: nat
    var bytesLeft: nat

    ghost predicate Valid()
      reads this
    {
      pos + bytesLeft <= |input|
    }

    ghost function Rest(): seq<byte>
      requires Valid()
      reads this
    {
      input[pos..pos + bytesLeft]
    }

    /** Reading moves the front of the window only. */
    twostate predicate Moved()
      requires old(Valid())
      reads this
    {
      Valid() && pos + bytesLeft == old(pos + bytesLeft)
    }

    constructor FromBuffer(data: seq<byte>)
      ensures Valid() && input == data && Rest() == data && pos == 0
    {
      input, pos, bytesLeft := data, 0, |data|;
    }

    constructor Window(data: seq<byte>, at: nat, size: nat)
      requires at + size <= |data|
      ensures Valid() && input == data && pos == at && bytesLeft == size
    {
      input, pos, bytesLeft := data, at, size;
    }

    method Read(count: nat) returns (ok: bool, data: seq<byte>)
      requires Valid()
      modifies this
      ensures Moved() && (ok <==> Take(count, old(Rest())).Done?)
      ensures ok ==> Done(data, Rest()) == Take(count, old(Rest()))
    {
      if bytesLeft < count {
        return false, [];
      }
      data := input[pos..pos + count];
      pos := pos + count;
      bytesLeft := bytesLeft - count;
      assert Rest() == old(Rest())[count..] && data == old(Rest())[..count];
      return true, data;
    }

    method ReadByte() returns (ok: bool, b: byte)
      requires Valid()
      modifies this
      ensures Moved() && (ok <==> old(Rest()) != [])
      ensures ok ==> b == old(Rest())[0] && Rest() == old(Rest())[1..]
      ensures !ok ==> Rest() == []
    {
      if bytesLeft == 0 {
        return false, 0;
      }
      b := input[pos];
      pos := pos + 1;
      bytesLeft := bytesLeft - 1;
      return true, b;
    }

    /** `eof` tells a stream that ended before the first byte from one that ended in the middle. */
    method DecodeVarint32Eof() returns (ok: bool, value: nat, eof: bool)
      requires Valid()
      modifies this
      ensures Moved() && (ok <==> PbWire.DecodeVarint32(old(Rest())).Done?)
      ensures ok ==> Done(value, Rest()) == PbWire.DecodeVarint32(old(Rest()))
      ensures eof <==> old(Rest()) == []
    {
      hide Merge32, StrayBits;
      var b;
      ok, b := ReadByte();
      if !ok {
        return false, 0, true;
      }
      if b < 128 {
        return true, b, false;
      }
      var bitpos: nat := 7;
      value := b % 128;
      while true
        invariant Moved() && Varint32From(Rest(), bitpos, value) == PbWire.DecodeVarint32(old(Rest()))
        decreases bytesLeft
      {
        ok, b := ReadByte();
        if !ok {
          return false, 0, false;
        }
        if StrayBits(b, bitpos, value) {
          return false, 0, false;
        }
        value := Merge32(b, bitpos, value);
        bitpos := (bitpos + 7) % 256;
        if b < 128 {
          break;
        }
      }
      if bitpos == 35 && b / 16 % 8 != 0 {
        return false, 0, false;
      }
      return true, value, false;
    }

    method DecodeVarint() returns (ok: bool, value: nat)
      requires Valid()
      modifies this
      ensures Moved() && (ok <==> PbWire.DecodeVarint(old(Rest())).Done?)
      ensures ok ==> Done(value, Rest()) == PbWire.DecodeVarint(old(Rest()))
    {
      hide Or, Shl;
      var bitpos: nat := 0;
      value := 0;
      while true
        invariant Moved() && Varint64From(Rest(), bitpos, value) == PbWire.DecodeVarint(old(Rest()))
        decreases bytesLeft
      {
        if bitpos >= 64 {
          return false, 0;
        }
        var b;
        ok, b := ReadByte();
        if !ok {
          return false, 0;
        }
        value := Or(value, Shl(b % 128, bitpos) % U64);
        bitpos := bitpos + 7;
        if b < 128 {
          return true, value;
        }
      }
    }
  
    method SkipVarint() returns (ok: bool)
      requires Valid()
      modifies this
      ensures Moved() && (ok <==> PbWire.SkipVarint(old(Rest())).Done?)
      ensures ok ==> Done((), Rest()) == PbWire.SkipVarint(old(Rest()))
    {
      while true
        invariant Moved() && PbWire.SkipVarint(Rest()) == PbWire.SkipVarint(old(Rest()))
        decreases bytesLeft
      {
        var b;
        ok, b := ReadByte();
        if !ok {
          return false;
        }
        if b < 128 {
          return true;
        }
      }
    }

    method SkipString() returns (ok: bool)
      requires Valid()
      modifies this
      ensures Moved() && (ok <==> Split(old(Rest())).Done?)
      ensures ok ==> Rest() == Split(old(Rest())).rest
    {
      hide PbWire.DecodeVarint32;
      var length, eof, data;
      ok, length, eof := DecodeVarint32Eof();
      if ok {
        ok, data := Read(length);
      }
    }

    /** A tag, unless the stream ends here or holds a zero byte instead. */
    method DecodeTag() returns (ok: bool, wireType: nat, tag: nat, eof: bool)
      requires Valid()
      modifies this
      ensures Moved()
      ensures ok ==> Tag(tag, wireType, Rest()) == PbWire.DecodeTag(old(Rest()))
      ensures !ok && eof && old(Rest()) != [] ==> PbWire.DecodeTag(old(Rest())) == TagEnd(Rest())
      ensures !ok && !eof ==> PbWire.DecodeTag(old(Rest())).TagFail?
    {
      hide PbWire.DecodeVarint32;
      var temp;
      wireType, tag := 0, 0;
      ok, temp, eof := DecodeVarint32Eof();
      if !ok {
        return;
      }
      if temp == 0 {
        return false, wireType, tag, true;
      }
      return true, temp % 8, temp / 8, eof;
    }

    method SkipField(wireType: nat) returns (ok: bool)
      requires Valid()
      modifies this
      ensures Moved() && (ok <==> Skip(wireType, old(Rest())).Done?)
      ensures ok ==> Done((), Rest()) == Skip(wireType, old(Rest()))
    {
      hide PbWire.SkipVarint, Split;
      var data;
      if wireType == WT_VARINT {
        ok := SkipVarint();
      } else if wireType == WT_64BIT {
        ok, data := Read(8);
      } else if wireType == WT_STRING {
        ok := SkipString();
      } else if wireType == WT_32BIT {
        ok, data := Read(4);
      } else {
        ok := false;
      }
    }

    /**
     * Opens a window of the length that comes next. Until it is closed, the parent's own position
     * stays at the front of the window while its remaining length is already that of what follows.
     */
    method MakeSubstream() returns (ok: bool, sub: IStream)
      requires Valid()
      modifies this
      ensures Valid() && fresh(sub) && sub.Valid() && sub.input == input
      ensures ok <==> Split(old(Rest())).Done?
      ensures ok ==> sub.Rest() == Split(old(Rest())).value && sub.pos == pos
      ensures ok ==> pos + sub.bytesLeft + bytesLeft == old(pos + bytesLeft)
      ensures ok ==> input[pos + sub.bytesLeft..pos + sub.bytesLeft + bytesLeft] == Split(old(Rest())).rest
      ensures !ok ==> Moved()
    {
      hide PbWire.DecodeVarint32;
      var size, eof;
      ok, size, eof := DecodeVarint32Eof();
      if !ok || bytesLeft < size {
        sub := new IStream.Window(input, pos, 0);
        return false, sub;
      }
      ghost var rest := Rest();
      sub := new IStream.Window(input, pos, size);
      bytesLeft := bytesLeft - size;
      assert rest[..size] == sub.Rest();
      assert rest[size..] == input[pos + size..pos + size + bytesLeft];
    }

    /** Skips what is left in the window and continues behind it. */
    method CloseSubstream(sub: IStream) returns (ok: bool)
      requires Valid() && sub.Valid() && sub != this && sub.input == input
      requires sub.pos + sub.bytesLeft + bytesLeft <= |input|
      modifies this, sub
      ensures ok && Valid() && bytesLeft == old(bytesLeft) && pos == old(sub.pos + sub.bytesLeft)
    {
      ok := true;
      if sub.bytesLeft != 0 {
        var data;
        ok, data := sub.Read(sub.bytesLeft);
      }
      pos := sub.pos;
    }
  }
}
