/** Reassembly of one incoming DTLS handshake message: the per-byte bitmap and the message buffer. */
module Reassembly {
  import opened Bytes
  import opened Handshake

  // ---- bits of a byte ----

  predicate Bit(b: bv8, i: nat)
    requires i < 8
  {
    match i
    case 0 => b & 0x01 != 0
    case 1 => b & 0x02 != 0
    case 2 => b & 0x04 != 0
    case 3 => b & 0x08 != 0
    case 4 => b & 0x10 != 0
    case 5 => b & 0x20 != 0
    case 6 => b & 0x40 != 0
    case _ => b & 0x80 != 0
  }

  /** The bits from `start` up to, but without, `end`, all one. */
  function BitRange(start: nat, end: nat): (r: bv8)
    requires start <= 8 && end <= 8
  {
    (!(((1 as bv32) << start) - 1) & (((1 as bv32) << end) - 1) & 0xff) as bv8
  }

  function LowMask(n: nat): (r: bv8)
    requires n <= 8
  {
    match n
    case 0 => 0x00
    case 1 => 0x01
    case 2 => 0x03
    case 3 => 0x07
    case 4 => 0x0f
    case 5 => 0x1f
    case 6 => 0x3f
    case 7 => 0x7f
    case _ => 0xff
  }

  lemma LowMaskBits(n: nat, i: nat)
    requires n <= 8 && i < 8
    ensures Bit(LowMask(n), i) <==> i < n
  {
  }

  lemma BitRangeIsMask(start: nat, end: nat)
    requires start <= 8 && end <= 8
    ensures BitRange(start, end) == !LowMask(start) & LowMask(end)
  {
    var s, e := ((1 as bv32) << start) - 1, ((1 as bv32) << end) - 1;
    assert s == LowMask(start) as bv32;
    assert e == LowMask(end) as bv32;
  }

  lemma BitRangeBits(start: nat, end: nat)
    requires start <= 8 && end <= 8
    ensures forall i | 0 <= i < 8 :: Bit(BitRange(start, end), i) <==> start <= i < end
  {
    BitRangeIsMask(start, end);
    forall i | 0 <= i < 8 ensures Bit(BitRange(start, end), i) <==> start <= i < end {
      LowMaskBits(start, i);
      LowMaskBits(end, i);
      var a, b := LowMask(start), LowMask(end);
      assert Bit(!a & b, i) <==> !Bit(a, i) && Bit(b, i);
    }
  }

  lemma OrBits(a: bv8, b: bv8)
    ensures forall i | 0 <= i < 8 :: Bit(a | b, i) <==> Bit(a, i) || Bit(b, i)
  {
  }

  /** A byte is determined by its eight bits. */
  lemma SameBits(a: bv8, b: bv8)
    requires forall i | 0 <= i < 8 :: Bit(a, i) <==> Bit(b, i)
    ensures a == b
  {
    assert Bit(a, 0) <==> Bit(b, 0);
    assert Bit(a, 1) <==> Bit(b, 1);
    assert Bit(a, 2) <==> Bit(b, 2);
    assert Bit(a, 3) <==> Bit(b, 3);
    assert Bit(a, 4) <==> Bit(b, 4);
    assert Bit(a, 5) <==> Bit(b, 5);
    assert Bit(a, 6) <==> Bit(b, 6);
    assert Bit(a, 7) <==> Bit(b, 7);
  }

  // ---- bitmaps ----

  predicate BitAt(bits: seq<bv8>, i: nat)
    requires i < 8 * |bits|
  {
    Bit(bits[i / 8], i % 8)
  }

  function Clamp(n: int): (r: nat)
    ensures r <= 8
  {
    if n < 0 then 0 else if n > 8 then 8 else n
  }

  /** The bits of byte `k` that fall in the range [start, end) of the whole bitmap. */
  function RangeInByte(k: nat, start: nat, end: nat): bv8 {
    BitRange(Clamp(start - 8 * k), Clamp(end - 8 * k))
  }

  lemma RangeInByteBits(k: nat, start: nat, end: nat, j: nat)
    requires j < 8
    ensures Bit(RangeInByte(k, start, end), j) <==> start <= 8 * k + j < end
  {
    BitRangeBits(Clamp(start - 8 * k), Clamp(end - 8 * k));
  }

  lemma ConstantRanges()
    ensures BitRange(0, 8) == 0xff && BitRange(8, 8) == 0 && BitRange(0, 0) == 0
  {
    BitRangeIsMask(0, 8);
    BitRangeIsMask(8, 8);
    BitRangeIsMask(0, 0);
  }

  /** OR-ing the range into every byte adds exactly the positions of the range. */
  lemma OrRangeMarks(before: seq<bv8>, after: seq<bv8>, start: nat, end: nat, i: nat)
    requires |after| == |before| && i < 8 * |before|
    requires after[i / 8] == before[i / 8] | RangeInByte(i / 8, start, end)
    ensures BitAt(after, i) <==> BitAt(before, i) || start <= i < end
  {
    OrBits(before[i / 8], RangeInByte(i / 8, start, end));
    RangeInByteBits(i / 8, start, end, i % 8);
  }

  /** What the range looks like in each byte: empty, a tail, full, a head, or a middle part. */
  lemma RangeInByteCases(k: nat, start: nat, end: nat)
    requires start < end
    ensures k < start / 8 ==> RangeInByte(k, start, end) == 0
    ensures k > end / 8 || (k == end / 8 && end % 8 == 0) ==> RangeInByte(k, start, end) == 0
    ensures start / 8 < k < end / 8 ==> RangeInByte(k, start, end) == 0xff
    ensures start / 8 == k < end / 8 ==> RangeInByte(k, start, end) == BitRange(start % 8, 8)
    ensures start / 8 < k == end / 8 ==> RangeInByte(k, start, end) == BitRange(0, end % 8)
    ensures start / 8 == k == end / 8 ==> RangeInByte(k, start, end) == BitRange(start % 8, end % 8)
  {
    ConstantRanges();
  }

  lemma OrRangeMarksAll(before: seq<bv8>, after: seq<bv8>, start: nat, end: nat)
    requires |after| == |before|
    requires forall k | 0 <= k < |after| :: after[k] == before[k] | RangeInByte(k, start, end)
    ensures forall i | 0 <= i < 8 * |after| :: BitAt(after, i) <==> BitAt(before, i) || start <= i < end
  {
    forall i | 0 <= i < 8 * |after| ensures BitAt(after, i) <==> BitAt(before, i) || start <= i < end {
      OrRangeMarks(before, after, start, end, i);
    }
  }

  /** Sets bits [start, end) of the bitmap, a byte at a time. */
  method SetRange(bits: array<bv8>, start: nat, end: nat)
    requires start < end <= 8 * bits.Length
    modifies bits
    ensures forall k | 0 <= k < bits.Length :: bits[k] == old(bits[k]) | RangeInByte(k, start, end)
  {
    var first, last := start / 8, end / 8;
    if first == last {
      bits[first] := bits[first] | BitRange(start % 8, end % 8);
    } else {
      bits[first] := bits[first] | BitRange(start % 8, 8);
      for i := first + 1 to last
        invariant bits[first] == old(bits[first]) | BitRange(start % 8, 8)
        invariant forall k | first < k < i :: bits[k] == 0xff
        invariant forall k | 0 <= k < bits.Length && (k < first || i <= k) :: bits[k] == old(bits[k])
      {
        bits[i] := 0xff;
      }
      if end % 8 != 0 {
        bits[last] := bits[last] | BitRange(0, end % 8);
      }
    }
    forall k | 0 <= k < bits.Length ensures bits[k] == old(bits[k]) | RangeInByte(k, start, end) {
      RangeInByteCases(k, start, end);
    }
  }

  /** Whether the first `n` bits are set and nothing past them is, decided a byte at a time. */
  method AllSet(bits: array<bv8>, n: nat) returns (all: bool)
    requires n <= 8 * bits.Length < n + 8
    requires forall i | n <= i < 8 * bits.Length :: !BitAt(bits[..], i)
    ensures all <==> forall i | 0 <= i < n :: BitAt(bits[..], i)
  {
    for i := 0 to n / 8
      invariant forall k | 0 <= k < i :: bits[k] == 0xff
    {
      if bits[i] != 0xff {
        ByteNotFull(bits[..], i);
        return false;
      }
    }
    FullBytesSet(bits[..], n / 8);
    if n % 8 != 0 && bits[n / 8] != BitRange(0, n % 8) {
      TailNotFull(bits[..], n);
      return false;
    }
    TailFull(bits[..], n);
    return true;
  }

  lemma ByteNotFull(bits: seq<bv8>, k: nat)
    requires k < |bits| && bits[k] != 0xff
    ensures exists i | 8 * k <= i < 8 * k + 8 :: !BitAt(bits, i)
  {
    if forall i | 8 * k <= i < 8 * k + 8 :: BitAt(bits, i) {
      forall j | 0 <= j < 8 ensures Bit(bits[k], j) <==> Bit(0xff, j) {
        assert BitAt(bits, 8 * k + j);
        LowMaskBits(8, j);
      }
      SameBits(bits[k], 0xff);
    }
  }

  lemma FullBytesSet(bits: seq<bv8>, n: nat)
    requires n <= |bits|
    requires forall k | 0 <= k < n :: bits[k] == 0xff
    ensures forall i | 0 <= i < 8 * n :: BitAt(bits, i)
  {
    forall i | 0 <= i < 8 * n ensures BitAt(bits, i) {
      LowMaskBits(8, i % 8);
    }
  }

  lemma TailNotFull(bits: seq<bv8>, n: nat)
    requires n % 8 != 0 && n / 8 + 1 == |bits|
    requires bits[n / 8] != BitRange(0, n % 8)
    requires forall i | n <= i < 8 * |bits| :: !BitAt(bits, i)
    ensures exists i | 0 <= i < n :: !BitAt(bits, i)
  {
    if forall i | 0 <= i < n :: BitAt(bits, i) {
      BitRangeBits(0, n % 8);
      forall j | 0 <= j < 8 ensures Bit(bits[n / 8], j) <==> Bit(BitRange(0, n % 8), j) {
        assert BitAt(bits, 8 * (n / 8) + j) <==> Bit(bits[n / 8], j);
      }
      SameBits(bits[n / 8], BitRange(0, n % 8));
    }
  }

  lemma TailFull(bits: seq<bv8>, n: nat)
    requires n <= 8 * |bits| < n + 8
    requires forall i | 0 <= i < 8 * (n / 8) :: BitAt(bits, i)
    requires n % 8 != 0 ==> bits[n / 8] == BitRange(0, n % 8)
    ensures forall i | 0 <= i < n :: BitAt(bits, i)
  {
    forall i | 0 <= i < n ensures BitAt(bits, i) {
      if i >= 8 * (n / 8) {
        BitRangeBits(0, n % 8);
      }
    }
  }

  // ---- one incoming message ----

  /** Whether some of the ranges contains position `i`. */
  ghost predicate Covered(marks: seq<(nat, nat)>, i: nat) {
    exists k | 0 <= k < |marks| :: marks[k].0 <= i < marks[k].1
  }

  lemma CoveredByOneMore(marks: seq<(nat, nat)>, start: nat, end: nat, i: nat)
    ensures Covered(marks + [(start, end)], i) <==> Covered(marks, i) || start <= i < end
  {
    var more := marks + [(start, end)];
    if Covered(marks, i) {
      var k :| 0 <= k < |marks| && marks[k].0 <= i < marks[k].1;
      assert more[k] == marks[k];
    }
    if start <= i < end {
      assert more[|marks|] == (start, end);
    }
  }

  lemma CoverageGrows(marks: seq<(nat, nat)>, start: nat, end: nat, n: nat)
    ensures forall i | 0 <= i < n ::
      Covered(marks + [(start, end)], i) <==> Covered(marks, i) || start <= i < end
  {
    forall i | 0 <= i < n
      ensures Covered(marks + [(start, end)], i) <==> Covered(marks, i) || start <= i < end
    {
      CoveredByOneMore(marks, start, end, i);
    }
  }

  /** Byte `i` of the body counts as received when there is no bitmap any more or its bit is set. */
  predicate ReceivedAt(bits: Option<seq<bv8>>, i: nat) {
    bits.None? || (i < 8 * |bits.value| && BitAt(bits.value, i))
  }

  /** The body as far as it is known: the byte where one was received, None elsewhere. */
  function KnownBody(bytes: seq<byte>, bits: Option<seq<bv8>>): (r: seq<Option<byte>>)
    ensures |r| == |bytes|
    ensures forall i | 0 <= i < |r| :: r[i] == if ReceivedAt(bits, i) then Some(bytes[i]) else None
  {
    seq(|bytes|, i requires 0 <= i < |bytes| => if ReceivedAt(bits, i) then Some(bytes[i]) else None)
  }

  /** `body` after `bytes` have been received at offset `off`. */
  function Overlay(body: seq<Option<byte>>, off: nat, bytes: seq<byte>): (r: seq<Option<byte>>)
    ensures |r| == |body|
    ensures forall i | 0 <= i < |r| ::
      r[i] == if off <= i < off + |bytes| then Some(bytes[i - off]) else body[i]
  {
    seq(|body|, i requires 0 <= i < |body| =>
      if off <= i < off + |bytes| then Some(bytes[i - off]) else body[i])
  }

  function Patch(s: seq<byte>, off: nat, bytes: seq<byte>): (r: seq<byte>)
    requires off + |bytes| <= |s|
    ensures |r| == |s|
    ensures forall i | 0 <= i < |r| :: r[i] == if off <= i < off + |bytes| then bytes[i - off] else s[i]
  {
    s[..off] + bytes + s[off + |bytes|..]
  }

  /** Copying the bytes and marking their range is the overlay on the known body. */
  lemma FilledBody(data: seq<byte>, off: nat, bytes: seq<byte>, marks: seq<(nat, nat)>,
                   before: Option<seq<bv8>>, after: Option<seq<bv8>>)
    requires off + |bytes| <= |data|
    requires forall i | 0 <= i < |data| :: ReceivedAt(before, i) <==> Covered(marks, i)
    requires forall i | 0 <= i < |data| :: ReceivedAt(after, i) <==> Covered(marks + [(off, off + |bytes|)], i)
    ensures KnownBody(Patch(data, off, bytes), after) == Overlay(KnownBody(data, before), off, bytes)
  {
    CoverageGrows(marks, off, off + |bytes|, |data|);
  }

  /** All bytes of the body are known. */
  predicate Complete(body: seq<Option<byte>>) {
    forall i | 0 <= i < |body| :: body[i].Some?
  }

  class HmFragment {
    const typ: byte
    const seqNo: nat
    const msgLen: nat
    const data: array<byte>
    var reassembly: array?<bv8>
    // every range marked so far
    ghost var marks: seq<(nat, nat)>

    ghost function Bits(): Option<seq<bv8>>
      reads this, reassembly
    {
      if reassembly == null then None else Some(reassembly[..])
    }

    /** The bitmap is exactly the set of covered positions, and it is gone exactly when they are all covered. */
    ghost predicate BitmapIsCoverage()
      reads this, reassembly
    {
      && (forall i | 0 <= i < msgLen :: ReceivedAt(Bits(), i) <==> Covered(marks, i))
      && (reassembly == null <==> forall i | 0 <= i < msgLen :: Covered(marks, i))
      && (reassembly != null ==>
            && reassembly.Length == (msgLen + 7) / 8
            && forall i | msgLen <= i < 8 * reassembly.Length :: !BitAt(reassembly[..], i))
    }

    ghost predicate Valid()
      reads this, data, reassembly
    {
      && msgLen < 0x100_0000 && seqNo < 0x1_0000
      && data.Length == HEADER_LENGTH + msgLen
      && data[..HEADER_LENGTH] == EncodeHeader(Header(typ, msgLen, seqNo, 0, msgLen))
      && BitmapIsCoverage()
    }

    ghost function Body(): (r: seq<Option<byte>>)
      requires data.Length >= HEADER_LENGTH
      reads this, data, reassembly
    {
      KnownBody(data[HEADER_LENGTH..], Bits())
    }

    constructor (hdr: Header)
      requires hdr.Valid()
      ensures Valid() && fresh(data) && (reassembly != null ==> fresh(reassembly))
      ensures typ == hdr.typ && seqNo == hdr.seqNo && msgLen == hdr.msgLen && marks == []
      ensures forall i | 0 <= i < msgLen :: Body()[i] == None
    {
      typ, seqNo, msgLen := hdr.typ, hdr.seqNo, hdr.msgLen;
      data := new byte[HEADER_LENGTH + hdr.msgLen];
      reassembly := null;
      marks := [];
      new;
      var header := EncodeHeader(Header(hdr.typ, hdr.msgLen, hdr.seqNo, 0, hdr.msgLen));
      forall i | 0 <= i < HEADER_LENGTH {
        data[i] := header[i];
      }
      assert data[..HEADER_LENGTH] == header;
      if msgLen > 0 {
        reassembly := new bv8[(msgLen + 7) / 8](_ => 0);
        ZeroBitmap(reassembly[..]);
        assert !Covered(marks, 0);
      }
    }

    /** Marks bytes [start, end) as received; drops the bitmap when that completes the message. */
    method Mark(start: nat, end: nat)
      requires Valid()
      modifies this, reassembly
      ensures Valid() && (reassembly == null || reassembly == old(reassembly))
      ensures old(reassembly) == null || start > end || end > msgLen ==>
        reassembly == old(reassembly) && marks == old(marks)
      ensures old(reassembly) != null && start <= end <= msgLen ==> marks == old(marks) + [(start, end)]
    {
      if reassembly == null || start > end || end > msgLen {
        return;
      }
      ghost var before := reassembly[..];
      marks := marks + [(start, end)];
      CoverageGrows(old(marks), start, end, msgLen);
      if start == end {
        return;
      }
      SetRange(reassembly, start, end);
      OrRangeMarksAll(before, reassembly[..], start, end);
      ReleaseIfComplete();
    }

    /** Copies a fragment's bytes into the message and marks them. */
    method Fill(off: nat, bytes: seq<byte>)
      requires Valid() && reassembly != null && off + |bytes| <= msgLen
      modifies this, data, reassembly
      ensures Valid() && (reassembly == null || reassembly == old(reassembly))
      ensures marks == old(marks) + [(off, off + |bytes|)]
      ensures Body() == Overlay(old(Body()), off, bytes)
    {
      Copy(off, bytes);
      assert BitmapIsCoverage();
      Mark(off, off + |bytes|);
      FilledBody(old(data[HEADER_LENGTH..]), off, bytes, old(marks), old(Bits()), Bits());
    }

    method Copy(off: nat, bytes: seq<byte>)
      requires Valid() && off + |bytes| <= msgLen
      modifies data
      ensures Valid()
      ensures data[HEADER_LENGTH..] == Patch(old(data[HEADER_LENGTH..]), off, bytes)
    {
      forall i | 0 <= i < |bytes| {
        data[HEADER_LENGTH + off + i] := bytes[i];
      }
      assert data[..HEADER_LENGTH] == old(data[..HEADER_LENGTH]);
    }

    /** The bitmap is gone exactly when every byte of the body is known. */
    lemma CompleteIffNoBitmap()
      requires Valid()
      ensures reassembly == null <==> Complete(Body())
    {
      forall i | 0 <= i < msgLen ensures Body()[i].Some? <==> Covered(marks, i) {
        assert ReceivedAt(Bits(), i) <==> Covered(marks, i);
      }
    }

    lemma AllCovered(bits: seq<bv8>, n: nat)
      requires n <= 8 * |bits|
      requires forall i | 0 <= i < n :: BitAt(bits, i)
      requires forall i | 0 <= i < n :: BitAt(bits, i) <==> Covered(marks, i)
      ensures forall i | 0 <= i < n :: Covered(marks, i)
    {
      forall i | 0 <= i < n ensures Covered(marks, i) {
        assert BitAt(bits, i);
      }
    }

    /** Drops the bitmap if the message is complete. */
    method ReleaseIfComplete()
      requires reassembly != null && reassembly.Length == (msgLen + 7) / 8
      requires forall i | 0 <= i < msgLen :: BitAt(reassembly[..], i) <==> Covered(marks, i)
      requires forall i | msgLen <= i < 8 * reassembly.Length :: !BitAt(reassembly[..], i)
      modifies this`reassembly
      ensures BitmapIsCoverage() && (reassembly == null || reassembly == old(reassembly))
    {
      var all := AllSet(reassembly, msgLen);
      if all {
        AllCovered(reassembly[..], msgLen);
        reassembly := null;
      } else {
        assert Bits() == Some(reassembly[..]);
        var i :| 0 <= i < msgLen && !BitAt(reassembly[..], i);
        assert !Covered(marks, i);
      }
    }
  }

  lemma ZeroBitmap(bits: seq<bv8>)
    requires forall k | 0 <= k < |bits| :: bits[k] == 0
    ensures forall i | 0 <= i < 8 * |bits| :: !BitAt(bits, i)
  {
    forall i | 0 <= i < 8 * |bits| ensures !BitAt(bits, i) {
      LowMaskBits(0, i % 8);
    }
  }
}
