/** Exactly which values the decoders of the field types accept, on every input. */
module PbScalars {
  import opened Bytes
  import opened PbWire
  import opened PbSchema
  import opened PbCodec
  import opened PbRoundTrip
  import opened PbRequired
  import opened PbRestore

  // ---- integers ----

  /** Half of the range of a cell. */
  function Half(size: nat): int
    requires IntSize(size)
  {
    if size == 1 then 0x80 else if size == 2 then 0x8000 else if size == 4 then 0x8000_0000 else 0x8000_0000_0000_0000
  }

  lemma Low(r: int, limit: int)
    requires limit == 0x100 || limit == 0x1_0000 || limit == U32 || limit == U64
    requires 0 <= r < limit
    ensures (r - limit) % limit == r && r % limit == r
  {
    if limit == 0x100 {
    } else if limit == 0x1_0000 {
    } else if limit == U32 {
    } else {
    }
  }

  /** The number of the range with the same low bits. */
  lemma {:induction false} SignedIff(i: int, size: nat)
    requires IntSize(size)
    ensures Signed(i, size) == i <==> -Half(size) <= i < Half(size)
    ensures -Half(size) <= Signed(i, size) < Half(size) && Signed(i, size) % (2 * Half(size)) == i % (2 * Half(size))
  {
    hide Shl;
    ShlIsLimit(size);
    var limit := 2 * Half(size);
    assert Limit(size) == limit;
    Low(i % limit, limit);
    if 0 <= i < limit {
      Low(i, limit);
    } else if -limit <= i < 0 {
      Low(i + limit, limit);
    }
  }

  /** An unsigned cell takes exactly the numbers in its range. */
  lemma {:induction false} UnsignedAcceptedIff(f: Field, s: seq<byte>)
    requires f.ltype.UVarInt? && IntSize(f.dataSize)
    ensures DecodeInt(f, s).Done? <==> DecodeVarint(s).Done? && DecodeVarint(s).value < 2 * Half(f.dataSize)
    ensures DecodeInt(f, s).Done? ==> DecodeInt(f, s) == Done(Int(DecodeVarint(s).value), DecodeVarint(s).rest)
  {
    hide DecodeVarint, Shl;
    ShlIsLimit(f.dataSize);
  }

  /** A zigzag cell takes exactly the numbers in its range. */
  lemma {:induction false} ZigZagAcceptedIff(f: Field, s: seq<byte>)
    requires f.ltype.SVarInt? && IntSize(f.dataSize)
    ensures DecodeInt(f, s).Done? <==>
      DecodeVarint(s).Done? && -Half(f.dataSize) <= UnZigZag(DecodeVarint(s).value % U64) < Half(f.dataSize)
    ensures DecodeInt(f, s).Done? ==> DecodeInt(f, s) == Done(Int(UnZigZag(DecodeVarint(s).value % U64)), DecodeVarint(s).rest)
  {
    hide DecodeVarint, Shl, Signed, UnZigZag;
    if DecodeVarint(s).Done? {
      SignedIff(UnZigZag(DecodeVarint(s).value % U64), f.dataSize);
    }
  }

  /**
   * A signed cell takes exactly the numbers in its range. A cell of less than eight bytes looks at no more than the low
   * 32 bits of the varint.
   */
  lemma {:induction false} SignedAcceptedIff(f: Field, s: seq<byte>) returns (i: int)
    requires f.ltype.VarInt? && IntSize(f.dataSize) && DecodeVarint(s).Done?
    ensures var width := if f.dataSize == 8 then 8 else 4;
      -Half(width) <= i < Half(width) && i % (2 * Half(width)) == DecodeVarint(s).value % (2 * Half(width))
    ensures DecodeInt(f, s).Done? <==> -Half(f.dataSize) <= i < Half(f.dataSize)
    ensures DecodeInt(f, s).Done? ==> DecodeInt(f, s) == Done(Int(i), DecodeVarint(s).rest)
  {
    hide DecodeVarint, Shl, Signed;
    var width := if f.dataSize == 8 then 8 else 4;
    i := Signed(DecodeVarint(s).value, width);
    SignedIff(DecodeVarint(s).value, width);
    SignedIff(i, f.dataSize);
  }

  // ---- bytes and strings ----

  /** Bytes are taken exactly if all of them are there and fit behind the size. */
  lemma {:induction false} BytesAcceptedIff(f: Field, s: seq<byte>)
    requires f.ltype.BytesArray? && FieldValid(f)
    ensures DecodeScalar(f, s).Done? <==> Split(s).Done? && |Split(s).value| + BYTES_OFFSET <= f.dataSize
    ensures DecodeScalar(f, s).Done? ==> DecodeScalar(f, s) == Done(Blob(Split(s).value), Split(s).rest)
  {
    hide DecodeVarint32;
  }

  /** A string is taken exactly if all of it is there and leaves room for the terminator; it ends at the first NUL. */
  lemma {:induction false} StringAcceptedIff(f: Field, s: seq<byte>)
    requires f.ltype.CString? && FieldValid(f)
    ensures DecodeScalar(f, s).Done? <==> Split(s).Done? && |Split(s).value| + 1 <= f.dataSize
    ensures DecodeScalar(f, s).Done? ==> DecodeScalar(f, s) == Done(Str(UpToNul(Split(s).value)), Split(s).rest)
  {
    hide DecodeVarint32, UpToNul;
    var len := DecodeVarint32(s);
    if len.Done? && len.value + 1 < U32 {
      SmallRemainder(len.value + 1, U32);
    }
  }

  /** Bytes of a fixed length are taken exactly if they have it, or are none; none stands for zeros. */
  lemma {:induction false} FixedBytesAcceptedIff(f: Field, s: seq<byte>)
    requires f.ltype.FixedLengthBytes? && FieldValid(f)
    ensures DecodeScalar(f, s).Done? <==> Split(s).Done? && (Split(s).value == [] || |Split(s).value| == f.dataSize)
    ensures DecodeScalar(f, s).Done? ==>
      DecodeScalar(f, s) == Done(Blob(if Split(s).value == [] then seq(f.dataSize, _ => 0) else Split(s).value), Split(s).rest)
  {
    hide DecodeVarint32;
    var len := DecodeVarint32(s);
    if len.Done? && len.value == 0 {
      assert len.rest[0..] == len.rest;
    }
  }

  // ---- arrays ----

  lemma {:induction false} PackedNoLonger(f: Field, room: nat, s: seq<byte>)
    requires f.Packable()
    ensures DecodePacked(f, |s|, s).Some? && |DecodePacked(f, |s|, s).value| <= room ==>
      DecodePacked(f, room, s) == DecodePacked(f, |s|, s)
    decreases |s|
  {
    hide DecodeScalar;
    if s != [] && DecodeScalar(f, s).Done? {
      var rest := DecodeScalar(f, s).rest;
      if DecodePacked(f, |s| - 1, rest).Some? {
        PackedAnyRoom(f, |s| - 1, rest);
        if room > 0 {
          PackedNoLonger(f, room - 1, rest);
        }
      }
    }
  }

  /** An array never has more entries than bytes, so that much room is enough. */
  lemma {:induction false} PackedAnyRoom(f: Field, room: nat, s: seq<byte>)
    requires f.Packable() && room >= |s|
    ensures DecodePacked(f, room, s) == DecodePacked(f, |s|, s)
    decreases |s|
  {
    hide DecodeScalar;
    if s != [] && DecodeScalar(f, s).Done? {
      var rest := DecodeScalar(f, s).rest;
      PackedAnyRoom(f, room - 1, rest);
      PackedAnyRoom(f, |s| - 1, rest);
    }
  }

  /** A packed array is taken exactly if all its entries can be read and there are no more than fit. */
  lemma {:induction false} PackedAcceptedIff(f: Field, room: nat, s: seq<byte>)
    requires f.Packable()
    ensures DecodePacked(f, room, s).Some? <==> DecodePacked(f, |s|, s).Some? && |DecodePacked(f, |s|, s).value| <= room
    ensures DecodePacked(f, room, s).Some? ==> DecodePacked(f, room, s) == DecodePacked(f, |s|, s)
  {
    hide DecodePacked;
    PackedNoLonger(f, room, s);
    if DecodePacked(f, room, s).Some? {
      if room >= |s| {
        PackedAnyRoom(f, room, s);
      } else {
        MoreRoom(f, room, |s|, s);
      }
    }
  }

  /** One more entry behind those that have come: exactly if there is room for it. */
  lemma {:induction false} EntriesAcceptedIff(fields: seq<Field>, i: nat, wireType: nat, st: Progress, s: seq<byte>)
    requires i < |fields| == |st.slots| && fields[i].htype.Repeated?
    ensures var f := fields[i]; var count := CountOf(f, ItemsOf(f, st.slots[Home(fields, i)]), st);
      var r := DecodeRepeated(fields, i, wireType, st, s);
      if wireType == 2 && f.Packable() then
        && (r.Done? <==>
              && Split(s).Done? && var vs := DecodePacked(f, |Split(s).value|, Split(s).value);
                 vs.Some? && (vs.value == [] || count + |vs.value| <= f.arraySize))
        && (r.Done? ==>
              var vs := DecodePacked(f, |Split(s).value|, Split(s).value).value;
              r == Done(AddItems(fields, i, st, vs), Split(s).rest))
      else
        && (r.Done? <==> count + 1 <= f.arraySize && DecodeValue(f, Junk, s).Done?)
        && (r.Done? ==> r == Done(AddItems(fields, i, st, [DecodeValue(f, Junk, s).value]), DecodeValue(f, Junk, s).rest))
  {
    hide DecodeValue, DecodePacked, Split, AddItems, CountOf, ItemsOf;
    var f := fields[i];
    var count := CountOf(f, ItemsOf(f, st.slots[Home(fields, i)]), st);
    if wireType == WT_STRING && f.Packable() && Split(s).Done? {
      PackedAcceptedIff(f, if count < f.arraySize then f.arraySize - count else 0, Split(s).value);
    }
  }

  // ---- what the encoder refuses ----

  /** Of single values the encoder refuses exactly integers of a size that there is not, and bytes that do not fit. */
  lemma {:induction false} ScalarEncodesIff(f: Field, v: Value)
    requires !f.ltype.Submessage?
    ensures EncodeScalar(f, v).Some? <==>
      && (f.ltype.VarInt? || f.ltype.UVarInt? || f.ltype.SVarInt? ==> f.dataSize in {1, 2, 4, 8})
      && (f.ltype.BytesArray? && v.Blob? ==> |v.b| + BYTES_OFFSET <= f.dataSize)
      && (f.ltype.BytesArray? && !v.Blob? ==> BYTES_OFFSET <= f.dataSize)
  {
    hide Shl, Varint, LittleEndian, Delimited;
  }

  /** Of a string the longest part is written that the cell has room for. */
  lemma {:induction false} StringWritten(f: Field, s: seq<byte>) returns (part: seq<byte>)
    requires f.ltype.CString?
    ensures part <= s && |part| <= f.dataSize && (part == s || |part| == f.dataSize)
    ensures EncodeScalar(f, Str(s)) == Some(Delimited(part))
  {
    hide Delimited;
    part := if |s| <= f.dataSize then s else s[..f.dataSize];
  }

  lemma {:induction false} ItemsEncodeIff(f: Field, items: seq<Value>)
    ensures EncodeItems(f, items).Some? <==> forall k | 0 <= k < |items| :: EncodeValue(f, items[k]).Some?
    decreases |items|
  {
    hide EncodeValue;
    if items != [] {
      ItemsEncodeIff(f, items[1..]);
      assert forall k | 1 <= k < |items| :: items[k] == items[1..][k - 1];
      assert forall k | 0 <= k < |items| - 1 :: items[1..][k] == items[k + 1];
    }
  }

  lemma {:induction false} PackedEncodeIff(f: Field, items: seq<Value>)
    requires f.Packable()
    ensures EncodePacked(f, items).Some? <==> forall k | 0 <= k < |items| :: EncodeValue(f, items[k]).Some?
    decreases |items|
  {
    hide EncodeScalar;
    if items != [] {
      PackedEncodeIff(f, items[1..]);
      assert EncodeValue(f, items[0]) == EncodeScalar(f, items[0]);
      assert forall k | 1 <= k < |items| :: items[k] == items[1..][k - 1];
      assert forall k | 0 <= k < |items| - 1 :: items[1..][k] == items[k + 1];
    }
  }

  /** An array is refused exactly if it has more entries than there is room for, or one of them is refused. */
  lemma {:induction false} ArrayEncodesIff(f: Field, items: seq<Value>)
    ensures EncodeArray(f, items).Some? <==>
      items == [] || (|items| <= f.arraySize && forall k | 0 <= k < |items| :: EncodeValue(f, items[k]).Some?)
  {
    hide EncodeValue, EncodeItems, EncodePacked;
    ItemsEncodeIff(f, items);
    if f.Packable() {
      PackedEncodeIff(f, items);
    }
  }

  /** Of the proto3 fields that are no messages, exactly those that are zero are not written, bytes of a fixed length aside. */
  lemma {:induction false} ZeroIsNotWritten(f: Field, s: Slot)
    requires FieldValid(f) && f.Singular() && !f.ltype.Submessage? && SlotStorable(f, s)
    ensures EncodeField(f, s) == Some([]) <==> if f.ltype.FixedLengthBytes? then f.dataSize == 0 else s.v == ZeroValue(f)
  {
    hide EncodeScalar, Shl, Varint;
    TagIsSomething(f);
    if f.ltype.VarInt? || f.ltype.UVarInt? || f.ltype.SVarInt? {
      LoadIsZero(f, s.v);
    } else if f.ltype.Fixed32? || f.ltype.Fixed64? {
      ShlValues();
      SmallRemainder(s.v.i, if f.ltype.Fixed32? then U32 else U64);
    }
  }

  lemma TagIsSomething(f: Field)
    ensures |EncodeTag(f.tag, f.WireType())| >= 1
  {
  }

  lemma {:induction false} LoadIsZero(f: Field, v: Value)
    requires (f.ltype.VarInt? || f.ltype.UVarInt? || f.ltype.SVarInt?) && Storable(f, v)
    ensures v.Int? && (Load(f, v) == 0 <==> v.i == 0)
  {
    hide Shl, Storable;
    StoresInt(f, v);
    if v.i == 0 {
      ShlPositive(8 * f.dataSize);
      SmallRemainder(0, Shl(1, 8 * f.dataSize));
    } else if Load(f, v) == 0 {
      ZeroInt(f, v);
    }
  }

  lemma {:induction false} StoresInt(f: Field, v: Value)
    requires (f.ltype.VarInt? || f.ltype.UVarInt? || f.ltype.SVarInt?) && Storable(f, v)
    ensures v.Int?
  {
    hide Signed, Shl;
  }
}
