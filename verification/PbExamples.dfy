/** The worked examples of the Protocol Buffers encoding guide, and one for each other kind of field. */
module PbExamples {
  import opened Bytes
  import opened PbWire
  import opened PbSchema
  import opened PbCodec

  function Number(tag: nat, ltype: LType, size: nat): Field {
    Field(tag, Required, ltype, 0, 0, size, 0, None)
  }

  /** A tag below 16 is one byte, with the wire type in its low three bits. */
  lemma OneByteTags(f: Field)
    requires 1 <= f.tag < 16
    ensures EncodeTag(f.tag, f.WireType()) == [8 * f.tag + (
      match f.ltype case VarInt | UVarInt | SVarInt => 0 case Fixed64 => 1 case Fixed32 => 5 case _ => 2)]
  {
  }

  lemma TwoBytes(v: nat)
    requires 128 <= v < 0x4000
    ensures Varint(v) == [128 + v % 128, v / 128]
  {
  }

  lemma ThreeBytes(v: nat)
    requires 0x4000 <= v < 0x20_0000
    ensures Varint(v) == [128 + v % 128, 128 + v / 128 % 128, v / 0x4000]
  {
    TwoBytes(v / 128);
    assert v / 128 / 128 == v / 0x4000;
  }

  lemma SmallInt(size: nat, i: int)
    requires (size == 4 || size == 8) && 0 <= i < 0x8000_0000
    ensures Signed(i, size) == i
  {
    hide Shl;
    ShlValues();
  }

  lemma Tagged(f: Field, v: Value, body: seq<byte>)
    requires 1 <= f.tag < 16 && EncodeValue(f, v) == Some(body)
    ensures EncodeTagged(f, v) == Some(EncodeTag(f.tag, f.WireType()) + body)
  {
    hide EncodeValue, EncodeTag;
  }

  lemma Prefixed(body: seq<byte>)
    requires |body| < 128
    ensures Delimited(body) == [|body|] + body
  {
  }

  lemma IntForm(f: Field, i: int)
    requires f.ltype.VarInt? && f.dataSize == 4 && Signed(i, 4) == i && -0x8000_0000 <= i < 0x8000_0000
    ensures EncodeScalar(f, Int(i)) == EncodeValue(f, Int(i)) == Some(Varint(if i < 0 then i + U64 else i))
  {
    hide Varint, Signed;
  }

  /** A 32-bit integer of 150, in field 1. */
  lemma Integer()
    ensures EncodeTagged(Number(1, VarInt, 4), Int(150)) == Some([0x08, 0x96, 0x01])
  {
    hide EncodeTag, EncodeValue, Varint, Signed, EncodeTagged;
    var f := Number(1, VarInt, 4);
    SmallInt(4, 150);
    IntForm(f, 150);
    TwoBytes(150);
    Tagged(f, Int(150), [0x96, 0x01]);
    OneByteTags(f);
    assert [0x08] + [0x96, 0x01] == [0x08, 0x96, 0x01];
  }

  /** The string "testing", in field 2. */
  lemma Text()
    ensures EncodeTagged(Number(2, CString, 16), Str([0x74, 0x65, 0x73, 0x74, 0x69, 0x6e, 0x67]))
         == Some([0x12, 0x07, 0x74, 0x65, 0x73, 0x74, 0x69, 0x6e, 0x67])
  {
    hide EncodeTag, Delimited, EncodeTagged;
    var f, text := Number(2, CString, 16), [0x74, 0x65, 0x73, 0x74, 0x69, 0x6e, 0x67];
    Prefixed(text);
    assert EncodeValue(f, Str(text)) == EncodeScalar(f, Str(text)) == Some([7] + text);
    Tagged(f, Str(text), [7] + text);
    OneByteTags(f);
    assert [0x12] + ([7] + text) == [0x12, 0x07, 0x74, 0x65, 0x73, 0x74, 0x69, 0x6e, 0x67];
  }

  lemma OneField(f: Field, v: Value, body: seq<byte>)
    requires f.htype.Required? && EncodeTagged(f, v) == Some(body)
    ensures EncodeFrom([f], [One(0, v)], 0) == Some(body)
  {
    hide EncodeTagged;
    var slots := [One(0, v)];
    assert EncodeFrom([f], slots, 1) == Some([]);
    assert EncodeField(f, slots[0]) == Some(body);
    assert body + [] == body;
  }

  /** The message of `Integer`, as a submessage in field 3. */
  lemma Nested()
    ensures EncodeTagged(Number(3, Submessage([Number(1, VarInt, 4)]), 4), Msg([One(0, Int(150))]))
         == Some([0x1a, 0x03, 0x08, 0x96, 0x01])
  {
    hide EncodeTag, EncodeFrom, Delimited, EncodeTagged;
    var f, slots, inner := Number(1, VarInt, 4), [One(0, Int(150))], [0x08, 0x96, 0x01];
    var outer := Number(3, Submessage([f]), 4);
    Integer();
    OneField(f, Int(150), inner);
    Prefixed(inner);
    assert EncodeValue(outer, Msg(slots)) == Framed(EncodeFrom([f], slots, 0)) == Some([3] + inner);
    Tagged(outer, Msg(slots), [3] + inner);
    OneByteTags(outer);
    assert [0x1a] + ([3] + inner) == [0x1a, 0x03, 0x08, 0x96, 0x01];
  }

  lemma PackedMore(f: Field, v: Value, rest: seq<Value>, body: seq<byte>, more: seq<byte>)
    requires f.Packable() && EncodeScalar(f, v) == Some(body) && EncodePacked(f, rest) == Some(more)
    ensures EncodePacked(f, [v] + rest) == Some(body + more)
  {
    hide EncodeScalar;
    assert ([v] + rest)[1..] == rest;
  }

  /** The packed array of 3, 270 and 86942, in field 4. */
  lemma Packed()
    ensures EncodeArray(Field(4, Repeated, VarInt, 4, -4, 4, 8, None), [Int(3), Int(270), Int(86942)])
         == Some([0x22, 0x06, 0x03, 0x8e, 0x02, 0x9e, 0xa7, 0x05])
  {
    hide EncodeTag, EncodeScalar, EncodePacked, Varint, Signed, Delimited;
    var f := Field(4, Repeated, VarInt, 4, -4, 4, 8, None);
    SmallInt(4, 3);
    SmallInt(4, 270);
    SmallInt(4, 86942);
    IntForm(f, 3);
    IntForm(f, 270);
    IntForm(f, 86942);
    OneByteVarint(3);
    TwoBytes(270);
    ThreeBytes(86942);
    NoneToPack(f);
    var items, body := [Int(3), Int(270), Int(86942)], [0x03, 0x8e, 0x02, 0x9e, 0xa7, 0x05];
    assert [0x03] + ([0x8e, 0x02] + ([0x9e, 0xa7, 0x05] + [])) == body;
    assert [Int(3)] + ([Int(270)] + ([Int(86942)] + [])) == items;
    PackedMore(f, Int(86942), [], [0x9e, 0xa7, 0x05], []);
    PackedMore(f, Int(270), [Int(86942)] + [], [0x8e, 0x02], [0x9e, 0xa7, 0x05] + []);
    PackedMore(f, Int(3), [Int(270)] + ([Int(86942)] + []), [0x03], [0x8e, 0x02] + ([0x9e, 0xa7, 0x05] + []));
    assert EncodePacked(f, items) == Some(body);
    Prefixed(body);
    OneByteTags(Number(4, CString, 0));
    assert [0x22] + ([6] + body) == [0x22, 0x06, 0x03, 0x8e, 0x02, 0x9e, 0xa7, 0x05];
  }

  lemma OneByteVarint(v: nat)
    requires v < 128
    ensures Varint(v) == [v]
  {
  }

  lemma NoneToPack(f: Field)
    requires f.Packable()
    ensures EncodePacked(f, []) == Some([])
  {
  }

  lemma {:induction false} LowByte(low: byte, v: nat, n: nat)
    ensures LittleEndian(low + 256 * v, n + 1) == [low] + LittleEndian(v, n)
  {
  }

  lemma LittleBytes()
    ensures LittleEndian(0x0403_0201, 4) == [1, 2, 3, 4] && LittleEndian(0x0403_0201, 8) == [1, 2, 3, 4, 0, 0, 0, 0]
  {
    hide LittleEndian;
    NoBytes();
    LowByte(0, 0, 0); LowByte(0, 0, 1); LowByte(0, 0, 2); LowByte(0, 0, 3);
    LowByte(4, 0, 0); LowByte(3, 4, 1); LowByte(2, 0x0403, 2); LowByte(1, 0x04_0302, 3);
    LowByte(4, 0, 4); LowByte(3, 4, 5); LowByte(2, 0x0403, 6); LowByte(1, 0x04_0302, 7);
    assert [1] + ([2] + ([3] + ([4] + []))) == [1, 2, 3, 4];
    assert [0] + ([0] + ([0] + ([0] + []))) == [0, 0, 0, 0];
    assert [1] + ([2] + ([3] + ([4] + [0, 0, 0, 0]))) == [1, 2, 3, 4, 0, 0, 0, 0];
  }

  lemma NoBytes()
    ensures LittleEndian(0, 0) == []
  {
  }

  /** Words of four and of eight bytes, lowest byte first. */
  lemma Words()
    ensures EncodeTagged(Number(1, Fixed32, 4), Int(0x0403_0201)) == Some([0x0d, 1, 2, 3, 4])
    ensures EncodeTagged(Number(1, Fixed64, 8), Int(0x0403_0201)) == Some([0x09, 1, 2, 3, 4, 0, 0, 0, 0])
  {
    hide EncodeTag, LittleEndian, EncodeTagged;
    var f, g, v := Number(1, Fixed32, 4), Number(1, Fixed64, 8), Int(0x0403_0201);
    LittleBytes();
    assert EncodeValue(f, v) == EncodeScalar(f, v) == Some([1, 2, 3, 4]);
    assert EncodeValue(g, v) == EncodeScalar(g, v) == Some([1, 2, 3, 4, 0, 0, 0, 0]);
    Tagged(f, v, [1, 2, 3, 4]);
    Tagged(g, v, [1, 2, 3, 4, 0, 0, 0, 0]);
    OneByteTags(f);
    OneByteTags(g);
    assert [0x0d] + [1, 2, 3, 4] == [0x0d, 1, 2, 3, 4];
    assert [0x09] + [1, 2, 3, 4, 0, 0, 0, 0] == [0x09, 1, 2, 3, 4, 0, 0, 0, 0];
  }

  lemma ZigZagForm(f: Field, i: int)
    requires f.ltype.SVarInt? && f.dataSize == 4 && Signed(i, 4) == i && -0x8000_0000 <= i < 0x8000_0000
    ensures EncodeValue(f, Int(i)) == Some(Varint(if i < 0 then -2 * i - 1 else 2 * i))
  {
    hide Varint, Signed, ZigZag;
    ZigZagRoundTrip(i);
  }

  /** Zigzag: -1 is written as 1 and 1 as 2. */
  lemma Interleaved()
    ensures EncodeTagged(Number(1, SVarInt, 4), Int(-1)) == Some([0x08, 0x01])
    ensures EncodeTagged(Number(1, SVarInt, 4), Int(1)) == Some([0x08, 0x02])
  {
    hide EncodeTag, EncodeValue, Varint, Signed, EncodeTagged;
    var f := Number(1, SVarInt, 4);
    MinusOne();
    SmallInt(4, 1);
    ZigZagForm(f, -1);
    ZigZagForm(f, 1);
    OneByteVarint(1);
    OneByteVarint(2);
    Tagged(f, Int(-1), [0x01]);
    Tagged(f, Int(1), [0x02]);
    OneByteTags(f);
    assert [0x08] + [0x01] == [0x08, 0x01] && [0x08] + [0x02] == [0x08, 0x02];
  }

  lemma MinusOne()
    ensures Signed(-1, 4) == -1
  {
    hide Shl;
    ShlValues();
  }

  /** A negative integer that is not zigzag takes all ten bytes. */
  lemma Negative()
    ensures EncodeTagged(Number(1, VarInt, 4), Int(-1))
         == Some([0x08, 0xff, 0xff, 0xff, 0xff, 0xff, 0xff, 0xff, 0xff, 0xff, 0x01])
  {
    hide EncodeTag, EncodeValue, Varint, Signed, EncodeTagged;
    var f, body := Number(1, VarInt, 4), [0xff, 0xff, 0xff, 0xff, 0xff, 0xff, 0xff, 0xff, 0xff, 0x01];
    MinusOne();
    IntForm(f, -1);
    AllOnesVarint();
    Tagged(f, Int(-1), body);
    OneByteTags(f);
    assert [0x08] + body == [0x08, 0xff, 0xff, 0xff, 0xff, 0xff, 0xff, 0xff, 0xff, 0xff, 0x01];
  }

  lemma AllOnesVarint()
    ensures Varint(U64 - 1) == [0xff, 0xff, 0xff, 0xff, 0xff, 0xff, 0xff, 0xff, 0xff, 0x01]
  {
    assert Varint(1) == [1];
    assert Varint(0xff) == [0xff, 0x01];
    assert Varint(0x7fff) == [0xff] + Varint(0xff);
    assert Varint(0x3f_ffff) == [0xff] + Varint(0x7fff);
    assert Varint(0x1fff_ffff) == [0xff] + Varint(0x3f_ffff);
    assert Varint(0xf_ffff_ffff) == [0xff] + Varint(0x1fff_ffff);
    assert Varint(0x7ff_ffff_ffff) == [0xff] + Varint(0xf_ffff_ffff);
    assert Varint(0x3_ffff_ffff_ffff) == [0xff] + Varint(0x7ff_ffff_ffff);
    assert Varint(0x1ff_ffff_ffff_ffff) == [0xff] + Varint(0x3_ffff_ffff_ffff);
    assert Varint(U64 - 1) == [0xff] + Varint(0x1ff_ffff_ffff_ffff);
  }
}
