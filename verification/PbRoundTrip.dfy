/** Decoding undoes encoding, for every table and every struct that the table can describe. */
module PbRoundTrip {
  import opened Bytes
  import opened PbWire
  import opened PbSchema
  import opened PbCodec

  // ---- single values ----

  /** A value that its cell can hold; a string must leave room for its terminator. */
  predicate Storable(f: Field, v: Value)
    decreases f, 0
  {
    match f.ltype
    case VarInt | SVarInt => v.Int? && IntSize(f.dataSize) && Signed(v.i, f.dataSize) == v.i
    case UVarInt => v.Int? && IntSize(f.dataSize) && 0 <= v.i < Shl(1, 8 * f.dataSize)
    case Fixed32 => v.Int? && 0 <= v.i < U32 && f.dataSize == 4
    case Fixed64 => v.Int? && 0 <= v.i < U64 && f.dataSize == 8
    case BytesArray => v.Blob? && |v.b| + BYTES_OFFSET <= f.dataSize
    case CString => v.Str? && 0 !in v.s && |v.s| < f.dataSize
    case FixedLengthBytes => v.Blob? && |v.b| == f.dataSize
    case Submessage(fields) => v.Msg? && |v.slots| == |fields| && AllStorable(fields, v.slots)
  }

  /** A union holds a value of the selected member; an absent optional cell may hold anything. */
  predicate SlotStorable(f: Field, s: Slot)
    decreases f, 1
  {
    match f.htype
    case Required => s.One? && s.flag == 0 && Storable(f, s.v)
    case Optional =>
      if f.Singular() then s.One? && s.flag == 0 && Storable(f, s.v)
      else s.One? && s.flag <= 1 && (s.flag == 1 ==> Storable(f, s.v))
    case Repeated =>
      && s.Many? && (if f.FixedCount() then |s.items| == f.arraySize else |s.items| <= f.arraySize)
      && forall k | 0 <= k < |s.items| :: Storable(f, s.items[k])
    case Oneof => s.One? && (s.flag == f.tag ==> Storable(f, s.v))
  }

  predicate AllStorable(fields: seq<Field>, slots: seq<Slot>)
    requires |slots| == |fields|
    decreases fields
  {
    forall i | 0 <= i < |fields| :: SlotStorable(fields[i], slots[Home(fields, i)])
  }

  function Limit(size: nat): nat
    requires IntSize(size)
  {
    if size == 1 then 0x100 else if size == 2 then 0x1_0000 else if size == 4 then U32 else U64
  }

  lemma {:induction false} ShlIsLimit(size: nat)
    requires IntSize(size)
    ensures Shl(1, 8 * size) == Limit(size)
  {
    hide Shl;
    ShlValues();
    ShlDouble(1, 7); ShlDouble(1, 14); ShlDouble(1, 15);
    ShlSeven(1, 7);
  }

  lemma {:induction false} WrapAround(i: int, size: nat)
    requires IntSize(size)
    ensures (i + U64) % Limit(size) == i % Limit(size)
  {
  }

  lemma {:induction false} SignedWraps(i: int, size: nat)
    requires IntSize(size)
    ensures Signed(i + U64, size) == Signed(i, size)
  {
    hide Shl, Limit;
    ShlIsLimit(size);
    WrapAround(i, size);
  }

  /** A number that fits a small cell keeps its value when it is first cut to 32 bits. */
  lemma {:induction false} SignedNested(i: int, size: nat)
    requires IntSize(size) && size != 8 && Signed(i, size) == i
    ensures Signed(i, 4) == i
  {
    hide Shl;
    ShlIsLimit(size);
    ShlIsLimit(4);
  }

  lemma {:induction false} IntRoundTrip(f: Field, v: Value, rest: seq<byte>)
    requires (f.ltype.VarInt? || f.ltype.UVarInt? || f.ltype.SVarInt?) && Storable(f, v)
    ensures EncodeInt(f, v).Some? && DecodeInt(f, EncodeInt(f, v).value + rest) == Done(v, rest)
  {
    hide Shl, Varint, DecodeVarint, Signed;
    SignedRange(v.i, f.dataSize);
    if f.ltype.UVarInt? {
      SmallRemainder(v.i, Shl(1, 8 * f.dataSize));
      VarintRoundTrip(v.i, rest);
    } else if f.ltype.SVarInt? {
      ZigZagRoundTrip(v.i);
      VarintRoundTrip(ZigZag(v.i), rest);
    } else {
      VarintRoundTrip(Unsigned(v.i), rest);
      SignedWraps(v.i, if f.dataSize == 8 then 8 else 4);
      if f.dataSize != 8 { SignedNested(v.i, f.dataSize); }
    }
  }

  lemma {:induction false} FixedRoundTrip(i: nat, n: nat, rest: seq<byte>)
    requires i < Shl(1, 8 * n)
    ensures DecodeFixed(n, LittleEndian(i, n) + rest) == Done(Int(i), rest)
  {
    LittleEndianRoundTrip(i, n);
    var s := LittleEndian(i, n) + rest;
    assert s[..n] == LittleEndian(i, n) && s[n..] == rest;
  }

  lemma {:induction false} LengthRoundTrip(b: seq<byte>, rest: seq<byte>)
    requires |b| < U32
    ensures DecodeVarint32(Delimited(b) + rest) == Done(|b|, b + rest)
    ensures Take(|b|, b + rest) == Done(b, rest)
  {
    hide DecodeVarint32, Delimited;
    DelimitedShort(b);
    assert Delimited(b) + rest == Varint(|b|) + (b + rest);
    Varint32Exact(|b|, b + rest);
    assert (b + rest)[..|b|] == b && (b + rest)[|b|..] == rest;
  }

  lemma {:induction false} UpToNulWhole(s: seq<byte>)
    requires 0 !in s
    ensures UpToNul(s) == s
  {
    if s != [] {
      assert 0 !in s[1..];
      UpToNulWhole(s[1..]);
      assert s == [s[0]] + s[1..];
    }
  }

  lemma {:induction false} BlobRoundTrip(f: Field, v: Value, rest: seq<byte>)
    requires (f.ltype.BytesArray? || f.ltype.CString? || f.ltype.FixedLengthBytes?) && Storable(f, v)
    requires f.dataSize <= PB_SIZE_MAX
    ensures EncodeScalar(f, v).Some? && DecodeScalar(f, EncodeScalar(f, v).value + rest) == Done(v, rest)
  {
    hide DecodeVarint32, Delimited, Take;
    var b := if f.ltype.CString? then v.s else v.b;
    LengthRoundTrip(b, rest);
    if f.ltype.CString? {
      UpToNulWhole(b);
    } else if f.ltype.FixedLengthBytes? && |b| == 0 {
      assert b + rest == rest && b == seq(f.dataSize, _ => 0);
    }
  }

  lemma {:induction false} WordRoundTrip(f: Field, v: Value, rest: seq<byte>)
    requires (f.ltype.Fixed32? || f.ltype.Fixed64?) && Storable(f, v)
    ensures EncodeScalar(f, v).Some? && DecodeScalar(f, EncodeScalar(f, v).value + rest) == Done(v, rest)
  {
    hide DecodeFixed, LittleEndian, Shl;
    ShlValues();
    SmallRemainder(v.i, if f.ltype.Fixed32? then U32 else U64);
    FixedRoundTrip(v.i, if f.ltype.Fixed32? then 4 else 8, rest);
  }

  lemma {:induction false} ScalarRoundTrip(f: Field, v: Value, rest: seq<byte>)
    requires !f.ltype.Submessage? && Storable(f, v) && f.dataSize <= PB_SIZE_MAX
    ensures EncodeScalar(f, v).Some? && DecodeScalar(f, EncodeScalar(f, v).value + rest) == Done(v, rest)
  {
    hide EncodeInt, DecodeInt, DecodeFixed, DecodeBlob, DecodeString, DecodeFixedBytes, Storable, LittleEndian, Delimited;
    match f.ltype
    case Fixed32 | Fixed64 => WordRoundTrip(f, v, rest);
    case VarInt | UVarInt | SVarInt => IntRoundTrip(f, v, rest);
    case _ => BlobRoundTrip(f, v, rest);
  }

  // ---- what the decoder leaves behind ----

  /** The value as decoding restores it: what its struct does not set is back at the defaults. */
  function CanonValue(f: Field, v: Value): Value
    decreases f, 0
  {
    if f.ltype.Submessage? then Msg(Canon(f.ltype.fields, SlotsOf(v, f.ltype.fields))) else v
  }

  function CanonItems(f: Field, items: seq<Value>): (r: seq<Value>)
    ensures |r| == |items|
    decreases f, 1, |items|
  {
    if items == [] then [] else [CanonValue(f, items[0])] + CanonItems(f, items[1..])
  }

  /** The effect of entry `i`, if it is present. */
  function Recorded(fields: seq<Field>, slots: seq<Slot>, i: nat, st: Progress): (r: Progress)
    requires i < |fields| == |slots| == |st.slots|
    ensures |r.slots| == |fields|
    decreases fields, 0
  {
    var f, h := fields[i], Home(fields, i);
    if !Present(f, slots[h]) then st
    else if f.htype.Repeated? then
      AddItems(fields, i, Entered(fields, i, st), CanonItems(f, ItemsOf(f, slots[h])))
    else
      Entered(fields, i, st).(slots := st.slots[h := One(PresentFlag(f), CanonValue(f, ValueOf(slots[h])))])
  }

  /** The decoder's state once the entries before `i` have been read. */
  function After(fields: seq<Field>, slots: seq<Slot>, i: nat): (r: Progress)
    requires i <= |fields| == |slots|
    ensures |r.slots| == |fields|
    decreases fields, 1, i
  {
    if i == 0 then Start(InitSlots(fields)) else Recorded(fields, slots, i - 1, After(fields, slots, i - 1))
  }

  function Canon(fields: seq<Field>, slots: seq<Slot>): (r: seq<Slot>)
    requires |fields| == |slots|
    ensures |r| == |fields|
    decreases fields, 2
  {
    After(fields, slots, |fields|).slots
  }

  // ---- one field at a time ----

  /** The loop reads a tag, finds its entry, and hands it the bytes that follow. */
  lemma {:induction false} TaggedStep(fields: seq<Field>, i: nat, wireType: nat, st: Progress, body: seq<byte>, rest: seq<byte>)
    requires i < |fields| == |st.slots| && DistinctTags(fields) && FieldValid(fields[i]) && wireType < 8
    requires DecodeField(fields, i, wireType, st, body + rest).Done?
    ensures var r := DecodeField(fields, i, wireType, st, body + rest);
      DecodeFields(fields, st, EncodeTag(fields[i].tag, wireType) + body + rest) == DecodeFields(fields, r.value, r.rest)
  {
    hide EncodeTag, DecodeTag, DecodeField, Find;
    var tag := EncodeTag(fields[i].tag, wireType);
    TagRoundTrip(fields[i].tag, wireType, body + rest);
    assert tag + body + rest == tag + (body + rest);
    FindDistinct(fields, i);
  }

  /** A slot that holds an array as the table describes it. */
  predicate HoldsArray(f: Field, s: Slot) {
    s.Many? && (f.FixedCount() ==> |s.items| == f.arraySize)
  }

  lemma {:induction false} AddNone(fields: seq<Field>, i: nat, st: Progress)
    requires i < |fields| == |st.slots| && HoldsArray(fields[i], st.slots[Home(fields, i)])
    requires CountOf(fields[i], ItemsOf(fields[i], st.slots[Home(fields, i)]), st) <= fields[i].arraySize
    ensures AddItems(fields, i, st, []) == st
  {
    var h := Home(fields, i);
    var items := st.slots[h].items;
    assert items + [] == items;
    assert fields[i].FixedCount() ==> items[..st.fixedSize] + [] + items[st.fixedSize..] == items;
    assert st.slots[h := Many(items)] == st.slots;
  }

  lemma {:induction false} PlaceTwice(f: Field, items: seq<Value>, count: nat, a: seq<Value>, b: seq<Value>)
    requires f.FixedCount() ==> count + |a| + |b| <= |items|
    ensures PlaceItems(f, PlaceItems(f, items, count, a), if f.FixedCount() then count + |a| else |items| + |a|, b)
         == PlaceItems(f, items, count, a + b)
  {
    assert items + a + b == items + (a + b);
    if f.FixedCount() {
      var once := items[..count] + a + items[count + |a|..];
      assert once[..count + |a|] == items[..count] + a;
      assert once[count + |a| + |b|..] == items[count + |a| + |b|..];
      assert items[..count] + a + b == items[..count] + (a + b);
    }
  }

  lemma {:induction false} AddTwice(fields: seq<Field>, i: nat, st: Progress, a: seq<Value>, b: seq<Value>)
    requires i < |fields| == |st.slots| && HoldsArray(fields[i], st.slots[Home(fields, i)])
    requires CountOf(fields[i], ItemsOf(fields[i], st.slots[Home(fields, i)]), st) + |a| + |b| <= fields[i].arraySize
    ensures HoldsArray(fields[i], AddItems(fields, i, st, a).slots[Home(fields, i)])
    ensures CountOf(fields[i], ItemsOf(fields[i], AddItems(fields, i, st, a).slots[Home(fields, i)]), AddItems(fields, i, st, a))
         == CountOf(fields[i], ItemsOf(fields[i], st.slots[Home(fields, i)]), st) + |a|
    ensures AddItems(fields, i, AddItems(fields, i, st, a), b) == AddItems(fields, i, st, a + b)
  {
    var f, h := fields[i], Home(fields, i);
    var items := st.slots[h].items;
    var count := CountOf(f, items, st);
    PlaceTwice(f, items, count, a, b);
    assert st.slots[h := Many(PlaceItems(f, items, count, a))][h := Many(PlaceItems(f, items, count, a + b))]
        == st.slots[h := Many(PlaceItems(f, items, count, a + b))];
  }

  lemma {:induction false} PackedRoundTrip(f: Field, items: seq<Value>, room: nat)
    requires f.Packable() && f.dataSize <= PB_SIZE_MAX && |items| <= room
    requires forall k | 0 <= k < |items| :: Storable(f, items[k])
    ensures EncodePacked(f, items).Some? && DecodePacked(f, room, EncodePacked(f, items).value) == Some(items)
    decreases |items|
  {
    hide EncodeScalar, DecodeScalar, Storable;
    if items != [] {
      PackedRoundTrip(f, items[1..], room - 1);
      var rest := EncodePacked(f, items[1..]).value;
      ScalarRoundTrip(f, items[0], rest);
      ScalarNonEmpty(f, items[0], rest);
      assert items == [items[0]] + items[1..];
    }
  }

  lemma {:induction false} ScalarNonEmpty(f: Field, v: Value, rest: seq<byte>)
    requires !f.ltype.Submessage? && EncodeScalar(f, v).Some? && DecodeScalar(f, EncodeScalar(f, v).value + rest) == Done(v, rest)
    ensures EncodeScalar(f, v).value + rest != []
  {
    hide EncodeScalar, DecodeScalar;
  }

  lemma {:induction false} CanonScalars(f: Field, items: seq<Value>)
    requires !f.ltype.Submessage?
    ensures CanonItems(f, items) == items
    decreases |items|
  {
    if items != [] {
      CanonScalars(f, items[1..]);
      assert items == [items[0]] + items[1..];
    }
  }

  lemma {:induction false} ValueRoundTrip(f: Field, v: Value, prev: Value, rest: seq<byte>)
    requires FieldValid(f) && Storable(f, v) && EncodeValue(f, v).Some? && |EncodeValue(f, v).value| < U32
    requires f.ltype.Submessage? && !f.htype.Repeated? && !f.htype.Oneof? ==>
      SlotsOf(prev, f.ltype.fields) == InitSlots(f.ltype.fields)
    ensures DecodeValue(f, prev, EncodeValue(f, v).value + rest) == Done(CanonValue(f, v), rest)
    decreases f, 0
  {
    hide EncodeScalar, DecodeScalar, Split, Delimited, InitSlots, After, DecodeMessage;
    if f.ltype.Submessage? {
      var fields := f.ltype.fields;
      var body := EncodeFrom(fields, v.slots, 0).value;
      SplitRoundTrip(body, rest);
      MessageRoundTrip(fields, v.slots);
    } else {
      ScalarRoundTrip(f, v, rest);
    }
  }

  /** A field that is not an array, read after the entries before it. */
  lemma {:induction false} SingleStep(fields: seq<Field>, slots: seq<Slot>, i: nat, st: Progress, rest: seq<byte>)
    requires i < |fields| == |slots| == |st.slots| && DistinctTags(fields) && FieldValid(fields[i])
    requires !fields[i].htype.Repeated? && SlotStorable(fields[i], slots[Home(fields, i)])
    requires Present(fields[i], slots[Home(fields, i)]) && (!fields[i].htype.Oneof? ==> st.slots[i] == InitSlot(fields[i]))
    requires var e := EncodeField(fields[i], slots[Home(fields, i)]); e.Some? && |e.value| < U32
    ensures var e := EncodeField(fields[i], slots[Home(fields, i)]).value;
      DecodeFields(fields, st, e + rest) == DecodeFields(fields, Recorded(fields, slots, i, st), rest)
    decreases fields[i], 5
  {
    hide EncodeTag, Storable, FieldValid, DecodeFields, DistinctTags, EncodeValue, DecodeValue, CanonValue, Proto3Default;
    var f, h := fields[i], Home(fields, i);
    var v := ValueOf(slots[h]);
    var body := EncodeValue(f, v).value;
    ValueRoundTrip(f, v, ValueOf(st.slots[h]), rest);
    TaggedStep(fields, i, f.WireType(), st, body, rest);
  }

  /** Entries of an array that is not packed, one tag each. */
  lemma {:induction false} ItemsStep(fields: seq<Field>, i: nat, st: Progress, items: seq<Value>, rest: seq<byte>)
    requires i < |fields| == |st.slots| && DistinctTags(fields) && FieldValid(fields[i])
    requires fields[i].htype.Repeated? && !fields[i].Packable() && HoldsArray(fields[i], st.slots[Home(fields, i)])
    requires CountOf(fields[i], ItemsOf(fields[i], st.slots[Home(fields, i)]), st) + |items| <= fields[i].arraySize
    requires !Switches(fields, i, st)
    requires forall k | 0 <= k < |items| :: Storable(fields[i], items[k])
    requires EncodeItems(fields[i], items).Some? && |EncodeItems(fields[i], items).value| < U32
    ensures DecodeFields(fields, st, EncodeItems(fields[i], items).value + rest)
         == DecodeFields(fields, AddItems(fields, i, st, CanonItems(fields[i], items)), rest)
    decreases fields[i], 5, |items|
  {
    hide EncodeTag, Storable, FieldValid, DecodeFields, DistinctTags, EncodeValue, DecodeValue, CanonValue, AddItems,
      HoldsArray, CountOf, ItemsOf;
    var f := fields[i];
    if items == [] {
      AddNone(fields, i, st);
      assert [] + rest == rest;
    } else {
      var c, cs := CanonValue(f, items[0]), CanonItems(f, items[1..]);
      var body, more := EncodeValue(f, items[0]).value, EncodeItems(f, items[1..]).value;
      ValueRoundTrip(f, items[0], Junk, more + rest);
      FirstItem(fields, i, st, body + (more + rest));
      TaggedStep(fields, i, f.WireType(), st, body, more + rest);
      assert EncodeItems(f, items).value + rest == EncodeTag(f.tag, f.WireType()) + body + (more + rest);
      AddTwice(fields, i, st, [c], cs);
      SwitchStays(fields, i, st, [c]);
      ItemsStep(fields, i, AddItems(fields, i, st, [c]), items[1..], rest);
    }
  }

  lemma {:induction false} SwitchStays(fields: seq<Field>, i: nat, st: Progress, vs: seq<Value>)
    requires i < |fields| == |st.slots|
    ensures Switches(fields, i, AddItems(fields, i, st, vs)) == Switches(fields, i, st)
  {
  }

  lemma {:induction false} FirstItem(fields: seq<Field>, i: nat, st: Progress, s: seq<byte>)
    requires i < |fields| == |st.slots| && fields[i].htype.Repeated? && !fields[i].Packable() && !Switches(fields, i, st)
    requires CountOf(fields[i], ItemsOf(fields[i], st.slots[Home(fields, i)]), st) < fields[i].arraySize
    requires DecodeValue(fields[i], Junk, s).Done?
    ensures var r := DecodeValue(fields[i], Junk, s);
      DecodeField(fields, i, fields[i].WireType(), st, s) == Done(AddItems(fields, i, st, [r.value]), r.rest)
  {
    hide DecodeValue, AddItems, CountOf, ItemsOf;
    RepeatedField(fields, i, fields[i].WireType(), st, s);
  }

  lemma {:induction false} EnterTwice(fields: seq<Field>, i: nat, wireType: nat, st: Progress, s: seq<byte>)
    requires i < |fields| == |st.slots| && fields[i].htype.Repeated? && FixedComplete(fields, st)
    ensures DecodeField(fields, i, wireType, st, s) == DecodeField(fields, i, wireType, Entered(fields, i, st), s)
    ensures !Switches(fields, i, Entered(fields, i, st))
  {
    hide DecodeEntered, FixedComplete;
  }

  /** The bookkeeping of an array happens once, whichever of its entries comes first. */
  lemma {:induction false} EnteredSame(fields: seq<Field>, i: nat, st: Progress, s: seq<byte>)
    requires i < |fields| == |st.slots| && fields[i].htype.Repeated? && FixedComplete(fields, st) && DistinctTags(fields)
    requires DecodeTag(s).Tag? && DecodeTag(s).tag == fields[i].tag && s != []
    ensures DecodeFields(fields, st, s) == DecodeFields(fields, Entered(fields, i, st), s)
  {
    hide DecodeField, DecodeTag, FixedComplete, Entered, Find;
    FindDistinct(fields, i);
    EnterTwice(fields, i, DecodeTag(s).wireType, st, DecodeTag(s).rest);
  }

  lemma {:induction false} ArrayStartsWithTag(f: Field, items: seq<Value>, rest: seq<byte>)
    requires items != [] && FieldValid(f) && EncodeArray(f, items).Some?
    ensures var s := EncodeArray(f, items).value + rest;
      s != [] && DecodeTag(s).Tag? && DecodeTag(s).tag == f.tag
  {
    hide EncodeTag, DecodeTag, EncodePacked, EncodeValue;
    var tag := EncodeTag(f.tag, if f.Packable() then WT_STRING else f.WireType());
    var s := EncodeArray(f, items).value + rest;
    if !f.Packable() {
      assert EncodeItems(f, items) == Join(EncodeTagged(f, items[0]), EncodeItems(f, items[1..]));
    }
    var more := s[|tag|..];
    assert s == tag + more;
    TagRoundTrip(f.tag, if f.Packable() then WT_STRING else f.WireType(), more);
  }

  lemma {:induction false} EmptyArray(f: Field, st: Progress)
    requires f.htype.Repeated? && (f.FixedCount() ==> st.fixedSize == 0)
    ensures HoldsArray(f, InitSlot(f)) && CountOf(f, ItemsOf(f, InitSlot(f)), st) == 0
  {
  }

  lemma {:induction false} PackedStep(fields: seq<Field>, i: nat, st: Progress, items: seq<Value>, rest: seq<byte>)
    requires i < |fields| == |st.slots| && DistinctTags(fields) && FieldValid(fields[i])
    requires fields[i].htype.Repeated? && fields[i].Packable() && !Switches(fields, i, st)
    requires CountOf(fields[i], ItemsOf(fields[i], st.slots[Home(fields, i)]), st) == 0 && |items| <= fields[i].arraySize
    requires forall k | 0 <= k < |items| :: Storable(fields[i], items[k])
    requires EncodePacked(fields[i], items).Some? && |EncodePacked(fields[i], items).value| < U32
    ensures DecodeFields(fields, st, EncodeTag(fields[i].tag, WT_STRING) + Delimited(EncodePacked(fields[i], items).value) + rest)
         == DecodeFields(fields, AddItems(fields, i, st, CanonItems(fields[i], items)), rest)
  {
    hide EncodeTag, Storable, FieldValid, DecodeFields, DistinctTags, EncodePacked, DecodePacked, AddItems, CountOf,
      ItemsOf, Split, Delimited, CanonItems;
    var body := EncodePacked(fields[i], items).value;
    SplitRoundTrip(body, rest);
    PackedSizes(fields[i]);
    PackedRoundTrip(fields[i], items, fields[i].arraySize);
    CanonScalars(fields[i], items);
    RepeatedField(fields, i, WT_STRING, st, Delimited(body) + rest);
    TaggedStep(fields, i, WT_STRING, st, Delimited(body), rest);
  }

  lemma {:induction false} PackedSizes(f: Field)
    requires FieldValid(f)
    ensures f.dataSize <= PB_SIZE_MAX
  {
  }

  /** A non-empty array, read after the entries before it. */
  lemma {:induction false} ArrayStep(fields: seq<Field>, i: nat, st: Progress, items: seq<Value>, rest: seq<byte>)
    requires i < |fields| == |st.slots| && DistinctTags(fields) && FieldValid(fields[i]) && FixedComplete(fields, st)
    requires fields[i].htype.Repeated? && st.slots[Home(fields, i)] == InitSlot(fields[i])
    requires st.fixedField != Some(i) && items != []
    requires forall k | 0 <= k < |items| :: Storable(fields[i], items[k])
    requires var e := EncodeArray(fields[i], items); e.Some? && |e.value| < U32
    ensures DecodeFields(fields, st, EncodeArray(fields[i], items).value + rest)
         == DecodeFields(fields, AddItems(fields, i, Entered(fields, i, st), CanonItems(fields[i], items)), rest)
    decreases fields[i], 6
  {
    hide EncodeTag, Storable, FieldValid, DecodeFields, DecodeField, DistinctTags, EncodePacked, EncodeItems,
      AddItems, HoldsArray, CountOf, ItemsOf, InitSlot, CanonItems, FixedComplete;
    var f, entered := fields[i], Entered(fields, i, st);
    EmptyArray(f, entered);
    ArrayStartsWithTag(f, items, rest);
    EnteredSame(fields, i, st, EncodeArray(f, items).value + rest);
    EnterTwice(fields, i, 0, st, []);
    if f.Packable() {
      PackedStep(fields, i, entered, items, rest);
    } else {
      ItemsStep(fields, i, entered, items, rest);
    }
  }

  // ---- the whole message ----

  /** Before entry `i`: the slots from there on are untouched, no array is half read, nothing required is missing. */
  predicate Underway(fields: seq<Field>, i: nat, st: Progress)
    requires i <= |fields| == |st.slots|
  {
    && (forall j | i <= j < |fields| :: st.slots[j] == InitSlot(fields[j]))
    && FixedComplete(fields, st) && (st.fixedField.Some? ==> st.fixedField.value < i)
    && (forall j | 0 <= j < i && Tracked(fields, j) :: RequiredBefore(fields, j) in st.seen)
  }

  lemma {:induction false} RecordedUnderway(fields: seq<Field>, slots: seq<Slot>, i: nat, st: Progress)
    requires i < |fields| == |slots| == |st.slots| && Underway(fields, i, st)
    requires SlotStorable(fields[i], slots[Home(fields, i)])
    ensures Underway(fields, i + 1, Recorded(fields, slots, i, st))
  {
    hide InitSlot, CanonValue, CanonItems, Storable, Proto3Default, RequiredBefore, PlaceItems;
    var f, h := fields[i], Home(fields, i);
    var next := Recorded(fields, slots, i, st);
    if Present(f, slots[h]) && f.htype.Repeated? {
      assert |ItemsOf(f, slots[h])| == |CanonItems(f, ItemsOf(f, slots[h]))|;
    }
    assert FixedComplete(fields, next);
  }

  lemma {:induction false} AfterUnderway(fields: seq<Field>, slots: seq<Slot>, i: nat)
    requires i <= |fields| == |slots| && AllStorable(fields, slots)
    ensures Underway(fields, i, After(fields, slots, i))
  {
    hide SlotStorable, Recorded, Underway;
    if i == 0 {
      StartUnderway(fields);
    } else {
      AfterUnderway(fields, slots, i - 1);
      RecordedUnderway(fields, slots, i - 1, After(fields, slots, i - 1));
    }
  }

  lemma {:induction false} StartUnderway(fields: seq<Field>)
    ensures Underway(fields, 0, Start(InitSlots(fields)))
  {
    hide InitSlot;
  }

  lemma {:induction false} HomeUntouched(fields: seq<Field>, i: nat, st: Progress)
    requires i < |fields| == |st.slots| && Underway(fields, i, st)
    ensures st.slots[i] == InitSlot(fields[i]) && st.fixedField != Some(i) && FixedComplete(fields, st)
    ensures !fields[i].htype.Oneof? ==> Home(fields, i) == i
  {
  }

  lemma {:induction false} AbsentIsEmpty(f: Field, s: Slot)
    requires !Present(f, s)
    ensures EncodeField(f, s) == Some([])
  {
    hide Proto3Default;
  }

  lemma {:induction false} FieldStep(fields: seq<Field>, slots: seq<Slot>, i: nat, st: Progress, rest: seq<byte>)
    requires i < |fields| == |slots| == |st.slots| && DistinctTags(fields) && FieldValid(fields[i])
    requires SlotStorable(fields[i], slots[Home(fields, i)]) && Underway(fields, i, st)
    requires var e := EncodeField(fields[i], slots[Home(fields, i)]); e.Some? && |e.value| < U32
    ensures var e := EncodeField(fields[i], slots[Home(fields, i)]).value;
      DecodeFields(fields, st, e + rest) == DecodeFields(fields, Recorded(fields, slots, i, st), rest)
    decreases fields[i], 7
  {
    hide DistinctTags, FieldValid, Underway, DecodeFields, Proto3Default, EncodeArray, EncodeValue, CanonItems,
      CanonValue, AddItems, Storable, FixedComplete, InitSlot;
    var f, h := fields[i], Home(fields, i);
    HomeUntouched(fields, i, st);
    if !Present(f, slots[h]) {
      AbsentIsEmpty(f, slots[h]);
      assert [] + rest == rest;
    } else if f.htype.Repeated? {
      ArrayStep(fields, i, st, ItemsOf(f, slots[h]), rest);
    } else {
      SingleStep(fields, slots, i, st, rest);
    }
  }

  lemma {:induction false} NothingLeft(fields: seq<Field>, slots: seq<Slot>)
    requires |fields| == |slots|
    ensures EncodeFrom(fields, slots, |fields|) == Some([])
  {
  }

  lemma {:induction false} EncodeFromParts(fields: seq<Field>, slots: seq<Slot>, i: nat)
    requires i < |fields| == |slots| && EncodeFrom(fields, slots, i).Some?
    ensures EncodeField(fields[i], slots[Home(fields, i)]).Some? && EncodeFrom(fields, slots, i + 1).Some?
    ensures EncodeFrom(fields, slots, i).value
         == EncodeField(fields[i], slots[Home(fields, i)]).value + EncodeFrom(fields, slots, i + 1).value
  {
    hide EncodeField;
  }

  lemma {:induction false} EntryFacts(fields: seq<Field>, slots: seq<Slot>, i: nat)
    requires i < |fields| == |slots| && TableValid(fields) && AllStorable(fields, slots)
    ensures DistinctTags(fields) && FieldValid(fields[i]) && SlotStorable(fields[i], slots[Home(fields, i)])
  {
    hide DistinctTags, FieldValid, SlotStorable;
  }

  lemma {:induction false} FieldsRoundTrip(fields: seq<Field>, slots: seq<Slot>, i: nat, rest: seq<byte>)
    requires i <= |fields| == |slots| && TableValid(fields) && AllStorable(fields, slots)
    requires var e := EncodeFrom(fields, slots, i); e.Some? && |e.value| < U32
    ensures DecodeFields(fields, After(fields, slots, i), EncodeFrom(fields, slots, i).value + rest)
         == DecodeFields(fields, After(fields, slots, |fields|), rest)
    decreases fields, |fields| - i
  {
    hide DecodeFields, EncodeField, EncodeFrom, Recorded, SlotStorable, FieldValid, TableValid, AllStorable,
      DistinctTags, Underway;
    if i == |fields| {
      NothingLeft(fields, slots);
      assert [] + rest == rest;
    } else {
      EntryFacts(fields, slots, i);
      EncodeFromParts(fields, slots, i);
      var e, more := EncodeField(fields[i], slots[Home(fields, i)]).value, EncodeFrom(fields, slots, i + 1).value;
      AfterUnderway(fields, slots, i);
      FieldStep(fields, slots, i, After(fields, slots, i), more + rest);
      assert EncodeFrom(fields, slots, i).value + rest == e + (more + rest);
      FieldsRoundTrip(fields, slots, i + 1, rest);
    }
  }

  lemma {:induction false} FinalChecks(fields: seq<Field>, st: Progress)
    requires |st.slots| == |fields| && Underway(fields, |fields|, st)
    ensures FixedComplete(fields, st) && RequiredSeen(fields, st.seen)
  {
  }

  /** The printer and the parser agree: what was encoded is decoded to its canonical form, to the last byte. */
  lemma {:induction false} MessageRoundTrip(fields: seq<Field>, slots: seq<Slot>)
    requires |slots| == |fields| && TableValid(fields) && AllStorable(fields, slots)
    requires Encode(fields, slots).Some? && |Encode(fields, slots).value| < U32
    ensures DecodeMessage(fields, InitSlots(fields), Encode(fields, slots).value) == Done(Canon(fields, slots), [])
    decreases fields, |fields| + 1
  {
    hide EncodeFrom, TableValid, AllStorable, RequiredSeen, FixedComplete, Underway;
    FieldsRoundTrip(fields, slots, 0, []);
    var e := Encode(fields, slots).value;
    assert e + [] == e;
    AfterUnderway(fields, slots, |fields|);
    FinalChecks(fields, After(fields, slots, |fields|));
  }
}
