/** Forward compatibility: what one table writes is stepped over by every table without those tags. */
module PbForward {
  import opened Bytes
  import opened PbWire
  import opened PbSchema
  import opened PbCodec
  import opened PbUnknown

  // ---- the wire type written says how long the value is ----

  lemma {:induction false} VarintSkipped(v: nat, rest: seq<byte>)
    ensures SkipVarint(Varint(v) + rest) == Done((), rest)
    decreases v
  {
    VarintBytes(v, rest);
    if v >= 128 {
      VarintSkipped(v / 128, rest);
    }
  }

  lemma {:induction false} WordSkipped(v: nat, n: nat)
    ensures Drop(LittleEndian(v, n), n) == Done((), [])
  {
    assert LittleEndian(v, n)[n..] == [];
  }

  lemma {:induction false} DelimitedSkipped(body: seq<byte>)
    requires |body| < U32
    ensures Skip(WT_STRING, Delimited(body)) == Done((), [])
  {
    hide Split, Delimited;
    SplitRoundTrip(body, []);
    assert Delimited(body) + [] == Delimited(body);
  }

  /** A value is as long as its own wire type says, no byte more and no byte less. */
  lemma {:induction false} ValueSkipped(f: Field, v: Value)
    requires EncodeValue(f, v).Some? && |EncodeValue(f, v).value| < U32
    ensures Skip(f.WireType(), EncodeValue(f, v).value) == Done((), [])
  {
    hide EncodeFrom, SlotsOf, Delimited, Split, Varint, LittleEndian, SkipVarint, Shl, Signed, ZigZag, Unsigned, Drop;
    var e := EncodeValue(f, v).value;
    match f.ltype
    case VarInt | UVarInt | SVarInt =>
      var n :| e == Varint(n);
      VarintSkipped(n, []);
      assert Varint(n) + [] == Varint(n);
    case Fixed32 => WordSkipped(IntOf(v) % U32, 4);
    case Fixed64 => WordSkipped(IntOf(v) % U64, 8);
    case _ =>
      var body :| e == Delimited(body);
      assert |body| < |Delimited(body)|;
      DelimitedSkipped(body);
  }

  /** No entry of the table has this tag. */
  predicate Lacks(fields: seq<Field>, tag: nat) {
    forall i | 0 <= i < |fields| :: fields[i].tag != tag
  }

  lemma {:induction false} TaggedIsUnknown(others: seq<Field>, tag: nat, wireType: nat, body: seq<byte>)
    requires Lacks(others, tag) && 1 <= tag <= MAX_TAG && wireType < 8 && Skip(wireType, body) == Done((), [])
    ensures UnknownField(others, EncodeTag(tag, wireType) + body)
  {
    hide Skip, EncodeTag, DecodeTag;
    TagRoundTrip(tag, wireType, body);
  }

  /** A tagged value of a storable kind is an unknown field to every table without its tag. */
  lemma {:induction false} ValueIsUnknown(others: seq<Field>, f: Field, v: Value)
    requires FieldValid(f) && Lacks(others, f.tag) && EncodeTagged(f, v).Some? && |EncodeTagged(f, v).value| < U32
    ensures UnknownField(others, EncodeTagged(f, v).value)
  {
    hide Skip, EncodeTag, EncodeValue, UnknownField;
    ValueSkipped(f, v);
    TaggedIsUnknown(others, f.tag, f.WireType(), EncodeValue(f, v).value);
  }

  lemma {:induction false} PackedIsUnknown(others: seq<Field>, f: Field, body: seq<byte>)
    requires FieldValid(f) && Lacks(others, f.tag) && |body| < U32
    ensures UnknownField(others, EncodeTag(f.tag, WT_STRING) + Delimited(body))
  {
    hide Skip, EncodeTag, UnknownField, Delimited;
    DelimitedSkipped(body);
    TaggedIsUnknown(others, f.tag, WT_STRING, Delimited(body));
  }

  // ---- whole messages ----

  lemma {:induction false} ItemsSkipped(others: seq<Field>, st: Progress, f: Field, items: seq<Value>, rest: seq<byte>)
    requires |st.slots| == |others| && FieldValid(f) && Lacks(others, f.tag)
    requires EncodeItems(f, items).Some? && |EncodeItems(f, items).value| < U32
    ensures DecodeFields(others, st, EncodeItems(f, items).value + rest) == DecodeFields(others, st, rest)
    decreases |items|
  {
    hide EncodeTagged, DecodeFields, UnknownField, FieldValid, Lacks;
    if items == [] {
      assert EncodeItems(f, items).value + rest == rest;
    } else {
      var first, more := EncodeTagged(f, items[0]).value, EncodeItems(f, items[1..]).value;
      assert EncodeItems(f, items).value + rest == first + (more + rest);
      ValueIsUnknown(others, f, items[0]);
      UnknownSkipped(others, st, first, more + rest);
      ItemsSkipped(others, st, f, items[1..], rest);
    }
  }

  lemma {:induction false} ArraySkipped(others: seq<Field>, st: Progress, f: Field, items: seq<Value>, rest: seq<byte>)
    requires |st.slots| == |others| && FieldValid(f) && Lacks(others, f.tag)
    requires EncodeArray(f, items).Some? && |EncodeArray(f, items).value| < U32
    ensures DecodeFields(others, st, EncodeArray(f, items).value + rest) == DecodeFields(others, st, rest)
  {
    hide EncodeItems, EncodePacked, DecodeFields, UnknownField, FieldValid, Lacks, Delimited, EncodeTag;
    if items == [] {
      assert EncodeArray(f, items).value + rest == rest;
    } else if f.Packable() {
      var body := EncodePacked(f, items).value;
      PackedIsUnknown(others, f, body);
      UnknownSkipped(others, st, EncodeTag(f.tag, WT_STRING) + Delimited(body), rest);
    } else {
      ItemsSkipped(others, st, f, items, rest);
    }
  }

  lemma {:induction false} FieldSkipped(others: seq<Field>, st: Progress, f: Field, s: Slot, rest: seq<byte>)
    requires |st.slots| == |others| && FieldValid(f) && Lacks(others, f.tag)
    requires EncodeField(f, s).Some? && |EncodeField(f, s).value| < U32
    ensures DecodeFields(others, st, EncodeField(f, s).value + rest) == DecodeFields(others, st, rest)
  {
    hide EncodeTagged, EncodeArray, Present, DecodeFields, UnknownField, FieldValid, Lacks;
    if f.htype.Repeated? {
      ArraySkipped(others, st, f, ItemsOf(f, s), rest);
    } else if Present(f, s) {
      ValueIsUnknown(others, f, ValueOf(s));
      UnknownSkipped(others, st, EncodeTagged(f, ValueOf(s)).value, rest);
    } else {
      assert EncodeField(f, s).value + rest == rest;
    }
  }

  predicate Apart(fields: seq<Field>, others: seq<Field>) {
    forall i | 0 <= i < |fields| :: Lacks(others, fields[i].tag)
  }

  lemma {:induction false} FieldsSkipped(fields: seq<Field>, slots: seq<Slot>, i: nat, others: seq<Field>, st: Progress, rest: seq<byte>)
    requires i <= |fields| == |slots| && TableValid(fields) && |st.slots| == |others| && Apart(fields, others)
    requires EncodeFrom(fields, slots, i).Some? && |EncodeFrom(fields, slots, i).value| < U32
    ensures DecodeFields(others, st, EncodeFrom(fields, slots, i).value + rest) == DecodeFields(others, st, rest)
    decreases |fields| - i
  {
    hide EncodeField, DecodeFields, FieldValid, Lacks, DistinctTags, Home;
    if i == |fields| {
      assert EncodeFrom(fields, slots, i).value + rest == rest;
    } else {
      var first, more := EncodeField(fields[i], slots[Home(fields, i)]).value, EncodeFrom(fields, slots, i + 1).value;
      assert EncodeFrom(fields, slots, i).value + rest == first + (more + rest);
      FieldSkipped(others, st, fields[i], slots[Home(fields, i)], more + rest);
      FieldsSkipped(fields, slots, i + 1, others, st, rest);
    }
  }

  /** A message of one table before a message of another, with no tag in common: the other reads its own part alone. */
  lemma {:induction false} ForwardCompatible(fields: seq<Field>, slots: seq<Slot>, others: seq<Field>, into: seq<Slot>, rest: seq<byte>)
    requires |slots| == |fields| && |into| == |others| && TableValid(fields) && Apart(fields, others)
    requires Encode(fields, slots).Some? && |Encode(fields, slots).value| < U32
    ensures DecodeMessage(others, into, Encode(fields, slots).value + rest) == DecodeMessage(others, into, rest)
  {
    hide EncodeFrom, DecodeFields, TableValid, Apart, FixedComplete, RequiredSeen;
    FieldsSkipped(fields, slots, 0, others, Start(into), rest);
  }
}
