/**
 * What the decoder accepts, whatever the input: every cell of the struct holds what fits it, arrays keep to
 * their size, unions select a member. Such a struct can be encoded again, and comes back the same.
 */
module PbDecoded {
  import opened Bytes
  import opened PbWire
  import opened PbSchema
  import opened PbCodec
  import opened PbRoundTrip
  import opened PbRestore

  // ---- structs in which everything fits ----

  /** Tables as the generator writes them: what a cell starts with fits it. */
  predicate Generated(fields: seq<Field>)
    decreases fields
  {
    forall i | 0 <= i < |fields| :: GeneratedField(fields[i])
  }

  predicate GeneratedField(f: Field)
    decreases f
  {
    if f.ltype.Submessage? then Generated(f.ltype.fields) else Storable(f, InitValue(f))
  }

  predicate Sound(f: Field, v: Value)
    decreases f, 0
  {
    if f.ltype.Submessage? then v.Msg? && |v.slots| == |f.ltype.fields| && AllSound(f.ltype.fields, v.slots)
    else Storable(f, v)
  }

  /** An array without a count may still have entries that were never written. */
  predicate SlotSound(f: Field, s: Slot)
    decreases f, 1
  {
    match f.htype
    case Required => s.One? && s.flag == 0 && Sound(f, s.v)
    case Optional => s.One? && s.flag <= (if f.Singular() then 0 else 1) && Sound(f, s.v)
    case Repeated =>
      && s.Many? && (if f.FixedCount() then |s.items| == f.arraySize else |s.items| <= f.arraySize)
      && forall k | 0 <= k < |s.items| :: (f.FixedCount() && s.items[k].Junk?) || Sound(f, s.items[k])
    case Oneof => s.One? && (s.flag == f.tag ==> Sound(f, s.v))
  }

  predicate AllSound(fields: seq<Field>, slots: seq<Slot>)
    requires |slots| == |fields|
    decreases fields
  {
    && (forall i | 0 <= i < |fields| :: SlotSound(fields[i], slots[Home(fields, i)]))
    && (forall i | 0 <= i < |fields| && fields[i].htype.Oneof? :: SelectorValid(fields, slots, i))
  }

  lemma {:induction false} GeneratedEntry(fields: seq<Field>, i: nat)
    requires i < |fields| && TableValid(fields) && Generated(fields)
    ensures DistinctTags(fields) && FieldValid(fields[i]) && GeneratedField(fields[i])
  {
    hide DistinctTags, FieldValid, GeneratedField;
  }

  lemma {:induction false} InitSound(f: Field)
    requires FieldValid(f) && GeneratedField(f)
    ensures Sound(f, InitValue(f))
    decreases f, 0
  {
    hide TableValid, Generated, AllSound;
    if f.ltype.Submessage? {
      StartSound(f.ltype.fields);
    }
  }

  lemma {:induction false} InitSlotSound(f: Field)
    requires FieldValid(f) && GeneratedField(f)
    ensures SlotSound(f, InitSlot(f))
    decreases f, 1
  {
    hide Sound, InitValue, GeneratedField;
    if f.htype.Required? || f.htype.Optional? {
      InitSound(f);
    }
  }

  /** The struct before anything is decoded. */
  lemma {:induction false} StartSound(fields: seq<Field>)
    requires TableValid(fields) && Generated(fields)
    ensures AllSound(fields, InitSlots(fields))
    decreases fields
  {
    hide SlotSound, FieldValid, GeneratedField, DistinctTags, InitSlot;
    var slots := InitSlots(fields);
    forall i | 0 <= i < |fields| ensures SlotSound(fields[i], slots[Home(fields, i)]) {
      var h := Home(fields, i);
      GeneratedEntry(fields, h);
      InitSlotSound(fields[h]);
      SharedStart(fields, i);
    }
    forall i | 0 <= i < |fields| && fields[i].htype.Oneof? ensures SelectorValid(fields, slots, i) {
      UnionStart(fields, i);
    }
  }

  lemma {:induction false} UnionStart(fields: seq<Field>, i: nat)
    requires i < |fields| && fields[i].htype.Oneof?
    ensures InitSlots(fields)[Home(fields, i)] == One(0, Junk)
  {
  }

  lemma {:induction false} SharedStart(fields: seq<Field>, i: nat)
    requires i < |fields| && TableValid(fields) && SlotSound(fields[Home(fields, i)], InitSlots(fields)[Home(fields, i)])
    ensures SlotSound(fields[i], InitSlots(fields)[Home(fields, i)])
  {
    if Home(fields, i) != i {
      UnionStart(fields, i);
      TableEntry(fields, i);
    }
  }

  // ---- one value ----

  lemma {:induction false} WordFits(s: seq<byte>, limit: nat)
    requires (|s| == 4 && limit == U32) || (|s| == 8 && limit == U64)
    ensures FromLittleEndian(s) < limit
  {
    WordBound(s);
    ShlSeven(1, 0); ShlSeven(1, 7); ShlSeven(1, 14); ShlSeven(1, 21);
    ShlValues();
  }

  lemma {:induction false} WordBound(s: seq<byte>)
    ensures FromLittleEndian(s) < Shl(1, 8 * |s|)
  {
    if s != [] {
      WordBound(s[1..]);
      ShlSeven(1, 8 * |s| - 8);
      ShlDouble(1, 8 * |s| - 1);
    }
  }

  lemma {:induction false} UpToNulClean(s: seq<byte>)
    ensures 0 !in UpToNul(s) && |UpToNul(s)| <= |s|
  {
    if s != [] && s[0] != 0 {
      UpToNulClean(s[1..]);
    }
  }

  lemma {:induction false} IntSound(f: Field, s: seq<byte>)
    requires f.ltype.VarInt? || f.ltype.UVarInt? || f.ltype.SVarInt?
    requires DecodeInt(f, s).Done?
    ensures Storable(f, DecodeInt(f, s).value)
  {
    hide DecodeVarint, Signed, UnZigZag, Shl;
    ShlPositive(8 * f.dataSize);
  }

  lemma {:induction false} TextSound(f: Field, s: seq<byte>)
    requires (f.ltype.BytesArray? || f.ltype.CString? || f.ltype.FixedLengthBytes?) && DecodeScalar(f, s).Done?
    ensures Storable(f, DecodeScalar(f, s).value)
  {
    hide DecodeVarint32, UpToNul;
    if f.ltype.CString? {
      var len := DecodeVarint32(s);
      UpToNulClean(len.rest[..len.value]);
    }
  }

  lemma {:induction false} ScalarSound(f: Field, s: seq<byte>)
    requires !f.ltype.Submessage? && GeneratedField(f) && DecodeScalar(f, s).Done?
    ensures Storable(f, DecodeScalar(f, s).value)
  {
    hide DecodeInt, DecodeBlob, DecodeString, DecodeFixedBytes, FromLittleEndian;
    if f.ltype.Fixed32? {
      WordFits(s[..4], U32);
    } else if f.ltype.Fixed64? {
      WordFits(s[..8], U64);
    } else if f.ltype.VarInt? || f.ltype.UVarInt? || f.ltype.SVarInt? {
      IntSound(f, s);
    } else {
      TextSound(f, s);
    }
  }

  lemma {:induction false} PackedSound(f: Field, room: nat, s: seq<byte>)
    requires f.Packable() && GeneratedField(f) && DecodePacked(f, room, s).Some?
    ensures forall k | 0 <= k < |DecodePacked(f, room, s).value| :: Sound(f, DecodePacked(f, room, s).value[k])
    decreases |s|
  {
    hide DecodeScalar, Storable;
    if s != [] {
      ScalarSound(f, s);
      PackedSound(f, room - 1, DecodeScalar(f, s).rest);
    }
  }

  // ---- one entry of the table ----

  lemma {:induction false} OnlyUnionsShare(fields: seq<Field>, i: nat, j: nat)
    requires i < |fields| && j < |fields| && i != j && Home(fields, i) == Home(fields, j)
    ensures fields[i].htype.Oneof? && fields[j].htype.Oneof?
  {
  }

  /** A slot that has been replaced by one that fits, with a selector that names its entry. */
  lemma {:induction false} Replaced(fields: seq<Field>, i: nat, slots: seq<Slot>, s: Slot)
    requires i < |fields| == |slots| && DistinctTags(fields) && AllSound(fields, slots) && SlotSound(fields[i], s)
    requires fields[i].htype.Oneof? ==> s.One? && s.flag == fields[i].tag
    ensures AllSound(fields, slots[Home(fields, i) := s])
  {
    hide Sound;
    var h := Home(fields, i);
    var next := slots[h := s];
    forall j | 0 <= j < |fields| ensures SlotSound(fields[j], next[Home(fields, j)]) {
      if Home(fields, j) == h && j != i {
        OnlyUnionsShare(fields, i, j);
      }
    }
    forall j | 0 <= j < |fields| && fields[j].htype.Oneof? ensures SelectorValid(fields, next, j) {
      if Home(fields, j) == h && j != i {
        OnlyUnionsShare(fields, i, j);
      } else if Home(fields, j) != h {
        assert SelectorValid(fields, slots, j);
      }
    }
  }

  lemma {:induction false} ItemsAdded(fields: seq<Field>, i: nat, st: Progress, vs: seq<Value>)
    requires i < |fields| == |st.slots| && DistinctTags(fields) && fields[i].htype.Repeated? && AllSound(fields, st.slots)
    requires forall k | 0 <= k < |vs| :: Sound(fields[i], vs[k])
    requires vs == [] || CountOf(fields[i], ItemsOf(fields[i], st.slots[Home(fields, i)]), st) + |vs| <= fields[i].arraySize
    ensures AllSound(fields, AddItems(fields, i, st, vs).slots)
  {
    hide Sound, AllSound;
    var f, h := fields[i], Home(fields, i);
    SlotIsSound(fields, st.slots, i);
    var items := ItemsOf(f, st.slots[h]);
    Replaced(fields, i, st.slots, Many(PlaceItems(f, items, CountOf(f, items, st), vs)));
  }

  lemma {:induction false} SlotIsSound(fields: seq<Field>, slots: seq<Slot>, i: nat)
    requires i < |fields| == |slots| && AllSound(fields, slots)
    ensures SlotSound(fields[i], slots[Home(fields, i)])
  {
  }

  lemma {:induction false} ValueSound(f: Field, prev: Value, s: seq<byte>)
    requires FieldValid(f) && GeneratedField(f) && DecodeValue(f, prev, s).Done?
    requires f.ltype.Submessage? && !f.htype.Repeated? && !f.htype.Oneof? ==> Sound(f, prev)
    ensures Sound(f, DecodeValue(f, prev, s).value)
    decreases |s|, 1
  {
    hide DecodeScalar, Storable, AllSound, DecodeMessage, Split, TableValid, Generated;
    if f.ltype.Submessage? {
      var fields := f.ltype.fields;
      StartSound(fields);
      var slots := if f.htype.Repeated? || f.htype.Oneof? then InitSlots(fields) else SlotsOf(prev, fields);
      MessageSound(fields, slots, Split(s).value);
    } else {
      ScalarSound(f, s);
    }
  }

  lemma {:induction false} RepeatedSound(fields: seq<Field>, i: nat, wireType: nat, st: Progress, s: seq<byte>)
    requires i < |fields| == |st.slots| && TableValid(fields) && Generated(fields) && AllSound(fields, st.slots)
    requires fields[i].htype.Repeated? && DecodeRepeated(fields, i, wireType, st, s).Done?
    ensures AllSound(fields, DecodeRepeated(fields, i, wireType, st, s).value.slots)
    decreases |s|, 2
  {
    hide AllSound, TableValid, Generated, Sound, DecodeValue, DecodePacked, Split, AddItems, CountOf, ItemsOf,
      FieldValid, GeneratedField, DistinctTags;
    var f := fields[i];
    GeneratedEntry(fields, i);
    var count := CountOf(f, ItemsOf(f, st.slots[Home(fields, i)]), st);
    if wireType == WT_STRING && f.Packable() {
      var room := if count < f.arraySize then f.arraySize - count else 0;
      PackedSound(f, room, Split(s).value);
      ItemsAdded(fields, i, st, DecodePacked(f, room, Split(s).value).value);
    } else {
      ValueSound(f, Junk, s);
      ItemsAdded(fields, i, st, [DecodeValue(f, Junk, s).value]);
    }
  }

  lemma {:induction false} OneIsSound(f: Field, v: Value)
    requires !f.htype.Repeated? && Sound(f, v)
    ensures SlotSound(f, One(PresentFlag(f), v))
  {
    hide Sound;
  }

  lemma {:induction false} PrevIsSound(f: Field, s: Slot)
    requires SlotSound(f, s) && !f.htype.Repeated? && !f.htype.Oneof?
    ensures Sound(f, ValueOf(s))
  {
    hide Sound;
  }

  lemma {:induction false} FieldSound(fields: seq<Field>, i: nat, wireType: nat, st: Progress, s: seq<byte>)
    requires i < |fields| == |st.slots| && TableValid(fields) && Generated(fields) && AllSound(fields, st.slots)
    requires DecodeField(fields, i, wireType, st, s).Done?
    ensures AllSound(fields, DecodeField(fields, i, wireType, st, s).value.slots)
    decreases |s|, 3
  {
    hide AllSound, TableValid, Generated, Sound, SlotSound, DecodeValue, DecodeRepeated, FieldValid, GeneratedField, DistinctTags;
    var f, h := fields[i], Home(fields, i);
    var entered := Enter(fields, i, st).value;
    GeneratedEntry(fields, i);
    if f.htype.Repeated? {
      RepeatedSound(fields, i, wireType, entered, s);
    } else {
      SlotIsSound(fields, st.slots, i);
      if !f.htype.Oneof? {
        PrevIsSound(f, st.slots[h]);
      }
      ValueSound(f, ValueOf(st.slots[h]), s);
      var v := DecodeValue(f, ValueOf(st.slots[h]), s).value;
      OneIsSound(f, v);
      Replaced(fields, i, st.slots, One(PresentFlag(f), v));
    }
  }

  // ---- whole messages ----

  lemma {:induction false} FieldsSound(fields: seq<Field>, st: Progress, s: seq<byte>)
    requires |st.slots| == |fields| && TableValid(fields) && Generated(fields) && AllSound(fields, st.slots)
    requires DecodeFields(fields, st, s).Done?
    ensures AllSound(fields, DecodeFields(fields, st, s).value.slots)
    decreases |s|, 0
  {
    hide AllSound, TableValid, Generated, DecodeField, DecodeTag, Skip, Find;
    if s != [] && DecodeTag(s).Tag? {
      var tag := DecodeTag(s);
      var found := Find(fields, tag.tag);
      if found.Some? {
        FieldSound(fields, found.value, tag.wireType, st, tag.rest);
        var r := DecodeField(fields, found.value, tag.wireType, st, tag.rest);
        FieldsSound(fields, r.value, r.rest);
      } else {
        FieldsSound(fields, st, Skip(tag.wireType, tag.rest).rest);
      }
    }
  }

  /** Whatever the bytes: a message that is accepted leaves a struct in which everything fits. */
  lemma {:induction false} MessageSound(fields: seq<Field>, slots: seq<Slot>, s: seq<byte>)
    requires |slots| == |fields| && TableValid(fields) && Generated(fields) && AllSound(fields, slots)
    requires DecodeMessage(fields, slots, s).Done?
    ensures AllSound(fields, DecodeMessage(fields, slots, s).value)
    decreases |s|, 1
  {
    hide AllSound, TableValid, Generated, DecodeFields, FixedComplete, RequiredSeen;
    FieldsSound(fields, Start(slots), s);
  }

  // ---- what is accepted can be sent on ----

  /** No array without a count, here or in a submessage. */
  predicate Counted(fields: seq<Field>)
    decreases fields
  {
    forall i | 0 <= i < |fields| :: CountedField(fields[i])
  }

  predicate CountedField(f: Field)
    decreases f
  {
    !f.FixedCount() && (f.ltype.Submessage? ==> Counted(f.ltype.fields))
  }

  lemma {:induction false} SoundIsStorable(f: Field, v: Value)
    requires CountedField(f) && Sound(f, v)
    ensures Storable(f, v) && SelectedValue(f, v)
    decreases f, 0
  {
    hide AllSound, AllStorable, Counted, WellSelected;
    if f.ltype.Submessage? {
      AllSoundIsStorable(f.ltype.fields, v.slots);
    }
  }

  lemma {:induction false} SlotSoundIsStorable(f: Field, s: Slot)
    requires CountedField(f) && SlotSound(f, s)
    ensures SlotStorable(f, s) && SelectedSlot(f, s)
    decreases f, 1
  {
    hide Sound, Storable, SelectedValue, Proto3Default;
    if f.htype.Repeated? {
      forall k | 0 <= k < |s.items| ensures Storable(f, s.items[k]) && SelectedValue(f, s.items[k]) {
        assert Sound(f, s.items[k]);
        SoundIsStorable(f, s.items[k]);
      }
    } else if f.htype.Oneof? {
      if s.flag == f.tag { SoundIsStorable(f, s.v); }
    } else {
      SoundIsStorable(f, s.v);
    }
  }

  lemma {:induction false} AllSoundIsStorable(fields: seq<Field>, slots: seq<Slot>)
    requires |slots| == |fields| && Counted(fields) && AllSound(fields, slots)
    ensures AllStorable(fields, slots) && WellSelected(fields, slots)
    decreases fields
  {
    hide SlotSound, SlotStorable, SelectedSlot, SelectorValid, CountedField;
    forall i | 0 <= i < |fields|
      ensures SlotStorable(fields[i], slots[Home(fields, i)]) && SelectedSlot(fields[i], slots[Home(fields, i)])
    {
      SlotSoundIsStorable(fields[i], slots[Home(fields, i)]);
    }
  }

  lemma {:induction false} ValueEncodes(f: Field, v: Value)
    requires Storable(f, v)
    ensures EncodeValue(f, v).Some?
    decreases f, 0
  {
    hide AllStorable;
    if f.ltype.Submessage? {
      FieldsEncode(f.ltype.fields, v.slots, 0);
    }
  }

  lemma {:induction false} PackedEncodes(f: Field, items: seq<Value>)
    requires f.Packable() && forall k | 0 <= k < |items| :: Storable(f, items[k])
    ensures EncodePacked(f, items).Some?
    decreases f, 1, |items|
  {
    hide EncodeScalar, Storable;
    if items != [] {
      ValueEncodes(f, items[0]);
      PackedEncodes(f, items[1..]);
    }
  }

  lemma {:induction false} ItemsEncode(f: Field, items: seq<Value>)
    requires forall k | 0 <= k < |items| :: Storable(f, items[k])
    ensures EncodeItems(f, items).Some?
    decreases f, 1, |items|
  {
    hide EncodeValue, Storable;
    if items != [] {
      ValueEncodes(f, items[0]);
      ItemsEncode(f, items[1..]);
    }
  }

  lemma {:induction false} FieldEncodes(f: Field, s: Slot)
    requires SlotStorable(f, s)
    ensures EncodeField(f, s).Some?
    decreases f, 2
  {
    hide EncodeValue, EncodePacked, EncodeItems, Storable, Proto3Default;
    if f.htype.Repeated? {
      if f.Packable() {
        PackedEncodes(f, s.items);
      } else {
        ItemsEncode(f, s.items);
      }
    } else if Present(f, s) {
      ValueEncodes(f, s.v);
    }
  }

  /** Storable structs have a wire form. */
  lemma {:induction false} FieldsEncode(fields: seq<Field>, slots: seq<Slot>, i: nat)
    requires i <= |fields| == |slots| && AllStorable(fields, slots)
    ensures EncodeFrom(fields, slots, i).Some?
    decreases fields, |fields| - i
  {
    hide EncodeField, SlotStorable;
    if i < |fields| {
      FieldEncodes(fields[i], slots[Home(fields, i)]);
      FieldsEncode(fields, slots, i + 1);
    }
  }

  /**
   * Whatever the bytes: what is accepted can be encoded, and comes back as the same struct. This is for tables whose
   * arrays have counts and whose proto3 fields have no declared defaults.
   */
  lemma {:induction false} AcceptedComesBack(fields: seq<Field>, s: seq<byte>)
    requires TableValid(fields) && Generated(fields) && Counted(fields) && PlainDefaults(fields) && Decode(fields, s).Done?
    ensures var m := Decode(fields, s).value; var e := Encode(fields, m);
      && |m| == |fields| && AllSound(fields, m) && e.Some?
      && (|e.value| < U32 ==>
            var r := Decode(fields, e.value); r.Done? && r.rest == [] && |r.value| == |fields| && SameSlots(fields, m, r.value))
  {
    hide TableValid, Generated, Counted, PlainDefaults, AllSound, AllStorable, WellSelected, DecodeMessage, EncodeFrom, SameSlots;
    var m := Decode(fields, s).value;
    StartSound(fields);
    MessageSound(fields, InitSlots(fields), s);
    AllSoundIsStorable(fields, m);
    FieldsEncode(fields, m, 0);
    if |Encode(fields, m).value| < U32 {
      RoundTrip(fields, m);
    }
  }
}
