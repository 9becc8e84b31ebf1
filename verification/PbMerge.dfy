/**
 * Messages behind each other: decoding their concatenation is decoding the second into what the first has left.
 * Of a field that occurs twice the last occurrence counts.
 */
module PbMerge {
  import opened Bytes
  import opened PbWire
  import opened PbSchema
  import opened PbCodec
  import opened PbRoundTrip

  // ---- more bytes behind what is read ----

  lemma {:induction false} SplitMore(s: seq<byte>, more: seq<byte>)
    requires Split(s).Done?
    ensures Split(s + more) == Done(Split(s).value, Split(s).rest + more)
  {
    hide Split;
    var r := Split(s);
    SplitLocal(s, r.rest + more);
    assert s + more == Consumed(s, r.rest) + (r.rest + more);
  }

  lemma {:induction false} Varint32More(s: seq<byte>, more: seq<byte>)
    requires DecodeVarint32(s).Done?
    ensures DecodeVarint32(s + more) == Done(DecodeVarint32(s).value, DecodeVarint32(s).rest + more)
  {
    hide DecodeVarint32;
    var r := DecodeVarint32(s);
    DecodeVarint32Local(s, r.rest + more);
    assert s + more == Consumed(s, r.rest) + (r.rest + more);
  }

  lemma {:induction false} VarintMore(s: seq<byte>, more: seq<byte>)
    requires DecodeVarint(s).Done?
    ensures DecodeVarint(s + more) == Done(DecodeVarint(s).value, DecodeVarint(s).rest + more)
  {
    hide Varint64From;
    var r := DecodeVarint(s);
    Varint64Local(s, 0, 0, r.rest + more);
    assert s + more == Consumed(s, r.rest) + (r.rest + more);
  }

  lemma {:induction false} TagMore(s: seq<byte>, more: seq<byte>)
    requires !DecodeTag(s).TagFail?
    ensures DecodeTag(s + more) == DecodeTag(s).(rest := DecodeTag(s).rest + more)
  {
    hide DecodeTag;
    var r := DecodeTag(s);
    DecodeTagLocal(s, r.rest + more);
    assert s + more == Consumed(s, r.rest) + (r.rest + more);
  }

  lemma {:induction false} SkipMore(wireType: nat, s: seq<byte>, more: seq<byte>)
    requires Skip(wireType, s).Done?
    ensures Skip(wireType, s + more) == Done((), Skip(wireType, s).rest + more)
  {
    hide Skip;
    var r := Skip(wireType, s);
    SkipLocal(wireType, s, r.rest + more);
    assert s + more == Consumed(s, r.rest) + (r.rest + more);
  }

  lemma {:induction false} TakeMore(n: nat, s: seq<byte>, more: seq<byte>)
    requires n <= |s|
    ensures (s + more)[..n] == s[..n] && (s + more)[n..] == s[n..] + more
  {
  }

  lemma {:induction false} TextMore(f: Field, s: seq<byte>, more: seq<byte>)
    requires (f.ltype.BytesArray? || f.ltype.CString? || f.ltype.FixedLengthBytes?) && DecodeScalar(f, s).Done?
    ensures DecodeScalar(f, s + more) == Done(DecodeScalar(f, s).value, DecodeScalar(f, s).rest + more)
  {
    hide DecodeVarint32, UpToNul;
    Varint32More(s, more);
    var size, rest := DecodeVarint32(s).value, DecodeVarint32(s).rest;
    if size <= |rest| {
      TakeMore(size, rest, more);
    }
  }

  lemma {:induction false} ScalarMore(f: Field, s: seq<byte>, more: seq<byte>)
    requires !f.ltype.Submessage? && DecodeScalar(f, s).Done?
    ensures DecodeScalar(f, s + more) == Done(DecodeScalar(f, s).value, DecodeScalar(f, s).rest + more)
  {
    hide DecodeVarint, DecodeBlob, DecodeString, DecodeFixedBytes, FromLittleEndian, Signed, UnZigZag, Shl;
    if f.ltype.Fixed32? {
      TakeMore(4, s, more);
    } else if f.ltype.Fixed64? {
      TakeMore(8, s, more);
    } else if f.ltype.VarInt? || f.ltype.UVarInt? || f.ltype.SVarInt? {
      VarintMore(s, more);
    } else {
      TextMore(f, s, more);
    }
  }

  lemma {:induction false} ValueMore(f: Field, prev: Value, s: seq<byte>, more: seq<byte>)
    requires DecodeValue(f, prev, s).Done?
    ensures DecodeValue(f, prev, s + more) == Done(DecodeValue(f, prev, s).value, DecodeValue(f, prev, s).rest + more)
  {
    hide DecodeScalar, Split, DecodeMessage;
    if f.ltype.Submessage? {
      SplitMore(s, more);
    } else {
      ScalarMore(f, s, more);
    }
  }

  lemma {:induction false} RepeatedMore(fields: seq<Field>, i: nat, wireType: nat, st: Progress, s: seq<byte>, more: seq<byte>)
    requires i < |fields| == |st.slots| && fields[i].htype.Repeated? && DecodeRepeated(fields, i, wireType, st, s).Done?
    ensures var r := DecodeRepeated(fields, i, wireType, st, s);
      DecodeRepeated(fields, i, wireType, st, s + more) == Done(r.value, r.rest + more)
  {
    hide DecodeValue, Split, DecodePacked, AddItems, CountOf, ItemsOf;
    if wireType == WT_STRING && fields[i].Packable() {
      SplitMore(s, more);
    } else {
      ValueMore(fields[i], Junk, s, more);
    }
  }

  lemma {:induction false} FieldMore(fields: seq<Field>, i: nat, wireType: nat, st: Progress, s: seq<byte>, more: seq<byte>)
    requires i < |fields| == |st.slots| && DecodeField(fields, i, wireType, st, s).Done?
    ensures var r := DecodeField(fields, i, wireType, st, s);
      DecodeField(fields, i, wireType, st, s + more) == Done(r.value, r.rest + more)
  {
    hide DecodeValue, DecodeRepeated;
    var entered := Enter(fields, i, st).value;
    if fields[i].htype.Repeated? {
      RepeatedMore(fields, i, wireType, entered, s, more);
    } else {
      ValueMore(fields[i], ValueOf(entered.slots[Home(fields, i)]), s, more);
    }
  }

  // ---- the loop ----

  /** The loop goes to the last byte: no zero byte in place of a tag has stopped it. */
  predicate NotStopped(fields: seq<Field>, st: Progress, s: seq<byte>)
    requires |st.slots| == |fields|
    decreases |s|
  {
    s == []
    || (var tag := DecodeTag(s);
        tag.Tag?
        && var next := AfterTag(fields, st, tag.tag, tag.wireType, tag.rest);
           next.Done? && NotStopped(fields, next.value, next.rest))
  }

  lemma {:induction false} AfterTagMore(fields: seq<Field>, st: Progress, tag: nat, wireType: nat, s: seq<byte>, more: seq<byte>)
    requires |st.slots| == |fields| && AfterTag(fields, st, tag, wireType, s).Done?
    ensures var r := AfterTag(fields, st, tag, wireType, s);
      AfterTag(fields, st, tag, wireType, s + more) == Done(r.value, r.rest + more)
  {
    hide DecodeField, Skip, Find;
    var found := Find(fields, tag);
    if found.Some? {
      FieldMore(fields, found.value, wireType, st, s, more);
    } else {
      SkipMore(wireType, s, more);
    }
  }

  lemma {:induction false} LoopStep(fields: seq<Field>, st: Progress, s: seq<byte>)
    requires |st.slots| == |fields| && s != [] && DecodeTag(s).Tag?
    ensures var tag := DecodeTag(s); var next := AfterTag(fields, st, tag.tag, tag.wireType, tag.rest);
      DecodeFields(fields, st, s) == if next.Done? then DecodeFields(fields, next.value, next.rest) else Fail
  {
    hide DecodeTag, DecodeField, Skip, Find;
  }

  /** The loop over both is the loop over the second, from where the first has left it. */
  lemma {:induction false} FieldsConcatenate(fields: seq<Field>, st: Progress, a: seq<byte>, b: seq<byte>)
    requires |st.slots| == |fields| && NotStopped(fields, st, a)
    ensures DecodeFields(fields, st, a).Done? && DecodeFields(fields, st, a).rest == []
    ensures DecodeFields(fields, st, a + b) == DecodeFields(fields, DecodeFields(fields, st, a).value, b)
    decreases |a|
  {
    hide DecodeTag, DecodeFields, AfterTag;
    if a == [] {
      assert a + b == b;
      LoopEnds(fields, st);
    } else {
      var tag := DecodeTag(a);
      var next := AfterTag(fields, st, tag.tag, tag.wireType, tag.rest);
      TagMore(a, b);
      AfterTagMore(fields, st, tag.tag, tag.wireType, tag.rest, b);
      LoopStep(fields, st, a);
      LoopStep(fields, st, a + b);
      FieldsConcatenate(fields, next.value, next.rest, b);
    }
  }

  lemma {:induction false} LoopEnds(fields: seq<Field>, st: Progress)
    requires |st.slots| == |fields|
    ensures DecodeFields(fields, st, []) == Done(st, [])
  {
  }

  // ---- whole messages ----

  predicate NoFixedArray(fields: seq<Field>) {
    forall i | 0 <= i < |fields| :: !fields[i].FixedCount()
  }

  /** The same struct, and nothing of an array without a count in progress; what has been seen may differ. */
  predicate SeenMore(a: Progress, b: Progress) {
    a.slots == b.slots && a.seen <= b.seen && a.fixedField == b.fixedField == None
  }

  lemma {:induction false} RepeatedSeenMore(fields: seq<Field>, i: nat, wireType: nat, a: Progress, b: Progress, s: seq<byte>)
    requires i < |fields| == |a.slots| && SeenMore(a, b) && fields[i].htype.Repeated? && !fields[i].FixedCount()
    ensures var x, y := DecodeRepeated(fields, i, wireType, a, s), DecodeRepeated(fields, i, wireType, b, s);
      (x.Done? <==> y.Done?) && (x.Done? ==> x.rest == y.rest && SeenMore(x.value, y.value))
  {
    hide DecodeValue, DecodePacked, Split, ItemsOf, PlaceItems;
    var f, h := fields[i], Home(fields, i);
    assert forall vs :: SeenMore(AddItems(fields, i, a, vs), AddItems(fields, i, b, vs));
  }

  lemma {:induction false} FieldSeenMore(fields: seq<Field>, i: nat, wireType: nat, a: Progress, b: Progress, s: seq<byte>)
    requires i < |fields| == |a.slots| && SeenMore(a, b) && NoFixedArray(fields)
    ensures var x, y := DecodeField(fields, i, wireType, a, s), DecodeField(fields, i, wireType, b, s);
      (x.Done? <==> y.Done?) && (x.Done? ==> x.rest == y.rest && SeenMore(x.value, y.value))
  {
    hide DecodeValue, DecodeRepeated, RequiredBefore;
    assert !fields[i].FixedCount();
    var ea, eb := Entered(fields, i, a), Entered(fields, i, b);
    assert SeenMore(ea, eb) && Enter(fields, i, a) == Some(ea) && Enter(fields, i, b) == Some(eb);
    if fields[i].htype.Repeated? {
      RepeatedSeenMore(fields, i, wireType, ea, eb, s);
    }
  }

  lemma {:induction false} LoopSeenMore(fields: seq<Field>, a: Progress, b: Progress, s: seq<byte>)
    requires |a.slots| == |fields| && SeenMore(a, b) && NoFixedArray(fields)
    ensures var x, y := DecodeFields(fields, a, s), DecodeFields(fields, b, s);
      (x.Done? <==> y.Done?) && (x.Done? ==> x.rest == y.rest && SeenMore(x.value, y.value))
    decreases |s|
  {
    hide DecodeTag, DecodeField, Skip, Find, SeenMore, NoFixedArray;
    SameLength(a, b);
    if s != [] && DecodeTag(s).Tag? {
      var tag := DecodeTag(s);
      var found := Find(fields, tag.tag);
      if found.Some? {
        FieldSeenMore(fields, found.value, tag.wireType, a, b, tag.rest);
        var x := DecodeField(fields, found.value, tag.wireType, a, tag.rest);
        var y := DecodeField(fields, found.value, tag.wireType, b, tag.rest);
        if x.Done? {
          LoopSeenMore(fields, x.value, y.value, x.rest);
        }
      } else if Skip(tag.wireType, tag.rest).Done? {
        LoopSeenMore(fields, a, b, Skip(tag.wireType, tag.rest).rest);
      }
    }
  }

  lemma SameLength(a: Progress, b: Progress)
    requires SeenMore(a, b)
    ensures |a.slots| == |b.slots|
  {
  }

  lemma {:induction false} StaysUncounted(fields: seq<Field>, st: Progress, s: seq<byte>)
    requires |st.slots| == |fields| && NoFixedArray(fields) && st.fixedField == None && DecodeFields(fields, st, s).Done?
    ensures DecodeFields(fields, st, s).value.fixedField == None
    decreases |s|
  {
    LoopSeenMore(fields, st, st, s);
  }

  /**
   * Two messages of one type behind each other, the first without a terminator: if both are accepted, the second on
   * top of the first, then so is their concatenation, with the same struct.
   */
  lemma {:induction false} MessagesMerge(fields: seq<Field>, slots: seq<Slot>, a: seq<byte>, b: seq<byte>)
    requires |slots| == |fields| && NoFixedArray(fields) && NotStopped(fields, Start(slots), a)
    requires DecodeMessage(fields, slots, a).Done? && DecodeMessage(fields, DecodeMessage(fields, slots, a).value, b).Done?
    ensures DecodeMessage(fields, slots, a + b) == DecodeMessage(fields, DecodeMessage(fields, slots, a).value, b)
  {
    hide DecodeFields, NotStopped, NoFixedArray;
    FieldsConcatenate(fields, Start(slots), a, b);
    var mid := DecodeFields(fields, Start(slots), a).value;
    StaysUncounted(fields, Start(slots), a);
    LoopSeenMore(fields, Start(mid.slots), mid, b);
  }

  /** With an array without a count it is different: its entries cannot be sent a second time. */
  lemma {:induction false} ArrayTwice()
    ensures exists f: Field, s: seq<byte> ::
      && TableValid([f]) && f.FixedCount() && Decode([f], s).Done?
      && DecodeMessage([f], Decode([f], s).value, s).Done? && Decode([f], s + s) == Fail
  {
    var f := Field(1, Repeated, Fixed32, 0, 0, 4, 1, None);
    assert FieldValid(f);
    assert TableValid([f]);
    var s := EncodeTag(1, WT_32BIT) + [7, 0, 0, 0];
    var slots := InitSlots([f]);
    OneEntry(f, slots, []);
    assert s + [] == s;
    OneEntry(f, Decode([f], s).value, []);
    OneEntry(f, slots, s);
    assert Decode([f], s) == DecodeMessage([f], slots, s) && Decode([f], s + s) == DecodeMessage([f], slots, s + s);
  }

  lemma {:induction false} OneEntry(f: Field, slots: seq<Slot>, rest: seq<byte>)
    requires f == Field(1, Repeated, Fixed32, 0, 0, 4, 1, None) && |slots| == 1
    ensures var s := EncodeTag(1, WT_32BIT) + [7, 0, 0, 0];
      && (rest == [] ==> DecodeMessage([f], slots, s).Done? && DecodeMessage([f], slots, s + rest).Done?)
      && (rest == s ==> DecodeMessage([f], slots, s + rest) == Fail)
  {
    hide EncodeTag, DecodeTag, FromLittleEndian, PlaceItems, DecodeFields;
    var body: seq<byte> := [7, 0, 0, 0];
    var s := EncodeTag(1, WT_32BIT) + body;
    var st := Start(slots);
    assert DistinctTags([f]) && FieldValid(f);
    WordRead(f, Entered([f], 0, st), body + rest);
    assert DecodeField([f], 0, WT_32BIT, st, body + rest).Done?;
    TaggedStep([f], 0, WT_32BIT, st, body, rest);
    var next := DecodeField([f], 0, WT_32BIT, st, body + rest).value;
    assert next.fixedField == Some(0) && next.fixedSize == 1 && (body + rest)[4..] == rest;
    if rest == [] {
      LoopEnds([f], next);
      assert s + rest == s;
    } else if rest == s {
      TagRoundTrip(1, WT_32BIT, body);
      assert Find([f], 1) == Some(0);
      RepeatedField([f], 0, WT_32BIT, next, body);
      LoopStep([f], next, s);
    }
  }

  lemma {:induction false} WordRead(f: Field, st: Progress, s: seq<byte>)
    requires f == Field(1, Repeated, Fixed32, 0, 0, 4, 1, None) && |st.slots| == 1 && |s| >= 4
    requires st.fixedField == Some(0) && st.fixedSize == 0
    ensures var r := DecodeEntered([f], 0, WT_32BIT, st, s);
      r.Done? && r.rest == s[4..] && r.value.fixedField == Some(0) && r.value.fixedSize == 1
  {
    hide FromLittleEndian, PlaceItems;
    assert DecodeValue(f, Junk, s) == DecodeScalar(f, s) == Done(Int(FromLittleEndian(s[..4])), s[4..]);
    assert DecodeEntered([f], 0, WT_32BIT, st, s) == DecodeRepeated([f], 0, WT_32BIT, st, s);
  }

  // ---- one field twice ----

  /** Of a scalar field that is no array, what was sent last counts, in whatever state it is read. */
  lemma {:induction false} LastWins(fields: seq<Field>, i: nat, st: Progress, v: Value, w: Value, rest: seq<byte>)
    requires i < |fields| == |st.slots| && DistinctTags(fields) && FieldValid(fields[i])
    requires !fields[i].htype.Repeated? && !fields[i].ltype.Submessage? && Storable(fields[i], v) && Storable(fields[i], w)
    ensures EncodeTagged(fields[i], v).Some? && EncodeTagged(fields[i], w).Some?
    ensures DecodeFields(fields, st, EncodeTagged(fields[i], v).value + EncodeTagged(fields[i], w).value + rest)
         == DecodeFields(fields, st, EncodeTagged(fields[i], w).value + rest)
         == DecodeFields(fields, Entered(fields, i, st).(slots := st.slots[Home(fields, i) := One(PresentFlag(fields[i]), w)]), rest)
  {
    hide DecodeFields, EncodeTagged, DistinctTags, FieldValid, Storable;
    var f, h := fields[i], Home(fields, i);
    OneRead(fields, i, st, w, rest);
    var y := EncodeTagged(f, w).value;
    OneRead(fields, i, st, v, y + rest);
    var x := EncodeTagged(f, v).value;
    var next := Entered(fields, i, st).(slots := st.slots[h := One(PresentFlag(f), v)]);
    assert x + y + rest == x + (y + rest);
    OneRead(fields, i, next, w, rest);
    assert next.slots[h := One(PresentFlag(f), w)] == st.slots[h := One(PresentFlag(f), w)];
  }

  lemma {:induction false} OneRead(fields: seq<Field>, i: nat, st: Progress, v: Value, rest: seq<byte>)
    requires i < |fields| == |st.slots| && DistinctTags(fields) && FieldValid(fields[i])
    requires !fields[i].htype.Repeated? && !fields[i].ltype.Submessage? && Storable(fields[i], v)
    ensures EncodeTagged(fields[i], v).Some?
    ensures DecodeFields(fields, st, EncodeTagged(fields[i], v).value + rest)
         == DecodeFields(fields, Entered(fields, i, st).(slots := st.slots[Home(fields, i) := One(PresentFlag(fields[i]), v)]), rest)
  {
    hide EncodeTag, Storable, FieldValid, DecodeFields, DistinctTags, EncodeScalar, DecodeScalar, RequiredBefore;
    var f := fields[i];
    PackedSizes(f);
    ScalarRoundTrip(f, v, rest);
    var body := EncodeScalar(f, v).value;
    assert DecodeValue(f, ValueOf(st.slots[Home(fields, i)]), body + rest) == Done(v, rest);
    assert DecodeField(fields, i, f.WireType(), st, body + rest)
        == Done(Entered(fields, i, st).(slots := st.slots[Home(fields, i) := One(PresentFlag(f), v)]), rest);
    TaggedStep(fields, i, f.WireType(), st, body, rest);
  }
}
