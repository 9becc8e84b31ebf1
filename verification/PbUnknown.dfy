/** Fields that the table does not know, and the check that required fields were seen. */
module PbUnknown {
  import opened Bytes
  import opened PbWire
  import opened PbSchema
  import opened PbCodec

  // ---- no decoder looks further than what it consumes ----

  lemma {:induction false} TakeLocal(n: nat, s: seq<byte>, x: seq<byte>)
    requires Take(n, s).Done?
    ensures s == Consumed(s, Take(n, s).rest) + Take(n, s).rest
    ensures Take(n, Consumed(s, Take(n, s).rest) + x) == Done(Take(n, s).value, x)
  {
    assert (s[..n] + x)[..n] == s[..n] && (s[..n] + x)[n..] == x;
  }

  /** A length and that many bytes, as the three kinds of byte cells read them. */
  lemma {:induction false} LengthTakeLocal(s: seq<byte>, x: seq<byte>)
    requires DecodeVarint32(s).Done? && Take(DecodeVarint32(s).value, DecodeVarint32(s).rest).Done?
    ensures var len := DecodeVarint32(s); var r := Take(len.value, len.rest);
      && |r.rest| <= |s| && s == Consumed(s, r.rest) + r.rest
      && DecodeVarint32(Consumed(s, r.rest) + x) == Done(len.value, Consumed(len.rest, r.rest) + x)
      && Take(len.value, Consumed(len.rest, r.rest) + x) == Done(r.value, x)
  {
    hide DecodeVarint32;
    var len := DecodeVarint32(s);
    var r := Take(len.value, len.rest);
    TakeLocal(len.value, len.rest, x);
    DecodeVarint32Local(s, Consumed(len.rest, r.rest) + x);
    assert Consumed(s, r.rest) + x == Consumed(s, len.rest) + (Consumed(len.rest, r.rest) + x);
  }

  lemma {:induction false} DecodeBytesLocal(f: Field, s: seq<byte>, x: seq<byte>)
    requires (f.ltype.BytesArray? || f.ltype.CString? || f.ltype.FixedLengthBytes?) && DecodeScalar(f, s).Done?
    ensures var r := DecodeScalar(f, s);
      s == Consumed(s, r.rest) + r.rest && DecodeScalar(f, Consumed(s, r.rest) + x) == Done(r.value, x)
  {
    hide DecodeVarint32, Take, UpToNul, Consumed;
    var len := DecodeVarint32(s);
    if f.ltype.FixedLengthBytes? && len.value == 0 {
      DecodeVarint32Local(s, x);
    } else {
      LengthTakeLocal(s, x);
    }
  }

  lemma {:induction false} DecodeScalarLocal(f: Field, s: seq<byte>, x: seq<byte>)
    requires !f.ltype.Submessage? && DecodeScalar(f, s).Done?
    ensures var r := DecodeScalar(f, s);
      s == Consumed(s, r.rest) + r.rest && DecodeScalar(f, Consumed(s, r.rest) + x) == Done(r.value, x)
  {
    hide Varint64From, Shl, DecodeBlob, DecodeString, DecodeFixedBytes, Signed, UnZigZag, FromLittleEndian;
    match f.ltype
    case Fixed32 => TakeLocal(4, s, x);
    case Fixed64 => TakeLocal(8, s, x);
    case VarInt | UVarInt | SVarInt => Varint64Local(s, 0, 0, x);
    case _ => DecodeBytesLocal(f, s, x);
  }

  lemma {:induction false} DecodeValueLocal(f: Field, prev: Value, s: seq<byte>, x: seq<byte>)
    requires DecodeValue(f, prev, s).Done?
    ensures var r := DecodeValue(f, prev, s);
      s == Consumed(s, r.rest) + r.rest && DecodeValue(f, prev, Consumed(s, r.rest) + x) == Done(r.value, x)
  {
    hide DecodeScalar, Split, DecodeMessage, InitSlots, SlotsOf, Consumed;
    if f.ltype.Submessage? {
      SplitLocal(s, x);
    } else {
      DecodeScalarLocal(f, s, x);
    }
  }

  lemma {:induction false} DecodeRepeatedLocal(fields: seq<Field>, i: nat, wireType: nat, st: Progress, s: seq<byte>, x: seq<byte>)
    requires i < |fields| == |st.slots| && fields[i].htype.Repeated? && DecodeRepeated(fields, i, wireType, st, s).Done?
    ensures var r := DecodeRepeated(fields, i, wireType, st, s);
      s == Consumed(s, r.rest) + r.rest
      && DecodeRepeated(fields, i, wireType, st, Consumed(s, r.rest) + x) == Done(r.value, x)
  {
    hide Split, DecodeValue, AddItems, CountOf, ItemsOf, DecodePacked, Consumed;
    if wireType == WT_STRING && fields[i].Packable() {
      SplitLocal(s, x);
    } else {
      DecodeValueLocal(fields[i], Junk, s, x);
    }
  }

  lemma {:induction false} DecodeFieldLocal(fields: seq<Field>, i: nat, wireType: nat, st: Progress, s: seq<byte>, x: seq<byte>)
    requires i < |fields| == |st.slots| && DecodeField(fields, i, wireType, st, s).Done?
    ensures var r := DecodeField(fields, i, wireType, st, s);
      s == Consumed(s, r.rest) + r.rest
      && DecodeField(fields, i, wireType, st, Consumed(s, r.rest) + x) == Done(r.value, x)
  {
    hide DecodeRepeated, DecodeValue, Enter, Consumed;
    var entered := Enter(fields, i, st).value;
    if fields[i].htype.Repeated? {
      DecodeRepeatedLocal(fields, i, wireType, entered, s, x);
    } else {
      DecodeValueLocal(fields[i], ValueOf(st.slots[Home(fields, i)]), s, x);
    }
  }

  // ---- the loop, one field at a time ----

  /** One round of the decoding loop: a tag, and then the entry it names, or the value to be skipped. */
  function ReadField(fields: seq<Field>, st: Progress, s: seq<byte>): (r: Read<Progress>)
    requires |st.slots| == |fields|
    ensures r.Done? ==> |r.rest| < |s| && |r.value.slots| == |fields|
  {
    match DecodeTag(s)
    case TagFail => Fail
    case TagEnd(_) => Fail
    case Tag(tag, wireType, rest) => AfterTag(fields, st, tag, wireType, rest)
  }

  lemma {:induction false} LoopStep(fields: seq<Field>, st: Progress, s: seq<byte>)
    requires |st.slots| == |fields| && ReadField(fields, st, s).Done? && s != []
    ensures var r := ReadField(fields, st, s); DecodeFields(fields, st, s) == DecodeFields(fields, r.value, r.rest)
  {
    hide DecodeTag, Find, Skip, DecodeField;
  }

  lemma {:induction false} ReadFieldLocal(fields: seq<Field>, st: Progress, s: seq<byte>, x: seq<byte>)
    requires |st.slots| == |fields| && ReadField(fields, st, s).Done?
    ensures var r := ReadField(fields, st, s);
      s == Consumed(s, r.rest) + r.rest && ReadField(fields, st, Consumed(s, r.rest) + x) == Done(r.value, x)
  {
    hide DecodeTag, Find, Skip, DecodeField;
    var tag, r := DecodeTag(s), ReadField(fields, st, s);
    if Find(fields, tag.tag).None? {
      SkipLocal(tag.wireType, tag.rest, x);
    } else {
      DecodeFieldLocal(fields, Find(fields, tag.tag).value, tag.wireType, st, tag.rest, x);
    }
    DecodeTagLocal(s, Consumed(tag.rest, r.rest) + x);
    assert Consumed(s, r.rest) + x == Consumed(s, tag.rest) + (Consumed(tag.rest, r.rest) + x);
    assert Consumed(s, r.rest) + r.rest == s;
  }

  /** The first `at` bytes of `s` are whole fields. */
  predicate AtBoundary(fields: seq<Field>, st: Progress, s: seq<byte>, at: nat)
    requires |st.slots| == |fields| && at <= |s|
    decreases |s|
  {
    at == 0 ||
    (var r := ReadField(fields, st, s);
      r.Done? && |s| - |r.rest| <= at && AtBoundary(fields, r.value, r.rest, at - (|s| - |r.rest|)))
  }

  /** A well-formed field that the table does not know, other than a group. */
  predicate UnknownField(fields: seq<Field>, u: seq<byte>) {
    var tag := DecodeTag(u);
    tag.Tag? && tag.tag != 0 && Find(fields, tag.tag).None? && Skip(tag.wireType, tag.rest) == Done((), [])
  }

  lemma {:induction false} UnknownSkipped(fields: seq<Field>, st: Progress, u: seq<byte>, rest: seq<byte>)
    requires |st.slots| == |fields| && UnknownField(fields, u)
    ensures DecodeFields(fields, st, u + rest) == DecodeFields(fields, st, rest)
  {
    hide DecodeTag, Find, Skip, DecodeField;
    var tag := DecodeTag(u);
    SkipLocal(tag.wireType, tag.rest, rest);
    assert tag.rest + [] == tag.rest && Consumed(tag.rest, []) == tag.rest;
    DecodeTagLocal(u, tag.rest + rest);
    assert u + rest == Consumed(u, tag.rest) + (tag.rest + rest);
  }

  /** Unknown fields put between others change nothing: same struct, same bytes left, same failures. */
  lemma {:induction false} UnknownIgnored(fields: seq<Field>, st: Progress, s: seq<byte>, at: nat, u: seq<byte>)
    requires |st.slots| == |fields| && at <= |s| && AtBoundary(fields, st, s, at) && UnknownField(fields, u)
    ensures DecodeFields(fields, st, s[..at] + u + s[at..]) == DecodeFields(fields, st, s)
    decreases |s|
  {
    hide ReadField, UnknownField, DecodeFields, Consumed;
    if at == 0 {
      assert s[..0] + u + s[0..] == u + s;
      UnknownSkipped(fields, st, u, s);
    } else {
      var r := ReadField(fields, st, s);
      var n := |s| - |r.rest|;
      var tail := r.rest[..at - n] + u + r.rest[at - n..];
      ReadFieldLocal(fields, st, s, tail);
      InsertLater(s, r.rest, at, u);
      LoopStep(fields, st, s);
      LoopStep(fields, st, s[..at] + u + s[at..]);
      UnknownIgnored(fields, r.value, r.rest, at - n, u);
    }
  }

  lemma {:induction false} InsertLater(s: seq<byte>, rest: seq<byte>, at: nat, u: seq<byte>)
    requires |rest| <= |s| && |s| - |rest| <= at <= |s| && s == Consumed(s, rest) + rest
    ensures var n := |s| - |rest|;
      s[..at] + u + s[at..] == Consumed(s, rest) + (rest[..at - n] + u + rest[at - n..])
  {
    var n := |s| - |rest|;
    assert s[..at] == Consumed(s, rest) + rest[..at - n];
    assert s[at..] == rest[at - n..];
  }

  lemma {:induction false} MessageIgnoresUnknown(fields: seq<Field>, slots: seq<Slot>, s: seq<byte>, at: nat, u: seq<byte>)
    requires |slots| == |fields| && at <= |s| && AtBoundary(fields, Start(slots), s, at) && UnknownField(fields, u)
    ensures DecodeMessage(fields, slots, s[..at] + u + s[at..]) == DecodeMessage(fields, slots, s)
  {
    hide AtBoundary, UnknownField, DecodeFields, FixedComplete, RequiredSeen;
    UnknownIgnored(fields, Start(slots), s, at, u);
  }

  // ---- required fields ----

  /** The entry that the tag at the front of `s` names. */
  function EntryOf(fields: seq<Field>, s: seq<byte>): (r: Option<nat>)
    ensures r.Some? ==> r.value < |fields|
  {
    var tag := DecodeTag(s);
    if tag.Tag? then Find(fields, tag.tag) else None
  }

  /** The entries whose tags the loop has met. */
  function Met(fields: seq<Field>, st: Progress, s: seq<byte>): (r: set<nat>)
    requires |st.slots| == |fields|
    decreases |s|
  {
    if s == [] || !ReadField(fields, st, s).Done? then {}
    else
      var r := ReadField(fields, st, s);
      var found := EntryOf(fields, s);
      (if found.Some? then {found.value} else {}) + Met(fields, r.value, r.rest)
  }

  lemma {:induction false} DecodeFieldSeen(fields: seq<Field>, i: nat, wireType: nat, st: Progress, s: seq<byte>)
    requires i < |fields| == |st.slots| && DecodeField(fields, i, wireType, st, s).Done?
    ensures DecodeField(fields, i, wireType, st, s).value.seen
         == st.seen + (if Tracked(fields, i) then {RequiredBefore(fields, i)} else {})
  {
    hide DecodeValue, PlaceItems, ItemsOf, CountOf, FixedComplete, DecodePacked, Split;
    var entered := Enter(fields, i, st).value;
    assert DecodeField(fields, i, wireType, st, s) == DecodeEntered(fields, i, wireType, entered, s);
    if fields[i].htype.Repeated? {
      assert DecodeEntered(fields, i, wireType, entered, s) == DecodeRepeated(fields, i, wireType, entered, s);
    }
  }

  lemma {:induction false} LoopEnds(fields: seq<Field>, st: Progress, s: seq<byte>)
    requires |st.slots| == |fields| && DecodeFields(fields, st, s).Done? && (s == [] || !ReadField(fields, st, s).Done?)
    ensures DecodeFields(fields, st, s).value == st
  {
    hide DecodeTag, Find, Skip, DecodeField;
  }

  /** The bits set are those of the required fields met, and nothing else. */
  lemma {:induction false} SeenIsMet(fields: seq<Field>, st: Progress, s: seq<byte>, n: nat)
    requires |st.slots| == |fields| && DecodeFields(fields, st, s).Done?
    ensures n in DecodeFields(fields, st, s).value.seen
       <==> n in st.seen || exists i | i in Met(fields, st, s) :: i < |fields| && Tracked(fields, i) && RequiredBefore(fields, i) == n
    decreases |s|
  {
    hide ReadField, Tracked, RequiredBefore, DecodeFields, EntryOf;
    if s == [] || !ReadField(fields, st, s).Done? {
      LoopEnds(fields, st, s);
    } else {
      var r, found := ReadField(fields, st, s), EntryOf(fields, s);
      LoopStep(fields, st, s);
      SeenIsMet(fields, r.value, r.rest, n);
      ReadFieldSeen(fields, st, s);
      assert Met(fields, st, s) == (if found.Some? then {found.value} else {}) + Met(fields, r.value, r.rest);
    }
  }

  lemma {:induction false} ReadFieldSeen(fields: seq<Field>, st: Progress, s: seq<byte>)
    requires |st.slots| == |fields| && ReadField(fields, st, s).Done?
    ensures var found := EntryOf(fields, s);
      ReadField(fields, st, s).value.seen
        == st.seen + (if found.Some? && Tracked(fields, found.value) then {RequiredBefore(fields, found.value)} else {})
  {
    hide DecodeTag, Find, Skip, DecodeField, Tracked, RequiredBefore;
    var tag := DecodeTag(s);
    if Find(fields, tag.tag).Some? {
      DecodeFieldSeen(fields, Find(fields, tag.tag).value, tag.wireType, st, tag.rest);
    }
  }

  lemma {:induction false} RequiredIndexUnique(fields: seq<Field>, i: nat, j: nat)
    requires i < |fields| && j < |fields| && fields[i].htype.Required? && fields[j].htype.Required?
    requires RequiredBefore(fields, i) == RequiredBefore(fields, j)
    ensures i == j
  {
    if i < j {
      RequiredBeforeGrows(fields, i, j);
    } else if j < i {
      RequiredBeforeGrows(fields, j, i);
    }
  }

  /**
   * The final check passes exactly when each of the first 64 required entries was met, whatever
   * else the message held and in whatever order.
   */
  lemma {:induction false} RequiredExact(fields: seq<Field>, slots: seq<Slot>, s: seq<byte>)
    requires |slots| == |fields| && DecodeFields(fields, Start(slots), s).Done?
    ensures RequiredSeen(fields, DecodeFields(fields, Start(slots), s).value.seen)
       <==> forall i | 0 <= i < |fields| && Tracked(fields, i) :: i in Met(fields, Start(slots), s)
  {
    hide DecodeFields, Met, RequiredBefore;
    forall i | 0 <= i < |fields| && Tracked(fields, i)
      ensures RequiredBefore(fields, i) in DecodeFields(fields, Start(slots), s).value.seen
        <==> i in Met(fields, Start(slots), s)
    {
      SeenIsMet(fields, Start(slots), s, RequiredBefore(fields, i));
      forall j | j in Met(fields, Start(slots), s) && j < |fields| && Tracked(fields, j)
                 && RequiredBefore(fields, j) == RequiredBefore(fields, i)
        ensures j == i
      {
        RequiredIndexUnique(fields, i, j);
      }
    }
  }
}
