/** When a message is accepted: what must have been in it, said of its bytes and not of the decoder's bookkeeping. */
module PbRequired {
  import opened Bytes
  import opened PbWire
  import opened PbSchema
  import opened PbCodec
  import opened PbUnknown

  // ---- the arrays without a count ----

  /** Consecutive entries of one array without a count: which array, and how many. */
  datatype FixedRun = FixedRun(entry: nat, count: nat)

  /** How many entries of the array a tag and its value bring: a packed value any number, another one. */
  function Brings(f: Field, wireType: nat, s: seq<byte>): nat {
    if wireType == WT_STRING && f.Packable() && Split(s).Done? && DecodePacked(f, f.arraySize, Split(s).value).Some?
    then |DecodePacked(f, f.arraySize, Split(s).value).value| else 1
  }

  /** The last run goes on, or another begins. */
  function MoreOf(runs: seq<FixedRun>, i: nat, k: nat): seq<FixedRun> {
    if runs != [] && runs[|runs| - 1].entry == i then runs[..|runs| - 1] + [FixedRun(i, runs[|runs| - 1].count + k)]
    else runs + [FixedRun(i, k)]
  }

  /** The runs once the field at the front of `s` has been read. */
  function RunsAfter(fields: seq<Field>, runs: seq<FixedRun>, s: seq<byte>): seq<FixedRun> {
    var tag := DecodeTag(s);
    match EntryOf(fields, s)
    case None => runs
    case Some(i) => if tag.Tag? && fields[i].FixedCount() then MoreOf(runs, i, Brings(fields[i], tag.wireType, tag.rest)) else runs
  }

  /** The runs of the whole message, on top of those before it. */
  function RunsFrom(fields: seq<Field>, runs: seq<FixedRun>, st: Progress, s: seq<byte>): seq<FixedRun>
    requires |st.slots| == |fields|
    decreases |s|
  {
    if s == [] || !ReadField(fields, st, s).Done? then runs
    else
      var r := ReadField(fields, st, s);
      RunsFrom(fields, RunsAfter(fields, runs, s), r.value, r.rest)
  }

  function FixedRuns(fields: seq<Field>, slots: seq<Slot>, s: seq<byte>): seq<FixedRun>
    requires |slots| == |fields|
  {
    RunsFrom(fields, [], Start(slots), s)
  }

  predicate WholeRun(fields: seq<Field>, run: FixedRun) {
    run.entry < |fields| && fields[run.entry].FixedCount() && run.count == fields[run.entry].arraySize
  }

  predicate AllWhole(fields: seq<Field>, runs: seq<FixedRun>) {
    forall k | 0 <= k < |runs| :: WholeRun(fields, runs[k])
  }

  /** The decoder's counter is the last run, and the runs before it are whole. */
  predicate Tallies(fields: seq<Field>, runs: seq<FixedRun>, st: Progress) {
    if runs == [] then st.fixedField.None?
    else
      var last := runs[|runs| - 1];
      && st.fixedField == Some(last.entry) && st.fixedSize == last.count
      && last.entry < |fields| && fields[last.entry].FixedCount() && AllWhole(fields, runs[..|runs| - 1])
  }

  lemma {:induction false} MoreRoom(f: Field, room: nat, more: nat, s: seq<byte>)
    requires f.Packable() && room <= more && DecodePacked(f, room, s).Some?
    ensures DecodePacked(f, more, s) == DecodePacked(f, room, s)
    decreases |s|
  {
    hide DecodeScalar;
    if s != [] {
      MoreRoom(f, room - 1, more - 1, DecodeScalar(f, s).rest);
    }
  }

  lemma {:induction false} RepeatedCounts(fields: seq<Field>, i: nat, wireType: nat, st: Progress, s: seq<byte>)
    requires i < |fields| == |st.slots| && fields[i].FixedCount() && DecodeRepeated(fields, i, wireType, st, s).Done?
    ensures var next := DecodeRepeated(fields, i, wireType, st, s).value;
      next.fixedField == st.fixedField && next.fixedSize == st.fixedSize + Brings(fields[i], wireType, s)
  {
    hide DecodeValue, PlaceItems, ItemsOf, DecodePacked, Split;
    var f := fields[i];
    if wireType == WT_STRING && f.Packable() {
      MoreRoom(f, if st.fixedSize < f.arraySize then f.arraySize - st.fixedSize else 0, f.arraySize, Split(s).value);
    }
  }

  lemma {:induction false} FieldCounts(fields: seq<Field>, i: nat, wireType: nat, st: Progress, s: seq<byte>)
    requires i < |fields| == |st.slots| && DecodeField(fields, i, wireType, st, s).Done?
    ensures var next := DecodeField(fields, i, wireType, st, s).value;
      if !fields[i].FixedCount() then next.fixedField == st.fixedField && next.fixedSize == st.fixedSize
      else
        && next.fixedField == Some(i) && (st.fixedField == Some(i) || FixedComplete(fields, st))
        && next.fixedSize == (if st.fixedField == Some(i) then st.fixedSize else 0) + Brings(fields[i], wireType, s)
  {
    hide DecodeValue, DecodeRepeated, FixedComplete, Brings;
    var entered := Enter(fields, i, st).value;
    if fields[i].htype.Repeated? {
      assert DecodeField(fields, i, wireType, st, s) == DecodeRepeated(fields, i, wireType, entered, s);
      if fields[i].FixedCount() {
        RepeatedCounts(fields, i, wireType, entered, s);
      } else {
        OtherArray(fields, i, wireType, entered, s);
      }
    }
  }

  lemma OtherArray(fields: seq<Field>, i: nat, wireType: nat, st: Progress, s: seq<byte>)
    requires i < |fields| == |st.slots| && fields[i].htype.Repeated? && !fields[i].FixedCount()
    requires DecodeRepeated(fields, i, wireType, st, s).Done?
    ensures var next := DecodeRepeated(fields, i, wireType, st, s).value;
      next.fixedField == st.fixedField && next.fixedSize == st.fixedSize
  {
    hide DecodeValue, PlaceItems, ItemsOf, DecodePacked, Split;
  }

  /** One field keeps the tally. */
  lemma {:induction false} FieldTallies(fields: seq<Field>, runs: seq<FixedRun>, st: Progress, s: seq<byte>)
    requires |st.slots| == |fields| && ReadField(fields, st, s).Done? && Tallies(fields, runs, st)
    ensures Tallies(fields, RunsAfter(fields, runs, s), ReadField(fields, st, s).value)
  {
    hide DecodeTag, Find, Skip, DecodeField, Brings;
    var tag := DecodeTag(s);
    if Find(fields, tag.tag).Some? {
      var i := Find(fields, tag.tag).value;
      FieldCounts(fields, i, tag.wireType, st, tag.rest);
      if fields[i].FixedCount() && runs != [] && runs[|runs| - 1].entry != i {
        assert (runs + [FixedRun(i, Brings(fields[i], tag.wireType, tag.rest))])[..|runs|] == runs;
        assert runs == runs[..|runs| - 1] + [runs[|runs| - 1]];
      }
    }
  }

  lemma {:induction false} LoopTallies(fields: seq<Field>, runs: seq<FixedRun>, st: Progress, s: seq<byte>)
    requires |st.slots| == |fields| && DecodeFields(fields, st, s).Done? && Tallies(fields, runs, st)
    ensures Tallies(fields, RunsFrom(fields, runs, st, s), DecodeFields(fields, st, s).value)
    decreases |s|
  {
    hide ReadField, DecodeFields, RunsAfter, Tallies;
    if s == [] || !ReadField(fields, st, s).Done? {
      LoopEnds(fields, st, s);
    } else {
      var r := ReadField(fields, st, s);
      LoopStep(fields, st, s);
      FieldTallies(fields, runs, st, s);
      LoopTallies(fields, RunsAfter(fields, runs, s), r.value, r.rest);
    }
  }

  lemma {:induction false} CompleteIffWhole(fields: seq<Field>, runs: seq<FixedRun>, st: Progress)
    requires Tallies(fields, runs, st)
    ensures FixedComplete(fields, st) <==> AllWhole(fields, runs)
  {
    if runs != [] {
      var last := |runs| - 1;
      forall k | 0 <= k < last ensures WholeRun(fields, runs[k]) {
        assert runs[..last][k] == runs[k];
      }
    }
  }

  // ---- exactly which messages are accepted ----

  /** Each of the first 64 required entries is in the message. */
  predicate HasRequired(fields: seq<Field>, slots: seq<Slot>, s: seq<byte>)
    requires |slots| == |fields|
  {
    forall i | 0 <= i < |fields| && Tracked(fields, i) :: i in Met(fields, Start(slots), s)
  }

  /**
   * A message is accepted exactly when all its fields are, each of the first 64 required entries was met, and
   * every run of an array without a count has all the array's entries.
   */
  lemma {:induction false} AcceptedIff(fields: seq<Field>, slots: seq<Slot>, s: seq<byte>)
    requires |slots| == |fields|
    ensures DecodeMessage(fields, slots, s).Done?
       <==> && DecodeFields(fields, Start(slots), s).Done?
            && HasRequired(fields, slots, s) && AllWhole(fields, FixedRuns(fields, slots, s))
    ensures DecodeMessage(fields, slots, s).Done? ==>
      DecodeMessage(fields, slots, s) == Done(DecodeFields(fields, Start(slots), s).value.slots, DecodeFields(fields, Start(slots), s).rest)
  {
    hide DecodeFields, RunsFrom, AllWhole, FixedComplete, RequiredSeen, Tallies, Tracked, Met;
    if DecodeFields(fields, Start(slots), s).Done? {
      RequiredExact(fields, slots, s);
      NothingTallied(fields, slots);
      LoopTallies(fields, [], Start(slots), s);
      CompleteIffWhole(fields, FixedRuns(fields, slots, s), DecodeFields(fields, Start(slots), s).value);
    }
  }

  lemma NothingTallied(fields: seq<Field>, slots: seq<Slot>)
    ensures Tallies(fields, [], Start(slots))
  {
  }

  /** While fields are read at all, every run but the last is whole: a half-read array is not left for another. */
  lemma {:induction false} LeftOnlyWhole(fields: seq<Field>, slots: seq<Slot>, s: seq<byte>, k: nat)
    requires |slots| == |fields| && DecodeFields(fields, Start(slots), s).Done? && k + 1 < |FixedRuns(fields, slots, s)|
    ensures WholeRun(fields, FixedRuns(fields, slots, s)[k])
  {
    hide DecodeFields, RunsFrom, WholeRun;
    NothingTallied(fields, slots);
    LoopTallies(fields, [], Start(slots), s);
    var runs := FixedRuns(fields, slots, s);
    assert runs[..|runs| - 1][k] == runs[k];
  }

  /** A table with one required number, and an empty message: refused. */
  lemma MissingRequired()
    ensures exists f: Field :: TableValid([f]) && f.htype.Required? && Decode([f], []) == Fail
  {
    var f := Field(1, Required, UVarInt, 0, 0, 4, 0, None);
    assert FieldValid(f);
    assert TableValid([f]);
    assert Tracked([f], 0);
    var slots := InitSlots([f]);
    AcceptedIff([f], slots, []);
    assert Met([f], Start(slots), []) == {};
    assert Decode([f], []) == DecodeMessage([f], slots, []);
  }

  /** An array of two numbers without a count, of which only one comes: refused. */
  lemma HalfArray()
    ensures exists f: Field, s: seq<byte> ::
      && TableValid([f]) && f.FixedCount() && f.arraySize == 2
      && DecodeFields([f], Start(InitSlots([f])), s).Done? && Decode([f], s) == Fail
  {
    var f := Field(1, Repeated, Fixed32, 0, 0, 4, 2, None);
    assert FieldValid(f);
    assert TableValid([f]);
    var slots := InitSlots([f]);
    var st := Start(slots);
    var body := [7, 0, 0, 0];
    var s := EncodeTag(1, WT_32BIT) + body;
    OneEntry(f, st, body);
    AcceptedIff([f], slots, s);
    assert Decode([f], s) == DecodeMessage([f], slots, s);
  }

  lemma {:induction false} OneEntry(f: Field, st: Progress, body: seq<byte>)
    requires f == Field(1, Repeated, Fixed32, 0, 0, 4, 2, None) && |body| == 4
    requires st == Start(InitSlots([f]))
    ensures var s := EncodeTag(1, WT_32BIT) + body;
      DecodeFields([f], st, s).Done? && FixedRuns([f], InitSlots([f]), s) == [FixedRun(0, 1)]
  {
    hide EncodeTag, DecodeTag, FromLittleEndian;
    var s := EncodeTag(1, WT_32BIT) + body;
    TagRoundTrip(1, WT_32BIT, body);
    assert Find([f], 1) == Some(0);
    assert Switches([f], 0, st) && FixedComplete([f], st);
    var entered := Entered([f], 0, st);
    assert DecodeValue(f, Junk, body) == DecodeScalar(f, body) == Done(Int(FromLittleEndian(body[..4])), []);
    assert DecodeRepeated([f], 0, WT_32BIT, entered, body).Done?;
    assert DecodeEntered([f], 0, WT_32BIT, entered, body) == DecodeRepeated([f], 0, WT_32BIT, entered, body);
    assert DecodeField([f], 0, WT_32BIT, st, body) == DecodeEntered([f], 0, WT_32BIT, entered, body);
    var r := ReadField([f], st, s);
    assert r.Done? && r.rest == [];
    LoopStep([f], st, s);
    assert RunsAfter([f], [], s) == [FixedRun(0, 1)];
    assert RunsFrom([f], [FixedRun(0, 1)], r.value, r.rest) == [FixedRun(0, 1)];
  }
}
