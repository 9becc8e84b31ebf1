/** What a caller gets back from a round trip, and when it is everything that was put in. */
module PbRestore {
  import opened Bytes
  import opened PbWire
  import opened PbSchema
  import opened PbCodec
  import opened PbRoundTrip

  // ---- the decoded struct, entry by entry ----

  /** What entry `i` of the decoded struct holds: the encoded value if it was present, else its default. */
  predicate Settled(fields: seq<Field>, slots: seq<Slot>, i: nat, s: Slot)
    requires i < |fields| == |slots|
  {
    var f, was := fields[i], slots[Home(fields, i)];
    if !Present(f, was) then
      if f.htype.Oneof? then FlagOf(s) != f.tag && (FlagOf(s) == 0 || FlagOf(s) == FlagOf(was)) else s == InitSlot(f)
    else if f.htype.Repeated? then s.Many? && s.items == CanonItems(f, ItemsOf(f, was))
    else s == One(PresentFlag(f), CanonValue(f, ValueOf(was)))
  }

  /** The slot of a union, as far as it has been read. */
  predicate UnionSlot(fields: seq<Field>, slots: seq<Slot>, h: nat, s: Slot)
    requires h < |fields| == |slots|
  {
    s.One? && (FlagOf(s) == 0 || FlagOf(s) == FlagOf(slots[h]))
  }

  lemma {:induction false} PlaceAll(f: Field, vs: seq<Value>)
    requires f.htype.Repeated? && (f.FixedCount() ==> |vs| == f.arraySize)
    ensures PlaceItems(f, ItemsOf(f, InitSlot(f)), 0, vs) == vs
  {
    var items := ItemsOf(f, InitSlot(f));
    assert [] + vs == vs;
    assert f.FixedCount() ==> items[..0] + vs + items[0 + |vs|..] == vs;
  }

  /** Reading entry `i` settles its slot. */
  lemma {:induction false} RecordedSettles(fields: seq<Field>, slots: seq<Slot>, i: nat, st: Progress)
    requires i < |fields| == |slots| == |st.slots| && Underway(fields, i, st) && FieldValid(fields[i])
    requires SlotStorable(fields[i], slots[Home(fields, i)])
    requires fields[i].htype.Oneof? ==> UnionSlot(fields, slots, Home(fields, i), st.slots[Home(fields, i)])
    ensures Settled(fields, slots, i, Recorded(fields, slots, i, st).slots[Home(fields, i)])
  {
    hide CanonValue, CanonItems, Storable, Proto3Default, PlaceItems, ItemsOf, InitSlot, FixedComplete;
    var f, h := fields[i], Home(fields, i);
    HomeUntouched(fields, i, st);
    if Present(f, slots[h]) && f.htype.Repeated? {
      ItemsCounted(f, slots[h]);
      PlaceAll(f, CanonItems(f, ItemsOf(f, slots[h])));
      EmptyArray(f, Entered(fields, i, st));
    }
  }

  lemma {:induction false} ItemsCounted(f: Field, s: Slot)
    requires f.htype.Repeated? && SlotStorable(f, s)
    ensures f.FixedCount() ==> |ItemsOf(f, s)| == f.arraySize
    ensures s.Many? && ItemsOf(f, s) == s.items
  {
    hide Storable;
  }

  lemma {:induction false} RecordedUnion(fields: seq<Field>, slots: seq<Slot>, j: nat, h: nat, st: Progress)
    requires j < |fields| == |slots| == |st.slots| && h < |fields| && fields[h].htype.Oneof?
    requires UnionSlot(fields, slots, h, st.slots[h])
    ensures UnionSlot(fields, slots, h, Recorded(fields, slots, j, st).slots[h])
  {
    hide CanonValue, CanonItems, PlaceItems, ItemsOf, Proto3Default;
  }

  lemma {:induction false} AfterUnion(fields: seq<Field>, slots: seq<Slot>, k: nat, h: nat)
    requires k <= |fields| == |slots| && h < |fields| && fields[h].htype.Oneof?
    ensures UnionSlot(fields, slots, h, After(fields, slots, k).slots[h])
  {
    hide Recorded, UnionSlot;
    if k == 0 {
      StartUnion(fields, slots, h);
    } else {
      AfterUnion(fields, slots, k - 1, h);
      RecordedUnion(fields, slots, k - 1, h, After(fields, slots, k - 1));
    }
  }

  lemma {:induction false} StartUnion(fields: seq<Field>, slots: seq<Slot>, h: nat)
    requires |fields| == |slots| && h < |fields| && fields[h].htype.Oneof?
    ensures UnionSlot(fields, slots, h, InitSlots(fields)[h])
  {
  }

  /** A later entry leaves a settled slot alone: it has another slot, or is another member of the union. */
  lemma {:induction false} RecordedKeeps(fields: seq<Field>, slots: seq<Slot>, i: nat, j: nat, st: Progress)
    requires i < j < |fields| == |slots| == |st.slots| && DistinctTags(fields) && FieldValid(fields[j])
    requires Settled(fields, slots, i, st.slots[Home(fields, i)])
    ensures Settled(fields, slots, i, Recorded(fields, slots, j, st).slots[Home(fields, i)])
  {
    hide CanonValue, CanonItems, Storable, Proto3Default, PlaceItems, ItemsOf, InitSlot, TableValid;
    HomeShares(fields, j);
    if Home(fields, j) == Home(fields, i) {
      assert Home(fields, i) <= i <= j;
      UnionMembers(fields, i, j);
    }
  }

  lemma {:induction false} UnionMembers(fields: seq<Field>, i: nat, j: nat)
    requires i < j < |fields| && Home(fields, i) == Home(fields, j)
    ensures fields[i].htype.Oneof? && fields[j].htype.Oneof?
  {
  }

  lemma {:induction false} AfterSettled(fields: seq<Field>, slots: seq<Slot>, k: nat, i: nat)
    requires i < k <= |fields| == |slots| && TableValid(fields) && AllStorable(fields, slots)
    ensures Settled(fields, slots, i, After(fields, slots, k).slots[Home(fields, i)])
  {
    hide Recorded, Settled, Underway, SlotStorable, FieldValid, DistinctTags, UnionSlot, TableValid, AllStorable;
    EntryFacts(fields, slots, k - 1);
    if i == k - 1 {
      AfterUnderway(fields, slots, i);
      if fields[i].htype.Oneof? { AfterUnion(fields, slots, i, Home(fields, i)); }
      RecordedSettles(fields, slots, i, After(fields, slots, i));
    } else {
      AfterSettled(fields, slots, k - 1, i);
      RecordedKeeps(fields, slots, i, k - 1, After(fields, slots, k - 1));
    }
  }

  /** Entry by entry, the decoded struct holds what was present, and defaults for the rest. */
  lemma {:induction false} CanonSettled(fields: seq<Field>, slots: seq<Slot>, i: nat)
    requires i < |fields| == |slots| && TableValid(fields) && AllStorable(fields, slots)
    ensures Settled(fields, slots, i, Canon(fields, slots)[Home(fields, i)])
  {
    hide Settled, After;
    AfterSettled(fields, slots, |fields|, i);
  }

  // ---- equality as the user of a struct sees it ----

  predicate SameValue(f: Field, a: Value, b: Value)
    decreases f, 0
  {
    if f.ltype.Submessage? then
      SameSlots(f.ltype.fields, SlotsOf(a, f.ltype.fields), SlotsOf(b, f.ltype.fields))
    else a == b
  }

  /** Flags, counts and selectors agree, and so do the values they declare present; `b` is clean where `a` is absent. */
  predicate SameSlot(f: Field, a: Slot, b: Slot)
    decreases f, 1
  {
    match f.htype
    case Required => SameValue(f, ValueOf(a), ValueOf(b))
    case Optional =>
      if f.Singular() then SameValue(f, ValueOf(a), ValueOf(b))
      else FlagOf(a) == FlagOf(b) && (if FlagOf(a) != 0 then SameValue(f, ValueOf(a), ValueOf(b)) else b == InitSlot(f))
    case Repeated =>
      var x, y := ItemsOf(f, a), ItemsOf(f, b);
      |x| == |y| && forall k | 0 <= k < |x| :: SameValue(f, x[k], y[k])
    case Oneof => FlagOf(a) == FlagOf(b) && (FlagOf(a) == f.tag ==> SameValue(f, ValueOf(a), ValueOf(b)))
  }

  predicate SameSlots(fields: seq<Field>, a: seq<Slot>, b: seq<Slot>)
    requires |fields| == |a| == |b|
    decreases fields
  {
    forall i | 0 <= i < |fields| :: SameSlot(fields[i], a[Home(fields, i)], b[Home(fields, i)])
  }

  // ---- what a round trip can lose ----

  predicate KeptValue(f: Field, v: Value)
    decreases f, 0
  {
    f.ltype.Submessage? ==> Kept(f.ltype.fields, SlotsOf(v, f.ltype.fields))
  }

  /**
   * Nothing in this slot is lost: a proto3 field that is not written because it is zero has zero as
   * its default too.
   */
  predicate KeptSlot(f: Field, s: Slot)
    decreases f, 1
  {
    match f.htype
    case Repeated => (forall k | 0 <= k < |ItemsOf(f, s)| :: KeptValue(f, ItemsOf(f, s)[k]))
    case _ =>
      if Present(f, s) then KeptValue(f, ValueOf(s))
      else if f.Singular() then SameValue(f, ValueOf(s), InitValue(f))
      else true
  }

  /** A union selects one of its members or none. */
  predicate SelectorValid(fields: seq<Field>, slots: seq<Slot>, i: nat)
    requires i < |fields| == |slots|
  {
    FlagOf(slots[Home(fields, i)]) == 0
    || exists j | 0 <= j < |fields| :: Home(fields, j) == Home(fields, i) && fields[j].tag == FlagOf(slots[Home(fields, i)])
  }

  predicate Kept(fields: seq<Field>, slots: seq<Slot>)
    requires |slots| == |fields|
    decreases fields
  {
    && (forall i | 0 <= i < |fields| :: KeptSlot(fields[i], slots[Home(fields, i)]))
    && (forall i | 0 <= i < |fields| && fields[i].htype.Oneof? :: SelectorValid(fields, slots, i))
  }

  lemma {:induction false} CanonItemAt(f: Field, items: seq<Value>, k: nat)
    requires k < |items|
    ensures CanonItems(f, items)[k] == CanonValue(f, items[k])
    decreases |items|
  {
    hide CanonValue;
    if k > 0 {
      CanonItemAt(f, items[1..], k - 1);
    }
  }

  lemma {:induction false} ValueRestored(f: Field, v: Value)
    requires FieldValid(f) && Storable(f, v)
    ensures SameValue(f, v, CanonValue(f, v)) <==> KeptValue(f, v)
    decreases f, 0
  {
    hide Canon, Kept, SameSlots, AllStorable, TableValid;
    if f.ltype.Submessage? {
      RestoredIffKept(f.ltype.fields, v.slots);
    }
  }

  lemma {:induction false} ArrayRestored(f: Field, s: Slot, c: Slot)
    requires FieldValid(f) && f.htype.Repeated? && SlotStorable(f, s)
    requires c.Many? && c.items == CanonItems(f, ItemsOf(f, s))
    ensures SameSlot(f, s, c) <==> KeptSlot(f, s)
    decreases f, 1
  {
    hide FieldValid, Storable, SameValue, KeptValue, CanonItems;
    var items := ItemsOf(f, s);
    ItemsCounted(f, s);
    forall k | 0 <= k < |items|
      ensures SameValue(f, items[k], ItemsOf(f, c)[k]) <==> KeptValue(f, items[k])
    {
      CanonItemAt(f, items, k);
      ValueRestored(f, items[k]);
    }
  }

  /** One entry comes back the same exactly when nothing in it is lost; for a union, when its selector survives. */
  lemma {:induction false} SlotRestored(fields: seq<Field>, slots: seq<Slot>, i: nat, c: Slot)
    requires i < |fields| == |slots| && FieldValid(fields[i]) && SlotStorable(fields[i], slots[Home(fields, i)])
    requires Settled(fields, slots, i, c)
    ensures SameSlot(fields[i], slots[Home(fields, i)], c)
       <==> KeptSlot(fields[i], slots[Home(fields, i)])
            && (fields[i].htype.Oneof? ==> FlagOf(c) == FlagOf(slots[Home(fields, i)]))
    decreases fields[i], 2
  {
    hide FieldValid, Storable, SameValue, KeptValue, CanonItems, CanonValue, InitValue, Proto3Default;
    var f, s := fields[i], slots[Home(fields, i)];
    if f.htype.Repeated? {
      if ItemsOf(f, s) == [] { EmptyItems(f, s); }
      ArrayRestored(f, s, c);
    } else if Present(f, s) {
      ValueRestored(f, ValueOf(s));
    }
  }

  lemma {:induction false} EmptyItems(f: Field, s: Slot)
    requires f.htype.Repeated? && ItemsOf(f, s) == []
    ensures InitSlot(f).Many? && InitSlot(f).items == CanonItems(f, ItemsOf(f, s))
  {
  }

  lemma {:induction false} MembersAreUnion(fields: seq<Field>, i: nat, j: nat)
    requires i < |fields| && j < |fields| && Home(fields, i) == Home(fields, j) && fields[i].htype.Oneof?
    ensures fields[j].htype.Oneof? && fields[Home(fields, i)].htype.Oneof?
  {
  }

  lemma {:induction false} RecordedUnselected(fields: seq<Field>, slots: seq<Slot>, j: nat, i: nat, st: Progress)
    requires i < |fields| == |slots| == |st.slots| && j < |fields| && fields[i].htype.Oneof?
    requires !SelectorValid(fields, slots, i) && FlagOf(st.slots[Home(fields, i)]) == 0
    ensures FlagOf(Recorded(fields, slots, j, st).slots[Home(fields, i)]) == 0
  {
    hide CanonValue, CanonItems, PlaceItems, ItemsOf, Proto3Default;
    if Home(fields, i) == Home(fields, j) { MembersAreUnion(fields, i, j); }
  }

  lemma {:induction false} NeverSelected(fields: seq<Field>, slots: seq<Slot>, k: nat, i: nat)
    requires i < |fields| == |slots| && k <= |fields| && fields[i].htype.Oneof? && !SelectorValid(fields, slots, i)
    ensures FlagOf(After(fields, slots, k).slots[Home(fields, i)]) == 0
  {
    hide Recorded, SelectorValid;
    if k == 0 {
      MembersAreUnion(fields, i, i);
    } else {
      NeverSelected(fields, slots, k - 1, i);
      RecordedUnselected(fields, slots, k - 1, i, After(fields, slots, k - 1));
    }
  }

  /** The selector of a union survives exactly when it names a member or none. */
  lemma {:induction false} SelectorRestored(fields: seq<Field>, slots: seq<Slot>, i: nat)
    requires i < |fields| == |slots| && TableValid(fields) && AllStorable(fields, slots) && fields[i].htype.Oneof?
    ensures FlagOf(Canon(fields, slots)[Home(fields, i)]) == FlagOf(slots[Home(fields, i)]) <==> SelectorValid(fields, slots, i)
  {
    hide After, FieldValid, SlotStorable, CanonValue, TableValid, AllStorable;
    var h := Home(fields, i);
    MembersAreUnion(fields, i, i);
    if !SelectorValid(fields, slots, i) {
      NeverSelected(fields, slots, |fields|, i);
    } else if FlagOf(slots[h]) == 0 {
      AfterUnion(fields, slots, |fields|, h);
    } else {
      var j :| 0 <= j < |fields| && Home(fields, j) == h && fields[j].tag == FlagOf(slots[h]);
      MembersAreUnion(fields, i, j);
      CanonSettled(fields, slots, j);
    }
  }

  /** A round trip gives back the same struct, nested structs included, exactly when nothing in it is lost. */
  lemma {:induction false} RestoredIffKept(fields: seq<Field>, slots: seq<Slot>)
    requires |slots| == |fields| && TableValid(fields) && AllStorable(fields, slots)
    ensures SameSlots(fields, slots, Canon(fields, slots)) <==> Kept(fields, slots)
    decreases fields
  {
    hide Canon, FieldValid, SlotStorable, SameSlot, KeptSlot, Settled, DistinctTags, SelectorValid, TableValid, AllStorable;
    var canon := Canon(fields, slots);
    forall i | 0 <= i < |fields|
      ensures SameSlot(fields[i], slots[Home(fields, i)], canon[Home(fields, i)])
        <==> KeptSlot(fields[i], slots[Home(fields, i)]) && (fields[i].htype.Oneof? ==> SelectorValid(fields, slots, i))
    {
      EntryFacts(fields, slots, i);
      CanonSettled(fields, slots, i);
      SlotRestored(fields, slots, i, canon[Home(fields, i)]);
      if fields[i].htype.Oneof? { SelectorRestored(fields, slots, i); }
    }
  }

  // ---- tables under which nothing is lost ----

  /** No proto3 field has a declared default other than zero. */
  predicate PlainDefaults(fields: seq<Field>)
    decreases fields
  {
    forall i | 0 <= i < |fields| :: PlainDefault(fields[i])
  }

  predicate PlainDefault(f: Field)
    decreases f
  {
    if f.ltype.Submessage? then PlainDefaults(f.ltype.fields)
    else f.Singular() ==> f.init.None? || f.init.value == ZeroValue(f)
  }

  predicate SelectedValue(f: Field, v: Value)
    decreases f, 0
  {
    f.ltype.Submessage? ==> WellSelected(f.ltype.fields, SlotsOf(v, f.ltype.fields))
  }

  predicate SelectedSlot(f: Field, s: Slot)
    decreases f, 1
  {
    if f.htype.Repeated? then (forall k | 0 <= k < |ItemsOf(f, s)| :: SelectedValue(f, ItemsOf(f, s)[k]))
    else Present(f, s) ==> SelectedValue(f, ValueOf(s))
  }

  /** Every union, nested ones included, selects one of its members or none. */
  predicate WellSelected(fields: seq<Field>, slots: seq<Slot>)
    requires |slots| == |fields|
    decreases fields
  {
    && (forall i | 0 <= i < |fields| :: SelectedSlot(fields[i], slots[Home(fields, i)]))
    && (forall i | 0 <= i < |fields| && fields[i].htype.Oneof? :: SelectorValid(fields, slots, i))
  }

  lemma {:induction false} ZeroScalar(f: Field, s: Slot)
    requires f.Singular() && !f.ltype.Submessage? && Proto3Default(f, s) && SlotStorable(f, s) && PlainDefault(f)
    ensures ValueOf(s) == InitValue(f)
  {
    hide Shl;
    if f.ltype.VarInt? || f.ltype.UVarInt? || f.ltype.SVarInt? {
      ZeroInt(f, s.v);
    } else if f.ltype.Fixed32? || f.ltype.Fixed64? {
      ShlValues();
      SmallRemainder(s.v.i, if f.ltype.Fixed32? then U32 else U64);
    }
  }

  lemma {:induction false} ZeroInt(f: Field, v: Value)
    requires (f.ltype.VarInt? || f.ltype.UVarInt? || f.ltype.SVarInt?) && Storable(f, v) && Load(f, v) == 0
    ensures v == Int(0)
  {
    hide Shl;
    if f.ltype.UVarInt? { SmallRemainder(v.i, Shl(1, 8 * f.dataSize)); }
  }

  /** A proto3 field that counts as zero equals its default; a submessage does so entry by entry. */
  lemma {:induction false} ZeroIsDefault(f: Field, s: Slot)
    requires f.Singular() && Proto3Default(f, s) && SlotStorable(f, s) && PlainDefault(f) && FieldValid(f)
    ensures SameValue(f, ValueOf(s), InitValue(f))
    decreases f, 0
  {
    hide Load, Storable;
    if f.ltype.Submessage? {
      var fields := f.ltype.fields;
      StoredSlots(f, s.v);
      forall i | 0 <= i < |fields|
        ensures SameSlot(fields[i], s.v.slots[Home(fields, i)], InitSlots(fields)[Home(fields, i)])
      {
        EntryFacts(fields, s.v.slots, i);
        ZeroEntry(f, s, i);
        ZeroSlot(fields, s.v.slots, i);
      }
    } else {
      ZeroScalar(f, s);
    }
  }

  lemma {:induction false} ZeroEntry(f: Field, s: Slot, i: nat)
    requires f.Singular() && f.ltype.Submessage? && Proto3Default(f, s) && SlotStorable(f, s) && i < |f.ltype.fields|
    ensures s.v.Msg? && |s.v.slots| == |f.ltype.fields|
    ensures Proto3Default(f.ltype.fields[i], s.v.slots[Home(f.ltype.fields, i)])
  {
    assert Storable(f, s.v);
    assert SlotsOf(s.v, f.ltype.fields) == s.v.slots;
    assert DefaultAt(f.ltype.fields, s.v.slots, i);
  }

  lemma {:induction false} StoredSlots(f: Field, v: Value)
    requires f.ltype.Submessage? && Storable(f, v)
    ensures v.Msg? && |v.slots| == |f.ltype.fields| && AllStorable(f.ltype.fields, v.slots)
  {
  }

  lemma {:induction false} ZeroSlot(fields: seq<Field>, slots: seq<Slot>, i: nat)
    requires i < |fields| == |slots| && FieldValid(fields[i]) && SlotStorable(fields[i], slots[Home(fields, i)])
    requires !fields[i].FixedCount() && PlainDefault(fields[i]) && Proto3Default(fields[i], slots[Home(fields, i)])
    ensures SameSlot(fields[i], slots[Home(fields, i)], InitSlots(fields)[Home(fields, i)])
    decreases fields[i], 1
  {
    hide Storable, SameValue, InitValue;
    if fields[i].htype.Oneof? {
      MembersAreUnion(fields, i, i);
    } else if fields[i].Singular() {
      ZeroIsDefault(fields[i], slots[i]);
    }
  }

  lemma {:induction false} PlainValueKept(f: Field, v: Value)
    requires FieldValid(f) && Storable(f, v) && PlainDefault(f) && SelectedValue(f, v)
    ensures KeptValue(f, v)
    decreases f, 0
  {
    hide Kept, TableValid, AllStorable, PlainDefaults, WellSelected;
    if f.ltype.Submessage? {
      PlainKept(f.ltype.fields, v.slots);
    }
  }

  lemma {:induction false} PlainSlotKept(f: Field, s: Slot)
    requires FieldValid(f) && SlotStorable(f, s) && PlainDefault(f) && SelectedSlot(f, s)
    ensures KeptSlot(f, s)
    decreases f, 1
  {
    hide FieldValid, Storable, PlainDefault, SelectedValue, KeptValue, SameValue, InitValue, Proto3Default;
    if f.htype.Repeated? {
      ItemsCounted(f, s);
      forall k | 0 <= k < |s.items| ensures KeptValue(f, s.items[k]) {
        PlainValueKept(f, s.items[k]);
      }
    } else if Present(f, s) {
      PlainValueKept(f, ValueOf(s));
    } else if f.Singular() {
      ZeroIsDefault(f, s);
    }
  }

  /** Without declared defaults on proto3 fields, every struct with valid selectors is kept whole. */
  lemma {:induction false} PlainKept(fields: seq<Field>, slots: seq<Slot>)
    requires |slots| == |fields| && TableValid(fields) && AllStorable(fields, slots)
    requires PlainDefaults(fields) && WellSelected(fields, slots)
    ensures Kept(fields, slots)
    decreases fields
  {
    hide FieldValid, SlotStorable, KeptSlot, SelectedSlot, DistinctTags, SelectorValid, PlainDefault;
    forall i | 0 <= i < |fields| ensures KeptSlot(fields[i], slots[Home(fields, i)]) {
      PlainSlotKept(fields[i], slots[Home(fields, i)]);
    }
  }

  /** The round trip: decoding what was encoded succeeds, uses every byte, and restores the struct. */
  lemma {:induction false} RoundTrip(fields: seq<Field>, slots: seq<Slot>)
    requires |slots| == |fields| && TableValid(fields) && AllStorable(fields, slots)
    requires PlainDefaults(fields) && WellSelected(fields, slots)
    requires Encode(fields, slots).Some? && |Encode(fields, slots).value| < U32
    ensures var r := Decode(fields, Encode(fields, slots).value);
      r.Done? && r.rest == [] && |r.value| == |fields| && SameSlots(fields, slots, r.value)
  {
    hide Encode, TableValid, AllStorable, PlainDefaults, WellSelected, Kept, Canon, DecodeMessage, SameSlots;
    MessageRoundTrip(fields, slots);
    PlainKept(fields, slots);
    RestoredIffKept(fields, slots);
  }

  // ---- what the user cannot tell apart is written alike ----

  lemma {:induction false} SameDefault(f: Field, a: Slot, b: Slot)
    requires SameSlot(f, a, b)
    ensures Proto3Default(f, a) == Proto3Default(f, b)
    decreases f
  {
    hide SlotsOf, InitSlot, Load;
    if f.Singular() && f.ltype.Submessage? {
      var fields := f.ltype.fields;
      var x, y := SlotsOf(ValueOf(a), fields), SlotsOf(ValueOf(b), fields);
      forall i | 0 <= i < |fields| ensures DefaultAt(fields, x, i) == DefaultAt(fields, y, i) {
        SameEntry(fields, x, y, i);
        SameDefault(fields[i], x[Home(fields, i)], y[Home(fields, i)]);
      }
    }
  }

  lemma {:induction false} SameEntry(fields: seq<Field>, a: seq<Slot>, b: seq<Slot>, i: nat)
    requires i < |fields| == |a| == |b| && SameSlots(fields, a, b)
    ensures SameSlot(fields[i], a[Home(fields, i)], b[Home(fields, i)])
  {
    hide SameSlot;
  }

  lemma {:induction false} SameValueEncodes(f: Field, a: Value, b: Value)
    requires SameValue(f, a, b)
    ensures EncodeValue(f, a) == EncodeValue(f, b)
    decreases f, 0
  {
    hide EncodeScalar, SameSlots, EncodeFrom;
    if f.ltype.Submessage? {
      SameEncodes(f.ltype.fields, SlotsOf(a, f.ltype.fields), SlotsOf(b, f.ltype.fields), 0);
    }
  }

  lemma {:induction false} SameItemsEncode(f: Field, x: seq<Value>, y: seq<Value>)
    requires |x| == |y| && forall k | 0 <= k < |x| :: SameValue(f, x[k], y[k])
    ensures EncodeItems(f, x) == EncodeItems(f, y)
    decreases f, 1, |x|
  {
    hide SameValue, EncodeValue;
    if x != [] {
      SameValueEncodes(f, x[0], y[0]);
      SameItemsEncode(f, x[1..], y[1..]);
    }
  }

  lemma {:induction false} SameFieldEncodes(f: Field, a: Slot, b: Slot)
    requires SameSlot(f, a, b)
    ensures EncodeField(f, a) == EncodeField(f, b)
    decreases f, 2
  {
    hide SameValue, EncodeValue, EncodeItems, EncodePacked, Proto3Default, InitSlot;
    SameDefault(f, a, b);
    if f.htype.Repeated? {
      var x, y := ItemsOf(f, a), ItemsOf(f, b);
      if f.Packable() {
        PackedSame(f, x, y);
      } else {
        SameItemsEncode(f, x, y);
      }
    } else if Present(f, a) {
      SameValueEncodes(f, ValueOf(a), ValueOf(b));
    }
  }

  lemma {:induction false} PackedSame(f: Field, x: seq<Value>, y: seq<Value>)
    requires f.Packable() && |x| == |y| && forall k | 0 <= k < |x| :: SameValue(f, x[k], y[k])
    ensures x == y
  {
  }

  lemma {:induction false} SameEncodes(fields: seq<Field>, a: seq<Slot>, b: seq<Slot>, i: nat)
    requires i <= |fields| == |a| == |b| && SameSlots(fields, a, b)
    ensures EncodeFrom(fields, a, i) == EncodeFrom(fields, b, i)
    decreases fields, |fields| - i
  {
    hide SameSlots, EncodeField;
    if i < |fields| {
      SameEntry(fields, a, b, i);
      SameFieldEncodes(fields[i], a[Home(fields, i)], b[Home(fields, i)]);
      SameEncodes(fields, a, b, i + 1);
    }
  }

  /** Encoding what was decoded gives the same bytes again, unless something was lost. */
  lemma {:induction false} ReencodesSame(fields: seq<Field>, slots: seq<Slot>)
    requires |slots| == |fields| && TableValid(fields) && AllStorable(fields, slots) && Kept(fields, slots)
    ensures Encode(fields, Canon(fields, slots)) == Encode(fields, slots)
  {
    hide Kept, TableValid, AllStorable, Canon, EncodeFrom, SameSlots;
    RestoredIffKept(fields, slots);
    SameEncodes(fields, slots, Canon(fields, slots), 0);
  }

  /** A proto3 number with a declared default: zero is not written, so it comes back as that default. */
  lemma {:induction false} DeclaredDefaultLost()
    ensures exists f: Field, slots: seq<Slot> ::
      && TableValid([f]) && |slots| == 1 && AllStorable([f], slots) && Encode([f], slots) == Some([])
      && Decode([f], []) == Done([One(0, Int(7))], []) && slots == [One(0, Int(0))]
  {
    hide Shl;
    var f := Field(1, Optional, UVarInt, 0, 0, 4, 0, Some(Int(7)));
    var slots := [One(0, Int(0))];
    ShlPositive(8 * f.dataSize);
    SmallRemainder(0, Shl(1, 8 * f.dataSize));
    assert !Present(f, slots[0]);
    assert EncodeFrom([f], slots, 1) == Some([]);
    assert InitSlots([f]) == [One(0, Int(7))];
    assert Storable(f, Int(0));
    assert SlotStorable(f, slots[0]);
    assert FieldValid(f);
    assert TableValid([f]);
    assert AllStorable([f], slots);
    var none: seq<byte> := [];
    assert none + none == none;
    assert EncodeField(f, slots[0]) == Some(none);
    assert EncodeFrom([f], slots, 0) == Some(none);
    assert Decode([f], []) == Done([One(0, Int(7))], []);
  }

  /** A union whose selector is 9, with one member, of tag 1: nothing is written, and the selector comes back as 0. */
  lemma SelectorLost()
    ensures exists f: Field, slots: seq<Slot> ::
      && f.htype.Oneof? && TableValid([f]) && |slots| == 1 && AllStorable([f], slots) && !SelectorValid([f], slots, 0)
      && FlagOf(slots[0]) == 9 && Encode([f], slots) == Some([]) && Decode([f], []) == Done([One(0, Junk)], [])
  {
    var f := Field(1, Oneof, UVarInt, 0, 4, 4, 0, None);
    var slots := [One(9, Junk)];
    assert !Present(f, slots[0]);
    assert EncodeFrom([f], slots, 1) == Some([]);
    assert InitSlots([f]) == [One(0, Junk)];
    assert FieldValid(f);
    assert TableValid([f]);
    assert SlotStorable(f, slots[0]);
    assert AllStorable([f], slots);
    assert Home([f], 0) == 0;
    var none: seq<byte> := [];
    assert none + none == none;
    assert EncodeField(f, slots[0]) == Some(none);
    assert EncodeFrom([f], slots, 0) == Some(none);
    assert Decode([f], []) == Done([One(0, Junk)], []);
  }
}
