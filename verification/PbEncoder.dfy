/**
 * The encoder as it runs: one pass over the table with an iterator, and for every nested or packed
 * value a counting pass before the writing pass.
 */
module PbEncoder {
  import opened Bytes
  import opened PbWire
  import opened PbSchema
  import opened PbCodec
  import opened PbStream
  import opened PbIter

  // ---- single values ----

  method EncVarint(stream: OStream, f: Field, v: Value) returns (ok: bool)
    requires stream.Valid() && f.ltype.VarInt?
    modifies stream, stream.buf
    ensures stream.Valid() && old(stream.Now()).Becomes(stream.Now(), EncodeInt(f, v), ok)
  {
    hide Varint, Shl;
    if !IntSize(f.dataSize) {
      return false;
    }
    SignedRange(IntOf(v), f.dataSize);
    ok := stream.EncodeVarint(Unsigned(Signed(IntOf(v), f.dataSize)));
  }

  method EncUvarint(stream: OStream, f: Field, v: Value) returns (ok: bool)
    requires stream.Valid() && f.ltype.UVarInt?
    modifies stream, stream.buf
    ensures stream.Valid() && old(stream.Now()).Becomes(stream.Now(), EncodeInt(f, v), ok)
  {
    hide Varint, Shl;
    if !IntSize(f.dataSize) {
      return false;
    }
    SignedRange(IntOf(v), f.dataSize);
    ok := stream.EncodeVarint(Load(f, v));
  }

  method EncSvarint(stream: OStream, f: Field, v: Value) returns (ok: bool)
    requires stream.Valid() && f.ltype.SVarInt?
    modifies stream, stream.buf
    ensures stream.Valid() && old(stream.Now()).Becomes(stream.Now(), EncodeInt(f, v), ok)
  {
    hide Varint, Shl, Signed;
    if !IntSize(f.dataSize) {
      return false;
    }
    SignedRange(IntOf(v), f.dataSize);
    ZigZagRoundTrip(Signed(IntOf(v), f.dataSize));
    ok := stream.EncodeSvarint(Signed(IntOf(v), f.dataSize));
  }

  method EncBytes(stream: OStream, f: Field, v: Value) returns (ok: bool)
    requires stream.Valid() && f.ltype.BytesArray?
    modifies stream, stream.buf
    ensures stream.Valid() && old(stream.Now()).Becomes(stream.Now(), EncodeScalar(f, v), ok)
  {
    hide Delimited;
    if |BlobOf(v)| + BYTES_OFFSET > f.dataSize {
      return false;
    }
    ok := stream.EncodeString(BlobOf(v));
  }

  /** The string ends at its terminator, or where its cell ends. */
  method EncString(stream: OStream, f: Field, v: Value) returns (ok: bool)
    requires stream.Valid() && f.ltype.CString?
    modifies stream, stream.buf
    ensures stream.Valid() && old(stream.Now()).Becomes(stream.Now(), EncodeScalar(f, v), ok)
  {
    hide Delimited;
    var s := StrOf(v);
    var size := 0;
    while size < f.dataSize && size < |s|
      invariant 0 <= size <= f.dataSize && size <= |s|
    {
      size := size + 1;
    }
    assert s[..size] == if |s| <= f.dataSize then s else s[..f.dataSize];
    ok := stream.EncodeString(s[..size]);
  }

  method EncScalar(stream: OStream, f: Field, v: Value) returns (ok: bool)
    requires stream.Valid() && !f.ltype.Submessage?
    modifies stream, stream.buf
    ensures stream.Valid() && old(stream.Now()).Becomes(stream.Now(), EncodeScalar(f, v), ok)
  {
    hide EncodeInt, Delimited, LittleEndian;
    match f.ltype
    case VarInt => ok := EncVarint(stream, f, v);
    case UVarInt => ok := EncUvarint(stream, f, v);
    case SVarInt => ok := EncSvarint(stream, f, v);
    case Fixed32 => ok := stream.EncodeFixed(IntOf(v) % U32, 4);
    case Fixed64 => ok := stream.EncodeFixed(IntOf(v) % U64, 8);
    case BytesArray => ok := EncBytes(stream, f, v);
    case CString => ok := EncString(stream, f, v);
    case FixedLengthBytes =>
      ok := stream.EncodeString(if |BlobOf(v)| == f.dataSize then BlobOf(v) else seq(f.dataSize, _ => 0));
  }

  // ---- is a proto3 field zero? ----

  predicate ZeroBytes(s: seq<byte>) {
    forall k | 0 <= k < |s| :: s[k] == 0
  }

  lemma {:induction false} AllZeroBytes(n: nat, size: nat)
    requires n < Shl(1, 8 * size)
    ensures n == 0 <==> ZeroBytes(LittleEndian(n, size))
  {
    if size > 0 {
      var s, t := LittleEndian(n, size), LittleEndian(n / 256, size - 1);
      ShlSeven(1, 8 * size - 8);
      ShlDouble(1, 8 * size - 1);
      AllZeroBytes(n / 256, size - 1);
      assert s == [n % 256] + t;
      assert ZeroBytes(s) ==> forall k | 0 <= k < |t| :: t[k] == s[k + 1];
      assert s[0] == 0 && ZeroBytes(t) ==> forall k | 0 <= k < |s| :: s[k] == if k == 0 then 0 else t[k - 1];
    }
  }

  /** Byte-by-byte comparison with zero. */
  method IsZero(f: Field, v: Value) returns (zero: bool)
    ensures zero <==> Load(f, v) == 0
  {
    hide LittleEndian;
    ShlPositive(8 * f.dataSize);
    var p := LittleEndian(Load(f, v), f.dataSize);
    AllZeroBytes(Load(f, v), f.dataSize);
    var i := 0;
    while i < f.dataSize
      invariant 0 <= i <= f.dataSize
      invariant forall k | 0 <= k < i :: p[k] == 0
    {
      if p[i] != 0 {
        return false;
      }
      i := i + 1;
    }
    return true;
  }

  method CheckProto3Default(f: Field, s: Slot) returns (zero: bool)
    requires FieldValid(f)
    ensures zero <==> Proto3Default(f, s)
    decreases f
  {
    hide Load;
    if f.htype.Required? {
      return false;
    } else if f.htype.Repeated? {
      return ItemsOf(f, s) == [];
    } else if f.htype.Oneof? {
      return FlagOf(s) == 0;
    } else if f.sizeOffset != 0 {
      return FlagOf(s) == 0;
    }
    match f.ltype
    case BytesArray => return BlobOf(ValueOf(s)) == [];
    case CString => return StrOf(ValueOf(s)) == [];
    case FixedLengthBytes => return f.dataSize == 0;
    case Submessage(fields) =>
      zero := CheckSubmessageDefault(fields, SlotsOf(ValueOf(s), fields));
    case _ => zero := IsZero(f, ValueOf(s));
  }

  ghost predicate ZeroUpTo(fields: seq<Field>, slots: seq<Slot>, n: nat)
    requires n <= |fields| == |slots|
  {
    forall i | 0 <= i < n :: DefaultAt(fields, slots, i)
  }

  method CheckSubmessageDefault(fields: seq<Field>, slots: seq<Slot>) returns (zero: bool)
    requires TableValid(fields) && |slots| == |fields|
    ensures zero <==> ZeroUpTo(fields, slots, |fields|)
    decreases fields
  {
    hide Proto3Default, FieldValid, TableValid, Home, RequiredBefore, DataOffset, SizeOffset;
    var iter := new FieldIter.Begin(fields);
    var more := fields != [];
    while more
      invariant iter.Valid() && iter.start == fields && fresh(iter)
      invariant if more then fields != [] && ZeroUpTo(fields, slots, iter.pos) else ZeroUpTo(fields, slots, |fields|)
      decreases |fields| - if more then iter.pos else |fields|
    {
      TableEntry(fields, iter.pos);
      var one := CheckProto3Default(fields[iter.pos], slots[Home(fields, iter.pos)]);
      assert one == DefaultAt(fields, slots, iter.pos);
      if !one {
        return false;
      }
      more := iter.Next();
    }
    return true;
  }

  // ---- arrays ----

  lemma {:induction false} PackedNext(f: Field, items: seq<Value>, i: nat)
    requires f.Packable() && i < |items|
    ensures EncodePacked(f, items[..i + 1]) == Join(EncodePacked(f, items[..i]), EncodeScalar(f, items[i]))
    ensures EncodePacked(f, items[..i + 1]).None? ==> EncodePacked(f, items).None?
  {
    assert items[..i + 1] == items[..i] + [items[i]] && items == items[..i + 1] + items[i + 1..];
    PackedConcat(f, items[..i], [items[i]]);
    PackedConcat(f, items[..i + 1], items[i + 1..]);
    PackedOne(f, items[i]);
  }

  lemma {:induction false} PackedOne(f: Field, v: Value)
    requires f.Packable()
    ensures EncodePacked(f, [v]) == EncodeScalar(f, v)
  {
    hide EncodeScalar;
    var e := EncodeScalar(f, v);
    assert EncodePacked(f, []) == Some([]);
    if e.Some? { assert e.value + [] == e.value; }
  }

  lemma {:induction false} PackedConcat(f: Field, a: seq<Value>, b: seq<Value>)
    requires f.Packable()
    ensures EncodePacked(f, a + b) == Join(EncodePacked(f, a), EncodePacked(f, b))
    decreases |a|
  {
    hide EncodeScalar;
    if a == [] {
      assert a + b == b;
      var e := EncodePacked(f, b);
      if e.Some? { assert [] + e.value == e.value; }
    } else {
      PackedConcat(f, a[1..], b);
      assert (a + b)[1..] == a[1..] + b;
      JoinAssoc(EncodeScalar(f, a[0]), EncodePacked(f, a[1..]), EncodePacked(f, b));
    }
  }

  lemma {:induction false} JoinAssoc(a: Option<seq<byte>>, b: Option<seq<byte>>, c: Option<seq<byte>>)
    ensures Join(Join(a, b), c) == Join(a, Join(b, c))
  {
    if a.Some? && b.Some? && c.Some? {
      assert a.value + b.value + c.value == a.value + (b.value + c.value);
    }
  }

  /** A failed piece of an array fails the array, and so does one that does not fit. */
  lemma {:induction false} BecomesStuck(a: Output, b: Output, part: Option<seq<byte>>, rest: Option<seq<byte>>, whole: Option<seq<byte>>)
    requires a.Becomes(b, part, false) && whole == Join(part, rest)
    ensures a.Becomes(b, whole, false)
  {
  }

  /** The entries of a packed array, one after the other. */
  method EncPacked(stream: OStream, f: Field, items: seq<Value>) returns (ok: bool)
    requires stream.Valid() && f.Packable()
    modifies stream, stream.buf
    ensures stream.Valid() && old(stream.Now()).Becomes(stream.Now(), EncodePacked(f, items), ok)
  {
    hide EncodeScalar, Output.Becomes, Join;
    ghost var start := stream.Now();
    StartsEmpty(stream.Now(), f);
    var i := 0;
    ok := true;
    while i < |items|
      invariant 0 <= i <= |items| && ok && stream.Valid() && start.Becomes(stream.Now(), EncodePacked(f, items[..i]), true)
    {
      ghost var mid := stream.Now();
      ok := EncScalar(stream, f, items[i]);
      PackedNext(f, items, i);
      BecomesThen(start, mid, stream.Now(), EncodePacked(f, items[..i]), EncodeScalar(f, items[i]), ok);
      if !ok {
        PackedStuck(f, items, i + 1, start, stream.Now());
        return;
      }
      i := i + 1;
    }
    assert items[..i] == items;
  }

  lemma {:induction false} StartsEmpty(a: Output, f: Field)
    requires f.Packable() && (a.sizing || a.count <= a.limit)
    ensures a.Becomes(a, EncodePacked(f, []), true)
  {
    BecomesNothing(a);
  }

  lemma {:induction false} PackedStuck(f: Field, items: seq<Value>, i: nat, a: Output, b: Output)
    requires f.Packable() && i <= |items| && a.Becomes(b, EncodePacked(f, items[..i]), false)
    ensures a.Becomes(b, EncodePacked(f, items), false)
  {
    hide EncodePacked, Output.Becomes;
    assert items == items[..i] + items[i..];
    PackedConcat(f, items[..i], items[i..]);
    BecomesStuck(a, b, EncodePacked(f, items[..i]), EncodePacked(f, items[i..]), EncodePacked(f, items));
  }

  lemma {:induction false} ItemsConcat(f: Field, a: seq<Value>, b: seq<Value>)
    ensures EncodeItems(f, a + b) == Join(EncodeItems(f, a), EncodeItems(f, b))
    decreases |a|
  {
    hide EncodeTagged;
    if a == [] {
      assert a + b == b;
      var e := EncodeItems(f, b);
      if e.Some? { assert [] + e.value == e.value; }
    } else {
      ItemsConcat(f, a[1..], b);
      assert (a + b)[1..] == a[1..] + b;
      JoinAssoc(EncodeTagged(f, a[0]), EncodeItems(f, a[1..]), EncodeItems(f, b));
    }
  }

  lemma {:induction false} ItemsNext(f: Field, items: seq<Value>, i: nat)
    requires i < |items|
    ensures EncodeItems(f, items[..i + 1]) == Join(EncodeItems(f, items[..i]), EncodeTagged(f, items[i]))
  {
    hide EncodeTagged;
    assert items[..i + 1] == items[..i] + [items[i]];
    ItemsConcat(f, items[..i], [items[i]]);
    var e := EncodeTagged(f, items[i]);
    assert EncodeItems(f, []) == Some([]) && [items[i]][1..] == [];
    if e.Some? { assert e.value + [] == e.value; }
  }

  lemma {:induction false} ItemsStuck(f: Field, items: seq<Value>, i: nat, a: Output, b: Output)
    requires i <= |items| && a.Becomes(b, EncodeItems(f, items[..i]), false)
    ensures a.Becomes(b, EncodeItems(f, items), false)
  {
    hide EncodeItems, Output.Becomes;
    assert items == items[..i] + items[i..];
    ItemsConcat(f, items[..i], items[i..]);
    BecomesStuck(a, b, EncodeItems(f, items[..i]), EncodeItems(f, items[i..]), EncodeItems(f, items));
  }

  /** A fixed-width array needs no counting pass: its size is known. */
  lemma {:induction false} PackedSize(f: Field, items: seq<Value>)
    requires f.ltype.Fixed32? || f.ltype.Fixed64?
    ensures EncodePacked(f, items).Some?
    ensures |EncodePacked(f, items).value| == (if f.ltype.Fixed32? then 4 else 8) * |items|
    decreases |items|
  {
    if items != [] {
      PackedSize(f, items[1..]);
    }
  }

  /** The size of a packed array: known, or counted on a stream of its own. */
  method PackedArraySize(f: Field, items: seq<Value>) returns (ok: bool, size: nat)
    requires f.Packable()
    ensures ok <==> EncodePacked(f, items).Some?
    ensures ok ==> size == |EncodePacked(f, items).value|
  {
    hide EncodePacked;
    if f.ltype.Fixed32? {
      PackedSize(f, items);
      return true, 4 * |items|;
    } else if f.ltype.Fixed64? {
      PackedSize(f, items);
      return true, 8 * |items|;
    }
    var sizestream := new OStream.Sizing();
    ok := EncPacked(sizestream, f, items);
    size := sizestream.bytesWritten;
  }

  /** The length and the entries; when only counting, the entries are counted, not encoded again. */
  method EncPackedArray(stream: OStream, f: Field, items: seq<Value>) returns (ok: bool)
    requires stream.Valid() && f.Packable()
    modifies stream, stream.buf
    ensures stream.Valid() && old(stream.Now()).Becomes(stream.Now(), Framed(EncodePacked(f, items)), ok)
  {
    hide EncodePacked, Varint, Output.Becomes;
    ghost var start := stream.Now();
    var size;
    ok, size := PackedArraySize(f, items);
    if !ok {
      BecomesNone(start);
      return;
    }
    ghost var body := EncodePacked(f, items).value;
    ok := stream.EncodeVarint(size % U64);
    ghost var mid := stream.Now();
    if !ok {
      BecomesFails(start, mid, Some(Varint(size % U64)), Some(body));
      return;
    }
    if stream.sizing {
      stream.Count(size);
      CountBecomes(mid, stream.Now(), body);
    } else {
      ok := EncPacked(stream, f, items);
    }
    BecomesThen(start, mid, stream.Now(), Some(Varint(size % U64)), Some(body), ok);
  }

  lemma {:induction false} BecomesNone(a: Output)
    ensures a.Becomes(a, None, false)
  {
  }

  lemma {:induction false} CountBecomes(a: Output, b: Output, body: seq<byte>)
    requires a.sizing && b == a.(count := a.count + |body|)
    ensures a.Becomes(b, Some(body), true)
  {
  }

  // ---- fields and messages ----

  /** The fields before entry `i`. */
  function EncodeTo(fields: seq<Field>, slots: seq<Slot>, i: nat): Option<seq<byte>>
    requires i <= |fields| == |slots|
  {
    if i == 0 then Some([])
    else Join(EncodeTo(fields, slots, i - 1), EncodeField(fields[i - 1], slots[Home(fields, i - 1)]))
  }

  lemma {:induction false} EncodeToFrom(fields: seq<Field>, slots: seq<Slot>, i: nat)
    requires i <= |fields| == |slots|
    ensures Join(EncodeTo(fields, slots, i), EncodeFrom(fields, slots, i)) == Encode(fields, slots)
  {
    hide EncodeField;
    if i == 0 {
      var e := EncodeFrom(fields, slots, 0);
      if e.Some? { assert [] + e.value == e.value; }
    } else {
      EncodeToFrom(fields, slots, i - 1);
      JoinAssoc(EncodeTo(fields, slots, i - 1), EncodeField(fields[i - 1], slots[Home(fields, i - 1)]), EncodeFrom(fields, slots, i));
    }
  }

  lemma {:induction false} EncodeToAll(fields: seq<Field>, slots: seq<Slot>)
    requires |slots| == |fields|
    ensures EncodeTo(fields, slots, |fields|) == Encode(fields, slots)
  {
    EncodeToFrom(fields, slots, |fields|);
    var e := EncodeTo(fields, slots, |fields|);
    if e.Some? { assert e.value + [] == e.value; }
  }

  lemma {:induction false} FieldStuck(fields: seq<Field>, slots: seq<Slot>, i: nat, a: Output, b: Output)
    requires i <= |fields| == |slots| && a.Becomes(b, EncodeTo(fields, slots, i), false)
    ensures a.Becomes(b, Encode(fields, slots), false)
  {
    hide EncodeTo, EncodeFrom, Output.Becomes;
    EncodeToFrom(fields, slots, i);
    BecomesStuck(a, b, EncodeTo(fields, slots, i), EncodeFrom(fields, slots, i), Encode(fields, slots));
  }

  method EncValue(stream: OStream, f: Field, v: Value) returns (ok: bool)
    requires stream.Valid() && FieldValid(f)
    modifies stream, stream.buf
    ensures stream.Valid() && old(stream.Now()).Becomes(stream.Now(), EncodeValue(f, v), ok)
    decreases f, 0
  {
    hide EncodeScalar, EncodeFrom, Output.Becomes, TableValid, Delimited;
    if f.ltype.Submessage? {
      ok := EncSubmessage(stream, f.ltype.fields, SlotsOf(v, f.ltype.fields));
    } else {
      ok := EncScalar(stream, f, v);
    }
  }

  method EncTagged(stream: OStream, f: Field, v: Value) returns (ok: bool)
    requires stream.Valid() && FieldValid(f)
    modifies stream, stream.buf
    ensures stream.Valid() && old(stream.Now()).Becomes(stream.Now(), EncodeTagged(f, v), ok)
    decreases f, 1
  {
    hide EncodeValue, PbWire.EncodeTag, Output.Becomes;
    ghost var start, tag := stream.Now(), Some(PbWire.EncodeTag(f.tag, f.WireType()));
    TagFits(f);
    ok := stream.EncodeTag(f.WireType(), f.tag);
    ghost var mid := stream.Now();
    if !ok {
      BecomesFails(start, mid, tag, EncodeValue(f, v));
      return;
    }
    ok := EncValue(stream, f, v);
    BecomesThen(start, mid, stream.Now(), tag, EncodeValue(f, v), ok);
  }

  lemma {:induction false} TagFits(f: Field)
    requires FieldValid(f)
    ensures 8 * f.tag + f.WireType() < U64 && 8 * f.tag + WT_STRING < U64
  {
  }

  method EncItems(stream: OStream, f: Field, items: seq<Value>) returns (ok: bool)
    requires stream.Valid() && FieldValid(f)
    modifies stream, stream.buf
    ensures stream.Valid() && old(stream.Now()).Becomes(stream.Now(), EncodeItems(f, items), ok)
    decreases f, 2
  {
    hide EncodeTagged, EncodeItems, Output.Becomes, Join, FieldValid;
    ghost var start := stream.Now();
    NoItems(stream.Now(), f);
    var i := 0;
    ok := true;
    while i < |items|
      invariant 0 <= i <= |items| && ok && stream.Valid() && start.Becomes(stream.Now(), EncodeItems(f, items[..i]), true)
    {
      ghost var mid := stream.Now();
      ok := EncTagged(stream, f, items[i]);
      ItemsNext(f, items, i);
      BecomesThen(start, mid, stream.Now(), EncodeItems(f, items[..i]), EncodeTagged(f, items[i]), ok);
      if !ok {
        ItemsStuck(f, items, i + 1, start, stream.Now());
        return;
      }
      i := i + 1;
    }
    assert items[..i] == items;
  }

  lemma {:induction false} NoItems(a: Output, f: Field)
    requires a.sizing || a.count <= a.limit
    ensures a.Becomes(a, EncodeItems(f, []), true)
  {
    BecomesNothing(a);
  }

  /** Always packed when the type allows it. */
  method EncArray(stream: OStream, f: Field, items: seq<Value>) returns (ok: bool)
    requires stream.Valid() && FieldValid(f)
    modifies stream, stream.buf
    ensures stream.Valid() && old(stream.Now()).Becomes(stream.Now(), EncodeArray(f, items), ok)
    decreases f, 3
  {
    hide EncodeItems, EncodePacked, PbWire.EncodeTag, Framed, Output.Becomes;
    ghost var start, tag := stream.Now(), Some(PbWire.EncodeTag(f.tag, WT_STRING));
    if items == [] {
      BecomesNothing(start);
      return true;
    }
    if |items| > f.arraySize {
      BecomesNone(start);
      return false;
    }
    if !f.Packable() {
      ok := EncItems(stream, f, items);
      return;
    }
    TagFits(f);
    ok := stream.EncodeTag(WT_STRING, f.tag);
    ghost var mid := stream.Now();
    if !ok {
      BecomesFails(start, mid, tag, Framed(EncodePacked(f, items)));
      return;
    }
    ok := EncPackedArray(stream, f, items);
    BecomesThen(start, mid, stream.Now(), tag, Framed(EncodePacked(f, items)), ok);
  }

  method EncField(stream: OStream, f: Field, s: Slot) returns (ok: bool)
    requires stream.Valid() && FieldValid(f)
    modifies stream, stream.buf
    ensures stream.Valid() && old(stream.Now()).Becomes(stream.Now(), EncodeField(f, s), ok)
    decreases f, 4
  {
    hide EncodeArray, EncodeTagged, Proto3Default, Output.Becomes, FieldValid;
    ghost var start := stream.Now();
    var present := true;
    match f.htype {
      case Required =>
      case Optional =>
        if f.sizeOffset != 0 {
          present := FlagOf(s) != 0;
        } else {
          var zero := CheckProto3Default(f, s);
          present := !zero;
        }
      case Repeated =>
        ok := EncArray(stream, f, ItemsOf(f, s));
        return;
      case Oneof =>
        present := FlagOf(s) == f.tag;
    }
    if present {
      ok := EncTagged(stream, f, ValueOf(s));
    } else {
      BecomesNothing(start);
      ok := true;
    }
  }

  /** The entry that the iterator is at. */
  method EncEntry(stream: OStream, fields: seq<Field>, slots: seq<Slot>, i: nat, ghost start: Output) returns (ok: bool)
    requires stream.Valid() && TableValid(fields) && i < |fields| == |slots|
    requires start.Becomes(stream.Now(), EncodeTo(fields, slots, i), true)
    modifies stream, stream.buf
    ensures stream.Valid()
    ensures if ok then start.Becomes(stream.Now(), EncodeTo(fields, slots, i + 1), true)
            else start.Becomes(stream.Now(), Encode(fields, slots), false)
    decreases fields, 0
  {
    hide EncodeField, Encode, EncodeTo, EncodeFrom, Output.Becomes, Join, TableValid, FieldValid;
    hide Home, DataOffset, SizeOffset, RequiredBefore;
    ghost var mid := stream.Now();
    TableEntry(fields, i);
    ok := EncField(stream, fields[i], slots[Home(fields, i)]);
    FieldNext(fields, slots, i);
    BecomesThen(start, mid, stream.Now(), EncodeTo(fields, slots, i), EncodeField(fields[i], slots[Home(fields, i)]), ok);
    if !ok {
      FieldStuck(fields, slots, i + 1, start, stream.Now());
    }
  }

  /** One pass over the table. */
  method EncMessage(stream: OStream, fields: seq<Field>, slots: seq<Slot>) returns (ok: bool)
    requires stream.Valid() && TableValid(fields) && |slots| == |fields|
    modifies stream, stream.buf
    ensures stream.Valid() && old(stream.Now()).Becomes(stream.Now(), Encode(fields, slots), ok)
    decreases fields, 1
  {
    hide EncodeField, EncodeTo, EncodeFrom, Output.Becomes, Join, TableValid, FieldValid, Home, DataOffset,
      SizeOffset, RequiredBefore;
    ghost var start := stream.Now();
    NoFields(start, fields, slots);
    var iter := new FieldIter.Begin(fields);
    var more := fields != [];
    ok := true;
    while more
      invariant iter.Valid() && iter.start == fields && fresh(iter) && stream.Valid() && ok
      invariant more ==> fields != []
      invariant start.Becomes(stream.Now(), EncodeTo(fields, slots, if more then iter.pos else |fields|), true)
      decreases |fields| - if more then iter.pos else |fields|
    {
      ok := EncEntry(stream, fields, slots, iter.pos, start);
      if !ok {
        return;
      }
      more := iter.Next();
    }
    EncodeToAll(fields, slots);
  }

  lemma {:induction false} NoFields(a: Output, fields: seq<Field>, slots: seq<Slot>)
    requires |slots| == |fields| && (a.sizing || a.count <= a.limit)
    ensures a.Becomes(a, EncodeTo(fields, slots, 0), true)
  {
    BecomesNothing(a);
  }

  lemma {:induction false} FieldNext(fields: seq<Field>, slots: seq<Slot>, i: nat)
    requires i < |fields| == |slots|
    ensures EncodeTo(fields, slots, i + 1) == Join(EncodeTo(fields, slots, i), EncodeField(fields[i], slots[Home(fields, i)]))
  {
  }

  /**
   * Two passes: the first finds the size, the second writes through a substream that may not exceed
   * it. The second never comes out with another size.
   */
  method EncSubmessage(stream: OStream, fields: seq<Field>, slots: seq<Slot>) returns (ok: bool)
    requires stream.Valid() && TableValid(fields) && |slots| == |fields|
    modifies stream, stream.buf
    ensures stream.Valid() && old(stream.Now()).Becomes(stream.Now(), Framed(Encode(fields, slots)), ok)
    decreases fields, 3
  {
    hide Varint, EncodeFrom, TableValid;
    ghost var start := stream.Now();
    var sub := new OStream.Sizing();
    ok := EncMessage(sub, fields, slots);
    if !ok {
      BecomesNone(start);
      return;
    }
    var size := sub.bytesWritten;
    ghost var body := Encode(fields, slots).value;
    ok := stream.EncodeVarint(size % U64);
    ghost var mid := stream.Now();
    if !ok {
      BecomesFails(start, mid, Some(Varint(size % U64)), Some(body));
      return;
    }
    if stream.sizing {
      stream.Count(size);
      CountBecomes(mid, stream.Now(), body);
    } else {
      ok := EncBody(stream, fields, slots, size);
    }
    BecomesThen(start, mid, stream.Now(), Some(Varint(size % U64)), Some(body), ok);
  }

  /** The writing pass, on a substream limited to the size that was counted. */
  method EncBody(stream: OStream, fields: seq<Field>, slots: seq<Slot>, size: nat) returns (ok: bool)
    requires stream.Valid() && !stream.sizing && TableValid(fields) && |slots| == |fields|
    requires Encode(fields, slots).Some? && size == |Encode(fields, slots).value|
    modifies stream, stream.buf
    ensures stream.Valid() && old(stream.Now()).Becomes(stream.Now(), Encode(fields, slots), ok)
    decreases fields, 2
  {
    hide EncodeFrom, TableValid;
    if stream.bytesWritten + size > stream.maxSize {
      return false;
    }
    var sub := new OStream.Sub(stream, size);
    ok := EncMessage(sub, fields, slots);
    stream.bytesWritten := stream.bytesWritten + sub.bytesWritten;
    stream.pos := sub.pos;
    if sub.bytesWritten != size {
      return false;
    }
  }

  /** The size of the wire form, found without writing it: the very size that writing produces. */
  method GetEncodedSize(fields: seq<Field>, slots: seq<Slot>) returns (ok: bool, size: nat)
    requires TableValid(fields) && |slots| == |fields|
    ensures ok <==> Encode(fields, slots).Some?
    ensures ok ==> size == |Encode(fields, slots).value|
  {
    hide EncodeFrom, TableValid;
    var stream := new OStream.Sizing();
    ok := EncMessage(stream, fields, slots);
    size := stream.bytesWritten;
  }

  method EncDelimited(stream: OStream, fields: seq<Field>, slots: seq<Slot>) returns (ok: bool)
    requires stream.Valid() && TableValid(fields) && |slots| == |fields|
    modifies stream, stream.buf
    ensures stream.Valid() && old(stream.Now()).Becomes(stream.Now(), Framed(Encode(fields, slots)), ok)
  {
    ok := EncSubmessage(stream, fields, slots);
  }

  method EncNullTerminated(stream: OStream, fields: seq<Field>, slots: seq<Slot>) returns (ok: bool)
    requires stream.Valid() && TableValid(fields) && |slots| == |fields|
    modifies stream, stream.buf
    ensures stream.Valid() && old(stream.Now()).Becomes(stream.Now(), Join(Encode(fields, slots), Some([0])), ok)
  {
    hide EncodeFrom, TableValid, Output.Becomes;
    ghost var start := stream.Now();
    ok := EncMessage(stream, fields, slots);
    ghost var mid := stream.Now();
    if !ok {
      BecomesFails(start, mid, Encode(fields, slots), Some([0]));
      return;
    }
    ok := stream.Write([0]);
    BecomesThen(start, mid, stream.Now(), Encode(fields, slots), Some([0]), ok);
  }

  /** Into a buffer of its own: whole when it fits, and then exactly the wire form. */
  method EncodeToBuffer(buf: array<byte>, size: nat, fields: seq<Field>, slots: seq<Slot>) returns (ok: bool, written: nat)
    requires size <= buf.Length && TableValid(fields) && |slots| == |fields|
    modifies buf
    ensures ok <==> Encode(fields, slots).Some? && |Encode(fields, slots).value| <= size
    ensures ok ==> written <= size && buf[..written] == Encode(fields, slots).value
    ensures buf[size..] == old(buf[size..])
  {
    hide EncodeFrom, TableValid;
    var stream := new OStream.FromBuffer(buf, size);
    ok := EncMessage(stream, fields, slots);
    written := stream.bytesWritten;
    assert ok ==> buf[0..written] == [] + Encode(fields, slots).value;
  }
}
