/** The decoder as it runs: a loop over tags, with the field iterator as a cache and windows for nested values. */
module PbDecoder {
  import opened Bytes
  import opened PbWire
  import opened PbSchema
  import opened PbCodec
  import opened PbStream
  import opened PbIter
  import opened PbEncoder
  import opened PbFraming
  import opened PbRoundTrip

  // ---- single values ----

  method DecInt(stream: IStream, f: Field) returns (ok: bool, v: Value)
    requires stream.Valid() && (f.ltype.VarInt? || f.ltype.UVarInt? || f.ltype.SVarInt?)
    modifies stream
    ensures stream.Moved() && (ok <==> DecodeInt(f, old(stream.Rest())).Done?)
    ensures ok ==> Done(v, stream.Rest()) == DecodeInt(f, old(stream.Rest()))
  {
    hide PbWire.DecodeVarint, Signed, Shl, UnZigZag;
    var value;
    v := Junk;
    ok, value := stream.DecodeVarint();
    if !ok {
      return;
    }
    if !IntSize(f.dataSize) {
      return false, v;
    }
    if f.ltype.UVarInt? {
      var clamped := value % Shl(1, 8 * f.dataSize);
      return clamped == value, Int(clamped);
    }
    var svalue := if f.ltype.SVarInt? then UnZigZag(value % U64)
                  else Signed(value, if f.dataSize == 8 then 8 else 4);
    var clamped := Signed(svalue, f.dataSize);
    return clamped == svalue, Int(clamped);
  }

  method DecFixed(stream: IStream, n: nat) returns (ok: bool, v: Value)
    requires stream.Valid()
    modifies stream
    ensures stream.Moved() && (ok <==> DecodeFixed(n, old(stream.Rest())).Done?)
    ensures ok ==> Done(v, stream.Rest()) == DecodeFixed(n, old(stream.Rest()))
  {
    hide FromLittleEndian;
    var data;
    ok, data := stream.Read(n);
    v := if ok then Int(FromLittleEndian(data)) else Junk;
  }

  method DecBytes(stream: IStream, f: Field) returns (ok: bool, v: Value)
    requires stream.Valid() && f.ltype.BytesArray?
    modifies stream
    ensures stream.Moved() && (ok <==> DecodeBlob(f, old(stream.Rest())).Done?)
    ensures ok ==> Done(v, stream.Rest()) == DecodeBlob(f, old(stream.Rest()))
  {
    hide PbWire.DecodeVarint32, Take;
    var size, eof, data;
    v := Junk;
    ok, size, eof := stream.DecodeVarint32Eof();
    if !ok {
      return;
    }
    if size > PB_SIZE_MAX || size + BYTES_OFFSET > f.dataSize {
      return false, v;
    }
    ok, data := stream.Read(size);
    v := Blob(data);
  }

  method DecString(stream: IStream, f: Field) returns (ok: bool, v: Value)
    requires stream.Valid() && f.ltype.CString?
    modifies stream
    ensures stream.Moved() && (ok <==> DecodeString(f, old(stream.Rest())).Done?)
    ensures ok ==> Done(v, stream.Rest()) == DecodeString(f, old(stream.Rest()))
  {
    hide PbWire.DecodeVarint32, Take, UpToNul;
    var size, eof, data;
    v := Junk;
    ok, size, eof := stream.DecodeVarint32Eof();
    if !ok {
      return;
    }
    var allocSize := (size + 1) % U32;
    if allocSize < size || allocSize > f.dataSize {
      return false, v;
    }
    ok, data := stream.Read(size);
    v := Str(UpToNul(data));
  }

  method DecFixedLengthBytes(stream: IStream, f: Field) returns (ok: bool, v: Value)
    requires stream.Valid() && f.ltype.FixedLengthBytes?
    modifies stream
    ensures stream.Moved() && (ok <==> DecodeFixedBytes(f, old(stream.Rest())).Done?)
    ensures ok ==> Done(v, stream.Rest()) == DecodeFixedBytes(f, old(stream.Rest()))
  {
    hide PbWire.DecodeVarint32, Take;
    var size, eof, data;
    v := Junk;
    ok, size, eof := stream.DecodeVarint32Eof();
    if !ok {
      return;
    }
    if size > PB_SIZE_MAX {
      return false, v;
    }
    if size == 0 {
      return true, Blob(seq(f.dataSize, _ => 0));
    }
    if size != f.dataSize {
      return false, v;
    }
    ok, data := stream.Read(size);
    v := Blob(data);
  }

  method DecScalar(stream: IStream, f: Field) returns (ok: bool, v: Value)
    requires stream.Valid() && !f.ltype.Submessage?
    modifies stream
    ensures stream.Moved() && (ok <==> DecodeScalar(f, old(stream.Rest())).Done?)
    ensures ok ==> Done(v, stream.Rest()) == DecodeScalar(f, old(stream.Rest()))
  {
    hide DecodeInt, DecodeFixed, DecodeBlob, DecodeString, DecodeFixedBytes;
    match f.ltype
    case VarInt | UVarInt | SVarInt => ok, v := DecInt(stream, f);
    case Fixed32 => ok, v := DecFixed(stream, 4);
    case Fixed64 => ok, v := DecFixed(stream, 8);
    case BytesArray => ok, v := DecBytes(stream, f);
    case CString => ok, v := DecString(stream, f);
    case FixedLengthBytes => ok, v := DecFixedLengthBytes(stream, f);
  }

  /** The entries of a packed array, until the window is used up, the array is full, or one fails. */
  method DecPacked(sub: IStream, f: Field, room: nat) returns (ok: bool, vs: seq<Value>)
    requires sub.Valid() && f.Packable()
    modifies sub
    ensures sub.Moved()
    ensures ok && sub.Rest() == [] <==> DecodePacked(f, room, old(sub.Rest())).Some?
    ensures ok && sub.Rest() == [] ==> DecodePacked(f, room, old(sub.Rest())) == Some(vs)
  {
    hide DecodeScalar, DecodePacked;
    vs, ok := [], true;
    PackedStart(f, room, sub.Rest());
    while sub.bytesLeft > 0 && |vs| < room
      invariant sub.Moved() && ok && |vs| <= room
      invariant DecodePacked(f, room, old(sub.Rest())) == Prepend(vs, DecodePacked(f, room - |vs|, sub.Rest()))
      decreases sub.bytesLeft
    {
      PackedStep(f, room - |vs|, sub.Rest(), vs);
      var v;
      ok, v := DecScalar(sub, f);
      if !ok {
        return;
      }
      vs := vs + [v];
    }
    PackedEnd(f, room - |vs|, sub.Rest(), vs);
  }

  ghost function Prepend(vs: seq<Value>, r: Option<seq<Value>>): Option<seq<Value>> {
    if r.Some? then Some(vs + r.value) else None
  }

  lemma {:induction false} PackedStart(f: Field, room: nat, s: seq<byte>)
    requires f.Packable()
    ensures DecodePacked(f, room, s) == Prepend([], DecodePacked(f, room, s))
  {
    hide DecodePacked;
    var r := DecodePacked(f, room, s);
    if r.Some? { assert [] + r.value == r.value; }
  }

  lemma {:induction false} PackedStep(f: Field, room: nat, s: seq<byte>, vs: seq<Value>)
    requires f.Packable() && s != [] && room > 0
    ensures match DecodeScalar(f, s)
      case Fail => DecodePacked(f, room, s).None?
      case Done(v, rest) => Prepend(vs, DecodePacked(f, room, s)) == Prepend(vs + [v], DecodePacked(f, room - 1, rest))
  {
    hide DecodeScalar;
    var r := DecodeScalar(f, s);
    if r.Done? && DecodePacked(f, room - 1, r.rest).Some? {
      assert vs + ([r.value] + DecodePacked(f, room - 1, r.rest).value) == vs + [r.value] + DecodePacked(f, room - 1, r.rest).value;
    }
  }

  lemma {:induction false} PackedEnd(f: Field, room: nat, s: seq<byte>, vs: seq<Value>)
    requires f.Packable() && (s == [] || room == 0)
    ensures Prepend(vs, DecodePacked(f, room, s)) == if s == [] then Some(vs) else None
  {
    assert vs + [] == vs;
  }

  // ---- required fields, as two words of 32 bits ----

  type Word32 = w: seq<bool> | |w| == 32 witness seq(32, _ => false)

  /** The indexes whose bits are set. */
  ghost function SeenSet(words: seq<Word32>): set<nat>
    requires |words| == 2
  {
    set n: nat | n < PB_MAX_REQUIRED_FIELDS && words[n / 32][n % 32] :: n
  }

  function SetBit(words: seq<Word32>, n: nat): (r: seq<Word32>)
    requires |words| == 2 && n < PB_MAX_REQUIRED_FIELDS
    ensures |r| == 2
  {
    words[n / 32 := words[n / 32][n % 32 := true]]
  }

  lemma {:induction false} SetBitSeen(words: seq<Word32>, n: nat)
    requires |words| == 2 && n < PB_MAX_REQUIRED_FIELDS
    ensures SeenSet(SetBit(words, n)) == SeenSet(words) + {n}
  {
    forall m: nat | m < PB_MAX_REQUIRED_FIELDS
      ensures SetBit(words, n)[m / 32][m % 32] == (words[m / 32][m % 32] || m == n)
    {
      assert m / 32 == n / 32 && m % 32 == n % 32 ==> m == n;
    }
  }

  /** The lowest `n` bits set: all ones shifted right. */
  function LowBits(n: nat): Word32 {
    seq(32, k => k < n)
  }

  /** The number of required fields of the table, found by running the iterator to its end. */
  method CountRequired(iter: FieldIter) returns (count: nat)
    requires iter.Valid()
    modifies iter
    ensures count == RequiredBefore(iter.start, |iter.start|)
  {
    var last := Required;
    var more := true;
    count := 0;
    while more
      invariant iter.Valid()
      invariant !more ==> iter.pos == 0
      invariant !more && iter.start != [] ==> last == iter.start[|iter.start| - 1].htype
      invariant !more ==> count == if iter.start == [] then 0 else RequiredBefore(iter.start, |iter.start| - 1)
      decreases if more then |iter.start| + 1 - iter.pos else 0
    {
      count := iter.requiredFieldIndex;
      if iter.start != [] { last := iter.start[iter.pos].htype; }
      more := iter.Next();
    }
    if last.Required? && iter.start != [] {
      count := count + 1;
    }
  }

  lemma {:induction false} WholeWord(words: seq<Word32>, i: nat)
    requires |words| == 2 && i < 2
    ensures words[i] == LowBits(32) <==> forall n: nat | 32 * i <= n < 32 * i + 32 :: n in SeenSet(words)
  {
    if words[i] == LowBits(32) {
      forall n: nat | 32 * i <= n < 32 * i + 32 ensures n in SeenSet(words) {
        assert n / 32 == i && words[i][n % 32] == LowBits(32)[n % 32];
      }
    } else {
      var k :| 0 <= k < 32 && words[i][k] != LowBits(32)[k];
      assert (32 * i + k) / 32 == i && (32 * i + k) % 32 == k;
      assert 32 * i + k !in SeenSet(words);
    }
  }

  lemma {:induction false} PartWord(words: seq<Word32>, count: nat)
    requires |words| == 2 && count < PB_MAX_REQUIRED_FIELDS && forall n | n in SeenSet(words) :: n < count
    ensures words[count / 32] == LowBits(count % 32) <==> forall n: nat | count / 32 * 32 <= n < count :: n in SeenSet(words)
  {
    var i := count / 32;
    forall k | 0 <= k < 32 ensures words[i][k] == (32 * i + k in SeenSet(words)) {
      assert (32 * i + k) / 32 == i && (32 * i + k) % 32 == k;
    }
    if words[i] == LowBits(count % 32) {
      forall n: nat | 32 * i <= n < count ensures n in SeenSet(words) {
        assert words[i][n - 32 * i] == LowBits(count % 32)[n - 32 * i];
      }
    }
    if forall n: nat | count / 32 * 32 <= n < count :: n in SeenSet(words) {
      assert forall k | 0 <= k < 32 :: words[i][k] == LowBits(count % 32)[k];
    }
  }

  /** Whole words against all ones, then the remaining bits of the last one. */
  method CheckRequired(fieldsSeen: seq<Word32>, total: nat) returns (ok: bool)
    requires |fieldsSeen| == 2 && forall n | n in SeenSet(fieldsSeen) :: n < total
    ensures ok <==> forall n: nat | n < total && n < PB_MAX_REQUIRED_FIELDS :: n in SeenSet(fieldsSeen)
  {
    hide SeenSet, LowBits;
    var count := if total > PB_MAX_REQUIRED_FIELDS then PB_MAX_REQUIRED_FIELDS else total;
    var i := 0;
    while i < count / 32
      invariant 0 <= i <= count / 32
      invariant forall n: nat | n < 32 * i :: n in SeenSet(fieldsSeen)
    {
      WholeWord(fieldsSeen, i);
      if fieldsSeen[i] != LowBits(32) {
        return false;
      }
      i := i + 1;
    }
    if count % 32 != 0 {
      PartWord(fieldsSeen, count);
      if fieldsSeen[count / 32] != LowBits(count % 32) {
        return false;
      }
    }
    return true;
  }

  lemma {:induction false} RequiredOnto(fields: seq<Field>, m: nat, n: nat) returns (i: nat)
    requires m <= |fields| && n < RequiredBefore(fields, m)
    ensures i < m && fields[i].htype.Required? && RequiredBefore(fields, i) == n
  {
    i := m - 1;
    if !(fields[i].htype.Required? && RequiredBefore(fields, i) == n) {
      i := RequiredOnto(fields, m - 1, n);
    }
  }

  /** The bits checked are those of the tracked required entries. */
  lemma {:induction false} RequiredByIndex(fields: seq<Field>, seen: set<nat>)
    ensures RequiredSeen(fields, seen)
       <==> forall n: nat | n < RequiredBefore(fields, |fields|) && n < PB_MAX_REQUIRED_FIELDS :: n in seen
  {
    hide RequiredBefore;
    if RequiredSeen(fields, seen) {
      forall n: nat | n < RequiredBefore(fields, |fields|) && n < PB_MAX_REQUIRED_FIELDS ensures n in seen {
        var i := RequiredOnto(fields, |fields|, n);
        assert Tracked(fields, i);
      }
    }
    forall i | 0 <= i < |fields| && fields[i].htype.Required?
      ensures RequiredBefore(fields, i) < RequiredBefore(fields, |fields|)
    {
      RequiredBeforeGrows(fields, i, |fields|);
    }
  }

  // ---- defaults ----

  method DefaultValue(f: Field) returns (v: Value)
    ensures v == InitValue(f)
    decreases f
  {
    hide InitSlots;
    if f.ltype.Submessage? {
      var slots := SetToDefaults(f.ltype.fields);
      v := Msg(slots);
    } else {
      v := if f.init.Some? then f.init.value else ZeroValue(f);
    }
  }

  /** Every flag, count and selector cleared, every single cell at its default, nested ones included. */
  method SetToDefaults(fields: seq<Field>) returns (slots: seq<Slot>)
    ensures slots == InitSlots(fields)
    decreases fields
  {
    hide InitValue, DataOffset, SizeOffset, RequiredBefore;
    slots := seq(|fields|, _ => One(0, Junk));
    var iter := new FieldIter.Begin(fields);
    var more := fields != [];
    while more
      invariant iter.Valid() && iter.start == fields && fresh(iter) && |slots| == |fields|
      invariant more ==> fields != []
      invariant forall k | 0 <= k < |fields| ::
        slots[k] == if !more || k < iter.pos then InitSlot(fields[k]) else One(0, Junk)
      decreases |fields| - if more then iter.pos else |fields|
    {
      var f, h := fields[iter.pos], Home(fields, iter.pos);
      if f.htype.Repeated? {
        slots := slots[h := Many(if f.FixedCount() then seq(f.arraySize, _ => Junk) else [])];
      } else if f.htype.Oneof? {
        slots := slots[h := One(0, Junk)];
      } else {
        var v := DefaultValue(f);
        slots := slots[h := One(0, v)];
      }
      more := iter.Next();
    }
  }

  // ---- one field ----

  /** A nested message, in a window of its own; new array entries and union members start from defaults. */
  method DecSubmessage(stream: IStream, f: Field, prev: Value) returns (ok: bool, v: Value)
    requires stream.Valid() && f.ltype.Submessage? && FieldValid(f)
    modifies stream
    ensures stream.Moved() && (ok <==> DecodeValue(f, prev, old(stream.Rest())).Done?)
    ensures ok ==> Done(v, stream.Rest()) == DecodeValue(f, prev, old(stream.Rest()))
    decreases stream.bytesLeft, 1
  {
    hide Split, DecodeMessage, InitSlots, TableValid;
    var fields := f.ltype.fields;
    var sub, msg;
    v := Junk;
    ok, sub := stream.MakeSubstream();
    if !ok {
      return;
    }
    var slots := SlotsOf(prev, fields);
    if f.htype.Repeated? || f.htype.Oneof? {
      slots := SetToDefaults(fields);
    }
    ok, msg := DecNoinit(sub, fields, slots);
    var closed := stream.CloseSubstream(sub);
    v := Msg(msg);
  }

  method DecValue(stream: IStream, f: Field, prev: Value) returns (ok: bool, v: Value)
    requires stream.Valid() && FieldValid(f)
    modifies stream
    ensures stream.Moved() && (ok <==> DecodeValue(f, prev, old(stream.Rest())).Done?)
    ensures ok ==> Done(v, stream.Rest()) == DecodeValue(f, prev, old(stream.Rest()))
    decreases stream.bytesLeft, 2
  {
    hide DecodeScalar;
    if f.ltype.Submessage? {
      ok, v := DecSubmessage(stream, f, prev);
    } else {
      ok, v := DecScalar(stream, f);
    }
  }

  function Room(f: Field, count: nat): nat {
    if count < f.arraySize then f.arraySize - count else 0
  }

  /** A packed array: all its entries from one window, which must be used up. */
  method DecPackedArray(stream: IStream, f: Field, count: nat) returns (ok: bool, vs: seq<Value>)
    requires stream.Valid() && f.Packable()
    modifies stream
    ensures stream.Moved()
    ensures ok <==> Split(old(stream.Rest())).Done? && DecodePacked(f, Room(f, count), Split(old(stream.Rest())).value).Some?
    ensures ok ==> DecodePacked(f, Room(f, count), Split(old(stream.Rest())).value) == Some(vs)
    ensures ok ==> stream.Rest() == Split(old(stream.Rest())).rest
  {
    hide Split, DecodePacked;
    var sub;
    vs := [];
    ok, sub := stream.MakeSubstream();
    if !ok {
      return;
    }
    ok, vs := DecPacked(sub, f, Room(f, count));
    var left := sub.bytesLeft;
    var closed := stream.CloseSubstream(sub);
    ok := ok && left == 0;
  }

  /**
   * The current entry of the iterator, once its size cell has been settled. The counter of an array
   * without a count is the caller's; the other parts of the loop's state matter only for the proof.
   */
  method DecStaticField(stream: IStream, iter: FieldIter, wireType: nat, slots: seq<Slot>, fixedSize: nat, ghost st: Progress)
    returns (ok: bool, slots': seq<Slot>, fixedSize': nat)
    requires stream.Valid() && iter.Valid() && iter.start != [] && TableValid(iter.start) && |slots| == |iter.start|
    requires st.slots == slots && st.fixedSize == fixedSize
    requires iter.pSize == FixedCounter <==> iter.start[iter.pos].FixedCount()
    modifies stream
    ensures stream.Moved() && |slots'| == |slots|
    ensures ok <==> DecodeEntered(iter.start, iter.pos, wireType, st, old(stream.Rest())).Done?
    ensures ok ==> stream.Rest() == DecodeEntered(iter.start, iter.pos, wireType, st, old(stream.Rest())).rest
    ensures ok ==>
      st.(slots := slots', fixedSize := fixedSize') == DecodeEntered(iter.start, iter.pos, wireType, st, old(stream.Rest())).value
    decreases stream.bytesLeft, 3
  {
    hide DecodeValue, DecodePacked, Split, PlaceItems, TableValid, FieldValid, DataOffset, SizeOffset, RequiredBefore, ItemsOf;
    var f, h, v := iter.start[iter.pos], Home(iter.start, iter.pos), Junk;
    TableEntry(iter.start, iter.pos);
    slots', fixedSize' := slots, fixedSize;
    if f.htype.Repeated? {
      var items, vs := ItemsOf(f, slots[h]), [];
      var count := if iter.pSize == FixedCounter then fixedSize else |items|;
      if wireType == WT_STRING && f.Packable() {
        ok, vs := DecPackedArray(stream, f, count);
      } else if count >= f.arraySize {
        return false, slots, fixedSize;
      } else {
        ok, v := DecValue(stream, f, Junk);
        vs := [v];
      }
      slots' := slots[h := Many(PlaceItems(f, items, count, vs))];
      if iter.pSize == FixedCounter {
        fixedSize' := count + |vs|;
      }
    } else {
      ok, v := DecValue(stream, f, ValueOf(slots[h]));
      slots' := slots[h := One(PresentFlag(f), v)];
    }
  }

  // ---- the loop ----

  /** All bits belong to required entries of the table. */
  ghost predicate Indexed(fields: seq<Field>, seen: set<nat>) {
    forall n | n in seen :: n < RequiredBefore(fields, |fields|)
  }

  lemma {:induction false} TrackedIndexed(fields: seq<Field>, i: nat, seen: set<nat>)
    requires i < |fields| && Tracked(fields, i) && Indexed(fields, seen)
    ensures Indexed(fields, seen + {RequiredBefore(fields, i)})
  {
    hide RequiredBefore;
    RequiredBeforeGrows(fields, i, |fields|);
  }

  /** Bookkeeping for the entry found: the counter of an array without a count, and the seen bit. */
  method EnterField(iter: FieldIter, fieldsSeen: seq<Word32>, fixedField: Option<nat>, fixedSize: nat, ghost slots: seq<Slot>)
    returns (ok: bool, fieldsSeen': seq<Word32>, fixedField': Option<nat>, fixedSize': nat)
    requires iter.Valid() && iter.start != [] && |fieldsSeen| == 2 && Indexed(iter.start, SeenSet(fieldsSeen))
    requires fixedField.Some? ==> fixedField.value < |iter.start|
    requires iter.pSize == FixedCounter ==> fixedField == Some(iter.pos)
    modifies iter
    ensures iter.Valid() && iter.pos == old(iter.pos) && |fieldsSeen'| == 2
    ensures fixedField'.Some? ==> fixedField'.value < |iter.start|
    ensures ok ==> Indexed(iter.start, SeenSet(fieldsSeen'))
    ensures ok ==> (iter.pSize == FixedCounter <==> iter.start[iter.pos].FixedCount())
    ensures ok && iter.pSize == FixedCounter ==> fixedField' == Some(iter.pos)
    ensures var st := Progress(slots, SeenSet(fieldsSeen), fixedField, fixedSize);
      Enter(iter.start, iter.pos, st)
        == if ok then Some(Progress(slots, SeenSet(fieldsSeen'), fixedField', fixedSize')) else None
  {
    hide SeenSet, RequiredBefore, Indexed, DataOffset;
    fieldsSeen', fixedField', fixedSize' := fieldsSeen, fixedField, fixedSize;
    var fields := iter.start;
    var f := fields[iter.pos];
    SizeCellAtData(fields, iter.pos);
    if f.htype.Repeated? && iter.pSize == InStruct(iter.pData) {
      if fixedField != Some(iter.pos) {
        if fixedField.Some? && fixedSize != fields[fixedField.value].arraySize {
          return false, fieldsSeen', fixedField', fixedSize';
        }
        fixedField' := Some(iter.pos);
        fixedSize' := 0;
      }
      iter.pSize := FixedCounter;
    }
    if f.htype.Required? && iter.requiredFieldIndex < PB_MAX_REQUIRED_FIELDS {
      fieldsSeen' := SetBit(fieldsSeen, iter.requiredFieldIndex);
      SetBitSeen(fieldsSeen, iter.requiredFieldIndex);
      TrackedIndexed(fields, iter.pos, SeenSet(fieldsSeen));
    }
    ok := true;
  }

  /** An array has no count exactly when its size cell is its data. */
  lemma {:induction false} SizeCellAtData(fields: seq<Field>, i: nat)
    requires i < |fields|
    ensures fields[i].htype.Repeated? ==> (fields[i].FixedCount() <==> SizeOffset(fields, i) == DataOffset(fields, i))
  {
  }

  /** One round of the loop, behind the tag: find the entry and decode it, or skip the value. */
  method DecOne(stream: IStream, iter: FieldIter, tag: nat, wireType: nat,
                slots: seq<Slot>, fieldsSeen: seq<Word32>, fixedField: Option<nat>, fixedSize: nat)
    returns (ok: bool, slots': seq<Slot>, fieldsSeen': seq<Word32>, fixedField': Option<nat>, fixedSize': nat)
    requires stream.Valid() && iter.Valid() && TableValid(iter.start) && |slots| == |iter.start|
    requires |fieldsSeen| == 2 && Indexed(iter.start, SeenSet(fieldsSeen))
    requires fixedField.Some? ==> fixedField.value < |iter.start|
    requires iter.pSize == FixedCounter ==> fixedField == Some(iter.pos)
    modifies stream, iter
    ensures stream.Moved() && iter.Valid() && |slots'| == |slots| && |fieldsSeen'| == 2
    ensures ok ==> Indexed(iter.start, SeenSet(fieldsSeen'))
    ensures ok ==> (fixedField'.Some? ==> fixedField'.value < |iter.start|)
    ensures ok ==> (iter.pSize == FixedCounter ==> fixedField' == Some(iter.pos))
    ensures AfterTag(iter.start, Progress(slots, SeenSet(fieldsSeen), fixedField, fixedSize), tag, wireType, old(stream.Rest()))
      == if ok then Done(Progress(slots', SeenSet(fieldsSeen'), fixedField', fixedSize'), stream.Rest()) else Fail
    decreases stream.bytesLeft, 4
  {
    hide SeenSet, Indexed, Skip, DecodeEntered, Enter, TableValid, DataOffset, SizeOffset, RequiredBefore;
    slots', fieldsSeen', fixedField', fixedSize' := slots, fieldsSeen, fixedField, fixedSize;
    if iter.start != [] { TableEntry(iter.start, 0); }
    var found := iter.Find(tag);
    if !found {
      // There is no extension entry to try, so the value is skipped.
      ok := stream.SkipField(wireType);
      return;
    }
    if iter.start == [] {
      // The terminator has no size that an integer could have.
      var value;
      ok, value := stream.DecodeVarint();
      return false, slots', fieldsSeen', fixedField', fixedSize';
    }
    ok, fieldsSeen', fixedField', fixedSize' := EnterField(iter, fieldsSeen, fixedField, fixedSize, slots);
    if !ok {
      return;
    }
    ghost var st := Progress(slots, SeenSet(fieldsSeen'), fixedField', fixedSize');
    ok, slots', fixedSize' := DecStaticField(stream, iter, wireType, slots, fixedSize', st);
  }

  lemma {:induction false} LoopRound(fields: seq<Field>, st: Progress, s: seq<byte>)
    requires |st.slots| == |fields|
    ensures s == [] ==> DecodeFields(fields, st, s) == Done(st, s)
    ensures s != [] ==> match DecodeTag(s)
      case TagFail => DecodeFields(fields, st, s) == Fail
      case TagEnd(rest) => DecodeFields(fields, st, s) == Done(st, rest)
      case Tag(tag, wireType, rest) =>
        match AfterTag(fields, st, tag, wireType, rest)
        case Fail => DecodeFields(fields, st, s) == Fail
        case Done(next, after) => DecodeFields(fields, st, s) == DecodeFields(fields, next, after)
  {
    hide PbWire.DecodeTag, Skip, DecodeField, Find;
  }

  /** Decoding into a struct that has been initialized, or that is to be merged into. */
  method DecNoinit(stream: IStream, fields: seq<Field>, slots: seq<Slot>) returns (ok: bool, msg: seq<Slot>)
    requires stream.Valid() && TableValid(fields) && |slots| == |fields|
    modifies stream
    ensures stream.Moved() && |msg| == |fields| && (ok <==> DecodeMessage(fields, slots, old(stream.Rest())).Done?)
    ensures ok ==> Done(msg, stream.Rest()) == DecodeMessage(fields, slots, old(stream.Rest()))
    decreases stream.bytesLeft, 0
  {
    hide SeenSet, Indexed, DecodeFields, AfterTag, TableValid, RequiredSeen, PbWire.DecodeTag, DataOffset,
      SizeOffset, RequiredBefore;
    var fieldsSeen: seq<Word32> := [LowBits(0), LowBits(0)];
    NothingSeen(fields);
    var iter := new FieldIter.Begin(fields);
    var fixedField: Option<nat> := None;
    var fixedSize: nat := 0;
    var eof := false;
    msg, ok := slots, true;
    ghost var whole := DecodeFields(fields, Start(slots), stream.Rest());
    while stream.bytesLeft != 0 && !eof
      invariant stream.Moved() && iter.Valid() && fresh(iter) && iter.start == fields && |msg| == |fields| && |fieldsSeen| == 2
      invariant fixedField.Some? ==> fixedField.value < |fields|
      invariant iter.pSize == FixedCounter ==> fixedField == Some(iter.pos)
      invariant Indexed(fields, SeenSet(fieldsSeen))
      invariant whole == if eof then Done(Progress(msg, SeenSet(fieldsSeen), fixedField, fixedSize), stream.Rest())
                         else DecodeFields(fields, Progress(msg, SeenSet(fieldsSeen), fixedField, fixedSize), stream.Rest())
      decreases stream.bytesLeft
    {
      LoopRound(fields, Progress(msg, SeenSet(fieldsSeen), fixedField, fixedSize), stream.Rest());
      var wireType, tag;
      ok, wireType, tag, eof := stream.DecodeTag();
      if !ok && !eof {
        return;
      }
      if ok {
        eof := false;
        ok, msg, fieldsSeen, fixedField, fixedSize :=
          DecOne(stream, iter, tag, wireType, msg, fieldsSeen, fixedField, fixedSize);
        if !ok {
          return;
        }
      }
    }
    ghost var st := Progress(msg, SeenSet(fieldsSeen), fixedField, fixedSize);
    LoopRound(fields, st, stream.Rest());
    if fixedField.Some? && fixedSize != fields[fixedField.value].arraySize {
      return false, msg;
    }
    var total := CountRequired(iter);
    IndexedMeans(fields, st.seen);
    RequiredByIndex(fields, st.seen);
    ok := CheckRequired(fieldsSeen, total);
  }

  lemma {:induction false} NothingSeen(fields: seq<Field>)
    ensures SeenSet([LowBits(0), LowBits(0)]) == {} && Indexed(fields, {})
  {
  }

  lemma {:induction false} IndexedMeans(fields: seq<Field>, seen: set<nat>)
    ensures Indexed(fields, seen) <==> forall n | n in seen :: n < RequiredBefore(fields, |fields|)
  {
  }

  method DecMessage(stream: IStream, fields: seq<Field>) returns (ok: bool, msg: seq<Slot>)
    requires stream.Valid() && TableValid(fields)
    modifies stream
    ensures stream.Moved() && (ok <==> Decode(fields, old(stream.Rest())).Done?)
    ensures ok ==> Done(msg, stream.Rest()) == Decode(fields, old(stream.Rest()))
  {
    hide DecodeMessage, TableValid;
    msg := SetToDefaults(fields);
    ok, msg := DecNoinit(stream, fields, msg);
  }

  /** One framed message; whatever it leaves unread in its window is skipped. */
  method DecDelimited(stream: IStream, fields: seq<Field>) returns (ok: bool, msg: seq<Slot>)
    requires stream.Valid() && TableValid(fields)
    modifies stream
    ensures stream.Moved() && (ok <==> DecodeDelimited(fields, old(stream.Rest())).Done?)
    ensures ok ==> Done(msg, stream.Rest()) == DecodeDelimited(fields, old(stream.Rest()))
  {
    hide Decode, Split, TableValid;
    var sub;
    msg := [];
    ok, sub := stream.MakeSubstream();
    if !ok {
      return;
    }
    ok, msg := DecMessage(sub, fields);
    var closed := stream.CloseSubstream(sub);
  }

  /** Both ways through memory: what one call writes, the other reads back, byte for byte and field for field. */
  method ThroughMemory(buf: array<byte>, fields: seq<Field>, slots: seq<Slot>) returns (ok: bool, msg: seq<Slot>)
    requires TableValid(fields) && |slots| == |fields| && AllStorable(fields, slots) && buf.Length < U32
    modifies buf
    ensures ok <==> Encode(fields, slots).Some? && |Encode(fields, slots).value| <= buf.Length
    ensures ok ==> msg == Canon(fields, slots)
  {
    hide Encode, DecodeMessage, TableValid, AllStorable, Canon;
    var written;
    msg := [];
    ok, written := EncodeToBuffer(buf, buf.Length, fields, slots);
    if !ok {
      return;
    }
    MessageRoundTrip(fields, slots);
    var stream := new IStream.FromBuffer(buf[..written]);
    ok, msg := DecMessage(stream, fields);
  }
}
