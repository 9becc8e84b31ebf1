/** The wire form of a struct, and the reading of it back: what the C encoder and decoder compute. */
module PbCodec {
  import opened Bytes
  import opened PbWire
  import opened PbSchema

  // ---- encoding ----

  predicate IntSize(size: nat) {
    size == 1 || size == 2 || size == 4 || size == 8
  }

  /** An integer cell, read as an unsigned number of its size. */
  function Load(f: Field, v: Value): nat {
    IntOf(v) % Shl(1, 8 * f.dataSize)
  }

  function EncodeInt(f: Field, v: Value): Option<seq<byte>>
    requires f.ltype.VarInt? || f.ltype.UVarInt? || f.ltype.SVarInt?
  {
    if !IntSize(f.dataSize) then None
    else if f.ltype.UVarInt? then Some(Varint(Load(f, v)))
    else
      var i := Signed(IntOf(v), f.dataSize);
      SignedRange(IntOf(v), f.dataSize);
      Some(Varint(if f.ltype.VarInt? then Unsigned(i) else ZigZag(i)))
  }

  lemma {:induction false} SignedRange(i: int, size: nat)
    requires IntSize(size)
    ensures -0x8000_0000_0000_0000 <= Signed(i, size) < 0x8000_0000_0000_0000
    ensures Shl(1, 8 * size) <= U64
  {
    hide Shl;
    ShlValues();
    ShlLonger(1, 8 * size, 64);
  }

  function EncodeScalar(f: Field, v: Value): Option<seq<byte>>
    requires !f.ltype.Submessage?
  {
    match f.ltype
    case Fixed32 => Some(LittleEndian(IntOf(v) % U32, 4))
    case Fixed64 => Some(LittleEndian(IntOf(v) % U64, 8))
    case BytesArray =>
      if |BlobOf(v)| + BYTES_OFFSET > f.dataSize then None else Some(Delimited(BlobOf(v)))
    case CString =>
      var s := StrOf(v);
      Some(Delimited(if |s| <= f.dataSize then s else s[..f.dataSize]))
    case FixedLengthBytes =>
      Some(Delimited(if |BlobOf(v)| == f.dataSize then BlobOf(v) else seq(f.dataSize, _ => 0)))
    case VarInt | UVarInt | SVarInt => EncodeInt(f, v)
  }

  function EncodeValue(f: Field, v: Value): (r: Option<seq<byte>>)
    decreases f, 0
  {
    if !f.ltype.Submessage? then EncodeScalar(f, v)
    else Framed(EncodeFrom(f.ltype.fields, SlotsOf(v, f.ltype.fields), 0))
  }

  function Join(a: Option<seq<byte>>, b: Option<seq<byte>>): Option<seq<byte>> {
    if a.Some? && b.Some? then Some(a.value + b.value) else None
  }

  function EncodePacked(f: Field, items: seq<Value>): (r: Option<seq<byte>>)
    requires f.Packable()
  {
    if items == [] then Some([])
    else Join(EncodeScalar(f, items[0]), EncodePacked(f, items[1..]))
  }

  function EncodeTagged(f: Field, v: Value): Option<seq<byte>>
    decreases f, 1
  {
    Join(Some(EncodeTag(f.tag, f.WireType())), EncodeValue(f, v))
  }

  function EncodeItems(f: Field, items: seq<Value>): (r: Option<seq<byte>>)
    decreases f, 2, |items|
  {
    if items == [] then Some([])
    else Join(EncodeTagged(f, items[0]), EncodeItems(f, items[1..]))
  }

  function EncodeArray(f: Field, items: seq<Value>): Option<seq<byte>>
    decreases f, 3
  {
    if items == [] then Some([])
    else if |items| > f.arraySize then None
    else if !f.Packable() then EncodeItems(f, items)
    else Join(Some(EncodeTag(f.tag, WT_STRING)), Framed(EncodePacked(f, items)))
  }

  /** A proto3 field that is zero, or a submessage with nothing set, is not written at all. */
  predicate Proto3Default(f: Field, s: Slot)
    decreases f, 0
  {
    match f.htype
    case Required => false
    case Repeated => ItemsOf(f, s) == []
    case Oneof => FlagOf(s) == 0
    case Optional =>
      if !f.Singular() then FlagOf(s) == 0
      else
        match f.ltype
        case BytesArray => BlobOf(ValueOf(s)) == []
        case CString => StrOf(ValueOf(s)) == []
        case FixedLengthBytes => f.dataSize == 0
        case Submessage(fields) =>
          var slots := SlotsOf(ValueOf(s), fields);
          forall i | 0 <= i < |fields| :: DefaultAt(fields, slots, i)
        case _ => Load(f, ValueOf(s)) == 0
  }

  predicate DefaultAt(fields: seq<Field>, slots: seq<Slot>, i: nat)
    requires i < |fields| == |slots|
    decreases fields[i], 1
  {
    Proto3Default(fields[i], slots[Home(fields, i)])
  }

  predicate Present(f: Field, s: Slot) {
    match f.htype
    case Required => true
    case Optional => if f.Singular() then !Proto3Default(f, s) else FlagOf(s) != 0
    case Repeated => ItemsOf(f, s) != []
    case Oneof => FlagOf(s) == f.tag
  }

  function EncodeField(f: Field, s: Slot): Option<seq<byte>>
    decreases f, 4
  {
    if f.htype.Repeated? then EncodeArray(f, ItemsOf(f, s))
    else if Present(f, s) then EncodeTagged(f, ValueOf(s))
    else Some([])
  }

  /** The fields from entry `i` on. */
  function EncodeFrom(fields: seq<Field>, slots: seq<Slot>, i: nat): Option<seq<byte>>
    requires |slots| == |fields| && i <= |fields|
    decreases fields, |fields| - i
  {
    if i == |fields| then Some([])
    else Join(EncodeField(fields[i], slots[Home(fields, i)]), EncodeFrom(fields, slots, i + 1))
  }

  function Encode(fields: seq<Field>, slots: seq<Slot>): Option<seq<byte>>
    requires |slots| == |fields|
  {
    EncodeFrom(fields, slots, 0)
  }

  // ---- decoding ----

  function DecodeInt(f: Field, s: seq<byte>): (r: Read<Value>)
    requires f.ltype.VarInt? || f.ltype.UVarInt? || f.ltype.SVarInt?
    ensures r.Done? ==> |r.rest| < |s|
  {
    match DecodeVarint(s)
    case Fail => Fail
    case Done(n, rest) =>
      if !IntSize(f.dataSize) then Fail
      else if f.ltype.UVarInt? then
        if n % Shl(1, 8 * f.dataSize) == n then Done(Int(n), rest) else Fail
      else
        var i := if f.ltype.SVarInt? then UnZigZag(n % U64)
                 else Signed(n, if f.dataSize == 8 then 8 else 4);
        if Signed(i, f.dataSize) == i then Done(Int(i), rest) else Fail
  }

  function DecodeFixed(n: nat, s: seq<byte>): (r: Read<Value>)
    ensures r.Done? ==> |r.rest| == |s| - n
  {
    if |s| < n then Fail else Done(Int(FromLittleEndian(s[..n])), s[n..])
  }

  /** The characters before the first NUL. */
  function UpToNul(s: seq<byte>): seq<byte> {
    if s == [] || s[0] == 0 then [] else [s[0]] + UpToNul(s[1..])
  }

  function Take(n: nat, s: seq<byte>): (r: Read<seq<byte>>)
    ensures r.Done? ==> |r.value| == n && |r.rest| == |s| - n
  {
    if |s| < n then Fail else Done(s[..n], s[n..])
  }

  function DecodeBlob(f: Field, s: seq<byte>): (r: Read<Value>)
    ensures r.Done? ==> |r.rest| < |s|
  {
    match DecodeVarint32(s)
    case Fail => Fail
    case Done(size, rest) =>
      if size > PB_SIZE_MAX || size + BYTES_OFFSET > f.dataSize then Fail
      else match Take(size, rest) { case Fail => Fail case Done(b, after) => Done(Blob(b), after) }
  }

  function DecodeString(f: Field, s: seq<byte>): (r: Read<Value>)
    ensures r.Done? ==> |r.rest| < |s|
  {
    match DecodeVarint32(s)
    case Fail => Fail
    case Done(size, rest) =>
      if (size + 1) % U32 < size || (size + 1) % U32 > f.dataSize then Fail
      else match Take(size, rest) { case Fail => Fail case Done(b, after) => Done(Str(UpToNul(b)), after) }
  }

  function DecodeFixedBytes(f: Field, s: seq<byte>): (r: Read<Value>)
    ensures r.Done? ==> |r.rest| < |s|
  {
    match DecodeVarint32(s)
    case Fail => Fail
    case Done(size, rest) =>
      if size > PB_SIZE_MAX then Fail
      else if size == 0 then Done(Blob(seq(f.dataSize, _ => 0)), rest)
      else if size != f.dataSize then Fail
      else match Take(size, rest) { case Fail => Fail case Done(b, after) => Done(Blob(b), after) }
  }

  function DecodeScalar(f: Field, s: seq<byte>): (r: Read<Value>)
    requires !f.ltype.Submessage?
    ensures r.Done? ==> |r.rest| < |s|
  {
    match f.ltype
    case Fixed32 => DecodeFixed(4, s)
    case Fixed64 => DecodeFixed(8, s)
    case BytesArray => DecodeBlob(f, s)
    case CString => DecodeString(f, s)
    case FixedLengthBytes => DecodeFixedBytes(f, s)
    case VarInt | UVarInt | SVarInt => DecodeInt(f, s)
  }

  /** The entries of a packed array, of which there may be at most `room`. */
  function DecodePacked(f: Field, room: nat, s: seq<byte>): (r: Option<seq<Value>>)
    requires f.Packable()
    ensures r.Some? ==> |r.value| <= room
    decreases |s|
  {
    if s == [] then Some([])
    else if room == 0 then None
    else
      match DecodeScalar(f, s)
      case Fail => None
      case Done(v, rest) =>
        match DecodePacked(f, room - 1, rest)
        case None => None
        case Some(vs) => Some([v] + vs)
  }

  /**
   * The state of the decoding loop: the struct, the required fields seen so far by their index, and
   * the counter for the one array without a count that may be in progress.
   */
  datatype Progress = Progress(slots: seq<Slot>, seen: set<nat>, fixedField: Option<nat>, fixedSize: nat)

  function Start(slots: seq<Slot>): Progress {
    Progress(slots, {}, None, 0)
  }

  predicate FixedComplete(fields: seq<Field>, st: Progress) {
    st.fixedField.None? || st.fixedField.value >= |fields|
    || st.fixedSize == fields[st.fixedField.value].arraySize
  }

  predicate RequiredSeen(fields: seq<Field>, seen: set<nat>) {
    forall i | 0 <= i < |fields| && fields[i].htype.Required? :: Tracked(fields, i) ==> RequiredBefore(fields, i) in seen
  }

  /** Only the first 64 required fields are tracked. */
  predicate Tracked(fields: seq<Field>, i: nat)
    requires i < |fields|
  {
    fields[i].htype.Required? && RequiredBefore(fields, i) < PB_MAX_REQUIRED_FIELDS
  }

  /** Entry `i` is an array without a count other than the one in progress. */
  predicate Switches(fields: seq<Field>, i: nat, st: Progress)
    requires i < |fields|
  {
    fields[i].FixedCount() && st.fixedField != Some(i)
  }

  function Entered(fields: seq<Field>, i: nat, st: Progress): (r: Progress)
    requires i < |fields|
    ensures r.slots == st.slots
  {
    if Switches(fields, i, st) then st.(fixedField := Some(i), fixedSize := 0)
    else if Tracked(fields, i) then st.(seen := st.seen + {RequiredBefore(fields, i)})
    else st
  }

  /** Bookkeeping before entry `i` is decoded: the seen bit, and the switch to another counted array. */
  function Enter(fields: seq<Field>, i: nat, st: Progress): (r: Option<Progress>)
    requires i < |fields|
    ensures r.Some? ==> r.value.slots == st.slots
  {
    if Switches(fields, i, st) && !FixedComplete(fields, st) then None else Some(Entered(fields, i, st))
  }

  /** `count` entries are in use; the new ones follow them. */
  function PlaceItems(f: Field, items: seq<Value>, count: nat, vs: seq<Value>): seq<Value> {
    if f.FixedCount() && count + |vs| <= |items| then items[..count] + vs + items[count + |vs|..]
    else items + vs
  }

  function CountOf(f: Field, items: seq<Value>, st: Progress): nat {
    if f.FixedCount() then st.fixedSize else |items|
  }

  function AddItems(fields: seq<Field>, i: nat, st: Progress, vs: seq<Value>): (r: Progress)
    requires i < |fields| == |st.slots|
    ensures |r.slots| == |fields|
  {
    var f, h := fields[i], Home(fields, i);
    var items := ItemsOf(f, st.slots[h]);
    var count := CountOf(f, items, st);
    var next := st.(slots := st.slots[h := Many(PlaceItems(f, items, count, vs))]);
    if f.FixedCount() then next.(fixedSize := count + |vs|) else next
  }

  function DecodeValue(f: Field, prev: Value, s: seq<byte>): (r: Read<Value>)
    ensures r.Done? ==> |r.rest| < |s|
    decreases |s|, 1
  {
    if !f.ltype.Submessage? then DecodeScalar(f, s)
    else
      match Split(s)
      case Fail => Fail
      case Done(body, rest) =>
        var fields := f.ltype.fields;
        var slots := if f.htype.Repeated? || f.htype.Oneof? then InitSlots(fields) else SlotsOf(prev, fields);
        match DecodeMessage(fields, slots, body)
        case Fail => Fail
        case Done(msg, _) => Done(Msg(msg), rest)
  }

  function DecodeRepeated(fields: seq<Field>, i: nat, wireType: nat, st: Progress, s: seq<byte>): (r: Read<Progress>)
    requires i < |fields| == |st.slots| && fields[i].htype.Repeated?
    ensures r.Done? ==> |r.rest| < |s| && |r.value.slots| == |fields|
    decreases |s|, 2
  {
    var f := fields[i];
    var count := CountOf(f, ItemsOf(f, st.slots[Home(fields, i)]), st);
    if wireType == WT_STRING && f.Packable() then
      match Split(s)
      case Fail => Fail
      case Done(body, rest) =>
        match DecodePacked(f, if count < f.arraySize then f.arraySize - count else 0, body)
        case None => Fail
        case Some(vs) => Done(AddItems(fields, i, st, vs), rest)
    else if count >= f.arraySize then Fail
    else
      match DecodeValue(f, Junk, s)
      case Fail => Fail
      case Done(v, rest) => Done(AddItems(fields, i, st, [v]), rest)
  }

  /** The flag or selector that a present field leaves behind. */
  function PresentFlag(f: Field): nat {
    if f.htype.Oneof? then f.tag else if f.htype.Optional? && !f.Singular() then 1 else 0
  }

  /** Entry `i`, once the bookkeeping is done. */
  function DecodeEntered(fields: seq<Field>, i: nat, wireType: nat, st: Progress, s: seq<byte>): (r: Read<Progress>)
    requires i < |fields| == |st.slots|
    ensures r.Done? ==> |r.rest| < |s| && |r.value.slots| == |fields|
    decreases |s|, 3
  {
    if fields[i].htype.Repeated? then DecodeRepeated(fields, i, wireType, st, s)
    else
      var f, h := fields[i], Home(fields, i);
      match DecodeValue(f, ValueOf(st.slots[h]), s)
      case Fail => Fail
      case Done(v, rest) => Done(st.(slots := st.slots[h := One(PresentFlag(f), v)]), rest)
  }

  function DecodeField(fields: seq<Field>, i: nat, wireType: nat, st: Progress, s: seq<byte>): (r: Read<Progress>)
    requires i < |fields| == |st.slots|
    ensures r.Done? ==> |r.rest| < |s| && |r.value.slots| == |fields|
    decreases |s|, 4
  {
    match Enter(fields, i, st)
    case None => Fail
    case Some(entered) => DecodeEntered(fields, i, wireType, entered, s)
  }

  lemma {:induction false} RepeatedField(fields: seq<Field>, i: nat, wireType: nat, st: Progress, s: seq<byte>)
    requires i < |fields| == |st.slots| && fields[i].htype.Repeated? && !Switches(fields, i, st)
    ensures DecodeField(fields, i, wireType, st, s) == DecodeRepeated(fields, i, wireType, st, s)
  {
    hide DecodeRepeated;
    assert DecodeEntered(fields, i, wireType, st, s) == DecodeRepeated(fields, i, wireType, st, s);
  }

  /**
   * The decoding loop. It stops at the end of the stream or at a zero byte in place of a tag; a tag
   * that matches no entry is skipped. In a message without fields, field number zero matches the
   * table's terminator, which cannot be decoded.
   */
  function DecodeFields(fields: seq<Field>, st: Progress, s: seq<byte>): (r: Read<Progress>)
    requires |st.slots| == |fields|
    ensures r.Done? ==> |r.rest| <= |s| && |r.value.slots| == |fields|
    decreases |s|, 0
  {
    if s == [] then Done(st, s)
    else
      match DecodeTag(s)
      case TagFail => Fail
      case TagEnd(rest) => Done(st, rest)
      case Tag(tag, wireType, rest) =>
        match Find(fields, tag)
        case None =>
          if fields == [] && tag == 0 then Fail
          else
            (match Skip(wireType, rest)
             case Fail => Fail
             case Done(_, after) => DecodeFields(fields, st, after))
        case Some(i) =>
          match DecodeField(fields, i, wireType, st, rest)
          case Fail => Fail
          case Done(next, after) => DecodeFields(fields, next, after)
  }

  /** What a tag makes of the state and of the bytes behind it. */
  function AfterTag(fields: seq<Field>, st: Progress, tag: nat, wireType: nat, s: seq<byte>): (r: Read<Progress>)
    requires |st.slots| == |fields|
    ensures r.Done? ==> |r.rest| <= |s| && |r.value.slots| == |fields|
  {
    match Find(fields, tag)
    case None =>
      if fields == [] && tag == 0 then Fail
      else (match Skip(wireType, s) case Fail => Fail case Done(_, after) => Done(st, after))
    case Some(i) => DecodeField(fields, i, wireType, st, s)
  }

  /** Decoding into a struct that keeps what the message does not mention. */
  function DecodeMessage(fields: seq<Field>, slots: seq<Slot>, s: seq<byte>): (r: Read<seq<Slot>>)
    requires |slots| == |fields|
    ensures r.Done? ==> |r.rest| <= |s| && |r.value| == |fields|
    decreases |s|, 1
  {
    match DecodeFields(fields, Start(slots), s)
    case Fail => Fail
    case Done(st, rest) =>
      if FixedComplete(fields, st) && RequiredSeen(fields, st.seen) then Done(st.slots, rest) else Fail
  }

  function Decode(fields: seq<Field>, s: seq<byte>): Read<seq<Slot>> {
    DecodeMessage(fields, InitSlots(fields), s)
  }
}
