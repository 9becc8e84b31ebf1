/**
 * Message descriptors and the structs they describe.
 *
 * A struct is modelled as one slot per table entry: the cell at `pData` together with the has-flag,
 * count or selector at `pSize`. The members of a union share the slot of the first of them. The
 * sizes are those of the 32-bit field configuration, which the generated tables of this repository
 * require.
 */
module PbSchema {
  import opened Bytes
  import opened PbWire

  const PB_SIZE_MAX: nat := 0xffff_ffff
  const PB_MAX_REQUIRED_FIELDS: nat := 64
  const MAX_TAG: nat := 0x1fff_ffff
  /** Where the bytes start in a `bytes` array, after its size. */
  const BYTES_OFFSET: nat := 4

  datatype HType = Required | Optional | Repeated | Oneof

  datatype LType =
    | VarInt | UVarInt | SVarInt | Fixed32 | Fixed64
    | BytesArray | CString | FixedLengthBytes
    | Submessage(fields: seq<Field>)

  /** What a cell holds; `Junk` is memory that has never been written. */
  datatype Value = Junk | Int(i: int) | Blob(b: seq<byte>) | Str(s: seq<byte>) | Msg(slots: seq<Slot>)

  /** A single cell with its has-flag or selector, or the used entries of an array. */
  datatype Slot = One(flag: nat, v: Value) | Many(items: seq<Value>)

  datatype Field = Field(tag: nat, htype: HType, ltype: LType, dataOffset: nat, sizeOffset: int,
                         dataSize: nat, arraySize: nat, init: Option<Value>)
  {
    predicate Packable() {
      ltype.VarInt? || ltype.UVarInt? || ltype.SVarInt? || ltype.Fixed32? || ltype.Fixed64?
    }

    /** A proto3 field: optional, but without a has-flag. */
    predicate Singular() {
      htype.Optional? && sizeOffset == 0
    }

    /** An array without a count: all its entries are always present. */
    predicate FixedCount() {
      htype.Repeated? && sizeOffset == 0
    }

    function WireType(): nat {
      match ltype
      case VarInt | UVarInt | SVarInt => WT_VARINT
      case Fixed32 => WT_32BIT
      case Fixed64 => WT_64BIT
      case _ => WT_STRING
    }

    /** Bytes taken by this field in the struct. */
    function Extent(): nat {
      if htype.Repeated? then dataSize * arraySize else dataSize
    }
  }

  // ---- descriptor tables ----

  predicate DistinctTags(fields: seq<Field>) {
    forall i, j | 0 <= i < j < |fields| :: fields[i].tag != fields[j].tag
  }

  predicate TableValid(fields: seq<Field>)
    decreases fields
  {
    && DistinctTags(fields)
    && forall i | 0 <= i < |fields| :: FieldValid(fields[i])
  }

  /**
   * What the generator guarantees: union members have a selector, and no array without a count
   * stands inside a proto3 singular submessage.
   */
  predicate FieldValid(f: Field)
    decreases f
  {
    && 1 <= f.tag <= MAX_TAG && f.dataSize <= PB_SIZE_MAX && f.arraySize <= PB_SIZE_MAX
    && (f.htype.Oneof? ==> f.sizeOffset != 0)
    && (f.ltype.Submessage? ==>
          && TableValid(f.ltype.fields)
          && (f.Singular() ==> forall i | 0 <= i < |f.ltype.fields| :: !f.ltype.fields[i].FixedCount()))
  }

  lemma {:induction false} TableEntry(fields: seq<Field>, i: nat)
    requires i < |fields| && TableValid(fields)
    ensures DistinctTags(fields) && FieldValid(fields[i])
  {
    hide DistinctTags, FieldValid;
  }

  /** The entry with the given tag. */
  function Find(fields: seq<Field>, tag: nat): (r: Option<nat>)
    ensures r.Some? ==> r.value < |fields| && fields[r.value].tag == tag
    ensures r.None? ==> forall i | 0 <= i < |fields| :: fields[i].tag != tag
  {
    if fields == [] then None
    else if fields[|fields| - 1].tag == tag then Some(|fields| - 1)
    else Find(fields[..|fields| - 1], tag)
  }

  lemma {:induction false} FindDistinct(fields: seq<Field>, i: nat)
    requires DistinctTags(fields) && i < |fields|
    ensures Find(fields, fields[i].tag) == Some(i)
  {
  }

  // ---- layout ----

  /** Entry `i` continues the union that its predecessor belongs to. */
  predicate Joins(fields: seq<Field>, i: nat)
    requires i < |fields|
  {
    i > 0 && fields[i - 1].htype.Oneof? && fields[i].htype.Oneof? && fields[i].dataOffset == PB_SIZE_MAX
  }

  /** The entry whose slot holds entry `i`: itself, or the first member of its union. */
  function Home(fields: seq<Field>, i: nat): (h: nat)
    requires i < |fields|
    ensures h <= i && !Joins(fields, h)
    ensures h < i ==> fields[h].htype.Oneof? && fields[i].htype.Oneof?
  {
    if Joins(fields, i) then Home(fields, i - 1) else i
  }

  /** The offset of entry `i` in the struct. */
  function DataOffset(fields: seq<Field>, i: nat): nat
    requires i < |fields|
  {
    if i == 0 then fields[0].dataOffset
    else if Joins(fields, i) then DataOffset(fields, i - 1)
    else DataOffset(fields, i - 1) + fields[i - 1].Extent() + fields[i].dataOffset
  }

  /** The offset of its has-flag, count or selector; equal to the data offset when there is none. */
  function SizeOffset(fields: seq<Field>, i: nat): int
    requires i < |fields|
  {
    if Joins(fields, i) then SizeOffset(fields, i - 1) else DataOffset(fields, i) + fields[i].sizeOffset
  }

  /** How many required fields precede entry `i`. */
  function RequiredBefore(fields: seq<Field>, i: nat): (n: nat)
    requires i <= |fields|
    ensures n <= i
  {
    if i == 0 then 0
    else RequiredBefore(fields, i - 1) + (if fields[i - 1].htype.Required? then 1 else 0)
  }

  lemma {:induction false} DataOffsetGrows(fields: seq<Field>, i: nat, j: nat)
    requires i <= j < |fields|
    ensures DataOffset(fields, i) <= DataOffset(fields, j)
  {
    if i < j {
      DataOffsetGrows(fields, i, j - 1);
    }
  }

  lemma {:induction false} HomeShares(fields: seq<Field>, i: nat)
    requires i < |fields|
    ensures DataOffset(fields, i) == DataOffset(fields, Home(fields, i))
    ensures SizeOffset(fields, i) == SizeOffset(fields, Home(fields, i))
    ensures forall k | Home(fields, i) <= k <= i :: Home(fields, k) == Home(fields, i)
  {
    if Joins(fields, i) {
      HomeShares(fields, i - 1);
    }
  }

  /** The last member of the union that entry `i` belongs to; `i` itself when it is in none. */
  function Last(fields: seq<Field>, i: nat): (k: nat)
    requires i < |fields|
    ensures i <= k < |fields|
    decreases |fields| - i
  {
    if i + 1 < |fields| && Joins(fields, i + 1) then Last(fields, i + 1) else i
  }

  lemma {:induction false} LastShares(fields: seq<Field>, i: nat, j: nat)
    requires i < |fields| && i <= j <= Last(fields, i)
    ensures Home(fields, j) == Home(fields, i) && DataOffset(fields, j) == DataOffset(fields, i)
    decreases j - i
  {
    if i < j {
      LastShares(fields, i + 1, j);
    }
  }

  lemma {:induction false} LastEnds(fields: seq<Field>, i: nat)
    requires i < |fields|
    ensures Last(fields, i) + 1 < |fields| ==> !Joins(fields, Last(fields, i) + 1)
    decreases |fields| - i
  {
    if i + 1 < |fields| && Joins(fields, i + 1) {
      LastEnds(fields, i + 1);
    }
  }

  lemma {:induction false} HomeAbove(fields: seq<Field>, m: nat, j: nat)
    requires m <= j < |fields| && !Joins(fields, m)
    ensures Home(fields, j) >= m
  {
    if m < j && Joins(fields, j) {
      HomeAbove(fields, m, j - 1);
    }
  }

  /**
   * Entries share a slot, and then an offset, exactly when they are members of one union; the
   * storage of any other entry lies behind that of the union, whose extent is its last member's.
   */
  lemma {:induction false} StorageDisjoint(fields: seq<Field>, i: nat, j: nat)
    requires i < j < |fields|
    ensures Home(fields, i) == Home(fields, j) <==> j <= Last(fields, i)
    ensures if j <= Last(fields, i) then DataOffset(fields, i) == DataOffset(fields, j)
      else DataOffset(fields, i) + fields[Last(fields, i)].Extent() <= DataOffset(fields, j)
  {
    hide Home, Last;
    var k := Last(fields, i);
    if j <= k {
      LastShares(fields, i, j);
    } else {
      LastShares(fields, i, k);
      LastEnds(fields, i);
      HomeAbove(fields, k + 1, j);
      DataOffsetGrows(fields, k + 1, j);
    }
  }

  lemma {:induction false} RequiredBeforeGrows(fields: seq<Field>, i: nat, j: nat)
    requires i <= j <= |fields|
    ensures RequiredBefore(fields, i) <= RequiredBefore(fields, j)
    ensures i < j && fields[i].htype.Required? ==> RequiredBefore(fields, i) < RequiredBefore(fields, j)
  {
    if i < j {
      RequiredBeforeGrows(fields, i, j - 1);
    }
  }

  // ---- initial contents ----

  function ZeroValue(f: Field): Value
    requires !f.ltype.Submessage?
  {
    match f.ltype
    case BytesArray => Blob([])
    case CString => Str([])
    case FixedLengthBytes => Blob(seq(f.dataSize, _ => 0))
    case _ => Int(0)
  }

  /** The default of a cell: recursively for a submessage, else the declared default or zeros. */
  function InitValue(f: Field): Value
    decreases f, 0
  {
    if f.ltype.Submessage? then Msg(InitSlots(f.ltype.fields))
    else if f.init.Some? then f.init.value else ZeroValue(f)
  }

  /** Flags, counts and selectors start at zero; what arrays and unions hold is not settled yet. */
  function InitSlot(f: Field): Slot
    decreases f, 1
  {
    match f.htype
    case Required | Optional => One(0, InitValue(f))
    case Repeated => Many(if f.FixedCount() then seq(f.arraySize, _ => Junk) else [])
    case Oneof => One(0, Junk)
  }

  function InitSlots(fields: seq<Field>): (slots: seq<Slot>)
    ensures |slots| == |fields|
    ensures forall i | 0 <= i < |fields| :: slots[i] == InitSlot(fields[i])
    decreases fields
  {
    if fields == [] then [] else InitSlots(fields[..|fields| - 1]) + [InitSlot(fields[|fields| - 1])]
  }

  // ---- reading cells ----

  function IntOf(v: Value): int {
    if v.Int? then v.i else 0
  }

  function BlobOf(v: Value): seq<byte> {
    if v.Blob? then v.b else []
  }

  function StrOf(v: Value): seq<byte> {
    if v.Str? then v.s else []
  }

  function SlotsOf(v: Value, fields: seq<Field>): (slots: seq<Slot>)
    ensures |slots| == |fields|
  {
    if v.Msg? && |v.slots| == |fields| then v.slots else InitSlots(fields)
  }

  function ValueOf(s: Slot): Value {
    if s.One? then s.v else Junk
  }

  function FlagOf(s: Slot): nat {
    if s.One? then s.flag else 0
  }

  /** The entries of an array: those counted, or all of them when there is no count. */
  function ItemsOf(f: Field, s: Slot): (items: seq<Value>)
    ensures f.FixedCount() ==> |items| == f.arraySize
  {
    var items := if s.Many? then s.items else [];
    if f.FixedCount() && |items| != f.arraySize then seq(f.arraySize, _ => Junk) else items
  }
}
