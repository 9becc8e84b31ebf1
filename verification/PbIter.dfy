/** The cyclic field iterator: a cache of offsets that moves along a descriptor table. */
module PbIter {
  import opened Bytes
  import opened PbWire
  import opened PbSchema

  /** Where `pSize` points: into the struct, or at the decoder's counter for an array without a count. */
  datatype SizeCell = InStruct(offset: int) | FixedCounter

  class FieldIter {
    const start: seq<Field>
    var pos: nat
    var requiredFieldIndex: nat
    var pData: nat
    var pSize: SizeCell

    /** The cached numbers are the prefix sums of the table up to the current entry. */
    ghost predicate Valid()
      reads this
    {
      if start == [] then pos == 0 && requiredFieldIndex == 0 && pSize.InStruct?
      else
        && pos < |start| && requiredFieldIndex == RequiredBefore(start, pos) && pData == DataOffset(start, pos)
        && (pSize == InStruct(SizeOffset(start, pos)) || (pSize == FixedCounter && start[pos].FixedCount()))
    }

    /** `pSize` points into the struct. */
    ghost predicate Direct()
      reads this
    {
      pSize.InStruct?
    }

    constructor Begin(fields: seq<Field>)
      ensures start == fields && pos == 0 && Valid() && Direct()
    {
      start, pos, requiredFieldIndex := fields, 0, 0;
      pData := if fields == [] then 0 else fields[0].dataOffset;
      pSize := InStruct(if fields == [] then 0 else fields[0].dataOffset + fields[0].sizeOffset);
    }

    method Restart()
      modifies this
      ensures pos == 0 && Valid() && Direct()
    {
      pos, requiredFieldIndex := 0, 0;
      pData := if start == [] then 0 else start[0].dataOffset;
      pSize := InStruct(if start == [] then 0 else start[0].dataOffset + start[0].sizeOffset);
    }

    /** One entry on; past the last one, back to the first. */
    method Next() returns (more: bool)
      requires Valid()
      modifies this
      ensures Valid() && Direct()
      ensures more <==> old(pos) + 1 < |start|
      ensures pos == if more then old(pos) + 1 else 0
    {
      if start == [] {
        return false;
      }
      var prev := start[pos];
      pos := pos + 1;
      if pos == |start| {
        Restart();
        return false;
      }
      if prev.htype.Oneof? && start[pos].htype.Oneof? && start[pos].dataOffset == PB_SIZE_MAX {
        return true;
      }
      var prevSize := prev.dataSize;
      if prev.htype.Repeated? {
        prevSize := prevSize * prev.arraySize;
      }
      if prev.htype.Required? {
        requiredFieldIndex := requiredFieldIndex + 1;
      }
      pData := pData + prevSize + start[pos].dataOffset;
      pSize := InStruct(pData + start[pos].sizeOffset);
      return true;
    }

    /** The current entry, or the terminator of an empty table, has this tag. */
    predicate Matches(tag: nat)
      requires Valid()
      reads this
    {
      if start == [] then tag == 0 else start[pos].tag == tag
    }

    /**
     * From any position, the search agrees with a direct look into the table. The entry found at the
     * starting position keeps its size cell; after an unsuccessful search the position is the old one.
     */
    method Find(tag: nat) returns (found: bool)
      requires Valid() && DistinctTags(start)
      modifies this
      ensures Valid()
      ensures found <==> PbSchema.Find(start, tag).Some? || (start == [] && tag == 0)
      ensures found && start != [] ==> PbSchema.Find(start, tag) == Some(pos)
      ensures !found ==> pos == old(pos)
      ensures found && pos == old(pos) ==> pSize == old(pSize)
      ensures !found || pos != old(pos) ==> Direct()
    {
      var first := pos;
      while true
        invariant Valid()
        invariant pos == first ==> pSize == old(pSize)
        invariant pos != first ==> Direct()
        invariant if pos >= first then forall k | first <= k < pos :: start[k].tag != tag
                  else forall k | 0 <= k < pos || first <= k < |start| :: start[k].tag != tag
        decreases if pos >= first then |start| + first - pos else first - pos
      {
        if Matches(tag) {
          if start != [] { FindDistinct(start, pos); }
          return true;
        }
        var _ := Next();
        if pos == first {
          return false;
        }
      }
    }
  }
}
