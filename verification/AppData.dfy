/**
 * Writing application data so that a write the transport could not finish can be repeated: bytes
 * already sealed into records are neither skipped nor sealed again.
 */
module AppData {
  import opened Bytes

  const MAX_PLAIN_LENGTH: nat := 0x4000

  function Concat(records: seq<seq<byte>>): seq<byte> {
    if records == [] then [] else Concat(records[..|records| - 1]) + records[|records| - 1]
  }

  /**
   * The layers below, with what they have been given: the plaintexts of the records sealed, and how many of these
   * have left. A record is sealed or not, and the buffer written or not; layers that are willing do both.
   */
  class Below {
    ghost var sealed: seq<seq<byte>>
    ghost var sent: nat

    constructor ()
      ensures sealed == [] && sent == 0
    {
      sealed, sent := [], 0;
    }

    method Seal(plaintext: seq<byte>, willing: bool) returns (ok: bool)
      modifies this`sealed
      ensures if ok then sealed == old(sealed) + [plaintext] else sealed == old(sealed)
      ensures willing ==> ok
    {
      ok := *;
      ok := willing || ok;
      if ok {
        sealed := sealed + [plaintext];
      }
    }

    /** A positive result means that the whole buffer has been written. */
    method Flush(willing: bool) returns (ret: int)
      modifies this`sent
      ensures sent == if ret > 0 then |sealed| else old(sent)
      ensures willing ==> ret > 0
    {
      ret := *;
      if willing {
        ret := 1;
      }
      if ret > 0 {
        sent := |sealed|;
      }
    }
  }

  /** The records of one stretch of data: full ones, and a last that may be shorter. */
  predicate Cut(records: seq<seq<byte>>, max: nat) {
    && (forall i | 0 <= i < |records| - 1 :: |records[i]| == max)
    && (forall r | r in records :: 1 <= |r| <= max)
  }

  lemma CutNothing(records: seq<seq<byte>>)
    ensures forall max :: Cut(records[|records|..], max)
  {
  }

  class AppWriter {
    const below: Below
    var maxSendFragment: nat
    var partialWrites: bool
    var movingBuffers: bool
    var closed: bool
    // completed bytes of the unfinished write
    var wnum: nat
    // the record that is sealed but not yet flushed
    var pending: bool
    var wpendTot: nat
    var wpendBuf: nat

    // the bytes that callers have been told were written
    ghost var reported: seq<byte>
    // the bytes sealed beyond those
    ghost var tail: seq<byte>

    /** Everything sealed is what was reported, the completed bytes of an unfinished write, and at most one record. */
    ghost predicate Conserved(done: nat)
      reads this`pending, this`wpendTot, this`reported, this`tail, below
    {
      && Concat(below.sealed) == reported + tail
      && |tail| == done + (if pending then wpendTot else 0)
      && |below.sealed| == below.sent + (if pending then 1 else 0)
      && (pending ==> wpendTot > 0 && below.sealed[|below.sealed| - 1] == tail[done..])
    }

    ghost predicate Valid()
      reads this, below
    {
      1 <= maxSendFragment <= MAX_PLAIN_LENGTH && Conserved(wnum)
    }

    lemma ConservedLength(done: nat)
      requires Conserved(done)
      ensures |tail| == done + (if pending then wpendTot else 0)
    {
    }

    constructor (below: Below, maxFragment: nat)
      requires 1 <= maxFragment <= MAX_PLAIN_LENGTH && below.sealed == [] && below.sent == 0
      ensures Valid() && reported == [] && tail == [] && this.below == below
    {
      this.below := below;
      maxSendFragment, partialWrites, movingBuffers, closed := maxFragment, false, false, false;
      wnum, pending, wpendTot, wpendBuf := 0, false, 0, 0;
      reported, tail := [], [];
    }

    /** Exactly what was reported, and the completed bytes of the unfinished write, has left. */
    lemma ReportedHasLeft()
      requires Valid()
      ensures below.sent <= |below.sealed| && Concat(below.sealed[..below.sent]) == reported + tail[..wnum]
    {
      var before := below.sealed[..below.sent];
      if pending {
        assert tail == tail[..wnum] + tail[wnum..];
        assert reported + tail == reported + tail[..wnum] + tail[wnum..];
        Cancel(Concat(before), reported + tail[..wnum], tail[wnum..]);
      } else {
        assert before == below.sealed && tail[..wnum] == tail;
      }
    }

    static lemma Cancel(a: seq<byte>, b: seq<byte>, c: seq<byte>)
      requires a + c == b + c
      ensures a == b
    {
      assert |a + c| == |b + c|;
      assert (a + c)[..|a|] == a && (b + c)[..|a|] == b;
    }

    /** The record in the buffer does not go with this retry: fewer bytes, or from another place. */
    predicate BadRetry(addr: nat, len: nat)
      reads this
    {
      wpendTot > len || (!movingBuffers && wpendBuf != addr)
    }

    /** Finish the record that is still in the buffer. A retry must bring at least its bytes, from the same place. */
    method WritePending(addr: nat, len: nat, willing: bool, ghost done: nat) returns (ret: int)
      requires pending && Conserved(done)
      modifies this`pending, below`sent
      ensures ret > 0 ==> !pending && ret == wpendTot <= len && Conserved(done + ret)
      ensures ret <= 0 ==> pending && Conserved(done)
      ensures BadRetry(addr, len) ==> ret == -1
      ensures willing ==> (ret > 0 <==> !BadRetry(addr, len))
    {
      if wpendTot > len || (!movingBuffers && wpendBuf != addr) {
        return -1;
      }
      ret := below.Flush(willing);
      if ret <= 0 {
        return;
      }
      pending := false;
      return wpendTot;
    }

    /** A record is pending that a retry with so few bytes does not cover. */
    ghost predicate Refuses(len: nat)
      reads this
    {
      pending && wpendTot > len
    }

    /** The bytes `chunk` of `data`, behind `done` bytes of it, and `data` repeats what has been sealed. */
    ghost predicate Next(data: seq<byte>, done: nat, chunk: seq<byte>)
      reads this
    {
      tail <= data && done + |chunk| <= |data| && chunk == data[done..done + |chunk|]
    }

    /** Nothing has been sealed or sent. */
    twostate predicate Untouched()
      reads this`pending, this`wpendTot, this`wpendBuf, this`tail, below
    {
      pending == old(pending) && wpendTot == old(wpendTot) && wpendBuf == old(wpendBuf) && tail == old(tail)
      && below.sealed == old(below.sealed) && below.sent == old(below.sent)
    }

    /** The next record of `data`, or the rest of one sealed by an earlier call. */
    method DoWrite(addr: nat, chunk: seq<byte>, willing: bool, ghost data: seq<byte>, ghost done: nat) returns (ret: int)
      requires Conserved(done) && (Next(data, done, chunk) || Refuses(|chunk|))
      modifies this`pending, this`wpendTot, this`wpendBuf, this`tail, below
      ensures ret <= 0 ==> Conserved(done)
      ensures old(Refuses(|chunk|)) ==> ret == -1 && Untouched()
      ensures old(Next(data, done, chunk)) ==> old(tail) <= tail <= data
      ensures ret > 0 ==> Conserved(done + ret) && !pending && tail == data[..done + ret]
      ensures ret > 0 ==> ret == (if old(pending) then old(wpendTot) else |chunk|) && ret <= |chunk|
      ensures below.sealed == old(below.sealed) || (!old(pending) && below.sealed == old(below.sealed) + [chunk] && chunk != [])
      ensures ret > 0 && !old(pending) ==> below.sealed == old(below.sealed) + [chunk]
      ensures willing ==>
        (ret > 0 <==> if old(pending) then !old(BadRetry(addr, |chunk|)) else 0 < |chunk| <= MAX_PLAIN_LENGTH)
    {
      if pending {
        ret := WritePending(addr, |chunk|, willing, done);
        return;
      }
      if |chunk| > MAX_PLAIN_LENGTH {
        return -1;
      }
      if chunk == [] {
        return 0;
      }
      var ok := below.Seal(chunk, willing);
      if !ok {
        return -1;
      }
      AddRecord(addr, chunk, data, done);
      ret := WritePending(addr, |chunk|, willing, done);
    }

    /** A record has been sealed: from now on its bytes count, whether or not they have left. */
    method AddRecord(addr: nat, chunk: seq<byte>, ghost data: seq<byte>, ghost done: nat)
      requires !pending && chunk != [] && tail <= data && |tail| == done
      requires |below.sealed| == below.sent + 1 && below.sealed[below.sent] == chunk
      requires Concat(below.sealed[..below.sent]) == reported + tail
      requires done + |chunk| <= |data| && chunk == data[done..done + |chunk|]
      modifies this`pending, this`wpendTot, this`wpendBuf, this`tail
      ensures Conserved(done) && pending && wpendTot == |chunk| && wpendBuf == addr
      ensures tail == old(tail) + chunk == data[..done + |chunk|]
    {
      tail := tail + chunk;
      assert reported + tail == reported + old(tail) + chunk;
      wpendTot, wpendBuf, pending := |chunk|, addr, true;
    }

    /** All that was sealed has been written: it is reported. */
    ghost method Report()
      requires !pending && Conserved(|tail|)
      modifies this`reported, this`tail
      ensures Conserved(0) && reported == old(reported) + old(tail) && tail == []
    {
      reported, tail := reported + tail, [];
      assert reported + [] == reported;
    }

    /** The record in the buffer can be finished by a write that goes on here. */
    predicate CanGoOn(addr: nat)
      reads this`pending, this`wpendTot, this`wpendBuf, this`maxSendFragment, this`movingBuffers
    {
      pending ==> wpendTot <= maxSendFragment && (movingBuffers || wpendBuf == addr)
    }

    /** The records of `data` behind `from` bytes, up to the first that is held up; `done` bytes are complete before it. */
    method WriteRest(addr: nat, data: seq<byte>, from: nat, willing: bool) returns (ret: int, done: nat)
      requires Conserved(from) && from <= |data| && 1 <= maxSendFragment <= MAX_PLAIN_LENGTH
      requires tail <= data || Refuses(|data| - from)
      modifies this`pending, this`wpendTot, this`wpendBuf, this`tail, below
      ensures old(Refuses(|data| - from)) ==> ret == -1 && done == from && Untouched()
      ensures old(tail) <= data ==> old(tail) <= tail <= data
      ensures ret <= 0 ==> Conserved(done)
      ensures ret > 0 ==> done + ret <= |data| && Conserved(done + ret) && !pending && tail == data[..done + ret]
      ensures ret > 0 ==>
        if partialWrites then done == from && ret == FirstPart(old(pending), old(wpendTot), |data| - from) else done + ret == |data|
      ensures old(below.sealed) <= below.sealed && Cut(below.sealed[|old(below.sealed)|..], maxSendFragment)
      ensures willing && old(tail) <= data ==> (ret > 0 <==> |data| > from && old(CanGoOn(addr + from)))
    {
      hide Conserved;
      done := from;
      var n := |data| - done;
      ghost var was := below.sealed;
      while true
        invariant done <= |data| && n == |data| - done && Conserved(done)
        invariant old(tail) <= data ==> old(tail) <= tail <= data
        invariant old(Refuses(|data| - from)) ==> done == from && Refuses(n) && Untouched()
        invariant tail <= data || Refuses(n)
        invariant done > from ==> n > 0 && !pending && !partialWrites
        invariant done > from ==> forall i | |was| <= i < |below.sealed| :: |below.sealed[i]| == maxSendFragment
        invariant done == from ==> Untouched()
        invariant was <= below.sealed
        invariant done > from ==> |data| > from && (willing && old(tail) <= data ==> old(CanGoOn(addr + from)))
        decreases n
      {
        var nw := if n > maxSendFragment then maxSendFragment else n;
        ret := DoWrite(addr + done, data[done..done + nw], willing, data, done);
        if ret <= 0 || ret == n || partialWrites {
          return;
        }
        n := n - ret;
        done := done + ret;
      }
    }

    /** What one record brings. */
    function FirstPart(pending: bool, wpendTot: nat, n: nat): nat
      reads this`maxSendFragment
    {
      if pending then wpendTot else if n > maxSendFragment then maxSendFragment else n
    }

    /**
     * A caller whose write did not finish repeats it, possibly with more data behind. The bytes
     * reported are then exactly the next ones of its data. A repetition too short for what has been
     * sealed is refused: nothing changes, unless it is even shorter than what is done, and then the
     * writer forgets what was done. Over layers that are willing a write is done unless it is closed, there
     * is nothing to write, or it does not go with the record in the buffer.
     */
    method Write(addr: nat, data: seq<byte>, willing: bool) returns (ret: int)
      requires Valid() && (tail <= data || |data| < |tail|)
      modifies this, below
      ensures old(tail) <= data ==> Valid() && maxSendFragment == old(maxSendFragment)
      ensures old(tail) <= data && ret > 0 ==> ret <= |data| && reported == old(reported) + data[..ret] && tail == []
      ensures old(tail) <= data && ret <= 0 ==> reported == old(reported) && old(tail) <= tail <= data
      ensures ret > 0 ==>
        && |data| >= old(wnum)
        && ret == if partialWrites then old(wnum) + FirstPart(old(pending), old(wpendTot), |data| - old(wnum)) else |data|
      ensures old(below.sealed) <= below.sealed && Cut(below.sealed[|old(below.sealed)|..], old(maxSendFragment))
      ensures willing && old(tail) <= data ==> (ret > 0 <==> !closed && |data| > old(wnum) && old(CanGoOn(addr + wnum)))
      ensures closed == old(closed) && partialWrites == old(partialWrites) && movingBuffers == old(movingBuffers)
      ensures closed ==> ret == -1 && Untouched() && wnum == old(wnum) && reported == old(reported)
      ensures |data| < |old(tail)| ==>
        && ret == -1 && Conserved(old(wnum)) && reported == old(reported) && Untouched()
        && (closed || |data| >= old(wnum) ==> wnum == old(wnum))
        && (!closed && |data| < old(wnum) ==> wnum == 0)
    {
      hide Conserved, Cut, FirstPart, CanGoOn;
      ConservedLength(wnum);
      CutNothing(below.sealed);
      if closed {
        return -1;
      }
      var tot := wnum;
      wnum := 0;
      if |data| < tot {
        return -1;
      }
      assert |data| < |tail| ==> Refuses(|data| - tot);
      var done;
      ret, done := WriteRest(addr, data, tot, willing);
      if ret <= 0 {
        wnum := done;
        return;
      }
      Report();
      return done + ret;
    }
  }
}
