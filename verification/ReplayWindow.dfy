/** The DTLS anti-replay window (section 4.1.2.6 of RFC 6347). */
module ReplayWindow {
  import opened Bytes

  const WINDOW_SIZE: nat := 64

  /** A 64-bit word as its bits, the least significant one first. */
  type Word64 = w: seq<bool> | |w| == WINDOW_SIZE witness seq(WINDOW_SIZE, _ => false)

  const ZERO64: Word64 := seq(WINDOW_SIZE, _ => false)

  function ShiftLeft(w: Word64, n: nat): Word64
    requires n < WINDOW_SIZE
  {
    seq(n, _ => false) + w[..WINDOW_SIZE - n]
  }

  /** An 8-byte big-endian integer. */
  function U64(s: seq<byte>): (n: nat)
    requires |s| == 8
  {
    U16At(s, 0) * 0x1_0000_0000_0000 + U48At(s, 2)
  }

  /** What the window remembers in full: the largest number and every number accepted in this epoch. */
  datatype Window = Window(max: nat, accepted: set<nat>)
  {
    /** Seen before, or too old to tell. */
    predicate Discards(n: nat) {
      n <= max && (max - n >= WINDOW_SIZE || n in accepted)
    }

    function Record(n: nat): Window {
      Window(if n > max then n else max, accepted + {n})
    }
  }

  const EmptyWindow := Window(0, {})

  class DtlsBitmap {
    var bits: Word64
    var maxSeqNum: nat
    // every number accepted since the last reset
    ghost var accepted: set<nat>

    ghost function Contents(): Window
      reads this
    {
      Window(maxSeqNum, accepted)
    }

    /** Bit `i` of the word is set exactly when `maxSeqNum - i` was accepted. */
    ghost predicate Valid()
      reads this
    {
      && (forall n | n in accepted :: n <= maxSeqNum)
      && (forall i | 0 <= i < WINDOW_SIZE :: bits[i] <==> maxSeqNum - i in accepted)
    }

    constructor ()
      ensures Valid() && Contents() == EmptyWindow
    {
      bits, maxSeqNum, accepted := ZERO64, 0, {};
    }

    method Reset()
      modifies this
      ensures Valid() && Contents() == EmptyWindow
    {
      bits, maxSeqNum, accepted := ZERO64, 0, {};
    }

    method ShouldDiscard(n: nat) returns (discard: bool)
      requires Valid()
      ensures discard <==> Contents().Discards(n)
    {
      if n > maxSeqNum {
        return false;
      }
      var idx := maxSeqNum - n;
      assert maxSeqNum - idx == n;
      discard := idx >= WINDOW_SIZE || bits[idx];
    }

    method Record(n: nat)
      requires Valid()
      modifies this
      ensures Valid() && Contents() == old(Contents()).Record(n)
    {
      if n > maxSeqNum {
        var shift := n - maxSeqNum;
        if shift >= WINDOW_SIZE {
          bits := ZERO64;
        } else {
          bits := ShiftLeft(bits, shift);
        }
        maxSeqNum := n;
      }
      assert forall i | 0 <= i < WINDOW_SIZE :: bits[i] <==> maxSeqNum - i in accepted;
      var idx := maxSeqNum - n;
      if idx < WINDOW_SIZE {
        bits := bits[idx := true];
      }
      accepted := accepted + {n};
    }
  }
}
