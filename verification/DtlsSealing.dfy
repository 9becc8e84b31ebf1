/** The DTLS record layer, writing side: sequence numbers, epochs and sealing. */
module DtlsSealing {
  import opened Bytes
  import opened DtlsRecord

  const SEQ_LIMIT: nat := 0x1_0000_0000_0000

  /** A write cipher. `seal` is uninterpreted; it adds at most `maxOverhead` bytes. */
  datatype WriteCipher =
    | NullWrite(version: nat)
    | KeyedWrite(version: nat, nonceLen: nat, maxOverhead: nat,
            seal: (byte, nat, seq<byte>, seq<byte>) -> Option<seq<byte>>)
  {
    ghost predicate Valid() {
      && version < 0x1_0000
      && (KeyedWrite? ==>
            && nonceLen <= maxOverhead
            && forall t, v, s, p :: seal(t, v, s, p).Some? ==> |seal(t, v, s, p).value| <= |p| + maxOverhead)
    }

    function ExplicitNonceLen(): nat {
      if NullWrite? then 0 else nonceLen
    }

    function MaxOverhead(): nat {
      if NullWrite? then 0 else maxOverhead
    }

    function Seal(typ: byte, recordVersion: nat, sequence: seq<byte>, plaintext: seq<byte>): (r: Option<seq<byte>>)
      requires Valid()
      ensures r.Some? ==> |r.value| <= |plaintext| + MaxOverhead()
    {
      if NullWrite? then Some(plaintext) else seal(typ, recordVersion, sequence, plaintext)
    }
  }

  /** The writing half of the connection state: current and previous epoch. */
  datatype WriteState = WriteState(epoch: nat, seqNum: nat, lastSeqNum: nat, cipher: WriteCipher, lastCipher: WriteCipher)
  {
    ghost predicate Valid() {
      epoch < 0x1_0000 && seqNum < SEQ_LIMIT && lastSeqNum < SEQ_LIMIT && cipher.Valid() && lastCipher.Valid()
    }

    function CipherOf(previous: bool): WriteCipher {
      if previous then lastCipher else cipher
    }

    function EpochOf(previous: bool): int {
      if previous then epoch - 1 else epoch
    }

    function SeqOf(previous: bool): nat {
      if previous then lastSeqNum else seqNum
    }

    function Overhead(previous: bool): nat {
      RECORD_HEADER_LENGTH + CipherOf(previous).MaxOverhead()
    }

    function PrefixLen(previous: bool): nat {
      RECORD_HEADER_LENGTH + CipherOf(previous).ExplicitNonceLen()
    }

    /** The counter after one more record; it wraps to 0. */
    function Advance(previous: bool): (w: WriteState)
      requires Valid()
      ensures w.Valid()
    {
      if previous then this.(lastSeqNum := (lastSeqNum + 1) % SEQ_LIMIT)
      else this.(seqNum := (seqNum + 1) % SEQ_LIMIT)
    }

    /** The record before its body is known. */
    function Envelope(typ: byte, previous: bool, body: seq<byte>): WireRecord
      requires previous ==> epoch >= 1
    {
      WireRecord(typ, cipher.version, EpochOf(previous), SeqOf(previous), body)
    }

    /** Seals one record into at most `maxOut` bytes. */
    function Seal(typ: byte, plaintext: seq<byte>, previous: bool, maxOut: nat): (r: (WriteState, Option<WireRecord>))
      requires Valid() && (previous ==> epoch >= 1)
      ensures r.0.Valid() && r.0.epoch == epoch && r.0.cipher == cipher && r.0.lastCipher == lastCipher
      ensures r.1.Some? ==> r.1.value.Valid() && RECORD_HEADER_LENGTH + |r.1.value.body| <= maxOut
    {
      if maxOut < RECORD_HEADER_LENGTH then (this, None)
      else
        var sequence := Envelope(typ, previous, []).Sequence();
        var sealed := CipherOf(previous).Seal(typ, cipher.version, sequence, plaintext);
        if sealed.None? || |sealed.value| > maxOut - RECORD_HEADER_LENGTH then (this, None)
        else if SeqOf(previous) + 1 == SEQ_LIMIT || |sealed.value| >= 0x1_0000 then (Advance(previous), None)
        else (Advance(previous), Some(Envelope(typ, previous, sealed.value)))
    }

    function NextEpoch(next: WriteCipher): WriteState {
      WriteState((epoch + 1) % 0x1_0000, 0, seqNum, next, cipher)
    }

    /** The counters have passed this pair of epoch and number. */
    predicate Spent(pair: (nat, nat)) {
      || pair.0 + 1 < epoch
      || (pair.0 + 1 == epoch && pair.1 < lastSeqNum)
      || (pair.0 == epoch && pair.1 < seqNum)
    }

    /** The same epoch, and no counter has gone back. */
    predicate GrowsTo(next: WriteState) {
      epoch == next.epoch && seqNum <= next.seqNum && lastSeqNum <= next.lastSeqNum
    }
  }

  /** Exactly when a record is sealed, and what is in it: the epoch and number it takes, and what its epoch's cipher made. */
  lemma SealsIff(ws: WriteState, typ: byte, plaintext: seq<byte>, previous: bool, maxOut: nat)
    requires ws.Valid() && (previous ==> ws.epoch >= 1)
    ensures var number := if previous then ws.lastSeqNum else ws.seqNum;
      var epoch := if previous then ws.epoch - 1 else ws.epoch;
      var header := WireRecord(typ, ws.cipher.version, epoch, number, []);
      var body := if previous then ws.lastCipher.Seal(typ, ws.cipher.version, header.Sequence(), plaintext)
                  else ws.cipher.Seal(typ, ws.cipher.version, header.Sequence(), plaintext);
      var (next, record) := ws.Seal(typ, plaintext, previous, maxOut);
      && (record.Some? <==>
            body.Some? && 13 + |body.value| <= maxOut && |body.value| < 0x1_0000 && number != 0xffff_ffff_ffff)
      && (record.Some? ==>
            && record.value == header.(body := body.value)
            && next == if previous then ws.(lastSeqNum := number + 1) else ws.(seqNum := number + 1))
  {
    hide WireRecord.Sequence;
  }

  /** A plaintext cipher changes nothing, a keyed one does what its function does. */
  lemma CipherSeals(c: WriteCipher, typ: byte, version: nat, sequence: seq<byte>, plaintext: seq<byte>)
    requires c.Valid()
    ensures c.Seal(typ, version, sequence, plaintext) ==
      match c case NullWrite(_) => Some(plaintext) case KeyedWrite(_, _, _, seal) => seal(typ, version, sequence, plaintext)
  {
  }

  /** The number that a big-endian counter stands for. */
  function Counter(s: seq<byte>): nat {
    if s == [] then 0 else 256 * Counter(s[..|s| - 1]) + s[|s| - 1]
  }

  function CounterLimit(n: nat): (limit: nat)
    ensures limit >= 1
  {
    if n == 0 then 1 else 256 * CounterLimit(n - 1)
  }

  lemma {:induction false} CounterBelow(s: seq<byte>)
    ensures Counter(s) < CounterLimit(|s|)
  {
    if s != [] {
      CounterBelow(s[..|s| - 1]);
    }
  }

  /** A byte that does not overflow ends the carry; one that does is followed by zeros and a carry to its left. */
  lemma {:induction false} CarryEnds(s: seq<byte>, i: nat)
    requires i < |s| && s[i] < 255 && forall k | i < k < |s| :: s[k] == 255
    ensures var next := s[..i] + [s[i] + 1] + seq(|s| - i - 1, _ => 0);
      Counter(next) == Counter(s) + 1
    decreases |s|
  {
    var n := |s| - 1;
    var next := s[..i] + [s[i] + 1] + seq(n - i, _ => 0);
    if i < n {
      var front := s[..n];
      CarryEnds(front, i);
      assert next[..n] == front[..i] + [front[i] + 1] + seq(n - i - 1, _ => 0);
    } else {
      assert next[..n] == s[..n];
    }
  }

  lemma {:induction false} AllOnes(s: seq<byte>)
    requires forall k | 0 <= k < |s| :: s[k] == 255
    ensures Counter(s) + 1 == CounterLimit(|s|)
  {
    if s != [] {
      AllOnes(s[..|s| - 1]);
    }
  }

  lemma {:induction false} AllZeros(s: seq<byte>)
    requires forall k | 0 <= k < |s| :: s[k] == 0
    ensures Counter(s) == 0
  {
    if s != [] {
      AllZeros(s[..|s| - 1]);
    }
  }

  lemma SixByteCounter()
    ensures CounterLimit(6) == SEQ_LIMIT && CounterLimit(3) == 0x100_0000
  {
    assert CounterLimit(3) == 0x100_0000;
  }

  lemma {:induction false} CounterJoin(a: seq<byte>, b: seq<byte>)
    ensures Counter(a + b) == Counter(a) * CounterLimit(|b|) + Counter(b)
  {
    if b == [] {
      assert a + b == a;
    } else {
      var front := b[..|b| - 1];
      CounterJoin(a, front);
      assert (a + b)[..|a + b| - 1] == a + front;
      calc {
        256 * (Counter(a) * CounterLimit(|front|) + Counter(front)) + b[|b| - 1];
        Counter(a) * (256 * CounterLimit(|front|)) + 256 * Counter(front) + b[|b| - 1];
      }
    }
  }

  lemma CounterU24(s: seq<byte>)
    requires |s| == 3
    ensures Counter(s) == U24At(s, 0)
  {
    assert s[..2][..1] == s[..1] && s[..1][..0] == [];
    assert Counter(s[..1]) == s[0];
  }

  /** The last six bytes of a write sequence are the number as a record carries it. */
  lemma SequenceBytes(s: seq<byte>)
    requires |s| == 8 && s[0] == 0 && s[1] == 0
    ensures Counter(s) == Counter(s[2..]) == U48At(s, 2) < SEQ_LIMIT
    ensures var hi, lo := Counter(s) / 0x100_0000, Counter(s) % 0x100_0000;
      s[2..] == [ByteOf(hi, 2), ByteOf(hi, 1), ByteOf(hi, 0), ByteOf(lo, 2), ByteOf(lo, 1), ByteOf(lo, 0)]
  {
    hide Counter, CounterLimit, ByteOf;
    assert s == s[..2] + s[2..] && s[2..] == s[2..5] + s[5..];
    CounterJoin(s[..2], s[2..]);
    AllZeros(s[..2]);
    CounterJoin(s[2..5], s[5..]);
    SixByteCounter();
    CounterU24(s[2..5]);
    CounterU24(s[5..]);
    BytesFromU24(s, 2);
    BytesFromU24(s, 5);
  }

  /** What the counter is after the carry has ended at byte `i`, or has run off the front. */
  lemma CarryCounted(was: seq<byte>, now: seq<byte>, i: nat)
    requires i <= |was| == |now| && (i < |was| ==> now[..i] == was[..i])
    requires forall k | i < k < |was| :: was[k] == 255 && now[k] == 0
    requires i < |was| ==> was[i] < 255 && now[i] == was[i] + 1
    requires i == |was| ==> forall k | 0 <= k < |was| :: was[k] == 255 && now[k] == 0
    ensures Counter(now) == (Counter(was) + 1) % CounterLimit(|was|)
    ensures i < |was| <==> Counter(was) + 1 < CounterLimit(|was|)
  {
    if i < |was| {
      CarryEnds(was, i);
      assert now == was[..i] + [was[i] + 1] + seq(|was| - i - 1, _ => 0);
      CounterBelow(now);
      SmallMod(Counter(now), CounterLimit(|was|));
    } else {
      AllOnes(was);
      AllZeros(now);
      SelfMod(CounterLimit(|was|));
    }
  }

  lemma SmallMod(n: nat, limit: nat)
    requires n < limit
    ensures n % limit == n
  {
  }

  lemma SelfMod(limit: nat)
    requires limit >= 1
    ensures limit % limit == 0
  {
  }

  /** Counts the bytes from `start` on up by one; fails, leaving zeros, when there is no next number. */
  method SequenceUpdate(bytes: array<byte>, start: nat) returns (ok: bool)
    requires start <= bytes.Length
    modifies bytes
    ensures bytes[..start] == old(bytes[..start])
    ensures Counter(bytes[start..]) == (old(Counter(bytes[start..])) + 1) % CounterLimit(bytes.Length - start)
    ensures ok <==> old(Counter(bytes[start..])) + 1 < CounterLimit(bytes.Length - start)
  {
    hide Counter, CounterLimit;
    ghost var was := bytes[..];
    var i := bytes.Length;
    while i > start
      invariant start <= i <= bytes.Length
      invariant forall k | 0 <= k < i :: bytes[k] == was[k]
      invariant forall k | i <= k < bytes.Length :: was[k] == 255 && bytes[k] == 0
    {
      i := i - 1;
      bytes[i] := if bytes[i] == 255 then 0 else bytes[i] + 1;
      if bytes[i] != 0 {
        assert bytes[start..][..i - start] == was[start..][..i - start];
        CarryCounted(was[start..], bytes[start..], i - start);
        return true;
      }
    }
    CarryCounted(was[start..], bytes[start..], bytes.Length - start);
    return false;
  }

  /** A write sequence: a 48-bit number in the last six of eight bytes. */
  ghost predicate IsNumber(s: seq<byte>) {
    |s| == 8 && s[0] == 0 && s[1] == 0
  }

  /** The next number, which is that of `WriteState.Advance`. */
  method NextNumber(bytes: array<byte>) returns (ok: bool)
    requires IsNumber(bytes[..])
    modifies bytes
    ensures IsNumber(bytes[..]) && Counter(bytes[..]) == (old(Counter(bytes[..])) + 1) % SEQ_LIMIT
    ensures ok <==> old(Counter(bytes[..])) + 1 != SEQ_LIMIT
  {
    hide Counter, CounterLimit;
    SequenceBytes(bytes[..]);
    SixByteCounter();
    assert bytes[2..] == bytes[..][2..];
    ok := SequenceUpdate(bytes, 2);
    assert bytes[0] == bytes[..2][0] && bytes[1] == bytes[..2][1];
    assert bytes[2..] == bytes[..][2..];
    SequenceBytes(bytes[..]);
  }

  /** One number is kept as the previous one, and the counter starts again at zero. */
  method MoveNumber(bytes: array<byte>, last: array<byte>)
    requires IsNumber(bytes[..]) && last.Length == 8 && bytes != last
    modifies bytes, last
    ensures last[..] == old(bytes[..]) && IsNumber(bytes[..]) && Counter(bytes[..]) == 0
  {
    forall i | 0 <= i < 8 {
      last[i] := bytes[i];
    }
    forall i | 0 <= i < 8 {
      bytes[i] := 0;
    }
    AllZeros(bytes[..]);
  }

  /** The next pair is not spent; afterwards it is, and those before it still are, unless the counter wraps. */
  lemma OneMoreSpent(ws: WriteState, previous: bool)
    requires ws.Valid() && (previous ==> ws.epoch >= 1)
    ensures var pair := (ws.EpochOf(previous) as nat, ws.SeqOf(previous));
      && !ws.Spent(pair)
      && (ws.SeqOf(previous) + 1 != SEQ_LIMIT ==>
            ws.Advance(previous).Spent(pair) && forall q | ws.Spent(q) :: ws.Advance(previous).Spent(q))
  {
  }

  lemma EpochSpent(ws: WriteState, next: WriteCipher)
    ensures ws.epoch + 1 < 0x1_0000 ==> forall q | ws.Spent(q) :: ws.NextEpoch(next).Spent(q)
  {
  }

  class RecordWriter {
    // 48-bit counters, big-endian in the last six of eight bytes
    const writeSequence: array<byte>
    const lastWriteSequence: array<byte>
    var wEpoch: nat
    var cipher: WriteCipher
    var lastCipher: WriteCipher
    // every (epoch, sequence number) pair under which something has been sealed, and whether a counter has wrapped
    ghost var used: set<(nat, nat)>
    ghost var wrapped: bool

    ghost function Repr(): set<object> {
      {this, writeSequence, lastWriteSequence}
    }

    ghost function State(): WriteState
      reads Repr()
    {
      WriteState(wEpoch, Counter(writeSequence[..]), Counter(lastWriteSequence[..]), cipher, lastCipher)
    }

    ghost predicate Valid()
      reads Repr()
    {
      && writeSequence != lastWriteSequence && IsNumber(writeSequence[..]) && IsNumber(lastWriteSequence[..])
      && State().Valid()
      && (!wrapped ==> forall p | p in used :: State().Spent(p))
    }

    function Overhead(previous: bool): nat
      reads this
    {
      RECORD_HEADER_LENGTH + (if previous then lastCipher else cipher).MaxOverhead()
    }

    function PrefixLen(previous: bool): nat
      reads this
    {
      RECORD_HEADER_LENGTH + (if previous then lastCipher else cipher).ExplicitNonceLen()
    }

    constructor (version: nat)
      requires version < 0x1_0000
      ensures Valid() && fresh(Repr()) && used == {} && !wrapped
      ensures State() == WriteState(0, 0, 0, NullWrite(version), NullWrite(version))
    {
      writeSequence, lastWriteSequence := new byte[8](_ => 0), new byte[8](_ => 0);
      wEpoch := 0;
      cipher, lastCipher := NullWrite(version), NullWrite(version);
      used, wrapped := {}, false;
      new;
      AllZeros(writeSequence[..]);
      AllZeros(lastWriteSequence[..]);
    }

    /**
     * Seals a record. Until a counter wraps, nothing is sealed twice under the same (epoch, number) pair;
     * an attempt that seals nothing leaves its number to the next one.
     */
    method SealRecord(typ: byte, plaintext: seq<byte>, previous: bool, maxOut: nat) returns (record: Option<WireRecord>)
      requires Valid() && (previous ==> wEpoch >= 1)
      modifies Repr()
      ensures Valid() && (State(), record) == old(State()).Seal(typ, plaintext, previous, maxOut)
      ensures record.Some? ==>
        && State() != old(State()) && (old(wrapped) <==> wrapped)
        && record.value.epoch == old(State()).EpochOf(previous) && record.value.seqNum == old(State()).SeqOf(previous)
      ensures State() == old(State()) ==> used == old(used) && (old(wrapped) <==> wrapped)
      ensures State() != old(State()) ==>
        var pair := (old(State()).EpochOf(previous) as nat, old(State()).SeqOf(previous));
        used == old(used) + {pair} && (!old(wrapped) ==> pair !in old(used)) && (old(wrapped) ==> wrapped)
    {
      hide WriteState.Spent, Counter, ByteOf;
      var epoch: nat, bytes := wEpoch, writeSequence;
      var aead := cipher;
      if previous {
        epoch, bytes, aead := wEpoch - 1, lastWriteSequence, lastCipher;
      }
      if maxOut < RECORD_HEADER_LENGTH {
        return None;
      }
      SequenceBytes(bytes[..]);
      var seqNum := U48At(bytes[..], 2);
      var sequence := [ByteOf(epoch, 1), ByteOf(epoch, 0)] + bytes[2..];
      assert sequence == State().Envelope(typ, previous, []).Sequence();
      var sealed := aead.Seal(typ, cipher.version, sequence, plaintext);
      if sealed.None? || |sealed.value| > maxOut - RECORD_HEADER_LENGTH {
        return None;
      }
      var ok := IncrementSequence(previous);
      if !ok || |sealed.value| >= 0x1_0000 {
        return None;
      }
      record := Some(WireRecord(typ, cipher.version, epoch, seqNum, sealed.value));
    }

    /** Uses up the next number of the epoch; fails when that was the last one. */
    method IncrementSequence(previous: bool) returns (ok: bool)
      requires Valid() && (previous ==> wEpoch >= 1)
      modifies Repr()
      ensures Valid() && State() == old(State()).Advance(previous)
      ensures ok <==> old(State()).SeqOf(previous) + 1 != SEQ_LIMIT
      ensures var pair := (old(State()).EpochOf(previous) as nat, old(State()).SeqOf(previous));
        used == old(used) + {pair} && (!old(wrapped) ==> pair !in old(used))
      ensures wrapped <==> old(wrapped) || old(State()).SeqOf(previous) + 1 == SEQ_LIMIT
    {
      hide Counter, WriteState.Spent;
      OneMoreSpent(State(), previous);
      used := used + {(State().EpochOf(previous), State().SeqOf(previous))};
      wrapped := wrapped || State().SeqOf(previous) + 1 == SEQ_LIMIT;
      if previous {
        ok := NextNumber(lastWriteSequence);
      } else {
        ok := NextNumber(writeSequence);
      }
    }

    /** A write cipher change: the current epoch becomes the previous one. */
    method SetWriteState(next: WriteCipher)
      requires Valid() && next.Valid()
      modifies Repr()
      ensures Valid() && State() == old(State()).NextEpoch(next) && used == old(used)
      ensures wrapped <==> old(wrapped) || old(wEpoch) == 0xffff
    {
      hide Counter, WriteState.Spent;
      EpochSpent(State(), next);
      wrapped := wrapped || wEpoch == 0xffff;
      wEpoch := (wEpoch + 1) % 0x1_0000;
      MoveNumber(writeSequence, lastWriteSequence);
      lastCipher, cipher := cipher, next;
    }
  }
}
