/** The DTLS record layer, reading side (section 4.1 of RFC 6347). */
module DtlsRecord {
  import opened Bytes
  import opened ReplayWindow

  const RECORD_HEADER_LENGTH: nat := 13
  const MAX_PLAIN_LENGTH: nat := 16384
  const MAX_ENCRYPTED_LENGTH: nat := 16384 + 256 + 64
  const VERSION_MAJOR: nat := 0xfe

  const CHANGE_CIPHER_SPEC: byte := 20
  const ALERT: byte := 21
  const HANDSHAKE: byte := 22
  const APPLICATION_DATA: byte := 23

  /** A record as it travels: the body is what the cipher produced. */
  datatype WireRecord = WireRecord(typ: byte, version: nat, epoch: nat, seqNum: nat, body: seq<byte>)
  {
    predicate Valid() {
      version < 0x1_0000 && epoch < 0x1_0000 && seqNum < 0x1_0000_0000_0000 && |body| < 0x1_0000
    }

    /** Epoch and sequence number, the eight bytes the window and the cipher see. */
    function Sequence(): (s: seq<byte>)
      requires Valid()
      ensures |s| == 8
    {
      var hi, lo := seqNum / 0x100_0000, seqNum % 0x100_0000;
      [ByteOf(epoch, 1), ByteOf(epoch, 0),
       ByteOf(hi, 2), ByteOf(hi, 1), ByteOf(hi, 0), ByteOf(lo, 2), ByteOf(lo, 1), ByteOf(lo, 0)]
    }

    function Header(): (s: seq<byte>)
      requires Valid()
      ensures |s| == RECORD_HEADER_LENGTH
    {
      [typ, ByteOf(version, 1), ByteOf(version, 0)] + Sequence() + [ByteOf(|body|, 1), ByteOf(|body|, 0)]
    }

    function Wire(): (s: seq<byte>)
      requires Valid()
      ensures |s| == RECORD_HEADER_LENGTH + |body|
    {
      Header() + body
    }
  }

  datatype ParsedRecord =
    | BadRecord
    | ParsedRecord(typ: byte, version: nat, sequence: seq<byte>, body: seq<byte>, rest: seq<byte>)

  function ParseRecord(s: seq<byte>): (p: ParsedRecord)
    ensures p.ParsedRecord? ==>
      |p.sequence| == 8 && |p.body| <= MAX_ENCRYPTED_LENGTH && |p.rest| < |s|
  {
    if |s| < RECORD_HEADER_LENGTH then BadRecord
    else
      var end := RECORD_HEADER_LENGTH + U16At(s, 11);
      if |s| < end || U16At(s, 11) > MAX_ENCRYPTED_LENGTH then BadRecord
      else ParsedRecord(s[0], U16At(s, 1), s[3..11], s[RECORD_HEADER_LENGTH..end], s[end..])
  }

  lemma ParseWire(r: WireRecord, rest: seq<byte>)
    requires r.Valid() && |r.body| <= MAX_ENCRYPTED_LENGTH
    ensures ParseRecord(r.Wire() + rest) == ParsedRecord(r.typ, r.version, r.Sequence(), r.body, rest)
  {
    var s := r.Wire() + rest;
    assert s[3..11] == r.Sequence();
    U16FromBytes(r.version, s, 1);
    U16FromBytes(|r.body|, s, 11);
    var end := RECORD_HEADER_LENGTH + |r.body|;
    assert s[RECORD_HEADER_LENGTH..end] == r.body;
    assert s[end..] == rest;
  }

  /** Where the fields stand, the most significant byte of each first. */
  lemma RecordLayout(r: WireRecord)
    requires r.Valid()
    ensures var s := r.Wire();
      && s[0] == r.typ && 0x100 * (s[1] as int) + s[2] as int == r.version
      && 0x100 * (s[3] as int) + s[4] as int == r.epoch
      && 0x100_0000 * (0x1_0000 * (s[5] as int) + 0x100 * s[6] as int + s[7] as int)
         + 0x1_0000 * s[8] as int + 0x100 * s[9] as int + s[10] as int == r.seqNum
      && 0x100 * (s[11] as int) + s[12] as int == |r.body| && s[13..] == r.body
  {
    hide ByteOf;
    var hi, lo := r.seqNum / 0x100_0000, r.seqNum % 0x100_0000;
    Bytes16(r.version);
    Bytes16(r.epoch);
    Bytes24(hi);
    Bytes24(lo);
    Bytes16(|r.body|);
  }

  /** The record at the front of `s`, if it is one. */
  function Front(s: seq<byte>): (r: WireRecord)
    requires |s| >= RECORD_HEADER_LENGTH && |s| >= RECORD_HEADER_LENGTH + U16At(s, 11)
    ensures r.Valid()
  {
    WireRecord(s[0], U16At(s, 1), U16At(s, 3), U48At(s, 5), s[RECORD_HEADER_LENGTH..RECORD_HEADER_LENGTH + U16At(s, 11)])
  }

  /** Exactly the inputs that begin with a record, of at most the largest size, are parsed, and nothing is dropped. */
  lemma WireParsed(s: seq<byte>)
    ensures ParseRecord(s).ParsedRecord? <==>
      |s| >= RECORD_HEADER_LENGTH && U16At(s, 11) <= MAX_ENCRYPTED_LENGTH && |s| >= RECORD_HEADER_LENGTH + U16At(s, 11)
    ensures ParseRecord(s).ParsedRecord? ==> s == Front(s).Wire() + ParseRecord(s).rest
  {
    if ParseRecord(s).ParsedRecord? {
      BytesFromU16(s, 1);
      BytesFromU16(s, 3);
      BytesFromU48(s, 5);
      BytesFromU16(s, 11);
      var r := Front(s);
      assert r.Header() == s[..RECORD_HEADER_LENGTH];
      assert s == s[..RECORD_HEADER_LENGTH] + r.body + ParseRecord(s).rest;
    }
  }

  lemma BytesFromU48(s: seq<byte>, i: nat)
    requires i + 6 <= |s|
    ensures var hi, lo := U48At(s, i) / 0x100_0000, U48At(s, i) % 0x100_0000;
      && ByteOf(hi, 2) == s[i] && ByteOf(hi, 1) == s[i + 1] && ByteOf(hi, 0) == s[i + 2]
      && ByteOf(lo, 2) == s[i + 3] && ByteOf(lo, 1) == s[i + 4] && ByteOf(lo, 0) == s[i + 5]
  {
    BytesFromU24(s, i);
    BytesFromU24(s, i + 3);
    assert U48At(s, i) / 0x100_0000 == U24At(s, i) && U48At(s, i) % 0x100_0000 == U24At(s, i + 3);
  }

  lemma SequenceEpoch(r: WireRecord)
    requires r.Valid()
    ensures U16At(r.Sequence(), 0) == r.epoch
  {
    U16FromBytes(r.epoch, r.Sequence(), 0);
  }

  /** The number that the window sees. */
  lemma SequenceNumber(r: WireRecord)
    requires r.Valid()
    ensures U48At(r.Sequence(), 2) == r.seqNum
    ensures U64(r.Sequence()) == 0x1_0000_0000_0000 * r.epoch + r.seqNum
  {
    var s := r.Sequence();
    SequenceEpoch(r);
    U24FromBytes(r.seqNum / 0x100_0000, s, 2);
    U24FromBytes(r.seqNum % 0x100_0000, s, 5);
    U48FromHalves(r.seqNum, s, 2);
  }

  /** A record whose body is longer than any encrypted record is not recognised as one. */
  lemma ParseTooLong(r: WireRecord, rest: seq<byte>)
    requires r.Valid() && |r.body| > MAX_ENCRYPTED_LENGTH
    ensures ParseRecord(r.Wire() + rest) == BadRecord
  {
    U16FromBytes(|r.body|, r.Wire() + rest, 11);
  }

  /** The cipher of the current read epoch; `open` is uninterpreted. */
  datatype ReadCipher =
    | NullRead
    | KeyedRead(recordVersion: nat, open: (byte, nat, seq<byte>, seq<byte>) -> Option<seq<byte>>)
  {
    predicate VersionOk(version: nat) {
      if NullRead? then version / 256 == VERSION_MAJOR else version == recordVersion
    }

    function Open(typ: byte, version: nat, sequence: seq<byte>, body: seq<byte>): Option<seq<byte>> {
      if NullRead? then Some(body) else open(typ, version, sequence, body)
    }
  }

  datatype Opened =
    | Success(typ: byte, payload: seq<byte>)
    | AlertRecord(payload: seq<byte>)
    | Discard
    | Partial
    | CloseNotify
    | TooLong

  /** What opening a record depends on and changes. */
  datatype ReadState = ReadState(epoch: nat, window: Window, cipher: ReadCipher, closed: bool)
  {
    /** One record from the front of a datagram: the new state, the outcome, the bytes consumed. */
    function Open(input: seq<byte>): (r: (ReadState, Opened, nat))
      ensures r.2 <= |input|
    {
      if closed then (this, CloseNotify, 0)
      else if input == [] then (this, Partial, 0)
      else
        match ParseRecord(input)
        case BadRecord => (this, Discard, |input|)
        case ParsedRecord(typ, version, sequence, body, rest) =>
          if !cipher.VersionOk(version) then (this, Discard, |input|)
          else
            var consumed := |input| - |rest|;
            var n := U64(sequence);
            if U16At(sequence, 0) != epoch || window.Discards(n) then (this, Discard, consumed)
            else
              match cipher.Open(typ, version, sequence, body)
              case None => (this, Discard, consumed)
              case Some(payload) =>
                if |payload| > MAX_PLAIN_LENGTH then (this, TooLong, consumed)
                else
                  var next := this.(window := window.Record(n));
                  (next, if typ == ALERT then AlertRecord(payload) else Success(typ, payload), consumed)
    }
  }

  /** The reading half of the connection state. */
  class RecordReader {
    const bitmap: DtlsBitmap
    var rEpoch: nat
    var cipher: ReadCipher
    var closed: bool
    // every (epoch, sequence number) pair ever accepted, and whether the epoch counter has wrapped
    ghost var history: set<(nat, nat)>
    ghost var wrapped: bool

    ghost function State(): ReadState
      reads this, bitmap
    {
      ReadState(rEpoch, bitmap.Contents(), cipher, closed)
    }

    ghost predicate Valid()
      reads this, bitmap
    {
      && bitmap.Valid() && rEpoch < 0x1_0000
      && (!wrapped ==> forall p | p in history :: p.0 < rEpoch || (p.0 == rEpoch && p.1 in bitmap.accepted))
    }

    constructor ()
      ensures Valid() && fresh(bitmap) && State() == ReadState(0, EmptyWindow, NullRead, false)
      ensures history == {} && !wrapped
    {
      bitmap := new DtlsBitmap();
      rEpoch, cipher, closed := 0, NullRead, false;
      history, wrapped := {}, false;
    }

    /** Opens the record at the front of `input`. An accepted record's number was never accepted before. */
    method OpenRecord(input: seq<byte>) returns (outcome: Opened, consumed: nat)
      requires Valid()
      modifies this`history, bitmap
      ensures Valid()
      ensures (State(), outcome, consumed) == old(State()).Open(input)
      ensures outcome.Success? || outcome.AlertRecord? ==>
        && ParseRecord(input).ParsedRecord?
        && var pair := (rEpoch, U64(ParseRecord(input).sequence));
           history == old(history) + {pair} && (!wrapped ==> pair !in old(history))
      ensures !outcome.Success? && !outcome.AlertRecord? ==> history == old(history)
    {
      if closed {
        return CloseNotify, 0;
      }
      if input == [] {
        return Partial, 0;
      }
      var parsed := ParseRecord(input);
      if parsed.BadRecord? {
        return Discard, |input|;
      }
      if !cipher.VersionOk(parsed.version) {
        return Discard, |input|;
      }
      consumed := |input| - |parsed.rest|;
      var n := U64(parsed.sequence);
      if U16At(parsed.sequence, 0) != rEpoch {
        return Discard, consumed;
      }
      var discard := bitmap.ShouldDiscard(n);
      if discard {
        return Discard, consumed;
      }
      var payload := cipher.Open(parsed.typ, parsed.version, parsed.sequence, parsed.body);
      if payload.None? {
        return Discard, consumed;
      }
      if |payload.value| > MAX_PLAIN_LENGTH {
        return TooLong, consumed;
      }
      assert n !in bitmap.accepted;
      bitmap.Record(n);
      history := history + {(rEpoch, n)};
      outcome := if parsed.typ == ALERT then AlertRecord(payload.value) else Success(parsed.typ, payload.value);
    }

    /** A cipher change: the next epoch starts with an empty window. */
    method NextEpoch(next: ReadCipher)
      requires Valid()
      modifies this, bitmap
      ensures Valid() && history == old(history)
      ensures State() == ReadState((old(rEpoch) + 1) % 0x1_0000, EmptyWindow, next, old(closed))
      ensures wrapped <==> old(wrapped) || old(rEpoch) == 0xffff
    {
      wrapped := wrapped || rEpoch == 0xffff;
      rEpoch := (rEpoch + 1) % 0x1_0000;
      bitmap.Reset();
      cipher := next;
    }
  }
}
