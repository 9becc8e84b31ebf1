/** The encrypted epoch: sealed records opened, the one message that may come in them, and the ChangeCipherSpec before it. */
module DtlsEncrypted {
  import opened Bytes
  import opened Handshake
  import opened ReplayWindow
  import opened Reassembly
  import opened DtlsReceiver
  import opened DtlsRecord
  import opened DtlsReader
  import opened DtlsSealing
  import opened DtlsNetwork

  // ---- one fragment ----

  /** In epoch 1 a fragment that is not excessive is unexpected exactly when it is not of the message to read next. */
  lemma UnexpectedIff(ring: Ring, maxLen: nat, hdr: Handshake.Header, bytes: seq<byte>)
    requires ring.Valid() && hdr.Valid() && !Ring.Excessive(hdr, maxLen)
    ensures ring.Accept(1, maxLen, hdr, bytes).1 == Error(UnexpectedMessage) <==> hdr.seqNo != ring.readSeq
    ensures hdr.seqNo != ring.readSeq ==> ring.Accept(1, maxLen, hdr, bytes).0 == ring
  {
  }

  /** A message, as the sender means it. */
  datatype Whole = Whole(typ: byte, body: seq<byte>, seqNo: nat)
  {
    predicate Valid(maxLen: nat) {
      |body| <= maxLen && |body| < 0x100_0000 && seqNo < 0x1_0000
    }

    function FragmentHeader(off: nat, len: nat): (h: Handshake.Header)
      requires |body| < 0x100_0000 && seqNo < 0x1_0000 && off + len <= |body|
      ensures h.Valid()
    {
      Handshake.Header(typ, |body|, seqNo, off, len)
    }

    /** What one handshake record carries of it. */
    function Fragment(off: nat, len: nat): seq<byte>
      requires |body| < 0x100_0000 && seqNo < 0x1_0000 && off + len <= |body|
    {
      FragmentBytes(FragmentHeader(off, len), body[off..off + len])
    }

    /** What the application is to get. */
    function Expected(): Message
      requires |body| < 0x100_0000 && seqNo < 0x1_0000
    {
      Message(typ, body, Fragment(0, |body|))
    }
  }

  /** The numbers of the records opened, and the parts of the body that they brought. */
  datatype Known = Known(got: set<nat>, parts: set<(nat, nat)>)
  {
    function Add(off: nat, len: nat): Known {
      this.(parts := parts + {(off, len)})
    }

    predicate Has(i: nat) {
      exists part | part in parts :: part.0 <= i < part.0 + part.1
    }

    /** At least one fragment, even of an empty body, and every byte. */
    predicate Covers(size: nat) {
      parts != {} && forall i | 0 <= i < size :: Has(i)
    }
  }

  /** The slot of the message to read next holds exactly these bytes. */
  predicate SlotHolds(ring: Ring, w: Whole, k: Known)
    requires ring.Valid()
  {
    && ring.readSeq == w.seqNo
    && match ring.slots[w.seqNo % MAX_FLIGHT]
       case None => k.parts == {}
       case Some(f) =>
         && k.parts != {} && f.typ == w.typ && f.seqNo == w.seqNo && |f.body| == |w.body|
         && forall i | 0 <= i < |f.body| :: f.body[i] == if k.Has(i) then Some(w.body[i]) else None
  }

  /** A fragment of the message to read next is stored in either epoch, and no other slot changes. */
  lemma AcceptNext(ring: Ring, epoch: nat, maxLen: nat, w: Whole, k: Known, off: nat, len: nat)
    requires ring.Valid() && w.Valid(maxLen) && off + len <= |w.body| && SlotHolds(ring, w, k)
    ensures var (next, result) := ring.Accept(epoch, maxLen, w.FragmentHeader(off, len), w.body[off..off + len]);
      && result == Ok && SlotHolds(next, w, k.Add(off, len))
      && forall i | 0 <= i < MAX_FLIGHT && i != w.seqNo % MAX_FLIGHT :: next.slots[i] == ring.slots[i]
  {
  }

  /** A record that carries one fragment. */
  lemma ProcessNext(ring: Ring, epoch: nat, maxLen: nat, w: Whole, k: Known, off: nat, len: nat)
    requires ring.Valid() && w.Valid(maxLen) && off + len <= |w.body| && SlotHolds(ring, w, k)
    ensures var (next, result) := ring.ProcessRecord(epoch, maxLen, w.Fragment(off, len));
      && result == Ok && SlotHolds(next, w, k.Add(off, len))
      && forall i | 0 <= i < MAX_FLIGHT && i != w.seqNo % MAX_FLIGHT :: next.slots[i] == ring.slots[i]
  {
    hide SlotHolds, Ring.Accept, FragmentBytes;
    AcceptNext(ring, epoch, maxLen, w, k, off, len);
    var h, b := w.FragmentHeader(off, len), w.body[off..off + len];
    ParseEncoded(h, b, []);
    assert FragmentBytes(h, b) + [] == FragmentBytes(h, b);
    var next := ring.Accept(epoch, maxLen, h, b).0;
    assert next.ProcessRecord(epoch, maxLen, []) == (next, Ok);
  }

  /** The message is handed out exactly when all its bytes have come, with its body and its raw bytes. */
  lemma CurrentIff(ring: Ring, w: Whole, maxLen: nat, k: Known)
    requires ring.Valid() && w.Valid(maxLen) && SlotHolds(ring, w, k)
    ensures ring.Current().Some? <==> k.Covers(|w.body|)
    ensures ring.Current().Some? ==> ring.Current().value == w.Expected()
  {
    if k.Covers(|w.body|) {
      var f := ring.slots[w.seqNo % MAX_FLIGHT].value;
      forall i | 0 <= i < |f.body| ensures f.body[i].Some? {
      }
      assert BodyBytes(f.body) == w.body;
      assert w.body[0..|w.body|] == w.body;
    }
  }

  // ---- sealed records ----

  /** The reader's cipher opens what the writer's has sealed, under the same type, version and number. */
  ghost predicate Opposite(wc: WriteCipher, rc: ReadCipher) {
    && wc.KeyedWrite? && rc.KeyedRead? && wc.version == rc.recordVersion
    && forall t, v, s, p :: wc.seal(t, v, s, p).Some? ==> rc.open(t, v, s, wc.seal(t, v, s, p).value) == Some(p)
  }

  /** A record, and which bytes of the message are sealed in it. */
  datatype Sealed = Sealed(record: WireRecord, off: nat, len: nat)

  ghost predicate Carries(x: Sealed, w: Whole, maxLen: nat, rec: ReadState)
    requires w.Valid(maxLen)
  {
    && x.off + x.len <= |w.body| && HEADER_LENGTH + x.len <= MAX_PLAIN_LENGTH
    && x.record.Valid() && |x.record.body| <= MAX_ENCRYPTED_LENGTH && x.record.epoch == rec.epoch
    && x.record.typ == 22 && rec.cipher.KeyedRead? && x.record.version == rec.cipher.recordVersion
    && rec.cipher.open(HANDSHAKE, x.record.version, x.record.Sequence(), x.record.body) == Some(w.Fragment(x.off, x.len))
  }

  /** What the sender seals of the message in its current epoch is such a record for the reader of that epoch. */
  lemma SealedCarries(ws: WriteState, w: Whole, maxLen: nat, off: nat, len: nat, maxOut: nat, rec: ReadState)
    requires ws.Valid() && w.Valid(maxLen) && off + len <= |w.body| && HEADER_LENGTH + len <= MAX_PLAIN_LENGTH
    requires rec.epoch == ws.epoch && Opposite(ws.cipher, rec.cipher)
    requires ws.Seal(HANDSHAKE, w.Fragment(off, len), false, maxOut).1.Some?
    requires |ws.Seal(HANDSHAKE, w.Fragment(off, len), false, maxOut).1.value.body| <= MAX_ENCRYPTED_LENGTH
    ensures Carries(Sealed(ws.Seal(HANDSHAKE, w.Fragment(off, len), false, maxOut).1.value, off, len), w, maxLen, rec)
  {
    hide WriteState.Advance, Whole.Fragment;
    var p := w.Fragment(off, len);
    var r := ws.Seal(HANDSHAKE, p, false, maxOut).1.value;
    assert r.Sequence() == ws.Envelope(HANDSHAKE, false, []).Sequence();
  }

  ghost predicate Receiving(st: ReaderState, w: Whole, k: Known) {
    && st.Valid() && st.rec.epoch != 0 && !st.rec.closed && st.rec.cipher.KeyedRead? && WindowIs(st.rec.window, k.got)
    && SlotHolds(st.ring, w, k)
  }

  /** A record that is new adds its bytes, another is dropped. */
  function Learn(k: Known, x: Sealed): Known
    requires x.record.Valid()
  {
    var n := U64(x.record.Sequence());
    if IsNew(k.got, n) then k.Add(x.off, x.len).(got := k.got + {n}) else k
  }

  lemma OpenKeyed(rec: ReadState, r: WireRecord, plain: seq<byte>)
    requires !rec.closed && rec.cipher.KeyedRead? && r.Valid() && |r.body| <= MAX_ENCRYPTED_LENGTH && r.epoch == rec.epoch
    requires r.version == rec.cipher.recordVersion && r.typ != ALERT && |plain| <= MAX_PLAIN_LENGTH
    requires rec.cipher.open(r.typ, r.version, r.Sequence(), r.body) == Some(plain)
    ensures var n := U64(r.Sequence());
      rec.Open(r.Wire()) ==
        if rec.window.Discards(n) then (rec, DtlsRecord.Discard, |r.Wire()|)
        else (rec.(window := rec.window.Record(n)), DtlsRecord.Success(r.typ, plain), |r.Wire()|)
  {
    hide WireRecord.Wire, WireRecord.Sequence, Window.Discards, Window.Record, ParseRecord, U64;
    ParseWire(r, []);
    SequenceEpoch(r);
    WireNotEmpty(r, []);
    assert r.Wire() + [] == r.Wire();
  }

  /** One record, opened and stored, or dropped because its number is not new. */
  lemma OpenOne(st: ReaderState, w: Whole, maxLen: nat, k: Known, x: Sealed)
    requires w.Valid(maxLen) && Receiving(st, w, k) && Carries(x, w, maxLen, st.rec)
    ensures var (next, opening, consumed) := st.OpenHandshake(maxLen, x.record.Wire());
      && opening == (if IsNew(k.got, U64(x.record.Sequence())) then Opened else Discarded) && consumed == |x.record.Wire()|
      && Receiving(next, w, Learn(k, x)) && next.rec.cipher == st.rec.cipher && next.rec.epoch == st.rec.epoch
      && forall i | 0 <= i < MAX_FLIGHT && i != w.seqNo % MAX_FLIGHT :: next.ring.slots[i] == st.ring.slots[i]
  {
    hide WireRecord.Wire, WireRecord.Sequence, ReadState.Open, U64, Window.Discards, Window.Record, WindowIs, IsNew, SlotHolds,
      Ring.ProcessRecord, Whole.Fragment;
    var n := U64(x.record.Sequence());
    FragmentSize(w, maxLen, x.off, x.len);
    OpenKeyed(st.rec, x.record, w.Fragment(x.off, x.len));
    DiscardsOldOnly(st.rec.window, k.got, n);
    ProcessNext(st.ring, st.rec.epoch, maxLen, w, k, x.off, x.len);
    SameSlot(st.ring.ProcessRecord(st.rec.epoch, maxLen, w.Fragment(x.off, x.len)).0, w, k.Add(x.off, x.len), k.got + {n});
  }

  lemma FragmentSize(w: Whole, maxLen: nat, off: nat, len: nat)
    requires w.Valid(maxLen) && off + len <= |w.body|
    ensures |w.Fragment(off, len)| == HEADER_LENGTH + len
  {
  }

  lemma SameSlot(ring: Ring, w: Whole, k: Known, got: set<nat>)
    requires ring.Valid() && SlotHolds(ring, w, k)
    ensures SlotHolds(ring, w, k.(got := got))
  {
  }

  /** The reader once these datagrams have come, one record each. */
  ghost function OpenAll(st: ReaderState, maxLen: nat, xs: seq<Sealed>): (r: ReaderState)
    requires st.Valid() && forall x | x in xs :: x.record.Valid()
    ensures r.Valid()
    decreases |xs|
  {
    if xs == [] then st else OpenAll(st.OpenHandshake(maxLen, xs[0].record.Wire()).0, maxLen, xs[1..])
  }

  /** None of them makes the receiver fail. */
  ghost predicate NoneFails(st: ReaderState, maxLen: nat, xs: seq<Sealed>)
    requires st.Valid() && forall x | x in xs :: x.record.Valid()
    decreases |xs|
  {
    xs == [] ||
    (!st.OpenHandshake(maxLen, xs[0].record.Wire()).1.Failed?
      && NoneFails(st.OpenHandshake(maxLen, xs[0].record.Wire()).0, maxLen, xs[1..]))
  }

  function LearnAll(k: Known, xs: seq<Sealed>): Known
    requires forall x | x in xs :: x.record.Valid()
    decreases |xs|
  {
    if xs == [] then k else LearnAll(Learn(k, xs[0]), xs[1..])
  }

  /**
   * Sealed fragments of the message to read next, in any order and any number of times: no failure, and the
   * message is handed out, body and raw bytes, exactly when the records that were new have brought all of it.
   */
  lemma {:induction false} EncryptedDelivered(st: ReaderState, w: Whole, maxLen: nat, k: Known, xs: seq<Sealed>)
    requires w.Valid(maxLen) && Receiving(st, w, k) && forall x | x in xs :: x.record.Valid() && Carries(x, w, maxLen, st.rec)
    ensures NoneFails(st, maxLen, xs) && Receiving(OpenAll(st, maxLen, xs), w, LearnAll(k, xs))
    ensures var ring := OpenAll(st, maxLen, xs).ring;
      && (ring.Current().Some? <==> LearnAll(k, xs).Covers(|w.body|))
      && (ring.Current().Some? ==> ring.Current().value == w.Expected())
    decreases |xs|
  {
    hide ReaderState.OpenHandshake, Ring.Current, SlotHolds, Learn, WireRecord.Wire, WireRecord.Sequence, Known.Covers,
      WindowIs, Whole.Fragment;
    if xs == [] {
      CurrentIff(st.ring, w, maxLen, k);
    } else {
      OpenOne(st, w, maxLen, k, xs[0]);
      EncryptedDelivered(st.OpenHandshake(maxLen, xs[0].record.Wire()).0, w, maxLen, Learn(k, xs[0]), xs[1..]);
    }
  }

  /** The empty ring, at the start of the epoch, and the Finished of a handshake in one record: it is handed out. */
  lemma FinishedHandedOut(rc: ReadCipher, w: Whole, maxLen: nat, x: Sealed)
    requires rc.KeyedRead? && w.Valid(maxLen) && x.off == 0 && x.len == |w.body|
    requires Carries(x, w, maxLen, ReadState(1, EmptyWindow, rc, false))
    ensures var st := ReaderState(ReadState(1, EmptyWindow, rc, false), Ring(seq(MAX_FLIGHT, _ => None), w.seqNo), false, false);
      st.OpenHandshake(maxLen, x.record.Wire()).0.ring.Current() == Some(w.Expected())
  {
    hide ReaderState.OpenHandshake, Ring.Current, WireRecord.Wire, WireRecord.Sequence, Whole.Fragment;
    var st := ReaderState(ReadState(1, EmptyWindow, rc, false), Ring(seq(MAX_FLIGHT, _ => None), w.seqNo), false, false);
    var k := Known({}, {});
    OpenOne(st, w, maxLen, k, x);
    CurrentIff(st.OpenHandshake(maxLen, x.record.Wire()).0.ring, w, maxLen, Learn(k, x));
  }

  // ---- any record at all ----

  /** The versions that the reader goes by: the major one as long as nothing is encrypted, then the negotiated one. */
  predicate VersionGood(rec: ReadState, r: WireRecord) {
    match rec.cipher
    case NullRead => 0xfe00 <= r.version <= 0xfeff
    case KeyedRead(version, _) => r.version == version
  }

  function Plain(rec: ReadState, r: WireRecord): Option<seq<byte>>
    requires r.Valid()
  {
    match rec.cipher
    case NullRead => Some(r.body)
    case KeyedRead(_, open) => open(r.typ, r.version, r.Sequence(), r.body)
  }

  /**
   * Any record that can be on the wire, in front of any other bytes, in any state: it is accepted exactly if its
   * version and epoch are the reader's, its number is new, and the cipher opens it. What has the wrong version takes
   * the rest of the datagram with it; a number is noted only if its record was accepted.
   */
  lemma OpensIff(rec: ReadState, r: WireRecord, rest: seq<byte>, got: set<nat>)
    requires r.Valid() && |r.body| <= MAX_ENCRYPTED_LENGTH && !rec.closed && WindowIs(rec.window, got)
    ensures var (next, outcome, consumed) := rec.Open(r.Wire() + rest);
      var n := 0x1_0000_0000_0000 * r.epoch + r.seqNum;
      var opens := VersionGood(rec, r) && r.epoch == rec.epoch && IsNew(got, n) && Plain(rec, r).Some?;
      && (outcome == DtlsRecord.Discard <==> !opens)
      && (outcome == DtlsRecord.TooLong <==> opens && |Plain(rec, r).value| > 16384)
      && (opens && |Plain(rec, r).value| <= 16384 ==>
            && outcome == (if r.typ == 21 then AlertRecord(Plain(rec, r).value) else DtlsRecord.Success(r.typ, Plain(rec, r).value))
            && WindowIs(next.window, got + {n}) && next == rec.(window := next.window))
      && (outcome == DtlsRecord.Discard || outcome == DtlsRecord.TooLong ==> next == rec)
      && consumed == (if VersionGood(rec, r) then |r.Wire()| else |r.Wire() + rest|)
  {
    hide WireRecord.Wire, WireRecord.Sequence, Window.Discards, Window.Record, ParseRecord, U64, WindowIs, IsNew;
    ParseWire(r, rest);
    SequenceEpoch(r);
    SequenceNumber(r);
    WireNotEmpty(r, rest);
    DiscardsOldOnly(rec.window, got, U64(r.Sequence()));
  }

  // ---- what is not a handshake record ----

  /** A ChangeCipherSpec is noted exactly when a record of that type and payload is opened in the plaintext epoch. */
  lemma ChangeNotedIff(st: ReaderState, maxLen: nat, input: seq<byte>)
    requires st.Valid()
    ensures var (next, opening, _) := st.OpenHandshake(maxLen, input);
      var came := st.rec.cipher.NullRead? && st.rec.Open(input).1 == DtlsRecord.Success(20, [1]);
      && (next.hasCcs <==> st.hasCcs || came) && (came ==> opening == Opened && next.ring == st.ring)
  {
    hide ReadState.Open, Ring.ProcessRecord;
    OpenKeepsCipher(st.rec, input);
  }

  lemma OpenKeepsCipher(rec: ReadState, input: seq<byte>)
    ensures rec.Open(input).0 == rec.(window := rec.Open(input).0.window)
  {
    hide ParseRecord, U64;
  }

  /** Application data during the handshake is an error if it is not encrypted and dropped if it is; nothing is stored. */
  lemma EarlyApplicationData(st: ReaderState, maxLen: nat, input: seq<byte>)
    requires st.Valid() && st.rec.Open(input).1.Success? && st.rec.Open(input).1.typ == 23
    ensures var (next, opening, _) := st.OpenHandshake(maxLen, input);
      && opening == (if st.rec.cipher.NullRead? then Failed(UnexpectedMessage) else Discarded)
      && next.ring == st.ring && next.hasCcs == st.hasCcs
  {
    hide ReadState.Open;
    OpenKeepsCipher(st.rec, input);
  }

  /** Handshake records are given to the ring; every other that opens is an error or handed on, and nothing is stored. */
  lemma OtherRecords(st: ReaderState, maxLen: nat, input: seq<byte>, typ: byte, payload: seq<byte>)
    requires st.Valid() && st.rec.Open(input).1 == DtlsRecord.Success(typ, payload)
    ensures var (next, opening, _) := st.OpenHandshake(maxLen, input);
      && (typ == 20 && !st.rec.cipher.NullRead? ==> opening == Failed(UnexpectedMessage))
      && (typ == 20 && st.rec.cipher.NullRead? && payload != [1] ==> opening == Failed(IllegalParameter))
      && (typ != 20 && typ != 22 && typ != 23 ==> opening == Failed(UnexpectedMessage))
      && (opening.Failed? && typ != 22 ==> next.ring == st.ring && next.hasCcs == st.hasCcs)
      && (typ == 22 ==>
            && next.ring == st.ring.ProcessRecord(st.rec.epoch, maxLen, payload).0 && next.hasCcs == st.hasCcs
            && (opening == Opened <==> st.ring.ProcessRecord(st.rec.epoch, maxLen, payload).1.Ok?))
  {
    hide ReadState.Open, Ring.ProcessRecord;
    OpenKeepsCipher(st.rec, input);
  }

  lemma AlertsHandedOn(st: ReaderState, maxLen: nat, input: seq<byte>, payload: seq<byte>)
    requires st.Valid() && st.rec.Open(input).1 == AlertRecord(payload)
    ensures var (next, opening, _) := st.OpenHandshake(maxLen, input);
      opening == AlertReceived(payload) && next.ring == st.ring && next.hasCcs == st.hasCcs
  {
    hide ReadState.Open;
  }

  /** Where nothing is opened nothing is stored: after the end, of an empty datagram, of what is dropped, of what is too long. */
  lemma NothingOpened(st: ReaderState, maxLen: nat, input: seq<byte>)
    requires st.Valid()
    ensures var (next, opening, consumed) := st.OpenHandshake(maxLen, input);
      && (opening == Closed <==> st.rec.closed)
      && (opening == NeedMore <==> !st.rec.closed && input == [])
      && (opening == Closed || opening == NeedMore ==> next == st && consumed == 0)
      && (st.rec.Open(input).1 == DtlsRecord.Discard ==> opening == Discarded && next.ring == st.ring && next.hasCcs == st.hasCcs)
      && (st.rec.Open(input).1 == DtlsRecord.TooLong ==>
            opening == Failed(RecordOverflow) && next.ring == st.ring && next.hasCcs == st.hasCcs)
  {
    hide ParseRecord, U64, Ring.ProcessRecord, Window.Record, Window.Discards;
  }
}
