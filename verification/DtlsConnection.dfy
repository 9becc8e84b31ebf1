/** Both halves of a DTLS connection: numbering the outgoing messages, and dropping a flight that was answered. */
module DtlsConnection {
  import opened Bytes
  import opened Handshake
  import opened DtlsReceiver
  import opened DtlsReader
  import opened DtlsFlight
  import opened DtlsSender
  import opened DtlsNetwork

  /** A whole message as one fragment: how it is serialized, and what goes into the transcript. */
  function WholeMessage(typ: byte, seqNo: nat, body: seq<byte>): seq<byte>
    requires seqNo < 0x1_0000 && |body| < 0x100_0000
  {
    FragmentBytes(Header(typ, |body|, seqNo, 0, |body|), body)
  }

  lemma WholeMessageWellFormed(typ: byte, seqNo: nat, body: seq<byte>, epoch: nat)
    requires seqNo < 0x1_0000 && |body| < 0x100_0000
    ensures var m := OutMsg(WholeMessage(typ, seqNo, body), epoch, false);
      m.WellFormed() && m.Body() == body && m.Hdr().seqNo == seqNo && m.Hdr().typ == typ
  {
    var data := WholeMessage(typ, seqNo, body);
    assert data + [] == data;
    ParseEncoded(Header(typ, |body|, seqNo, 0, |body|), body, []);
  }

  /** The number before `next`, modulo 2^16. */
  function Previous(next: nat): (n: nat)
    ensures n < 0x1_0000
  {
    (next + 0xffff) % 0x1_0000
  }

  /** The handshake messages of the flight carry consecutive numbers modulo 2^16, the last one just below `next`. */
  predicate Numbered(msgs: seq<OutMsg>, next: nat)
    decreases |msgs|
  {
    if msgs == [] then true
    else
      var last, front := msgs[|msgs| - 1], msgs[..|msgs| - 1];
      if last.isCcs then Numbered(front, next)
      else last.WellFormed() && last.Hdr().seqNo == Previous(next) && Numbered(front, Previous(next))
  }

  predicate CountsUp(msgs: seq<OutMsg>, base: nat, plain: nat)
    requires plain <= |msgs|
  {
    forall i | 0 <= i < plain :: !msgs[i].isCcs && msgs[i].WellFormed() && msgs[i].Hdr().seqNo == (base + i) % 0x1_0000
  }

  lemma CountsUpLonger(msgs: seq<OutMsg>, base: nat, plain: nat)
    requires plain < |msgs| && CountsUp(msgs[..|msgs| - 1], base, plain)
    ensures CountsUp(msgs, base, plain)
  {
    hide OutMsg.WellFormed, OutMsg.Hdr;
    var front := msgs[..|msgs| - 1];
    assert forall i | 0 <= i < plain :: front[i] == msgs[i];
  }

  lemma OneBelow(n: nat, next: nat)
    requires n % 0x1_0000 == Previous(next) % 0x1_0000
    ensures n % 0x1_0000 == Previous(next) && (n + 1) % 0x1_0000 == next % 0x1_0000
  {
    var q, r := n / 0x1_0000, (next + 0xffff) / 0x1_0000;
    assert n + 1 == next + 0x1_0000 * (q - r + 1);
  }

  lemma {:induction false} AllCountUp(msgs: seq<OutMsg>, next: nat) returns (base: nat)
    requires Numbered(msgs, next) && forall i | 0 <= i < |msgs| :: !msgs[i].isCcs
    ensures base < 0x1_0000 && CountsUp(msgs, base, |msgs|) && (base + |msgs|) % 0x1_0000 == next % 0x1_0000
    decreases |msgs|
  {
    hide OutMsg.WellFormed, OutMsg.Hdr, Previous;
    if msgs == [] {
      return next % 0x1_0000;
    }
    var n := |msgs| - 1;
    base := AllCountUp(msgs[..n], Previous(next));
    OneBelow(base + n, next);
    CountsUpLonger(msgs, base, n);
  }

  /** In a numbered flight, leading handshake messages count up from some base. */
  lemma {:induction false} LeadingMessagesCountUp(msgs: seq<OutMsg>, next: nat, plain: nat) returns (base: nat)
    requires Numbered(msgs, next) && plain <= |msgs| && forall i | 0 <= i < plain :: !msgs[i].isCcs
    ensures base < 0x1_0000 && CountsUp(msgs, base, plain)
    decreases |msgs|
  {
    hide OutMsg.WellFormed, OutMsg.Hdr, CountsUp, Previous;
    if plain == |msgs| {
      base := AllCountUp(msgs, next);
    } else {
      var n := |msgs| - 1;
      base := LeadingMessagesCountUp(msgs[..n], if msgs[n].isCcs then next else Previous(next), plain);
      CountsUpLonger(msgs, base, plain);
    }
  }

  /** A flight built here, with its first `plain` messages unencrypted, is one the network theorems are about. */
  lemma BuiltFlightIsPlainFlight(msgs: seq<OutMsg>, next: nat, plain: nat, maxLen: nat) returns (base: nat)
    requires Numbered(msgs, next) && plain <= |msgs| <= MAX_FLIGHT
    requires forall i | 0 <= i < |msgs| :: msgs[i].WellFormed()
    requires forall i | 0 <= i < plain :: !msgs[i].isCcs && msgs[i].epoch == 0 && |msgs[i].Body()| <= maxLen
    requires forall i | plain <= i < |msgs| :: msgs[i].isCcs || msgs[i].epoch != 0
    ensures PlainFlight(msgs, plain, base, maxLen).Valid()
  {
    hide OutMsg.WellFormed, OutMsg.Hdr, OutMsg.Body, Numbered;
    base := LeadingMessagesCountUp(msgs, next, plain);
    forall i | 0 <= i < plain ensures PlainFlight(msgs, plain, base, maxLen).IsPlain(i) {
      assert msgs[i].Hdr().seqNo == (base + i) % 0x1_0000;
    }
  }

  lemma NumberedEmpty(next: nat)
    ensures Numbered([], next)
  {
  }

  /** Adding an entry of the next number, or a ChangeCipherSpec, keeps the flight numbered. */
  lemma NumberedOneMore(msgs: seq<OutMsg>, m: OutMsg, next: nat)
    requires msgs == [] || Numbered(msgs, next)
    requires next < 0x1_0000 && (m.isCcs || (m.WellFormed() && m.Hdr().seqNo == next))
    ensures Numbered(msgs + [m], if m.isCcs then next else (next + 1) % 0x1_0000)
  {
    hide OutMsg.WellFormed, OutMsg.Hdr;
    assert (msgs + [m])[..|msgs|] == msgs;
  }

  class Connection {
    const reader: Reader
    const writer: FlightWriter

    ghost predicate Valid()
      reads this, reader, reader.records, reader.records.bitmap, reader.ring, reader.ring.Repr
      reads writer, writer.records.Repr()
    {
      && reader.Valid() && writer.Valid()
      && {writer} + writer.records.Repr() !! reader.ring.Repr + {reader, reader.records, reader.records.bitmap}
      && Numbered(writer.outgoing, writer.handshakeWriteSeq)
    }

    constructor (version: nat, maxLen: nat)
      requires version < 0x1_0000
      ensures Valid() && writer.outgoing == [] && writer.handshakeWriteSeq == 0
    {
      hide FlightWriter.InStep, Ring.Valid, Placed;
      reader := new Reader(maxLen);
      writer := new FlightWriter(version);
    }

    /** Serializes a message: the length field is first left at zero and then copied from the fragment length. */
    method BuildMessage(typ: byte, body: seq<byte>) returns (data: Option<seq<byte>>)
      requires Valid()
      ensures data.Some? <==> |body| < 0x100_0000
      ensures data.Some? ==> data.value == WholeMessage(typ, writer.handshakeWriteSeq, body)
    {
      if |body| >= 0x100_0000 {
        return None;
      }
      var built := FragmentBytes(Header(typ, 0, writer.handshakeWriteSeq, 0, |body|), body);
      data := Some(built[..1] + built[HEADER_LENGTH - 3..HEADER_LENGTH] + built[4..]);
      assert data.value == WholeMessage(typ, writer.handshakeWriteSeq, body);
    }

    /** Adds a serialized message of the current number to the flight; the numbering stays consecutive. */
    method AddMessage(ghost typ: byte, ghost body: seq<byte>, data: seq<byte>) returns (ok: bool)
      requires Valid() && |body| < 0x100_0000 && data == WholeMessage(typ, writer.handshakeWriteSeq, body)
      modifies writer
      ensures Valid()
      ensures ok ==> writer.outgoing != [] && writer.outgoing[|writer.outgoing| - 1].data == data
      ensures ok ==> writer.handshakeWriteSeq == (old(writer.handshakeWriteSeq) + 1) % 0x1_0000
    {
      hide OutMsg.WellFormed, OutMsg.Hdr, Numbered, WholeMessage, FlightWriter.InStep, Ring.Valid, Placed;
      ghost var m := OutMsg(data, writer.records.wEpoch, false);
      WholeMessageWellFormed(typ, writer.handshakeWriteSeq, body, writer.records.wEpoch);
      NumberedOneMore(if writer.complete then [] else writer.outgoing, m, writer.handshakeWriteSeq);
      NumberedEmpty(writer.handshakeWriteSeq);
      ok := writer.AddOutgoing(false, data);
    }

    method AddChangeCipherSpec() returns (ok: bool)
      requires Valid()
      modifies writer
      ensures Valid()
      ensures ok ==> writer.outgoing != [] && writer.outgoing[|writer.outgoing| - 1].isCcs
      ensures writer.handshakeWriteSeq == old(writer.handshakeWriteSeq)
    {
      hide OutMsg.WellFormed, OutMsg.Hdr, Numbered, FlightWriter.InStep, Ring.Valid, Placed;
      ghost var m := OutMsg([], writer.records.wEpoch, true);
      NumberedOneMore(if writer.complete then [] else writer.outgoing, m, writer.handshakeWriteSeq);
      NumberedEmpty(writer.handshakeWriteSeq);
      ok := writer.AddOutgoing(true, []);
    }

    /** Takes the current message; if a flight was flushed before, it has been answered. */
    method NextMessage()
      requires Valid() && reader.hasMessage && reader.ring.Contents().HasCurrent()
      modifies reader, reader.ring, reader.ring.incoming, writer`hasReply
      ensures Valid()
      ensures reader.State() == old(reader.State()).(ring := old(reader.ring.Contents()).Next(), hasMessage := false)
      ensures writer.hasReply <==> old(writer.hasReply) || writer.complete
    {
      reader.NextMessage();
      if writer.complete {
        writer.hasReply := true;
      }
    }

    /** The end of the handshake: an answered flight is dropped, an unanswered one kept for retransmission. */
    method OnHandshakeComplete()
      requires Valid()
      modifies writer
      ensures Valid() && writer.handshakeWriteSeq == old(writer.handshakeWriteSeq)
      ensures writer.outgoing == if old(writer.hasReply) then [] else old(writer.outgoing)
      ensures !writer.hasReply
    {
      if writer.hasReply {
        writer.ClearOutgoing();
      }
    }
  }
}
