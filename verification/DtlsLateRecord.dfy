/** A run in which a record that was never seen is lost, because one 64 numbers later overtook it. */
module DtlsLateRecord {
  import opened Bytes
  import opened Handshake
  import opened ReplayWindow
  import opened DtlsReceiver
  import opened DtlsRecord
  import opened DtlsReader
  import opened DtlsSealing
  import opened DtlsFlight
  import opened DtlsNetwork
  import opened DtlsEndToEnd
  import opened DtlsProgress

  const MTU: nat := 228
  const SIZE: nat := 300
  const HALF: nat := 203
  const First := Piece(0, 0, HALF)
  const Second := Piece(0, HALF, SIZE - HALF)

  /** A plaintext flight of one message that takes two packets. */
  ghost predicate TwoPackets(st: FlightState) {
    && st.Valid() && |st.msgs| == 1 && st.written == 0 && st.ws.epoch == 0 && st.ws.cipher == NullWrite(0xfeff)
    && !st.msgs[0].isCcs && st.msgs[0].epoch == 0 && st.msgs[0].WellFormed() && |st.msgs[0].Body()| == SIZE
  }

  lemma PacketOf(st: FlightState)
    requires TwoPackets(st) && (st.offset == 0 || st.offset == HALF) && st.ws.seqNum + 1 < SEQ_LIMIT
    ensures var (last, packet) := st.NextPacket(MTU);
      && packet.Some? && packet.value.pieces == [if st.offset == 0 then First else Second] && |packet.value.records| == 1
      && packet.value.records[0].epoch == 0 && packet.value.records[0].seqNum == st.ws.seqNum
      && last == FlightState(st.msgs, if st.offset == 0 then 0 else 1, if st.offset == 0 then HALF else 0,
                             st.ws.(seqNum := st.ws.seqNum + 1))
  {
    hide OutMsg.WellFormed, OutMsg.Body, OutMsg.Hdr, PiecePayload, WriteState.Seal;
    var todo := st.Todo(MTU);
    var payload := PiecePayload(st.msgs[0], st.offset, todo);
    PayloadSize(st.msgs[0], st.offset, todo);
    PlainSealWorks(st.ws, HANDSHAKE, payload, MTU);
    SealedNumber(st.ws, payload);
    var (next, result) := st.SealNext(MTU);
    if st.offset == HALF {
      assert next.Step().FillPacket(MTU - |result.record.Wire()|) == (next.Step(), Some(EmptyPacket));
      assert [result.record] + [] == [result.record] && [result.piece] + [] == [result.piece];
    }
  }

  lemma SealedNumber(ws: WriteState, payload: seq<byte>)
    requires ws.Valid() && ws.Seal(HANDSHAKE, payload, false, MTU).1.Some?
    ensures var r := ws.Seal(HANDSHAKE, payload, false, MTU).1.value; r.epoch == ws.epoch && r.seqNum == ws.seqNum
  {
    hide WireRecord.Sequence;
  }

  ghost function Later(n: Net, k: nat): Net {
    n.(st := n.st.(ws := n.st.ws.(seqNum := n.st.ws.seqNum + k)))
  }

  /** The transport refuses a packet so many times; each attempt takes a number. */
  lemma {:induction false} Refused(fl: PlainFlight, n: Net, k: nat)
    requires fl.Valid() && TwoPackets(n.st) && n.st.offset == HALF && n.st.ws.seqNum + k < SEQ_LIMIT
    ensures Reaches(fl, n, Later(n, k)) && TwoPackets(Later(n, k).st)
    decreases k
  {
    hide Reaches, PlainFlight.Valid, FlightState.NextPacket, OutMsg.WellFormed, OutMsg.Body;
    if k == 0 {
      Stays(fl, n);
      assert Later(n, 0) == n;
    } else {
      PacketOf(n.st);
      var next := Later(n, 1);
      assert SendsWith(fl, n, next, MTU);
      assert Sends(fl, n, next);
      OneStep(fl, n, next);
      Refused(fl, next, k - 1);
      assert Later(next, k - 1) == Later(n, k);
      Follows(fl, n, next, Later(n, k));
    }
  }

  /** The network at the start of such a flight. */
  ghost function Start(fl: PlainFlight): Net {
    Net(FlightState(fl.msgs, 0, 0, WriteState(0, 0, 0, NullWrite(0xfeff), NullWrite(0xfeff))), false, MTU, {}, {},
        ReaderState(ReadState(0, Window(0, {}), NullRead, false), Ring(seq(MAX_FLIGHT, _ => None), fl.base), false, false),
        [], [], 0, {}, {}, {}, Arrivals({}, {}))
  }

  /** Both packets have been accepted, the second under number 64. */
  lemma BothSent(fl: PlainFlight) returns (n: Net, x: Flying, y: Flying)
    requires fl.Valid() && fl.plain == 1 && TwoPackets(Start(fl).st)
    ensures Reaches(fl, Start(fl), n) && n == Start(fl).(st := n.st, wire := {[x], [y]}, log := n.log) && !n.wrapped
    ensures x.item == Fragment(First) && x.record.epoch == 0 && x.record.seqNum == 0
    ensures y.item == Fragment(Second) && y.record.epoch == 0 && y.record.seqNum == 64
  {
    hide Reaches, PlainFlight.Valid, FlightState.NextPacket, OutMsg.WellFormed, OutMsg.Body;
    var n0 := Start(fl);
    PacketOf(n0.st);
    AcceptStep(fl, n0, MTU);
    var n1 := Accepted(fl, n0, MTU);
    var d := FlyingOf(fl, n0.st.NextPacket(MTU).1.value);
    x := d[0];
    assert d == [x];
    Refused(fl, n1, 63);
    var n2 := Later(n1, 63);
    PacketOf(n2.st);
    AcceptStep(fl, n2, MTU);
    n := Accepted(fl, n2, MTU);
    var e := FlyingOf(fl, n2.st.NextPacket(MTU).1.value);
    y := e[0];
    assert e == [y];
    assert n.wire == {[x], [y]};
    Follows(fl, n0, n1, n2);
    Follows(fl, n0, n2, n);
  }

  /** Opening the second packet first. */
  lemma SecondOpened(fl: PlainFlight, n: Net, y: Flying) returns (n': Net)
    requires fl.Valid() && fl.plain == 1 && Inv(fl, n) && SizesSafe(fl, n.maxMtu) && n.out == [] && n.pending == [] && n.got == {}
    requires n.arr == Arrivals({}, {}) && [y] in n.wire
    requires y.item == Fragment(Second) && y.record.epoch == 0 && y.record.seqNum == 64
    ensures Reaches(fl, n, n') && n'.wire == n.wire && n'.pending == [] && n'.got == {64} && n'.out == []
    ensures !Has(n'.arr, First) && n'.wrapped == n.wrapped && n'.maxMtu == n.maxMtu
  {
    hide Reaches, PlainFlight.Valid, AfterOpen, Fails, SizesSafe, Genuine, Inv, Ring.Valid, ReaderState.Valid, AllValid;
    var open := n.(pending := [y]);
    DeliverStep(fl, n, [y]);
    ReachedInv(fl, n, open);
    assert NewRecord(open.got, y);
    OpenEffect(fl, open);
    OpenStep(fl, open);
    n' := AfterOpen(fl, open);
    Follows(fl, n, open, n');
    assert (0, 0) !in n'.arr.bytes;
  }

  /**
   * The first half of a message is on the network under number 0, the second under number 64. If the second
   * comes first, the first is dropped, and its bytes are missing until they are sent again.
   */
  lemma LateRecordLost()
    ensures exists fl: PlainFlight, trace: seq<Net> | fl.Valid() && Run(fl, trace) :: DropsLate(fl, trace[|trace| - 1])
  {
    hide Reaches, PlainFlight.Valid, OutMsg.WellFormed, OutMsg.Body, Inv, Genuine, PlainFlight.IsPlain;
    var fl, _ := OneMessage(SIZE, 0);
    var n0 := Start(fl);
    assert Init(fl, n0);
    InitInv(fl, n0);
    assert SizesSafe(fl, MTU);
    var n, x, y := BothSent(fl);
    ReachedInv(fl, n0, n);
    var m := SecondOpened(fl, n, y);
    ReachedInv(fl, n, m);
    var late := m.(pending := [x]);
    DeliverStep(fl, m, [x]);
    Follows(fl, n0, n, m);
    Follows(fl, n0, m, late);
    FromStart(fl, n0, late);
  }

  /** The record about to be opened has never been seen, and what it carries is not there afterwards. */
  ghost predicate DropsLate(fl: PlainFlight, n: Net) {
    && n.pending != [] && AllValid(n.pending) && n.reader.Valid()
    && var x := n.pending[0];
       x.item.Fragment? && x.item.piece.index == |n.out| && x.record.seqNum !in n.got && !Has(AfterOpen(fl, n).arr, x.item.piece)
  }

  /** What is reached from an initial state is the end of a run; opening there is decided by what has come in time. */
  lemma FromStart(fl: PlainFlight, n0: Net, n: Net)
    requires fl.Valid() && Init(fl, n0) && Reaches(fl, n0, n) && !n.wrapped && n.pending != [] && SizesSafe(fl, n.maxMtu)
    requires var x := n.pending[0];
      && x.item.Fragment? && x.item.piece.index == |n.out| && !Has(n.arr, x.item.piece) && Late(n.got, x)
    ensures exists trace: seq<Net> | Run(fl, trace) :: DropsLate(fl, trace[|trace| - 1])
  {
    hide PlainFlight.Valid, Init, Step, Inv, AfterOpen, Has, SizesSafe, InTime, Genuine, Fails, Ring.Valid, ReaderState.Valid;
    var trace :| Path(fl, n0, n, trace);
    assert Run(fl, trace);
    RunInv(fl, trace, |trace| - 1);
    PendingFits(fl, n);
    FragmentIsPlain(fl, n.pending[0]);
    CountedIff(fl, trace, |trace| - 1);
  }

  lemma FragmentIsPlain(fl: PlainFlight, x: Flying)
    requires fl.Valid() && Genuine(fl, x) && x.item.Fragment?
    ensures x.record.epoch == 0
  {
  }
}
