/** Sending a flight of handshake messages over an unreliable transport, with resumption and retransmission. */
module DtlsSender {
  import opened Bytes
  import opened Handshake
  import opened DtlsRecord
  import opened DtlsSealing
  import opened DtlsFlight

  const MIN_MTU: nat := 256 - 28
  const DEFAULT_MTU: nat := 1500 - 28
  const MAX_DATA: nat := 0xffff_ffff

  /** The transport: each write is accepted or refused, as it likes, unless it is willing; it remembers what it answered. */
  class Transport {
    var answer: int
    // the datagrams it has accepted
    ghost var accepted: seq<seq<byte>>

    constructor ()
      ensures accepted == []
    {
      answer, accepted := 0, [];
    }

    method Write(datagram: seq<byte>, willing: bool) returns (ret: int)
      modifies this
      ensures ret == answer && (willing ==> ret > 0)
      ensures accepted == if ret > 0 then old(accepted) + [datagram] else old(accepted)
    {
      ret := *;
      if willing && ret <= 0 {
        ret := |datagram| + 1;
      }
      answer := ret;
      if ret > 0 {
        accepted := accepted + [datagram];
      }
    }

    method Flush(willing: bool) returns (ret: int)
      ensures willing ==> ret > 0
    {
      ret := *;
      if willing && ret <= 0 {
        ret := 1;
      }
    }
  }

  /** `packet` in front of whatever the rest of the filling yields. */
  function Prepend(packet: Packet, rest: (FlightState, Option<Packet>)): (FlightState, Option<Packet>) {
    (rest.0,
     if rest.1.None? then None
     else Some(Packet(packet.records + rest.1.value.records, packet.pieces + rest.1.value.pieces)))
  }

  lemma PrependOne(packet: Packet, record: WireRecord, piece: Piece, rest: (FlightState, Option<Packet>))
    ensures Prepend(packet, Prepend(Packet([record], [piece]), rest))
         == Prepend(Packet(packet.records + [record], packet.pieces + [piece]), rest)
  {
    if rest.1.Some? {
      assert packet.records + ([record] + rest.1.value.records) == packet.records + [record] + rest.1.value.records;
      assert packet.pieces + ([piece] + rest.1.value.pieces) == packet.pieces + [piece] + rest.1.value.pieces;
    }
  }

  lemma PrependNone(rest: (FlightState, Option<Packet>))
    ensures Prepend(EmptyPacket, rest) == rest
  {
    if rest.1.Some? {
      assert [] + rest.1.value.records == rest.1.value.records && [] + rest.1.value.pieces == rest.1.value.pieces;
    }
  }

  class FlightWriter {
    const records: RecordWriter
    var outgoing: seq<OutMsg>
    var written: nat
    var offset: nat
    var complete: bool
    var hasReply: bool
    var handshakeWriteSeq: nat
    var mtu: nat
    // the pieces accepted by the transport since sending of the flight (re)started
    ghost var sent: seq<Piece>

    ghost function Flight(): FlightState
      reads this, records.Repr()
    {
      FlightState(outgoing, written, offset, records.State())
    }

    /** What the transport has accepted is exactly the part of the flight before the current position. */
    ghost predicate InStep()
      reads this, records.Repr()
    {
      Walk(outgoing, Place(0, 0), sent) == Some(Place(written, offset))
    }

    ghost predicate Valid()
      reads this, records.Repr()
    {
      && records.Valid() && written <= |outgoing| <= MAX_FLIGHT && handshakeWriteSeq < 0x1_0000
      && Placed(outgoing, Place(written, offset)) && NotBehind(outgoing, sent, Place(written, offset))
      && (hasReply ==> complete)
    }

    constructor (version: nat)
      requires version < 0x1_0000
      ensures Valid() && fresh(records.Repr()) && outgoing == [] && !complete && InStep() && handshakeWriteSeq == 0
      ensures records.State() == WriteState(0, 0, 0, NullWrite(version), NullWrite(version))
    {
      records := new RecordWriter(version);
      outgoing, written, offset, complete, hasReply := [], 0, 0, false, false;
      handshakeWriteSeq, mtu, sent := 0, 0, [];
    }

    method ClearOutgoing()
      requires Valid()
      modifies this
      ensures Valid() && outgoing == [] && !complete && !hasReply && InStep()
      ensures handshakeWriteSeq == old(handshakeWriteSeq) && mtu == old(mtu)
    {
      outgoing, written, offset, complete, hasReply := [], 0, 0, false, false;
      sent := [];
    }

    /** Adds an entry to the flight; after a flush it starts a new flight. */
    method AddOutgoing(isCcs: bool, data: seq<byte>) returns (ok: bool)
      requires Valid()
      modifies this
      ensures Valid()
      ensures ok <==> |data| <= MAX_DATA && (old(complete) || |old(outgoing)| < MAX_FLIGHT)
      ensures ok ==> outgoing == (if old(complete) then [] else old(outgoing)) + [OutMsg(data, records.wEpoch, isCcs)]
      ensures ok ==> handshakeWriteSeq == if isCcs then old(handshakeWriteSeq) else (old(handshakeWriteSeq) + 1) % 0x1_0000
      ensures !ok ==> outgoing == (if old(complete) then [] else old(outgoing)) && handshakeWriteSeq == old(handshakeWriteSeq)
      ensures InStep() <==> old(complete) || old(InStep())
    {
      if complete {
        ClearOutgoing();
      }
      if |outgoing| >= MAX_FLIGHT || |data| > MAX_DATA {
        return false;
      }
      if !isCcs {
        handshakeWriteSeq := (handshakeWriteSeq + 1) % 0x1_0000;
      }
      ghost var before := outgoing;
      outgoing := outgoing + [OutMsg(data, records.wEpoch, isCcs)];
      LongerFlight(before, OutMsg(data, records.wEpoch, isCcs), Place(0, 0), sent);
      ok := true;
    }

    method SealCcs(maxOut: nat, previous: bool) returns (result: SealResult)
      requires records.Valid() && written < |outgoing| && previous == Flight().UsesPrevious()
      modifies records.Repr()
      ensures records.Valid() && (Flight(), result) == old(Flight()).SealCcs(maxOut)
    {
      var overhead := records.Overhead(previous);
      if maxOut < 1 + overhead {
        return NoProgress;
      }
      var record := records.SealRecord(CHANGE_CIPHER_SPEC, CCS_PAYLOAD, previous, maxOut);
      return if record.None? then SealError else SealSuccess(record.value, Piece(written, 0, 0));
    }

    method SealFragment(maxOut: nat, previous: bool) returns (result: SealResult)
      requires records.Valid() && written < |outgoing| && previous == Flight().UsesPrevious()
      requires Flight().Readable()
      modifies this`offset, records.Repr()
      ensures records.Valid() && (Flight(), result) == old(Flight()).SealFragment(maxOut)
    {
      hide OutMsg.WellFormed, OutMsg.Body, PiecePayload, WriteState.Seal;
      var msg := outgoing[written];
      var overhead, prefix := records.Overhead(previous), records.PrefixLen(previous);
      if maxOut < HEADER_LENGTH + 1 + overhead || maxOut < prefix {
        return NoProgress;
      }
      var body := msg.Body();
      var todo := |body| - offset;
      if todo > maxOut - HEADER_LENGTH - overhead {
        todo := maxOut - HEADER_LENGTH - overhead;
      }
      var fragment := PiecePayload(msg, offset, todo);
      var record := records.SealRecord(HANDSHAKE, fragment, previous, maxOut);
      if record.None? {
        return SealError;
      }
      var piece := Piece(written, offset, todo);
      if offset + todo == |body| {
        offset := 0;
        return SealSuccess(record.value, piece);
      }
      offset := offset + todo;
      return SealPartial(record.value, piece);
    }

    /** Seals the next entry, or part of it, into at most `maxOut` bytes. */
    method SealNextMessage(maxOut: nat) returns (result: SealResult)
      requires records.Valid() && written < |outgoing|
      modifies this`offset, records.Repr()
      ensures records.Valid() && (Flight(), result) == old(Flight()).SealNext(maxOut)
    {
      var msg := outgoing[written];
      var previous := false;
      if records.wEpoch >= 1 && msg.epoch == records.wEpoch - 1 {
        previous := true;
      } else if msg.epoch != records.wEpoch {
        return SealError;
      }
      if msg.isCcs {
        result := SealCcs(maxOut, previous);
        return;
      }
      if !msg.WellFormed() || offset > |msg.Body()| {
        return SealError;
      }
      result := SealFragment(maxOut, previous);
    }

    /** Fills a packet with as much of the flight as fits. */
    method SealNextPacket(maxOut: nat) returns (datagram: Option<seq<byte>>, ghost packet: Option<Packet>)
      requires records.Valid() && written < |outgoing|
      modifies this`written, this`offset, records.Repr()
      ensures records.Valid() && (Flight(), packet) == old(Flight()).NextPacket(maxOut)
      ensures packet.Some? ==> packet.value.Valid()
      ensures datagram == if packet.None? then None else Some(Datagram(packet.value.records))
    {
      hide FlightState.FillPacket, FlightState.SealNext, FlightState.Sealed, RecordWriter.State, Counter;
      ghost var start := Flight();
      ghost var acc := EmptyPacket;
      var bytes := [];
      var room := maxOut;
      var madeProgress := false;
      PrependNone(start.FillPacket(maxOut));
      var full := false;
      while written < |outgoing| && !full
        invariant records.Valid() && Flight().Valid() && written <= |outgoing|
        invariant acc.Valid() && bytes == Datagram(acc.records) && (madeProgress <==> acc.records != [])
        invariant start.FillPacket(maxOut)
               == Prepend(acc, if full then (Flight(), Some(EmptyPacket)) else Flight().FillPacket(room))
        invariant Flight().msgs == start.msgs
        decreases |outgoing| - written, !full
      {
        FillStep(Flight(), room);
        ghost var before := Flight();
        var result := SealNextMessage(room);
        match result
        case SealError =>
          return None, None;
        case NoProgress =>
          full := true;
        case SealPartial(record, piece) =>
          bytes := bytes + record.Wire();
          acc := Extend(acc, record, piece, (Flight(), Some(EmptyPacket)));
          madeProgress, full := true, true;
        case SealSuccess(record, piece) =>
          bytes := bytes + record.Wire();
          room := room - |record.Wire()|;
          madeProgress := true;
          written := written + 1;
          acc := Extend(acc, record, piece, Flight().FillPacket(room));
      }
      FillDone(Flight(), room);
      PrependEmpty(acc, Flight());
      if !madeProgress {
        return None, None;
      }
      return Some(bytes), Some(acc);
    }

    /** Picks an MTU above the minimum, from the transport or by default. */
    method UpdateMtu(queried: int, noQuery: bool)
      modifies this`mtu
      ensures !noQuery ==> mtu >= MIN_MTU
      ensures old(mtu) >= MIN_MTU || noQuery ==> mtu == old(mtu)
      ensures old(mtu) < MIN_MTU && !noQuery ==> mtu == if MIN_MTU <= queried <= 0x4000_0000 then queried else DEFAULT_MTU
    {
      if mtu < MIN_MTU && !noQuery {
        if 0 <= queried <= 0x4000_0000 && queried >= MIN_MTU {
          mtu := queried;
        } else {
          mtu := DEFAULT_MTU;
        }
      }
    }

    /** Sends from the current position to the end of the flight, or until sealing or the transport fails. */
    method SendFlight(transport: Transport, queried: int, noQuery: bool, shutdown: bool, willing: bool)
      returns (ret: int, ghost packets: seq<Packet>)
      requires Valid()
      modifies this`written, this`offset, this`sent, this`mtu, records.Repr(), transport
      ensures Valid() && SameKeys(records.State(), old(records.State()))
      ensures Sent(outgoing, old(records.State()), mtu, old(transport.accepted), transport.accepted, packets)
      ensures sent == old(sent) + AllPieces(packets)
      ensures ret > 0 ==> written == |outgoing|
      ensures ret > 0 ==> (Walk(outgoing, Place(0, 0), sent) == Some(Place(|outgoing|, 0)) <==> old(InStep()))
      ensures shutdown ==> ret == -1 && packets == [] && Flight() == old(Flight()) && mtu == old(mtu)
      ensures !shutdown && willing ==>
        if ret == 1 then PlanSends(old(Flight()), mtu, packets) else ret == -1 && !PlanEnds(old(Flight()), mtu)
      ensures ret <= 0 ==> ret == -1 || ret == transport.answer
    {
      hide PlanSends, PlanEnds, Follow, FlightState.NextPacket, NotBehind, Placed, SameKeys, Walk, Sent, GoodPacket,
        AllPieces, WriteState.Spent, OutMsg.WellFormed, OutMsg.Body;
      packets := [];
      SameKeysLaws(records.State(), records.State(), records.State());
      SentNothing(outgoing, records.State(), mtu, transport.accepted);
      if shutdown {
        return -1, packets;
      }
      UpdateMtu(queried, noQuery);
      SentNothing(outgoing, records.State(), mtu, transport.accepted);
      FollowNone(old(Flight()), mtu);
      while written < |outgoing|
        invariant Valid() && SameKeys(records.State(), old(records.State())) && (InStep() <==> old(InStep()))
        invariant Sent(outgoing, old(records.State()), mtu, old(transport.accepted), transport.accepted, packets)
        invariant sent == old(sent) + AllPieces(packets)
        invariant willing ==> Follow(old(Flight()), mtu, packets) == Some(Flight())
        decreases |outgoing| - written, Left(outgoing, Place(written, offset))
      {
        ghost var before, accepted, st := records.State(), transport.accepted, Flight();
        ghost var packet;
        ret, packet := SendPacket(transport, willing);
        SameKeysLaws(records.State(), before, old(records.State()));
        if ret <= 0 {
          if willing {
            PlanStops(old(Flight()), mtu, packets, st);
          }
          return ret, packets;
        }
        if willing {
          FollowMore(old(Flight()), mtu, packets, st, packet.value);
        }
        SentOneMore(outgoing, old(records.State()), mtu, old(transport.accepted), accepted, packets, before, packet.value);
        packets := packets + [packet.value];
      }
      PlacedAtEnd(outgoing, Place(written, offset));
      if willing {
        PlanDone(old(Flight()), mtu, packets, Flight());
      }
      var flushed := transport.Flush(willing);
      if flushed <= 0 {
        return -1, packets;
      }
      ret := 1;
    }

    method FlushFlight(transport: Transport, queried: int, noQuery: bool, shutdown: bool, willing: bool)
      returns (ret: int, ghost packets: seq<Packet>)
      requires Valid()
      modifies this, records.Repr(), transport
      ensures Valid() && complete && outgoing == old(outgoing) && SameKeys(records.State(), old(records.State()))
      ensures Sent(outgoing, old(records.State()), mtu, old(transport.accepted), transport.accepted, packets)
      ensures sent == old(sent) + AllPieces(packets)
      ensures ret > 0 ==> (Walk(outgoing, Place(0, 0), sent) == Some(Place(|outgoing|, 0)) <==> old(InStep()))
      ensures shutdown ==> ret == -1 && packets == [] && Flight() == old(Flight())
      ensures !shutdown && willing ==>
        if ret == 1 then PlanSends(old(Flight()), mtu, packets) else ret == -1 && !PlanEnds(old(Flight()), mtu)
    {
      hide PlanSends, PlanEnds, NotBehind, Placed, SameKeys, Walk, Sent, AllPieces, RecordWriter.State, RecordWriter.Valid;
      complete := true;
      ret, packets := SendFlight(transport, queried, noQuery, shutdown, willing);
    }

    /** Sends the whole flight again, from its start and with whatever MTU is current. */
    method RetransmitFlight(transport: Transport, queried: int, noQuery: bool, shutdown: bool, willing: bool)
      returns (ret: int, ghost packets: seq<Packet>)
      requires Valid()
      modifies this, records.Repr(), transport
      ensures Valid() && outgoing == old(outgoing) && SameKeys(records.State(), old(records.State()))
      ensures Sent(outgoing, old(records.State()), mtu, old(transport.accepted), transport.accepted, packets)
      ensures sent == AllPieces(packets)
      ensures ret > 0 ==> Walk(outgoing, Place(0, 0), AllPieces(packets)) == Some(Place(|outgoing|, 0))
      ensures shutdown ==> ret == -1 && packets == [] && Flight() == old(Flight()).(written := 0, offset := 0)
      ensures !shutdown && willing ==>
        var st := old(Flight()).(written := 0, offset := 0);
        if ret == 1 then PlanSends(st, mtu, packets) else ret == -1 && !PlanEnds(st, mtu)
    {
      hide PlanSends, PlanEnds, SameKeys, Sent, RecordWriter.State, RecordWriter.Valid;
      written, offset := 0, 0;
      sent := [];
      ret, packets := SendFlight(transport, queried, noQuery, shutdown, willing);
    }

    /** One packet: sealed, offered to the transport, and rolled back if refused. */
    method SendPacket(transport: Transport, willing: bool) returns (ret: int, ghost packet: Option<Packet>)
      requires Valid() && written < |outgoing|
      modifies this`written, this`offset, this`sent, records.Repr(), transport
      ensures Valid() && SameKeys(records.State(), old(records.State()))
      ensures packet.Some? <==> ret > 0
      ensures var (last, planned) := old(Flight()).NextPacket(mtu);
        if planned.None? then ret == -1
        else ret == transport.answer && (willing ==> ret > 0) && (ret > 0 ==> packet == planned && Flight() == last)
      ensures packet.None? ==> transport.accepted == old(transport.accepted) && sent == old(sent)
      ensures InStep() <==> old(InStep()) && (ret > 0 || (written == old(written) && offset == old(offset)))
      ensures packet.Some? ==>
        && GoodPacket(outgoing, old(records.State()), mtu, packet.value)
        && transport.accepted == old(transport.accepted) + [Datagram(packet.value.records)]
        && sent == old(sent) + packet.value.pieces
        && Closer(outgoing, Place(old(written), old(offset)), Place(written, offset))
    {
      hide GoodPacket, Closer, Placed, SameKeys, Walk, FlightState.NextPacket;
      var oldWritten, oldOffset := written, offset;
      var datagram;
      datagram, packet := TakePacket();
      if datagram.None? {
        return -1, None;
      }
      ret := transport.Write(datagram.value, willing);
      if ret <= 0 {
        // Not one byte of the packet has left, so its place in the flight is taken back.
        written, offset := oldWritten, oldOffset;
        return ret, None;
      }
      WalkContinues(outgoing, sent, Place(oldWritten, oldOffset), packet.value.pieces);
      sent := sent + packet.value.pieces;
    }

    /** Seals the next packet; a failure leaves the position wherever sealing stopped. */
    method TakePacket() returns (datagram: Option<seq<byte>>, ghost packet: Option<Packet>)
      requires Valid() && written < |outgoing|
      modifies this`written, this`offset, records.Repr()
      ensures records.Valid() && SameKeys(records.State(), old(records.State()))
      ensures (Flight(), packet) == old(Flight()).NextPacket(mtu)
      ensures written <= |outgoing| && Placed(outgoing, Place(written, offset))
      ensures packet.Some? ==> packet.value.Valid()
      ensures datagram == if packet.None? then None else Some(Datagram(packet.value.records))
      ensures packet.None? ==>
        && (Place(written, offset) == Place(old(written), old(offset))
            <==> !old(Flight()).SealNext(mtu).1.SealSuccess?)
        && NotBehind(outgoing, sent, Place(written, offset))
        && (InStep() <==> old(InStep()) && Place(written, offset) == Place(old(written), old(offset)))
      ensures packet.Some? ==>
        && GoodPacket(outgoing, old(records.State()), mtu, packet.value)
        && packet.value.pieces != [] && (forall p | p in packet.value.pieces :: p.index < |outgoing|)
        && Walk(outgoing, Place(old(written), old(offset)), packet.value.pieces) == Some(Place(written, offset))
        && Closer(outgoing, Place(old(written), old(offset)), Place(written, offset))
    {
      hide FlightState.NextPacket, FlightState.FillPacket, FlightState.SealNext, Placed, GoodPacket, Closer, Walk, SameKeys;
      ghost var st := Flight();
      NextPacketFacts(st, mtu);
      datagram, packet := SealNextPacket(mtu);
      if datagram.None? {
        FailureMovesIff(st, mtu);
      }
    }
  }

  /** What was sent is pieces of the flight; as far as it is an initial part of it, the position is not before its end. */
  predicate NotBehind(msgs: seq<OutMsg>, sent: seq<Piece>, at: Place) {
    && (forall p | p in sent :: p.index < |msgs|)
    && var walked := Walk(msgs, Place(0, 0), sent);
       walked.None? || walked == Some(at) || Before(walked.value, at)
  }

  /** A packet within the MTU whose records carry their pieces. */
  ghost predicate GoodPacket(msgs: seq<OutMsg>, ws: WriteState, mtu: nat, packet: Packet) {
    packet.Valid() && PacketCarries(msgs, ws, packet) && |Datagram(packet.records)| <= mtu
  }

  lemma SameKeysLaws(a: WriteState, b: WriteState, c: WriteState)
    ensures SameKeys(a, a)
    ensures SameKeys(a, b) && SameKeys(b, c) ==> SameKeys(a, c)
  {
  }

  lemma GoodUnderSameKeys(msgs: seq<OutMsg>, a: WriteState, b: WriteState, mtu: nat, packet: Packet)
    requires GoodPacket(msgs, a, mtu, packet) && SameKeys(a, b) && b.Valid()
    ensures GoodPacket(msgs, b, mtu, packet)
  {
    forall k | 0 <= k < |packet.records| ensures Carries(msgs, b, packet.records[k], packet.pieces[k]) {
      assert Carries(msgs, a, packet.records[k], packet.pieces[k]);
    }
  }

  /** Sending gets closer to its end: fewer entries left, or fewer bytes of the current one. */
  predicate Closer(msgs: seq<OutMsg>, from: Place, to: Place) {
    from.index < to.index || (from.index == to.index && Left(msgs, to) < Left(msgs, from))
  }

  lemma NextPacketFacts(st: FlightState, mtu: nat)
    requires st.Valid() && st.written < |st.msgs| && Placed(st.msgs, PlaceOf(st))
    ensures var (last, packet) := st.NextPacket(mtu);
      && Placed(st.msgs, PlaceOf(last)) && SameKeys(last.ws, st.ws)
      && (packet.Some? ==>
            && GoodPacket(st.msgs, st.ws, mtu, packet.value)
            && packet.value.pieces != [] && (forall p | p in packet.value.pieces :: p.index < |st.msgs|)
            && Walk(st.msgs, PlaceOf(st), packet.value.pieces) == Some(PlaceOf(last))
            && Closer(st.msgs, PlaceOf(st), PlaceOf(last)))
  {
    hide FlightState.FillPacket, Placed, Carries;
    PlacedStays(st, mtu);
    FillCarries(st, mtu, st.ws);
    var (last, packet) := st.FillPacket(mtu);
    if packet.Some? {
      CarriedIndexes(st.msgs, st.ws, packet.value);
      PacketFits(st, mtu);
      PacketWalks(st, mtu);
      WalkAdvances(st.msgs, PlaceOf(st), packet.value.pieces);
    }
  }

  /** The transport accepted exactly the datagrams of these packets, in this order; all of them good. */
  ghost predicate Sent(msgs: seq<OutMsg>, ws: WriteState, mtu: nat, before: seq<seq<byte>>, after: seq<seq<byte>>,
                       packets: seq<Packet>)
  {
    && |after| == |before| + |packets| && before == after[..|before|]
    && forall i | 0 <= i < |packets| ::
         GoodPacket(msgs, ws, mtu, packets[i]) && after[|before| + i] == Datagram(packets[i].records)
  }

  // ---- the plan of a whole call ----

  /** The state behind these packets, if they are what comes next. */
  ghost function Follow(st: FlightState, mtu: nat, packets: seq<Packet>): Option<FlightState>
    decreases |packets|
  {
    if packets == [] then Some(st)
    else if st.Valid() && st.written < |st.msgs| && st.NextPacket(mtu).1 == Some(packets[0]) then
      Follow(st.NextPacket(mtu).0, mtu, packets[1..])
    else None
  }

  /** These packets are the whole rest of the flight: one after the other can be sealed, up to the end. */
  ghost predicate PlanSends(st: FlightState, mtu: nat, packets: seq<Packet>) {
    Follow(st, mtu, packets).Some? && Follow(st, mtu, packets).value.written == |st.msgs|
  }

  ghost predicate PlanEnds(st: FlightState, mtu: nat) {
    exists packets :: PlanSends(st, mtu, packets)
  }

  lemma FollowNone(st: FlightState, mtu: nat)
    ensures Follow(st, mtu, []) == Some(st)
  {
  }

  lemma {:induction false} FollowMore(st: FlightState, mtu: nat, packets: seq<Packet>, now: FlightState, p: Packet)
    requires Follow(st, mtu, packets) == Some(now) && now.Valid() && now.written < |now.msgs| && now.NextPacket(mtu).1 == Some(p)
    ensures Follow(st, mtu, packets + [p]) == Some(now.NextPacket(mtu).0)
    decreases |packets|
  {
    hide FlightState.NextPacket;
    if packets == [] {
      assert ([] + [p])[1..] == [];
    } else {
      assert (packets + [p])[1..] == packets[1..] + [p];
      FollowMore(st.NextPacket(mtu).0, mtu, packets[1..], now, p);
    }
  }

  lemma {:induction false} FollowKeeps(st: FlightState, mtu: nat, packets: seq<Packet>)
    requires Follow(st, mtu, packets).Some?
    ensures Follow(st, mtu, packets).value.msgs == st.msgs
    decreases |packets|
  {
    hide FlightState.NextPacket;
    if packets != [] {
      FollowKeeps(st.NextPacket(mtu).0, mtu, packets[1..]);
    }
  }

  lemma PlanDone(st: FlightState, mtu: nat, packets: seq<Packet>, now: FlightState)
    requires Follow(st, mtu, packets) == Some(now) && now.written == |now.msgs|
    ensures PlanSends(st, mtu, packets)
  {
    FollowKeeps(st, mtu, packets);
  }

  /** Where the next packet cannot be sealed, no packets lead to the end. */
  lemma PlanStops(st: FlightState, mtu: nat, packets: seq<Packet>, now: FlightState)
    requires Follow(st, mtu, packets) == Some(now) && now.Valid() && now.written < |now.msgs| && now.NextPacket(mtu).1.None?
    ensures !PlanEnds(st, mtu)
  {
    hide FlightState.NextPacket, Follow;
    forall others ensures !PlanSends(st, mtu, others) {
      NotToTheEnd(st, mtu, packets, now, others);
    }
  }

  lemma {:induction false} NotToTheEnd(st: FlightState, mtu: nat, packets: seq<Packet>, now: FlightState, others: seq<Packet>)
    requires Follow(st, mtu, packets) == Some(now) && now.Valid() && now.written < |now.msgs| && now.NextPacket(mtu).1.None?
    ensures !PlanSends(st, mtu, others)
    decreases |packets|
  {
    hide FlightState.NextPacket;
    FollowKeeps(st, mtu, packets);
    if packets != [] && others != [] {
      NotToTheEnd(st.NextPacket(mtu).0, mtu, packets[1..], now, others[1..]);
    }
  }

  lemma PlacedAtEnd(msgs: seq<OutMsg>, at: Place)
    requires Placed(msgs, at) && at.index == |msgs|
    ensures at == Place(|msgs|, 0)
  {
  }

  lemma SentNothing(msgs: seq<OutMsg>, ws: WriteState, mtu: nat, accepted: seq<seq<byte>>)
    ensures Sent(msgs, ws, mtu, accepted, accepted, []) && AllPieces([]) == []
  {
  }

  lemma SentOneMore(msgs: seq<OutMsg>, ws: WriteState, mtu: nat, before: seq<seq<byte>>, after: seq<seq<byte>>,
                    packets: seq<Packet>, now: WriteState, p: Packet)
    requires Sent(msgs, ws, mtu, before, after, packets) && GoodPacket(msgs, now, mtu, p)
    requires SameKeys(now, ws) && ws.Valid()
    ensures Sent(msgs, ws, mtu, before, after + [Datagram(p.records)], packets + [p])
    ensures AllPieces(packets + [p]) == AllPieces(packets) + p.pieces
  {
    hide GoodPacket;
    GoodUnderSameKeys(msgs, now, ws, mtu, p);
    assert (packets + [p])[..|packets|] == packets;
  }

  /** The pieces of some packets, in order. */
  ghost function AllPieces(packets: seq<Packet>): seq<Piece> {
    if packets == [] then [] else AllPieces(packets[..|packets| - 1]) + packets[|packets| - 1].pieces
  }

  /** The packet with one more record; the invariant of the filling loop moves on with it. */
  ghost function Extend(acc: Packet, record: WireRecord, piece: Piece, rest: (FlightState, Option<Packet>)): (r: Packet)
    requires acc.Valid() && record.Valid()
    ensures r.Valid() && r.records != [] && Datagram(r.records) == Datagram(acc.records) + record.Wire()
    ensures Prepend(acc, Prepend(Packet([record], [piece]), rest)) == Prepend(r, rest)
  {
    PrependOne(acc, record, piece, rest);
    DatagramOfConcat(acc.records, [record]);
    assert Datagram([record]) == record.Wire() by {
      assert [record][1..] == [];
    }
    Packet(acc.records + [record], acc.pieces + [piece])
  }

  lemma FillDone(st: FlightState, room: nat)
    requires st.Valid()
    ensures st.written == |st.msgs| ==> st.FillPacket(room) == (st, Some(EmptyPacket))
  {
  }

  lemma PrependEmpty(acc: Packet, st: FlightState)
    ensures Prepend(acc, (st, Some(EmptyPacket))) == (st, Some(acc))
  {
    assert acc.records + [] == acc.records && acc.pieces + [] == acc.pieces;
  }

  /** The filling of a packet, one entry at a time. */
  lemma FillStep(st: FlightState, room: nat)
    requires st.Valid() && st.written < |st.msgs|
    ensures var (next, result) := st.SealNext(room);
      && next.Valid() && next.msgs == st.msgs && next.written == st.written
      && match result
         case SealError => st.FillPacket(room) == (next, None)
         case NoProgress => next == st && st.FillPacket(room) == (st, Some(EmptyPacket))
         case SealPartial(record, piece) =>
           record.Valid()
           && st.FillPacket(room) == Prepend(Packet([record], [piece]), (next, Some(EmptyPacket)))
         case SealSuccess(record, piece) =>
           record.Valid() && |record.Wire()| <= room
           && st.FillPacket(room)
              == Prepend(Packet([record], [piece]), next.Step().FillPacket(room - |record.Wire()|))
  {
    hide FlightState.SealNext;
    var (next, result) := st.SealNext(room);
    if result.SealPartial? {
      PrependEmpty(Packet([result.record], [result.piece]), next);
    }
  }

  /** Adding an entry does not disturb what was already sent. */
  lemma {:induction false} LongerFlight(msgs: seq<OutMsg>, m: OutMsg, at: Place, pieces: seq<Piece>)
    requires forall p | p in pieces :: p.index < |msgs|
    ensures Walk(msgs + [m], at, pieces) == Walk(msgs, at, pieces)
    decreases |pieces|
  {
    if pieces != [] && After(msgs, at, pieces[0]).Some? {
      LongerFlight(msgs, m, After(msgs, at, pieces[0]).value, pieces[1..]);
    }
  }
}
