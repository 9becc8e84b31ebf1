/** Cutting a flight of handshake messages into packets: the plan as functions. */
module DtlsFlight {
  import opened Bytes
  import opened Handshake
  import opened DtlsRecord
  import opened DtlsSealing

  /** One entry of the outgoing flight, a serialized handshake message or a ChangeCipherSpec. */
  datatype OutMsg = OutMsg(data: seq<byte>, epoch: nat, isCcs: bool)
  {
    /** `data` is a handshake message serialized as a single fragment. */
    predicate WellFormed() {
      isCcs
      || (var p := ParseFragment(data);
          p.Parsed? && p.hdr.fragOff == 0 && p.hdr.msgLen == p.hdr.fragLen && p.rest == [])
    }

    function Hdr(): Handshake.Header
      requires WellFormed() && !isCcs
    {
      ParseFragment(data).hdr
    }

    function Body(): (b: seq<byte>)
      requires WellFormed()
    {
      if isCcs then [] else ParseFragment(data).body
    }
  }

  /** A piece of the flight: bytes [off, off + len) of message `index`, or the ChangeCipherSpec itself. */
  datatype Piece = Piece(index: nat, off: nat, len: nat)

  datatype SealResult =
    | SealError
    | NoProgress
    | SealPartial(record: WireRecord, piece: Piece)
    | SealSuccess(record: WireRecord, piece: Piece)

  const CCS_PAYLOAD: seq<byte> := [1]

  /** The header of a piece: the message's header with the fragment's offset and length. */
  function PieceHeader(m: OutMsg, off: nat, len: nat): (h: Handshake.Header)
    requires m.WellFormed() && !m.isCcs && off + len <= |m.Body()|
    ensures h.Valid()
  {
    Handshake.Header(m.Hdr().typ, m.Hdr().msgLen, m.Hdr().seqNo, off, len)
  }

  /** What goes into the record that carries a piece. */
  function PiecePayload(m: OutMsg, off: nat, len: nat): seq<byte>
    requires m.WellFormed() && off + len <= |m.Body()|
  {
    if m.isCcs then CCS_PAYLOAD
    else FragmentBytes(PieceHeader(m, off, len), m.Body()[off..off + len])
  }

  function PieceType(m: OutMsg): byte {
    if m.isCcs then CHANGE_CIPHER_SPEC else HANDSHAKE
  }

  /** The flight, how far it has been written, and the record layer below it. */
  datatype FlightState = FlightState(msgs: seq<OutMsg>, written: nat, offset: nat, ws: WriteState)
  {
    ghost predicate Valid() {
      ws.Valid() && written <= |msgs|
    }

    /** The next entry belongs to the epoch before the current one. */
    predicate UsesPrevious()
      requires written < |msgs|
    {
      ws.epoch >= 1 && msgs[written].epoch == ws.epoch - 1
    }

    /** Its data parses and the offset lies inside it. */
    predicate Readable()
      requires written < |msgs|
    {
      msgs[written].WellFormed() && offset <= |msgs[written].Body()|
    }

    /** How many body bytes of the next message fit. */
    function Todo(maxOut: nat): (todo: nat)
      requires written < |msgs| && Readable()
      requires maxOut >= HEADER_LENGTH + ws.Overhead(UsesPrevious())
      ensures offset + todo <= |msgs[written].Body()|
    {
      var left := |msgs[written].Body()| - offset;
      var room := maxOut - HEADER_LENGTH - ws.Overhead(UsesPrevious());
      if left > room then room else left
    }

    /** The ChangeCipherSpec, if there is room for it. */
    function SealCcs(maxOut: nat): (r: (FlightState, SealResult))
      requires Valid() && written < |msgs|
      ensures Sealed(maxOut, r)
    {
      var previous := UsesPrevious();
      if maxOut < 1 + ws.Overhead(previous) then (this, NoProgress)
      else
        var (ws', record) := ws.Seal(CHANGE_CIPHER_SPEC, CCS_PAYLOAD, previous, maxOut);
        (this.(ws := ws'), if record.None? then SealError else SealSuccess(record.value, Piece(written, 0, 0)))
    }

    /** As much of the next message as fits. */
    function SealFragment(maxOut: nat): (r: (FlightState, SealResult))
      requires Valid() && written < |msgs| && Readable()
      ensures Sealed(maxOut, r)
    {
      var m := msgs[written];
      var previous := UsesPrevious();
      if maxOut < HEADER_LENGTH + 1 + ws.Overhead(previous) || maxOut < ws.PrefixLen(previous) then (this, NoProgress)
      else
        var todo := Todo(maxOut);
        var (ws', record) := ws.Seal(HANDSHAKE, PiecePayload(m, offset, todo), previous, maxOut);
        var piece := Piece(written, offset, todo);
        if record.None? then (this.(ws := ws'), SealError)
        else if offset + todo == |m.Body()| then (this.(ws := ws', offset := 0), SealSuccess(record.value, piece))
        else (this.(ws := ws', offset := offset + todo), SealPartial(record.value, piece))
    }

    /** Seals the next entry, or as much of it as fits in `maxOut` bytes. */
    function SealNext(maxOut: nat): (r: (FlightState, SealResult))
      requires Valid() && written < |msgs|
      ensures Sealed(maxOut, r)
    {
      var m := msgs[written];
      if !UsesPrevious() && m.epoch != ws.epoch then (this, SealError)
      else if m.isCcs then SealCcs(maxOut)
      else if !Readable() then (this, SealError)
      else SealFragment(maxOut)
    }

    /** Sealing changes only the offset and the record layer, and the record fits. */
    ghost predicate Sealed(maxOut: nat, r: (FlightState, SealResult)) {
      && r.0.Valid() && r.0.msgs == msgs && r.0.written == written
      && (r.1.NoProgress? ==> r.0 == this)
      && (r.1.SealPartial? || r.1.SealSuccess? ==> r.1.record.Valid() && |r.1.record.Wire()| <= maxOut)
    }

    /** Moves on to the next entry. */
    function Step(): FlightState {
      this.(written := written + 1)
    }

    /** Fills one packet of at most `maxOut` bytes: the records and the pieces they carry; None on a sealing error. */
    function FillPacket(maxOut: nat): (r: (FlightState, Option<Packet>))
      requires Valid()
      ensures r.0.Valid() && r.0.msgs == msgs
      ensures r.1.Some? ==> |r.1.value.records| == |r.1.value.pieces| && r.1.value.Valid()
      decreases |msgs| - written
    {
      if written == |msgs| then (this, Some(EmptyPacket))
      else
        var (next, result) := SealNext(maxOut);
        match result
        case SealError => (next, None)
        case NoProgress => (next, Some(EmptyPacket))
        case SealPartial(record, piece) => (next, Some(Packet([record], [piece])))
        case SealSuccess(record, piece) =>
          var (last, more) := next.Step().FillPacket(maxOut - |record.Wire()|);
          (last, if more.None? then None
                 else Some(Packet([record] + more.value.records, [piece] + more.value.pieces)))
    }

    /** The next packet; None if sealing fails or the MTU is too small for any progress. */
    function NextPacket(maxOut: nat): (r: (FlightState, Option<Packet>))
      requires Valid() && written < |msgs|
      ensures r.0.Valid() && r.0.msgs == msgs
    {
      var (next, packet) := FillPacket(maxOut);
      (next, if packet.Some? && packet.value.records == [] then None else packet)
    }
  }

  /** A packet: its records, and which piece of the flight each one carries. */
  datatype Packet = Packet(records: seq<WireRecord>, pieces: seq<Piece>)
  {
    predicate Valid() {
      |records| == |pieces| && forall r | r in records :: r.Valid()
    }
  }

  const EmptyPacket := Packet([], [])

  /** The datagram of a packet. */
  function Datagram(records: seq<WireRecord>): seq<byte>
    requires forall r | r in records :: r.Valid()
  {
    if records == [] then [] else records[0].Wire() + Datagram(records[1..])
  }

  lemma {:induction false} DatagramOfConcat(a: seq<WireRecord>, b: seq<WireRecord>)
    requires forall r | r in a + b :: r.Valid()
    ensures (forall r | r in a :: r.Valid()) && (forall r | r in b :: r.Valid())
    ensures Datagram(a + b) == Datagram(a) + Datagram(b)
  {
    forall r | r in a ensures r.Valid() { assert r in a + b; }
    forall r | r in b ensures r.Valid() { assert r in a + b; }
    if a == [] {
      assert a + b == b;
    } else {
      assert (a + b)[1..] == a[1..] + b;
      DatagramOfConcat(a[1..], b);
    }
  }

  /** A packet never exceeds the room it was given. */
  lemma {:induction false} PacketFits(st: FlightState, maxOut: nat)
    requires st.Valid() && st.FillPacket(maxOut).1.Some?
    ensures |Datagram(st.FillPacket(maxOut).1.value.records)| <= maxOut
    decreases |st.msgs| - st.written
  {
    if st.written < |st.msgs| {
      var (next, result) := st.SealNext(maxOut);
      if result.SealSuccess? {
        var rest := next.Step().FillPacket(maxOut - |result.record.Wire()|).1.value.records;
        PacketFits(next.Step(), maxOut - |result.record.Wire()|);
        assert ([result.record] + rest)[1..] == rest;
      } else if result.SealPartial? {
        assert [result.record][1..] == [];
      }
    }
  }

  // ---- packets are full ----

  /** Not even one byte of the next entry, or its ChangeCipherSpec, goes into this room. */
  predicate NoRoom(st: FlightState, room: int)
    requires st.written < |st.msgs|
  {
    var overhead := st.ws.Overhead(st.UsesPrevious());
    if st.msgs[st.written].isCcs then room < overhead + 1
    else room < overhead + 12 + 1 || room < st.ws.PrefixLen(st.UsesPrevious())
  }

  /** Nothing goes out exactly when there is no room, and a fragment that does not end its message takes all of it. */
  lemma SealNextFills(st: FlightState, room: nat)
    requires st.Valid() && st.written < |st.msgs|
    ensures var (next, result) := st.SealNext(room);
      && (result.NoProgress? ==> NoRoom(st, room))
      && (result.SealPartial? || result.SealSuccess? ==> !NoRoom(st, room))
      && (result.SealPartial? ==>
            && next.ws.Overhead(next.UsesPrevious()) == st.ws.Overhead(st.UsesPrevious())
            && result.piece.len + 12 + st.ws.Overhead(st.UsesPrevious()) == room)
  {
    hide OutMsg.WellFormed, OutMsg.Body, PiecePayload, WriteState.Seal;
  }

  lemma DatagramOfMore(record: WireRecord, more: seq<WireRecord>, n: nat)
    requires n <= |more| && record.Valid() && forall r | r in more :: r.Valid()
    ensures forall r | r in ([record] + more)[..n + 1] :: r.Valid()
    ensures Datagram(([record] + more)[..n + 1]) == record.Wire() + Datagram(more[..n])
  {
    assert ([record] + more)[..n + 1] == [record] + more[..n];
    assert ([record] + more[..n])[1..] == more[..n];
  }

  /**
   * A packet ends with the flight, or because what is left has no room for any of the next entry, or with a fragment
   * that takes all the room that the records before it have left.
   */
  lemma {:induction false} PacketIsFull(st: FlightState, room: nat)
    requires st.Valid() && st.FillPacket(room).1.Some?
    ensures var (last, packet) := st.FillPacket(room); var records := packet.value.records; var n := |records|;
      || last.written == |last.msgs|
      || NoRoom(last, room - |Datagram(records)|)
      || (n > 0 && packet.value.pieces[n - 1].len + 12 + last.ws.Overhead(last.UsesPrevious()) == room - |Datagram(records[..n - 1])|)
    decreases |st.msgs| - st.written
  {
    hide FlightState.SealNext, FlightState.Sealed, NoRoom, Datagram;
    if st.written < |st.msgs| {
      var (next, result) := st.SealNext(room);
      SealNextFits(st, room);
      SealNextFills(st, room);
      NoDatagram();
      if result.SealSuccess? {
        var left := room - |result.record.Wire()|;
        PacketIsFull(next.Step(), left);
        var more := next.Step().FillPacket(left).1.value;
        var n := |more.records|;
        DatagramOfMore(result.record, more.records, n);
        assert ([result.record] + more.records)[..n + 1] == [result.record] + more.records && more.records[..n] == more.records;
        if n > 0 {
          DatagramOfMore(result.record, more.records, n - 1);
        }
      } else if result.SealPartial? {
        assert [result.record][..0] == [];
      }
    }
  }

  lemma NoDatagram()
    ensures Datagram([]) == []
  {
  }

  lemma SealNextFits(st: FlightState, room: nat)
    requires st.Valid() && st.written < |st.msgs|
    ensures var (next, result) := st.SealNext(room);
      && next.Valid() && next.written == st.written && next.msgs == st.msgs && (result.NoProgress? ==> next == st)
      && (result.SealPartial? || result.SealSuccess? ==> result.record.Valid() && |result.record.Wire()| <= room)
  {
    hide FlightState.SealNext;
  }

  // ---- pieces tile the flight ----

  /** A place in the flight: the next entry and how many bytes of it are done. */
  datatype Place = Place(index: nat, off: nat)

  /** The place after one piece, if the piece starts exactly there and makes progress. */
  function After(msgs: seq<OutMsg>, at: Place, piece: Piece): Option<Place> {
    if at.index >= |msgs| || !msgs[at.index].WellFormed() then None
    else
      var size := |msgs[at.index].Body()|;
      if piece.index != at.index || piece.off != at.off || at.off + piece.len > size then None
      else if at.off + piece.len == size then Some(Place(at.index + 1, 0))
      else if piece.len > 0 then Some(Place(at.index, at.off + piece.len))
      else None
  }

  function Walk(msgs: seq<OutMsg>, at: Place, pieces: seq<Piece>): Option<Place>
    decreases |pieces|
  {
    if pieces == [] then Some(at)
    else
      var next := After(msgs, at, pieces[0]);
      if next.None? then None else Walk(msgs, next.value, pieces[1..])
  }

  lemma {:induction false} WalkConcat(msgs: seq<OutMsg>, at: Place, a: seq<Piece>, b: seq<Piece>)
    requires Walk(msgs, at, a).Some?
    ensures Walk(msgs, at, a + b) == Walk(msgs, Walk(msgs, at, a).value, b)
    decreases |a|
  {
    if a == [] {
      assert a + b == b;
    } else {
      assert (a + b)[0] == a[0] && (a + b)[1..] == a[1..] + b;
      WalkConcat(msgs, After(msgs, at, a[0]).value, a[1..], b);
    }
  }

  lemma {:induction false} WalkConcatNone(msgs: seq<OutMsg>, at: Place, a: seq<Piece>, b: seq<Piece>)
    requires Walk(msgs, at, a).None?
    ensures Walk(msgs, at, a + b).None?
    decreases |a|
  {
    assert (a + b)[0] == a[0] && (a + b)[1..] == a[1..] + b;
    if After(msgs, at, a[0]).Some? {
      WalkConcatNone(msgs, After(msgs, at, a[0]).value, a[1..], b);
    }
  }

  /** Pieces that start at `from` continue what came before exactly when that ended there. */
  lemma WalkContinues(msgs: seq<OutMsg>, before: seq<Piece>, from: Place, more: seq<Piece>)
    requires more != [] && Walk(msgs, from, more).Some?
    ensures Walk(msgs, Place(0, 0), before + more)
         == if Walk(msgs, Place(0, 0), before) == Some(from) then Walk(msgs, from, more) else None
  {
    if Walk(msgs, Place(0, 0), before).None? {
      WalkConcatNone(msgs, Place(0, 0), before, more);
    } else {
      WalkConcat(msgs, Place(0, 0), before, more);
    }
  }

  /** A place inside (or at the end of) an entry. */
  predicate Within(msgs: seq<OutMsg>, at: Place) {
    at.index < |msgs| && msgs[at.index].WellFormed() && at.off <= |msgs[at.index].Body()|
  }

  /** The bytes left in the current entry. */
  function Left(msgs: seq<OutMsg>, at: Place): nat {
    if Within(msgs, at) then |msgs[at.index].Body()| - at.off else 0
  }

  /** The order of places in the flight. */
  predicate Before(a: Place, b: Place) {
    a.index < b.index || (a.index == b.index && a.off < b.off)
  }

  lemma {:induction false} WalkAdvances(msgs: seq<OutMsg>, at: Place, pieces: seq<Piece>)
    requires Walk(msgs, at, pieces).Some?
    ensures pieces != [] ==> Before(at, Walk(msgs, at, pieces).value)
    ensures at.index <= |msgs| ==> Walk(msgs, at, pieces).value.index <= |msgs|
    ensures var to := Walk(msgs, at, pieces).value;
      pieces != [] && to.index == at.index ==> Within(msgs, at) && Within(msgs, to)
    decreases |pieces|
  {
    if pieces != [] {
      WalkAdvances(msgs, After(msgs, at, pieces[0]).value, pieces[1..]);
    }
  }

  /** Where the sender stands. */
  function PlaceOf(st: FlightState): Place {
    Place(st.written, st.offset)
  }

  /** The offset applies to a handshake message, not to a ChangeCipherSpec or the end of the flight. */
  predicate Placed(msgs: seq<OutMsg>, at: Place) {
    at.index >= |msgs| || msgs[at.index].isCcs ==> at.off == 0
  }

  lemma SealNextStepsThere(st: FlightState, maxOut: nat)
    requires st.Valid() && Placed(st.msgs, PlaceOf(st)) && st.written < |st.msgs|
    ensures var (next, result) := st.SealNext(maxOut);
      && (result.SealPartial? ==> After(st.msgs, PlaceOf(st), result.piece) == Some(PlaceOf(next)))
      && (result.SealSuccess? ==>
            next.offset == 0 && After(st.msgs, PlaceOf(st), result.piece) == Some(PlaceOf(next.Step())))
  {
    hide OutMsg.WellFormed, OutMsg.Body, PiecePayload, WriteState.Seal;
    CcsHasNoBody(st.msgs[st.written]);
  }

  lemma CcsHasNoBody(m: OutMsg)
    ensures m.isCcs ==> m.WellFormed() && m.Body() == []
  {
  }

  lemma {:induction false} PlacedStays(st: FlightState, maxOut: nat)
    requires st.Valid() && Placed(st.msgs, PlaceOf(st))
    ensures Placed(st.msgs, PlaceOf(st.FillPacket(maxOut).0))
    decreases |st.msgs| - st.written
  {
    if st.written < |st.msgs| {
      var (next, result) := st.SealNext(maxOut);
      SealNextStepsThere(st, maxOut);
      if result.SealSuccess? {
        PlacedStays(next.Step(), maxOut - |result.record.Wire()|);
      }
    }
  }

  /** The record is what the epoch's cipher made of the piece's payload. */
  ghost predicate Carries(msgs: seq<OutMsg>, ws: WriteState, record: WireRecord, piece: Piece) {
    && ws.Valid() && record.Valid()
    && piece.index < |msgs| && msgs[piece.index].WellFormed()
    && piece.off + piece.len <= |msgs[piece.index].Body()|
    && record.typ == PieceType(msgs[piece.index]) && record.version == ws.cipher.version
    && record.epoch == msgs[piece.index].epoch && (record.epoch == ws.epoch || record.epoch + 1 == ws.epoch)
    && var aead := ws.CipherOf(record.epoch != ws.epoch);
       Some(record.body) == aead.Seal(record.typ, record.version, record.Sequence(),
                                      PiecePayload(msgs[piece.index], piece.off, piece.len))
  }

  /** The same epochs and ciphers; the counters may differ. */
  ghost predicate SameKeys(a: WriteState, b: WriteState) {
    a.epoch == b.epoch && a.cipher == b.cipher && a.lastCipher == b.lastCipher
  }

  ghost predicate PacketCarries(msgs: seq<OutMsg>, ws: WriteState, packet: Packet) {
    && |packet.records| == |packet.pieces|
    && forall k | 0 <= k < |packet.records| :: Carries(msgs, ws, packet.records[k], packet.pieces[k])
  }

  lemma SealCcsCarries(st: FlightState, maxOut: nat)
    requires st.Valid() && st.written < |st.msgs| && Placed(st.msgs, PlaceOf(st))
    requires st.msgs[st.written].isCcs && (st.UsesPrevious() || st.msgs[st.written].epoch == st.ws.epoch)
    ensures var (next, result) := st.SealCcs(maxOut);
      && SameKeys(next.ws, st.ws) && !result.SealPartial?
      && (result.SealSuccess? ==> Carries(st.msgs, st.ws, result.record, result.piece))
  {
  }

  lemma SealFragmentCarries(st: FlightState, maxOut: nat)
    requires st.Valid() && st.written < |st.msgs| && st.Readable()
    requires !st.msgs[st.written].isCcs && (st.UsesPrevious() || st.msgs[st.written].epoch == st.ws.epoch)
    ensures var (next, result) := st.SealFragment(maxOut);
      && SameKeys(next.ws, st.ws)
      && (result.SealPartial? || result.SealSuccess? ==> Carries(st.msgs, st.ws, result.record, result.piece))
  {
    hide OutMsg.WellFormed, OutMsg.Body, PiecePayload;
  }

  lemma SealNextCarries(st: FlightState, maxOut: nat, ws: WriteState)
    requires st.Valid() && st.written < |st.msgs| && Placed(st.msgs, PlaceOf(st)) && ws.Valid() && SameKeys(st.ws, ws)
    ensures var (next, result) := st.SealNext(maxOut);
      && SameKeys(next.ws, ws)
      && (result.SealPartial? || result.SealSuccess? ==> Carries(st.msgs, ws, result.record, result.piece))
  {
    hide FlightState.SealCcs, FlightState.SealFragment;
    var m := st.msgs[st.written];
    if st.UsesPrevious() || m.epoch == st.ws.epoch {
      if m.isCcs {
        SealCcsCarries(st, maxOut);
      } else if st.Readable() {
        SealFragmentCarries(st, maxOut);
      }
    }
  }

  lemma OneMoreCarried(msgs: seq<OutMsg>, ws: WriteState, record: WireRecord, piece: Piece, rest: Packet)
    requires Carries(msgs, ws, record, piece) && PacketCarries(msgs, ws, rest)
    ensures PacketCarries(msgs, ws, Packet([record] + rest.records, [piece] + rest.pieces))
  {
  }

  lemma CarriedIndexes(msgs: seq<OutMsg>, ws: WriteState, packet: Packet)
    requires PacketCarries(msgs, ws, packet)
    ensures forall p | p in packet.pieces :: p.index < |msgs|
  {
    forall k | 0 <= k < |packet.pieces| ensures packet.pieces[k].index < |msgs| {
      assert Carries(msgs, ws, packet.records[k], packet.pieces[k]);
    }
  }

  lemma {:induction false} FillCarries(st: FlightState, maxOut: nat, ws: WriteState)
    requires st.Valid() && Placed(st.msgs, PlaceOf(st)) && ws.Valid() && SameKeys(st.ws, ws)
    ensures var (last, packet) := st.FillPacket(maxOut);
      SameKeys(last.ws, ws) && (packet.Some? ==> PacketCarries(st.msgs, ws, packet.value))
    decreases |st.msgs| - st.written
  {
    hide Carries, FlightState.SealNext;
    if st.written < |st.msgs| {
      var (next, result) := st.SealNext(maxOut);
      SealNextStepsThere(st, maxOut);
      SealNextCarries(st, maxOut, ws);
      if result.SealSuccess? {
        var room := maxOut - |result.record.Wire()|;
        FillCarries(next.Step(), room, ws);
        var more := next.Step().FillPacket(room).1;
        if more.Some? {
          OneMoreCarried(st.msgs, ws, result.record, result.piece, more.value);
        }
      }
    }
  }

  /** A packet carries the flight from where the sender stood to where it stands now, with no gap and no overlap. */
  lemma {:induction false} PacketWalks(st: FlightState, maxOut: nat)
    requires st.Valid() && Placed(st.msgs, PlaceOf(st)) && st.FillPacket(maxOut).1.Some?
    ensures var (last, packet) := st.FillPacket(maxOut);
      Placed(st.msgs, PlaceOf(last)) && Walk(st.msgs, PlaceOf(st), packet.value.pieces) == Some(PlaceOf(last))
    decreases |st.msgs| - st.written
  {
    if st.written < |st.msgs| {
      var (next, result) := st.SealNext(maxOut);
      SealNextStepsThere(st, maxOut);
      if result.SealSuccess? {
        PacketWalks(next.Step(), maxOut - |result.record.Wire()|);
        var more := next.Step().FillPacket(maxOut - |result.record.Wire()|).1.value;
        assert ([result.piece] + more.pieces)[1..] == more.pieces;
      } else if result.SealPartial? {
        assert [result.piece][1..] == [];
      }
    }
  }

  /** The bytes of message `i` that the pieces carry, in order. */
  function Carried(msgs: seq<OutMsg>, pieces: seq<Piece>, i: nat): seq<byte>
    requires i < |msgs| && msgs[i].WellFormed()
  {
    if pieces == [] then []
    else
      var p := pieces[0];
      (if p.index == i && p.off + p.len <= |msgs[i].Body()| then msgs[i].Body()[p.off..p.off + p.len] else [])
      + Carried(msgs, pieces[1..], i)
  }

  /** How much of message `i` lies before a place. */
  function DoneAt(msgs: seq<OutMsg>, at: Place, i: nat): nat
    requires i < |msgs| && msgs[i].WellFormed()
  {
    if i < at.index then |msgs[i].Body()| else if i == at.index then at.off else 0
  }

  lemma StepCarries(msgs: seq<OutMsg>, at: Place, p: Piece, i: nat)
    requires After(msgs, at, p).Some?
    requires i < |msgs| && msgs[i].WellFormed() && DoneAt(msgs, at, i) <= |msgs[i].Body()|
    ensures var a, b := DoneAt(msgs, at, i), DoneAt(msgs, After(msgs, at, p).value, i);
      && a <= b <= |msgs[i].Body()|
      && (if p.index == i then p.off == a && p.off + p.len == b else a == b)
  {
  }

  lemma {:induction false} WalkCarries(msgs: seq<OutMsg>, at: Place, pieces: seq<Piece>, i: nat)
    requires Walk(msgs, at, pieces).Some?
    requires i < |msgs| && msgs[i].WellFormed() && DoneAt(msgs, at, i) <= |msgs[i].Body()|
    ensures var to := Walk(msgs, at, pieces).value;
      && DoneAt(msgs, at, i) <= DoneAt(msgs, to, i) <= |msgs[i].Body()|
      && Carried(msgs, pieces, i) == msgs[i].Body()[DoneAt(msgs, at, i)..DoneAt(msgs, to, i)]
    decreases |pieces|
  {
    hide After, DoneAt, OutMsg.WellFormed, OutMsg.Body;
    if pieces != [] {
      var next := After(msgs, at, pieces[0]).value;
      StepCarries(msgs, at, pieces[0], i);
      WalkCarries(msgs, next, pieces[1..], i);
    }
  }

  /** A walk over the whole flight carries every message exactly once: the pieces tile it. */
  lemma FlightTiled(msgs: seq<OutMsg>, pieces: seq<Piece>, i: nat)
    requires Walk(msgs, Place(0, 0), pieces) == Some(Place(|msgs|, 0))
    requires i < |msgs| && msgs[i].WellFormed()
    ensures Carried(msgs, pieces, i) == msgs[i].Body()
    ensures exists k | 0 <= k < |pieces| :: pieces[k].index == i
  {
    WalkCarries(msgs, Place(0, 0), pieces, i);
    WalkVisits(msgs, Place(0, 0), pieces, i);
  }

  lemma {:induction false} WalkVisits(msgs: seq<OutMsg>, at: Place, pieces: seq<Piece>, i: nat)
    requires Walk(msgs, at, pieces).Some? && at.index <= i < Walk(msgs, at, pieces).value.index
    ensures exists k | 0 <= k < |pieces| :: pieces[k].index == i
    decreases |pieces|
  {
    if pieces[0].index != i {
      WalkVisits(msgs, After(msgs, at, pieces[0]).value, pieces[1..], i);
      var k :| 0 <= k < |pieces[1..]| && pieces[1..][k].index == i;
      assert pieces[k + 1].index == i;
    }
  }

  // ---- when sealing fails ----

  lemma {:induction false} FillGoesForward(st: FlightState, maxOut: nat)
    requires st.Valid()
    ensures st.FillPacket(maxOut).0.written >= st.written
    decreases |st.msgs| - st.written
  {
    hide FlightState.SealCcs, FlightState.SealFragment;
    if st.written < |st.msgs| {
      var (next, result) := st.SealNext(maxOut);
      if result.SealSuccess? {
        FillGoesForward(next.Step(), maxOut - |result.record.Wire()|);
      }
    }
  }

  /** A packet that fails leaves the position as it was exactly when not even its first entry could be sealed whole. */
  lemma FailureMovesIff(st: FlightState, maxOut: nat)
    requires st.Valid() && st.written < |st.msgs| && st.NextPacket(maxOut).1.None?
    ensures var last := st.NextPacket(maxOut).0;
      && (PlaceOf(last) == PlaceOf(st) <==> !st.SealNext(maxOut).1.SealSuccess?)
      && (PlaceOf(last) == PlaceOf(st) || Before(PlaceOf(st), PlaceOf(last)))
  {
    var (next, result) := st.SealNext(maxOut);
    if result.SealSuccess? {
      FillGoesForward(next.Step(), maxOut - |result.record.Wire()|);
    }
  }

  /**
   * A flight of which a part is never sent: the last sequence number but one goes to the first message, the
   * second cannot be sealed, the packet is lost, and sending resumes behind the first message.
   */
  lemma FailureLosesMessage()
    ensures exists st: FlightState, mtu: nat | st.Valid() && st.written == 0 < |st.msgs| :: (
      var (moved, failed) := st.NextPacket(mtu);
      failed.None? && 0 < moved.written < |st.msgs| && moved.Valid()
      && moved.NextPacket(mtu).1.Some? && moved.NextPacket(mtu).0.written == |st.msgs|)
  {
    var m0 := EmptyMessage(0);
    var m1 := EmptyMessage(1);
    var ws := WriteState(0, SEQ_LIMIT - 2, 0, NullWrite(0xfeff), NullWrite(0xfeff));
    var st := FlightState([m0, m1], 0, 0, ws);
    PacketStops(st);
    var moved := st.NextPacket(228).0;
    assert moved == FlightState([m0, m1], 1, 0, ws.(seqNum := 0));
    PacketEnds(moved);
  }

  lemma EmptyMessage(seqNo: nat) returns (m: OutMsg)
    requires seqNo < 0x1_0000
    ensures !m.isCcs && m.epoch == 0 && m.WellFormed() && m.Body() == []
  {
    var h := Handshake.Header(1, 0, seqNo, 0, 0);
    m := OutMsg(FragmentBytes(h, []), 0, false);
    ParseEncoded(h, [], []);
    assert m.data + [] == m.data;
  }

  ghost predicate SendsEmpty(st: FlightState) {
    && st.Valid() && st.written < |st.msgs| && st.offset == 0 && st.ws.epoch == 0 && st.ws.cipher.NullWrite?
    && !st.msgs[st.written].isCcs && st.msgs[st.written].epoch == 0
    && st.msgs[st.written].WellFormed() && st.msgs[st.written].Body() == []
  }

  lemma PacketStops(st: FlightState)
    requires SendsEmpty(st) && st.ws.seqNum + 2 == SEQ_LIMIT && SendsEmpty(st.Step())
    ensures st.NextPacket(228) == (st.Step().(ws := st.ws.(seqNum := 0)), None)
  {
    hide FlightState.SealNext, OutMsg.WellFormed, OutMsg.Body;
    EmptyMessageSealed(st, 228);
    LastNumberFails(st.SealNext(228).0.Step(), 203);
  }

  lemma PacketEnds(st: FlightState)
    requires SendsEmpty(st) && st.ws.seqNum + 1 < SEQ_LIMIT && st.written + 1 == |st.msgs|
    ensures st.NextPacket(228).1.Some? && st.NextPacket(228).0.written == |st.msgs|
  {
    hide FlightState.SealNext, OutMsg.WellFormed, OutMsg.Body;
    EmptyMessageSealed(st, 228);
    var done := st.SealNext(228).0.Step();
    assert done.FillPacket(203) == (done, Some(EmptyPacket));
  }

  /** An empty message needs only its header. */
  lemma EmptyPayload(m: OutMsg)
    requires m.WellFormed() && !m.isCcs && m.Body() == []
    ensures |PiecePayload(m, 0, 0)| == HEADER_LENGTH
  {
  }

  lemma SealEmpty(st: FlightState, maxOut: nat)
    requires SendsEmpty(st) && maxOut >= 40
    ensures st.SealNext(maxOut) == st.SealFragment(maxOut) && st.Readable() && !st.UsesPrevious()
    ensures var m := st.msgs[st.written]; var (ws', record) := st.ws.Seal(HANDSHAKE, PiecePayload(m, 0, 0), false, maxOut);
      st.SealFragment(maxOut) ==
        if record.None? then (st.(ws := ws'), SealError)
        else (st.(ws := ws', offset := 0), SealSuccess(record.value, Piece(st.written, 0, 0)))
  {
    hide OutMsg.WellFormed, OutMsg.Body, OutMsg.Hdr, PiecePayload, WriteState.Seal;
  }

  lemma PlainSeal(ws: WriteState, payload: seq<byte>, maxOut: nat)
    requires ws.Valid() && ws.epoch == 0 && ws.cipher.NullWrite? && |payload| == HEADER_LENGTH && maxOut >= 40
    ensures var (next, record) := ws.Seal(HANDSHAKE, payload, false, maxOut);
      && next == ws.(seqNum := (ws.seqNum + 1) % SEQ_LIMIT)
      && (record.Some? <==> ws.seqNum + 1 < SEQ_LIMIT) && (record.Some? ==> record.value.body == payload)
  {
    hide WireRecord.Sequence;
  }

  lemma EmptyMessageSealed(st: FlightState, maxOut: nat)
    requires SendsEmpty(st) && st.ws.seqNum + 1 < SEQ_LIMIT && maxOut >= 40
    ensures var (next, result) := st.SealNext(maxOut);
      result.SealSuccess? && |result.record.Wire()| == 25 && next == st.(ws := st.ws.(seqNum := st.ws.seqNum + 1))
  {
    hide OutMsg.WellFormed, OutMsg.Body, OutMsg.Hdr, PiecePayload, WriteState.Seal, FlightState.SealNext,
      FlightState.SealFragment;
    SealEmpty(st, maxOut);
    EmptyPayload(st.msgs[st.written]);
    PlainSeal(st.ws, PiecePayload(st.msgs[st.written], 0, 0), maxOut);
  }

  lemma LastNumberFails(st: FlightState, maxOut: nat)
    requires SendsEmpty(st) && st.ws.seqNum + 1 == SEQ_LIMIT && maxOut >= 40
    ensures st.FillPacket(maxOut) == (st.(ws := st.ws.(seqNum := 0)), None)
  {
    hide OutMsg.WellFormed, OutMsg.Body, OutMsg.Hdr, PiecePayload, WriteState.Seal, FlightState.SealNext,
      FlightState.SealFragment;
    SealEmpty(st, maxOut);
    EmptyPayload(st.msgs[st.written]);
    PlainSeal(st.ws, PiecePayload(st.msgs[st.written], 0, 0), maxOut);
  }

  // ---- numbers ----

  /** The number of a record. */
  function NumberOf(r: WireRecord): (nat, nat) {
    (r.epoch, r.seqNum)
  }

  /** Within an epoch, numbers go up along the records. */
  predicate Ascending(records: seq<WireRecord>) {
    forall i, j | 0 <= i < j < |records| && records[i].epoch == records[j].epoch :: records[i].seqNum < records[j].seqNum
  }

  /** The records of a packet take numbers that were free before, in order, and that are spent afterwards. */
  predicate TakesNumbers(before: WriteState, after: WriteState, records: seq<WireRecord>) {
    && before.GrowsTo(after) && Ascending(records)
    && forall k | 0 <= k < |records| :: !before.Spent(NumberOf(records[k])) && after.Spent(NumberOf(records[k]))
  }

  lemma SealTakesNumber(ws: WriteState, typ: byte, plaintext: seq<byte>, previous: bool, maxOut: nat)
    requires ws.Valid() && (previous ==> ws.epoch >= 1)
    ensures var (next, record) := ws.Seal(typ, plaintext, previous, maxOut);
      record.Some? ==> TakesNumbers(ws, next, [record.value])
  {
    hide WriteCipher.Seal, WireRecord.Sequence;
  }

  lemma SealNextNumber(st: FlightState, maxOut: nat)
    requires st.Valid() && st.written < |st.msgs|
    ensures var (next, result) := st.SealNext(maxOut);
      && (result.SealPartial? || result.SealSuccess? ==> TakesNumbers(st.ws, next.ws, [result.record]))
  {
    hide OutMsg.WellFormed, OutMsg.Body, PiecePayload, WriteState.Seal, TakesNumbers;
    var previous := st.UsesPrevious();
    SealTakesNumber(st.ws, CHANGE_CIPHER_SPEC, CCS_PAYLOAD, previous, maxOut);
    if st.Readable() && maxOut >= HEADER_LENGTH + st.ws.Overhead(previous) {
      SealTakesNumber(st.ws, HANDSHAKE, PiecePayload(st.msgs[st.written], st.offset, st.Todo(maxOut)), previous, maxOut);
    }
  }

  lemma NumbersJoin(a: WriteState, b: WriteState, c: WriteState, record: WireRecord, more: seq<WireRecord>)
    requires TakesNumbers(a, b, [record]) && TakesNumbers(b, c, more)
    ensures TakesNumbers(a, c, [record] + more)
  {
    forall k | 0 <= k < |more| ensures !a.Spent(NumberOf(more[k])) && (more[k].epoch == record.epoch ==> record.seqNum < more[k].seqNum) {
      assert !b.Spent(NumberOf(more[k]));
      assert b.Spent(NumberOf([record][0])) && !a.Spent(NumberOf([record][0]));
    }
    assert c.Spent(NumberOf(record)) by {
      assert b.Spent(NumberOf([record][0]));
    }
  }

  lemma {:induction false} FillNumbers(st: FlightState, maxOut: nat)
    requires st.Valid() && st.FillPacket(maxOut).1.Some?
    ensures var (last, packet) := st.FillPacket(maxOut); TakesNumbers(st.ws, last.ws, packet.value.records)
    decreases |st.msgs| - st.written
  {
    hide FlightState.SealNext, TakesNumbers;
    NoNumbers(st.ws);
    if st.written < |st.msgs| {
      var (next, result) := st.SealNext(maxOut);
      SealNextNumber(st, maxOut);
      if result.SealSuccess? {
        var room := maxOut - |result.record.Wire()|;
        FillNumbers(next.Step(), room);
        var (last, more) := next.Step().FillPacket(room);
        NumbersJoin(st.ws, next.ws, last.ws, result.record, more.value.records);
      }
    }
  }

  lemma NoNumbers(ws: WriteState)
    ensures TakesNumbers(ws, ws, [])
  {
  }
}
