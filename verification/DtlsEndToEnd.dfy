/** End to end: sender, lossy network and receiver as one state machine, and what holds in all its runs. */
module DtlsEndToEnd {
  import opened Bytes
  import opened Handshake
  import opened ReplayWindow
  import opened DtlsReceiver
  import opened DtlsRecord
  import opened DtlsReader
  import opened DtlsSealing
  import opened DtlsFlight
  import opened DtlsSender
  import opened DtlsNetwork

  // ---- what the sender puts on the wire is genuine ----

  /** Epoch 0 is not encrypted, and records carry a DTLS version. */
  ghost predicate PlainKeys(ws: WriteState) {
    && ws.Valid() && ws.cipher.version / 256 == VERSION_MAJOR
    && (ws.epoch == 0 ==> ws.cipher.NullWrite?) && (ws.epoch == 1 ==> ws.lastCipher.NullWrite?)
  }

  function ItemOf(fl: PlainFlight, p: Piece): Item
    requires fl.Valid()
  {
    if p.index < fl.plain then Fragment(p)
    else if p.index < |fl.msgs| && fl.msgs[p.index].epoch == 0 then ChangeCipher
    else OtherEpoch
  }

  function FlyingOf(fl: PlainFlight, packet: Packet): (r: seq<Flying>)
    requires fl.Valid() && |packet.records| == |packet.pieces|
    ensures |r| == |packet.records|
  {
    seq(|packet.records|, i requires 0 <= i < |packet.records| =>
      Flying(packet.records[i], ItemOf(fl, packet.pieces[i])))
  }

  lemma CarriedIsGenuine(fl: PlainFlight, ws: WriteState, record: WireRecord, piece: Piece)
    requires fl.Valid() && PlainKeys(ws) && Carries(fl.msgs, ws, record, piece)
    ensures Genuine(fl, Flying(record, ItemOf(fl, piece)))
  {
    if piece.index < fl.plain {
      assert fl.IsPlain(piece.index);
    }
  }

  lemma {:induction false} RecordWithinDatagram(records: seq<WireRecord>, i: nat)
    requires i < |records| && forall r | r in records :: r.Valid()
    ensures |records[i].Wire()| <= |Datagram(records)|
  {
    if i > 0 {
      RecordWithinDatagram(records[1..], i - 1);
    }
  }

  /** No record is larger than the packet it is in. */
  predicate WithinMtu(mtu: nat, x: Flying) {
    x.record.Valid() && |x.record.Wire()| <= mtu
  }

  /** Everything the transport accepts is genuine and within the MTU, and its bytes are the packet's datagram. */
  lemma GoodIsGenuine(fl: PlainFlight, ws: WriteState, mtu: nat, packet: Packet)
    requires fl.Valid() && PlainKeys(ws) && GoodPacket(fl.msgs, ws, mtu, packet)
    ensures AllGenuine(fl, FlyingOf(fl, packet)) && AllValid(FlyingOf(fl, packet))
    ensures forall x | x in FlyingOf(fl, packet) :: Genuine(fl, x) && WithinMtu(mtu, x)
    ensures WireOf(FlyingOf(fl, packet)) == Datagram(packet.records)
  {
    hide PlainFlight.Valid, Genuine, PlainKeys, WireRecord.Wire;
    var xs := FlyingOf(fl, packet);
    forall i | 0 <= i < |xs| ensures Genuine(fl, xs[i]) && WithinMtu(mtu, xs[i]) {
      RecordWithinDatagram(packet.records, i);
      assert Carries(fl.msgs, ws, packet.records[i], packet.pieces[i]);
      CarriedIsGenuine(fl, ws, packet.records[i], packet.pieces[i]);
    }
    SameBytes(xs, packet.records);
  }

  lemma {:induction false} SameBytes(xs: seq<Flying>, records: seq<WireRecord>)
    requires AllValid(xs) && |xs| == |records|
    requires forall r | r in records :: r.Valid()
    requires forall i | 0 <= i < |xs| :: xs[i].record == records[i]
    ensures WireOf(xs) == Datagram(records)
  {
    if xs != [] {
      SameBytes(xs[1..], records[1..]);
    }
  }

  // ---- the state machine ----

  /**
   * The sender and whether one of its counters has wrapped, the largest MTU used, the network, and the receiver
   * with the datagram it is reading and the messages it has handed out.
   * Beside them, what has happened: every record that was ever sent, those the receiver has dealt with (`heard`),
   * the plaintext numbers among them that came in time (`got`), those of which the fragment came while the wrap
   * of the message number lay between it and the message to read (`across`), and the bytes counted. Plaintext
   * numbers of this flight start at `first`.
   */
  datatype Net = Net(st: FlightState, wrapped: bool, maxMtu: nat, wire: set<seq<Flying>>, log: set<Flying>,
                     reader: ReaderState, pending: seq<Flying>, out: seq<Message>,
                     first: nat, heard: set<Flying>, got: set<nat>, across: set<nat>, arr: Arrivals)

  ghost predicate Init(fl: PlainFlight, n: Net)
    requires fl.Valid()
  {
    && n.st.Valid() && n.st.msgs == fl.msgs && PlaceOf(n.st) == Place(0, 0) && PlainKeys(n.st.ws)
    && !n.wrapped && n.wire == {} && n.log == {}
    && Plaintext(n.reader.rec) && !n.reader.hasMessage && WindowIs(n.reader.rec.window, n.got)
    && n.reader.ring == Ring(seq(MAX_FLIGHT, _ => None), fl.base)
    && n.pending == [] && n.out == [] && n.heard == {} && n.across == {} && n.arr == Arrivals({}, {})
    && (forall g | g in n.got :: g < n.first) && (forall k: nat | k < n.first :: n.st.ws.Spent((0, k)))
  }

  /** The state after the transport has accepted the next packet. */
  ghost function Accepted(fl: PlainFlight, n: Net, mtu: nat): Net
    requires fl.Valid() && n.st.Valid() && n.st.written < |n.st.msgs| && n.st.NextPacket(mtu).1.Some?
  {
    var (last, packet) := n.st.NextPacket(mtu);
    FillShape(n.st, mtu);
    var xs := FlyingOf(fl, packet.value);
    n.(st := last, maxMtu := if mtu > n.maxMtu then mtu else n.maxMtu,
       wire := n.wire + {xs}, log := n.log + set x | x in xs)
  }

  lemma FillShape(st: FlightState, mtu: nat)
    requires st.Valid() && st.written < |st.msgs|
    ensures var packet := st.NextPacket(mtu).1; packet.Some? ==> |packet.value.records| == |packet.value.pieces|
  {
  }

  /** The sender makes the next packet with any MTU; the transport accepts or refuses it, or sealing fails. */
  ghost predicate SendsWith(fl: PlainFlight, n: Net, n': Net, mtu: nat)
    requires fl.Valid()
  {
    && n.st.Valid() && n.st.written < |n.st.msgs|
    && var (last, packet) := n.st.NextPacket(mtu);
       if packet.None? then n' == n.(st := last, wrapped := n.wrapped || !n.st.ws.GrowsTo(last.ws))
       else n' == Accepted(fl, n, mtu) || n' == n.(st := n.st.(ws := last.ws))
  }

  ghost predicate Sends(fl: PlainFlight, n: Net, n': Net)
    requires fl.Valid()
  {
    exists mtu: nat :: SendsWith(fl, n, n', mtu)
  }

  ghost function Restarted(n: Net): Net {
    n.(st := n.st.(written := 0, offset := 0))
  }

  /** The whole flight is to be sent again. */
  ghost predicate Restarts(n: Net, n': Net) {
    n' == Restarted(n)
  }

  /** The sender changes its keys; what it sends in the previous epoch still goes out under the previous ones. */
  ghost predicate Rekeys(n: Net, n': Net) {
    exists next: WriteCipher ::
      && next.Valid() && next.version / 256 == VERSION_MAJOR && n.st.ws.epoch < 0xffff
      && n' == n.(st := n.st.(ws := n.st.ws.NextEpoch(next)))
  }

  /** The network delivers a datagram it has; it may do so again, and in any order, or never. */
  ghost predicate Delivers(n: Net, n': Net) {
    n.pending == [] && exists d :: d in n.wire && n' == n.(pending := d)
  }

  /** What is left of a datagram of which so many bytes have been consumed. */
  ghost function Behind(xs: seq<Flying>, consumed: nat): seq<Flying>
    requires AllValid(xs)
  {
    if xs == [] || consumed < |xs[0].record.Wire()| then xs else Behind(xs[1..], consumed - |xs[0].record.Wire()|)
  }

  /** What has happened once a record has been dealt with, decided by the record and by what came before it. */
  ghost function Heard(fl: PlainFlight, n: Net, x: Flying): Net {
    if |x.record.body| > MAX_ENCRYPTED_LENGTH then n
    else if !NewRecord(n.got, x) then n.(heard := n.heard + {x})
    else n.(heard := n.heard + {x}, got := n.got + {x.record.seqNum},
            across := if WrapBetween(fl, |n.out|, x) then n.across + {x.record.seqNum} else n.across,
            arr := Counted(fl, |n.out|, n.arr, x.item))
  }

  /** The wrap of the message number lies between the message to read and the fragment's, which is unread. */
  ghost predicate WrapBetween(fl: PlainFlight, o: nat, x: Flying) {
    x.item.Fragment? && o <= x.item.piece.index && fl.Wrapped(o) != fl.Wrapped(x.item.piece.index)
  }

  /** The receiver opens the next record of the datagram. */
  ghost function AfterOpen(fl: PlainFlight, n: Net): Net
    requires n.reader.Valid() && n.pending != [] && AllValid(n.pending)
  {
    var (reader, _, consumed) := n.reader.OpenHandshake(fl.maxLen, WireOf(n.pending));
    Heard(fl, n, n.pending[0]).(reader := reader, pending := Behind(n.pending, consumed))
  }

  ghost predicate Fails(fl: PlainFlight, n: Net)
    requires n.reader.Valid() && n.pending != [] && AllValid(n.pending)
  {
    n.reader.OpenHandshake(fl.maxLen, WireOf(n.pending)).1.Failed?
  }

  /** A receiver that fails does not go on. */
  ghost predicate Opens(fl: PlainFlight, n: Net, n': Net) {
    n.reader.Valid() && n.pending != [] && AllValid(n.pending) && !Fails(fl, n) && n' == AfterOpen(fl, n)
  }

  /** The application takes the current message and moves on. */
  ghost function Taken(n: Net): Net
    requires n.reader.Valid() && n.reader.ring.Current().Some?
  {
    n.(reader := n.reader.(ring := n.reader.ring.Next(), hasMessage := false),
       out := n.out + [n.reader.ring.Current().value])
  }

  ghost predicate Takes(n: Net, n': Net) {
    n.reader.Valid() && n.reader.ring.Current().Some? && n' == Taken(n)
  }

  ghost predicate Step(fl: PlainFlight, n: Net, n': Net)
    requires fl.Valid()
  {
    Sends(fl, n, n') || Restarts(n, n') || Rekeys(n, n') || Delivers(n, n') || Opens(fl, n, n') || Takes(n, n')
  }

  /** A run from an initial state. */
  ghost predicate Run(fl: PlainFlight, trace: seq<Net>)
    requires fl.Valid()
  {
    && trace != [] && Init(fl, trace[0])
    && forall i | 0 <= i < |trace| - 1 :: Step(fl, trace[i], trace[i + 1])
  }

  // ---- the invariant ----

  /** What the application has got is an initial part of the flight, message by message. */
  predicate Delivered(fl: PlainFlight, out: seq<Message>)
    requires fl.Valid()
  {
    |out| <= fl.plain && forall i | 0 <= i < |out| :: out[i] == fl.Expected(i)
  }

  /** All bytes of the piece have been counted. */
  predicate Has(arr: Arrivals, p: Piece) {
    p.index in arr.seen && forall k | p.off <= k < p.off + p.len :: (p.index, k) in arr.bytes
  }

  /** Its number was 64 or more behind whenever it came. */
  predicate Late(got: set<nat>, x: Flying) {
    x.record.seqNum !in got && !InTime(got, x.record.seqNum)
  }

  ghost predicate SenderOk(fl: PlainFlight, n: Net) {
    n.st.Valid() && n.st.msgs == fl.msgs && Placed(fl.msgs, PlaceOf(n.st)) && PlainKeys(n.st.ws)
  }

  ghost predicate WireOk(fl: PlainFlight, n: Net)
    requires fl.Valid()
  {
    && (forall d, x | d in n.wire && x in d :: x in n.log) && (forall x | x in n.pending :: x in n.log)
    && (forall x | x in n.heard :: x in n.log)
    && (forall x | x in n.log :: Genuine(fl, x) && WithinMtu(n.maxMtu, x))
  }

  /** A number stands for one record, and belongs to the past of the sender. */
  ghost predicate NumbersOk(n: Net) {
    && (forall x | x in n.log :: n.st.ws.Spent(NumberOf(x.record)) && (x.record.epoch == 0 ==> x.record.seqNum >= n.first))
    && (forall x, y | x in n.log && y in n.log && NumberOf(x.record) == NumberOf(y.record) :: x == y)
    && (forall g | g in n.got :: n.st.ws.Spent((0, g)))
    && (forall k: nat | k < n.first :: n.st.ws.Spent((0, k)))
  }

  ghost predicate ReaderOk(fl: PlainFlight, n: Net)
    requires fl.Valid()
  {
    && n.reader.Valid() && Plaintext(n.reader.rec) && WindowIs(n.reader.rec.window, n.got)
    && Delivered(fl, n.out) && RingMatches(fl, |n.out|, n.arr, n.reader.ring)
  }

  /** A plaintext number that came in time is of an earlier flight, or of a record that was dealt with. */
  ghost predicate GotHeard(n: Net) {
    forall g | g in n.got && g >= n.first :: exists y :: y in n.heard && NumberOf(y.record) == (0, g)
  }

  /** A fragment dealt with: its message was read, its bytes were counted, it was late, or it came across the wrap. */
  ghost predicate Dealt(n: Net, x: Flying) {
    x.item.Fragment? ==>
      || x.item.piece.index < |n.out| || Has(n.arr, x.item.piece) || Late(n.got, x) || x.record.seqNum in n.across
  }

  /** It was dealt with, and came neither late nor across the wrap. */
  ghost predicate Brought(n: Net, x: Flying) {
    && x in n.heard && x.item.Fragment? && x.record.seqNum in n.got && x.record.seqNum !in n.across
  }

  /** It brought a fragment of message `j`. */
  ghost predicate BroughtFor(n: Net, x: Flying, j: nat) {
    Brought(n, x) && x.item.piece.index == j
  }

  /** It brought a byte of a message. */
  ghost predicate BroughtByte(n: Net, x: Flying, b: (nat, nat)) {
    Brought(n, x) && Carrying(x.item.piece, b)
  }

  ghost predicate SourceOk(n: Net) {
    && n.across <= n.got
    && (forall j | j in n.arr.seen :: exists x :: BroughtFor(n, x, j))
    && (forall b | b in n.arr.bytes :: ByteBrought(n, b))
  }

  ghost predicate ByteBrought(n: Net, b: (nat, nat)) {
    exists x :: BroughtByte(n, x, b)
  }

  predicate Carrying(p: Piece, b: (nat, nat)) {
    p.index == b.0 && p.off <= b.1 < p.off + p.len
  }

  ghost predicate Inv(fl: PlainFlight, n: Net)
    requires fl.Valid()
  {
    && SenderOk(fl, n) && WireOk(fl, n) && ReaderOk(fl, n) && SourceOk(n)
    && (fl.base + fl.plain <= 0x1_0000 ==> n.across == {})
    && (!n.wrapped ==> NumbersOk(n) && GotHeard(n) && forall x | x in n.heard :: Dealt(n, x))
  }

  // ---- every step keeps it ----

  lemma InitInv(fl: PlainFlight, n: Net)
    requires fl.Valid() && Init(fl, n)
    ensures Inv(fl, n)
  {
  }

  lemma SpentGrows(a: WriteState, b: WriteState, pair: (nat, nat))
    requires a.GrowsTo(b) && a.Spent(pair)
    ensures b.Spent(pair)
  {
  }

  lemma SameKeysPlain(a: WriteState, b: WriteState)
    requires PlainKeys(a) && SameKeys(b, a) && b.Valid()
    ensures PlainKeys(b)
  {
  }

  lemma SenderMoves(fl: PlainFlight, n: Net, mtu: nat)
    requires SenderOk(fl, n) && n.st.written < |n.st.msgs|
    ensures var (last, packet) := n.st.NextPacket(mtu);
      && last.Valid() && last.msgs == fl.msgs && Placed(fl.msgs, PlaceOf(last)) && PlainKeys(last.ws)
      && PlainKeys(n.st.ws) && Placed(fl.msgs, PlaceOf(n.st))
      && (packet.Some? ==>
            && GoodPacket(fl.msgs, n.st.ws, mtu, packet.value)
            && TakesNumbers(n.st.ws, last.ws, packet.value.records))
  {
    hide FlightState.FillPacket, Placed, PlainKeys, TakesNumbers, GoodPacket;
    NextPacketFacts(n.st, mtu);
    SameKeysPlain(n.st.ws, n.st.NextPacket(mtu).0.ws);
    if n.st.FillPacket(mtu).1.Some? {
      FillNumbers(n.st, mtu);
    }
  }

  /** Numbers stay spent and single when the counters only grow. */
  lemma NumbersGrow(n: Net, n': Net)
    requires NumbersOk(n) && n.st.ws.GrowsTo(n'.st.ws) && n'.log == n.log && n'.got == n.got && n'.first == n.first
    ensures NumbersOk(n')
  {
    hide WriteState.Spent, WriteState.GrowsTo;
    forall pair | n.st.ws.Spent(pair) ensures n'.st.ws.Spent(pair) {
      SpentGrows(n.st.ws, n'.st.ws, pair);
    }
  }

  /** The records of a new packet have numbers of their own. */
  lemma NumbersJoinLog(n: Net, xs: seq<Flying>, records: seq<WireRecord>, n': Net)
    requires NumbersOk(n) && TakesNumbers(n.st.ws, n'.st.ws, records)
    requires |xs| == |records| && forall i | 0 <= i < |xs| :: xs[i].record == records[i]
    requires n'.log == (n.log + set x | x in xs) && n'.got == n.got && n'.first == n.first
    ensures NumbersOk(n')
  {
    hide WriteState.Spent, WriteState.GrowsTo;
    forall pair | n.st.ws.Spent(pair) ensures n'.st.ws.Spent(pair) {
      SpentGrows(n.st.ws, n'.st.ws, pair);
    }
    forall i | 0 <= i < |xs|
      ensures n'.st.ws.Spent(NumberOf(xs[i].record)) && !n.st.ws.Spent(NumberOf(xs[i].record))
      ensures xs[i].record.epoch == 0 ==> xs[i].record.seqNum >= n.first
    {
      assert n'.st.ws.Spent(NumberOf(records[i])) && !n.st.ws.Spent(NumberOf(records[i]));
    }
    forall i, j | 0 <= i < |xs| && 0 <= j < |xs| && NumberOf(xs[i].record) == NumberOf(xs[j].record) ensures i == j {
      assert records[i].epoch == records[j].epoch && records[i].seqNum == records[j].seqNum;
    }
  }

  lemma WireGrows(fl: PlainFlight, n: Net, xs: seq<Flying>, mtu: nat, n': Net)
    requires fl.Valid() && WireOk(fl, n) && forall x | x in xs :: Genuine(fl, x) && WithinMtu(mtu, x)
    requires n'.wire == n.wire + {xs} && n'.log == (n.log + set x | x in xs) && n'.pending == n.pending && n'.heard == n.heard
    requires n'.maxMtu >= mtu && n'.maxMtu >= n.maxMtu
    ensures WireOk(fl, n')
  {
    hide PlainFlight.Valid, Genuine, WireRecord.Wire, WireRecord.Valid;
  }

  lemma AcceptedInv(fl: PlainFlight, n: Net, mtu: nat)
    requires fl.Valid() && Inv(fl, n) && n.st.written < |n.st.msgs| && n.st.NextPacket(mtu).1.Some?
    ensures Inv(fl, Accepted(fl, n, mtu))
  {
    hide PlainFlight.Valid, ReaderOk, WireOk, NumbersOk, Dealt, Brought, PlainKeys, Placed, GoodPacket, FlightState.NextPacket,
      TakesNumbers, Genuine, WithinMtu, GotHeard, SourceOk;
    SenderMoves(fl, n, mtu);
    var (last, packet) := n.st.NextPacket(mtu);
    FillShape(n.st, mtu);
    var xs := FlyingOf(fl, packet.value);
    var n' := Accepted(fl, n, mtu);
    GoodIsGenuine(fl, n.st.ws, mtu, packet.value);
    WireGrows(fl, n, xs, mtu, n');
    if !n.wrapped {
      NumbersJoinLog(n, xs, packet.value.records, n');
    }
    Unchanged(fl, n, n');
  }

  /** Steps of the sender leave the rest of the invariant alone. */
  lemma Unchanged(fl: PlainFlight, n: Net, n': Net)
    requires fl.Valid() && n'.reader == n.reader && n'.out == n.out && n'.heard == n.heard && n'.got == n.got
    requires n'.across == n.across && n'.arr == n.arr && n'.first == n.first
    ensures ReaderOk(fl, n) ==> ReaderOk(fl, n')
    ensures SourceOk(n) ==> SourceOk(n')
    ensures GotHeard(n) ==> GotHeard(n')
    ensures forall x :: Dealt(n, x) ==> Dealt(n', x)
  {
    hide RingMatches, Delivered;
    SameBrought(n, n');
  }

  lemma SameBrought(n: Net, n': Net)
    requires n'.heard == n.heard && n'.got == n.got && n'.across == n.across && n'.arr == n.arr
    ensures SourceOk(n) ==> SourceOk(n')
  {
    forall x, j ensures BroughtFor(n, x, j) <==> BroughtFor(n', x, j) {
    }
    forall x, b ensures BroughtByte(n, x, b) <==> BroughtByte(n', x, b) {
    }
  }

  lemma SendInv(fl: PlainFlight, n: Net, n': Net, mtu: nat)
    requires fl.Valid() && Inv(fl, n) && SendsWith(fl, n, n', mtu)
    ensures Inv(fl, n')
  {
    hide PlainFlight.Valid, ReaderOk, NumbersOk, Dealt, PlainKeys, Placed, GoodPacket, FlightState.NextPacket,
      TakesNumbers, Genuine, WithinMtu, GotHeard, SourceOk, Accepted;
    SenderMoves(fl, n, mtu);
    var (last, packet) := n.st.NextPacket(mtu);
    if packet.Some? && n' == Accepted(fl, n, mtu) {
      AcceptedInv(fl, n, mtu);
    } else {
      Unchanged(fl, n, n');
      if packet.Some? {
        TakesGrows(n.st.ws, last.ws, packet.value.records);
      }
      if !n'.wrapped {
        NumbersGrow(n, n');
      }
    }
  }

  lemma TakesGrows(a: WriteState, b: WriteState, records: seq<WireRecord>)
    requires TakesNumbers(a, b, records)
    ensures a.GrowsTo(b)
  {
  }

  lemma RestartInv(fl: PlainFlight, n: Net, n': Net)
    requires fl.Valid() && Inv(fl, n) && Restarts(n, n')
    ensures Inv(fl, n')
  {
    hide PlainFlight.Valid, ReaderOk, NumbersOk, Dealt, PlainKeys, Genuine, WithinMtu, GotHeard, SourceOk;
    Unchanged(fl, n, n');
    if !n.wrapped {
      NumbersGrow(n, n');
    }
  }

  lemma RekeyNumbers(n: Net, n': Net, next: WriteCipher)
    requires NumbersOk(n) && n.st.ws.epoch < 0xffff && n'.st.ws == n.st.ws.NextEpoch(next)
    requires n'.log == n.log && n'.got == n.got && n'.first == n.first
    ensures NumbersOk(n')
  {
    hide WriteState.Spent;
    forall pair | n.st.ws.Spent(pair) ensures n'.st.ws.Spent(pair) {
      RekeySpent(n.st.ws, next, pair);
    }
  }

  lemma RekeySpent(ws: WriteState, next: WriteCipher, pair: (nat, nat))
    requires ws.epoch < 0xffff && ws.Spent(pair)
    ensures ws.NextEpoch(next).Spent(pair)
  {
  }

  lemma RekeyInv(fl: PlainFlight, n: Net, n': Net)
    requires fl.Valid() && Inv(fl, n) && Rekeys(n, n')
    ensures Inv(fl, n')
  {
    hide PlainFlight.Valid, ReaderOk, NumbersOk, Dealt, Genuine, WithinMtu, GotHeard, SourceOk;
    Unchanged(fl, n, n');
    var next: WriteCipher :|
      && next.Valid() && next.version / 256 == VERSION_MAJOR && n.st.ws.epoch < 0xffff
      && n' == n.(st := n.st.(ws := n.st.ws.NextEpoch(next)));
    if !n.wrapped {
      RekeyNumbers(n, n', next);
    }
  }

  lemma DeliverInv(fl: PlainFlight, n: Net, n': Net)
    requires fl.Valid() && Inv(fl, n) && Delivers(n, n')
    ensures Inv(fl, n')
  {
    hide PlainFlight.Valid, ReaderOk, Dealt, PlainKeys, Genuine, WithinMtu, GotHeard, SourceOk;
    Unchanged(fl, n, n');
  }

  lemma {:induction false} BehindIsTail(xs: seq<Flying>, consumed: nat)
    requires AllValid(xs)
    ensures AllValid(Behind(xs, consumed)) && forall x | x in Behind(xs, consumed) :: x in xs
    ensures |Behind(xs, consumed)| <= |xs|
    decreases |xs|
  {
    if xs != [] && consumed >= |xs[0].record.Wire()| {
      BehindIsTail(xs[1..], consumed - |xs[0].record.Wire()|);
    }
  }

  lemma {:induction false} BehindAll(xs: seq<Flying>)
    requires AllValid(xs)
    ensures Behind(xs, |WireOf(xs)|) == []
    decreases |xs|
  {
    if xs != [] {
      BehindAll(xs[1..]);
    }
  }

  lemma BehindFirst(xs: seq<Flying>)
    requires AllValid(xs) && xs != []
    ensures Behind(xs, |xs[0].record.Wire()|) == xs[1..]
  {
  }

  // ---- what opening changes ----

  lemma PendingGenuine(fl: PlainFlight, n: Net)
    requires fl.Valid() && WireOk(fl, n)
    ensures AllGenuine(fl, n.pending) && AllValid(n.pending)
  {
    hide PlainFlight.Valid;
    forall i | 0 <= i < |n.pending| ensures Genuine(fl, n.pending[i]) {
      assert n.pending[i] in n.log;
    }
  }

  lemma OpenReader(fl: PlainFlight, n: Net)
    requires fl.Valid() && WireOk(fl, n) && ReaderOk(fl, n) && n.pending != []
    ensures n.reader.Valid() && AllValid(n.pending)
    ensures !Fails(fl, n) ==> ReaderOk(fl, AfterOpen(fl, n))
  {
    hide PlainFlight.Valid, RingMatches, Genuine, ReaderState.OpenHandshake, WindowIs, NewRecord, Counted, Delivered,
      WireRecord.Wire;
    PendingGenuine(fl, n);
    OpenGenuine(fl, |n.out|, n.arr, n.got, n.reader, n.pending);
  }

  lemma OpenWire(fl: PlainFlight, n: Net)
    requires fl.Valid() && WireOk(fl, n) && n.reader.Valid() && n.pending != [] && AllValid(n.pending)
    ensures WireOk(fl, AfterOpen(fl, n))
  {
    hide PlainFlight.Valid, Genuine, ReaderState.OpenHandshake, NewRecord, Counted, WithinMtu, Behind;
    BehindIsTail(n.pending, n.reader.OpenHandshake(fl.maxLen, WireOf(n.pending)).2);
  }

  lemma HeardNumbers(fl: PlainFlight, n: Net, x: Flying)
    requires NumbersOk(n) && GotHeard(n) && x in n.log
    ensures NumbersOk(Heard(fl, n, x)) && GotHeard(Heard(fl, n, x))
  {
    hide WriteState.Spent, IsNew, Counted, WrapBetween;
    var n' := Heard(fl, n, x);
    forall g | g in n'.got && g >= n'.first ensures exists y :: y in n'.heard && NumberOf(y.record) == (0, g) {
      if g in n.got {
        var y :| y in n.heard && NumberOf(y.record) == (0, g);
        assert y in n'.heard;
      } else {
        assert x in n'.heard && NumberOf(x.record) == (0, g);
      }
    }
  }

  lemma CountedGrows(fl: PlainFlight, o: nat, arr: Arrivals, item: Item, p: Piece)
    requires Has(arr, p)
    ensures Has(Counted(fl, o, arr, item), p)
  {
  }

  lemma AddedHas(arr: Arrivals, p: Piece)
    ensures Has(arr.Add(p), p)
  {
  }

  /** What was dealt with stays so. */
  lemma DealtStays(fl: PlainFlight, n: Net, x: Flying, y: Flying)
    requires Dealt(n, y)
    ensures Dealt(Heard(fl, n, x), y)
  {
    hide Counted, WrapBetween, Has;
    if y.item.Fragment? && Has(n.arr, y.item.piece) {
      CountedGrows(fl, |n.out|, n.arr, x.item, y.item.piece);
    }
  }

  /** A record is dealt with when it has been opened, for the first time or again. */
  lemma DealtNow(fl: PlainFlight, n: Net, x: Flying)
    requires fl.Valid() && NumbersOk(n) && GotHeard(n) && (forall y | y in n.heard :: Dealt(n, y))
    requires x in n.log && Genuine(fl, x) && forall y | y in n.heard :: y in n.log
    ensures x in Heard(fl, n, x).heard ==> Dealt(Heard(fl, n, x), x)
  {
    hide PlainFlight.Valid, WriteState.Spent, PlainFlight.Wrapped, InTime, Arrivals.Add, Has;
    if x.item.Fragment? && |x.record.body| <= MAX_ENCRYPTED_LENGTH {
      if NewRecord(n.got, x) {
        AddedHas(n.arr, x.item.piece);
      } else if x.record.seqNum in n.got {
        var y :| y in n.heard && NumberOf(y.record) == (0, x.record.seqNum);
        assert y == x;
        DealtStays(fl, n, x, x);
      }
    }
  }

  lemma AllDealt(fl: PlainFlight, n: Net, x: Flying)
    requires fl.Valid() && NumbersOk(n) && GotHeard(n) && (forall y | y in n.heard :: Dealt(n, y))
    requires x in n.log && Genuine(fl, x) && forall y | y in n.heard :: y in n.log
    ensures forall y | y in Heard(fl, n, x).heard :: Dealt(Heard(fl, n, x), y)
  {
    hide PlainFlight.Valid, Genuine, NumbersOk, GotHeard, Dealt, NewRecord, WrapBetween, Counted;
    forall y | y in Heard(fl, n, x).heard ensures Dealt(Heard(fl, n, x), y) {
      if y in n.heard {
        DealtStays(fl, n, x, y);
      } else {
        DealtNow(fl, n, x);
      }
    }
  }

  lemma BroughtStays(fl: PlainFlight, n: Net, x: Flying, y: Flying)
    requires n.across <= n.got && Brought(n, y)
    ensures Brought(Heard(fl, n, x), y)
  {
    hide Counted, WrapBetween, InTime;
  }

  /** A fragment that is counted has been brought. */
  lemma BroughtNow(fl: PlainFlight, n: Net, x: Flying)
    requires n.across <= n.got && |x.record.body| <= MAX_ENCRYPTED_LENGTH && NewRecord(n.got, x)
    requires x.item.Fragment? && Counts(fl, |n.out|, x.item.piece.index)
    ensures Brought(Heard(fl, n, x), x) && Heard(fl, n, x).arr == n.arr.Add(x.item.piece)
  {
    hide PlainFlight.Wrapped, InTime, Arrivals.Add;
  }

  lemma BroughtForStays(fl: PlainFlight, n: Net, x: Flying, j: nat)
    requires n.across <= n.got && exists y :: BroughtFor(n, y, j)
    ensures exists y :: BroughtFor(Heard(fl, n, x), y, j)
  {
    hide Heard, Brought;
    var y :| BroughtFor(n, y, j);
    BroughtStays(fl, n, x, y);
    SomeFragment(n, y);
    assert BroughtFor(Heard(fl, n, x), y, j);
  }

  lemma BroughtByteStays(fl: PlainFlight, n: Net, x: Flying, b: (nat, nat))
    requires n.across <= n.got && exists y :: BroughtByte(n, y, b)
    ensures exists y :: BroughtByte(Heard(fl, n, x), y, b)
  {
    hide Heard, Brought, Carrying;
    var y :| BroughtByte(n, y, b);
    BroughtStays(fl, n, x, y);
    SomeFragment(n, y);
    assert BroughtByte(Heard(fl, n, x), y, b);
  }

  lemma SomeFragment(n: Net, y: Flying)
    requires Brought(n, y)
    ensures y.item.Fragment?
  {
  }

  lemma HeardSource(fl: PlainFlight, n: Net, x: Flying)
    requires SourceOk(n)
    ensures SourceOk(Heard(fl, n, x))
  {
    hide Brought, WrapBetween, IsNew, PlainFlight.Wrapped, BroughtFor, BroughtByte, Arrivals.Add;
    var n' := Heard(fl, n, x);
    forall j | j in n'.arr.seen ensures exists y :: BroughtFor(n', y, j) {
      if j in n.arr.seen {
        BroughtForStays(fl, n, x, j);
      } else {
        NewSource(fl, n, x, j);
      }
    }
    forall b | b in n'.arr.bytes ensures ByteBrought(n', b) {
      if b in n.arr.bytes {
        BroughtByteStays(fl, n, x, b);
      } else {
        NewByteSource(fl, n, x, b);
      }
    }
  }

  lemma NewSource(fl: PlainFlight, n: Net, x: Flying, j: nat)
    requires n.across <= n.got && j in Heard(fl, n, x).arr.seen && j !in n.arr.seen
    ensures BroughtFor(Heard(fl, n, x), x, j)
  {
    hide InTime, PlainFlight.Wrapped;
    BroughtNow(fl, n, x);
  }

  lemma NewByteSource(fl: PlainFlight, n: Net, x: Flying, b: (nat, nat))
    requires n.across <= n.got && b in Heard(fl, n, x).arr.bytes && b !in n.arr.bytes
    ensures BroughtByte(Heard(fl, n, x), x, b)
  {
    hide InTime, PlainFlight.Wrapped, Carrying;
    BroughtNow(fl, n, x);
    AddedBytes(n.arr, x.item.piece, b);
  }

  lemma AddedBytes(arr: Arrivals, p: Piece, b: (nat, nat))
    requires b in arr.Add(p).bytes && b !in arr.bytes
    ensures Carrying(p, b)
  {
  }

  lemma NeverAcross(fl: PlainFlight, n: Net, x: Flying)
    requires fl.Valid() && Genuine(fl, x) && fl.base + fl.plain <= 0x1_0000
    ensures Heard(fl, n, x).across == n.across
  {
  }

  lemma OpenInv(fl: PlainFlight, n: Net)
    requires fl.Valid() && Inv(fl, n) && n.pending != []
    ensures n.reader.Valid() && AllValid(n.pending)
    ensures !Fails(fl, n) ==> Inv(fl, AfterOpen(fl, n))
  {
    hide PlainFlight.Valid, ReaderState.OpenHandshake, Genuine, WithinMtu, Counted, NewRecord, WrapBetween, Behind, ReaderOk,
      NumbersOk, GotHeard, Dealt, SourceOk, PlainKeys, Placed;
    OpenReader(fl, n);
    OpenWire(fl, n);
    var x := n.pending[0];
    assert x in n.log;
    var h, n' := Heard(fl, n, x), AfterOpen(fl, n);
    HeardSource(fl, n, x);
    OnlyReader(h, n');
    if fl.base + fl.plain <= 0x1_0000 {
      NeverAcross(fl, n, x);
    }
    if !n.wrapped {
      HeardNumbers(fl, n, x);
      AllDealt(fl, n, x);
    }
  }

  lemma OnlyReader(h: Net, n': Net)
    requires n' == h.(reader := n'.reader, pending := n'.pending)
    ensures SourceOk(h) ==> SourceOk(n')
    ensures GotHeard(h) ==> GotHeard(n')
    ensures NumbersOk(h) ==> NumbersOk(n')
    ensures forall x :: Dealt(h, x) ==> Dealt(n', x)
  {
    hide WriteState.Spent;
    SameBrought(h, n');
  }

  lemma TakeReader(fl: PlainFlight, n: Net)
    requires fl.Valid() && ReaderOk(fl, n) && n.reader.ring.Current().Some?
    ensures ReaderOk(fl, Taken(n)) && |n.out| < fl.plain
  {
    hide PlainFlight.Valid, RingMatches, Ring.Current, Ring.Next, PlainFlight.Expected, WindowIs;
    CurrentIsExpected(fl, |n.out|, n.arr, n.reader.ring);
    NextMatches(fl, |n.out|, n.arr, n.reader.ring);
  }

  lemma TakeInv(fl: PlainFlight, n: Net)
    requires fl.Valid() && Inv(fl, n) && n.reader.Valid() && n.reader.ring.Current().Some?
    ensures Inv(fl, Taken(n))
  {
    hide PlainFlight.Valid, ReaderOk, NumbersOk, Genuine, WithinMtu, PlainKeys, Placed, Ring.Current, Ring.Next, Has, Late;
    TakeReader(fl, n);
    var n' := Taken(n);
    SameBrought(n, n');
    assert NumbersOk(n) ==> NumbersOk(n') by {
      OnlyTaken(n);
    }
  }

  lemma OnlyTaken(n: Net)
    requires n.reader.Valid() && n.reader.ring.Current().Some?
    ensures NumbersOk(n) ==> NumbersOk(Taken(n))
  {
    hide WriteState.Spent, Ring.Current, Ring.Next;
  }

  lemma StepInv(fl: PlainFlight, n: Net, n': Net)
    requires fl.Valid() && Inv(fl, n) && Step(fl, n, n')
    ensures Inv(fl, n')
  {
    hide PlainFlight.Valid, Inv, SendsWith, Restarts, Rekeys, Delivers, AfterOpen, Taken, Fails, Ring.Current, WireOf;
    if Sends(fl, n, n') {
      var mtu: nat :| SendsWith(fl, n, n', mtu);
      SendInv(fl, n, n', mtu);
    } else if Restarts(n, n') {
      RestartInv(fl, n, n');
    } else if Rekeys(n, n') {
      RekeyInv(fl, n, n');
    } else if Delivers(n, n') {
      DeliverInv(fl, n, n');
    } else if Opens(fl, n, n') {
      OpenInv(fl, n);
    } else {
      TakeInv(fl, n);
    }
  }

  lemma {:induction false} RunInv(fl: PlainFlight, trace: seq<Net>, i: nat)
    requires fl.Valid() && Run(fl, trace) && i < |trace|
    ensures Inv(fl, trace[i])
  {
    hide PlainFlight.Valid, Inv, Init, Step;
    if i == 0 {
      InitInv(fl, trace[0]);
    } else {
      RunInv(fl, trace, i - 1);
      StepInv(fl, trace[i - 1], trace[i - 1 + 1]);
    }
  }

  // ---- the theorems ----

  /** In every run, whatever is handed out is an in-order prefix of the flight, raw bytes included. */
  lemma DeliveredExactly(fl: PlainFlight, trace: seq<Net>, i: nat)
    requires fl.Valid() && Run(fl, trace) && i < |trace|
    ensures Delivered(fl, trace[i].out)
  {
    RunInv(fl, trace, i);
  }

  /** Until a counter wraps, a number on the wire stands for one record. */
  lemma NumberDeterminesRecord(fl: PlainFlight, trace: seq<Net>, i: nat, d: seq<Flying>, e: seq<Flying>, x: Flying, y: Flying)
    requires fl.Valid() && Run(fl, trace) && i < |trace| && !trace[i].wrapped
    requires d in trace[i].wire && e in trace[i].wire && x in d && y in e && NumberOf(x.record) == NumberOf(y.record)
    ensures x == y
  {
    hide PlainFlight.Valid, Run, ReaderOk, SourceOk, Genuine;
    RunInv(fl, trace, i);
  }

  /** All plaintext bodies are so small that each fragment fits a record, whatever the MTU. */
  predicate SmallBodies(fl: PlainFlight)
    requires fl.Valid()
  {
    forall i | 0 <= i < fl.plain :: |fl.msgs[i].Body()| <= MAX_PLAIN_LENGTH - HEADER_LENGTH
  }

  /** The MTUs used, or the bodies, keep every plaintext record within the limit. */
  predicate SizesSafe(fl: PlainFlight, maxMtu: nat)
    requires fl.Valid()
  {
    maxMtu <= MAX_SAFE_MTU || SmallBodies(fl)
  }

  lemma SafeFits(fl: PlainFlight, maxMtu: nat, x: Flying)
    requires fl.Valid() && SizesSafe(fl, maxMtu) && Genuine(fl, x) && WithinMtu(maxMtu, x) && x.record.epoch == 0
    ensures |x.record.body| <= MAX_PLAIN_LENGTH
  {
    if x.item.Fragment? && SmallBodies(fl) {
      HeaderFacts(fl, x.item.piece);
    }
  }

  /** In every run, the receiver fails exactly on a plaintext record that is new, too long, and still readable. */
  lemma FailsIffTooLong(fl: PlainFlight, trace: seq<Net>, i: nat)
    requires fl.Valid() && Run(fl, trace) && i < |trace| && trace[i].pending != []
    ensures var n := trace[i];
      && n.reader.Valid() && AllValid(n.pending)
      && (Fails(fl, n) <==> NewRecord(n.got, n.pending[0]) && MAX_PLAIN_LENGTH < |n.pending[0].record.body| <= MAX_ENCRYPTED_LENGTH)
  {
    hide PlainFlight.Valid, Run, Genuine, NewRecord, RingMatches, ReaderState.OpenHandshake, WindowIs;
    RunInv(fl, trace, i);
    var n := trace[i];
    PendingGenuine(fl, n);
    OpenGenuine(fl, |n.out|, n.arr, n.got, n.reader, n.pending);
  }

  /** In every run with MTUs up to 16397, or with bodies up to 16372 bytes, no datagram makes the receiver fail. */
  lemma NoHonestFailure(fl: PlainFlight, trace: seq<Net>, i: nat)
    requires fl.Valid() && Run(fl, trace) && i < |trace| && trace[i].pending != [] && SizesSafe(fl, trace[i].maxMtu)
    ensures trace[i].reader.Valid() && AllValid(trace[i].pending) && !Fails(fl, trace[i])
  {
    hide PlainFlight.Valid, Run, Genuine, RingMatches, WindowIs, Fails, IsNew, SizesSafe;
    FailsIffTooLong(fl, trace, i);
    RunInv(fl, trace, i);
    var x := trace[i].pending[0];
    assert x in trace[i].log;
    if x.record.epoch == 0 {
      SafeFits(fl, trace[i].maxMtu, x);
    }
  }

  /** All bytes of message `j` were brought by records that came neither late nor across the wrap. */
  ghost predicate Arrived(fl: PlainFlight, n: Net, j: nat)
    requires fl.Valid() && j < fl.plain
  {
    && (exists x :: BroughtFor(n, x, j))
    && forall k: nat | k < |fl.msgs[j].Body()| :: ByteBrought(n, (j, k))
  }

  /**
   * In every run, until a counter wraps, the next message is available exactly when all its bytes have come in
   * records dealt with, apart from those that came late or across the wrap.
   */
  lemma AvailableWhenArrived(fl: PlainFlight, trace: seq<Net>, i: nat)
    requires fl.Valid() && Run(fl, trace) && i < |trace| && !trace[i].wrapped
    ensures var n := trace[i];
      && n.reader.ring.Valid() && |n.out| <= fl.plain
      && (n.reader.ring.Current().Some? <==> |n.out| < fl.plain && Arrived(fl, n, |n.out|))
  {
    hide PlainFlight.Valid, Run, RingMatches, WindowIs, Ring.Current, Genuine, SenderOk, NumbersOk, GotHeard;
    RunInv(fl, trace, i);
    var n := trace[i];
    var o := |n.out|;
    CurrentIsExpected(fl, o, n.arr, n.reader.ring);
    if o < fl.plain {
      ArrivedIsCovered(fl, n, o);
    }
  }

  lemma ArrivedIsCovered(fl: PlainFlight, n: Net, j: nat)
    requires fl.Valid() && j < fl.plain && |n.out| <= j && SourceOk(n) && forall x | x in n.heard :: Dealt(n, x)
    ensures Arrived(fl, n, j) <==> n.arr.Covers(j, |fl.msgs[j].Body()|)
  {
    hide OutMsg.Body, OutMsg.WellFormed, PlainFlight.IsPlain, Dealt, SourceOk, Arrivals.Covers;
    if Arrived(fl, n, j) {
      CoveredFromArrived(fl, n, j);
    }
    if n.arr.Covers(j, |fl.msgs[j].Body()|) {
      ArrivedFromCovered(fl, n, j);
    }
  }

  lemma CoveredFromArrived(fl: PlainFlight, n: Net, j: nat)
    requires fl.Valid() && j < fl.plain && |n.out| <= j && (forall x | x in n.heard :: Dealt(n, x)) && Arrived(fl, n, j)
    ensures n.arr.Covers(j, |fl.msgs[j].Body()|)
  {
    hide OutMsg.Body, OutMsg.WellFormed, PlainFlight.IsPlain, InTime;
    var x :| BroughtFor(n, x, j);
    assert Has(n.arr, x.item.piece);
    forall k: nat | k < |fl.msgs[j].Body()| ensures (j, k) in n.arr.bytes {
      assert ByteBrought(n, (j, k));
      var y :| BroughtByte(n, y, (j, k));
      assert Has(n.arr, y.item.piece);
    }
  }

  lemma ArrivedFromCovered(fl: PlainFlight, n: Net, j: nat)
    requires fl.Valid() && j < fl.plain && SourceOk(n) && n.arr.Covers(j, |fl.msgs[j].Body()|)
    ensures Arrived(fl, n, j)
  {
    hide BroughtFor, ByteBrought;
  }

  /**
   * Opening a fragment of an unread message leaves all its bytes counted, unless they were not counted before and
   * it is late, or its first coming was across the wrap.
   */
  lemma CountedIff(fl: PlainFlight, trace: seq<Net>, i: nat)
    requires fl.Valid() && Run(fl, trace) && i < |trace| && trace[i].pending != [] && !trace[i].wrapped
    requires var x := trace[i].pending[0];
      x.item.Fragment? && x.item.piece.index >= |trace[i].out| && |x.record.body| <= MAX_PLAIN_LENGTH
    ensures trace[i].reader.Valid() && AllValid(trace[i].pending) && !Fails(fl, trace[i])
    ensures var n, n', x := trace[i], AfterOpen(fl, trace[i]), trace[i].pending[0];
      Has(n'.arr, x.item.piece) <==> Has(n.arr, x.item.piece) || !(Late(n.got, x) || x.record.seqNum in n'.across)
  {
    hide PlainFlight.Valid, Run, ReaderOk, SenderOk, Fails, NumbersOk, GotHeard, Has, InTime,
      ReaderState.OpenHandshake, WrapBetween;
    FailsIffTooLong(fl, trace, i);
    RunInv(fl, trace, i);
    var n := trace[i];
    OpenInv(fl, n);
    var x := n.pending[0];
    assert x in n.log;
    CountedNow(fl, n, x);
  }

  lemma CountedNow(fl: PlainFlight, n: Net, x: Flying)
    requires fl.Valid() && Genuine(fl, x) && n.across <= n.got
    requires x in Heard(fl, n, x).heard ==> Dealt(Heard(fl, n, x), x)
    requires x.item.Fragment? && x.item.piece.index >= |n.out| && |x.record.body| <= MAX_PLAIN_LENGTH
    ensures Has(Heard(fl, n, x).arr, x.item.piece)
       <==> Has(n.arr, x.item.piece) || !(Late(n.got, x) || x.record.seqNum in Heard(fl, n, x).across)
  {
    hide PlainFlight.Valid, InTime, Has, PlainFlight.Wrapped, Arrivals.Add;
    if NewRecord(n.got, x) {
      AddedHas(n.arr, x.item.piece);
    }
    if Has(n.arr, x.item.piece) {
      CountedGrows(fl, |n.out|, n.arr, x.item, x.item.piece);
    }
  }

  // ---- where the window, the message counter and the MTU limit this ----

  /** Unless the flight's message numbers wrap, nothing comes across the wrap. */
  lemma NothingAcross(fl: PlainFlight, trace: seq<Net>, i: nat)
    requires fl.Valid() && Run(fl, trace) && i < |trace| && fl.base + fl.plain <= 0x1_0000
    ensures trace[i].across == {}
  {
    RunInv(fl, trace, i);
  }

  lemma SeqStep(fl: PlainFlight, o: nat, j: nat)
    requires fl.Valid() && o <= fl.plain && j <= fl.plain && fl.Wrapped(o) == fl.Wrapped(j)
    ensures o + fl.Seq(j) - fl.Seq(o) == j
  {
  }

  lemma SlotSeen(fl: PlainFlight, o: nat, arr: Arrivals, j: nat, f: Frag)
    requires fl.Valid() && SlotMatches(fl, o, arr, j, f)
    ensures j in arr.seen
  {
  }

  lemma HeldIsSeen(fl: PlainFlight, o: nat, arr: Arrivals, ring: Ring, j: nat)
    requires fl.Valid() && ring.Valid() && RingMatches(fl, o, arr, ring)
    ensures HasSlot(fl, o, ring, j) ==> j in arr.seen
  {
    hide SlotMatches;
    if HasSlot(fl, o, ring, j) {
      var f := ring.slots[fl.Seq(j) % MAX_FLIGHT].value;
      SeqStep(fl, o, j);
      SlotSeen(fl, o, arr, j, f);
    }
  }

  /** A fragment of an unread message is dropped without trace exactly when the wrap lies between. */
  lemma DroppedIffWrapBetween(fl: PlainFlight, o: nat, arr: Arrivals, ring: Ring, p: Piece)
    requires fl.Valid() && ring.Valid() && RingMatches(fl, o, arr, ring) && PlainPiece(fl, p) && o <= p.index
    requires p.index !in arr.seen
    ensures ring.Accept(0, fl.maxLen, HeaderOf(fl, p), BytesOf(fl, p)) == (ring, Ok)
       <==> fl.Wrapped(o) != fl.Wrapped(p.index)
  {
    hide PlainFlight.Valid, HeaderOf, BytesOf, OutMsg.Body, OutMsg.WellFormed, Ring.Fill, Ring.Lookup;
    HeaderFacts(fl, p);
    WindowCases(fl, o, p.index);
    AcceptHonest(fl, o, arr, ring, p);
    var next := ring.Accept(0, fl.maxLen, HeaderOf(fl, p), BytesOf(fl, p)).0;
    if Counts(fl, o, p.index) {
      assert p.index in Count(fl, o, arr, p).seen;
      assert HasSlot(fl, o, next, p.index);
      HeldIsSeen(fl, o, arr, ring, p.index);
    }
  }

  /** A concrete case: numbers 65535 and 0, the second message arriving first. */
  lemma WrapLosesFragment()
    ensures exists fl: PlainFlight, p: Piece | fl.Valid() && PlainPiece(fl, p) :: (
      var ring := Ring(seq(MAX_FLIGHT, _ => None), fl.base);
      ring.Accept(0, fl.maxLen, HeaderOf(fl, p), BytesOf(fl, p)) == (ring, Ok))
  {
    var h0, h1 := Handshake.Header(1, 0, 0xffff, 0, 0), Handshake.Header(1, 0, 0, 0, 0);
    var m0, m1 := OutMsg(FragmentBytes(h0, []), 0, false), OutMsg(FragmentBytes(h1, []), 0, false);
    ParseEncoded(h0, [], []);
    ParseEncoded(h1, [], []);
    assert m0.data + [] == m0.data && m1.data + [] == m1.data;
    var fl, p := PlainFlight([m0, m1], 2, 0xffff, 0), Piece(1, 0, 0);
    assert fl.IsPlain(0) && fl.IsPlain(1);
    assert fl.Valid() && PlainPiece(fl, p);
  }

  /** In the plaintext epoch a fragment overflows the receiver's limit exactly when both body and room are large. */
  lemma OversizedIff(st: FlightState, maxOut: nat)
    requires st.Valid() && st.written < |st.msgs| && st.Readable() && st.ws.cipher.NullWrite? && !st.UsesPrevious()
    requires st.SealFragment(maxOut).1.SealPartial? || st.SealFragment(maxOut).1.SealSuccess?
    ensures |st.SealFragment(maxOut).1.record.body| > MAX_PLAIN_LENGTH
       <==> |st.msgs[st.written].Body()| - st.offset > MAX_PLAIN_LENGTH - HEADER_LENGTH && maxOut > MAX_SAFE_MTU
  {
  }

  /** A record too long to be read takes the rest of its datagram with it, and nothing else changes. */
  lemma UnreadableDropsRest(fl: PlainFlight, trace: seq<Net>, i: nat)
    requires fl.Valid() && Run(fl, trace) && i < |trace| && trace[i].pending != []
    requires |trace[i].pending[0].record.body| > MAX_ENCRYPTED_LENGTH
    ensures trace[i].reader.Valid() && AllValid(trace[i].pending) && !Fails(fl, trace[i])
    ensures AfterOpen(fl, trace[i]) == trace[i].(pending := [])
  {
    hide PlainFlight.Valid, Run, Genuine, RingMatches, ReaderState.OpenHandshake, WindowIs, WireOf, Behind;
    RunInv(fl, trace, i);
    var n := trace[i];
    PendingGenuine(fl, n);
    OpenGenuine(fl, |n.out|, n.arr, n.got, n.reader, n.pending);
    BehindAll(n.pending);
  }

  // ---- concrete cases ----

  /** A flight of one message of so many zeros, and the record with this number that carries it whole. */
  lemma OneMessage(size: nat, number: nat) returns (fl: PlainFlight, x: Flying)
    requires size < 0xff00 && number < SEQ_LIMIT
    ensures fl.Valid() && fl.plain == |fl.msgs| == 1 && fl.base == 0 && Genuine(fl, x) && x.item == Fragment(Piece(0, 0, size))
    ensures var m := fl.msgs[0]; !m.isCcs && m.epoch == 0 && m.WellFormed() && |m.Body()| == size
    ensures x.record.epoch == 0 && x.record.seqNum == number && |x.record.body| == HEADER_LENGTH + size
  {
    var h := Handshake.Header(1, size, 0, 0, size);
    var body: seq<byte> := seq(size, _ => 0);
    var m := OutMsg(FragmentBytes(h, body), 0, false);
    ParseEncoded(h, body, []);
    assert m.data + [] == m.data;
    fl := PlainFlight([m], 1, 0, size);
    assert fl.IsPlain(0) && fl.Valid();
    var p := Piece(0, 0, size);
    assert body[0..size] == body && BytesOf(fl, p) == body && HeaderOf(fl, p) == h;
    x := Flying(WireRecord(HANDSHAKE, 0xfeff, 0, number, FragmentBytes(h, body)), Fragment(p));
  }

  /** The reader at the start of a flight, when these numbers have been accepted before. */
  lemma ReaderAtStart(fl: PlainFlight, max: nat, got: set<nat>) returns (st: ReaderState)
    requires fl.Valid() && WindowIs(Window(max, got), got)
    ensures st.Valid() && Plaintext(st.rec) && st.rec.window == Window(max, got) && RingMatches(fl, 0, Arrivals({}, {}), st.ring)
  {
    st := ReaderState(ReadState(0, Window(max, got), NullRead, false), Ring(seq(MAX_FLIGHT, _ => None), fl.base), false, false);
  }

  /** A message of 16373 bytes in one record makes the receiver fail; one of 16693 bytes is dropped. */
  lemma LongRecordsLost()
    ensures exists fl: PlainFlight, x: Flying, st: ReaderState | fl.Valid() && Genuine(fl, x) && st.Valid() ::
      |x.record.body| == MAX_PLAIN_LENGTH + 1 && st.OpenHandshake(fl.maxLen, WireOf([x])).1 == Failed(RecordOverflow)
    ensures exists fl: PlainFlight, x: Flying, st: ReaderState | fl.Valid() && Genuine(fl, x) && st.Valid() ::
      |x.record.body| == MAX_ENCRYPTED_LENGTH + 1 && st.OpenHandshake(fl.maxLen, WireOf([x])).0 == st
      && st.OpenHandshake(fl.maxLen, WireOf([x])).1 == Discarded
  {
    hide PlainFlight.Valid, Genuine, ReaderState.OpenHandshake, RingMatches, WireOf;
    var fl, x := OneMessage(MAX_PLAIN_LENGTH + 1 - HEADER_LENGTH, 0);
    var st := ReaderAtStart(fl, 0, {});
    OpenGenuine(fl, 0, Arrivals({}, {}), {}, st, [x]);
    var fl', x' := OneMessage(MAX_ENCRYPTED_LENGTH + 1 - HEADER_LENGTH, 0);
    var st' := ReaderAtStart(fl', 0, {});
    OpenGenuine(fl', 0, Arrivals({}, {}), {}, st', [x']);
  }
}
