/** From every reachable state, one retransmission without losses hands out the rest of the flight. */
module DtlsProgress {
  import opened Bytes
  import opened Handshake
  import opened DtlsReceiver
  import opened DtlsRecord
  import opened DtlsReader
  import opened DtlsSealing
  import opened DtlsFlight
  import opened DtlsSender
  import opened DtlsNetwork
  import opened DtlsEndToEnd

  // ---- reaching a state ----

  ghost predicate Path(fl: PlainFlight, a: Net, b: Net, trace: seq<Net>)
    requires fl.Valid()
  {
    && trace != [] && trace[0] == a && trace[|trace| - 1] == b
    && forall i | 0 <= i < |trace| - 1 :: Step(fl, trace[i], trace[i + 1])
  }

  ghost predicate Reaches(fl: PlainFlight, a: Net, b: Net)
    requires fl.Valid()
  {
    exists trace :: Path(fl, a, b, trace)
  }

  lemma Stays(fl: PlainFlight, a: Net)
    requires fl.Valid()
    ensures Reaches(fl, a, a)
  {
    assert Path(fl, a, a, [a]);
  }

  lemma Follows(fl: PlainFlight, a: Net, b: Net, c: Net)
    requires fl.Valid() && Reaches(fl, a, b) && Reaches(fl, b, c)
    ensures Reaches(fl, a, c)
  {
    hide Step, PlainFlight.Valid;
    var s :| Path(fl, a, b, s);
    var t :| Path(fl, b, c, t);
    var u := s + t[1..];
    forall i | 0 <= i < |u| - 1 ensures Step(fl, u[i], u[i + 1]) {
      if i < |s| - 1 {
        assert Step(fl, s[i], s[i + 1]);
      } else {
        var k := i - (|s| - 1);
        assert Step(fl, t[k], t[k + 1]);
        assert u[i] == t[k] && u[i + 1] == t[k + 1];
      }
    }
    assert Path(fl, a, c, u);
  }

  lemma OneStep(fl: PlainFlight, a: Net, b: Net)
    requires fl.Valid() && Step(fl, a, b)
    ensures Reaches(fl, a, b)
  {
    hide Step;
    assert [a, b][0 + 1] == b;
    assert Path(fl, a, b, [a, b]);
  }

  lemma {:induction false} PathInv(fl: PlainFlight, a: Net, b: Net, trace: seq<Net>, i: nat)
    requires fl.Valid() && Inv(fl, a) && Path(fl, a, b, trace) && i < |trace|
    ensures Inv(fl, trace[i])
  {
    hide Step, Inv, PlainFlight.Valid;
    if i > 0 {
      PathInv(fl, a, b, trace, i - 1);
      assert Step(fl, trace[i - 1], trace[i - 1 + 1]);
      StepInv(fl, trace[i - 1], trace[i]);
    }
  }

  // ---- the receiver at work ----

  /** The application takes all messages that are available. */
  ghost function TakeAll(fl: PlainFlight, n: Net): Net
    requires fl.Valid()
    decreases fl.plain - |n.out|
  {
    if |n.out| < fl.plain && n.reader.Valid() && n.reader.ring.Current().Some? then TakeAll(fl, Taken(n)) else n
  }

  /** The receiver opens the rest of the datagram, and the application takes what is available after each record. */
  ghost function OpenAll(fl: PlainFlight, n: Net): Net
    requires fl.Valid()
    decreases |n.pending|
  {
    if n.pending == [] || !n.reader.Valid() || !AllValid(n.pending) || Fails(fl, n) then n
    else
      var next := TakeAll(fl, AfterOpen(fl, n));
      if |next.pending| >= |n.pending| then next else OpenAll(fl, next)
  }

  /** The next packet is accepted, arrives at once, and is opened. */
  ghost function Passed(fl: PlainFlight, n: Net, mtu: nat): Net
    requires fl.Valid() && n.st.Valid() && n.st.written < |n.st.msgs| && n.st.NextPacket(mtu).1.Some?
  {
    OpenAll(fl, HandedOver(fl, n, mtu))
  }

  /** Sealing these packets succeeds, each with its own MTU, and takes the sender past the plaintext messages. */
  ghost predicate Sendable(fl: PlainFlight, st: FlightState, mtus: seq<nat>)
    decreases |mtus|
  {
    if mtus == [] then st.written >= fl.plain
    else
      && st.Valid() && st.written < |st.msgs| && st.NextPacket(mtus[0]).1.Some?
      && Sendable(fl, st.NextPacket(mtus[0]).0, mtus[1..])
  }

  /** Packets sent and received one after the other, none of them lost. */
  ghost function Resent(fl: PlainFlight, n: Net, mtus: seq<nat>): Net
    requires fl.Valid()
    decreases |mtus|
  {
    if mtus == [] || !n.st.Valid() || n.st.written >= |n.st.msgs| || n.st.NextPacket(mtus[0]).1.None? then n
    else Resent(fl, Passed(fl, n, mtus[0]), mtus[1..])
  }

  // ---- taking ----

  /** Only the receiver and what it has done differ. */
  ghost predicate SameSender(n: Net, n': Net) {
    n'.st == n.st && n'.wrapped == n.wrapped && n'.maxMtu == n.maxMtu && n'.wire == n.wire && n'.log == n.log
  }

  lemma {:induction false} TakeAllFacts(fl: PlainFlight, n: Net)
    requires fl.Valid() && Inv(fl, n)
    ensures var n' := TakeAll(fl, n);
      && Inv(fl, n') && Reaches(fl, n, n') && SameSender(n, n') && n'.pending == n.pending && n'.got == n.got
      && n'.arr == n.arr && |n'.out| >= |n.out|
      && n.reader.Valid() && (|n.out| < fl.plain && n.reader.ring.Current().Some? ==> |n'.out| > |n.out|)
    decreases fl.plain - |n.out|
  {
    hide PlainFlight.Valid, Inv, Reaches, Ring.Current, Ring.Next;
    InvValid(fl, n);
    if |n.out| < fl.plain && n.reader.ring.Current().Some? {
      TakeStep(fl, n);
      TakeInv(fl, n);
      TakeAllFacts(fl, Taken(n));
      Follows(fl, n, Taken(n), TakeAll(fl, n));
    } else {
      Stays(fl, n);
    }
  }

  lemma InvValid(fl: PlainFlight, n: Net)
    requires fl.Valid() && Inv(fl, n)
    ensures n.reader.Valid() && |n.out| <= fl.plain
  {
  }

  lemma TakeStep(fl: PlainFlight, n: Net)
    requires fl.Valid() && n.reader.Valid() && n.reader.ring.Current().Some?
    ensures Reaches(fl, n, Taken(n))
  {
    hide Ring.Current, Taken, PlainFlight.Valid, Reaches, Sends, Restarts, Rekeys, Delivers, Opens;
    assert Takes(n, Taken(n));
    OneStep(fl, n, Taken(n));
  }

  // ---- how far the application has got ----

  /** The messages before a place have been read, and of the one at it, if not read, the bytes before it counted. */
  ghost predicate ReadUpTo(fl: PlainFlight, n: Net, at: Place) {
    || |n.out| >= fl.plain || |n.out| > at.index
    || (|n.out| == at.index && (at.off > 0 ==> Has(n.arr, Piece(at.index, 0, at.off))))
  }

  /** With what was there before, the piece makes a longer one. */
  lemma HasBoth(arr: Arrivals, p: Piece)
    requires p.off > 0 ==> Has(arr, Piece(p.index, 0, p.off))
    ensures Has(arr.Add(p), Piece(p.index, 0, p.off + p.len))
  {
  }

  lemma HasWhole(arr: Arrivals, j: nat, size: nat)
    requires Has(arr, Piece(j, 0, size))
    ensures arr.Covers(j, size)
  {
  }

  /** A piece of the plaintext part of the flight, from where the application stands. */
  lemma PlainAfter(fl: PlainFlight, at: Place, p: Piece)
    requires fl.Valid() && After(fl.msgs, at, p).Some? && p.index < fl.plain
    ensures p.index == at.index && p.off == at.off && PlainPiece(fl, p)
    ensures var size, next := |fl.msgs[p.index].Body()|, After(fl.msgs, at, p).value;
      next == if p.off + p.len == size then Place(p.index + 1, 0) else Place(p.index, p.off + p.len)
  {
    hide PlainFlight.IsPlain;
  }

  // ---- opening one record ----

  /** Its number is larger than all that have come. */
  ghost predicate Newest(n: Net, x: Flying) {
    forall g | g in n.got :: g < x.record.seqNum
  }

  lemma NewestIsNew(n: Net, x: Flying)
    requires Newest(n, x) && x.record.epoch == 0
    ensures NewRecord(n.got, x)
  {
  }

  lemma PendingFits(fl: PlainFlight, n: Net)
    requires fl.Valid() && Inv(fl, n) && n.pending != [] && SizesSafe(fl, n.maxMtu)
    ensures Genuine(fl, n.pending[0]) && (n.pending[0].record.epoch == 0 ==> |n.pending[0].record.body| <= MAX_PLAIN_LENGTH)
  {
    hide PlainFlight.Valid, Genuine, WithinMtu, SizesSafe, ReaderOk, NumbersOk, SourceOk, GotHeard, Dealt;
    assert n.pending[0] in n.log;
    if n.pending[0].record.epoch == 0 {
      SafeFits(fl, n.maxMtu, n.pending[0]);
    }
  }

  /** What opening the next record does to the datagram, and when it is a new plaintext record to the rest. */
  lemma OpenEffect(fl: PlainFlight, n: Net)
    requires fl.Valid() && Inv(fl, n) && n.pending != [] && SizesSafe(fl, n.maxMtu)
    ensures n.reader.Valid() && AllValid(n.pending) && !Fails(fl, n) && Inv(fl, AfterOpen(fl, n))
    ensures var n' := AfterOpen(fl, n);
      && SameSender(n, n') && n'.out == n.out && |n'.pending| < |n.pending|
      && (NewRecord(n.got, n.pending[0]) ==>
            && n'.pending == n.pending[1..] && n'.got == n.got + {n.pending[0].record.seqNum}
            && n'.arr == Counted(fl, |n.out|, n.arr, n.pending[0].item))
  {
    hide PlainFlight.Valid, Genuine, SizesSafe, RingMatches, WindowIs, IsNew, ReaderState.OpenHandshake, Behind, WireOf, Counted,
      NumbersOk, SourceOk, GotHeard, Dealt, SenderOk, WrapBetween, WireRecord.Wire;
    PendingFits(fl, n);
    PendingGenuine(fl, n);
    OpenGenuine(fl, |n.out|, n.arr, n.got, n.reader, n.pending);
    OpenInv(fl, n);
    BehindAll(n.pending);
    BehindFirst(n.pending);
  }

  lemma OpenStep(fl: PlainFlight, n: Net)
    requires fl.Valid() && n.reader.Valid() && n.pending != [] && AllValid(n.pending) && !Fails(fl, n)
    ensures Reaches(fl, n, AfterOpen(fl, n))
  {
    hide Fails, AfterOpen, PlainFlight.Valid, Reaches, Sends, Restarts, Rekeys, Delivers, Takes;
    assert Opens(fl, n, AfterOpen(fl, n));
    OneStep(fl, n, AfterOpen(fl, n));
  }

  /** Opening a record and taking what is then available. */
  lemma RoundFacts(fl: PlainFlight, n: Net)
    requires fl.Valid() && Inv(fl, n) && n.pending != [] && SizesSafe(fl, n.maxMtu)
    ensures n.reader.Valid() && AllValid(n.pending) && !Fails(fl, n)
    ensures var n' := TakeAll(fl, AfterOpen(fl, n));
      && Inv(fl, n') && Reaches(fl, n, n') && SameSender(n, n') && |n'.out| >= |n.out| && |n'.pending| < |n.pending|
      && OpenAll(fl, n) == OpenAll(fl, n')
      && (NewRecord(n.got, n.pending[0]) ==>
            n'.pending == n.pending[1..] && n'.got == n.got + {n.pending[0].record.seqNum})
  {
    hide PlainFlight.Valid, Inv, Reaches, SizesSafe, AfterOpen, TakeAll, Fails, NewRecord, Counted;
    OpenEffect(fl, n);
    OpenStep(fl, n);
    TakeAllFacts(fl, AfterOpen(fl, n));
    Follows(fl, n, AfterOpen(fl, n), TakeAll(fl, AfterOpen(fl, n)));
  }

  /** A datagram is opened to its end. */
  lemma {:induction false} OpenAllFacts(fl: PlainFlight, n: Net)
    requires fl.Valid() && Inv(fl, n) && SizesSafe(fl, n.maxMtu)
    ensures var n' := OpenAll(fl, n);
      Inv(fl, n') && Reaches(fl, n, n') && SameSender(n, n') && n'.pending == [] && |n'.out| >= |n.out|
    decreases |n.pending|
  {
    hide PlainFlight.Valid, Inv, Reaches, SizesSafe, AfterOpen, TakeAll, Fails, NewRecord;
    if n.pending == [] {
      Stays(fl, n);
    } else {
      RoundFacts(fl, n);
      var next := TakeAll(fl, AfterOpen(fl, n));
      OpenAllFacts(fl, next);
      Follows(fl, n, next, OpenAll(fl, next));
    }
  }

  /** The newest fragment, starting where the application stands, takes it to where the fragment ends. */
  lemma RoundReads(fl: PlainFlight, n: Net, at: Place, p: Piece)
    requires fl.Valid() && Inv(fl, n) && n.pending != [] && SizesSafe(fl, n.maxMtu)
    requires n.pending[0].item == Fragment(p) && n.pending[0].record.epoch == 0 && Newest(n, n.pending[0])
    requires p.index < fl.plain && After(fl.msgs, at, p).Some? && ReadUpTo(fl, n, at)
    ensures n.reader.Valid() && AllValid(n.pending)
    ensures ReadUpTo(fl, TakeAll(fl, AfterOpen(fl, n)), After(fl.msgs, at, p).value)
  {
    hide PlainFlight.Valid, Inv, Reaches, SizesSafe, AfterOpen, TakeAll, Fails, Newest, PlainPiece, Arrivals.Add, Has, After,
      PlainFlight.Wrapped, Ring.Current, OutMsg.Body, IsNew, Arrivals.Covers;
    OpenEffect(fl, n);
    NewestIsNew(n, n.pending[0]);
    PlainAfter(fl, at, p);
    var n1 := AfterOpen(fl, n);
    TakeAllFacts(fl, n1);
    if |n.out| == p.index {
      HasBoth(n.arr, p);
      assert n1.arr == n.arr.Add(p);
      if After(fl.msgs, at, p).value == Place(p.index + 1, 0) {
        WholeIsAvailable(fl, n1, p);
      }
    }
  }

  lemma WholeIsAvailable(fl: PlainFlight, n: Net, p: Piece)
    requires fl.Valid() && Inv(fl, n) && p.index < fl.plain && |n.out| == p.index
    requires Has(n.arr, Piece(p.index, 0, |fl.msgs[p.index].Body()|))
    ensures n.reader.Valid() && n.reader.ring.Current().Some?
  {
    hide OutMsg.Body, OutMsg.WellFormed, PlainFlight.IsPlain, RingMatches, Ring.Current, Has, NumbersOk, SourceOk,
      GotHeard, Dealt;
    HasWhole(n.arr, p.index, |fl.msgs[p.index].Body()|);
    CurrentIsExpected(fl, |n.out|, n.arr, n.reader.ring);
  }

  // ---- opening a packet of the retransmission ----

  /** The datagram carries these pieces, under numbers that go up and are all newer than what has come. */
  ghost predicate FreshPacket(fl: PlainFlight, n: Net, ps: seq<Piece>)
    requires fl.Valid()
  {
    && |n.pending| == |ps|
    && (forall i | 0 <= i < |ps| :: n.pending[i].item == ItemOf(fl, ps[i]))
    && (forall i | 0 <= i < |ps| && n.pending[i].record.epoch == 0 :: Newest(n, n.pending[i]))
    && (forall i, j | 0 <= i < j < |ps| && n.pending[i].record.epoch == 0 == n.pending[j].record.epoch ::
          n.pending[i].record.seqNum < n.pending[j].record.seqNum)
  }

  lemma FreshRest(fl: PlainFlight, n: Net, ps: seq<Piece>, n': Net)
    requires fl.Valid() && ps != [] && FreshPacket(fl, n, ps) && n.pending[0].record.epoch == 0
    requires n'.pending == n.pending[1..] && n'.got == n.got + {n.pending[0].record.seqNum}
    ensures FreshPacket(fl, n', ps[1..])
  {
    hide PlainFlight.Valid, ItemOf;
  }

  lemma AllRead(fl: PlainFlight, n: Net, at: Place)
    requires fl.Valid() && Inv(fl, n) && ReadUpTo(fl, n, at) && at.index >= fl.plain
    ensures |n.out| == fl.plain
  {
    hide PlainFlight.Valid, RingMatches, NumbersOk, SourceOk, GotHeard, Dealt;
  }

  lemma FirstPiece(fl: PlainFlight, n: Net, at: Place, ps: seq<Piece>)
    requires fl.Valid() && Inv(fl, n) && ps != [] && FreshPacket(fl, n, ps) && Walk(fl.msgs, at, ps).Some?
    ensures After(fl.msgs, at, ps[0]).Some? && ps[0].index == at.index && n.pending != []
    ensures Walk(fl.msgs, at, ps) == Walk(fl.msgs, After(fl.msgs, at, ps[0]).value, ps[1..])
    ensures at.index < fl.plain ==> n.pending[0].item == Fragment(ps[0]) && n.pending[0].record.epoch == 0
  {
    hide PlainFlight.Valid, ReaderOk, NumbersOk, SourceOk, GotHeard, Dealt, PlainPiece;
    assert n.pending[0] in n.log;
    assert n.pending[0].item == ItemOf(fl, ps[0]);
  }

  lemma {:induction false} PacketReads(fl: PlainFlight, n: Net, at: Place, ps: seq<Piece>)
    requires fl.Valid() && Inv(fl, n) && SizesSafe(fl, n.maxMtu) && FreshPacket(fl, n, ps)
    requires Walk(fl.msgs, at, ps).Some? && ReadUpTo(fl, n, at)
    ensures ReadUpTo(fl, OpenAll(fl, n), Walk(fl.msgs, at, ps).value)
    decreases |ps|
  {
    hide PlainFlight.Valid, Inv, Reaches, SizesSafe, AfterOpen, TakeAll, Fails, After, FreshPacket, ReadUpTo, Newest, NewRecord;
    if ps == [] {
      assert n.pending == [] by {
        NoPieces(fl, n, ps);
      }
    } else {
      FirstPiece(fl, n, at, ps);
      if at.index >= fl.plain {
        AllRead(fl, n, at);
        OpenAllFacts(fl, n);
        ReadForGood(fl, OpenAll(fl, n), Walk(fl.msgs, at, ps).value);
      } else {
        FirstIsNewest(fl, n, ps);
        RoundFacts(fl, n);
        RoundReads(fl, n, at, ps[0]);
        var next := TakeAll(fl, AfterOpen(fl, n));
        FreshRest(fl, n, ps, next);
        PacketReads(fl, next, After(fl.msgs, at, ps[0]).value, ps[1..]);
      }
    }
  }

  lemma NoPieces(fl: PlainFlight, n: Net, ps: seq<Piece>)
    requires fl.Valid() && FreshPacket(fl, n, ps) && ps == []
    ensures n.pending == []
  {
  }

  lemma FirstIsNewest(fl: PlainFlight, n: Net, ps: seq<Piece>)
    requires fl.Valid() && FreshPacket(fl, n, ps) && ps != [] && n.pending[0].record.epoch == 0
    ensures Newest(n, n.pending[0]) && NewRecord(n.got, n.pending[0])
  {
    NewestIsNew(n, n.pending[0]);
  }

  lemma ReadForGood(fl: PlainFlight, n: Net, at: Place)
    requires |n.out| >= fl.plain
    ensures ReadUpTo(fl, n, at)
  {
  }

  // ---- sending it ----

  lemma SpentBelow(ws: WriteState, g: nat, s: nat)
    requires ws.Spent((0, g)) && !ws.Spent((0, s))
    ensures g < s
  {
  }

  lemma PacketIsFresh(fl: PlainFlight, n: Net, records: seq<WireRecord>, ps: seq<Piece>, after: WriteState)
    requires fl.Valid() && NumbersOk(n) && TakesNumbers(n.st.ws, after, records) && |records| == |ps| == |n.pending|
    requires forall i | 0 <= i < |ps| :: n.pending[i] == Flying(records[i], ItemOf(fl, ps[i]))
    ensures FreshPacket(fl, n, ps)
  {
    hide PlainFlight.Valid, ItemOf, WriteState.Spent, WriteState.GrowsTo;
    forall i | 0 <= i < |ps| && n.pending[i].record.epoch == 0 ensures Newest(n, n.pending[i]) {
      assert !n.st.ws.Spent(NumberOf(records[i]));
      forall g | g in n.got ensures g < records[i].seqNum {
        SpentBelow(n.st.ws, g, records[i].seqNum);
      }
    }
  }

  /** The accepted packet, as the network hands it over at once. */
  ghost function HandedOver(fl: PlainFlight, n: Net, mtu: nat): Net
    requires fl.Valid() && n.st.Valid() && n.st.written < |n.st.msgs| && n.st.NextPacket(mtu).1.Some?
  {
    FillShape(n.st, mtu);
    Accepted(fl, n, mtu).(pending := FlyingOf(fl, n.st.NextPacket(mtu).1.value))
  }

  lemma AcceptStep(fl: PlainFlight, n: Net, mtu: nat)
    requires fl.Valid() && n.st.Valid() && n.st.written < |n.st.msgs| && n.st.NextPacket(mtu).1.Some?
    ensures Reaches(fl, n, Accepted(fl, n, mtu))
  {
    hide Accepted, PlainFlight.Valid, FlightState.NextPacket, Reaches, Restarts, Rekeys, Delivers, Opens, Takes;
    assert SendsWith(fl, n, Accepted(fl, n, mtu), mtu);
    assert Sends(fl, n, Accepted(fl, n, mtu));
    OneStep(fl, n, Accepted(fl, n, mtu));
  }

  lemma DeliverStep(fl: PlainFlight, n: Net, d: seq<Flying>)
    requires fl.Valid() && n.pending == [] && d in n.wire
    ensures Reaches(fl, n, n.(pending := d))
  {
    hide PlainFlight.Valid, Reaches, Sends, Restarts, Rekeys, Opens, Takes;
    assert Delivers(n, n.(pending := d));
    OneStep(fl, n, n.(pending := d));
  }

  lemma HandOver(fl: PlainFlight, n: Net, mtu: nat)
    requires fl.Valid() && Inv(fl, n) && n.pending == []
    requires n.st.Valid() && n.st.written < |n.st.msgs| && n.st.NextPacket(mtu).1.Some?
    ensures var n' := HandedOver(fl, n, mtu);
      && Inv(fl, n') && Reaches(fl, n, n')
      && n'.st == n.st.NextPacket(mtu).0 && n'.wrapped == n.wrapped && n'.got == n.got && n'.out == n.out && n'.arr == n.arr
      && n'.maxMtu == if mtu > n.maxMtu then mtu else n.maxMtu
  {
    hide PlainFlight.Valid, Inv, Reaches, FlightState.NextPacket;
    AcceptedInv(fl, n, mtu);
    AcceptStep(fl, n, mtu);
    var a, n' := Accepted(fl, n, mtu), HandedOver(fl, n, mtu);
    assert n'.pending in a.wire;
    DeliverStep(fl, a, n'.pending);
    Follows(fl, n, a, n');
    DeliverInv(fl, a, n');
  }

  lemma HandedOverFresh(fl: PlainFlight, n: Net, mtu: nat)
    requires fl.Valid() && Inv(fl, n) && !n.wrapped
    requires n.st.Valid() && n.st.written < |n.st.msgs| && n.st.NextPacket(mtu).1.Some?
    ensures var (last, packet) := n.st.NextPacket(mtu);
      && FreshPacket(fl, HandedOver(fl, n, mtu), packet.value.pieces)
      && Walk(fl.msgs, PlaceOf(n.st), packet.value.pieces) == Some(PlaceOf(last))
  {
    hide PlainFlight.Valid, FlightState.NextPacket, ReaderOk, WireOk, SourceOk, GotHeard, Dealt, TakesNumbers, GoodPacket, Walk,
      WriteState.Spent, FreshPacket, Newest, ItemOf, PlainKeys;
    SenderMoves(fl, n, mtu);
    NextPacketFacts(n.st, mtu);
    FillShape(n.st, mtu);
    var (last, packet) := n.st.NextPacket(mtu);
    var h := n.(pending := FlyingOf(fl, packet.value));
    NumbersPending(n, h);
    PacketIsFresh(fl, h, packet.value.records, packet.value.pieces, last.ws);
    FreshAnyway(fl, h, HandedOver(fl, n, mtu), packet.value.pieces);
  }

  lemma NumbersPending(n: Net, h: Net)
    requires NumbersOk(n) && h == n.(pending := h.pending)
    ensures NumbersOk(h)
  {
    hide WriteState.Spent;
  }

  lemma FreshAnyway(fl: PlainFlight, h: Net, n: Net, ps: seq<Piece>)
    requires fl.Valid() && FreshPacket(fl, h, ps) && n.pending == h.pending && n.got == h.got
    ensures FreshPacket(fl, n, ps)
  {
    hide PlainFlight.Valid, ItemOf;
  }

  lemma SafeWith(fl: PlainFlight, a: nat, b: nat)
    requires fl.Valid() && SizesSafe(fl, a) && SizesSafe(fl, b)
    ensures SizesSafe(fl, if b > a then b else a)
  {
  }

  /** A packet that is passed on takes the application as far as it takes the sender. */
  lemma PassedReads(fl: PlainFlight, n: Net, mtu: nat)
    requires fl.Valid() && Inv(fl, n) && !n.wrapped && n.pending == [] && SizesSafe(fl, n.maxMtu) && SizesSafe(fl, mtu)
    requires n.st.Valid() && n.st.written < |n.st.msgs| && n.st.NextPacket(mtu).1.Some?
    requires ReadUpTo(fl, n, PlaceOf(n.st))
    ensures var n' := Passed(fl, n, mtu);
      && Inv(fl, n') && Reaches(fl, n, n') && !n'.wrapped && n'.pending == [] && SizesSafe(fl, n'.maxMtu)
      && n'.st == n.st.NextPacket(mtu).0 && ReadUpTo(fl, n', PlaceOf(n'.st))
  {
    hide PlainFlight.Valid, Inv, Reaches, FlightState.NextPacket, FreshPacket, Walk, SizesSafe, Accepted, OpenAll;
    HandOver(fl, n, mtu);
    HandedOverFresh(fl, n, mtu);
    SafeWith(fl, n.maxMtu, mtu);
    var h := HandedOver(fl, n, mtu);
    PacketReads(fl, h, PlaceOf(n.st), n.st.NextPacket(mtu).1.value.pieces);
    OpenAllFacts(fl, h);
    Follows(fl, n, h, OpenAll(fl, h));
  }

  lemma {:induction false} ResentReads(fl: PlainFlight, n: Net, mtus: seq<nat>)
    requires fl.Valid() && Inv(fl, n) && !n.wrapped && n.pending == [] && SizesSafe(fl, n.maxMtu)
    requires (forall m | m in mtus :: SizesSafe(fl, m)) && Sendable(fl, n.st, mtus) && ReadUpTo(fl, n, PlaceOf(n.st))
    ensures Reaches(fl, n, Resent(fl, n, mtus)) && |Resent(fl, n, mtus).out| == fl.plain
    decreases |mtus|
  {
    hide PlainFlight.Valid, Inv, Reaches, FlightState.NextPacket, SizesSafe, Passed, ReadUpTo;
    if mtus == [] {
      Stays(fl, n);
      AllRead(fl, n, PlaceOf(n.st));
    } else {
      PassedReads(fl, n, mtus[0]);
      var next := Passed(fl, n, mtus[0]);
      ResentReads(fl, next, mtus[1..]);
      Follows(fl, n, next, Resent(fl, next, mtus[1..]));
    }
  }

  lemma RestartStep(fl: PlainFlight, n: Net)
    requires fl.Valid() && Inv(fl, n)
    ensures Inv(fl, Restarted(n)) && Reaches(fl, n, Restarted(n)) && ReadUpTo(fl, Restarted(n), Place(0, 0))
  {
    hide PlainFlight.Valid, Inv, Reaches, Sends, Rekeys, Opens, Takes, Delivers;
    RestartInv(fl, n, Restarted(n));
    OneStep(fl, n, Restarted(n));
  }

  /**
   * From every reachable state: the receiver deals with what it has, the sender sends the flight once more, with any
   * MTU for each packet, and nothing is lost; then the application has the whole plaintext flight, even if the
   * message numbers wrap within it. It takes that no counter has wrapped, that sealing succeeds, and safe sizes.
   */
  lemma RetransmissionDelivers(fl: PlainFlight, trace: seq<Net>, mtus: seq<nat>)
    requires fl.Valid() && Run(fl, trace) && !trace[|trace| - 1].wrapped
    requires SizesSafe(fl, trace[|trace| - 1].maxMtu) && forall m | m in mtus :: SizesSafe(fl, m)
    requires Sendable(fl, Restarted(trace[|trace| - 1]).st, mtus)
    ensures var n := trace[|trace| - 1]; var n' := Resent(fl, Restarted(OpenAll(fl, n)), mtus);
      && Reaches(fl, n, n') && Delivered(fl, n'.out) && |n'.out| == fl.plain
  {
    hide PlainFlight.Valid, Init, Step, Inv, Reaches, SizesSafe, OpenAll, Resent, Sendable, ReadUpTo, Delivered;
    var n := trace[|trace| - 1];
    RunInv(fl, trace, |trace| - 1);
    OpenAllFacts(fl, n);
    var done := OpenAll(fl, n);
    RestartStep(fl, done);
    var start := Restarted(done);
    ResentReads(fl, start, mtus);
    Follows(fl, n, done, start);
    Follows(fl, n, start, Resent(fl, start, mtus));
    ReachedInv(fl, n, Resent(fl, start, mtus));
  }

  lemma ReachedInv(fl: PlainFlight, a: Net, b: Net)
    requires fl.Valid() && Inv(fl, a) && Reaches(fl, a, b)
    ensures Inv(fl, b) && Delivered(fl, b.out)
  {
    hide PlainFlight.Valid, Step, ReaderState.OpenHandshake;
    var trace :| Path(fl, a, b, trace);
    PathInv(fl, a, b, trace, |trace| - 1);
  }

  // ---- a plaintext flight can always be sent ----

  /** At least as many as the records it takes to send the rest of the flight. */
  function Remaining(msgs: seq<OutMsg>, at: Place): nat
    decreases |msgs| - at.index
  {
    if at.index >= |msgs| then 0
    else
      var size := if msgs[at.index].WellFormed() then |msgs[at.index].Body()| else 0;
      (if at.off <= size then size - at.off else 0) + 1 + Remaining(msgs, Place(at.index + 1, 0))
  }

  /** A flight in the plaintext epoch with enough numbers left. */
  ghost predicate PlainSender(st: FlightState) {
    && st.Valid() && Placed(st.msgs, PlaceOf(st)) && st.ws.epoch == 0 && st.ws.cipher.NullWrite?
    && (forall i | 0 <= i < |st.msgs| :: st.msgs[i].WellFormed() && !st.msgs[i].isCcs && st.msgs[i].epoch == 0)
    && (st.written < |st.msgs| ==> st.offset <= |st.msgs[st.written].Body()|)
    && st.ws.seqNum + Remaining(st.msgs, PlaceOf(st)) < SEQ_LIMIT
  }

  lemma PlainSealWorks(ws: WriteState, typ: byte, payload: seq<byte>, maxOut: nat)
    requires ws.Valid() && ws.epoch == 0 && ws.cipher.NullWrite? && ws.seqNum + 1 < SEQ_LIMIT
    requires RECORD_HEADER_LENGTH + |payload| <= maxOut <= MAX_SAFE_MTU
    ensures var (next, record) := ws.Seal(typ, payload, false, maxOut);
      record.Some? && next == ws.(seqNum := ws.seqNum + 1)
  {
    hide WireRecord.Sequence;
  }

  lemma PayloadSize(m: OutMsg, off: nat, len: nat)
    requires m.WellFormed() && !m.isCcs && off + len <= |m.Body()|
    ensures |PiecePayload(m, off, len)| == HEADER_LENGTH + len
  {
  }

  /** The next piece is sealed, or there is no room for it. */
  lemma PlainSealNext(st: FlightState, maxOut: nat)
    requires PlainSender(st) && st.written < |st.msgs| && maxOut <= MAX_SAFE_MTU
    ensures var (next, result) := st.SealNext(maxOut);
      && !result.SealError? && (maxOut >= 26 ==> !result.NoProgress?)
      && (result.SealPartial? ==> PlainSender(next)) && (result.SealSuccess? ==> PlainSender(next.Step()))
  {
    hide OutMsg.WellFormed, OutMsg.Body, OutMsg.Hdr, PiecePayload, WriteState.Seal;
    var m := st.msgs[st.written];
    if maxOut >= HEADER_LENGTH + 1 + RECORD_HEADER_LENGTH {
      var todo := st.Todo(maxOut);
      PayloadSize(m, st.offset, todo);
      PlainSealWorks(st.ws, HANDSHAKE, PiecePayload(m, st.offset, todo), maxOut);
      var next := st.SealNext(maxOut).0;
      assert Remaining(st.msgs, PlaceOf(st)) == |m.Body()| - st.offset + 1 + Remaining(st.msgs, Place(st.written + 1, 0));
      assert Remaining(st.msgs, Place(st.written, st.offset + todo))
          == |m.Body()| - st.offset - todo + 1 + Remaining(st.msgs, Place(st.written + 1, 0));
    }
  }

  lemma {:induction false} PlainFill(st: FlightState, maxOut: nat)
    requires PlainSender(st) && maxOut <= MAX_SAFE_MTU
    ensures var (last, packet) := st.FillPacket(maxOut);
      packet.Some? && PlainSender(last) && (st.written < |st.msgs| && maxOut >= 26 ==> packet.value.records != [])
    decreases |st.msgs| - st.written
  {
    hide FlightState.SealNext, PlainSender;
    PlainValid(st);
    if st.written < |st.msgs| {
      var (next, result) := st.SealNext(maxOut);
      PlainSealNext(st, maxOut);
      if result.SealSuccess? {
        PlainFill(next.Step(), maxOut - |result.record.Wire()|);
      }
    }
  }

  lemma PlainValid(st: FlightState)
    requires PlainSender(st)
    ensures st.Valid() && Placed(st.msgs, PlaceOf(st))
  {
  }

  /** A flight that is all plaintext can be sent to its end, in packets of any one size from 26 bytes up. */
  lemma {:induction false} PlaintextSendable(fl: PlainFlight, st: FlightState, mtu: nat) returns (mtus: seq<nat>)
    requires fl.Valid() && fl.plain == |fl.msgs| && st.msgs == fl.msgs && PlainSender(st) && 26 <= mtu <= MAX_SAFE_MTU
    ensures Sendable(fl, st, mtus) && forall m | m in mtus :: m == mtu
    decreases |st.msgs| - st.written, Left(st.msgs, PlaceOf(st))
  {
    hide PlainFlight.Valid, FlightState.FillPacket, PlainSender, Placed, GoodPacket;
    PlainValid(st);
    if st.written == |st.msgs| {
      return [];
    }
    PlainFill(st, mtu);
    NextPacketFacts(st, mtu);
    var last := st.NextPacket(mtu).0;
    PlainValid(last);
    var more := PlaintextSendable(fl, last, mtu);
    mtus := [mtu] + more;
    assert mtus[1..] == more;
  }

  lemma {:induction false} SendableFollows(fl: PlainFlight, st: FlightState, mtu: nat, mtus: seq<nat>) returns (packets: seq<Packet>)
    requires fl.plain == |st.msgs| && Sendable(fl, st, mtus) && (forall m | m in mtus :: m == mtu) && st.Valid()
    ensures PlanSends(st, mtu, packets)
    decreases |mtus|
  {
    hide FlightState.NextPacket;
    if mtus == [] {
      packets := [];
    } else {
      assert mtus[0] in mtus && forall m | m in mtus[1..] :: m in mtus;
      var (next, packet) := st.NextPacket(mtu);
      var more := SendableFollows(fl, next, mtu, mtus[1..]);
      packets := [packet.value] + more;
      assert packets[1..] == more;
    }
  }

  /** So a call over a willing transport sends a plaintext flight whole, with any MTU from 26 bytes up, while numbers last. */
  lemma PlaintextPlanEnds(fl: PlainFlight, st: FlightState, mtu: nat)
    requires fl.Valid() && fl.plain == |fl.msgs| && st.msgs == fl.msgs && PlainSender(st) && 26 <= mtu <= MAX_SAFE_MTU
    ensures PlanEnds(st, mtu)
  {
    hide Sendable, PlanSends, PlainSender;
    PlainValid(st);
    var mtus := PlaintextSendable(fl, st, mtu);
    var packets := SendableFollows(fl, st, mtu, mtus);
  }

  lemma StartsPlain(fl: PlainFlight, n: Net)
    requires fl.Valid() && fl.plain == |fl.msgs| && SenderOk(fl, n) && n.st.ws.epoch == 0
    requires n.st.ws.seqNum + Remaining(fl.msgs, Place(0, 0)) < SEQ_LIMIT
    ensures PlainSender(Restarted(n).st)
  {
    hide Remaining, OutMsg.WellFormed, OutMsg.Body, OutMsg.Hdr;
    forall i | 0 <= i < |fl.msgs| ensures !fl.msgs[i].isCcs && fl.msgs[i].epoch == 0 {
      assert fl.IsPlain(i);
    }
    assert PlaceOf(Restarted(n).st) == Place(0, 0);
  }

  /** So a plaintext flight is delivered by one retransmission without losses, from every reachable state. */
  lemma PlaintextFlightArrives(fl: PlainFlight, trace: seq<Net>, mtu: nat) returns (n': Net)
    requires fl.Valid() && fl.plain == |fl.msgs| && Run(fl, trace) && 26 <= mtu <= MAX_SAFE_MTU
    requires var n := trace[|trace| - 1];
      && !n.wrapped && SizesSafe(fl, n.maxMtu) && n.st.ws.epoch == 0
      && n.st.ws.seqNum + Remaining(fl.msgs, Place(0, 0)) < SEQ_LIMIT
    ensures Reaches(fl, trace[|trace| - 1], n') && Delivered(fl, n'.out) && |n'.out| == fl.plain
  {
    hide Init, Step, Reaches, OpenAll, Resent, Sendable, Delivered, Remaining, ReaderOk, WireOk, SourceOk, NumbersOk,
      GotHeard, Dealt;
    var n := trace[|trace| - 1];
    RunInv(fl, trace, |trace| - 1);
    var st := Restarted(n).st;
    StartsPlain(fl, n);
    var mtus := PlaintextSendable(fl, st, mtu);
    RetransmissionDelivers(fl, trace, mtus);
    n' := Resent(fl, Restarted(OpenAll(fl, n)), mtus);
  }
}
