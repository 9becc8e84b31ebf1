/** A plaintext flight sent over a network that loses, duplicates and reorders datagrams. */
module DtlsNetwork {
  import opened Bytes
  import opened Handshake
  import opened Reassembly
  import opened ReplayWindow
  import opened DtlsReceiver
  import opened DtlsRecord
  import opened DtlsReader
  import opened DtlsSealing
  import opened DtlsFlight
  import opened DtlsSender

  /** The largest MTU with which every fragment fits the receiver's plaintext limit. */
  const MAX_SAFE_MTU: nat := RECORD_HEADER_LENGTH + MAX_PLAIN_LENGTH

  // ---- the flight ----

  /**
   * An outgoing flight and its `plain` leading messages, which travel in epoch 0 and are numbered from `base`
   * modulo 2^16. A ChangeCipherSpec or messages of the next epoch may follow.
   */
  datatype PlainFlight = PlainFlight(msgs: seq<OutMsg>, plain: nat, base: nat, maxLen: nat)
  {
    predicate Valid() {
      && plain <= |msgs| <= MAX_FLIGHT && base < 0x1_0000
      && (forall i | 0 <= i < |msgs| :: msgs[i].WellFormed())
      && (forall i | 0 <= i < plain :: IsPlain(i))
      && (forall i | plain <= i < |msgs| :: msgs[i].isCcs || msgs[i].epoch != 0)
    }

    predicate IsPlain(i: nat)
      requires i < |msgs| && msgs[i].WellFormed()
    {
      && !msgs[i].isCcs && msgs[i].epoch == 0
      && msgs[i].Hdr().seqNo == Seq(i) && |msgs[i].Body()| <= maxLen
    }

    function TypeOf(i: nat): byte
      requires Valid() && i < plain
    {
      assert IsPlain(i);
      msgs[i].Hdr().typ
    }

    function Seq(i: nat): nat {
      (base + i) % 0x1_0000
    }

    /** Message `i` has crossed the wrap of the 16-bit counter. */
    predicate Wrapped(i: nat) {
      base + i >= 0x1_0000
    }

    /** What the receiver is meant to hand out for message `i`. */
    function Expected(i: nat): Message
      requires Valid() && i < plain
    {
      Message(TypeOf(i), msgs[i].Body(), msgs[i].data)
    }
  }

  /** Where a message's number stands relative to the number to read next. */
  lemma WindowCases(fl: PlainFlight, o: nat, j: nat)
    requires fl.Valid() && o <= fl.plain && j < fl.plain
    ensures o <= j && fl.Wrapped(o) == fl.Wrapped(j) ==> fl.Seq(j) - fl.Seq(o) == j - o < MAX_FLIGHT
    ensures j < o || fl.Wrapped(o) != fl.Wrapped(j) ==>
      fl.Seq(j) < fl.Seq(o) || fl.Seq(j) > fl.Seq(o) + MAX_FLIGHT
  {
  }

  /** A serialized message is its header, with the whole body as its only fragment, and its body. */
  lemma DataIsHeaderAndBody(m: OutMsg)
    requires m.WellFormed() && !m.isCcs
    ensures var size := |m.Body()|;
      size < 0x100_0000 && m.Hdr().msgLen == size
      && m.data == FragmentBytes(Handshake.Header(m.Hdr().typ, size, m.Hdr().seqNo, 0, size), m.Body())
  {
    EncodeParsed(m.data);
    var p := ParseFragment(m.data);
    assert FragmentBytes(p.hdr, p.body) + [] == FragmentBytes(p.hdr, p.body);
  }

  // ---- what has arrived ----

  /** The plaintext messages of which a fragment has been counted, and the counted body bytes. */
  datatype Arrivals = Arrivals(seen: set<nat>, bytes: set<(nat, nat)>)
  {
    function Add(p: Piece): Arrivals {
      Arrivals(seen + {p.index}, bytes + set k | p.off <= k < p.off + p.len :: (p.index, k))
    }

    /** Every byte of the body has been counted, and at least one fragment even if there are none. */
    predicate Covers(i: nat, size: nat) {
      i in seen && forall k | 0 <= k < size :: (i, k) in bytes
    }
  }

  /** The slot's message is a message of the flight not yet read, known exactly where bytes were counted. */
  predicate SlotMatches(fl: PlainFlight, o: nat, arr: Arrivals, j: nat, f: Frag)
    requires fl.Valid()
  {
    && o <= j < fl.plain && f.seqNo == fl.Seq(j) && j in arr.seen
    && f.typ == fl.TypeOf(j) && |f.body| == |fl.msgs[j].Body()|
    && forall k | 0 <= k < |f.body| ::
         f.body[k] == if (j, k) in arr.bytes then Some(fl.msgs[j].Body()[k]) else None
  }

  /** After `o` messages have been handed out, the ring holds exactly what has been counted of the others. */
  predicate RingMatches(fl: PlainFlight, o: nat, arr: Arrivals, ring: Ring)
    requires fl.Valid() && ring.Valid()
  {
    && o <= fl.plain && ring.readSeq == fl.Seq(o)
    && (forall i | 0 <= i < MAX_FLIGHT && ring.slots[i].Some? ::
          var f := ring.slots[i].value; SlotMatches(fl, o, arr, o + f.seqNo - ring.readSeq, f))
    && (forall j | j in arr.seen && j >= o :: HasSlot(fl, o, ring, j))
    && (forall p | p in arr.bytes :: p.0 in arr.seen)
  }

  predicate HasSlot(fl: PlainFlight, o: nat, ring: Ring, j: nat)
    requires ring.Valid()
  {
    && fl.Wrapped(j) == fl.Wrapped(o) && o <= j < fl.plain
    && ring.slots[fl.Seq(j) % MAX_FLIGHT].Some? && ring.slots[fl.Seq(j) % MAX_FLIGHT].value.seqNo == fl.Seq(j)
  }

  /** A fragment counts if its message is still to be read and no counter wrap lies in between. */
  predicate Counts(fl: PlainFlight, o: nat, j: nat) {
    o <= j && fl.Wrapped(o) == fl.Wrapped(j)
  }

  function Count(fl: PlainFlight, o: nat, arr: Arrivals, p: Piece): Arrivals {
    if Counts(fl, o, p.index) then arr.Add(p) else arr
  }

  /** A piece of one of the plaintext messages. */
  predicate PlainPiece(fl: PlainFlight, p: Piece)
    requires fl.Valid()
  {
    p.index < fl.plain && p.off + p.len <= |fl.msgs[p.index].Body()|
  }

  // ---- one honest fragment ----

  function HeaderOf(fl: PlainFlight, p: Piece): Handshake.Header
    requires fl.Valid() && PlainPiece(fl, p)
  {
    assert fl.IsPlain(p.index);
    PieceHeader(fl.msgs[p.index], p.off, p.len)
  }

  function BytesOf(fl: PlainFlight, p: Piece): seq<byte>
    requires fl.Valid() && PlainPiece(fl, p)
  {
    fl.msgs[p.index].Body()[p.off..p.off + p.len]
  }

  function Start(p: Piece): Piece {
    Piece(p.index, 0, 0)
  }

  /** Two numbers of one window with the same slot are the same number. */
  lemma SameSlot(r: nat, a: nat, b: nat)
    requires r <= a < r + MAX_FLIGHT && r <= b < r + MAX_FLIGHT && a % MAX_FLIGHT == b % MAX_FLIGHT
    ensures a == b
  {
  }

  lemma UntouchedSlot(fl: PlainFlight, o: nat, arr: Arrivals, p: Piece, j: nat, f: Frag)
    requires fl.Valid() && SlotMatches(fl, o, arr, j, f) && (j != p.index || p.len == 0)
    ensures SlotMatches(fl, o, arr.Add(p), j, f)
  {
  }

  lemma FreshSlot(fl: PlainFlight, o: nat, arr: Arrivals, p: Piece)
    requires fl.Valid() && PlainPiece(fl, p) && o <= p.index
    requires p.index !in arr.seen && forall q | q in arr.bytes :: q.0 in arr.seen
    ensures SlotMatches(fl, o, arr.Add(Start(p)), p.index, NewFrag(HeaderOf(fl, p)))
  {
    assert fl.IsPlain(p.index);
    DataIsHeaderAndBody(fl.msgs[p.index]);
  }

  lemma FilledSlot(fl: PlainFlight, o: nat, arr: Arrivals, p: Piece, f: Frag)
    requires fl.Valid() && PlainPiece(fl, p) && SlotMatches(fl, o, arr, p.index, f)
    ensures SlotMatches(fl, o, arr.Add(p), p.index, f.(body := Overlay(f.body, p.off, BytesOf(fl, p))))
    ensures Complete(f.body) ==> SlotMatches(fl, o, arr.Add(p), p.index, f)
  {
    hide OutMsg.WellFormed, OutMsg.Body, OutMsg.Hdr, PlainFlight.Valid, PlainFlight.IsPlain;
  }

  lemma HeaderFacts(fl: PlainFlight, p: Piece)
    requires fl.Valid() && PlainPiece(fl, p)
    ensures var h := HeaderOf(fl, p);
      && h.Valid() && h.seqNo == fl.Seq(p.index) && h.typ == fl.TypeOf(p.index)
      && h.msgLen == |fl.msgs[p.index].Body()| <= fl.maxLen && h.fragOff == p.off && h.fragLen == p.len == |BytesOf(fl, p)|
  {
    assert fl.IsPlain(p.index);
    DataIsHeaderAndBody(fl.msgs[p.index]);
  }

  /** The first fragment of a message gets the empty slot of its number. */
  lemma LookupFresh(fl: PlainFlight, o: nat, arr: Arrivals, ring: Ring, p: Piece)
    requires fl.Valid() && ring.Valid() && RingMatches(fl, o, arr, ring)
    requires PlainPiece(fl, p) && Counts(fl, o, p.index) && ring.slots[fl.Seq(p.index) % MAX_FLIGHT].None?
    ensures var (next, result) := ring.Lookup(HeaderOf(fl, p));
      result.Ok? && RingMatches(fl, o, arr.Add(Start(p)), next) && HasSlot(fl, o, next, p.index)
  {
    hide SlotMatches, PlainFlight.Valid, PlainPiece, HeaderOf, Arrivals.Add;
    var j, idx := p.index, fl.Seq(p.index) % MAX_FLIGHT;
    PieceInFlight(fl, o, p);
    AddedStart(arr, p);
    assert j in arr.seen ==> HasSlot(fl, o, ring, j);
    FreshSlot(fl, o, arr, p);
    var next := ring.Lookup(HeaderOf(fl, p)).0;
    assert next.slots == ring.slots[idx := Some(NewFrag(HeaderOf(fl, p)))];
    forall i | 0 <= i < MAX_FLIGHT && next.slots[i].Some?
      ensures var f := next.slots[i].value; SlotMatches(fl, o, arr.Add(Start(p)), o + f.seqNo - ring.readSeq, f)
    {
      if i != idx {
        var f := ring.slots[i].value;
        UntouchedSlot(fl, o, arr, Start(p), o + f.seqNo - ring.readSeq, f);
      }
    }
    forall k | k in arr.Add(Start(p)).seen && k >= o ensures HasSlot(fl, o, next, k) {
      if k != j {
        assert HasSlot(fl, o, ring, k);
      }
    }
  }

  lemma AddedStart(arr: Arrivals, p: Piece)
    ensures arr.Add(Start(p)) == Arrivals(arr.seen + {p.index}, arr.bytes)
  {
  }

  lemma PieceInFlight(fl: PlainFlight, o: nat, p: Piece)
    requires fl.Valid() && PlainPiece(fl, p) && o <= fl.plain
    ensures p.index < fl.plain && fl.plain <= MAX_FLIGHT && HeaderOf(fl, p).Valid()
    ensures HeaderOf(fl, p).seqNo == fl.Seq(p.index)
    ensures Counts(fl, o, p.index) ==> fl.Seq(p.index) - fl.Seq(o) == p.index - o < MAX_FLIGHT
  {
    HeaderFacts(fl, p);
    WindowCases(fl, o, p.index);
  }

  /** A later fragment finds its message there, with the same type and length. */
  lemma LookupFound(fl: PlainFlight, o: nat, arr: Arrivals, ring: Ring, p: Piece)
    requires fl.Valid() && ring.Valid() && RingMatches(fl, o, arr, ring)
    requires PlainPiece(fl, p) && Counts(fl, o, p.index) && ring.slots[fl.Seq(p.index) % MAX_FLIGHT].Some?
    ensures ring.Lookup(HeaderOf(fl, p)) == (ring, Ok)
    ensures arr.Add(Start(p)) == arr && HasSlot(fl, o, ring, p.index)
  {
    hide PlainFlight.Valid, PlainPiece, HeaderOf, Arrivals.Add, SlotMatches, OutMsg.Body, PlainFlight.TypeOf, PlainFlight.Seq;
    HeaderFacts(fl, p);
    PieceInFlight(fl, o, p);
    var f := ring.slots[fl.Seq(p.index) % MAX_FLIGHT].value;
    assert SlotMatches(fl, o, arr, o + f.seqNo - ring.readSeq, f);
    MatchFacts(fl, o, arr, o + f.seqNo - ring.readSeq, f);
    SameSlot(ring.readSeq, f.seqNo, fl.Seq(p.index));
    SeenAlready(arr, p);
  }

  lemma MatchFacts(fl: PlainFlight, o: nat, arr: Arrivals, j: int, f: Frag)
    requires fl.Valid() && j >= 0 && SlotMatches(fl, o, arr, j, f)
    ensures o <= j < fl.plain <= MAX_FLIGHT && f.seqNo == fl.Seq(j) && j in arr.seen
    ensures f.typ == fl.TypeOf(j) && |f.body| == |fl.msgs[j].Body()|
  {
    hide PlainFlight.Seq, PlainFlight.TypeOf, OutMsg.Body;
  }

  lemma SeenAlready(arr: Arrivals, p: Piece)
    requires p.index in arr.seen
    ensures arr.Add(Start(p)) == arr
  {
    AddedStart(arr, p);
    assert arr.seen + {p.index} == arr.seen;
  }

  /** Storing the bytes of a counted fragment. */
  lemma FillHonest(fl: PlainFlight, o: nat, arr: Arrivals, ring: Ring, p: Piece)
    requires fl.Valid() && ring.Valid() && RingMatches(fl, o, arr.Add(Start(p)), ring)
    requires PlainPiece(fl, p) && HasSlot(fl, o, ring, p.index)
    ensures RingMatches(fl, o, arr.Add(p), ring.Fill(fl.Seq(p.index) % MAX_FLIGHT, p.off, BytesOf(fl, p)))
  {
    hide SlotMatches, PlainFlight.Valid, PlainPiece, BytesOf, Complete, Overlay, Arrivals.Add;
    var idx := fl.Seq(p.index) % MAX_FLIGHT;
    var was := arr.Add(Start(p));
    PieceInFlight(fl, o, p);
    AddedAfterStart(arr, p);
    var next := ring.Fill(idx, p.off, BytesOf(fl, p));
    FilledSlot(fl, o, was, p, ring.slots[idx].value);
    forall i | 0 <= i < MAX_FLIGHT && next.slots[i].Some?
      ensures var f := next.slots[i].value; SlotMatches(fl, o, arr.Add(p), o + f.seqNo - ring.readSeq, f)
    {
      if i != idx {
        var f := ring.slots[i].value;
        UntouchedSlot(fl, o, was, p, o + f.seqNo - ring.readSeq, f);
      }
    }
    forall k | k in arr.Add(p).seen && k >= o ensures HasSlot(fl, o, next, k) {
      assert HasSlot(fl, o, ring, k);
    }
  }

  lemma AddedAfterStart(arr: Arrivals, p: Piece)
    ensures arr.Add(Start(p)).Add(p) == arr.Add(p) && arr.Add(p).seen == arr.Add(Start(p)).seen
    ensures p.index in arr.Add(p).seen
    ensures (forall q | q in arr.Add(Start(p)).bytes :: q.0 in arr.Add(p).seen) ==>
      forall q | q in arr.Add(p).bytes :: q.0 in arr.Add(p).seen
  {
    assert arr.Add(Start(p)).bytes == arr.bytes;
  }

  /** An honest fragment is never an error; it is stored exactly if it counts. */
  lemma AcceptHonest(fl: PlainFlight, o: nat, arr: Arrivals, ring: Ring, p: Piece)
    requires fl.Valid() && ring.Valid() && RingMatches(fl, o, arr, ring) && PlainPiece(fl, p)
    ensures var (next, result) := ring.Accept(0, fl.maxLen, HeaderOf(fl, p), BytesOf(fl, p));
      result.Ok? && RingMatches(fl, o, Count(fl, o, arr, p), next)
  {
    hide RingMatches, PlainFlight.Valid, HeaderOf, BytesOf, Arrivals.Add, Ring.Lookup, Ring.Fill;
    HeaderFacts(fl, p);
    RingPosition(fl, o, arr, ring);
    WindowCases(fl, o, p.index);
    if Counts(fl, o, p.index) {
      if ring.slots[fl.Seq(p.index) % MAX_FLIGHT].None? {
        LookupFresh(fl, o, arr, ring, p);
      } else {
        LookupFound(fl, o, arr, ring, p);
      }
      FillHonest(fl, o, arr, ring.Lookup(HeaderOf(fl, p)).0, p);
    }
  }

  lemma RingPosition(fl: PlainFlight, o: nat, arr: Arrivals, ring: Ring)
    requires fl.Valid() && ring.Valid() && RingMatches(fl, o, arr, ring)
    ensures o <= fl.plain && ring.readSeq == fl.Seq(o)
  {
  }

  // ---- one record of the sender ----

  datatype Item = Fragment(piece: Piece) | ChangeCipher | OtherEpoch

  /** A record in flight, with what it carries. */
  datatype Flying = Flying(record: WireRecord, item: Item)

  /** What the sender makes of a piece of the flight, of whatever size. */
  predicate Genuine(fl: PlainFlight, x: Flying)
    requires fl.Valid()
  {
    && x.record.Valid() && x.record.version / 256 == VERSION_MAJOR
    && match x.item
       case Fragment(p) =>
         && PlainPiece(fl, p) && x.record.epoch == 0 && x.record.typ == HANDSHAKE
         && x.record.body == FragmentBytes(HeaderOf(fl, p), BytesOf(fl, p))
       case ChangeCipher =>
         x.record.epoch == 0 && x.record.typ == CHANGE_CIPHER_SPEC && x.record.body == DtlsReader.CCS_PAYLOAD
       case OtherEpoch =>
         x.record.epoch != 0
  }

  predicate AllGenuine(fl: PlainFlight, xs: seq<Flying>)
    requires fl.Valid()
  {
    forall i | 0 <= i < |xs| :: Genuine(fl, xs[i])
  }

  predicate AllValid(xs: seq<Flying>) {
    forall i | 0 <= i < |xs| :: xs[i].record.Valid()
  }

  /** The bytes of a datagram. */
  function WireOf(xs: seq<Flying>): seq<byte>
    requires AllValid(xs)
  {
    if xs == [] then [] else xs[0].record.Wire() + WireOf(xs[1..])
  }

  /** The reader is in the plaintext epoch. */
  predicate Plaintext(rec: ReadState) {
    rec.epoch == 0 && rec.cipher.NullRead? && !rec.closed
  }

  // ---- the replay window over a whole run ----

  /** Not 64 or more behind any of these numbers. */
  predicate InTime(got: set<nat>, n: nat) {
    forall g | g in got :: n + WINDOW_SIZE > g
  }

  /** Neither seen before nor too late. */
  predicate IsNew(got: set<nat>, n: nat) {
    n !in got && InTime(got, n)
  }

  /** The window has accepted exactly these numbers. */
  predicate WindowIs(w: Window, got: set<nat>) {
    w.accepted == got && (forall g | g in got :: g <= w.max) && (w.max == 0 || w.max in got)
  }

  lemma DiscardsOldOnly(w: Window, got: set<nat>, n: nat)
    requires WindowIs(w, got)
    ensures w.Discards(n) <==> !IsNew(got, n)
    ensures IsNew(got, n) ==> WindowIs(w.Record(n), got + {n})
  {
    if !w.Discards(n) && w.max != 0 && n <= w.max {
      assert w.max in got;
    }
  }

  /** A record of readable size is consumed, and dropped or opened. */
  lemma OpenReadable(rec: ReadState, r: WireRecord, rest: seq<byte>)
    requires Plaintext(rec) && r.Valid() && |r.body| <= MAX_ENCRYPTED_LENGTH && r.version / 256 == VERSION_MAJOR
    requires r.epoch == 0 ==> r.typ != ALERT
    ensures var n := U64(r.Sequence());
      rec.Open(r.Wire() + rest) ==
        if r.epoch != 0 || rec.window.Discards(n) then (rec, DtlsRecord.Discard, |r.Wire()|)
        else if |r.body| > MAX_PLAIN_LENGTH then (rec, DtlsRecord.TooLong, |r.Wire()|)
        else (rec.(window := rec.window.Record(n)), DtlsRecord.Success(r.typ, r.body), |r.Wire()|)
  {
    hide WireRecord.Wire, WireRecord.Sequence, Window.Discards, Window.Record, ParseRecord, U64;
    ParseWire(r, rest);
    SequenceEpoch(r);
    WireNotEmpty(r, rest);
  }

  lemma WireNotEmpty(r: WireRecord, rest: seq<byte>)
    requires r.Valid()
    ensures r.Wire() + rest != [] && |r.Wire() + rest| == |r.Wire()| + |rest|
  {
    hide WireRecord.Header, WireRecord.Sequence;
  }

  lemma OpenUnreadable(rec: ReadState, r: WireRecord, rest: seq<byte>)
    requires Plaintext(rec) && r.Valid() && |r.body| > MAX_ENCRYPTED_LENGTH
    ensures rec.Open(r.Wire() + rest) == (rec, DtlsRecord.Discard, |r.Wire() + rest|)
  {
    hide WireRecord.Wire, ParseRecord;
    ParseTooLong(r, rest);
    WireNotEmpty(r, rest);
  }

  /** What opening a record does, by its epoch, its number and its size. */
  lemma OpenGenuineRecord(fl: PlainFlight, rec: ReadState, got: set<nat>, x: Flying, rest: seq<byte>)
    requires fl.Valid() && Genuine(fl, x) && Plaintext(rec) && WindowIs(rec.window, got)
    ensures var (next, outcome, consumed) := rec.Open(x.record.Wire() + rest);
      if |x.record.body| > MAX_ENCRYPTED_LENGTH then
        outcome == DtlsRecord.Discard && next == rec && consumed == |x.record.Wire() + rest|
      else if x.record.epoch != 0 || !IsNew(got, x.record.seqNum) then
        outcome == DtlsRecord.Discard && next == rec && consumed == |x.record.Wire()|
      else if |x.record.body| > MAX_PLAIN_LENGTH then
        outcome == DtlsRecord.TooLong && next == rec
      else
        && outcome == DtlsRecord.Success(x.record.typ, x.record.body) && consumed == |x.record.Wire()|
        && Plaintext(next) && WindowIs(next.window, got + {x.record.seqNum})
  {
    hide WireRecord.Wire, WireRecord.Sequence, Window.Discards, Window.Record, ReadState.Open, U64, IsNew, WindowIs,
      PlainFlight.Valid, HeaderOf, BytesOf, FragmentBytes, PlainPiece;
    if |x.record.body| > MAX_ENCRYPTED_LENGTH {
      OpenUnreadable(rec, x.record, rest);
    } else {
      OpenReadable(rec, x.record, rest);
      SequenceNumber(x.record);
      DiscardsOldOnly(rec.window, got, U64(x.record.Sequence()));
    }
  }

  /** A handshake record with one fragment of the flight. */
  lemma ProcessHonest(fl: PlainFlight, o: nat, arr: Arrivals, ring: Ring, p: Piece)
    requires fl.Valid() && ring.Valid() && RingMatches(fl, o, arr, ring) && PlainPiece(fl, p)
    ensures var (next, result) := ring.ProcessRecord(0, fl.maxLen, FragmentBytes(HeaderOf(fl, p), BytesOf(fl, p)));
      result.Ok? && RingMatches(fl, o, Count(fl, o, arr, p), next)
  {
    hide RingMatches, PlainFlight.Valid, HeaderOf, BytesOf, Arrivals.Add, Ring.Accept, FragmentBytes;
    HeaderFacts(fl, p);
    AcceptHonest(fl, o, arr, ring, p);
    var h, b := HeaderOf(fl, p), BytesOf(fl, p);
    ParseEncoded(h, b, []);
    assert FragmentBytes(h, b) + [] == FragmentBytes(h, b);
    var next := ring.Accept(0, fl.maxLen, h, b).0;
    assert next.ProcessRecord(0, fl.maxLen, []) == (next, Ok);
  }

  /** What a new record in the plaintext epoch adds to the arrivals. */
  function Counted(fl: PlainFlight, o: nat, arr: Arrivals, item: Item): Arrivals {
    if item.Fragment? then Count(fl, o, arr, item.piece) else arr
  }

  /** A record that is new: in the plaintext epoch, with a number neither seen before nor too late. */
  predicate NewRecord(got: set<nat>, x: Flying) {
    x.record.epoch == 0 && IsNew(got, x.record.seqNum)
  }

  /** What the reader does with the first record of a datagram of the sender: the outcome decided by number and size. */
  lemma OpenGenuine(fl: PlainFlight, o: nat, arr: Arrivals, got: set<nat>, st: ReaderState, xs: seq<Flying>)
    requires fl.Valid() && st.Valid() && Plaintext(st.rec) && RingMatches(fl, o, arr, st.ring) && WindowIs(st.rec.window, got)
    requires AllGenuine(fl, xs) && xs != []
    ensures var (next, opening, consumed) := st.OpenHandshake(fl.maxLen, WireOf(xs));
      if |xs[0].record.body| > MAX_ENCRYPTED_LENGTH then
        opening == Discarded && next == st && consumed == |WireOf(xs)|
      else if !NewRecord(got, xs[0]) then
        opening == Discarded && next == st && consumed == |xs[0].record.Wire()|
      else if |xs[0].record.body| > MAX_PLAIN_LENGTH then
        opening == Failed(RecordOverflow)
      else
        && opening == Opened && consumed == |xs[0].record.Wire()| && Plaintext(next.rec)
        && WindowIs(next.rec.window, got + {xs[0].record.seqNum})
        && RingMatches(fl, o, Counted(fl, o, arr, xs[0].item), next.ring) && next.hasMessage == st.hasMessage
  {
    hide RingMatches, PlainFlight.Valid, HeaderOf, BytesOf, Count, WireRecord.Wire, WireRecord.Sequence, Ring.ProcessRecord,
      ReadState.Open, FragmentBytes, PlainPiece, WindowIs, IsNew;
    OpenGenuineRecord(fl, st.rec, got, xs[0], WireOf(xs[1..]));
    if xs[0].item.Fragment? {
      ProcessHonest(fl, o, arr, st.ring, xs[0].item.piece);
    }
  }

  /** What the application gets is exactly the next message, as soon as it is covered and not before. */
  lemma CurrentIsExpected(fl: PlainFlight, o: nat, arr: Arrivals, ring: Ring)
    requires fl.Valid() && ring.Valid() && RingMatches(fl, o, arr, ring)
    ensures ring.Current().Some? <==> o < fl.plain && arr.Covers(o, |fl.msgs[o].Body()|)
    ensures ring.Current().Some? ==> ring.Current().value == fl.Expected(o)
  {
    hide PlainFlight.Valid, OutMsg.WellFormed, OutMsg.Hdr, OutMsg.Body;
    var slot := ring.slots[ring.readSeq % MAX_FLIGHT];
    if slot.Some? {
      var f := slot.value;
      SameSlot(ring.readSeq, f.seqNo, ring.readSeq);
      assert SlotMatches(fl, o, arr, o, f);
      CompleteBody(fl, o, arr, f);
    }
    if o < fl.plain && o in arr.seen {
      assert HasSlot(fl, o, ring, o);
    }
  }

  lemma CompleteBody(fl: PlainFlight, o: nat, arr: Arrivals, f: Frag)
    requires fl.Valid() && SlotMatches(fl, o, arr, o, f)
    ensures Complete(f.body) <==> arr.Covers(o, |fl.msgs[o].Body()|)
    ensures Complete(f.body) ==>
      var b := BodyBytes(f.body);
      Message(f.typ, b, FragmentBytes(Handshake.Header(f.typ, |b|, f.seqNo, 0, |b|), b)) == fl.Expected(o)
  {
    assert fl.IsPlain(o);
    DataIsHeaderAndBody(fl.msgs[o]);
    if Complete(f.body) {
      assert BodyBytes(f.body) == fl.msgs[o].Body();
    }
  }

  lemma SlotAfterNext(fl: PlainFlight, o: nat, arr: Arrivals, ring: Ring, i: nat)
    requires fl.Valid() && ring.Valid() && RingMatches(fl, o, arr, ring) && o < fl.plain
    requires i < MAX_FLIGHT && ring.Next().slots[i].Some?
    ensures var f := ring.Next().slots[i].value;
      f == ring.slots[i].value && f.seqNo > ring.readSeq && fl.Wrapped(o) == fl.Wrapped(o + 1)
      && SlotMatches(fl, o + 1, arr, o + 1 + f.seqNo - ring.Next().readSeq, f)
  {
    hide PlainFlight.Valid, SlotMatches, PlainFlight.Seq, PlainFlight.Wrapped;
    var f := ring.slots[i].value;
    var j := o + f.seqNo - ring.readSeq;
    assert SlotMatches(fl, o, arr, j, f);
    MatchesLater(fl, o, arr, j, f);
    NoWrapStep(fl, o);
  }

  lemma MatchesLater(fl: PlainFlight, o: nat, arr: Arrivals, j: nat, f: Frag)
    requires fl.Valid() && SlotMatches(fl, o, arr, j, f)
    ensures j >= o && (j > o ==> SlotMatches(fl, o + 1, arr, j, f))
  {
    hide PlainFlight.Valid, PlainFlight.TypeOf, OutMsg.Body, OutMsg.WellFormed;
  }

  lemma NoWrapStep(fl: PlainFlight, o: nat)
    requires fl.Valid() && o < fl.plain
    ensures fl.Seq(o) < 0xffff ==> fl.Wrapped(o) == fl.Wrapped(o + 1)
  {
    hide PlainFlight.IsPlain, OutMsg.WellFormed;
  }

  lemma HasSlotAfterNext(fl: PlainFlight, o: nat, arr: Arrivals, ring: Ring, k: nat)
    requires fl.Valid() && ring.Valid() && RingMatches(fl, o, arr, ring) && o < fl.plain
    requires k in arr.seen && k >= o + 1
    ensures HasSlot(fl, o + 1, ring.Next(), k)
  {
    hide PlainFlight.Valid, SlotMatches, PlainFlight.Seq, PlainFlight.Wrapped;
    assert HasSlot(fl, o, ring, k);
    OtherSlot(fl, o, k);
  }

  /** Without a wrap in between, two messages of a flight have different slots. */
  lemma OtherSlot(fl: PlainFlight, o: nat, k: nat)
    requires fl.Valid() && o < k < fl.plain && fl.Wrapped(k) == fl.Wrapped(o)
    ensures fl.Seq(k) % MAX_FLIGHT != fl.Seq(o) % MAX_FLIGHT && fl.Wrapped(o + 1) == fl.Wrapped(k)
  {
    hide PlainFlight.IsPlain, OutMsg.WellFormed;
    SmallFlight(fl);
    assert fl.Seq(k) == fl.Seq(o) + (k - o);
    var m := fl.Seq(o);
    assert (m + (k - o)) % MAX_FLIGHT != m % MAX_FLIGHT;
  }

  lemma SmallFlight(fl: PlainFlight)
    requires fl.Valid()
    ensures fl.plain <= MAX_FLIGHT
  {
  }

  /** Moving on to the next message keeps the ring in step, also when the counter wraps. */
  lemma NextMatches(fl: PlainFlight, o: nat, arr: Arrivals, ring: Ring)
    requires fl.Valid() && ring.Valid() && RingMatches(fl, o, arr, ring) && ring.Current().Some?
    ensures o < fl.plain && RingMatches(fl, o + 1, arr, ring.Next())
  {
    hide PlainFlight.Valid, SlotMatches, HasSlot, Ring.Current;
    CurrentIsExpected(fl, o, arr, ring);
    var next := ring.Next();
    forall i | 0 <= i < MAX_FLIGHT && next.slots[i].Some?
      ensures var f := next.slots[i].value; SlotMatches(fl, o + 1, arr, o + 1 + f.seqNo - next.readSeq, f)
    {
      SlotAfterNext(fl, o, arr, ring, i);
    }
    forall k | k in arr.seen && k >= o + 1 ensures HasSlot(fl, o + 1, next, k) {
      HasSlotAfterNext(fl, o, arr, ring, k);
    }
  }
}
