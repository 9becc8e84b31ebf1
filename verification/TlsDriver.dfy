/**
 * One side of the handshake as it runs, over a buffer of bytes and records of bytes: how it reads, writes and
 * waits, and one method for each `do_` function. On whole messages each does what the machine does.
 */
module TlsDriver {
  import opened Bytes
  import opened TlsMachines
  import opened TlsComposition
  import opened TlsRuns
  import opened TlsWire
  import Stream = HandshakeStream

  /** One direction of the connection: records sent and not yet opened. */
  class Pipe {
    var records: seq<Stream.Record>
    // the items sent whole that the receiver has not yet looked at, and the part of the next that has been sent
    ghost var items: seq<Item>
    ghost var tail: seq<Stream.Token>
    ghost var coming: Option<Message>

    constructor ()
      ensures records == [] && items == [] && tail == []
    {
      records, items, tail, coming := [], [], [], None;
    }
  }

  /** How a wait was resolved: as in the machine, not yet though a record came, or by a record out of place. */
  datatype How = Moved(r: Resolution) | Asleep | Stray

  class Side<S(==)> {
    const hash: (seq<byte>, bool) -> seq<byte>
    const limit: nat
    const reader: Stream.HandshakeReader
    const writer: Stream.FlightWriter
    var state: S
    var wait: Wait
    var transcript: seq<byte>
    var certSeen: bool
    // the messages hashed, the message looked at, the items written and not wholly sent, and the part sent of the first
    ghost var history: seq<Message>
    ghost var inbox: Option<Message>
    ghost var pending: seq<Item>
    ghost var part: seq<Stream.Token>

    constructor (start: S, hash: (seq<byte>, bool) -> seq<byte>, limit: nat, maxFragment: nat, inp: Pipe)
      requires 1 <= limit < 0x100_0000 && maxFragment > 0 && inp.records == [] && inp.items == [] && inp.tail == []
      ensures Now() == Endpoint(start, Ready, [], [], None, false) && Valid(inp) && part == []
      ensures this.hash == hash && this.limit == limit && fresh(reader) && fresh(writer)
    {
      this.hash, this.limit := hash, limit;
      reader := new Stream.HandshakeReader();
      writer := new Stream.FlightWriter(maxFragment);
      state, wait, transcript, certSeen := start, Ready, [], false;
      history, inbox, pending, part := [], None, [], [];
    }

    /** The machine that this is an implementation of. */
    ghost function Now(): Endpoint<S>
      reads this
    {
      Endpoint(state, wait, history, pending, inbox, certSeen)
    }

    /** The machine, were it to stop here with this to wait for. */
    ghost function Paused(w: Wait): Endpoint<S>
      reads this
    {
      Now().(wait := w)
    }

    /** The Finished of the machine is a hash over the bytes of its transcript. */
    ghost predicate Agrees(p: Params) {
      && (forall ms, b :: p.mac(ms, b) == hash(Raws(ms), b))
      && (forall bytes, b :: |hash(bytes, b)| <= limit)
    }

    /** The pending records are the items written, less the part that has been sent. */
    ghost predicate Sends()
      reads this`pending, this`part, writer
    {
      && writer.maxSendFragment > 0 && AllFit(pending, limit) && (forall r | r in writer.records :: Stream.Filled(r))
      && Unsent(pending, part, Stream.Flat(writer.records))
    }

    /** The bytes in the buffer behind the message looked at. */
    ghost function Rest(): seq<byte>
      reads this`inbox, reader
    {
      var buf := reader.Now().buf;
      if inbox.Some? && |RawOf(inbox.value)| <= |buf| then buf[|RawOf(inbox.value)|..] else buf
    }

    /** Buffer and records together are the items to come and a part of another. */
    ghost predicate Receives(inp: Pipe)
      reads this`inbox, reader, inp
    {
      && reader.Valid() && reader.emptyRecordCount == 0 && (forall r | r in inp.records :: Stream.Filled(r))
      && (reader.hasMessage <==> inbox.Some?)
      && (inbox.Some? ==> Stream.Parse(reader.Now().buf) == Some(Concrete(inbox.value)))
      && Carries(Stream.Tokens(Rest()) + Stream.Flat(inp.records), inp.items, inp.tail, inp.coming, limit)
    }

    ghost predicate Valid(inp: Pipe)
      reads this`transcript, this`history, this`inbox, this`pending, this`part, reader, writer, inp
    {
      1 <= limit < 0x100_0000 && transcript == Raws(history) && Sends() && Receives(inp)
    }

    /** There is no whole message to look at. */
    ghost predicate Starved()
      reads this`inbox, reader
    {
      inbox.None? && Stream.Parse(reader.Now().buf).None?
    }

    /** Nothing was sent, and nothing that was written is lost. */
    twostate predicate Kept()
      reads this
    {
      part == old(part) && old(pending) <= pending
    }

    lemma LimitIsPositive(inp: Pipe)
      requires Valid(inp)
      ensures limit >= 1
    {
    }

    method AddMessage(inp: Pipe, kind: Kind, body: seq<byte>)
      requires Valid(inp) && |body| <= limit
      modifies this`transcript, this`history, this`pending, writer
      ensures Valid(inp) && Kept() && Now() == old(Now()).Send(kind, body)
    {
      hide Stream.Flat, FlatItems, Carries, RawOf, Raws;
      ghost var m := Message(kind, body);
      var raw := Stream.Message(TypeOf(kind), body).Raw();
      assert raw == RawOf(m) by {
        RawIs(m);
      }
      RawsAppend(history, m);
      transcript := transcript + raw;
      UnsentMore(pending, part, Stream.Flat(writer.records), Hs(m), Stream.Flat(writer.records) + Stream.Tokens(raw));
      ghost var before := writer.records;
      writer.AddMessage(raw);
      AllFilled(before, writer.records);
      history := history + [m];
      pending := pending + [Hs(m)];
    }

    method AddChangeCipherSpec(inp: Pipe)
      requires Valid(inp)
      modifies this`pending, writer
      ensures Valid(inp) && Kept() && Now() == old(Now()).SendCcs()
    {
      hide Stream.Flat, FlatItems, Carries, RawOf, Raws;
      UnsentMore(pending, part, Stream.Flat(writer.records), Ccs, Stream.Flat(writer.records) + [Stream.Change]);
      writer.AddChangeCipherSpec();
      pending := pending + [Ccs];
    }

    /** The message at the front of the buffer, if all of it is there; in the machine it may be looked at only now. */
    method GetMessage(inp: Pipe) returns (m: Option<Stream.Message>, ghost pulled: bool)
      requires Valid(inp)
      modifies this`inbox, reader`hasMessage, inp`items
      ensures Valid(inp) && (m.Some? <==> inbox.Some?) && (m.None? ==> Starved())
      ensures m.Some? ==> m.value == Concrete(inbox.value) && forall k :: m.value.typ == TypeOf(k) <==> inbox.value.kind == k
      ensures MayPull(old(Now()), old(inp.items), pulled) && inp.items == ItemsAfter(pulled, old(inp.items))
      ensures Now() == Pulled(old(Now()), pulled, old(inp.items))
    {
      hide Carries, RawOf, Raws, Stream.Flat, Stream.Parse, Stream.Message.Raw;
      pulled := false;
      m := reader.GetMessage();
      if m.Some? && inbox.None? {
        WholeIsFirst(reader.Now().buf, Stream.Flat(inp.records), inp.items, inp.tail, inp.coming, limit);
        pulled := true;
        inbox := Some(inp.items[0].msg);
        RawIs(inbox.value);
        inp.items := inp.items[1..];
      }
      if m.Some? {
        forall k ensures m.value.typ == TypeOf(k) <==> inbox.value.kind == k {
          if m.value.typ == TypeOf(k) {
            TypesDiffer(inbox.value.kind, k);
          }
        }
      }
    }

    /** Hashes the message looked at and releases it. */
    method HashAndNext(inp: Pipe)
      requires Valid(inp) && inbox.Some?
      modifies this`transcript, this`history, this`inbox, reader
      ensures Valid(inp) && Now() == old(Now()).Take()
    {
      hide Carries, Raws, Stream.Flat, Stream.Parse, Stream.Message.Raw;
      ghost var rest := Rest();
      var m := reader.GetMessage();
      RawIs(inbox.value);
      RawsAppend(history, inbox.value);
      transcript := transcript + m.value.Raw();
      history := history + [inbox.value];
      reader.NextMessage();
      inbox := None;
      assert Rest() == rest;
    }

    /** The next message must be of this kind; it is hashed, and the machine goes on. */
    method ReadExpected(inp: Pipe, kind: Kind, next: S) returns (ret: Wait, ghost pulled: bool)
      requires Valid(inp)
      modifies this`state, this`transcript, this`history, this`inbox, reader, inp`items
      ensures Valid(inp) && (ret == ReadMessage ==> Starved() && state == old(state))
      ensures MayPull(old(Now()), old(inp.items), pulled) && inp.items == ItemsAfter(pulled, old(inp.items))
      ensures Paused(ret) == Pulled(old(Paused(Ready)), pulled, old(inp.items)).Expect(kind, next)
    {
      hide Valid;
      var m;
      m, pulled := GetMessage(inp);
      if m.None? {
        return ReadMessage, pulled;
      }
      if m.value.typ != TypeOf(kind) {
        return Error, pulled;
      }
      HashAndNext(inp);
      state := next;
      ret := Ready;
    }

    /** The next message, if all of it has come, is a Finished over the bytes hashed so far. */
    ghost predicate HoldsFinished(m: Option<Message>, peerIsClient: bool)
      reads this`transcript
    {
      m.Some? && m.value.kind == Finished && m.value.body == hash(transcript, peerIsClient)
    }

    /** The peer's Finished against the hash of the transcript before it. */
    method GetFinished(p: Params, inp: Pipe, peerIsClient: bool, next: S) returns (ret: Wait, ghost pulled: bool)
      requires Valid(inp) && Agrees(p)
      modifies this`state, this`transcript, this`history, this`inbox, reader, inp`items
      ensures Valid(inp) && (ret == ReadMessage ==> Starved() && state == old(state))
      ensures MayPull(old(Now()), old(inp.items), pulled) && inp.items == ItemsAfter(pulled, old(inp.items))
      ensures Paused(ret) == ReadFinished(p, Pulled(old(Paused(Ready)), pulled, old(inp.items)), peerIsClient, next)
      ensures ret == Ready <==> old(HoldsFinished(Pulled(Now(), pulled, inp.items).inbox, peerIsClient))
      ensures ret == ReadMessage <==> Pulled(old(Now()), pulled, old(inp.items)).inbox.None?
      ensures ret == Ready || ret == ReadMessage || ret == Error
    {
      hide Sends, Receives, Raws;
      var m;
      m, pulled := GetMessage(inp);
      if m.None? {
        return ReadMessage, pulled;
      }
      if m.value.typ != TypeOf(Finished) {
        return Error, pulled;
      }
      var finished := hash(transcript, peerIsClient);
      assert finished == p.mac(history, peerIsClient);
      if m.value.body != finished {
        return Error, pulled;
      }
      HashAndNext(inp);
      state := next;
      ret := Ready;
    }

    method AddFinished(p: Params, inp: Pipe, isClient: bool)
      requires Valid(inp) && Agrees(p)
      modifies this`transcript, this`history, this`pending, writer
      ensures Valid(inp) && Kept() && Now() == SendFinished(p, old(Now()), isClient)
    {
      hide Sends, Receives, Raws;
      assert hash(transcript, isClient) == p.mac(history, isClient);
      AddMessage(inp, Finished, hash(transcript, isClient));
    }

    /** The pipe out has what has been sent of the first item. */
    ghost predicate Linked(out: Pipe)
      reads this`pending, this`part, out
    {
      IsPart(pending, part, out.tail, out.coming, limit)
    }

    /** An error, a callback to come back to, a flight that is not out yet, or nothing to read. */
    predicate HeldUp(inp: Pipe)
      reads this, writer, inp
    {
      wait == Error || wait == Ready || (wait == Flush && writer.records != []) || Reads(inp)
    }

    /** It waits for a record, and there is none. */
    predicate Reads(inp: Pipe)
      reads this, inp
    {
      (wait == ReadMessage || wait == ReadCcs) && inp.records == []
    }

    /** Nothing has to be read or called back before the machine runs. */
    predicate Runs()
      reads this
    {
      wait == Flush || wait == Ready
    }

    /** Writes as many of the pending records as the transport takes: all of them, if it is willing. */
    method FlushFlight(inp: Pipe, out: Pipe, willing: bool) returns (ghost n: nat)
      requires Valid(inp) && Linked(out) && inp != out
      modifies this`pending, this`part, writer, out
      ensures Valid(inp) && Linked(out) && n <= |old(pending)| && pending == old(pending)[n..]
      ensures (writer.records == [] <==> n == |old(pending)|) && (willing ==> writer.records == [])
      ensures out.items == old(out.items) + old(pending)[..n]
      ensures Extends(old(out.records), old(out.items), old(out.tail), out.records, out.items, out.tail)
      ensures Supplies(old(out.records), old(out.items), out.records, out.items, limit)
    {
      hide Receives, Raws, RawOf, Stream.Flat, FlatItems, Unsent, Extends, Supplies, ItemFits, Stream.Filled;
      var k := *;
      if willing || k < 0 || k > |writer.records| {
        k := if willing then |writer.records| else 0;
      }
      ghost var part';
      n, part' := FlushSome(pending, part, writer.records, k, out.records, out.items, limit);
      out.records := out.records + writer.records[..k];
      out.items := out.items + pending[..n];
      out.tail := part';
      out.coming := if part' == [] then None else Some(pending[n].msg);
      writer.records := writer.records[k..];
      pending, part := pending[n..], part';
    }

    /**
     * Resolves what the machine waits for: the flight is written as far as the transport takes it, one
     * record is read, or the caller has to call again. Returns whether the machine can run.
     */
    method ResolveWait(inp: Pipe, out: Pipe, willing: bool) returns (run: bool, ghost how: How)
      requires Valid(inp) && Linked(out) && inp != out && (wait == ReadMessage ==> Starved())
      modifies this`wait, this`pending, this`part, reader, writer, inp`records, inp`items, out
      ensures Valid(inp) && Linked(out) && inp.tail == old(inp.tail) && inp.coming == old(inp.coming)
      ensures how.Moved? ==>
        && Now() == Resolve(old(Now()), how.r, old(inp.items)) && inp.items == Incoming(old(Now()), how.r, old(inp.items))
        && out.items == old(out.items) + Outgoing(old(Now()), how.r)
      ensures !how.Moved? ==> Now() == old(Now()).(wait := wait) && inp.items == old(inp.items) && out.items == old(out.items)
      ensures how.Asleep? ==> run && old(wait) == ReadMessage
      ensures how.Stray? ==>
        wait == Error && old(wait) == ReadCcs && (if inp.items != [] then inp.items[0].Hs? else inp.tail != [])
      ensures Extends(old(out.records), old(out.items), old(out.tail), out.records, out.items, out.tail)
      ensures Supplies(old(out.records), old(out.items), out.records, out.items, limit)
      ensures run <==> wait == Ready && old(wait) != Pending
      ensures (old(wait) == Ready ==> run) && (old(wait) == Error ==> !run) && (!run ==> HeldUp(inp))
      ensures (wait == ReadMessage ==> old(wait) == ReadMessage && Starved()) && inbox == old(inbox)
      ensures willing && how.Moved? ==> Helps(old(Now()), how.r, old(inp.items)) || (how.r == Called && !old(wait).Flush?)
      ensures willing && !run ==> wait == Error || Reads(inp) || (old(wait) == Pending && wait == Ready)
      ensures |inp.records| <= |old(inp.records)|
      ensures run && (old(wait) == ReadMessage || old(wait) == ReadCcs) ==> |inp.records| < |old(inp.records)|
    {
      hide Valid, Linked, Extends, Supplies, Carries, Stream.Parse, Raws;
      SuppliesNothing(out.records, out.items, out.tail, limit);
      match wait
      case Flush =>
        ghost var n := FlushFlight(inp, out, willing);
        how := Moved(Flushed(n));
        if writer.records != [] {
          return false, how;
        }
        wait := Ready;
        run := true;
      case ReadMessage =>
        if inp.records == [] {
          return false, Moved(Called);
        }
        if inp.records[0].ChangeCipherSpecRecord? {
          TakeChange(inp);
          wait := Error;
          return false, Moved(Opened);
        }
        OpenRecord(inp);
        wait := Ready;
        return true, Asleep;
      case ReadCcs =>
        if inp.records == [] {
          return false, Moved(Called);
        }
        // A change of cipher is refused while bytes of a message are left over.
        var left := Unprocessed(inp);
        if inp.records[0].HandshakeRecord? || left {
          StrayRecord(inp);
          wait := Error;
          return false, Stray;
        }
        OpenChange(inp);
        wait := Ready;
        return true, Moved(Opened);
      case Pending =>
        wait := Ready;
        return false, Moved(Called);
      case Error =>
        return false, Moved(Called);
      case Ready =>
        return true, Moved(Called);
    }

    /** One handshake record is appended to the buffer. */
    method OpenRecord(inp: Pipe)
      requires Valid(inp) && Starved() && inp.records != [] && inp.records[0].HandshakeRecord?
      modifies reader, inp`records
      ensures Valid(inp) && inp.records == old(inp.records)[1..]
    {
      hide Carries, Raws, Stream.Parse, Sends, RawOf;
      var body := inp.records[0].body;
      ghost var buf, later := reader.Now().buf, inp.records[1..];
      assert Stream.Filled(inp.records[0]);
      NotWhole(buf, Stream.Flat(inp.records), inp.items, inp.tail, inp.coming, limit);
      Stream.TokensConcat(buf, body);
      Stream.Regroup(Stream.Tokens(buf), Stream.Tokens(body), Stream.Flat(later));
      var ok := reader.OpenHandshake(limit, body);
      inp.records := inp.records[1..];
    }

    /** A change of cipher where a message is awaited: in the machine it is the next item too. */
    method TakeChange(inp: Pipe)
      requires Valid(inp) && Starved() && inp.records != [] && inp.records[0].ChangeCipherSpecRecord?
      modifies inp`records, inp`items
      ensures Valid(inp) && inp.records == old(inp.records)[1..]
      ensures old(inp.items) != [] && old(inp.items)[0].Ccs? && inp.items == old(inp.items)[1..]
    {
      hide Carries, Raws, Stream.Parse, Sends, RawOf;
      ghost var buf, more := reader.Now().buf, Stream.Flat(inp.records);
      NotWhole(buf, more, inp.items, inp.tail, inp.coming, limit);
      assert Stream.Tokens([]) + more[1..] == more[1..] == Stream.Flat(inp.records[1..]);
      inp.records := inp.records[1..];
      inp.items := inp.items[1..];
    }

    /** Whether bytes are left over behind the message looked at. */
    method Unprocessed(inp: Pipe) returns (left: bool)
      requires Valid(inp)
      ensures left <==> Rest() != []
    {
      hide Carries, Raws, Stream.Parse, Sends;
      if inbox.Some? {
        RawIs(inbox.value);
      }
      left := reader.HasUnprocessed();
    }

    lemma StrayRecord(inp: Pipe)
      requires Valid(inp) && inp.records != [] && (inp.records[0].HandshakeRecord? || Rest() != [])
      ensures if inp.items != [] then inp.items[0].Hs? else inp.tail != []
    {
      hide Carries, Raws, Stream.Parse, Sends, RawOf;
      assert Stream.Filled(inp.records[0]);
      MessageNext(Stream.Tokens(Rest()) + Stream.Flat(inp.records), inp.items, inp.tail, inp.coming, limit);
    }

    /** The change of cipher that was waited for. */
    method OpenChange(inp: Pipe)
      requires Valid(inp) && inp.records != [] && inp.records[0].ChangeCipherSpecRecord? && Rest() == []
      modifies inp`records, inp`items
      ensures Valid(inp) && inp.records == old(inp.records)[1..]
      ensures old(inp.items) != [] && old(inp.items)[0].Ccs? && inp.items == old(inp.items)[1..]
    {
      hide Carries, Raws, Stream.Parse, Sends, RawOf;
      ghost var more := Stream.Flat(inp.records);
      assert Stream.Tokens([]) + more == more;
      ChangeNext(more, inp.items, inp.tail, inp.coming, limit);
      assert Stream.Tokens([]) + more[1..] == more[1..] == Stream.Flat(inp.records[1..]);
      inp.records := inp.records[1..];
      inp.items := inp.items[1..];
    }
  }

  // ---- small facts ----

  lemma RawIs(m: Message)
    ensures RawOf(m) == Concrete(m).Raw() == Stream.Message(TypeOf(m.kind), m.body).Raw() && RawOf(m) != []
  {
  }

  lemma AllFilled(before: seq<Stream.Record>, after: seq<Stream.Record>)
    requires before <= after && forall r | r in before :: Stream.Filled(r)
    requires forall k | |before| <= k < |after| :: Stream.Filled(after[k])
    ensures forall r | r in after :: Stream.Filled(r)
  {
  }

  lemma FlatNothing(records: seq<Stream.Record>)
    requires forall r | r in records :: Stream.Filled(r)
    ensures Stream.Flat(records) == [] <==> records == []
  {
    if records != [] {
      assert Stream.Filled(records[0]);
    }
  }

  /** A part of an item is a part of a message. */
  lemma PartOfFirst(items: seq<Item>, part: seq<Stream.Token>, rest: seq<Stream.Token>, limit: nat)
    requires Unsent(items, part, rest) && AllFit(items, limit)
    ensures part != [] ==> items != [] && items[0].Hs? && PartOf(part, Some(items[0].msg), limit)
  {
    hide RawOf;
    if part != [] {
      assert items[0] in items;
    }
  }

  /** What was sent in between completes the items in between. */
  ghost predicate Extends(records: seq<Stream.Record>, items: seq<Item>, tail: seq<Stream.Token>,
                          records': seq<Stream.Record>, items': seq<Item>, tail': seq<Stream.Token>)
  {
    && records <= records' && items <= items'
    && tail + Stream.Flat(records'[|records|..]) == FlatItems(items'[|items|..]) + tail'
  }

  /** What was sent in between is no empty record and no message too long. */
  ghost predicate Supplies(records: seq<Stream.Record>, items: seq<Item>, records': seq<Stream.Record>, items': seq<Item>, limit: nat) {
    && records <= records' && items <= items' && AllFit(items'[|items|..], limit)
    && forall r | r in records'[|records|..] :: Stream.Filled(r)
  }

  lemma SuppliesNothing(records: seq<Stream.Record>, items: seq<Item>, tail: seq<Stream.Token>, limit: nat)
    ensures Extends(records, items, tail, records, items, tail) && Supplies(records, items, records, items, limit)
  {
    assert tail + [] == tail == [] + tail;
  }

  lemma ExtendsTwice(r0: seq<Stream.Record>, i0: seq<Item>, t0: seq<Stream.Token>, r1: seq<Stream.Record>, i1: seq<Item>,
                     t1: seq<Stream.Token>, r2: seq<Stream.Record>, i2: seq<Item>, t2: seq<Stream.Token>, limit: nat)
    requires Extends(r0, i0, t0, r1, i1, t1) && Extends(r1, i1, t1, r2, i2, t2)
    requires Supplies(r0, i0, r1, i1, limit) && Supplies(r1, i1, r2, i2, limit)
    ensures Extends(r0, i0, t0, r2, i2, t2) && Supplies(r0, i0, r2, i2, limit)
  {
    hide Stream.Flat, FlatItems;
    var ra, rb, ia, ib := r1[|r0|..], r2[|r1|..], i1[|i0|..], i2[|i1|..];
    assert r2[|r0|..] == ra + rb && i2[|i0|..] == ia + ib;
    Stream.FlatConcat(ra, rb);
    FlatItemsConcat(ia, ib);
    Stream.Regroup(t0, Stream.Flat(ra), Stream.Flat(rb));
    Stream.Regroup(FlatItems(ia), t1, Stream.Flat(rb));
    Stream.Regroup(FlatItems(ia), FlatItems(ib), t2);
  }

  /** What the first `k` pending records complete, and what they leave. */
  lemma FlushSome(pending: seq<Item>, part: seq<Stream.Token>, records: seq<Stream.Record>, k: nat, sent: seq<Stream.Record>,
                  items: seq<Item>, limit: nat)
    returns (n: nat, part': seq<Stream.Token>)
    requires k <= |records| && Unsent(pending, part, Stream.Flat(records)) && AllFit(pending, limit)
    requires forall r | r in records :: Stream.Filled(r)
    ensures n <= |pending| && Unsent(pending[n..], part', Stream.Flat(records[k..])) && AllFit(pending[n..], limit)
    ensures records[k..] == [] <==> n == |pending|
    ensures part' != [] ==> n < |pending| && pending[n].Hs? && PartOf(part', Some(pending[n].msg), limit)
    ensures Extends(sent, items, part, sent + records[..k], items + pending[..n], part')
    ensures Supplies(sent, items, sent + records[..k], items + pending[..n], limit)
  {
    hide RawOf, Stream.Flat, ItemTokens, PartOf, ItemFits, Stream.Filled;
    var now, later := records[..k], records[k..];
    assert records == now + later;
    Stream.FlatConcat(now, later);
    Stream.Regroup(part, Stream.Flat(now), Stream.Flat(later));
    n, part' := SendMore(pending, part + Stream.Flat(now), Stream.Flat(later));
    UnsentNothing(pending[n..], part', Stream.Flat(later));
    FlatNothing(later);
    PartOfFirst(pending[n..], part', Stream.Flat(later), limit);
    assert (sent + now)[|sent|..] == now && (items + pending[..n])[|items|..] == pending[..n];
  }

  /** What has been sent of the first of these items. */
  ghost predicate IsPart(pending: seq<Item>, part: seq<Stream.Token>, tail: seq<Stream.Token>, coming: Option<Message>, limit: nat) {
    && tail == part && PartOf(tail, coming, limit)
    && (part != [] ==> pending != [] && pending[0].Hs? && coming == Some(pending[0].msg))
  }

  lemma IsPartOfMore(before: seq<Item>, pending: seq<Item>, part: seq<Stream.Token>, tail: seq<Stream.Token>,
                     coming: Option<Message>, limit: nat)
    requires IsPart(before, part, tail, coming, limit) && before <= pending
    ensures IsPart(pending, part, tail, coming, limit)
  {
  }

  /** Bodies that a message can have. */
  predicate Small(c: Choice, limit: nat) {
    |c.body| <= limit && |c.extra| <= limit
  }

  // ---- a message looked at in the middle of a step ----

  /** Only a machine that has not looked at a message can look at the next, if it is there. */
  predicate MayPull<S(==)>(e: Endpoint<S>, items: seq<Item>, pulled: bool) {
    pulled ==> e.inbox.None? && items != [] && items[0].Hs?
  }

  function Pulled<S(==)>(e: Endpoint<S>, pulled: bool, items: seq<Item>): Endpoint<S> {
    if pulled && items != [] && items[0].Hs? then e.(inbox := Some(items[0].msg)) else e
  }

  function ItemsAfter(pulled: bool, items: seq<Item>): seq<Item> {
    if pulled && items != [] then items[1..] else items
  }

  lemma ClientAsksWaits(p: Params, e: Endpoint<ClientState>, c: Choice)
    requires ClientAsks(p, e.state) && e.inbox.None?
    ensures ClientAct(p, e, c) == e.(wait := ReadMessage)
  {
  }

  lemma ServerAsksWaits(p: Params, e: Endpoint<ServerState>, c: Choice)
    requires ServerAsks(p, e.state) && e.inbox.None? && (e.state == ReadClientCertificateVerify ==> e.certSeen)
    ensures ServerAct(p, e, c) == e.(wait := ReadMessage)
  {
  }

  // ---- runs of moves ----

  lemma {:induction false} AfterConcat(p: Params, s: System, a: seq<Move>, b: seq<Move>)
    ensures After(p, s, a + b) == After(p, After(p, s, a), b)
    decreases |a|
  {
    hide Step;
    if a == [] {
      assert a + b == b;
    } else {
      assert (a + b)[1..] == a[1..] + b;
      AfterConcat(p, Step(p, s, a[0]), a[1..], b);
    }
  }

  lemma {:induction false} AfterAppend(p: Params, s: System, moves: seq<Move>, m: Move)
    ensures After(p, s, moves + [m]) == Step(p, After(p, s, moves), m)
  {
    hide Step;
    AfterConcat(p, s, moves, [m]);
    assert [m][1..] == [];
    assert After(p, Step(p, After(p, s, moves), m), []) == Step(p, After(p, s, moves), m);
  }

  lemma {:induction false} RunKeepsJoint(p: Params, s: System, moves: seq<Move>)
    ensures p.Valid() && Joint(p, s) ==>
      Joint(p, After(p, s, moves)) && After(p, s, moves).client.wait != Error && After(p, s, moves).server.wait != Error
    decreases |moves|
  {
    hide Joint, Step;
    if p.Valid() && Joint(p, s) {
      if moves == [] {
        JointNoError(p, s);
      } else {
        StepKeeps(p, s, moves[0]);
        RunKeepsJoint(p, Step(p, s, moves[0]), moves[1..]);
      }
    }
  }

  lemma {:induction false} JointNoError(p: Params, s: System)
    requires Joint(p, s)
    ensures s.client.wait != Error && s.server.wait != Error
  {
    ClientNoError(p, s.client);
    ServerNoError(p, s.server);
  }

  // ---- the client's states ----

  /** A `do_` function does what the machine does, on the message at the front of the buffer if it looks at one. */
  twostate predicate ClientStep(hs: Side<ClientState>, inp: Pipe, p: Params, c: Choice, ret: Wait, pulled: bool)
    reads hs, hs.reader, hs.writer, inp
  {
    && hs.Valid(inp) && hs.Kept()
    && MayPull(old(hs.Now()), old(inp.items), pulled) && inp.items == ItemsAfter(pulled, old(inp.items))
    && (pulled ==> ClientAsks(p, old(hs.state)))
    && (ret == ReadMessage ==> hs.Starved())
    && hs.Paused(ret) == ClientAct(p, Pulled(old(hs.Paused(Ready)), pulled, old(inp.items)), c)
  }

  method DoStartConnect(hs: Side<ClientState>, inp: Pipe, p: Params, c: Choice) returns (ret: Wait, ghost pulled: bool)
    requires hs.Valid(inp) && hs.Agrees(p) && Small(c, hs.limit) && hs.state == StartConnect
    modifies hs, hs.writer, hs.reader, inp`items
    ensures ClientStep(hs, inp, p, c, ret, pulled)
  {
    hide Side.Valid, Side.Agrees;
    pulled := false;
    hs.AddMessage(inp, ClientHello, c.body);
    hs.state := ReadServerHello;
    ret := Flush;
  }

  method DoReadServerHello(hs: Side<ClientState>, inp: Pipe, p: Params, c: Choice) returns (ret: Wait, ghost pulled: bool)
    requires hs.Valid(inp) && hs.Agrees(p) && Small(c, hs.limit) && hs.state == ReadServerHello
    modifies hs, hs.writer, hs.reader, inp`items
    ensures ClientStep(hs, inp, p, c, ret, pulled)
  {
    hide Side.Valid, Side.Agrees;
    ret, pulled := hs.ReadExpected(inp, ServerHello, if p.resumed then ReadSessionTicket else ReadServerCertificate);
  }

  method DoReadServerCertificate(hs: Side<ClientState>, inp: Pipe, p: Params, c: Choice) returns (ret: Wait, ghost pulled: bool)
    requires hs.Valid(inp) && hs.Agrees(p) && Small(c, hs.limit) && hs.state == ReadServerCertificate
    modifies hs, hs.writer, hs.reader, inp`items
    ensures ClientStep(hs, inp, p, c, ret, pulled)
  {
    hide Side.Valid, Side.Agrees;
    pulled := false;
    if !p.certCipher {
      hs.state := ReadCertificateStatus;
      return Ready, pulled;
    }
    ret, pulled := hs.ReadExpected(inp, Certificate, ReadCertificateStatus);
  }

  method DoReadCertificateStatus(hs: Side<ClientState>, inp: Pipe, p: Params, c: Choice) returns (ret: Wait, ghost pulled: bool)
    requires hs.Valid(inp) && hs.Agrees(p) && Small(c, hs.limit) && hs.state == ReadCertificateStatus
    modifies hs, hs.writer, hs.reader, inp`items
    ensures ClientStep(hs, inp, p, c, ret, pulled)
  {
    hide Side.Valid, Side.Agrees;
    pulled := false;
    if p.statusExpected {
      var m;
      m, pulled := hs.GetMessage(inp);
      if m.None? {
        return ReadMessage, pulled;
      }
      if m.value.typ == TypeOf(CertificateStatus) {
        hs.HashAndNext(inp);
      }
    }
    hs.state := VerifyServerCertificate;
    ret := Ready;
  }

  method DoVerifyServerCertificate(hs: Side<ClientState>, inp: Pipe, p: Params, c: Choice) returns (ret: Wait, ghost pulled: bool)
    requires hs.Valid(inp) && hs.Agrees(p) && Small(c, hs.limit) && hs.state == VerifyServerCertificate
    modifies hs, hs.writer, hs.reader, inp`items
    ensures ClientStep(hs, inp, p, c, ret, pulled)
  {
    hide Side.Valid, Side.Agrees;
    pulled := false;
    if p.certCipher && c.retry {
      return Pending, pulled;
    }
    hs.state := ReadServerKeyExchange;
    ret := Ready;
  }

  method DoReadServerKeyExchange(hs: Side<ClientState>, inp: Pipe, p: Params, c: Choice) returns (ret: Wait, ghost pulled: bool)
    requires hs.Valid(inp) && hs.Agrees(p) && Small(c, hs.limit) && hs.state == ReadServerKeyExchange
    modifies hs, hs.writer, hs.reader, inp`items
    ensures ClientStep(hs, inp, p, c, ret, pulled)
  {
    hide Side.Valid, Side.Agrees;
    var m;
    m, pulled := hs.GetMessage(inp);
    if m.None? {
      return ReadMessage, pulled;
    }
    if m.value.typ == TypeOf(ServerKeyExchange) {
      hs.HashAndNext(inp);
    } else if p.keyExchangeNeeded {
      return Error, pulled;
    }
    hs.state := ReadCertificateRequest;
    ret := Ready;
  }

  method DoReadCertificateRequest(hs: Side<ClientState>, inp: Pipe, p: Params, c: Choice) returns (ret: Wait, ghost pulled: bool)
    requires hs.Valid(inp) && hs.Agrees(p) && Small(c, hs.limit) && hs.state == ReadCertificateRequest
    modifies hs, hs.writer, hs.reader, inp`items
    ensures ClientStep(hs, inp, p, c, ret, pulled)
  {
    hide Side.Valid, Side.Agrees;
    pulled := false;
    if p.certCipher {
      var m;
      m, pulled := hs.GetMessage(inp);
      if m.None? {
        return ReadMessage, pulled;
      }
      if m.value.typ != TypeOf(ServerHelloDone) {
        if m.value.typ != TypeOf(CertificateRequest) {
          return Error, pulled;
        }
        hs.certSeen := true;
        hs.HashAndNext(inp);
      }
    }
    hs.state := ReadServerHelloDone;
    ret := Ready;
  }

  method DoReadServerHelloDone(hs: Side<ClientState>, inp: Pipe, p: Params, c: Choice) returns (ret: Wait, ghost pulled: bool)
    requires hs.Valid(inp) && hs.Agrees(p) && Small(c, hs.limit) && hs.state == ReadServerHelloDone
    modifies hs, hs.writer, hs.reader, inp`items
    ensures ClientStep(hs, inp, p, c, ret, pulled)
  {
    hide Side.Valid, Side.Agrees;
    var m;
    m, pulled := hs.GetMessage(inp);
    if m.None? {
      return ReadMessage, pulled;
    }
    if m.value.typ != TypeOf(ServerHelloDone) || m.value.body != [] {
      return Error, pulled;
    }
    hs.HashAndNext(inp);
    hs.state := SendClientCertificate;
    ret := Ready;
  }

  method DoSendClientCertificate(hs: Side<ClientState>, inp: Pipe, p: Params, c: Choice) returns (ret: Wait, ghost pulled: bool)
    requires hs.Valid(inp) && hs.Agrees(p) && Small(c, hs.limit) && hs.state == SendClientCertificate
    modifies hs, hs.writer, hs.reader, inp`items
    ensures ClientStep(hs, inp, p, c, ret, pulled)
  {
    hide Side.Valid, Side.Agrees;
    pulled := false;
    if hs.certSeen {
      if c.retry {
        return Pending, pulled;
      }
      hs.LimitIsPositive(inp);
      hs.AddMessage(inp, Certificate, if p.clientCert then c.Chain() else []);
    }
    hs.state := SendClientKeyExchange;
    ret := Ready;
  }

  method DoSendClientKeyExchange(hs: Side<ClientState>, inp: Pipe, p: Params, c: Choice) returns (ret: Wait, ghost pulled: bool)
    requires hs.Valid(inp) && hs.Agrees(p) && Small(c, hs.limit) && hs.state == SendClientKeyExchange
    modifies hs, hs.writer, hs.reader, inp`items
    ensures ClientStep(hs, inp, p, c, ret, pulled)
  {
    hide Side.Valid, Side.Agrees;
    pulled := false;
    hs.AddMessage(inp, ClientKeyExchange, c.body);
    hs.state := SendClientCertificateVerify;
    ret := Ready;
  }

  method DoSendClientCertificateVerify(hs: Side<ClientState>, inp: Pipe, p: Params, c: Choice) returns (ret: Wait, ghost pulled: bool)
    requires hs.Valid(inp) && hs.Agrees(p) && Small(c, hs.limit) && hs.state == SendClientCertificateVerify
    modifies hs, hs.writer, hs.reader, inp`items
    ensures ClientStep(hs, inp, p, c, ret, pulled)
  {
    hide Side.Valid, Side.Agrees;
    pulled := false;
    if hs.certSeen && p.clientCert {
      if c.retry {
        return Pending, pulled;
      }
      hs.AddMessage(inp, CertificateVerify, c.body);
    }
    hs.state := SendClientFinished;
    ret := Ready;
  }

  method DoSendClientFinished(hs: Side<ClientState>, inp: Pipe, p: Params, c: Choice) returns (ret: Wait, ghost pulled: bool)
    requires hs.Valid(inp) && hs.Agrees(p) && Small(c, hs.limit) && hs.state == SendClientFinished
    modifies hs, hs.writer, hs.reader, inp`items
    ensures ClientStep(hs, inp, p, c, ret, pulled)
  {
    hide Side.Valid, Side.Agrees;
    pulled := false;
    if p.channelId && c.retry {
      return Pending, pulled;
    }
    hs.AddChangeCipherSpec(inp);
    if p.nextProto {
      hs.AddMessage(inp, NextProto, c.body);
    }
    if p.channelId {
      hs.AddMessage(inp, ChannelId, c.extra);
    }
    hs.AddFinished(p, inp, true);
    hs.state := FinishFlight;
    ret := Flush;
  }

  method DoFinishFlight(hs: Side<ClientState>, inp: Pipe, p: Params, c: Choice) returns (ret: Wait, ghost pulled: bool)
    requires hs.Valid(inp) && hs.Agrees(p) && Small(c, hs.limit) && hs.state == FinishFlight
    modifies hs, hs.writer, hs.reader, inp`items
    ensures ClientStep(hs, inp, p, c, ret, pulled)
  {
    hide Side.Valid, Side.Agrees;
    pulled := false;
    hs.state := if p.resumed then FinishClientHandshake else ReadSessionTicket;
    ret := Ready;
  }

  method DoReadSessionTicket(hs: Side<ClientState>, inp: Pipe, p: Params, c: Choice) returns (ret: Wait, ghost pulled: bool)
    requires hs.Valid(inp) && hs.Agrees(p) && Small(c, hs.limit) && hs.state == ReadSessionTicket
    modifies hs, hs.writer, hs.reader, inp`items
    ensures ClientStep(hs, inp, p, c, ret, pulled)
  {
    hide Side.Valid, Side.Agrees;
    pulled := false;
    if !p.ticket {
      hs.state := ClientProcessCcs;
      return ReadCcs, pulled;
    }
    ret, pulled := hs.ReadExpected(inp, NewSessionTicket, ClientProcessCcs);
    if ret == Ready {
      ret := ReadCcs;
    }
  }

  method DoClientProcessCcs(hs: Side<ClientState>, inp: Pipe, p: Params, c: Choice) returns (ret: Wait, ghost pulled: bool)
    requires hs.Valid(inp) && hs.Agrees(p) && Small(c, hs.limit) && hs.state == ClientProcessCcs
    modifies hs, hs.writer, hs.reader, inp`items
    ensures ClientStep(hs, inp, p, c, ret, pulled)
  {
    hide Side.Valid, Side.Agrees;
    pulled := false;
    hs.state := ReadServerFinished;
    ret := Ready;
  }

  method DoReadServerFinished(hs: Side<ClientState>, inp: Pipe, p: Params, c: Choice) returns (ret: Wait, ghost pulled: bool)
    requires hs.Valid(inp) && hs.Agrees(p) && Small(c, hs.limit) && hs.state == ReadServerFinished
    modifies hs, hs.writer, hs.reader, inp`items
    ensures ClientStep(hs, inp, p, c, ret, pulled)
  {
    hide Side.Valid, Side.Agrees;
    ret, pulled := hs.GetFinished(p, inp, false, if p.resumed then SendClientFinished else FinishClientHandshake);
  }

  method DoFinishClientHandshake(hs: Side<ClientState>, inp: Pipe, p: Params, c: Choice) returns (ret: Wait, ghost pulled: bool)
    requires hs.Valid(inp) && hs.Agrees(p) && Small(c, hs.limit) && hs.state == FinishClientHandshake
    modifies hs, hs.writer, hs.reader, inp`items
    ensures ClientStep(hs, inp, p, c, ret, pulled)
  {
    hide Side.Valid, Side.Agrees;
    pulled := false;
    hs.state := ClientDone;
    ret := Ready;
  }

  /** One `do_` function, chosen by the state. */
  method ClientDispatch(hs: Side<ClientState>, inp: Pipe, p: Params, c: Choice) returns (ret: Wait, ghost pulled: bool)
    requires hs.Valid(inp) && hs.Agrees(p) && Small(c, hs.limit) && hs.state != ClientDone
    modifies hs, hs.writer, hs.reader, inp`items
    ensures ClientStep(hs, inp, p, c, ret, pulled)
  {
    hide ClientStep, Side.Valid, Side.Agrees;
    match hs.state
    case StartConnect => ret, pulled := DoStartConnect(hs, inp, p, c);
    case ReadServerHello => ret, pulled := DoReadServerHello(hs, inp, p, c);
    case ReadServerCertificate => ret, pulled := DoReadServerCertificate(hs, inp, p, c);
    case ReadCertificateStatus => ret, pulled := DoReadCertificateStatus(hs, inp, p, c);
    case VerifyServerCertificate => ret, pulled := DoVerifyServerCertificate(hs, inp, p, c);
    case ReadServerKeyExchange => ret, pulled := DoReadServerKeyExchange(hs, inp, p, c);
    case ReadCertificateRequest => ret, pulled := DoReadCertificateRequest(hs, inp, p, c);
    case ReadServerHelloDone => ret, pulled := DoReadServerHelloDone(hs, inp, p, c);
    case SendClientCertificate => ret, pulled := DoSendClientCertificate(hs, inp, p, c);
    case SendClientKeyExchange => ret, pulled := DoSendClientKeyExchange(hs, inp, p, c);
    case SendClientCertificateVerify => ret, pulled := DoSendClientCertificateVerify(hs, inp, p, c);
    case SendClientFinished => ret, pulled := DoSendClientFinished(hs, inp, p, c);
    case FinishFlight => ret, pulled := DoFinishFlight(hs, inp, p, c);
    case ReadSessionTicket => ret, pulled := DoReadSessionTicket(hs, inp, p, c);
    case ClientProcessCcs => ret, pulled := DoClientProcessCcs(hs, inp, p, c);
    case ReadServerFinished => ret, pulled := DoReadServerFinished(hs, inp, p, c);
    case FinishClientHandshake => ret, pulled := DoFinishClientHandshake(hs, inp, p, c);
  }

  // ---- the server's states ----

  /** A `do_` function does what the machine does, on the message at the front of the buffer if it looks at one. */
  twostate predicate ServerStep(hs: Side<ServerState>, inp: Pipe, p: Params, c: Choice, ret: Wait, pulled: bool)
    reads hs, hs.reader, hs.writer, inp
  {
    && hs.Valid(inp) && hs.Kept()
    && MayPull(old(hs.Now()), old(inp.items), pulled) && inp.items == ItemsAfter(pulled, old(inp.items))
    && (pulled ==> ServerAsks(p, old(hs.state)) && (old(hs.state) == ReadClientCertificateVerify ==> old(hs.certSeen)))
    && (ret == ReadMessage ==> hs.Starved())
    && hs.Paused(ret) == ServerAct(p, Pulled(old(hs.Paused(Ready)), pulled, old(inp.items)), c)
  }

  method DoReadClientHello(hs: Side<ServerState>, inp: Pipe, p: Params, c: Choice) returns (ret: Wait, ghost pulled: bool)
    requires hs.Valid(inp) && hs.Agrees(p) && Small(c, hs.limit) && hs.state == ReadClientHello
    modifies hs, hs.writer, hs.reader, inp`items
    ensures ServerStep(hs, inp, p, c, ret, pulled)
  {
    hide Side.Valid, Side.Agrees;
    var m;
    m, pulled := hs.GetMessage(inp);
    if m.None? {
      return ReadMessage, pulled;
    }
    if m.value.typ != TypeOf(ClientHello) {
      return Error, pulled;
    }
    if c.retry {
      return Pending, pulled;
    }
    hs.state := SelectCertificate;
    ret := Ready;
  }

  method DoSelectCertificate(hs: Side<ServerState>, inp: Pipe, p: Params, c: Choice) returns (ret: Wait, ghost pulled: bool)
    requires hs.Valid(inp) && hs.Agrees(p) && Small(c, hs.limit) && hs.state == SelectCertificate
    modifies hs, hs.writer, hs.reader, inp`items
    ensures ServerStep(hs, inp, p, c, ret, pulled)
  {
    hide Side.Valid, Side.Agrees;
    var m;
    m, pulled := hs.GetMessage(inp);
    if m.None? {
      return ReadMessage, pulled;
    }
    if c.retry {
      return Pending, pulled;
    }
    hs.state := SelectParameters;
    ret := Ready;
  }

  method DoSelectParameters(hs: Side<ServerState>, inp: Pipe, p: Params, c: Choice) returns (ret: Wait, ghost pulled: bool)
    requires hs.Valid(inp) && hs.Agrees(p) && Small(c, hs.limit) && hs.state == SelectParameters
    modifies hs, hs.writer, hs.reader, inp`items
    ensures ServerStep(hs, inp, p, c, ret, pulled)
  {
    hide Side.Valid, Side.Agrees;
    var m;
    m, pulled := hs.GetMessage(inp);
    if m.None? {
      return ReadMessage, pulled;
    }
    if c.retry {
      return Pending, pulled;
    }
    hs.HashAndNext(inp);
    hs.state := SendServerHello;
    ret := Ready;
  }

  method DoSendServerHello(hs: Side<ServerState>, inp: Pipe, p: Params, c: Choice) returns (ret: Wait, ghost pulled: bool)
    requires hs.Valid(inp) && hs.Agrees(p) && Small(c, hs.limit) && hs.state == SendServerHello
    modifies hs, hs.writer, hs.reader, inp`items
    ensures ServerStep(hs, inp, p, c, ret, pulled)
  {
    hide Side.Valid, Side.Agrees;
    pulled := false;
    hs.AddMessage(inp, ServerHello, c.body);
    hs.state := if p.resumed then SendServerFinished else SendServerCertificate;
    ret := Ready;
  }

  method DoSendServerCertificate(hs: Side<ServerState>, inp: Pipe, p: Params, c: Choice) returns (ret: Wait, ghost pulled: bool)
    requires hs.Valid(inp) && hs.Agrees(p) && Small(c, hs.limit) && hs.state == SendServerCertificate
    modifies hs, hs.writer, hs.reader, inp`items
    ensures ServerStep(hs, inp, p, c, ret, pulled)
  {
    hide Side.Valid, Side.Agrees;
    pulled := false;
    if p.certCipher {
      hs.AddMessage(inp, Certificate, c.body);
      if p.statusSent {
        hs.AddMessage(inp, CertificateStatus, c.extra);
      }
    }
    hs.state := SendServerKeyExchange;
    ret := Ready;
  }

  method DoSendServerKeyExchange(hs: Side<ServerState>, inp: Pipe, p: Params, c: Choice) returns (ret: Wait, ghost pulled: bool)
    requires hs.Valid(inp) && hs.Agrees(p) && Small(c, hs.limit) && hs.state == SendServerKeyExchange
    modifies hs, hs.writer, hs.reader, inp`items
    ensures ServerStep(hs, inp, p, c, ret, pulled)
  {
    hide Side.Valid, Side.Agrees;
    pulled := false;
    if p.keyExchangeSent {
      if p.certCipher && c.retry {
        return Pending, pulled;
      }
      hs.AddMessage(inp, ServerKeyExchange, c.body);
    }
    hs.state := SendServerHelloDone;
    ret := Ready;
  }

  method DoSendServerHelloDone(hs: Side<ServerState>, inp: Pipe, p: Params, c: Choice) returns (ret: Wait, ghost pulled: bool)
    requires hs.Valid(inp) && hs.Agrees(p) && Small(c, hs.limit) && hs.state == SendServerHelloDone
    modifies hs, hs.writer, hs.reader, inp`items
    ensures ServerStep(hs, inp, p, c, ret, pulled)
  {
    hide Side.Valid, Side.Agrees;
    pulled := false;
    if p.certRequest {
      hs.AddMessage(inp, CertificateRequest, c.body);
    }
    hs.AddMessage(inp, ServerHelloDone, []);
    hs.state := ReadClientCertificate;
    ret := Flush;
  }

  method DoReadClientCertificate(hs: Side<ServerState>, inp: Pipe, p: Params, c: Choice) returns (ret: Wait, ghost pulled: bool)
    requires hs.Valid(inp) && hs.Agrees(p) && Small(c, hs.limit) && hs.state == ReadClientCertificate
    modifies hs, hs.writer, hs.reader, inp`items
    ensures ServerStep(hs, inp, p, c, ret, pulled)
  {
    hide Side.Valid, Side.Agrees;
    pulled := false;
    if p.certRequest {
      var m;
      m, pulled := hs.GetMessage(inp);
      if m.None? {
        return ReadMessage, pulled;
      }
      if m.value.typ != TypeOf(Certificate) {
        return Error, pulled;
      }
      hs.certSeen := m.value.body != [];
      hs.HashAndNext(inp);
    }
    hs.state := VerifyClientCertificate;
    ret := Ready;
  }

  method DoVerifyClientCertificate(hs: Side<ServerState>, inp: Pipe, p: Params, c: Choice) returns (ret: Wait, ghost pulled: bool)
    requires hs.Valid(inp) && hs.Agrees(p) && Small(c, hs.limit) && hs.state == VerifyClientCertificate
    modifies hs, hs.writer, hs.reader, inp`items
    ensures ServerStep(hs, inp, p, c, ret, pulled)
  {
    hide Side.Valid, Side.Agrees;
    pulled := false;
    if hs.certSeen && c.retry {
      return Pending, pulled;
    }
    hs.state := ReadClientKeyExchange;
    ret := Ready;
  }

  method DoReadClientKeyExchange(hs: Side<ServerState>, inp: Pipe, p: Params, c: Choice) returns (ret: Wait, ghost pulled: bool)
    requires hs.Valid(inp) && hs.Agrees(p) && Small(c, hs.limit) && hs.state == ReadClientKeyExchange
    modifies hs, hs.writer, hs.reader, inp`items
    ensures ServerStep(hs, inp, p, c, ret, pulled)
  {
    hide Side.Valid, Side.Agrees;
    var m;
    m, pulled := hs.GetMessage(inp);
    if m.None? {
      return ReadMessage, pulled;
    }
    if m.value.typ != TypeOf(ClientKeyExchange) {
      return Error, pulled;
    }
    if c.retry {
      return Pending, pulled;
    }
    hs.HashAndNext(inp);
    hs.state := ReadClientCertificateVerify;
    ret := Ready;
  }

  method DoReadClientCertificateVerify(hs: Side<ServerState>, inp: Pipe, p: Params, c: Choice) returns (ret: Wait, ghost pulled: bool)
    requires hs.Valid(inp) && hs.Agrees(p) && Small(c, hs.limit) && hs.state == ReadClientCertificateVerify
    modifies hs, hs.writer, hs.reader, inp`items
    ensures ServerStep(hs, inp, p, c, ret, pulled)
  {
    hide Side.Valid, Side.Agrees;
    pulled := false;
    if !hs.certSeen {
      hs.state := ReadChangeCipherSpec;
      return Ready, pulled;
    }
    ret, pulled := hs.ReadExpected(inp, CertificateVerify, ReadChangeCipherSpec);
  }

  method DoReadChangeCipherSpec(hs: Side<ServerState>, inp: Pipe, p: Params, c: Choice) returns (ret: Wait, ghost pulled: bool)
    requires hs.Valid(inp) && hs.Agrees(p) && Small(c, hs.limit) && hs.state == ReadChangeCipherSpec
    modifies hs, hs.writer, hs.reader, inp`items
    ensures ServerStep(hs, inp, p, c, ret, pulled)
  {
    hide Side.Valid, Side.Agrees;
    pulled := false;
    hs.state := ServerProcessCcs;
    ret := ReadCcs;
  }

  method DoServerProcessCcs(hs: Side<ServerState>, inp: Pipe, p: Params, c: Choice) returns (ret: Wait, ghost pulled: bool)
    requires hs.Valid(inp) && hs.Agrees(p) && Small(c, hs.limit) && hs.state == ServerProcessCcs
    modifies hs, hs.writer, hs.reader, inp`items
    ensures ServerStep(hs, inp, p, c, ret, pulled)
  {
    hide Side.Valid, Side.Agrees;
    pulled := false;
    hs.state := ReadNextProto;
    ret := Ready;
  }

  method DoReadNextProto(hs: Side<ServerState>, inp: Pipe, p: Params, c: Choice) returns (ret: Wait, ghost pulled: bool)
    requires hs.Valid(inp) && hs.Agrees(p) && Small(c, hs.limit) && hs.state == ReadNextProto
    modifies hs, hs.writer, hs.reader, inp`items
    ensures ServerStep(hs, inp, p, c, ret, pulled)
  {
    hide Side.Valid, Side.Agrees;
    pulled := false;
    if !p.nextProto {
      hs.state := ReadChannelId;
      return Ready, pulled;
    }
    ret, pulled := hs.ReadExpected(inp, NextProto, ReadChannelId);
  }

  method DoReadChannelId(hs: Side<ServerState>, inp: Pipe, p: Params, c: Choice) returns (ret: Wait, ghost pulled: bool)
    requires hs.Valid(inp) && hs.Agrees(p) && Small(c, hs.limit) && hs.state == ReadChannelId
    modifies hs, hs.writer, hs.reader, inp`items
    ensures ServerStep(hs, inp, p, c, ret, pulled)
  {
    hide Side.Valid, Side.Agrees;
    pulled := false;
    if !p.channelId {
      hs.state := ReadClientFinished;
      return Ready, pulled;
    }
    ret, pulled := hs.ReadExpected(inp, ChannelId, ReadClientFinished);
  }

  method DoReadClientFinished(hs: Side<ServerState>, inp: Pipe, p: Params, c: Choice) returns (ret: Wait, ghost pulled: bool)
    requires hs.Valid(inp) && hs.Agrees(p) && Small(c, hs.limit) && hs.state == ReadClientFinished
    modifies hs, hs.writer, hs.reader, inp`items
    ensures ServerStep(hs, inp, p, c, ret, pulled)
  {
    hide Side.Valid, Side.Agrees;
    ret, pulled := hs.GetFinished(p, inp, true, if p.resumed then FinishServerHandshake else SendServerFinished);
  }

  /** A ticket if one was promised, the ChangeCipherSpec, and the Finished over all of it. */
  method WriteServerFinished(hs: Side<ServerState>, inp: Pipe, p: Params, c: Choice)
    requires hs.Valid(inp) && hs.Agrees(p) && Small(c, hs.limit)
    modifies hs`transcript, hs`history, hs`pending, hs.writer
    ensures hs.Valid(inp) && hs.Kept()
    ensures hs.Now() == SendFinished(p, old(hs.Now()).SendIf(p.ticket, NewSessionTicket, c.body).SendCcs(), false)
  {
    hide Side.Valid, Side.Agrees;
    if p.ticket {
      hs.AddMessage(inp, NewSessionTicket, c.body);
    }
    hs.AddChangeCipherSpec(inp);
    hs.AddFinished(p, inp, false);
  }

  method DoSendServerFinished(hs: Side<ServerState>, inp: Pipe, p: Params, c: Choice) returns (ret: Wait, ghost pulled: bool)
    requires hs.Valid(inp) && hs.Agrees(p) && Small(c, hs.limit) && hs.state == SendServerFinished
    modifies hs, hs.writer, hs.reader, inp`items
    ensures ServerStep(hs, inp, p, c, ret, pulled)
  {
    hide Side.Valid, Side.Agrees;
    pulled := false;
    WriteServerFinished(hs, inp, p, c);
    hs.state := if p.resumed then ReadChangeCipherSpec else FinishServerHandshake;
    ret := Flush;
  }

  method DoFinishServerHandshake(hs: Side<ServerState>, inp: Pipe, p: Params, c: Choice) returns (ret: Wait, ghost pulled: bool)
    requires hs.Valid(inp) && hs.Agrees(p) && Small(c, hs.limit) && hs.state == FinishServerHandshake
    modifies hs, hs.writer, hs.reader, inp`items
    ensures ServerStep(hs, inp, p, c, ret, pulled)
  {
    hide Side.Valid, Side.Agrees;
    pulled := false;
    hs.state := ServerDone;
    ret := Ready;
  }

  /** One `do_` function, chosen by the state. */
  method ServerDispatch(hs: Side<ServerState>, inp: Pipe, p: Params, c: Choice) returns (ret: Wait, ghost pulled: bool)
    requires hs.Valid(inp) && hs.Agrees(p) && Small(c, hs.limit) && hs.state != ServerDone
    modifies hs, hs.writer, hs.reader, inp`items
    ensures ServerStep(hs, inp, p, c, ret, pulled)
  {
    hide ServerStep, Side.Valid, Side.Agrees;
    match hs.state
    case ReadClientHello => ret, pulled := DoReadClientHello(hs, inp, p, c);
    case SelectCertificate => ret, pulled := DoSelectCertificate(hs, inp, p, c);
    case SelectParameters => ret, pulled := DoSelectParameters(hs, inp, p, c);
    case SendServerHello => ret, pulled := DoSendServerHello(hs, inp, p, c);
    case SendServerCertificate => ret, pulled := DoSendServerCertificate(hs, inp, p, c);
    case SendServerKeyExchange => ret, pulled := DoSendServerKeyExchange(hs, inp, p, c);
    case SendServerHelloDone => ret, pulled := DoSendServerHelloDone(hs, inp, p, c);
    case ReadClientCertificate => ret, pulled := DoReadClientCertificate(hs, inp, p, c);
    case VerifyClientCertificate => ret, pulled := DoVerifyClientCertificate(hs, inp, p, c);
    case ReadClientKeyExchange => ret, pulled := DoReadClientKeyExchange(hs, inp, p, c);
    case ReadClientCertificateVerify => ret, pulled := DoReadClientCertificateVerify(hs, inp, p, c);
    case ReadChangeCipherSpec => ret, pulled := DoReadChangeCipherSpec(hs, inp, p, c);
    case ServerProcessCcs => ret, pulled := DoServerProcessCcs(hs, inp, p, c);
    case ReadNextProto => ret, pulled := DoReadNextProto(hs, inp, p, c);
    case ReadChannelId => ret, pulled := DoReadChannelId(hs, inp, p, c);
    case ReadClientFinished => ret, pulled := DoReadClientFinished(hs, inp, p, c);
    case SendServerFinished => ret, pulled := DoSendServerFinished(hs, inp, p, c);
    case FinishServerHandshake => ret, pulled := DoFinishServerHandshake(hs, inp, p, c);
  }
}
