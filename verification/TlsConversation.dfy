/** A client and a server at the two ends of a connection: any schedule of calls, over records of bytes. */
module TlsConversation {
  import opened Bytes
  import opened TlsMachines
  import opened TlsComposition
  import opened TlsRuns
  import opened TlsWire
  import opened TlsDriver
  import opened TlsSession
  import Stream = HandshakeStream

  /** What has come since is the rest of the stream, so all of it is items again. */
  lemma StreamGrows(rest: seq<byte>, r0: seq<Stream.Record>, i0: seq<Item>, t0: seq<Stream.Token>, c0: Option<Message>,
                    r1: seq<Stream.Record>, i1: seq<Item>, t1: seq<Stream.Token>, c1: Option<Message>, limit: nat)
    requires Carries(Stream.Tokens(rest) + Stream.Flat(r0), i0, t0, c0, limit) && (forall r | r in r0 :: Stream.Filled(r))
    requires Extends(r0, i0, t0, r1, i1, t1) && Supplies(r0, i0, r1, i1, limit) && PartOf(t1, c1, limit)
    ensures Carries(Stream.Tokens(rest) + Stream.Flat(r1), i1, t1, c1, limit) && forall r | r in r1 :: Stream.Filled(r)
  {
    hide Stream.Flat, FlatItems, PartOf, Carries, Stream.Filled;
    var records, items := r1[|r0|..], i1[|i0|..];
    assert r1 == r0 + records && i1 == i0 + items;
    Stream.FlatConcat(r0, records);
    Stream.Regroup(Stream.Tokens(rest), Stream.Flat(r0), Stream.Flat(records));
    CarriesMore(Stream.Tokens(rest) + Stream.Flat(r0), i0, t0, c0, limit, Stream.Flat(records), items, t1, c1);
  }

  ghost predicate Apart(client: Side<ClientState>, server: Side<ServerState>, up: Pipe, down: Pipe) {
    && up != down && client as object != server && client.reader != server.reader && client.writer != server.writer
    && client.limit == server.limit
  }

  ghost function Both(client: Side<ClientState>, server: Side<ServerState>, up: Pipe, down: Pipe): System
    reads client, server, up, down
  {
    System(client.Now(), server.Now(), up.items, down.items)
  }

  /** Each pipe is what one side has sent and the other is to read, and as machines the two are in step. */
  ghost predicate Connected(client: Side<ClientState>, server: Side<ServerState>, up: Pipe, down: Pipe, p: Params)
    reads client, client.reader, client.writer, server, server.reader, server.writer, up, down
  {
    && Apart(client, server, up, down) && client.Agrees(p) && server.Agrees(p)
    && client.Valid(down) && client.Linked(up) && ClientRests(client, p)
    && server.Valid(up) && server.Linked(down) && ServerRests(server, p)
    && Joint(p, Both(client, server, up, down))
  }

  /** Nothing has changed between the two machines, or the handshake is closer to its end. */
  predicate Closer(p: Params, before: System, after: System) {
    after == before || Measure(p, after) < Measure(p, before)
  }

  method CallClient(client: Side<ClientState>, server: Side<ServerState>, up: Pipe, down: Pipe, p: Params, willing: bool) returns (ret: int)
    requires p.Valid() && Connected(client, server, up, down, p)
    modifies client, client.reader, client.writer, up, down`records, down`items
    ensures Connected(client, server, up, down, p)
    ensures client.wait != Error && (ret > 0 <==> client.state == ClientDone) && client.HeldUp(down)
    ensures willing ==>
      && Closer(p, old(Both(client, server, up, down)), Both(client, server, up, down))
      && (client.state == ClientDone || client.Reads(down) || client.Now() != old(client.Now()))
  {
    hide Joint, Carries, Side.Sends, Stream.Flat, Extends, Supplies, Side.Agrees, ClientRests, ServerRests, Steady,
      After, Measure;
    ghost var before := Both(client, server, up, down);
    ghost var rest, r0, i0, t0, c0 := server.Rest(), up.records, up.items, up.tail, up.coming;
    ghost var stray, moves;
    ret, stray, moves := RunClient(client, down, up, p, willing, server.Now());
    StreamGrows(rest, r0, i0, t0, c0, up.records, up.items, up.tail, up.coming, server.limit);
    if willing {
      SteadyDecreases(p, before, moves);
    }
  }

  method CallServer(client: Side<ClientState>, server: Side<ServerState>, up: Pipe, down: Pipe, p: Params, willing: bool) returns (ret: int)
    requires p.Valid() && Connected(client, server, up, down, p)
    modifies server, server.reader, server.writer, down, up`records, up`items
    ensures Connected(client, server, up, down, p)
    ensures server.wait != Error && (ret > 0 <==> server.state == ServerDone) && server.HeldUp(up)
    ensures willing ==>
      && Closer(p, old(Both(client, server, up, down)), Both(client, server, up, down))
      && (server.state == ServerDone || server.Reads(up) || server.Now() != old(server.Now()))
  {
    hide Joint, Carries, Side.Sends, Stream.Flat, Extends, Supplies, Side.Agrees, ClientRests, ServerRests, Steady,
      After, Measure;
    ghost var before := Both(client, server, up, down);
    ghost var rest, r0, i0, t0, c0 := client.Rest(), down.records, down.items, down.tail, down.coming;
    ghost var stray, moves;
    ret, stray, moves := RunServer(server, up, down, p, willing, client.Now());
    StreamGrows(rest, r0, i0, t0, c0, down.records, down.items, down.tail, down.coming, client.limit);
    if willing {
      SteadyDecreases(p, before, moves);
    }
  }

  // ---- neither waits for the other ----

  /** There is something for a call to do: a callback, records to write, or records to read. */
  ghost predicate HasWork(wait: Wait, done: bool, inp: Pipe)
    reads inp
  {
    !done && (wait == Ready || wait == Flush || wait == Pending || inp.records != [])
  }

  /** A side that waits for a message or a change of cipher, and has no record to open, has no item to wait for. */
  lemma NothingToRead<S>(hs: Side<S>, inp: Pipe)
    requires hs.Valid(inp) && inp.records == [] && (hs.Starved() || (hs.inbox.None? && (inp.items != [] ==> inp.items[0].Ccs?)))
    ensures inp.items == []
  {
    hide Carries, Raws, Stream.Parse, Side.Sends;
    assert Stream.Tokens(hs.Rest()) + [] == Stream.Tokens(hs.Rest());
    NothingWhole(hs.Rest(), inp.items, inp.tail, inp.coming, hs.limit);
  }

  lemma ClientNothingToRead(client: Side<ClientState>, server: Side<ServerState>, up: Pipe, down: Pipe, p: Params)
    requires Connected(client, server, up, down, p) && down.records == [] && (client.wait == ReadMessage || client.wait == ReadCcs)
    ensures down.items == []
  {
    hide Joint, Side.Valid, Side.Linked, Side.Agrees, Side.Starved;
    if client.wait == ReadCcs {
      ClientNothingStray(p, Both(client, server, up, down), [], None);
      ClientCcsEmpty(p, Both(client, server, up, down));
    }
    NothingToRead(client, down);
  }

  lemma ServerNothingToRead(client: Side<ClientState>, server: Side<ServerState>, up: Pipe, down: Pipe, p: Params)
    requires Connected(client, server, up, down, p) && up.records == [] && (server.wait == ReadMessage || server.wait == ReadCcs)
    ensures up.items == []
  {
    hide Joint, Side.Valid, Side.Linked, Side.Agrees, Side.Starved;
    if server.wait == ReadCcs {
      ServerNothingStray(p, Both(client, server, up, down), [], None);
      ServerCcsEmpty(p, Both(client, server, up, down));
    }
    NothingToRead(server, up);
  }

  /** However the records are cut and wherever the transport stops, one of the two always has something to do. */
  lemma NeverBothWait(client: Side<ClientState>, server: Side<ServerState>, up: Pipe, down: Pipe, p: Params)
    requires Connected(client, server, up, down, p)
    ensures
      || (client.state == ClientDone && server.state == ServerDone)
      || HasWork(client.wait, client.state == ClientDone, down) || HasWork(server.wait, server.state == ServerDone, up)
  {
    hide Joint, Side.Valid, Side.Linked, Side.Agrees, ClientRests, ServerRests;
    var s := Both(client, server, up, down);
    JointNoError(p, s);
    if !HasWork(client.wait, client.state == ClientDone, down) && !HasWork(server.wait, server.state == ServerDone, up) {
      if client.state != ClientDone {
        ClientNothingToRead(client, server, up, down, p);
      }
      if server.state != ServerDone {
        ServerNothingToRead(client, server, up, down, p);
      }
      NotBothBlocked(p, s);
    }
  }

  // ---- from the start ----

  /** The bytes hashed by the two sides never part, and are the same at the end. */
  lemma TranscriptBytes(client: Side<ClientState>, server: Side<ServerState>, up: Pipe, down: Pipe, p: Params)
    requires Connected(client, server, up, down, p)
    ensures client.transcript <= server.transcript || server.transcript <= client.transcript
    ensures client.state == ClientDone && server.state == ServerDone ==> client.transcript == server.transcript
  {
    hide Joint, Side.Sends, Side.Receives, Side.Linked, Side.Agrees, ClientRests, ServerRests, Raws;
    var s := Both(client, server, up, down);
    OneIsPrefix(p, s);
    if client.history <= server.history {
      RawsPrefix(client.history, server.history);
    } else {
      RawsPrefix(server.history, client.history);
    }
    if client.state == ClientDone && server.state == ServerDone {
      DoneTogether(p, s);
    }
  }

  method Connect(p: Params, hash: (seq<byte>, bool) -> seq<byte>, limit: nat, clientFragment: nat, serverFragment: nat)
    returns (client: Side<ClientState>, server: Side<ServerState>, up: Pipe, down: Pipe)
    requires 1 <= limit < 0x100_0000 && clientFragment > 0 && serverFragment > 0
    requires (forall ms, b :: p.mac(ms, b) == hash(Raws(ms), b)) && (forall bytes, b :: |hash(bytes, b)| <= limit)
    ensures fresh({client as object, client.reader, client.writer, server, server.reader, server.writer, up, down})
    ensures Connected(client, server, up, down, p)
  {
    hide Joint, Side.Sends, Side.Receives;
    up := new Pipe();
    down := new Pipe();
    client := new Side(StartConnect, hash, limit, clientFragment, down);
    server := new Side(ReadClientHello, hash, limit, serverFragment, up);
    InitialJoint(p);
    assert Both(client, server, up, down) == Initial();
  }

  /**
   * The two are called in any order, any number of times. Whatever the callbacks say, however much the
   * transport takes, and however either side cuts its messages: neither side fails, the transcripts never
   * part, two sides that are done have hashed the same bytes, and until then one of them has work to do.
   */
  method Converse(p: Params, hash: (seq<byte>, bool) -> seq<byte>, limit: nat, clientFragment: nat, serverFragment: nat,
                  schedule: seq<bool>)
    returns (client: Side<ClientState>, server: Side<ServerState>, up: Pipe, down: Pipe)
    requires p.Valid() && 1 <= limit < 0x100_0000 && clientFragment > 0 && serverFragment > 0
    requires (forall ms, b :: p.mac(ms, b) == hash(Raws(ms), b)) && (forall bytes, b :: |hash(bytes, b)| <= limit)
    ensures client.wait != Error && server.wait != Error
    ensures client.transcript <= server.transcript || server.transcript <= client.transcript
    ensures client.state == ClientDone && server.state == ServerDone ==> client.transcript == server.transcript
    ensures
      || (client.state == ClientDone && server.state == ServerDone)
      || HasWork(client.wait, client.state == ClientDone, down) || HasWork(server.wait, server.state == ServerDone, up)
  {
    hide Connected, HasWork, Raws;
    client, server, up, down := Connect(p, hash, limit, clientFragment, serverFragment);
    ghost var all := {client as object, client.reader, client.writer, server, server.reader, server.writer, up, down};
    for i := 0 to |schedule|
      invariant fresh(all)
      invariant Connected(client, server, up, down, p)
    {
      if schedule[i] {
        var ret := CallClient(client, server, up, down, p, false);
      } else {
        var ret := CallServer(client, server, up, down, p, false);
      }
    }
    ConnectedNoError(client, server, up, down, p);
    TranscriptBytes(client, server, up, down, p);
    NeverBothWait(client, server, up, down, p);
  }

  lemma ConnectedNoError(client: Side<ClientState>, server: Side<ServerState>, up: Pipe, down: Pipe, p: Params)
    requires Connected(client, server, up, down, p)
    ensures client.wait != Error && server.wait != Error
  {
    hide Joint;
    JointNoError(p, Both(client, server, up, down));
  }

  // ---- to the end ----

  /** If a call on each side has changed nothing, nothing is left to change. */
  lemma UnchangedIsDone(client: Side<ClientState>, server: Side<ServerState>, up: Pipe, down: Pipe, p: Params)
    requires Connected(client, server, up, down, p)
    requires client.state == ClientDone || ((client.wait == ReadMessage || client.wait == ReadCcs) && down.items == [])
    requires server.state == ServerDone || server.Reads(up)
    ensures client.state == ClientDone && server.state == ServerDone
  {
    hide Joint, Side.Valid, Side.Linked, Side.Agrees, ClientRests, ServerRests;
    if server.state != ServerDone {
      ServerNothingToRead(client, server, up, down, p);
    }
    NotBothBlocked(p, Both(client, server, up, down));
  }

  /**
   * From any state of the connection, however its records are cut and wherever it was held up: once the
   * transport takes what it is given and callbacks answer, calling the two in turn completes the handshake.
   * It takes no more rounds than the measure of what is left, and one.
   */
  method Finish(client: Side<ClientState>, server: Side<ServerState>, up: Pipe, down: Pipe, p: Params)
    returns (rounds: nat)
    requires p.Valid() && Connected(client, server, up, down, p)
    modifies client, client.reader, client.writer, server, server.reader, server.writer, up, down
    ensures Connected(client, server, up, down, p)
    ensures client.state == ClientDone && server.state == ServerDone && client.transcript == server.transcript
    ensures rounds <= old(Measure(p, Both(client, server, up, down))) + 1
  {
    hide Connected, Measure;
    rounds := 0;
    while client.state != ClientDone || server.state != ServerDone
      invariant Connected(client, server, up, down, p)
      invariant rounds + Measure(p, Both(client, server, up, down)) <= old(Measure(p, Both(client, server, up, down)))
        || (client.state == ClientDone && server.state == ServerDone
            && rounds <= old(Measure(p, Both(client, server, up, down))) + 1)
      decreases client.state != ClientDone || server.state != ServerDone, Measure(p, Both(client, server, up, down))
    {
      Round(client, server, up, down, p);
      rounds := rounds + 1;
    }
    TranscriptBytes(client, server, up, down, p);
  }

  method Round(client: Side<ClientState>, server: Side<ServerState>, up: Pipe, down: Pipe, p: Params)
    requires p.Valid() && Connected(client, server, up, down, p)
    modifies client, client.reader, client.writer, server, server.reader, server.writer, up, down
    ensures Connected(client, server, up, down, p)
    ensures Measure(p, Both(client, server, up, down)) < old(Measure(p, Both(client, server, up, down)))
      || (client.state == ClientDone && server.state == ServerDone
          && Measure(p, Both(client, server, up, down)) <= old(Measure(p, Both(client, server, up, down))))
  {
    hide Connected, Measure;
    ghost var before := Both(client, server, up, down);
    var ret := CallClient(client, server, up, down, p, true);
    ghost var between := Both(client, server, up, down);
    if client.Reads(down) {
      ClientNothingToRead(client, server, up, down, p);
    }
    ret := CallServer(client, server, up, down, p, true);
    if Both(client, server, up, down) == between == before {
      UnchangedIsDone(client, server, up, down, p);
    }
  }
}
