/**
 * Client and server over the bytes between them: the loop over states, the rounds of waiting and running,
 * and a whole connection of the two. Every call is a run of the two machines, wherever the records are cut.
 */
module TlsSession {
  import opened Bytes
  import opened TlsMachines
  import opened TlsComposition
  import opened TlsRuns
  import opened TlsWire
  import opened TlsDriver
  import Client = TlsOneSided
  import Server = TlsOneSidedServer
  import Stream = HandshakeStream

  lemma NothingOut<S>(e: Endpoint<S>)
    requires e.wait == ReadMessage
    ensures Outgoing(e, Opened) == []
  {
  }

  lemma {:induction false} SteadyAppend(p: Params, s: System, moves: seq<Move>, m: Move)
    ensures Steady(p, s, moves) && (Productive(After(p, s, moves), m) || Step(p, After(p, s, moves), m) == After(p, s, moves)) ==>
      Steady(p, s, moves + [m])
  {
    hide Step, Productive;
    var now := After(p, s, moves);
    if Steady(p, s, moves) && (Productive(now, m) || Step(p, now, m) == now) {
      assert [m][1..] == [];
      SteadyConcat(p, s, moves, [m]);
    }
  }

  /** Nothing changes if the caller calls again where only a record helps. */
  lemma CalledForNothing<S>(e: Endpoint<S>, incoming: seq<Item>)
    ensures !e.wait.Flush? ==> Outgoing(e, Called) == [] && Incoming(e, Called, incoming) == incoming
    ensures !e.wait.Flush? && !e.wait.Pending? ==> Resolve(e, Called, incoming) == e
    ensures e.wait.Pending? ==> Helps(e, Called, incoming)
  {
  }

  /** A part of a message that has come is a part of the first in the sender's flight. */
  ghost predicate Started(flight: seq<Item>, tail: seq<Stream.Token>, coming: Option<Message>) {
    tail != [] ==> flight != [] && flight[0].Hs? && coming == Some(flight[0].msg)
  }

  // ---- the client's loops ----

  /** One `do_` function as moves of the machine: it runs, and if it looks at a message, asks for it and runs again. */
  lemma ClientStepIsMoves(p: Params, s: System, asleep: bool, c: Choice, pulled: bool) returns (moves: seq<Move>)
    requires s.client.wait == (if asleep then ReadMessage else Ready) && MayPull(s.client, s.toClient, pulled)
    requires asleep || pulled ==> ClientAsks(p, s.client.state) && s.client.inbox.None?
    ensures After(p, s, moves) ==
      s.(client := ClientAct(p, Pulled(s.client.(wait := Ready), pulled, s.toClient), c), toClient := ItemsAfter(pulled, s.toClient))
    ensures !c.retry && s.client.state != ClientDone ==> Steady(p, s, moves)
  {
    hide ClientAct, Outgoing;
    var e := s.client.(wait := Ready);
    NothingOut(s.client.(wait := ReadMessage));
    moves := [];
    var now := s;
    if !asleep {
      AfterAppend(p, s, moves, ClientRuns(c));
      SteadyAppend(p, s, moves, ClientRuns(c));
      moves := moves + [ClientRuns(c)];
      now := s.(client := ClientAct(p, e, c));
    }
    if asleep || pulled {
      ClientAsksWaits(p, e, c);
      assert now == s.(client := e.(wait := ReadMessage));
    }
    assert After(p, s, moves) == now;
    if pulled {
      AfterAppend(p, s, moves, ClientResolves(Opened));
      SteadyAppend(p, s, moves, ClientResolves(Opened));
      moves := moves + [ClientResolves(Opened)];
      now := now.(client := e.(inbox := Some(s.toClient[0].msg)), toClient := s.toClient[1..]);
      assert After(p, s, moves) == now;
      AfterAppend(p, s, moves, ClientRuns(c));
      SteadyAppend(p, s, moves, ClientRuns(c));
      moves := moves + [ClientRuns(c)];
    }
  }

  lemma ClientTurnIsMoves(p: Params, s: System, asleep: bool, c: Choice, pulled: bool, e: Endpoint<ClientState>, next: Endpoint<ClientState>)
    returns (moves: seq<Move>)
    requires s.client == e.(wait := if asleep then ReadMessage else Ready) && e.wait == Ready && e.state != ClientDone
    requires MayPull(e, s.toClient, pulled) && next == ClientAct(p, Pulled(e, pulled, s.toClient), c)
    requires asleep || pulled ==> ClientAsks(p, e.state) && e.inbox.None?
    ensures After(p, s, moves) == s.(client := next, toClient := ItemsAfter(pulled, s.toClient))
    ensures !c.retry ==> next.wait != Pending && Steady(p, s, moves)
    ensures ClientMoves(p, e.state, next.state, next.wait)
    ensures next.wait == ReadMessage ==> ClientAsks(p, next.state)
  {
    hide ClientAct, ClientAsks, After, Steady, ClientMoves;
    moves := ClientStepIsMoves(p, s, asleep, c, pulled);
    ClientProgresses(p, Pulled(e, pulled, s.toClient), c);
  }

  /** One `do_` function, with the message it looks at; a machine that was asleep looks again. */
  method ClientTurn(hs: Side<ClientState>, inp: Pipe, p: Params, willing: bool, ghost asleep: bool, ghost s: System)
    returns (ret: Wait, ghost moves: seq<Move>)
    requires hs.Valid(inp) && hs.Agrees(p) && hs.state != ClientDone
    requires s.client == hs.Paused(if asleep then ReadMessage else Ready) && s.toClient == inp.items
    requires asleep ==> ClientAsks(p, hs.state) && hs.inbox.None?
    modifies hs, hs.writer, hs.reader, inp`items
    ensures hs.Valid(inp) && hs.Kept()
    ensures After(p, s, moves) == s.(client := hs.Paused(ret), toClient := inp.items)
    ensures willing ==> ret != Pending && Steady(p, s, moves)
    ensures ClientMoves(p, old(hs.state), hs.state, ret)
    ensures ret == ReadMessage ==> hs.Starved() && ClientAsks(p, hs.state)
  {
    hide ClientAct, Pulled, Side.Valid, Side.Agrees, ClientAsks, After, Steady, ClientMoves;
    var c: Choice := *;
    if willing || !Small(c, hs.limit) {
      c := Choice(false, if Small(c, hs.limit) then c.body else [], if Small(c, hs.limit) then c.extra else []);
    }
    ghost var e := hs.Paused(Ready);
    ghost var pulled;
    ret, pulled := ClientDispatch(hs, inp, p, c);
    moves := ClientTurnIsMoves(p, s, asleep, c, pulled, e, hs.Paused(ret));
  }

  /** The loop over states, until one of them has to wait or the last one is reached. */
  method ClientLoop(hs: Side<ClientState>, inp: Pipe, p: Params, willing: bool, ghost asleep: bool, ghost s: System)
    returns (ret: Wait, ghost moves: seq<Move>)
    requires hs.Valid(inp) && hs.Agrees(p) && s.client == hs.Paused(if asleep then ReadMessage else Ready) && s.toClient == inp.items
    requires asleep ==> ClientAsks(p, hs.state) && hs.inbox.None? && hs.state != ClientDone
    modifies hs, hs.writer, hs.reader, inp`items
    ensures hs.Valid(inp) && hs.Kept()
    ensures After(p, s, moves) == s.(client := hs.Paused(ret), toClient := inp.items)
    ensures willing ==> ret != Pending && Steady(p, s, moves)
    ensures ret == Ready <==> hs.state == ClientDone
    ensures old(hs.state) == ClientDone ==> ret == Ready
    ensures old(hs.state) == ClientDone || ClientMoves(p, old(hs.state), hs.state, ret)
    ensures ret == ReadMessage ==> hs.Starved() && ClientAsks(p, hs.state)
  {
    hide Side.Valid, Side.Agrees, ClientAsks, Side.Starved, ClientRank;
    moves := [];
    ghost var sleeping := asleep;
    while hs.state != ClientDone
      invariant hs.Valid(inp) && hs.Kept()
      invariant After(p, s, moves) == s.(client := hs.Paused(if sleeping then ReadMessage else Ready), toClient := inp.items)
      invariant sleeping ==> ClientAsks(p, hs.state) && hs.inbox.None? && hs.state != ClientDone
      invariant old(hs.state) == ClientDone ==> hs.state == ClientDone
      invariant hs.state == old(hs.state) || ClientRank(p, hs.state) < ClientRank(p, old(hs.state))
      invariant willing ==> Steady(p, s, moves)
      decreases ClientRank(p, hs.state)
    {
      ghost var more;
      ret, more := ClientTurn(hs, inp, p, willing, sleeping, After(p, s, moves));
      AfterConcat(p, s, moves, more);
      if willing {
        SteadyConcat(p, s, moves, more);
      }
      moves, sleeping := moves + more, false;
      if ret != Ready {
        return;
      }
    }
    ret := Ready;
  }

  ghost function ClientSystem(hs: Side<ClientState>, inp: Pipe, out: Pipe, peer: Endpoint<ServerState>): System
    reads hs, inp, out
  {
    System(hs.Now(), peer, out.items, inp.items)
  }

  /** Between calls: a machine that waits for a message has none to look at, and one that is done waits for nothing. */
  ghost predicate ClientRests(hs: Side<ClientState>, p: Params)
    reads hs, hs.reader
  {
    && (hs.wait == ReadMessage ==> hs.Starved() && ClientAsks(p, hs.state))
    && (hs.state == ClientDone ==> hs.wait == Ready)
  }

  /** A call has come to its end: done, an error, no record to read, or a callback that is to be called again. */
  ghost predicate ClientSettled(hs: Side<ClientState>, inp: Pipe, was: Wait)
    reads hs, inp
  {
    hs.state == ClientDone || hs.wait == Error || hs.Reads(inp) || (was == Pending && hs.wait == Ready)
  }

  lemma ClientResolveIsMove(p: Params, s: System, how: How) returns (moves: seq<Move>)
    ensures how.Moved? ==>
      After(p, s, moves) == s.(client := Resolve(s.client, how.r, s.toClient),
                               toClient := Incoming(s.client, how.r, s.toClient), toServer := s.toServer + Outgoing(s.client, how.r))
    ensures !how.Moved? ==> After(p, s, moves) == s && Steady(p, s, moves)
    ensures how.Moved? && (Helps(s.client, how.r, s.toClient) || (how.r == Called && !s.client.wait.Flush?)) ==> Steady(p, s, moves)
  {
    hide Resolve, Outgoing, Incoming, Helps;
    moves := [];
    if how.Moved? {
      moves := [ClientResolves(how.r)];
      assert moves[1..] == [];
      CalledForNothing(s.client, s.toClient);
      assert After(p, s, moves) == After(p, Step(p, s, moves[0]), []);
    }
  }

  /** Once resolved, runs until something has to be resolved again. */
  method ClientRunsOn(hs: Side<ClientState>, inp: Pipe, out: Pipe, p: Params, willing: bool, ghost asleep: bool, ghost s: System)
    returns (again: bool, ghost moves: seq<Move>)
    requires hs.Valid(inp) && hs.Linked(out) && inp != out && hs.Agrees(p) && hs.wait == Ready
    requires s.client == hs.Paused(if asleep then ReadMessage else Ready) && s.toClient == inp.items
    requires asleep ==> ClientAsks(p, hs.state) && hs.inbox.None? && hs.state != ClientDone
    modifies hs, hs.writer, hs.reader, inp`items
    ensures hs.Valid(inp) && hs.Linked(out) && ClientRests(hs, p)
    ensures After(p, s, moves) == s.(client := hs.Now(), toClient := inp.items)
    ensures !again ==> hs.HeldUp(inp)
    ensures willing ==> Steady(p, s, moves) && hs.wait != Pending && (!again ==> hs.wait == Error || hs.state == ClientDone)
    ensures again ==> ClientRank(p, hs.state) < ClientRank(p, old(hs.state)) || (hs.state == old(hs.state) && !hs.Runs())
  {
    hide Side.Valid, Side.Agrees, IsPart, ClientAsks, Side.Starved, After, Steady, ClientRank;
    ghost var before := hs.pending;
    var ret;
    ret, moves := ClientLoop(hs, inp, p, willing, asleep, s);
    hs.wait := ret;
    IsPartOfMore(before, hs.pending, hs.part, out.tail, out.coming, hs.limit);
    again := ret != Error && ret != Ready;
  }

  /** With an honest peer no record is out of place where a change of cipher is awaited. */
  lemma ClientNothingStray(p: Params, s: System, tail: seq<Stream.Token>, coming: Option<Message>)
    ensures Joint(p, s) && s.client.wait == ReadCcs && Started(s.server.flight, tail, coming) ==>
      if s.toClient != [] then s.toClient[0].Ccs? else tail == []
  {
    hide Joint;
    if Joint(p, s) && s.client.wait == ReadCcs {
      ClientExpectsCcs(p, s);
      ClientCcsEmpty(p, s);
      var u := Underway(s.server, s.client, s.toClient);
      assert u == s.toClient + s.server.flight;
    }
  }

  lemma ClientCcsEmpty(p: Params, s: System)
    requires Joint(p, s) && s.client.wait == ReadCcs
    ensures s.client.inbox.None?
  {
    ClientCcsNext(p, s.client);
  }

  /** Resolves what the client waits for; it may be asleep, with a record opened and the message not whole. */
  method ClientWakes(hs: Side<ClientState>, inp: Pipe, out: Pipe, p: Params, willing: bool, ghost peer: Endpoint<ServerState>)
    returns (run: bool, ghost asleep: bool, ghost stray: bool, ghost moves: seq<Move>)
    requires hs.Valid(inp) && hs.Linked(out) && inp != out && ClientRests(hs, p)
    modifies hs`wait, hs`pending, hs`part, hs.reader, hs.writer, inp`records, inp`items, out
    ensures hs.Valid(inp) && hs.Linked(out) && inp.tail == old(inp.tail) && inp.coming == old(inp.coming) && ClientRests(hs, p)
    ensures Extends(old(out.records), old(out.items), old(out.tail), out.records, out.items, out.tail)
    ensures Supplies(old(out.records), old(out.items), out.records, out.items, hs.limit)
    ensures !stray ==>
      After(p, old(ClientSystem(hs, inp, out, peer)), moves)
        == ClientSystem(hs, inp, out, peer).(client := hs.Paused(if asleep then ReadMessage else hs.wait))
    ensures stray ==> !run && hs.wait == Error
    ensures Joint(p, old(ClientSystem(hs, inp, out, peer))) && Started(peer.flight, inp.tail, inp.coming) ==> !stray
    ensures asleep ==> ClientAsks(p, hs.state) && hs.inbox.None? && hs.state != ClientDone && run
    ensures willing && !stray ==> Steady(p, old(ClientSystem(hs, inp, out, peer)), moves)
    ensures if run then hs.wait == Ready else hs.HeldUp(inp) && (willing ==> ClientSettled(hs, inp, old(hs.wait)))
    ensures |inp.records| < |old(inp.records)| || (|inp.records| == |old(inp.records)| && (run ==> old(hs.Runs())))
  {
    hide Resolve, Outgoing, Incoming, Helps, Steady, Joint, Started, Side.Valid, Side.Linked, Extends, Supplies,
      ClientAsks, After;
    ghost var start := ClientSystem(hs, inp, out, peer);
    ghost var how;
    run, how := hs.ResolveWait(inp, out, willing);
    stray, asleep := how.Stray?, how.Asleep?;
    moves := ClientResolveIsMove(p, start, how);
    ClientNothingStray(p, start, inp.tail, inp.coming);
  }

  /** Resolves, and runs until something has to be resolved again. */
  method ClientRound(hs: Side<ClientState>, inp: Pipe, out: Pipe, p: Params, willing: bool, ghost peer: Endpoint<ServerState>)
    returns (again: bool, ghost stray: bool, ghost moves: seq<Move>)
    requires hs.Valid(inp) && hs.Linked(out) && inp != out && hs.Agrees(p) && ClientRests(hs, p)
    modifies hs, hs.writer, hs.reader, inp`records, inp`items, out
    ensures hs.Valid(inp) && hs.Linked(out) && inp.tail == old(inp.tail) && inp.coming == old(inp.coming) && ClientRests(hs, p)
    ensures Extends(old(out.records), old(out.items), old(out.tail), out.records, out.items, out.tail)
    ensures Supplies(old(out.records), old(out.items), out.records, out.items, hs.limit)
    ensures !stray ==> After(p, old(ClientSystem(hs, inp, out, peer)), moves) == ClientSystem(hs, inp, out, peer)
    ensures stray ==> !again && hs.wait == Error
    ensures Joint(p, old(ClientSystem(hs, inp, out, peer))) && Started(peer.flight, inp.tail, inp.coming) ==> !stray
    ensures !again ==> hs.HeldUp(inp)
    ensures willing && !stray ==> Steady(p, old(ClientSystem(hs, inp, out, peer)), moves)
    ensures willing ==> if again then hs.wait != Pending else ClientSettled(hs, inp, old(hs.wait))
    ensures again ==>
      || |inp.records| < |old(inp.records)|
      || (|inp.records| == |old(inp.records)|
          && (ClientRank(p, hs.state) < ClientRank(p, old(hs.state))
              || (hs.state == old(hs.state) && old(hs.Runs()) && !hs.Runs())))
  {
    hide Steady, Joint, Started, Side.Valid, Side.Linked, Side.Agrees, Extends, Supplies, ClientAsks, After,
      ClientRank, ClientRests;
    ghost var start := ClientSystem(hs, inp, out, peer);
    var run;
    ghost var asleep;
    run, asleep, stray, moves := ClientWakes(hs, inp, out, p, willing, peer);
    if !run {
      return false, stray, moves;
    }
    ghost var more;
    again, more := ClientRunsOn(hs, inp, out, p, willing, asleep, After(p, start, moves));
    AfterConcat(p, start, moves, more);
    if willing {
      SteadyConcat(p, start, moves, more);
    }
    moves := moves + more;
  }

  // ---- the server's loops ----

  /** One `do_` function as moves of the machine: it runs, and if it looks at a message, asks for it and runs again. */
  lemma ServerStepIsMoves(p: Params, s: System, asleep: bool, c: Choice, pulled: bool) returns (moves: seq<Move>)
    requires s.server.wait == (if asleep then ReadMessage else Ready) && MayPull(s.server, s.toServer, pulled)
    requires asleep || pulled ==> ServerAsks(p, s.server.state) && s.server.inbox.None? && (s.server.state == ReadClientCertificateVerify ==> s.server.certSeen)
    ensures After(p, s, moves) ==
      s.(server := ServerAct(p, Pulled(s.server.(wait := Ready), pulled, s.toServer), c), toServer := ItemsAfter(pulled, s.toServer))
    ensures !c.retry && s.server.state != ServerDone ==> Steady(p, s, moves)
  {
    hide ServerAct, Outgoing;
    var e := s.server.(wait := Ready);
    NothingOut(s.server.(wait := ReadMessage));
    moves := [];
    var now := s;
    if !asleep {
      AfterAppend(p, s, moves, ServerRuns(c));
      SteadyAppend(p, s, moves, ServerRuns(c));
      moves := moves + [ServerRuns(c)];
      now := s.(server := ServerAct(p, e, c));
    }
    if asleep || pulled {
      ServerAsksWaits(p, e, c);
      assert now == s.(server := e.(wait := ReadMessage));
    }
    assert After(p, s, moves) == now;
    if pulled {
      AfterAppend(p, s, moves, ServerResolves(Opened));
      SteadyAppend(p, s, moves, ServerResolves(Opened));
      moves := moves + [ServerResolves(Opened)];
      now := now.(server := e.(inbox := Some(s.toServer[0].msg)), toServer := s.toServer[1..]);
      assert After(p, s, moves) == now;
      AfterAppend(p, s, moves, ServerRuns(c));
      SteadyAppend(p, s, moves, ServerRuns(c));
      moves := moves + [ServerRuns(c)];
    }
  }

  lemma ServerTurnIsMoves(p: Params, s: System, asleep: bool, c: Choice, pulled: bool, e: Endpoint<ServerState>, next: Endpoint<ServerState>)
    returns (moves: seq<Move>)
    requires s.server == e.(wait := if asleep then ReadMessage else Ready) && e.wait == Ready && e.state != ServerDone
    requires MayPull(e, s.toServer, pulled) && next == ServerAct(p, Pulled(e, pulled, s.toServer), c)
    requires asleep || pulled ==> ServerAsks(p, e.state) && e.inbox.None? && (e.state == ReadClientCertificateVerify ==> e.certSeen)
    ensures After(p, s, moves) == s.(server := next, toServer := ItemsAfter(pulled, s.toServer))
    ensures !c.retry ==> next.wait != Pending && Steady(p, s, moves)
    ensures ServerMoves(p, e.state, next.state, next.wait)
    ensures next.wait == ReadMessage ==> ServerAsks(p, next.state) && (next.state == ReadClientCertificateVerify ==> next.certSeen)
  {
    hide ServerAct, ServerAsks, After, Steady, ServerMoves;
    moves := ServerStepIsMoves(p, s, asleep, c, pulled);
    ServerProgresses(p, Pulled(e, pulled, s.toServer), c);
  }

  /** One `do_` function, with the message it looks at; a machine that was asleep looks again. */
  method ServerTurn(hs: Side<ServerState>, inp: Pipe, p: Params, willing: bool, ghost asleep: bool, ghost s: System)
    returns (ret: Wait, ghost moves: seq<Move>)
    requires hs.Valid(inp) && hs.Agrees(p) && hs.state != ServerDone
    requires s.server == hs.Paused(if asleep then ReadMessage else Ready) && s.toServer == inp.items
    requires asleep ==> ServerAsks(p, hs.state) && hs.inbox.None? && (hs.state == ReadClientCertificateVerify ==> hs.certSeen)
    modifies hs, hs.writer, hs.reader, inp`items
    ensures hs.Valid(inp) && hs.Kept()
    ensures After(p, s, moves) == s.(server := hs.Paused(ret), toServer := inp.items)
    ensures willing ==> ret != Pending && Steady(p, s, moves)
    ensures ServerMoves(p, old(hs.state), hs.state, ret)
    ensures ret == ReadMessage ==> hs.Starved() && ServerAsks(p, hs.state) && (hs.state == ReadClientCertificateVerify ==> hs.certSeen)
  {
    hide ServerAct, Pulled, Side.Valid, Side.Agrees, ServerAsks, After, Steady, ServerMoves;
    var c: Choice := *;
    if willing || !Small(c, hs.limit) {
      c := Choice(false, if Small(c, hs.limit) then c.body else [], if Small(c, hs.limit) then c.extra else []);
    }
    ghost var e := hs.Paused(Ready);
    ghost var pulled;
    ret, pulled := ServerDispatch(hs, inp, p, c);
    moves := ServerTurnIsMoves(p, s, asleep, c, pulled, e, hs.Paused(ret));
  }

  /** The loop over states, until one of them has to wait or the last one is reached. */
  method ServerLoop(hs: Side<ServerState>, inp: Pipe, p: Params, willing: bool, ghost asleep: bool, ghost s: System)
    returns (ret: Wait, ghost moves: seq<Move>)
    requires hs.Valid(inp) && hs.Agrees(p) && s.server == hs.Paused(if asleep then ReadMessage else Ready) && s.toServer == inp.items
    requires asleep ==> ServerAsks(p, hs.state) && hs.inbox.None? && hs.state != ServerDone && (hs.state == ReadClientCertificateVerify ==> hs.certSeen)
    modifies hs, hs.writer, hs.reader, inp`items
    ensures hs.Valid(inp) && hs.Kept()
    ensures After(p, s, moves) == s.(server := hs.Paused(ret), toServer := inp.items)
    ensures willing ==> ret != Pending && Steady(p, s, moves)
    ensures ret == Ready <==> hs.state == ServerDone
    ensures old(hs.state) == ServerDone ==> ret == Ready
    ensures old(hs.state) == ServerDone || ServerMoves(p, old(hs.state), hs.state, ret)
    ensures ret == ReadMessage ==> hs.Starved() && ServerAsks(p, hs.state) && (hs.state == ReadClientCertificateVerify ==> hs.certSeen)
  {
    hide Side.Valid, Side.Agrees, ServerAsks, Side.Starved, ServerRank;
    moves := [];
    ghost var sleeping := asleep;
    while hs.state != ServerDone
      invariant hs.Valid(inp) && hs.Kept()
      invariant After(p, s, moves) == s.(server := hs.Paused(if sleeping then ReadMessage else Ready), toServer := inp.items)
      invariant sleeping ==> ServerAsks(p, hs.state) && hs.inbox.None? && hs.state != ServerDone && (hs.state == ReadClientCertificateVerify ==> hs.certSeen)
      invariant old(hs.state) == ServerDone ==> hs.state == ServerDone
      invariant hs.state == old(hs.state) || ServerRank(p, hs.state) < ServerRank(p, old(hs.state))
      invariant willing ==> Steady(p, s, moves)
      decreases ServerRank(p, hs.state)
    {
      ghost var more;
      ret, more := ServerTurn(hs, inp, p, willing, sleeping, After(p, s, moves));
      AfterConcat(p, s, moves, more);
      if willing {
        SteadyConcat(p, s, moves, more);
      }
      moves, sleeping := moves + more, false;
      if ret != Ready {
        return;
      }
    }
    ret := Ready;
  }

  ghost function ServerSystem(hs: Side<ServerState>, inp: Pipe, out: Pipe, peer: Endpoint<ClientState>): System
    reads hs, inp, out
  {
    System(peer, hs.Now(), inp.items, out.items)
  }

  /** Between calls: a machine that waits for a message has none to look at, and one that is done waits for nothing. */
  ghost predicate ServerRests(hs: Side<ServerState>, p: Params)
    reads hs, hs.reader
  {
    && (hs.wait == ReadMessage ==> hs.Starved() && ServerAsks(p, hs.state) && (hs.state == ReadClientCertificateVerify ==> hs.certSeen))
    && (hs.state == ServerDone ==> hs.wait == Ready)
  }

  /** A call has come to its end: done, an error, no record to read, or a callback that is to be called again. */
  ghost predicate ServerSettled(hs: Side<ServerState>, inp: Pipe, was: Wait)
    reads hs, inp
  {
    hs.state == ServerDone || hs.wait == Error || hs.Reads(inp) || (was == Pending && hs.wait == Ready)
  }

  lemma ServerResolveIsMove(p: Params, s: System, how: How) returns (moves: seq<Move>)
    ensures how.Moved? ==>
      After(p, s, moves) == s.(server := Resolve(s.server, how.r, s.toServer),
                               toServer := Incoming(s.server, how.r, s.toServer), toClient := s.toClient + Outgoing(s.server, how.r))
    ensures !how.Moved? ==> After(p, s, moves) == s && Steady(p, s, moves)
    ensures how.Moved? && (Helps(s.server, how.r, s.toServer) || (how.r == Called && !s.server.wait.Flush?)) ==> Steady(p, s, moves)
  {
    hide Resolve, Outgoing, Incoming, Helps;
    moves := [];
    if how.Moved? {
      moves := [ServerResolves(how.r)];
      assert moves[1..] == [];
      CalledForNothing(s.server, s.toServer);
      assert After(p, s, moves) == After(p, Step(p, s, moves[0]), []);
    }
  }

  /** Once resolved, runs until something has to be resolved again. */
  method ServerRunsOn(hs: Side<ServerState>, inp: Pipe, out: Pipe, p: Params, willing: bool, ghost asleep: bool, ghost s: System)
    returns (again: bool, ghost moves: seq<Move>)
    requires hs.Valid(inp) && hs.Linked(out) && inp != out && hs.Agrees(p) && hs.wait == Ready
    requires s.server == hs.Paused(if asleep then ReadMessage else Ready) && s.toServer == inp.items
    requires asleep ==> ServerAsks(p, hs.state) && hs.inbox.None? && hs.state != ServerDone && (hs.state == ReadClientCertificateVerify ==> hs.certSeen)
    modifies hs, hs.writer, hs.reader, inp`items
    ensures hs.Valid(inp) && hs.Linked(out) && ServerRests(hs, p)
    ensures After(p, s, moves) == s.(server := hs.Now(), toServer := inp.items)
    ensures !again ==> hs.HeldUp(inp)
    ensures willing ==> Steady(p, s, moves) && hs.wait != Pending && (!again ==> hs.wait == Error || hs.state == ServerDone)
    ensures again ==> ServerRank(p, hs.state) < ServerRank(p, old(hs.state)) || (hs.state == old(hs.state) && !hs.Runs())
  {
    hide Side.Valid, Side.Agrees, IsPart, ServerAsks, Side.Starved, After, Steady, ServerRank;
    ghost var before := hs.pending;
    var ret;
    ret, moves := ServerLoop(hs, inp, p, willing, asleep, s);
    hs.wait := ret;
    IsPartOfMore(before, hs.pending, hs.part, out.tail, out.coming, hs.limit);
    again := ret != Error && ret != Ready;
  }

  /** With an honest peer no record is out of place where a change of cipher is awaited. */
  lemma ServerNothingStray(p: Params, s: System, tail: seq<Stream.Token>, coming: Option<Message>)
    ensures Joint(p, s) && s.server.wait == ReadCcs && Started(s.client.flight, tail, coming) ==>
      if s.toServer != [] then s.toServer[0].Ccs? else tail == []
  {
    hide Joint;
    if Joint(p, s) && s.server.wait == ReadCcs {
      ServerExpectsCcs(p, s);
      ServerCcsEmpty(p, s);
      var u := Underway(s.client, s.server, s.toServer);
      assert u == s.toServer + s.client.flight;
    }
  }

  lemma ServerCcsEmpty(p: Params, s: System)
    requires Joint(p, s) && s.server.wait == ReadCcs
    ensures s.server.inbox.None?
  {
    ServerCcsNext(p, s.server);
  }

  /** Resolves what the server waits for; it may be asleep, with a record opened and the message not whole. */
  method ServerWakes(hs: Side<ServerState>, inp: Pipe, out: Pipe, p: Params, willing: bool, ghost peer: Endpoint<ClientState>)
    returns (run: bool, ghost asleep: bool, ghost stray: bool, ghost moves: seq<Move>)
    requires hs.Valid(inp) && hs.Linked(out) && inp != out && ServerRests(hs, p)
    modifies hs`wait, hs`pending, hs`part, hs.reader, hs.writer, inp`records, inp`items, out
    ensures hs.Valid(inp) && hs.Linked(out) && inp.tail == old(inp.tail) && inp.coming == old(inp.coming) && ServerRests(hs, p)
    ensures Extends(old(out.records), old(out.items), old(out.tail), out.records, out.items, out.tail)
    ensures Supplies(old(out.records), old(out.items), out.records, out.items, hs.limit)
    ensures !stray ==>
      After(p, old(ServerSystem(hs, inp, out, peer)), moves)
        == ServerSystem(hs, inp, out, peer).(server := hs.Paused(if asleep then ReadMessage else hs.wait))
    ensures stray ==> !run && hs.wait == Error
    ensures Joint(p, old(ServerSystem(hs, inp, out, peer))) && Started(peer.flight, inp.tail, inp.coming) ==> !stray
    ensures asleep ==> ServerAsks(p, hs.state) && hs.inbox.None? && hs.state != ServerDone && run && (hs.state == ReadClientCertificateVerify ==> hs.certSeen)
    ensures willing && !stray ==> Steady(p, old(ServerSystem(hs, inp, out, peer)), moves)
    ensures if run then hs.wait == Ready else hs.HeldUp(inp) && (willing ==> ServerSettled(hs, inp, old(hs.wait)))
    ensures |inp.records| < |old(inp.records)| || (|inp.records| == |old(inp.records)| && (run ==> old(hs.Runs())))
  {
    hide Resolve, Outgoing, Incoming, Helps, Steady, Joint, Started, Side.Valid, Side.Linked, Extends, Supplies,
      ServerAsks, After;
    ghost var start := ServerSystem(hs, inp, out, peer);
    ghost var how;
    run, how := hs.ResolveWait(inp, out, willing);
    stray, asleep := how.Stray?, how.Asleep?;
    moves := ServerResolveIsMove(p, start, how);
    ServerNothingStray(p, start, inp.tail, inp.coming);
  }

  /** Resolves, and runs until something has to be resolved again. */
  method ServerRound(hs: Side<ServerState>, inp: Pipe, out: Pipe, p: Params, willing: bool, ghost peer: Endpoint<ClientState>)
    returns (again: bool, ghost stray: bool, ghost moves: seq<Move>)
    requires hs.Valid(inp) && hs.Linked(out) && inp != out && hs.Agrees(p) && ServerRests(hs, p)
    modifies hs, hs.writer, hs.reader, inp`records, inp`items, out
    ensures hs.Valid(inp) && hs.Linked(out) && inp.tail == old(inp.tail) && inp.coming == old(inp.coming) && ServerRests(hs, p)
    ensures Extends(old(out.records), old(out.items), old(out.tail), out.records, out.items, out.tail)
    ensures Supplies(old(out.records), old(out.items), out.records, out.items, hs.limit)
    ensures !stray ==> After(p, old(ServerSystem(hs, inp, out, peer)), moves) == ServerSystem(hs, inp, out, peer)
    ensures stray ==> !again && hs.wait == Error
    ensures Joint(p, old(ServerSystem(hs, inp, out, peer))) && Started(peer.flight, inp.tail, inp.coming) ==> !stray
    ensures !again ==> hs.HeldUp(inp)
    ensures willing && !stray ==> Steady(p, old(ServerSystem(hs, inp, out, peer)), moves)
    ensures willing ==> if again then hs.wait != Pending else ServerSettled(hs, inp, old(hs.wait))
    ensures again ==>
      || |inp.records| < |old(inp.records)|
      || (|inp.records| == |old(inp.records)|
          && (ServerRank(p, hs.state) < ServerRank(p, old(hs.state))
              || (hs.state == old(hs.state) && old(hs.Runs()) && !hs.Runs())))
  {
    hide Steady, Joint, Started, Side.Valid, Side.Linked, Side.Agrees, Extends, Supplies, ServerAsks, After,
      ServerRank, ServerRests;
    ghost var start := ServerSystem(hs, inp, out, peer);
    var run;
    ghost var asleep;
    run, asleep, stray, moves := ServerWakes(hs, inp, out, p, willing, peer);
    if !run {
      return false, stray, moves;
    }
    ghost var more;
    again, more := ServerRunsOn(hs, inp, out, p, willing, asleep, After(p, start, moves));
    AfterConcat(p, start, moves, more);
    if willing {
      SteadyConcat(p, start, moves, more);
    }
    moves := moves + more;
  }

  // ---- whole calls ----

  lemma AfterNothing(p: Params, s: System)
    ensures After(p, s, []) == s && Steady(p, s, [])
  {
  }

  lemma ClientInSystem(hs: Side<ClientState>, inp: Pipe, out: Pipe, peer: Endpoint<ServerState>)
    ensures ClientSystem(hs, inp, out, peer).client == hs.Now()
  {
  }

  /** A call keeps to the order of the protocol, whatever the peer has sent. */
  lemma ClientCallStays(p: Params, start: System, moves: seq<Move>, e: Endpoint<ClientState>, stray: bool)
    requires if stray then e.wait == Error else After(p, start, moves).client == e
    ensures forall log | Client.ClientFollows(p, start.client, log) :: Client.ClientStays(p, e, log)
  {
    hide Client.ClientFollows, After;
    forall log | Client.ClientFollows(p, start.client, log)
      ensures Client.ClientStays(p, e, log)
    {
      if !stray {
        Client.ClientStaysInRun(p, start, moves, log);
      }
    }
  }

  /**
   * Runs the client as far as it gets. On whole messages what it does is a run of the two machines, however
   * the records were cut; it stops only when done, when the transport or a callback holds it up, or on
   * an error, which an honest peer never causes.
   */
  method RunClient(hs: Side<ClientState>, inp: Pipe, out: Pipe, p: Params, willing: bool, ghost peer: Endpoint<ServerState>)
    returns (ret: int, ghost stray: bool, ghost moves: seq<Move>)
    requires hs.Valid(inp) && hs.Linked(out) && inp != out && hs.Agrees(p) && ClientRests(hs, p)
    modifies hs, hs.writer, hs.reader, inp`records, inp`items, out
    ensures hs.Valid(inp) && hs.Linked(out) && inp.tail == old(inp.tail) && inp.coming == old(inp.coming) && ClientRests(hs, p)
    ensures Extends(old(out.records), old(out.items), old(out.tail), out.records, out.items, out.tail)
    ensures Supplies(old(out.records), old(out.items), out.records, out.items, hs.limit)
    ensures if stray then hs.wait == Error else After(p, old(ClientSystem(hs, inp, out, peer)), moves) == ClientSystem(hs, inp, out, peer)
    ensures ret > 0 <==> hs.state == ClientDone
    ensures hs.HeldUp(inp)
    ensures willing && !stray ==> Steady(p, old(ClientSystem(hs, inp, out, peer)), moves)
    ensures willing ==> ClientSettled(hs, inp, old(hs.wait))
    ensures p.Valid() && Joint(p, old(ClientSystem(hs, inp, out, peer))) && Started(peer.flight, inp.tail, inp.coming) ==>
      !stray && Joint(p, ClientSystem(hs, inp, out, peer)) && hs.wait != Error
    ensures forall log | Client.ClientFollows(p, old(hs.Now()), log) :: Client.ClientStays(p, hs.Now(), log)
  {
    hide Client.ClientFollows, Client.ClientStays, ClientSystem, Joint, After, Steady, ClientRank, Side.Valid,
      Side.Linked, Side.Agrees, Extends, Supplies, ClientAsks, ClientRests, Started;
    ghost var start := ClientSystem(hs, inp, out, peer);
    ClientInSystem(hs, inp, out, peer);
    ghost var honest := p.Valid() && Joint(p, start) && Started(peer.flight, inp.tail, inp.coming);
    ghost var r0, i0, t0 := out.records, out.items, out.tail;
    SuppliesNothing(r0, i0, t0, hs.limit);
    AfterNothing(p, start);
    moves, stray := [], false;
    var again := true;
    while again
      invariant hs.Valid(inp) && hs.Linked(out) && inp.tail == old(inp.tail) && inp.coming == old(inp.coming) && ClientRests(hs, p)
      invariant Extends(r0, i0, t0, out.records, out.items, out.tail) && Supplies(r0, i0, out.records, out.items, hs.limit)
      invariant if stray then !again && hs.wait == Error else After(p, start, moves) == ClientSystem(hs, inp, out, peer)
      invariant honest ==> !stray
      invariant !again ==> hs.HeldUp(inp)
      invariant willing && !stray ==> Steady(p, start, moves)
      invariant willing ==> if again then hs.wait == Pending ==> hs.wait == old(hs.wait) else ClientSettled(hs, inp, old(hs.wait))
      decreases again, |inp.records|, ClientRank(p, hs.state), hs.Runs()
    {
      RunKeepsJoint(p, start, moves);
      ghost var r1, i1, t1 := out.records, out.items, out.tail;
      ghost var more;
      again, stray, more := ClientRound(hs, inp, out, p, willing, peer);
      ExtendsTwice(r0, i0, t0, r1, i1, t1, out.records, out.items, out.tail, hs.limit);
      AfterConcat(p, start, moves, more);
      if willing && !stray {
        SteadyConcat(p, start, moves, more);
      }
      moves := moves + more;
    }
    RunKeepsJoint(p, start, moves);
    ClientInSystem(hs, inp, out, peer);
    ClientCallStays(p, start, moves, hs.Now(), stray);
    ret := if hs.state == ClientDone then 1 else -1;
  }

  lemma ServerInSystem(hs: Side<ServerState>, inp: Pipe, out: Pipe, peer: Endpoint<ClientState>)
    ensures ServerSystem(hs, inp, out, peer).server == hs.Now()
  {
  }

  /** A call keeps to the order of the protocol, whatever the peer has sent. */
  lemma ServerCallStays(p: Params, start: System, moves: seq<Move>, e: Endpoint<ServerState>, stray: bool)
    requires if stray then e.wait == Error else After(p, start, moves).server == e
    ensures (p.statusSent ==> p.certCipher) ==> forall log | Server.ServerFollows(p, start.server, log) :: Server.ServerStays(p, e, log)
  {
    hide Server.ServerFollows, After;
    forall log | (p.statusSent ==> p.certCipher) && Server.ServerFollows(p, start.server, log)
      ensures Server.ServerStays(p, e, log)
    {
      if !stray {
        Server.ServerStaysInRun(p, start, moves, log);
      }
    }
  }

  /**
   * Runs the server as far as it gets. On whole messages what it does is a run of the two machines, however
   * the records were cut; it stops only when done, when the transport or a callback holds it up, or on
   * an error, which an honest peer never causes.
   */
  method RunServer(hs: Side<ServerState>, inp: Pipe, out: Pipe, p: Params, willing: bool, ghost peer: Endpoint<ClientState>)
    returns (ret: int, ghost stray: bool, ghost moves: seq<Move>)
    requires hs.Valid(inp) && hs.Linked(out) && inp != out && hs.Agrees(p) && ServerRests(hs, p)
    modifies hs, hs.writer, hs.reader, inp`records, inp`items, out
    ensures hs.Valid(inp) && hs.Linked(out) && inp.tail == old(inp.tail) && inp.coming == old(inp.coming) && ServerRests(hs, p)
    ensures Extends(old(out.records), old(out.items), old(out.tail), out.records, out.items, out.tail)
    ensures Supplies(old(out.records), old(out.items), out.records, out.items, hs.limit)
    ensures if stray then hs.wait == Error else After(p, old(ServerSystem(hs, inp, out, peer)), moves) == ServerSystem(hs, inp, out, peer)
    ensures ret > 0 <==> hs.state == ServerDone
    ensures hs.HeldUp(inp)
    ensures willing && !stray ==> Steady(p, old(ServerSystem(hs, inp, out, peer)), moves)
    ensures willing ==> ServerSettled(hs, inp, old(hs.wait))
    ensures p.Valid() && Joint(p, old(ServerSystem(hs, inp, out, peer))) && Started(peer.flight, inp.tail, inp.coming) ==>
      !stray && Joint(p, ServerSystem(hs, inp, out, peer)) && hs.wait != Error
    ensures (p.statusSent ==> p.certCipher) ==>
      forall log | Server.ServerFollows(p, old(hs.Now()), log) :: Server.ServerStays(p, hs.Now(), log)
  {
    hide Server.ServerFollows, Server.ServerStays, ServerSystem, Joint, After, Steady, ServerRank, Side.Valid,
      Side.Linked, Side.Agrees, Extends, Supplies, ServerAsks, ServerRests, Started;
    ghost var start := ServerSystem(hs, inp, out, peer);
    ServerInSystem(hs, inp, out, peer);
    ghost var honest := p.Valid() && Joint(p, start) && Started(peer.flight, inp.tail, inp.coming);
    ghost var r0, i0, t0 := out.records, out.items, out.tail;
    SuppliesNothing(r0, i0, t0, hs.limit);
    AfterNothing(p, start);
    moves, stray := [], false;
    var again := true;
    while again
      invariant hs.Valid(inp) && hs.Linked(out) && inp.tail == old(inp.tail) && inp.coming == old(inp.coming) && ServerRests(hs, p)
      invariant Extends(r0, i0, t0, out.records, out.items, out.tail) && Supplies(r0, i0, out.records, out.items, hs.limit)
      invariant if stray then !again && hs.wait == Error else After(p, start, moves) == ServerSystem(hs, inp, out, peer)
      invariant honest ==> !stray
      invariant !again ==> hs.HeldUp(inp)
      invariant willing && !stray ==> Steady(p, start, moves)
      invariant willing ==> if again then hs.wait == Pending ==> hs.wait == old(hs.wait) else ServerSettled(hs, inp, old(hs.wait))
      decreases again, |inp.records|, ServerRank(p, hs.state), hs.Runs()
    {
      RunKeepsJoint(p, start, moves);
      ghost var r1, i1, t1 := out.records, out.items, out.tail;
      ghost var more;
      again, stray, more := ServerRound(hs, inp, out, p, willing, peer);
      ExtendsTwice(r0, i0, t0, r1, i1, t1, out.records, out.items, out.tail, hs.limit);
      AfterConcat(p, start, moves, more);
      if willing && !stray {
        SteadyConcat(p, start, moves, more);
      }
      moves := moves + more;
    }
    RunKeepsJoint(p, start, moves);
    ServerInSystem(hs, inp, out, peer);
    ServerCallStays(p, start, moves, hs.Now(), stray);
    ret := if hs.state == ServerDone then 1 else -1;
  }
}
