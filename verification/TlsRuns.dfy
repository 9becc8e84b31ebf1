/** Whole runs of client and server over their channels. */
module TlsRuns {
  import opened Bytes
  import opened TlsMachines
  import opened TlsComposition

  /** Either machine runs a step, or what it waits for is resolved. */
  datatype Move = ClientRuns(c: Choice) | ServerRuns(c: Choice) | ClientResolves(r: Resolution) | ServerResolves(r: Resolution)

  function Step(p: Params, s: System, m: Move): System {
    match m
    case ClientRuns(c) => if s.client.wait == Ready then s.(client := ClientAct(p, s.client, c)) else s
    case ServerRuns(c) => if s.server.wait == Ready then s.(server := ServerAct(p, s.server, c)) else s
    case ClientResolves(r) =>
      System(Resolve(s.client, r, s.toClient), s.server,
             s.toServer + Outgoing(s.client, r), Incoming(s.client, r, s.toClient))
    case ServerResolves(r) =>
      System(s.client, Resolve(s.server, r, s.toServer),
             Incoming(s.server, r, s.toServer), s.toClient + Outgoing(s.server, r))
  }

  function Initial(): System {
    System(Endpoint(StartConnect, Ready, [], [], None, false), Endpoint(ReadClientHello, Ready, [], [], None, false), [], [])
  }

  function Run(p: Params, moves: seq<Move>): System {
    if moves == [] then Initial() else Step(p, Run(p, moves[..|moves| - 1]), moves[|moves| - 1])
  }

  // ---- the invariant ----

  /** One side is ahead of the other by what is under way, and nothing is under way to it. */
  predicate Balanced(p: Params, fromA: bool, a: Part, b: Part, toB: seq<Item>, toA: seq<Item>) {
    (Ahead(p, fromA, a, b, toB) && toA == []) || (Ahead(p, !fromA, b, a, toA) && toB == [])
  }

  predicate Joint(p: Params, s: System) {
    && ClientOk(p, s.client) && ServerOk(p, s.server)
    && Balanced(p, true, ClientPart(p, s.client), ServerPart(p, s.server),
                Underway(s.client, s.server, s.toServer), Underway(s.server, s.client, s.toClient))
  }

  lemma {:induction false} BufferedIsNext<S, T>(p: Params, fromA: bool, e: Endpoint<S>, peer: Endpoint<T>, out: seq<Item>, incoming: seq<Item>,
                                                part: Part, peerPart: Part)
    requires Balanced(p, fromA, part, peerPart, Underway(e, peer, out), Underway(peer, e, incoming))
    ensures InboxIsNext(p, !fromA, e, part)
  {
    hide ItemOk, ItemsOk, Ahead;
    var toA := Underway(peer, e, incoming);
    if e.inbox.Some? {
      assert toA[0] == Hs(e.inbox.value);
      NextItem(p, !fromA, peerPart, part, toA);
    }
  }

  lemma {:induction false} WritesKeep<S, T>(p: Params, fromA: bool, e: Endpoint<S>, next: Endpoint<S>, peer: Endpoint<T>, out: seq<Item>, incoming: seq<Item>,
                                            before: Part, after: Part, peerPart: Part)
    requires Balanced(p, fromA, before, peerPart, Underway(e, peer, out), Underway(peer, e, incoming))
    requires Writes(p, fromA, e, next, before, after)
    ensures Balanced(p, fromA, after, peerPart, Underway(next, peer, out), Underway(peer, next, incoming))
  {
    hide ItemOk, ItemsOk, Ahead;
    var toB, toA := Underway(e, peer, out), Underway(peer, e, incoming);
    var more := next.flight[|e.flight|..];
    assert before.rest[0] == EventOf(fromA, more[0]);
    if toA != [] {
      NextItem(p, !fromA, peerPart, before, toA);
    } else {
      if !Ahead(p, fromA, before, peerPart, toB) {
        Level(p, !fromA, peerPart, before);
      }
      Sends(p, fromA, before, peerPart, toB, more, after);
      assert Underway(next, peer, out) == toB + more;
    }
  }

  lemma {:induction false} TakesKeep<S, T>(p: Params, fromA: bool, e: Endpoint<S>, next: Endpoint<S>, peer: Endpoint<T>, out: seq<Item>, incoming: seq<Item>,
                                           before: Part, after: Part, peerPart: Part)
    requires Balanced(p, fromA, before, peerPart, Underway(e, peer, out), Underway(peer, e, incoming))
    requires Takes(e, next, before, after)
    ensures Balanced(p, fromA, after, peerPart, Underway(next, peer, out), Underway(peer, next, incoming))
  {
    hide ItemOk, ItemsOk, Ahead;
    var toA := Underway(peer, e, incoming);
    assert toA[0] == Hs(e.inbox.value) && toA[1..] == Underway(peer, next, incoming);
    NextItem(p, !fromA, peerPart, before, toA);
    assert before.rest == [before.rest[0]] + after.rest;
    assert Messages([toA[0]]) == [e.inbox.value] + Messages([]);
    Receives(p, !fromA, peerPart, before, toA, after);
  }

  lemma {:induction false} ActKeeps<S, T>(p: Params, fromA: bool, e: Endpoint<S>, next: Endpoint<S>, peer: Endpoint<T>, out: seq<Item>, incoming: seq<Item>,
                                          before: Part, after: Part, peerPart: Part)
    requires Balanced(p, fromA, before, peerPart, Underway(e, peer, out), Underway(peer, e, incoming))
    requires Transition(p, fromA, e, next, before, after)
    ensures Balanced(p, fromA, after, peerPart, Underway(next, peer, out), Underway(peer, next, incoming))
  {
    hide Balanced, Takes, Writes;
    if Writes(p, fromA, e, next, before, after) {
      WritesKeep(p, fromA, e, next, peer, out, incoming, before, after, peerPart);
    } else if Takes(e, next, before, after) {
      TakesKeep(p, fromA, e, next, peer, out, incoming, before, after, peerPart);
    }
  }

  /** What arrives is of the sort waited for. */
  lemma {:induction false} ArrivesAsExpected<S, T>(p: Params, fromA: bool, e: Endpoint<S>, peer: Endpoint<T>, out: seq<Item>, incoming: seq<Item>,
                                                   part: Part, peerPart: Part)
    requires Balanced(p, fromA, part, peerPart, Underway(e, peer, out), Underway(peer, e, incoming))
    requires e.inbox.None? && incoming != []
    ensures part.rest != [] && part.rest[0] == EventOf(!fromA, incoming[0])
  {
    hide ItemOk, ItemsOk, Ahead;
    var toA := Underway(peer, e, incoming);
    assert toA[0] == incoming[0];
    NextItem(p, !fromA, peerPart, part, toA);
  }

  lemma FlushKeeps<S, T>(p: Params, e: Endpoint<S>, r: Resolution, peer: Endpoint<T>, out: seq<Item>, incoming: seq<Item>)
    requires e.wait == Flush || e.wait == Pending || e.wait == Ready || e.wait == Error
    ensures Underway(Resolve(e, r, incoming), peer, out + Outgoing(e, r)) == Underway(e, peer, out)
    ensures Underway(peer, Resolve(e, r, incoming), Incoming(e, r, incoming)) == Underway(peer, e, incoming)
  {
  }

  lemma {:induction false} OpenKeeps<S, T>(p: Params, fromA: bool, e: Endpoint<S>, r: Resolution, peer: Endpoint<T>, out: seq<Item>, incoming: seq<Item>,
                                           part: Part, peerPart: Part)
    requires Balanced(p, fromA, part, peerPart, Underway(e, peer, out), Underway(peer, e, incoming))
    requires e.wait == ReadMessage && e.inbox.None? && part.rest != [] && part.rest[0].Says?
    ensures Resolve(e, r, incoming).wait != Error
    ensures Underway(Resolve(e, r, incoming), peer, out + Outgoing(e, r)) == Underway(e, peer, out)
    ensures Underway(peer, Resolve(e, r, incoming), Incoming(e, r, incoming)) == Underway(peer, e, incoming)
  {
    hide Balanced;
    if r.Opened? && incoming != [] {
      ArrivesAsExpected(p, fromA, e, peer, out, incoming, part, peerPart);
      assert [Hs(incoming[0].msg)] + incoming[1..] == incoming;
    }
    assert out + [] == out;
  }

  /** A ChangeCipherSpec record is dealt with as it is read. */
  lemma {:induction false} CcsKeeps<S, T>(p: Params, fromA: bool, e: Endpoint<S>, peer: Endpoint<T>, out: seq<Item>, incoming: seq<Item>,
                                          before: Part, after: Part, peerPart: Part)
    requires Balanced(p, fromA, before, peerPart, Underway(e, peer, out), Underway(peer, e, incoming))
    requires e.wait == ReadCcs && e.inbox.None? && incoming != []
    requires before == Part([Changes(!fromA)] + after.rest, after.transcript)
    ensures Resolve(e, Opened, incoming) == e.(wait := Ready)
    ensures Balanced(p, fromA, after, peerPart, Underway(e.(wait := Ready), peer, out), Underway(peer, e.(wait := Ready), incoming[1..]))
  {
    hide ItemOk, ItemsOk, Ahead;
    ArrivesAsExpected(p, fromA, e, peer, out, incoming, before, peerPart);
    var toA := Underway(peer, e, incoming);
    assert toA[0] == incoming[0] == Ccs;
    assert toA[1..] == Underway(peer, e.(wait := Ready), incoming[1..]);
    assert Messages([toA[0]]) == [] + Messages([]);
    assert before.transcript + [] == after.transcript;
    Receives(p, !fromA, peerPart, before, toA, after);
  }

  // ---- every step keeps the invariant ----

  lemma ClientResolveOk(p: Params, e: Endpoint<ClientState>, r: Resolution, incoming: seq<Item>)
    requires ClientOk(p, e) && Resolve(e, r, incoming).wait != Error
    ensures ClientOk(p, Resolve(e, r, incoming))
    ensures e.wait != ReadCcs || !r.Opened? || incoming == [] ==> ClientPart(p, Resolve(e, r, incoming)) == ClientPart(p, e)
  {
    hide ClientRest, ClientRank, ClientWaits, ClientSending;
  }

  lemma ServerResolveOk(p: Params, e: Endpoint<ServerState>, r: Resolution, incoming: seq<Item>)
    requires ServerOk(p, e) && Resolve(e, r, incoming).wait != Error
    ensures ServerOk(p, Resolve(e, r, incoming))
    ensures e.wait != ReadCcs || !r.Opened? || incoming == [] ==> ServerPart(p, Resolve(e, r, incoming)) == ServerPart(p, e)
  {
    hide ServerRest, ServerWaits, ServerSending, BeforeClientCertificate, AfterClientCertificate;
  }

  lemma {:induction false} ClientRunKeeps(p: Params, s: System, c: Choice)
    requires p.Valid() && Joint(p, s) && s.client.wait == Ready
    ensures Joint(p, s.(client := ClientAct(p, s.client, c)))
  {
    hide ClientOk, ServerOk, Balanced, ClientAct, Transition, InboxIsNext, Underway, Params.Valid, ClientPart, ServerPart;
    var next := ClientAct(p, s.client, c);
    var cp, sp := ClientPart(p, s.client), ServerPart(p, s.server);
    BufferedIsNext(p, true, s.client, s.server, s.toServer, s.toClient, cp, sp);
    ClientActs(p, s.client, c);
    ActKeeps(p, true, s.client, next, s.server, s.toServer, s.toClient, cp, ClientPart(p, next), sp);
  }

  /** The invariant does not prefer one side. */
  lemma EitherSide(p: Params, fromA: bool, a: Part, b: Part, toB: seq<Item>, toA: seq<Item>)
    ensures Balanced(p, fromA, a, b, toB, toA) <==> Balanced(p, !fromA, b, a, toA, toB)
  {
    hide Ahead;
  }

  lemma {:induction false} ServerRunKeeps(p: Params, s: System, c: Choice)
    requires p.Valid() && Joint(p, s) && s.server.wait == Ready
    ensures Joint(p, s.(server := ServerAct(p, s.server, c)))
  {
    hide ClientOk, ServerOk, Balanced, ServerAct, Transition, InboxIsNext, Underway, Params.Valid, ClientPart, ServerPart;
    var next := ServerAct(p, s.server, c);
    var cp, sp := ClientPart(p, s.client), ServerPart(p, s.server);
    EitherSide(p, true, cp, sp, Underway(s.client, s.server, s.toServer), Underway(s.server, s.client, s.toClient));
    BufferedIsNext(p, false, s.server, s.client, s.toClient, s.toServer, sp, cp);
    ServerActs(p, s.server, c);
    ActKeeps(p, false, s.server, next, s.client, s.toClient, s.toServer, sp, ServerPart(p, next), cp);
    EitherSide(p, true, cp, ServerPart(p, next), Underway(s.client, next, s.toServer), Underway(next, s.client, s.toClient));
  }

  lemma {:induction false} ClientMessageNext(p: Params, e: Endpoint<ClientState>)
    requires ClientOk(p, e) && e.wait == ReadMessage
    ensures ClientPart(p, e).rest != [] && ClientPart(p, e).rest[0].Says? && !ClientPart(p, e).rest[0].fromClient && e.inbox.None?
  {
    hide ClientRest, ClientWaits;
    ClientWaitsForMessage(p, e.state);
    NoPrefix(ClientRest(p, e.state));
  }

  lemma {:induction false} ServerMessageNext(p: Params, e: Endpoint<ServerState>)
    requires ServerOk(p, e) && e.wait == ReadMessage
    ensures ServerPart(p, e).rest != [] && ServerPart(p, e).rest[0].Says? && ServerPart(p, e).rest[0].fromClient && e.inbox.None?
  {
    hide ServerRest, ServerWaits;
    ServerWaitsForMessage(p, e.state);
    NoPrefix(ServerRest(p, e.state));
  }

  lemma {:induction false} ClientCcsNext(p: Params, e: Endpoint<ClientState>)
    requires ClientOk(p, e) && e.wait == ReadCcs
    ensures var after := ClientPart(p, e.(wait := Ready));
      ClientPart(p, e) == Part([Changes(false)] + after.rest, after.transcript) && e.inbox.None? && ClientOk(p, e.(wait := Ready))
  {
    hide ClientRest, ClientWaits, ClientSending;
    NoPrefix(ClientRest(p, e.state));
  }

  lemma {:induction false} ServerCcsNext(p: Params, e: Endpoint<ServerState>)
    requires ServerOk(p, e) && e.wait == ReadCcs
    ensures var after := ServerPart(p, e.(wait := Ready));
      ServerPart(p, e) == Part([Changes(true)] + after.rest, after.transcript) && e.inbox.None? && ServerOk(p, e.(wait := Ready))
  {
    hide ServerRest, ServerWaits, ServerSending;
    NoPrefix(ServerRest(p, e.state));
  }

  /** Waiting for a change of cipher, what comes next is one, however far it has come. */
  lemma {:induction false} ClientExpectsCcs(p: Params, s: System)
    requires Joint(p, s) && s.client.wait == ReadCcs
    ensures var u := Underway(s.server, s.client, s.toClient); u != [] ==> u[0] == Ccs
  {
    hide ClientOk, ServerOk, Underway, ClientPart, ServerPart, Ahead;
    var u := Underway(s.server, s.client, s.toClient);
    ClientCcsNext(p, s.client);
    if u != [] {
      NextItem(p, false, ServerPart(p, s.server), ClientPart(p, s.client), u);
    }
  }

  lemma {:induction false} ServerExpectsCcs(p: Params, s: System)
    requires Joint(p, s) && s.server.wait == ReadCcs
    ensures var u := Underway(s.client, s.server, s.toServer); u != [] ==> u[0] == Ccs
  {
    hide ClientOk, ServerOk, Underway, ClientPart, ServerPart, Ahead;
    var u := Underway(s.client, s.server, s.toServer);
    ServerCcsNext(p, s.server);
    if u != [] {
      NextItem(p, true, ClientPart(p, s.client), ServerPart(p, s.server), u);
    }
  }

  lemma {:induction false} ClientResolveKeeps(p: Params, s: System, r: Resolution)
    requires Joint(p, s)
    ensures Joint(p, Step(p, s, ClientResolves(r)))
  {
    hide ClientOk, ServerOk, Balanced, Underway, ClientPart, ServerPart, ClientAct, ServerAct;
    var e := s.client;
    var cp, sp := ClientPart(p, e), ServerPart(p, s.server);
    if e.wait == ReadCcs {
      ClientCcsNext(p, e);
      if r.Opened? && s.toClient != [] {
        CcsKeeps(p, true, e, s.server, s.toServer, s.toClient, cp, ClientPart(p, e.(wait := Ready)), sp);
        assert s.toServer + [] == s.toServer;
      } else {
        assert s.toServer + [] == s.toServer;
      }
    } else if e.wait == ReadMessage {
      ClientMessageNext(p, e);
      OpenKeeps(p, true, e, r, s.server, s.toServer, s.toClient, cp, sp);
      ClientResolveOk(p, e, r, s.toClient);
    } else {
      FlushKeeps(p, e, r, s.server, s.toServer, s.toClient);
      ClientNoError(p, e);
      ClientResolveOk(p, e, r, s.toClient);
    }
  }

  lemma ClientNoError(p: Params, e: Endpoint<ClientState>)
    requires ClientOk(p, e)
    ensures e.wait != Error
  {
  }

  lemma ServerNoError(p: Params, e: Endpoint<ServerState>)
    requires ServerOk(p, e)
    ensures e.wait != Error
  {
  }

  lemma {:induction false} ServerResolveKeeps(p: Params, s: System, r: Resolution)
    requires Joint(p, s)
    ensures Joint(p, Step(p, s, ServerResolves(r)))
  {
    hide ClientOk, ServerOk, Balanced, Underway, ClientPart, ServerPart, ClientAct, ServerAct;
    var e := s.server;
    var cp, sp := ClientPart(p, s.client), ServerPart(p, e);
    var next := Step(p, s, ServerResolves(r));
    EitherSide(p, true, cp, sp, Underway(s.client, e, s.toServer), Underway(e, s.client, s.toClient));
    EitherSide(p, true, cp, ServerPart(p, next.server),
               Underway(s.client, next.server, next.toServer), Underway(next.server, s.client, next.toClient));
    if e.wait == ReadCcs {
      ServerCcsNext(p, e);
      if r.Opened? && s.toServer != [] {
        CcsKeeps(p, false, e, s.client, s.toClient, s.toServer, sp, ServerPart(p, e.(wait := Ready)), cp);
        assert s.toClient + [] == s.toClient;
      } else {
        assert s.toClient + [] == s.toClient;
      }
    } else if e.wait == ReadMessage {
      ServerMessageNext(p, e);
      OpenKeeps(p, false, e, r, s.client, s.toClient, s.toServer, sp, cp);
      ServerResolveOk(p, e, r, s.toServer);
    } else {
      FlushKeeps(p, e, r, s.client, s.toClient, s.toServer);
      ServerNoError(p, e);
      ServerResolveOk(p, e, r, s.toServer);
    }
  }

  lemma {:induction false} StepKeeps(p: Params, s: System, m: Move)
    requires p.Valid() && Joint(p, s)
    ensures Joint(p, Step(p, s, m))
  {
    hide Joint, ClientAct, ServerAct, Resolve, Outgoing, Incoming, Params.Valid;
    match m
    case ClientRuns(c) => if s.client.wait == Ready { ClientRunKeeps(p, s, c); }
    case ServerRuns(c) => if s.server.wait == Ready { ServerRunKeeps(p, s, c); }
    case ClientResolves(r) => ClientResolveKeeps(p, s, r);
    case ServerResolves(r) => ServerResolveKeeps(p, s, r);
  }

  lemma {:induction false} InitialJoint(p: Params)
    ensures Joint(p, Initial())
  {
    SameConversation(p);
    NoPrefix(ClientRest(p, StartConnect));
    NoPrefix(ServerRest(p, ReadClientHello));
    var cp := ClientPart(p, Initial().client);
    assert [] + cp.rest == cp.rest;
    assert Ahead(p, true, cp, ServerPart(p, Initial().server), []);
  }

  lemma {:induction false} RunJoint(p: Params, moves: seq<Move>)
    requires p.Valid()
    ensures Joint(p, Run(p, moves))
    decreases |moves|
  {
    hide Joint, Step, Params.Valid;
    if moves == [] {
      InitialJoint(p);
    } else {
      RunJoint(p, moves[..|moves| - 1]);
      StepKeeps(p, Run(p, moves[..|moves| - 1]), moves[|moves| - 1]);
    }
  }

  // ---- the theorems ----

  /** In no run, whatever the bodies, retries, stalls and interleaving, does either side meet a message it does not expect. */
  lemma {:induction false} NoUnexpectedMessage(p: Params, moves: seq<Move>)
    requires p.Valid()
    ensures Run(p, moves).client.wait != Error && Run(p, moves).server.wait != Error
  {
    RunJoint(p, moves);
  }

  lemma OneIsPrefix(p: Params, s: System)
    requires Joint(p, s)
    ensures s.client.transcript <= s.server.transcript || s.server.transcript <= s.client.transcript
  {
    hide ClientOk, ServerOk, ClientRest, ServerRest, ItemsOk, Events;
  }

  /**
   * The transcripts never part: one extends the other by the messages under way. Where a Finished is
   * about to be checked, it was computed over the very transcript it is checked against.
   */
  lemma {:induction false} TranscriptsAgree(p: Params, moves: seq<Move>)
    requires p.Valid()
    ensures var s := Run(p, moves);
      && (s.client.transcript <= s.server.transcript || s.server.transcript <= s.client.transcript)
      && (s.client.inbox.Some? && s.client.inbox.value.kind == Finished ==>
            s.client.inbox.value.body == p.mac(s.client.transcript, false) && s.client.transcript <= s.server.transcript)
      && (s.server.inbox.Some? && s.server.inbox.value.kind == Finished ==>
            s.server.inbox.value.body == p.mac(s.server.transcript, true) && s.server.transcript <= s.client.transcript)
  {
    hide ClientOk, ServerOk, ClientRest, ServerRest, ItemsOk, Events;
    RunJoint(p, moves);
    var s := Run(p, moves);
    var cp, sp := ClientPart(p, s.client), ServerPart(p, s.server);
    BufferedIsNext(p, true, s.client, s.server, s.toServer, s.toClient, cp, sp);
    EitherSide(p, true, cp, sp, Underway(s.client, s.server, s.toServer), Underway(s.server, s.client, s.toClient));
    BufferedIsNext(p, false, s.server, s.client, s.toClient, s.toServer, sp, cp);
  }

  /** In any state that the invariant holds of. */
  lemma {:induction false} DoneTogether(p: Params, s: System)
    requires Joint(p, s) && s.client.state == ClientDone && s.server.state == ServerDone
    ensures s.client.transcript == s.server.transcript
    ensures Underway(s.client, s.server, s.toServer) == [] && Underway(s.server, s.client, s.toClient) == []
  {
    hide ItemsOk;
    var cp, sp := ClientPart(p, s.client), ServerPart(p, s.server);
    if Ahead(p, true, cp, sp, Underway(s.client, s.server, s.toServer)) {
      assert sp.rest == [];
    } else {
      assert cp.rest == [];
    }
  }

  /** When both are done, the transcripts are the same, and nothing is left on the way. */
  lemma {:induction false} DoneAgree(p: Params, moves: seq<Move>)
    requires p.Valid() && Run(p, moves).client.state == ClientDone && Run(p, moves).server.state == ServerDone
    ensures var s := Run(p, moves);
      s.client.transcript == s.server.transcript && Underway(s.client, s.server, s.toServer) == [] && Underway(s.server, s.client, s.toClient) == []
  {
    hide Joint;
    RunJoint(p, moves);
    DoneTogether(p, Run(p, moves));
  }

  /** Waiting for the peer with nothing from it on the way, or done. */
  predicate ClientBlocked(s: System) {
    s.client.state == ClientDone || ((s.client.wait == ReadMessage || s.client.wait == ReadCcs) && s.toClient == [])
  }

  predicate ServerBlocked(s: System) {
    s.server.state == ServerDone || ((s.server.wait == ReadMessage || s.server.wait == ReadCcs) && s.toServer == [])
  }

  lemma {:induction false} ClientBlockedRest(p: Params, e: Endpoint<ClientState>)
    requires ClientOk(p, e)
    ensures e.state == ClientDone ==> ClientPart(p, e).rest == [] && e.flight == []
    ensures e.wait == ReadMessage || e.wait == ReadCcs ==>
      e.inbox.None? && e.flight == [] && ClientPart(p, e).rest != [] && !ClientPart(p, e).rest[0].fromClient && e.state != ClientDone
  {
    if e.wait == ReadMessage { ClientMessageNext(p, e); }
  }

  lemma {:induction false} ServerBlockedRest(p: Params, e: Endpoint<ServerState>)
    requires ServerOk(p, e)
    ensures e.state == ServerDone ==> ServerPart(p, e).rest == [] && e.flight == []
    ensures e.wait == ReadMessage || e.wait == ReadCcs ==>
      e.inbox.None? && e.flight == [] && ServerPart(p, e).rest != [] && ServerPart(p, e).rest[0].fromClient && e.state != ServerDone
  {
    if e.wait == ReadMessage { ServerMessageNext(p, e); }
  }

  /** If the sender has nothing left to say, the receiver has only what is under way before it. */
  lemma {:induction false} NothingLeft(p: Params, fromClient: bool, sender: Part, receiver: Part, items: seq<Item>)
    requires Ahead(p, fromClient, sender, receiver, items)
    ensures receiver.rest == [] ==> items == [] && sender.rest == []
    ensures items == [] ==> receiver.rest == sender.rest
  {
    hide ItemsOk;
    NoPrefix(sender.rest);
  }

  lemma {:induction false} NotBothBlocked(p: Params, s: System)
    requires Joint(p, s) && ClientBlocked(s) && ServerBlocked(s)
    ensures s.client.state == ClientDone && s.server.state == ServerDone
  {
    hide Ahead, ClientOk, ServerOk, ClientPart, ServerPart;
    var cp, sp := ClientPart(p, s.client), ServerPart(p, s.server);
    var toS, toC := Underway(s.client, s.server, s.toServer), Underway(s.server, s.client, s.toClient);
    ClientBlockedRest(p, s.client);
    ServerBlockedRest(p, s.server);
    if Ahead(p, true, cp, sp, toS) && toC == [] {
      NothingLeft(p, true, cp, sp, toS);
    } else {
      NothingLeft(p, false, sp, cp, toC);
    }
  }

  /** Moves that get somewhere: no callback asks to be called again, and what is waited for is there. */
  predicate Productive(s: System, m: Move) {
    match m
    case ClientRuns(c) => s.client.wait == Ready && !c.retry && s.client.state != ClientDone
    case ServerRuns(c) => s.server.wait == Ready && !c.retry && s.server.state != ServerDone
    case ClientResolves(r) => Helps(s.client, r, s.toClient)
    case ServerResolves(r) => Helps(s.server, r, s.toServer)
  }

  predicate Helps<S(==)>(e: Endpoint<S>, r: Resolution, incoming: seq<Item>) {
    match e.wait
    case Flush => r == Flushed(|e.flight|)
    case Pending => r == Called
    case ReadMessage | ReadCcs => r == Opened && incoming != []
    case _ => false
  }

  function Help<S(==)>(e: Endpoint<S>): Resolution {
    match e.wait case Flush => Flushed(|e.flight|) case Pending => Called case _ => Opened
  }

  /** As long as one side is not done, there is something to do: never do both wait. */
  lemma {:induction false} NeverStuck(p: Params, s: System) returns (m: Move)
    requires Joint(p, s) && (s.client.state != ClientDone || s.server.state != ServerDone)
    ensures Productive(s, m)
  {
    hide Balanced, ClientPart, ServerPart, Underway;
    var go := Choice(false, [], []);
    if ClientBlocked(s) && ServerBlocked(s) {
      NotBothBlocked(p, s);
    }
    ClientNoError(p, s.client);
    ServerNoError(p, s.server);
    if !ClientBlocked(s) {
      m := if s.client.wait == Ready then ClientRuns(go) else ClientResolves(Help(s.client));
    } else {
      m := if s.server.wait == Ready then ServerRuns(go) else ServerResolves(Help(s.server));
    }
  }

  // ---- the handshake ends ----

  /** How far a machine is within its state. */
  function Phase<S(==)>(e: Endpoint<S>): nat {
    match e.wait
    case Flush => 7
    case ReadCcs => 6
    case Pending => 5
    case ReadMessage => 3
    case _ => if e.inbox.None? then 4 else 2
  }

  function ClientMeasure(p: Params, e: Endpoint<ClientState>): nat {
    16 * ClientRank(p, e.state) + Phase(e)
  }

  function ServerMeasure(p: Params, e: Endpoint<ServerState>): nat {
    16 * ServerRank(p, e.state) + Phase(e)
  }

  function Measure(p: Params, s: System): nat {
    ClientMeasure(p, s.client) + ServerMeasure(p, s.server)
  }

  /** In these states the machine asks for a message if it has none. */
  predicate ClientAsks(p: Params, s: ClientState) {
    || s == ReadServerHello || (s == ReadServerCertificate && p.certCipher) || (s == ReadCertificateStatus && p.statusExpected)
    || s == ReadServerKeyExchange || (s == ReadCertificateRequest && p.certCipher) || s == ReadServerHelloDone
    || (s == ReadSessionTicket && p.ticket) || s == ReadServerFinished
  }

  predicate ServerAsks(p: Params, s: ServerState) {
    || s == ReadClientHello || s == SelectCertificate || s == SelectParameters || (s == ReadClientCertificate && p.certRequest)
    || s == ReadClientKeyExchange || (s == ReadNextProto && p.nextProto) || (s == ReadChannelId && p.channelId)
    || s == ReadClientFinished || s == ReadClientCertificateVerify
  }

  /** A state that does not hold the machine up is left for one nearer to the end. */
  predicate ClientMoves(p: Params, before: ClientState, after: ClientState, ret: Wait) {
    && (ClientRank(p, after) < ClientRank(p, before)
        || (after == before && (ret == ReadMessage || ret == Pending || ret == Error)))
    && (after == ClientDone ==> ret == Ready)
  }

  predicate ServerMoves(p: Params, before: ServerState, after: ServerState, ret: Wait) {
    && (ServerRank(p, after) < ServerRank(p, before)
        || (after == before && (ret == ReadMessage || ret == Pending || ret == Error)))
    && (after == ServerDone ==> ret == Ready)
  }

  /** The first half of the client's states, up to the end of the server's first flight. */
  predicate ClientEarly(s: ClientState) {
    s == StartConnect || s == ReadServerHello || s == ReadServerCertificate || s == ReadCertificateStatus
    || s == VerifyServerCertificate || s == ReadServerKeyExchange || s == ReadCertificateRequest || s == ReadServerHelloDone
  }

  /** How state and wait change in one step: towards the end, or the machine waits where it is. */
  predicate ClientProgress(p: Params, e: Endpoint<ClientState>, next: Endpoint<ClientState>, c: Choice) {
    && ClientMoves(p, e.state, next.state, next.wait)
    && (next.wait == ReadMessage ==> next == e.(wait := ReadMessage) && ClientAsks(p, e.state) && e.inbox.None?)
    && (next.wait == Pending ==> c.retry)
  }

  lemma ClientProgressEarly(p: Params, e: Endpoint<ClientState>, c: Choice)
    requires e.wait == Ready && ClientEarly(e.state)
    ensures ClientProgress(p, e, ClientAct(p, e, c), c)
  {
  }

  lemma ClientProgressLate(p: Params, e: Endpoint<ClientState>, c: Choice)
    requires e.wait == Ready && !ClientEarly(e.state) && e.state != ClientDone
    ensures ClientProgress(p, e, ClientAct(p, e, c), c)
  {
  }

  lemma {:induction false} ClientProgresses(p: Params, e: Endpoint<ClientState>, c: Choice)
    requires e.wait == Ready && e.state != ClientDone
    ensures ClientProgress(p, e, ClientAct(p, e, c), c)
  {
    hide ClientAct, ClientProgress;
    if ClientEarly(e.state) {
      ClientProgressEarly(p, e, c);
    } else {
      ClientProgressLate(p, e, c);
    }
  }

  lemma {:induction false} ClientMovesOn(p: Params, e: Endpoint<ClientState>, c: Choice)
    requires e.wait == Ready && !c.retry && e.state != ClientDone && ClientAct(p, e, c).wait != Error
    ensures var next := ClientAct(p, e, c);
      ClientRank(p, next.state) < ClientRank(p, e.state) || (next == e.(wait := ReadMessage) && e.inbox.None?)
  {
    hide ClientAct, ClientRank;
    ClientProgresses(p, e, c);
  }

  /** The server's states up to the end of its first flight. */
  predicate ServerEarly(s: ServerState) {
    s == ReadClientHello || s == SelectCertificate || s == SelectParameters || s == SendServerHello
    || s == SendServerCertificate || s == SendServerKeyExchange || s == SendServerHelloDone
  }

  /** Those in which it reads up to the client's change of cipher. */
  predicate ServerMiddle(s: ServerState) {
    s == ReadClientCertificate || s == VerifyClientCertificate || s == ReadClientKeyExchange
    || s == ReadClientCertificateVerify || s == ReadChangeCipherSpec
  }

  /** How state and wait change in one step: towards the end, or the machine waits where it is. */
  predicate ServerProgress(p: Params, e: Endpoint<ServerState>, next: Endpoint<ServerState>, c: Choice) {
    && ServerMoves(p, e.state, next.state, next.wait)
    && (next.wait == ReadMessage ==> next == e.(wait := ReadMessage) && ServerAsks(p, e.state) && e.inbox.None?)
    && (next.wait == ReadMessage && e.state == ReadClientCertificateVerify ==> e.certSeen)
    && (next.wait == Pending ==> c.retry)
  }

  lemma ServerProgressEarly(p: Params, e: Endpoint<ServerState>, c: Choice)
    requires e.wait == Ready && ServerEarly(e.state)
    ensures ServerProgress(p, e, ServerAct(p, e, c), c)
  {
  }

  lemma ServerProgressMiddle(p: Params, e: Endpoint<ServerState>, c: Choice)
    requires e.wait == Ready && ServerMiddle(e.state)
    ensures ServerProgress(p, e, ServerAct(p, e, c), c)
  {
  }

  lemma ServerProgressLate(p: Params, e: Endpoint<ServerState>, c: Choice)
    requires e.wait == Ready && !ServerEarly(e.state) && !ServerMiddle(e.state) && e.state != ServerDone
    ensures ServerProgress(p, e, ServerAct(p, e, c), c)
  {
  }

  lemma {:induction false} ServerProgresses(p: Params, e: Endpoint<ServerState>, c: Choice)
    requires e.wait == Ready && e.state != ServerDone
    ensures ServerProgress(p, e, ServerAct(p, e, c), c)
  {
    hide ServerAct, ServerProgress;
    if ServerEarly(e.state) {
      ServerProgressEarly(p, e, c);
    } else if ServerMiddle(e.state) {
      ServerProgressMiddle(p, e, c);
    } else {
      ServerProgressLate(p, e, c);
    }
  }

  lemma {:induction false} ServerMovesOn(p: Params, e: Endpoint<ServerState>, c: Choice)
    requires e.wait == Ready && !c.retry && e.state != ServerDone && ServerAct(p, e, c).wait != Error
    ensures var next := ServerAct(p, e, c);
      ServerRank(p, next.state) < ServerRank(p, e.state) || (next == e.(wait := ReadMessage) && e.inbox.None?)
  {
    hide ServerAct, ServerRank;
    ServerProgresses(p, e, c);
  }

  lemma HelpDecreases<S>(e: Endpoint<S>, r: Resolution, incoming: seq<Item>)
    requires Helps(e, r, incoming) && Resolve(e, r, incoming).wait != Error
    ensures Resolve(e, r, incoming).state == e.state && Phase(Resolve(e, r, incoming)) < Phase(e)
  {
  }

  /** Every productive move brings the handshake closer to its end. */
  lemma {:induction false} ProductiveDecreases(p: Params, s: System, m: Move)
    requires p.Valid() && Joint(p, s) && Productive(s, m)
    ensures Measure(p, Step(p, s, m)) < Measure(p, s)
  {
    hide ClientAct, ServerAct, ClientRank, ServerRank, Resolve, Helps, Balanced, ClientOk, ServerOk, Params.Valid;
    var next := Step(p, s, m);
    StepKeeps(p, s, m);
    ClientNoError(p, next.client);
    ServerNoError(p, next.server);
    match m
    case ClientRuns(c) => ClientMovesOn(p, s.client, c);
    case ServerRuns(c) => ServerMovesOn(p, s.server, c);
    case ClientResolves(r) => HelpDecreases(s.client, r, s.toClient);
    case ServerResolves(r) => HelpDecreases(s.server, r, s.toServer);
  }

  function After(p: Params, s: System, moves: seq<Move>): System
    decreases |moves|
  {
    if moves == [] then s else After(p, Step(p, s, moves[0]), moves[1..])
  }

  /** Moves that get somewhere or change nothing. */
  predicate Steady(p: Params, s: System, moves: seq<Move>)
    decreases |moves|
  {
    moves == [] || ((Productive(s, moves[0]) || Step(p, s, moves[0]) == s) && Steady(p, Step(p, s, moves[0]), moves[1..]))
  }

  lemma {:induction false} SteadyConcat(p: Params, s: System, a: seq<Move>, b: seq<Move>)
    requires Steady(p, s, a) && Steady(p, After(p, s, a), b)
    ensures Steady(p, s, a + b)
    decreases |a|
  {
    hide Step, Productive;
    if a == [] {
      assert a + b == b;
    } else {
      assert (a + b)[1..] == a[1..] + b;
      SteadyConcat(p, Step(p, s, a[0]), a[1..], b);
    }
  }

  /** They leave all as it is, or bring the handshake closer to its end. */
  lemma {:induction false} SteadyDecreases(p: Params, s: System, moves: seq<Move>)
    requires p.Valid() && Joint(p, s) && Steady(p, s, moves)
    ensures After(p, s, moves) == s || Measure(p, After(p, s, moves)) < Measure(p, s)
    decreases |moves|
  {
    hide Step, Productive, Joint, Measure;
    if moves != [] {
      StepKeeps(p, s, moves[0]);
      if Productive(s, moves[0]) {
        ProductiveDecreases(p, s, moves[0]);
      }
      SteadyDecreases(p, Step(p, s, moves[0]), moves[1..]);
    }
  }

  /** From every reachable state the handshake can be completed, within as many productive moves as the measure says. */
  lemma {:induction false} CanComplete(p: Params, s: System) returns (moves: seq<Move>)
    requires p.Valid() && Joint(p, s)
    ensures After(p, s, moves).client.state == ClientDone && After(p, s, moves).server.state == ServerDone
    ensures |moves| <= Measure(p, s)
    decreases Measure(p, s)
  {
    hide Joint, Step, Productive, Measure, Params.Valid;
    if s.client.state == ClientDone && s.server.state == ServerDone {
      moves := [];
    } else {
      var m := NeverStuck(p, s);
      ProductiveDecreases(p, s, m);
      StepKeeps(p, s, m);
      var more := CanComplete(p, Step(p, s, m));
      moves := [m] + more;
      assert moves[1..] == more;
    }
  }

  // ---- the size of a flight ----

  /** The most that can have been written and not flushed when the client enters a state. */
  function ClientFlightBound(s: ClientState): nat {
    match s
    case ReadServerHello | SendClientKeyExchange => 1
    case SendClientCertificateVerify => 2
    case SendClientFinished => 3
    case FinishFlight => 7
    case _ => 0
  }

  function ServerFlightBound(s: ServerState): nat {
    match s
    case SendServerCertificate | SendServerFinished => 1
    case SendServerKeyExchange => 3
    case SendServerHelloDone | ReadChangeCipherSpec | FinishServerHandshake => 4
    case ReadClientCertificate => 6
    case _ => 0
  }

  predicate FlightsBounded(s: System) {
    |s.client.flight| <= ClientFlightBound(s.client.state) && |s.server.flight| <= ServerFlightBound(s.server.state)
  }

  predicate ClientWrites(s: ClientState) {
    s == StartConnect || s == SendClientCertificate || s == SendClientKeyExchange || s == SendClientCertificateVerify
  }

  lemma ClientWritesBounded(p: Params, e: Endpoint<ClientState>, c: Choice)
    requires |e.flight| <= ClientFlightBound(e.state) && ClientWrites(e.state)
    ensures |ClientAct(p, e, c).flight| <= ClientFlightBound(ClientAct(p, e, c).state)
  {
  }

  lemma ClientFinishBounded(p: Params, e: Endpoint<ClientState>, c: Choice)
    requires |e.flight| <= ClientFlightBound(e.state) && e.state == SendClientFinished
    ensures |ClientAct(p, e, c).flight| <= ClientFlightBound(ClientAct(p, e, c).state)
  {
  }

  lemma ClientReadsOnly(p: Params, e: Endpoint<ClientState>, c: Choice)
    requires !ClientWrites(e.state) && e.state != SendClientFinished
    ensures ClientAct(p, e, c).flight == e.flight
  {
  }

  lemma {:induction false} ClientFlightGrows(p: Params, e: Endpoint<ClientState>, c: Choice)
    requires ClientOk(p, e) && e.wait == Ready && |e.flight| <= ClientFlightBound(e.state)
    ensures |ClientAct(p, e, c).flight| <= ClientFlightBound(ClientAct(p, e, c).state)
  {
    hide ClientAct, ClientRank, ClientWaits;
    if ClientWrites(e.state) {
      ClientWritesBounded(p, e, c);
    } else if e.state == SendClientFinished {
      ClientFinishBounded(p, e, c);
    } else {
      ClientReadsOnly(p, e, c);
    }
  }

  predicate ServerWrites(s: ServerState) {
    s == SendServerHello || s == SendServerKeyExchange || s == SendServerHelloDone
  }

  lemma ServerWritesBounded(p: Params, e: Endpoint<ServerState>, c: Choice)
    requires |e.flight| <= ServerFlightBound(e.state) && ServerWrites(e.state)
    ensures |ServerAct(p, e, c).flight| <= ServerFlightBound(ServerAct(p, e, c).state)
  {
  }

  lemma ServerEndsBounded(p: Params, e: Endpoint<ServerState>, c: Choice)
    requires |e.flight| <= ServerFlightBound(e.state) && (e.state == SendServerCertificate || e.state == SendServerFinished)
    ensures |ServerAct(p, e, c).flight| <= ServerFlightBound(ServerAct(p, e, c).state)
  {
  }

  lemma ServerReadsOnly(p: Params, e: Endpoint<ServerState>, c: Choice)
    requires !ServerWrites(e.state) && e.state != SendServerCertificate && e.state != SendServerFinished
    ensures ServerAct(p, e, c).flight == e.flight
  {
  }

  lemma {:induction false} ServerFlightGrows(p: Params, e: Endpoint<ServerState>, c: Choice)
    requires ServerOk(p, e) && e.wait == Ready && |e.flight| <= ServerFlightBound(e.state)
    ensures |ServerAct(p, e, c).flight| <= ServerFlightBound(ServerAct(p, e, c).state)
  {
    hide ServerAct, ServerWaits, BeforeClientCertificate, AfterClientCertificate;
    if ServerWrites(e.state) {
      ServerWritesBounded(p, e, c);
    } else if e.state == SendServerCertificate || e.state == SendServerFinished {
      ServerEndsBounded(p, e, c);
    } else {
      ServerReadsOnly(p, e, c);
    }
  }

  lemma ResolveShrinks<S>(e: Endpoint<S>, r: Resolution, incoming: seq<Item>)
    ensures |Resolve(e, r, incoming).flight| <= |e.flight| && Resolve(e, r, incoming).state == e.state
  {
  }

  lemma {:induction false} FlightsStepBounded(p: Params, s: System, m: Move)
    requires p.Valid() && Joint(p, s) && FlightsBounded(s)
    ensures FlightsBounded(Step(p, s, m))
  {
    hide Balanced, ClientPart, ServerPart, Underway, ClientOk, ServerOk, ClientAct, ServerAct, Resolve, Outgoing, Incoming,
      ClientFlightBound, ServerFlightBound, Params.Valid;
    StepKeeps(p, s, m);
    match m
    case ClientRuns(c) => if s.client.wait == Ready { ClientFlightGrows(p, s.client, c); }
    case ServerRuns(c) => if s.server.wait == Ready { ServerFlightGrows(p, s.server, c); }
    case ClientResolves(r) => ResolveShrinks(s.client, r, s.toClient);
    case ServerResolves(r) => ResolveShrinks(s.server, r, s.toServer);
  }

  lemma {:induction false} RunBounded(p: Params, moves: seq<Move>)
    requires p.Valid()
    ensures FlightsBounded(Run(p, moves))
    decreases |moves|
  {
    hide Step, Joint, Params.Valid;
    if moves != [] {
      RunBounded(p, moves[..|moves| - 1]);
      RunJoint(p, moves[..|moves| - 1]);
      FlightsStepBounded(p, Run(p, moves[..|moves| - 1]), moves[|moves| - 1]);
    }
  }

  /** In no run does a flight hold more than the seven entries that the datagram transport has room for. */
  lemma {:induction false} FlightFits(p: Params, moves: seq<Move>)
    requires p.Valid()
    ensures |Run(p, moves).client.flight| <= 7 && |Run(p, moves).server.flight| <= 6
  {
    hide Run, Params.Valid;
    RunBounded(p, moves);
  }
}
