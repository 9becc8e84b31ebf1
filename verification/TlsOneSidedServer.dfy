/** The server against a client that may send anything: the same for the other machine. */
module TlsOneSidedServer {
  import opened Bytes
  import opened TlsMachines
  import opened TlsComposition
  import opened TlsRuns
  import opened TlsOneSided

  /** Parameters that agree with what the server knows, and with whether the client has sent a certificate. */
  predicate ServerKnows(p: Params, s: ServerState, certSeen: bool, q: Params) {
    && q.resumed == p.resumed && q.certCipher == p.certCipher && q.statusSent == p.statusSent
    && q.keyExchangeSent == p.keyExchangeSent && q.certRequest == p.certRequest && q.ticket == p.ticket
    && q.nextProto == p.nextProto && q.channelId == p.channelId
    && (ServerRank(p, s) <= 10 ==> (q.clientCert <==> certSeen))
  }

  /** The client has sent a certificate that is not empty. */
  predicate HasChain(log: seq<Entry>) {
    exists i | 0 <= i < |log| :: IsChain(log[i])
  }

  predicate IsChain(x: Entry) {
    x.Said? && x.fromClient && x.msg.kind == Certificate && x.msg.body != []
  }

  /** A server that has not failed: what it has said and heard, and what it still has to, make up the conversation. */
  ghost predicate ServerFollows(p: Params, e: Endpoint<ServerState>, log: seq<Entry>) {
    && e.transcript == Spoken(log) && LogOk(p, log)
    && (e.certSeen <==> HasChain(log)) && (ServerRank(p, e.state) >= 11 ==> !e.certSeen)
    && (e.wait == ReadCcs ==> e.state == ServerProcessCcs)
    && (e.wait == ReadMessage ==> e.inbox.None?)
    && (e.state == SelectCertificate || e.state == SelectParameters ==> e.inbox.Some? && e.inbox.value.kind == ClientHello)
    && forall q | ServerKnows(p, e.state, e.certSeen, q) :: Kinds(log) + ServerPart(q, e).rest == Conversation(q)
  }

  /** The side conditions of a state. */
  predicate ServerSound(p: Params, e: Endpoint<ServerState>) {
    && (ServerRank(p, e.state) >= 11 ==> !e.certSeen)
    && (e.wait == ReadCcs ==> e.state == ServerProcessCcs)
    && (e.wait == ReadMessage ==> e.inbox.None?)
    && (e.state == SelectCertificate || e.state == SelectParameters ==> e.inbox.Some? && e.inbox.value.kind == ClientHello)
  }

  /** One step of the server, and what it adds to the log. */
  lemma ServerFollowsBy(p: Params, e: Endpoint<ServerState>, next: Endpoint<ServerState>, log: seq<Entry>, xs: seq<Entry>)
    requires ServerFollows(p, e, log) && ServerSound(p, next)
    requires next.transcript == Spoken(log + xs) && LogOk(p, log + xs) && (next.certSeen <==> HasChain(log + xs))
    requires forall q | ServerKnows(p, next.state, next.certSeen, q) ::
      ServerKnows(p, e.state, e.certSeen, q) && ServerPart(q, e).rest == Kinds(xs) + ServerPart(q, next).rest
    ensures ServerFollows(p, next, log + xs)
  {
    hide ServerKnows, ServerPart, Conversation, LogOk, HasChain;
    KindsConcat(log, xs);
    forall q | ServerKnows(p, next.state, next.certSeen, q)
      ensures Kinds(log + xs) + ServerPart(q, next).rest == Conversation(q)
    {
      assert Kinds(log) + (Kinds(xs) + ServerPart(q, next).rest) == Kinds(log) + Kinds(xs) + ServerPart(q, next).rest;
    }
  }

  lemma ServerSame(p: Params, e: Endpoint<ServerState>, next: Endpoint<ServerState>, log: seq<Entry>)
    requires ServerFollows(p, e, log) && next == e.(state := next.state, wait := next.wait) && ServerSound(p, next)
    requires forall q | ServerKnows(p, next.state, next.certSeen, q) ::
      ServerKnows(p, e.state, e.certSeen, q) && ServerPart(q, e).rest == [] + ServerPart(q, next).rest
    ensures ServerFollows(p, next, log)
  {
    hide ServerKnows, ServerPart, Conversation, LogOk, HasChain, Spoken;
    assert log + [] == log && Kinds([]) == [];
    ServerFollowsBy(p, e, next, log, []);
  }

  lemma ChainOne(log: seq<Entry>, x: Entry)
    ensures HasChain(log + [x]) <==> HasChain(log) || IsChain(x)
  {
    hide IsChain;
    var more := log + [x];
    if HasChain(log) {
      var i :| 0 <= i < |log| && IsChain(log[i]);
      assert IsChain(more[i]);
    }
    if IsChain(x) {
      assert IsChain(more[|log|]);
    }
    if HasChain(more) {
      var i :| 0 <= i < |more| && IsChain(more[i]);
      assert more[i] == if i < |log| then log[i] else x;
    }
  }

  /** The server's own entries are no chain of the client's. */
  lemma {:induction false} ChainOwn(log: seq<Entry>, xs: seq<Entry>)
    requires forall x | x in xs :: !IsChain(x)
    ensures HasChain(log + xs) <==> HasChain(log)
    decreases |xs|
  {
    hide HasChain, IsChain;
    if xs == [] {
      assert log + xs == log;
    } else {
      assert xs[0] in xs && forall x | x in xs[1..] :: x in xs;
      ChainOne(log, xs[0]);
      ChainOwn(log + [xs[0]], xs[1..]);
      assert log + [xs[0]] + xs[1..] == log + xs;
    }
  }

  /** A message of the client, taken. */
  lemma ServerTakesFollows(p: Params, e: Endpoint<ServerState>, next: Endpoint<ServerState>, log: seq<Entry>, x: Entry)
    requires ServerFollows(p, e, log) && ServerSound(p, next) && x.Said?
    requires next.transcript == e.transcript + [x.msg] && EntryOk(p, e.transcript, x) && (next.certSeen <==> e.certSeen || IsChain(x))
    requires forall q | ServerKnows(p, next.state, next.certSeen, q) ::
      ServerKnows(p, e.state, e.certSeen, q) && ServerPart(q, e).rest == [x.Outline()] + ServerPart(q, next).rest
    ensures ServerFollows(p, next, log + [x])
  {
    hide ServerKnows, ServerPart, Conversation, LogOk, Spoken, EntryOk, HasChain, IsChain;
    OneMore(p, log, x);
    ChainOne(log, x);
    assert Kinds([x]) == [x.Outline()];
    ServerFollowsBy(p, e, next, log, [x]);
  }

  // ---- one step ----

  predicate ServerPassesOver(s: ServerState) {
    s == VerifyClientCertificate || s == ReadChangeCipherSpec || s == ServerProcessCcs || s == FinishServerHandshake || s == ServerDone
  }

  predicate ServerReads(s: ServerState) {
    || s == ReadClientHello || s == SelectCertificate || s == SelectParameters || s == ReadClientCertificate
    || s == ReadClientKeyExchange || s == ReadClientCertificateVerify || s == ReadNextProto || s == ReadChannelId
    || s == ReadClientFinished
  }

  /** What each state has before it, one step unfolded. */
  lemma ServerReadsWith(q: Params)
    ensures ServerRest(q, ReadClientHello) == ServerRest(q, SelectCertificate) == ServerRest(q, SelectParameters)
         == [Says(true, ClientHello)] + ServerRest(q, SendServerHello)
    ensures ServerRest(q, ReadClientCertificate) == If(q.certRequest, Says(true, Certificate)) + ServerRest(q, VerifyClientCertificate)
    ensures ServerRest(q, VerifyClientCertificate) == ServerRest(q, ReadClientKeyExchange)
    ensures ServerRest(q, ReadClientKeyExchange) == [Says(true, ClientKeyExchange)] + ServerRest(q, ReadClientCertificateVerify)
    ensures ServerRest(q, ReadClientCertificateVerify)
         == If(q.clientCert, Says(true, CertificateVerify)) + ServerRest(q, ReadChangeCipherSpec)
  {
    hide If;
  }

  lemma ServerClosesWith(q: Params)
    ensures ServerRest(q, ReadChangeCipherSpec) == [Changes(true)] + ServerRest(q, ServerProcessCcs)
    ensures ServerRest(q, ServerProcessCcs) == ServerRest(q, ReadNextProto)
    ensures ServerRest(q, ReadNextProto) == If(q.nextProto, Says(true, NextProto)) + ServerRest(q, ReadChannelId)
    ensures ServerRest(q, ReadChannelId) == If(q.channelId, Says(true, ChannelId)) + ServerRest(q, ReadClientFinished)
    ensures ServerRest(q, ReadClientFinished)
         == [Says(true, Finished)] + ServerRest(q, if q.resumed then FinishServerHandshake else SendServerFinished)
    ensures ServerRest(q, FinishServerHandshake) == ServerRest(q, ServerDone) == []
  {
    hide If;
  }

  lemma ServerWritesWith(q: Params)
    ensures ServerRest(q, SendServerHello)
         == [Says(false, ServerHello)] + ServerRest(q, if q.resumed then SendServerFinished else SendServerCertificate)
    ensures ServerRest(q, SendServerCertificate)
         == If(q.certCipher, Says(false, Certificate)) + If(q.statusSent, Says(false, CertificateStatus))
            + ServerRest(q, SendServerKeyExchange)
    ensures ServerRest(q, SendServerKeyExchange)
         == If(q.keyExchangeSent, Says(false, ServerKeyExchange)) + ServerRest(q, SendServerHelloDone)
    ensures ServerRest(q, SendServerHelloDone)
         == If(q.certRequest, Says(false, CertificateRequest)) + [Says(false, ServerHelloDone)] + ServerRest(q, ReadClientCertificate)
  {
    hide If;
  }

  lemma ServerFinishesWith(q: Params)
    ensures ServerRest(q, SendServerFinished)
         == ServerCloses(q) + ServerRest(q, if q.resumed then ReadChangeCipherSpec else FinishServerHandshake)
  {
    hide If;
    var ticket := If(q.ticket, Says(false, NewSessionTicket));
    assert ticket + [Changes(false)] + [Says(false, Finished)] == ticket + [Changes(false), Says(false, Finished)];
  }

  lemma ServerReadClientHello(p: Params, e: Endpoint<ServerState>, c: Choice, q: Params)
    requires e.wait == Ready && e.state == ReadClientHello && ServerAct(p, e, c).wait != Error && ServerSound(p, e)
    requires var next := ServerAct(p, e, c); ServerKnows(p, next.state, next.certSeen, q)
    ensures var next := ServerAct(p, e, c);
      ServerKnows(p, e.state, e.certSeen, q) && ServerPart(q, e).rest == Heard(e, next, true) + ServerPart(q, next).rest
  {
    hide ServerRest;
    ServerReadsWith(q);
  }

  lemma ServerSelectCertificate(p: Params, e: Endpoint<ServerState>, c: Choice, q: Params)
    requires e.wait == Ready && e.state == SelectCertificate && ServerAct(p, e, c).wait != Error && ServerSound(p, e)
    requires var next := ServerAct(p, e, c); ServerKnows(p, next.state, next.certSeen, q)
    ensures var next := ServerAct(p, e, c);
      ServerKnows(p, e.state, e.certSeen, q) && ServerPart(q, e).rest == Heard(e, next, true) + ServerPart(q, next).rest
  {
    hide ServerRest;
    ServerReadsWith(q);
  }

  lemma ServerSelectParameters(p: Params, e: Endpoint<ServerState>, c: Choice, q: Params)
    requires e.wait == Ready && e.state == SelectParameters && ServerAct(p, e, c).wait != Error && ServerSound(p, e)
    requires var next := ServerAct(p, e, c); ServerKnows(p, next.state, next.certSeen, q)
    ensures var next := ServerAct(p, e, c);
      ServerKnows(p, e.state, e.certSeen, q) && ServerPart(q, e).rest == Heard(e, next, true) + ServerPart(q, next).rest
  {
    hide ServerRest;
    ServerReadsWith(q);
  }

  lemma ServerReadClientCertificate(p: Params, e: Endpoint<ServerState>, c: Choice, q: Params)
    requires e.wait == Ready && e.state == ReadClientCertificate && ServerAct(p, e, c).wait != Error && ServerSound(p, e)
    requires var next := ServerAct(p, e, c); ServerKnows(p, next.state, next.certSeen, q)
    ensures var next := ServerAct(p, e, c);
      ServerKnows(p, e.state, e.certSeen, q) && ServerPart(q, e).rest == Heard(e, next, true) + ServerPart(q, next).rest
  {
    hide ServerRest;
    ServerReadsWith(q);
  }

  lemma ServerReadClientKeyExchange(p: Params, e: Endpoint<ServerState>, c: Choice, q: Params)
    requires e.wait == Ready && e.state == ReadClientKeyExchange && ServerAct(p, e, c).wait != Error && ServerSound(p, e)
    requires var next := ServerAct(p, e, c); ServerKnows(p, next.state, next.certSeen, q)
    ensures var next := ServerAct(p, e, c);
      ServerKnows(p, e.state, e.certSeen, q) && ServerPart(q, e).rest == Heard(e, next, true) + ServerPart(q, next).rest
  {
    hide ServerRest;
    ServerReadsWith(q);
  }

  lemma ServerReadClientCertificateVerify(p: Params, e: Endpoint<ServerState>, c: Choice, q: Params)
    requires e.wait == Ready && e.state == ReadClientCertificateVerify && ServerAct(p, e, c).wait != Error && ServerSound(p, e)
    requires var next := ServerAct(p, e, c); ServerKnows(p, next.state, next.certSeen, q)
    ensures var next := ServerAct(p, e, c);
      ServerKnows(p, e.state, e.certSeen, q) && ServerPart(q, e).rest == Heard(e, next, true) + ServerPart(q, next).rest
  {
    hide ServerRest;
    ServerReadsWith(q);
  }

  lemma ServerReadNextProto(p: Params, e: Endpoint<ServerState>, c: Choice, q: Params)
    requires e.wait == Ready && e.state == ReadNextProto && ServerAct(p, e, c).wait != Error && ServerSound(p, e)
    requires var next := ServerAct(p, e, c); ServerKnows(p, next.state, next.certSeen, q)
    ensures var next := ServerAct(p, e, c);
      ServerKnows(p, e.state, e.certSeen, q) && ServerPart(q, e).rest == Heard(e, next, true) + ServerPart(q, next).rest
  {
    hide ServerRest;
    ServerClosesWith(q);
  }

  lemma ServerReadChannelId(p: Params, e: Endpoint<ServerState>, c: Choice, q: Params)
    requires e.wait == Ready && e.state == ReadChannelId && ServerAct(p, e, c).wait != Error && ServerSound(p, e)
    requires var next := ServerAct(p, e, c); ServerKnows(p, next.state, next.certSeen, q)
    ensures var next := ServerAct(p, e, c);
      ServerKnows(p, e.state, e.certSeen, q) && ServerPart(q, e).rest == Heard(e, next, true) + ServerPart(q, next).rest
  {
    hide ServerRest;
    ServerClosesWith(q);
  }

  lemma ServerReadClientFinished(p: Params, e: Endpoint<ServerState>, c: Choice, q: Params)
    requires e.wait == Ready && e.state == ReadClientFinished && ServerAct(p, e, c).wait != Error && ServerSound(p, e)
    requires var next := ServerAct(p, e, c); ServerKnows(p, next.state, next.certSeen, q)
    ensures var next := ServerAct(p, e, c);
      ServerKnows(p, e.state, e.certSeen, q) && ServerPart(q, e).rest == Heard(e, next, true) + ServerPart(q, next).rest
  {
    hide ServerRest;
    ServerClosesWith(q);
  }

  lemma ServerReadRest(p: Params, e: Endpoint<ServerState>, c: Choice, q: Params)
    requires e.wait == Ready && ServerReads(e.state) && ServerAct(p, e, c).wait != Error && ServerSound(p, e)
    requires var next := ServerAct(p, e, c); ServerKnows(p, next.state, next.certSeen, q)
    ensures var next := ServerAct(p, e, c);
      ServerKnows(p, e.state, e.certSeen, q) && ServerPart(q, e).rest == Heard(e, next, true) + ServerPart(q, next).rest
  {
    hide ServerAct, ServerKnows, ServerPart, Heard, ServerSound;
    match e.state
    case ReadClientHello => ServerReadClientHello(p, e, c, q);
    case SelectCertificate => ServerSelectCertificate(p, e, c, q);
    case SelectParameters => ServerSelectParameters(p, e, c, q);
    case ReadClientCertificate => ServerReadClientCertificate(p, e, c, q);
    case ReadClientKeyExchange => ServerReadClientKeyExchange(p, e, c, q);
    case ReadClientCertificateVerify => ServerReadClientCertificateVerify(p, e, c, q);
    case ReadNextProto => ServerReadNextProto(p, e, c, q);
    case ReadChannelId => ServerReadChannelId(p, e, c, q);
    case ReadClientFinished => ServerReadClientFinished(p, e, c, q);
  }

  /** What a step that looks at a message does to the rest of the machine. */
  /** What a step that looks at a message makes of it. */
  predicate ServerReadOk(p: Params, e: Endpoint<ServerState>, next: Endpoint<ServerState>) {
    next.wait != Error ==>
      && next.flight == e.flight && ServerSound(p, next)
      && (if Heard(e, next, true) == [] then next == e.(state := next.state, wait := next.wait)
          else
            && next.transcript == e.transcript + [e.inbox.value] && EntryOk(p, e.transcript, Said(true, e.inbox.value))
            && (next.certSeen <==> e.certSeen || IsChain(Said(true, e.inbox.value))))
  }

  lemma ServerReadFirst(p: Params, e: Endpoint<ServerState>, c: Choice)
    requires e.wait == Ready && ServerReads(e.state) && ServerSound(p, e) && ServerRank(p, e.state) >= 10
    ensures ServerReadOk(p, e, ServerAct(p, e, c))
  {
  }

  lemma ServerReadSecond(p: Params, e: Endpoint<ServerState>, c: Choice)
    requires e.wait == Ready && ServerReads(e.state) && ServerSound(p, e) && ServerRank(p, e.state) < 10
    ensures ServerReadOk(p, e, ServerAct(p, e, c))
  {
  }

  lemma ServerReadFacts(p: Params, e: Endpoint<ServerState>, c: Choice)
    requires e.wait == Ready && ServerReads(e.state) && ServerSound(p, e)
    ensures ServerReadOk(p, e, ServerAct(p, e, c))
  {
    hide ServerAct, ServerReadOk, ServerSound, ServerRank, ServerReads;
    if ServerRank(p, e.state) >= 10 {
      ServerReadFirst(p, e, c);
    } else {
      ServerReadSecond(p, e, c);
    }
  }

  lemma ServerReadFollows(p: Params, e: Endpoint<ServerState>, c: Choice, log: seq<Entry>)
    requires e.wait == Ready && ServerFollows(p, e, log) && ServerReads(e.state) && ServerAct(p, e, c).wait != Error
    ensures var next := ServerAct(p, e, c); ServerFollows(p, next, log + Added(false, e, next))
  {
    hide ServerAct, ServerKnows, ServerPart, Conversation, LogOk, EntryOk, Spoken, HasChain, IsChain;
    var next := ServerAct(p, e, c);
    ServerReadFacts(p, e, c);
    forall q | ServerKnows(p, next.state, next.certSeen, q)
      ensures ServerKnows(p, e.state, e.certSeen, q) && ServerPart(q, e).rest == Heard(e, next, true) + ServerPart(q, next).rest
    {
      ServerReadRest(p, e, c, q);
    }
    if Heard(e, next, true) == [] {
      assert log + [] == log;
      ServerSame(p, e, next, log);
    } else {
      ServerTakesFollows(p, e, next, log, Said(true, e.inbox.value));
    }
  }

  lemma ServerPassRest(p: Params, e: Endpoint<ServerState>, c: Choice, q: Params)
    requires e.wait == Ready && ServerPassesOver(e.state) && ServerSound(p, e)
    requires var next := ServerAct(p, e, c); ServerKnows(p, next.state, next.certSeen, q)
    ensures var next := ServerAct(p, e, c);
      && ServerKnows(p, e.state, e.certSeen, q) && ServerPart(q, e).rest == [] + ServerPart(q, next).rest
      && next == e.(state := next.state, wait := next.wait) && ServerSound(p, next)
  {
    hide ServerRest;
    ServerReadsWith(q);
    ServerClosesWith(q);
  }

  lemma ServerPassFollows(p: Params, e: Endpoint<ServerState>, c: Choice, log: seq<Entry>)
    requires e.wait == Ready && ServerFollows(p, e, log) && ServerPassesOver(e.state)
    ensures var next := ServerAct(p, e, c); ServerFollows(p, next, log + Added(false, e, next))
  {
    hide ServerKnows, ServerPart, Conversation, LogOk, Spoken, HasChain;
    var next := ServerAct(p, e, c);
    assert log + [] == log;
    forall q | ServerKnows(p, next.state, next.certSeen, q)
      ensures ServerKnows(p, e.state, e.certSeen, q) && ServerPart(q, e).rest == [] + ServerPart(q, next).rest
    {
      ServerPassRest(p, e, c, q);
    }
    ServerSame(p, e, next, log);
  }

  // ---- what the server writes ----

  predicate ServerWrites(s: ServerState) {
    s == SendServerHello || s == SendServerCertificate || s == SendServerKeyExchange || s == SendServerHelloDone
  }

  /** The at most two messages of a state that writes, each with its condition. */
  function ServerFirst(p: Params, s: ServerState, c: Choice): (bool, Message) {
    match s
    case SendServerHello => (true, Message(ServerHello, c.body))
    case SendServerCertificate => (p.certCipher, Message(Certificate, c.body))
    case SendServerKeyExchange => (p.keyExchangeSent, Message(ServerKeyExchange, c.body))
    case _ => (p.certRequest, Message(CertificateRequest, c.body))
  }

  function ServerSecond(p: Params, s: ServerState, c: Choice): (bool, Message) {
    match s
    case SendServerCertificate => (p.statusSent, Message(CertificateStatus, c.extra))
    case SendServerHelloDone => (true, Message(ServerHelloDone, []))
    case _ => (false, Message(ServerHelloDone, []))
  }

  function ServerAfter(p: Params, s: ServerState): ServerState {
    match s
    case SendServerHello => if p.resumed then SendServerFinished else SendServerCertificate
    case SendServerCertificate => SendServerKeyExchange
    case SendServerKeyExchange => SendServerHelloDone
    case _ => ReadClientCertificate
  }

  function SaidEach(first: (bool, Message), second: (bool, Message)): seq<Entry> {
    SaidIf(first.0, false, first.1) + SaidIf(second.0, false, second.1)
  }

  /** The entries of a state that writes, once it does not have to be called again. */
  function ServerEntries(p: Params, s: ServerState, c: Choice): seq<Entry> {
    SaidEach(ServerFirst(p, s, c), ServerSecond(p, s, c))
  }

  function IfSaid(m: (bool, Message)): seq<Message> {
    if m.0 then [m.1] else []
  }

  lemma ServerWriteIs(p: Params, e: Endpoint<ServerState>, c: Choice)
    requires e.wait == Ready && ServerWrites(e.state) && (p.statusSent ==> p.certCipher)
    ensures var next := ServerAct(p, e, c);
      var m, n := ServerFirst(p, e.state, c), ServerSecond(p, e.state, c);
      if next.wait == Pending then next == e.(wait := Pending)
      else
        && (next.wait == Ready || next.wait == Flush)
        && next == e.SendIf(m.0, m.1.kind, m.1.body).SendIf(n.0, n.1.kind, n.1.body)
                    .(state := ServerAfter(p, e.state), wait := next.wait)
  {
  }

  lemma SentBoth(e: Endpoint<ServerState>, m: (bool, Message), n: (bool, Message))
    ensures var next := e.SendIf(m.0, m.1.kind, m.1.body).SendIf(n.0, n.1.kind, n.1.body);
      && next.transcript == e.transcript + IfSaid(m) + IfSaid(n) && |next.flight| >= |e.flight|
      && Own(false, next.flight[|e.flight|..]) == SaidEach(m, n)
  {
    var next := e.SendIf(m.0, m.1.kind, m.1.body).SendIf(n.0, n.1.kind, n.1.body);
    var items := (if m.0 then [Hs(m.1)] else []) + (if n.0 then [Hs(n.1)] else []);
    assert next.flight == e.flight + items;
    assert next.flight[|e.flight|..] == items;
  }

  lemma ServerWriteFacts(p: Params, e: Endpoint<ServerState>, c: Choice)
    requires e.wait == Ready && ServerWrites(e.state) && (p.statusSent ==> p.certCipher) && ServerSound(p, e)
    requires ServerAct(p, e, c).wait != Pending
    ensures var next := ServerAct(p, e, c);
      && (next.wait == Ready || next.wait == Flush) && ServerSound(p, next) && next.certSeen == e.certSeen
      && Added(false, e, next) == ServerEntries(p, e.state, c) && next.state == ServerAfter(p, e.state)
      && next.transcript == e.transcript + IfSaid(ServerFirst(p, e.state, c)) + IfSaid(ServerSecond(p, e.state, c))
  {
    hide ServerAct, ServerFirst, ServerSecond, Own, SaidEach;
    ServerWriteIs(p, e, c);
    var m, n := ServerFirst(p, e.state, c), ServerSecond(p, e.state, c);
    SentBoth(e, m, n);
    if !m.0 && !n.0 {
      assert SaidEach(m, n) == [] by { NothingSaid(m, n); }
    }
  }

  lemma NothingSaid(m: (bool, Message), n: (bool, Message))
    ensures !m.0 && !n.0 ==> SaidEach(m, n) == []
  {
  }

  lemma {:induction false} ServerEntriesOk(p: Params, s: ServerState, c: Choice, log: seq<Entry>)
    requires LogOk(p, log) && ServerWrites(s)
    ensures var xs := ServerEntries(p, s, c);
      && LogOk(p, log + xs) && (forall x | x in xs :: !IsChain(x))
      && Spoken(log + xs) == Spoken(log) + IfSaid(ServerFirst(p, s, c)) + IfSaid(ServerSecond(p, s, c))
  {
    hide LogOk, Spoken;
    var m, n := ServerFirst(p, s, c), ServerSecond(p, s, c);
    MoreIf(p, log, m.0, false, m.1);
    MoreIf(p, log + SaidIf(m.0, false, m.1), n.0, false, n.1);
    assert log + SaidEach(m, n) == log + SaidIf(m.0, false, m.1) + SaidIf(n.0, false, n.1);
  }

  lemma KindsOfBoth(m: (bool, Message), n: (bool, Message))
    ensures Kinds(SaidEach(m, n)) == If(m.0, Says(false, m.1.kind)) + If(n.0, Says(false, n.1.kind))
  {
    KindsConcat(SaidIf(m.0, false, m.1), SaidIf(n.0, false, n.1));
  }

  /** It writes exactly what comes next in the conversation. */
  lemma ServerWriteRest(p: Params, e: Endpoint<ServerState>, next: Endpoint<ServerState>, c: Choice, q: Params)
    requires e.wait == Ready && ServerWrites(e.state) && ServerKnows(p, next.state, next.certSeen, q) && next.wait != ReadCcs
    requires next.state == ServerAfter(p, e.state)
    ensures ServerKnows(p, e.state, e.certSeen, q)
    ensures ServerPart(q, e).rest == Kinds(ServerEntries(p, e.state, c)) + ServerPart(q, next).rest
  {
    hide ServerRest, Kinds, SaidEach;
    ServerWritesWith(q);
    KindsOfBoth(ServerFirst(p, e.state, c), ServerSecond(p, e.state, c));
  }

  lemma ServerWriteFollows(p: Params, e: Endpoint<ServerState>, c: Choice, log: seq<Entry>)
    requires e.wait == Ready && ServerFollows(p, e, log) && ServerWrites(e.state) && (p.statusSent ==> p.certCipher)
    ensures var next := ServerAct(p, e, c); ServerFollows(p, next, log + Added(false, e, next))
  {
    hide ServerAct, ServerKnows, ServerPart, ServerEntries, Conversation, LogOk, Spoken, HasChain, IsChain;
    var next, xs := ServerAct(p, e, c), ServerEntries(p, e.state, c);
    if next.wait == Pending {
      ServerWriteIs(p, e, c);
      StillPending(p, e, log);
    } else {
      ServerWriteFacts(p, e, c);
      ServerEntriesOk(p, e.state, c, log);
      ChainOwn(log, xs);
      forall q | ServerKnows(p, next.state, next.certSeen, q)
        ensures ServerKnows(p, e.state, e.certSeen, q) && ServerPart(q, e).rest == Kinds(xs) + ServerPart(q, next).rest
      {
        NotCcs(p, e, c);
        ServerWriteRest(p, e, next, c, q);
      }
      ServerFollowsBy(p, e, next, log, xs);
    }
  }

  lemma NotCcs(p: Params, e: Endpoint<ServerState>, c: Choice)
    requires e.wait == Ready && ServerWrites(e.state)
    ensures ServerAct(p, e, c).wait != ReadCcs
  {
  }

  lemma StillPending(p: Params, e: Endpoint<ServerState>, log: seq<Entry>)
    requires e.wait == Ready && ServerFollows(p, e, log)
    ensures ServerFollows(p, e.(wait := Pending), log + Added(false, e, e.(wait := Pending)))
  {
    hide ServerKnows, ServerRest, Conversation, LogOk, Spoken, HasChain;
    assert log + [] == log;
    assert forall q :: ServerPart(q, e.(wait := Pending)).rest == ServerPart(q, e).rest;
  }

  // ---- the server's Finished ----

  function ServerLast(p: Params, transcript: seq<Message>, c: Choice): seq<Entry> {
    var ticket := Message(NewSessionTicket, c.body);
    SaidIf(p.ticket, false, ticket) + [Changed(false)]
    + [Said(false, Message(Finished, p.mac(transcript + (if p.ticket then [ticket] else []), false)))]
  }

  lemma ServerFinishFacts(p: Params, e: Endpoint<ServerState>, c: Choice)
    requires e.wait == Ready && e.state == SendServerFinished && ServerSound(p, e)
    ensures var next := ServerAct(p, e, c);
      && next.state == (if p.resumed then ReadChangeCipherSpec else FinishServerHandshake) && next.wait == Flush
      && next.inbox == e.inbox && next.certSeen == e.certSeen && ServerSound(p, next)
      && Added(false, e, next) == ServerLast(p, e.transcript, c)
      && next.transcript == e.transcript + (if p.ticket then [Message(NewSessionTicket, c.body)] else [])
           + [Message(Finished, p.mac(e.transcript + (if p.ticket then [Message(NewSessionTicket, c.body)] else []), false))]
  {
    var next := ServerAct(p, e, c);
    var ticket := Message(NewSessionTicket, c.body);
    var before := e.transcript + (if p.ticket then [ticket] else []);
    var items := (if p.ticket then [Hs(ticket)] else []) + [Ccs] + [Hs(Message(Finished, p.mac(before, false)))];
    assert before == e.SendIf(p.ticket, NewSessionTicket, c.body).transcript;
    assert next.flight == e.flight + items;
    assert next.flight[|e.flight|..] == items;
    assert Own(false, items) == ServerLast(p, e.transcript, c);
  }

  lemma {:induction false} ServerLastOk(p: Params, log: seq<Entry>, c: Choice)
    requires LogOk(p, log)
    ensures var last := ServerLast(p, Spoken(log), c);
      && LogOk(p, log + last) && Kinds(last) == ServerCloses(p) && (forall x | x in last :: !IsChain(x))
      && var before := Spoken(log) + (if p.ticket then [Message(NewSessionTicket, c.body)] else []);
         Spoken(log + last) == before + [Message(Finished, p.mac(before, false))]
  {
    hide LogOk, Spoken, If;
    var ticket := Message(NewSessionTicket, c.body);
    var a := log + SaidIf(p.ticket, false, ticket);
    MoreIf(p, log, p.ticket, false, ticket);
    var b := a + [Changed(false)];
    OneMore(p, a, Changed(false));
    assert Spoken(a) + [] == Spoken(a);
    var fin := Said(false, Message(Finished, p.mac(Spoken(b), false)));
    OneMore(p, b, fin);
    assert log + ServerLast(p, Spoken(log), c) == b + [fin];
    KindsConcat(SaidIf(p.ticket, false, ticket) + [Changed(false)], [fin]);
    KindsConcat(SaidIf(p.ticket, false, ticket), [Changed(false)]);
    assert Kinds([Changed(false)]) == [Changes(false)] && Kinds([fin]) == [Says(false, Finished)];
    var first := If(p.ticket, Says(false, NewSessionTicket));
    assert first + [Changes(false)] + [Says(false, Finished)] == first + [Changes(false), Says(false, Finished)];
  }

  lemma ServerFinishRest(p: Params, e: Endpoint<ServerState>, next: Endpoint<ServerState>, q: Params)
    requires e.wait == Ready && e.state == SendServerFinished && next.wait == Flush && next.certSeen == e.certSeen
    requires next.state == if p.resumed then ReadChangeCipherSpec else FinishServerHandshake
    requires ServerKnows(p, next.state, next.certSeen, q)
    ensures ServerKnows(p, e.state, e.certSeen, q) && ServerPart(q, e).rest == ServerCloses(p) + ServerPart(q, next).rest
  {
    hide ServerRest;
    ServerFinishesWith(q);
  }

  lemma ServerFinishFollows(p: Params, e: Endpoint<ServerState>, c: Choice, log: seq<Entry>)
    requires e.wait == Ready && ServerFollows(p, e, log) && e.state == SendServerFinished
    ensures var next := ServerAct(p, e, c); ServerFollows(p, next, log + Added(false, e, next))
  {
    hide ServerAct, ServerKnows, ServerRest, Conversation, LogOk, Spoken, Added, ServerLast, ServerCloses, HasChain, IsChain;
    var next, last := ServerAct(p, e, c), ServerLast(p, e.transcript, c);
    ServerFinishFacts(p, e, c);
    ServerLastOk(p, log, c);
    ChainOwn(log, last);
    forall q | ServerKnows(p, next.state, next.certSeen, q)
      ensures ServerKnows(p, e.state, e.certSeen, q) && ServerPart(q, e).rest == Kinds(last) + ServerPart(q, next).rest
    {
      ServerFinishRest(p, e, next, q);
    }
    ServerFollowsBy(p, e, next, log, last);
  }

  // ---- whole runs ----

  lemma ServerCcsFollows(p: Params, e: Endpoint<ServerState>, log: seq<Entry>)
    requires ServerFollows(p, e, log) && e.wait == ReadCcs
    ensures ServerFollows(p, e.(wait := Ready), log + [Changed(true)])
  {
    hide ServerRest, Conversation, LogOk, Spoken, HasChain;
    var next := e.(wait := Ready);
    OneMore(p, log, Changed(true));
    ChainOne(log, Changed(true));
    assert Kinds([Changed(true)]) == [Changes(true)];
    assert Spoken(log) + [] == Spoken(log);
    forall q | ServerKnows(p, next.state, next.certSeen, q)
      ensures ServerKnows(p, e.state, e.certSeen, q)
      ensures ServerPart(q, e).rest == Kinds([Changed(true)]) + ServerPart(q, next).rest
    {
      NoPrefix(ServerRest(q, e.state));
    }
    ServerFollowsBy(p, e, next, log, [Changed(true)]);
  }

  lemma ServerGetsFollows(p: Params, e: Endpoint<ServerState>, r: Resolution, incoming: seq<Item>, log: seq<Entry>)
    requires ServerFollows(p, e, log) && Resolve(e, r, incoming).wait != Error
    ensures var next := Resolve(e, r, incoming); ServerFollows(p, next, log + Added(false, e, next))
  {
    hide ServerRest, ServerKnows, Conversation, LogOk, Spoken, HasChain;
    var next := Resolve(e, r, incoming);
    assert log + [] == log;
    if e.wait == ReadCcs && next.wait == Ready {
      ServerCcsFollows(p, e, log);
    } else {
      assert Added(false, e, next) == [];
      assert forall q :: ServerPart(q, next).rest == ServerPart(q, e).rest;
    }
  }

  lemma ServerActFollows(p: Params, e: Endpoint<ServerState>, c: Choice, log: seq<Entry>)
    requires e.wait == Ready && ServerFollows(p, e, log) && ServerAct(p, e, c).wait != Error && (p.statusSent ==> p.certCipher)
    ensures var next := ServerAct(p, e, c); ServerFollows(p, next, log + Added(false, e, next))
  {
    hide ServerAct, ServerFollows, Added;
    if ServerReads(e.state) {
      ServerReadFollows(p, e, c, log);
    } else if ServerPassesOver(e.state) {
      ServerPassFollows(p, e, c, log);
    } else if ServerWrites(e.state) {
      ServerWriteFollows(p, e, c, log);
    } else {
      ServerFinishFollows(p, e, c, log);
    }
  }

  function ServerMove(p: Params, e: Endpoint<ServerState>, m: SoloMove): Endpoint<ServerState> {
    match m
    case Acts(c) => if e.wait == Ready then ServerAct(p, e, c) else e
    case Gets(r, incoming) => Resolve(e, r, incoming)
  }

  /** The server after some moves, and the log of all of them. */
  function ServerSolo(p: Params, e: Endpoint<ServerState>, log: seq<Entry>, moves: seq<SoloMove>): (Endpoint<ServerState>, seq<Entry>)
    decreases |moves|
  {
    if moves == [] then (e, log)
    else
      var next := ServerMove(p, e, moves[0]);
      ServerSolo(p, next, log + Added(false, e, next), moves[1..])
  }

  lemma {:induction false} ServerFailed(p: Params, e: Endpoint<ServerState>, log: seq<Entry>, moves: seq<SoloMove>)
    requires e.wait == Error
    ensures ServerSolo(p, e, log, moves).0.wait == Error
    decreases |moves|
  {
    if moves != [] {
      ServerFailed(p, e, log + Added(false, e, e), moves[1..]);
    }
  }

  /**
   * Over any moves, with any peer: unless it has failed, the server has said and heard, in order, what makes up
   * the conversation together with what is still before it, and each Finished in its transcript is over the
   * messages before it.
   */
  lemma {:induction false} ServerStaysInOrder(p: Params, e: Endpoint<ServerState>, log: seq<Entry>, moves: seq<SoloMove>)
    requires ServerFollows(p, e, log) && (p.statusSent ==> p.certCipher)
    ensures var (last, all) := ServerSolo(p, e, log, moves); last.wait == Error || ServerFollows(p, last, all)
    decreases |moves|
  {
    hide ServerAct, Resolve, ServerFollows, Added;
    if moves != [] {
      var next := ServerMove(p, e, moves[0]);
      var more := log + Added(false, e, next);
      if next.wait == Error {
        ServerFailed(p, next, more, moves[1..]);
      } else {
        match moves[0] {
          case Acts(c) =>
            if e.wait == Ready {
              ServerActFollows(p, e, c, log);
            } else {
              NothingAdded(e, log);
            }
          case Gets(r, incoming) => ServerGetsFollows(p, e, r, incoming, log);
        }
        ServerStaysInOrder(p, next, more, moves[1..]);
      }
    }
  }

  /** It has failed, or has gone on in order. */
  ghost predicate ServerStays(p: Params, e: Endpoint<ServerState>, log: seq<Entry>) {
    e.wait == Error || exists more :: ServerFollows(p, e, log + more)
  }

  lemma {:induction false} ServerStepStays(p: Params, s: System, m: Move, log: seq<Entry>)
    requires ServerFollows(p, s.server, log) && (p.statusSent ==> p.certCipher)
    ensures var e := Step(p, s, m).server; e.wait == Error || ServerFollows(p, e, log + Added(false, s.server, e))
  {
    hide ClientAct, ServerAct, Resolve, ServerFollows, Added;
    NothingAdded(s.server, log);
    if Step(p, s, m).server.wait != Error {
      match m {
        case ServerRuns(c) =>
          if s.server.wait == Ready {
            ServerActFollows(p, s.server, c, log);
          }
        case ServerResolves(r) => ServerGetsFollows(p, s.server, r, s.toServer, log);
        case ClientRuns(c) =>
        case ClientResolves(r) =>
      }
    }
  }

  lemma {:induction false} ServerErrorStays(p: Params, s: System, moves: seq<Move>)
    requires s.server.wait == Error
    ensures After(p, s, moves).server.wait == Error
    decreases |moves|
  {
    hide ClientAct, ServerAct;
    if moves != [] {
      ServerErrorStays(p, Step(p, s, moves[0]), moves[1..]);
    }
  }

  /** The same in a run of the two machines, from any state of the other and of what is on the way. */
  lemma {:induction false} ServerStaysInRun(p: Params, s: System, moves: seq<Move>, log: seq<Entry>)
    requires ServerFollows(p, s.server, log) && (p.statusSent ==> p.certCipher)
    ensures ServerStays(p, After(p, s, moves).server, log)
    decreases |moves|
  {
    hide Step, ServerFollows, Added;
    if moves == [] {
      assert log + [] == log;
    } else {
      var next := Step(p, s, moves[0]);
      if next.server.wait == Error {
        ServerErrorStays(p, next, moves[1..]);
      } else {
        ServerStepStays(p, s, moves[0], log);
        var first := Added(false, s.server, next.server);
        ServerStaysInRun(p, next, moves[1..], log + first);
        var last := After(p, next, moves[1..]).server;
        if last.wait != Error {
          var more :| ServerFollows(p, last, log + first + more);
          assert log + first + more == log + (first + more);
        }
      }
    }
  }

  lemma ServerStartFollows(p: Params)
    ensures ServerFollows(p, Endpoint(ReadClientHello, Ready, [], [], None, false), [])
  {
    hide ServerRest, Conversation;
    forall q ensures Kinds([]) + ServerPart(q, Endpoint(ReadClientHello, Ready, [], [], None, false)).rest == Conversation(q) {
      ConversationIs(q);
      NoPrefix(ServerRest(q, ReadClientHello));
    }
  }

  /**
   * The whole conversation, with a CertificateVerify exactly if the client sent a certificate, and the client's
   * Finished over all before it.
   */
  ghost predicate ServerVerified(p: Params, e: Endpoint<ServerState>, log: seq<Entry>) {
    && Kinds(log) == Conversation(p.(clientCert := HasChain(log))) && e.transcript == Spoken(log) && LogOk(p, log)
    && exists i | 0 <= i < |log| :: FinishedHere(p, log, i, true)
  }

  lemma ServerEnds(p: Params, e: Endpoint<ServerState>, log: seq<Entry>)
    requires ServerFollows(p, e, log) && e.state == ServerDone
    ensures ServerVerified(p, e, log)
  {
    hide LogOk, Spoken, Conversation, ServerRest, HasChain;
    var q := p.(clientCert := HasChain(log));
    assert ServerKnows(p, e.state, e.certSeen, q);
    NothingBeforeDone(q);
    assert Kinds(log) + [] == Kinds(log);
    ConversationFinishes(q);
    var i :| 0 <= i < |Kinds(log)| && Kinds(log)[i] == Says(true, Finished);
    FinishedIsOk(p, log, i, true);
  }

  /** A server that is done has gone through all of it, with a Finished that it has checked. */
  lemma ServerDoneVerified(p: Params, moves: seq<SoloMove>)
    requires p.statusSent ==> p.certCipher
    requires ServerSolo(p, Endpoint(ReadClientHello, Ready, [], [], None, false), [], moves).0.state == ServerDone
    requires ServerSolo(p, Endpoint(ReadClientHello, Ready, [], [], None, false), [], moves).0.wait != Error
    ensures var (e, log) := ServerSolo(p, Endpoint(ReadClientHello, Ready, [], [], None, false), [], moves); ServerVerified(p, e, log)
  {
    hide ServerSolo, LogOk, Spoken, Conversation, ServerRest, HasChain, ServerVerified;
    var start: Endpoint<ServerState> := Endpoint(ReadClientHello, Ready, [], [], None, false);
    ServerStartFollows(p);
    ServerStaysInOrder(p, start, [], moves);
    var (e, log) := ServerSolo(p, start, [], moves);
    ServerEnds(p, e, log);
  }

  // ---- what the application is asked ----

  predicate ServerAsksBack(p: Params, e: Endpoint<ServerState>) {
    || ((e.state == SelectCertificate || e.state == SelectParameters) && e.inbox.Some?)
    || (e.state == ReadClientHello && e.inbox.Some? && e.inbox.value.kind == ClientHello)
    || (e.state == SendServerKeyExchange && p.keyExchangeSent && p.certCipher)
    || (e.state == VerifyClientCertificate && e.certSeen)
    || (e.state == ReadClientKeyExchange && e.inbox.Some? && e.inbox.value.kind == ClientKeyExchange)
  }

  /** The server waits for the application exactly there, as long as there is no answer, and nothing changes meanwhile. */
  lemma ServerPendsIff(p: Params, e: Endpoint<ServerState>, c: Choice)
    requires e.wait == Ready
    ensures ServerAct(p, e, c).wait == Pending <==> c.retry && ServerAsksBack(p, e)
    ensures ServerAct(p, e, c).wait == Pending ==> ServerAct(p, e, c) == e.(wait := Pending)
  {
  }

  /** In one of these moves the server was in this state and the application answered. */
  ghost predicate ServerAnswered(p: Params, e: Endpoint<ServerState>, moves: seq<SoloMove>, s: ServerState)
    decreases |moves|
  {
    moves != []
    && ((e.state == s && e.wait == Ready && moves[0].Acts? && !moves[0].c.retry)
        || ServerAnswered(p, ServerMove(p, e, moves[0]), moves[1..], s))
  }

  lemma ServerPassesCertificate(p: Params, e: Endpoint<ServerState>, m: SoloMove)
    requires !p.resumed && ServerRank(p, e.state) >= 10
    ensures var next := ServerMove(p, e, m);
      && (ServerRank(p, next.state) < 10 && next.certSeen ==>
            e.state == VerifyClientCertificate && e.wait == Ready && m.Acts? && !m.c.retry)
  {
  }

  lemma ServerKeepsCertificate(p: Params, e: Endpoint<ServerState>, m: SoloMove)
    requires !p.resumed && ServerRank(p, e.state) < 10
    ensures var next := ServerMove(p, e, m); ServerRank(p, next.state) < 10 && next.certSeen == e.certSeen
  {
    hide ServerAct, ServerRank;
    if m.Acts? && e.wait == Ready && e.state != ServerDone {
      ServerProgresses(p, e, m.c);
      ServerCertificateSettled(p, e, m.c);
    } else {
      DoneStays(p, e);
    }
  }

  lemma DoneStays(p: Params, e: Endpoint<ServerState>)
    ensures e.state == ServerDone ==> forall c :: ServerAct(p, e, c) == e
  {
  }

  lemma ServerCertificateSettled(p: Params, e: Endpoint<ServerState>, c: Choice)
    requires ServerRank(p, e.state) < 10
    ensures ServerAct(p, e, c).certSeen == e.certSeen
  {
  }

  lemma {:induction false} CertificateStays(p: Params, e: Endpoint<ServerState>, log: seq<Entry>, moves: seq<SoloMove>)
    requires !p.resumed && ServerRank(p, e.state) < 10
    ensures ServerSolo(p, e, log, moves).0.certSeen == e.certSeen
    decreases |moves|
  {
    hide ServerMove, ServerRank, Added;
    if moves != [] {
      var next := ServerMove(p, e, moves[0]);
      ServerKeepsCertificate(p, e, moves[0]);
      CertificateStays(p, next, log + Added(false, e, next), moves[1..]);
    }
  }

  /** Against any peer: a client certificate that was received has been accepted by the application before the server goes on. */
  lemma {:induction false} ClientCertificateWasVerified(p: Params, e: Endpoint<ServerState>, log: seq<Entry>, moves: seq<SoloMove>)
    requires !p.resumed && ServerRank(p, e.state) >= 10
    requires var last := ServerSolo(p, e, log, moves).0; ServerRank(p, last.state) < 10 && last.certSeen
    ensures ServerAnswered(p, e, moves, VerifyClientCertificate)
    decreases |moves|
  {
    hide ServerMove, ServerRank, Added;
    if moves != [] {
      var next := ServerMove(p, e, moves[0]);
      ServerPassesCertificate(p, e, moves[0]);
      if ServerRank(p, next.state) < 10 {
        CertificateStays(p, next, log + Added(false, e, next), moves[1..]);
      } else {
        ClientCertificateWasVerified(p, next, log + Added(false, e, next), moves[1..]);
      }
    }
  }
}
