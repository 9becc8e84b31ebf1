/**
 * One side of the handshake against a peer that may send anything: as long as it has not failed, it has followed
 * the order of the protocol, and every Finished that it took was computed over the transcript before it.
 */
module TlsOneSided {
  import opened Bytes
  import opened TlsMachines
  import opened TlsComposition
  import opened TlsRuns

  // ---- the order of the protocol ----

  /** The messages of a handshake, for what was negotiated and for the choices that the peer has made. */
  function Conversation(p: Params): seq<Event> {
    [Says(true, ClientHello), Says(false, ServerHello)]
    + if p.resumed then ServerCloses(p) + ClientCloses(p)
      else ServerOpens(p) + ClientAnswers(p) + ClientCloses(p) + ServerCloses(p)
  }

  function ServerOpens(p: Params): seq<Event> {
    If(p.certCipher, Says(false, Certificate)) + If(p.statusSent, Says(false, CertificateStatus))
    + If(p.keyExchangeSent, Says(false, ServerKeyExchange)) + If(p.certRequest, Says(false, CertificateRequest))
    + [Says(false, ServerHelloDone)]
  }

  function ClientAnswers(p: Params): seq<Event> {
    If(p.certRequest, Says(true, Certificate)) + [Says(true, ClientKeyExchange)] + If(p.clientCert, Says(true, CertificateVerify))
  }

  function ClientCloses(p: Params): seq<Event> {
    [Changes(true)] + If(p.nextProto, Says(true, NextProto)) + If(p.channelId, Says(true, ChannelId)) + [Says(true, Finished)]
  }

  function ServerCloses(p: Params): seq<Event> {
    If(p.ticket, Says(false, NewSessionTicket)) + [Changes(false), Says(false, Finished)]
  }

  lemma ClientEndsWith(p: Params)
    ensures ClientRest(p, FinishClientHandshake) == []
    ensures ClientRest(p, ReadServerFinished)
         == [Says(false, Finished)] + ClientRest(p, if p.resumed then SendClientFinished else FinishClientHandshake)
    ensures ClientRest(p, FinishFlight) == if p.resumed then [] else ClientRest(p, ReadSessionTicket)
  {
    hide If;
  }

  lemma ClientClosing(p: Params)
    ensures ClientRest(p, SendClientFinished) == ClientCloses(p) + ClientRest(p, FinishFlight)
    ensures ClientRest(p, ReadSessionTicket)
         == ServerCloses(p) + (if p.resumed then ClientRest(p, SendClientFinished) else [])
  {
    hide If;
    ClientEndsWith(p);
    var ticket, last := If(p.ticket, Says(false, NewSessionTicket)), if p.resumed then ClientRest(p, SendClientFinished) else [];
    assert ClientRest(p, ClientProcessCcs) == ClientRest(p, ReadServerFinished) == [Says(false, Finished)] + last;
    assert ticket + [Changes(false)] + ([Says(false, Finished)] + last) == ticket + [Changes(false), Says(false, Finished)] + last;
  }

  lemma ClientAnswering(p: Params)
    requires !p.resumed
    ensures ClientRest(p, SendClientCertificate) == ClientAnswers(p) + ClientRest(p, SendClientFinished)
  {
    hide If;
    var mine, proof := If(p.certRequest, Says(true, Certificate)), If(p.clientCert, Says(true, CertificateVerify));
    var end := ClientRest(p, SendClientFinished);
    assert ClientRest(p, SendClientCertificateVerify) == proof + end;
    assert ClientRest(p, SendClientKeyExchange) == [Says(true, ClientKeyExchange)] + (proof + end);
    assert mine + ([Says(true, ClientKeyExchange)] + (proof + end)) == ClientAnswers(p) + end;
  }

  lemma FiveJoin(a: seq<Event>, b: seq<Event>, c: seq<Event>, d: seq<Event>, e: seq<Event>, f: seq<Event>)
    ensures a + (b + (c + (d + (e + f)))) == a + b + c + d + e + f
  {
  }

  lemma ClientOpening(p: Params)
    requires !p.resumed
    ensures ClientRest(p, ReadServerCertificate) == ServerOpens(p) + ClientRest(p, SendClientCertificate)
  {
    hide If;
    var cert, status := If(p.certCipher, Says(false, Certificate)), If(p.statusSent, Says(false, CertificateStatus));
    var key, request := If(p.keyExchangeSent, Says(false, ServerKeyExchange)), If(p.certRequest, Says(false, CertificateRequest));
    var answer := ClientRest(p, SendClientCertificate);
    assert ClientRest(p, ReadServerHelloDone) == [Says(false, ServerHelloDone)] + answer;
    assert ClientRest(p, ReadCertificateRequest) == request + ClientRest(p, ReadServerHelloDone);
    assert ClientRest(p, ReadServerKeyExchange) == key + ClientRest(p, ReadCertificateRequest);
    assert ClientRest(p, VerifyServerCertificate) == ClientRest(p, ReadServerKeyExchange);
    assert ClientRest(p, ReadCertificateStatus) == status + ClientRest(p, VerifyServerCertificate);
    assert ClientRest(p, ReadServerCertificate) == cert + ClientRest(p, ReadCertificateStatus);
    FiveJoin(cert, status, key, request, [Says(false, ServerHelloDone)], answer);
  }

  /** What either machine has before it at the start is this conversation. */
  lemma ConversationIs(p: Params)
    ensures ClientRest(p, StartConnect) == ServerRest(p, ReadClientHello) == Conversation(p)
  {
    hide ServerOpens, ClientAnswers, ClientCloses, ServerCloses, ServerRest, ClientRest;
    SameConversation(p);
    ClientOpensWith(p);
    ClientWritesWith(p);
    ClientEndsWith(p);
    ClientClosing(p);
    if !p.resumed {
      ClientAnswering(p);
      ClientOpening(p);
    }
  }

  // ---- what a side has said and heard ----

  datatype Entry = Said(fromClient: bool, msg: Message) | Changed(fromClient: bool)
  {
    function Outline(): Event {
      if Said? then Says(fromClient, msg.kind) else Changes(fromClient)
    }
  }

  function Kinds(log: seq<Entry>): (r: seq<Event>)
    ensures |r| == |log|
  {
    seq(|log|, i requires 0 <= i < |log| => log[i].Outline())
  }

  function Spoken(log: seq<Entry>): seq<Message> {
    if log == [] then []
    else Spoken(log[..|log| - 1]) + (if log[|log| - 1].Said? then [log[|log| - 1].msg] else [])
  }

  function Own(me: bool, items: seq<Item>): (r: seq<Entry>)
    ensures |r| == |items|
  {
    seq(|items|, i requires 0 <= i < |items| => if items[i].Hs? then Said(me, items[i].msg) else Changed(me))
  }

  /** What a step adds to the log: the message or change of cipher taken, or what was written. */
  function Added<S(==)>(me: bool, e: Endpoint<S>, next: Endpoint<S>): seq<Entry> {
    if e.wait == ReadCcs && next.wait == Ready then [Changed(!me)]
    else if e.inbox.Some? && next.inbox.None? then [Said(!me, e.inbox.value)]
    else if |next.flight| > |e.flight| then Own(me, next.flight[|e.flight|..])
    else []
  }

  /** A Finished is the one over the messages before it, and a ServerHelloDone is empty. */
  predicate EntryOk(p: Params, before: seq<Message>, x: Entry) {
    x.Said? ==>
      && (x.msg.kind == Finished ==> x.msg.body == p.mac(before, x.fromClient))
      && (x.msg.kind == ServerHelloDone ==> x.msg.body == [])
  }

  predicate LogOk(p: Params, log: seq<Entry>) {
    forall i | 0 <= i < |log| :: EntryOk(p, Spoken(log[..i]), log[i])
  }

  lemma KindsConcat(a: seq<Entry>, b: seq<Entry>)
    ensures Kinds(a + b) == Kinds(a) + Kinds(b)
  {
  }

  lemma {:induction false} MessagesOne(log: seq<Entry>, x: Entry)
    ensures Spoken(log + [x]) == Spoken(log) + (if x.Said? then [x.msg] else [])
  {
    assert (log + [x])[..|log|] == log;
  }

  lemma {:induction false} OneMore(p: Params, log: seq<Entry>, x: Entry)
    requires LogOk(p, log) && EntryOk(p, Spoken(log), x)
    ensures LogOk(p, log + [x]) && Kinds(log + [x]) == Kinds(log) + [x.Outline()]
    ensures Spoken(log + [x]) == Spoken(log) + (if x.Said? then [x.msg] else [])
  {
    hide EntryOk;
    MessagesOne(log, x);
    var more := log + [x];
    forall i | 0 <= i < |more| ensures EntryOk(p, Spoken(more[..i]), more[i]) {
      if i < |log| {
        assert more[..i] == log[..i];
      } else {
        assert more[..i] == log;
      }
    }
  }

  // ---- the client ----

  /** Parameters that agree with what the client knows, and with the choices of the server that it has got to know. */
  predicate ClientKnows(p: Params, s: ClientState, kinds: seq<Event>, q: Params) {
    && q.resumed == p.resumed && q.certCipher == p.certCipher && q.ticket == p.ticket
    && q.nextProto == p.nextProto && q.channelId == p.channelId
    && q.clientCert == (p.clientCert && q.certRequest)
    && (ClientRank(p, s) <= 13 ==> (q.statusSent <==> Says(false, CertificateStatus) in kinds))
    && (ClientRank(p, s) <= 11 ==> (q.keyExchangeSent <==> Says(false, ServerKeyExchange) in kinds))
    && (ClientRank(p, s) <= 10 ==> (q.certRequest <==> Says(false, CertificateRequest) in kinds))
  }

  /** A choice of the server is in the log only if it may be, and not before the state that looks for it. */
  predicate ClientAhead(p: Params, s: ClientState, kinds: seq<Event>) {
    && (p.resumed ==> ClientRank(p, s) <= 6 || ClientRank(p, s) >= 16)
    && (ClientRank(p, s) >= 14 || p.resumed ==> Says(false, CertificateStatus) !in kinds)
    && (ClientRank(p, s) >= 12 || p.resumed ==> Says(false, ServerKeyExchange) !in kinds)
    && (ClientRank(p, s) >= 11 || p.resumed ==> Says(false, CertificateRequest) !in kinds)
    && (Says(false, CertificateStatus) in kinds ==> p.statusExpected)
    && (Says(false, CertificateRequest) in kinds ==> p.certCipher)
    && (p.keyExchangeNeeded && !p.resumed && ClientRank(p, s) <= 11 ==> Says(false, ServerKeyExchange) in kinds)
  }

  /** A client that has not failed: what it has said and heard, and what it still has to, make up the conversation. */
  ghost predicate ClientFollows(p: Params, e: Endpoint<ClientState>, log: seq<Entry>) {
    && e.transcript == Spoken(log) && LogOk(p, log)
    && (e.certSeen <==> Says(false, CertificateRequest) in Kinds(log)) && ClientAhead(p, e.state, Kinds(log))
    && (e.wait == ReadCcs ==> e.state == ClientProcessCcs)
    && (e.wait == ReadMessage ==> e.inbox.None?)
    && forall q | ClientKnows(p, e.state, Kinds(log), q) :: Kinds(log) + ClientPart(q, e).rest == Conversation(q)
  }

  /** One step of the client, and what it adds to the log. */
  lemma ClientFollowsBy(p: Params, e: Endpoint<ClientState>, next: Endpoint<ClientState>, log: seq<Entry>, xs: seq<Entry>)
    requires ClientFollows(p, e, log)
    requires next.transcript == Spoken(log + xs) && LogOk(p, log + xs)
    requires next.certSeen <==> Says(false, CertificateRequest) in Kinds(log + xs)
    requires ClientAhead(p, next.state, Kinds(log + xs))
    requires (next.wait == ReadCcs ==> next.state == ClientProcessCcs) && (next.wait == ReadMessage ==> next.inbox.None?)
    requires forall q | ClientKnows(p, next.state, Kinds(log + xs), q) ::
      ClientKnows(p, e.state, Kinds(log), q) && ClientPart(q, e).rest == Kinds(xs) + ClientPart(q, next).rest
    ensures ClientFollows(p, next, log + xs)
  {
    hide ClientKnows, ClientPart, Conversation, LogOk;
    KindsConcat(log, xs);
    forall q | ClientKnows(p, next.state, Kinds(log + xs), q)
      ensures Kinds(log + xs) + ClientPart(q, next).rest == Conversation(q)
    {
      assert Kinds(log) + (Kinds(xs) + ClientPart(q, next).rest) == Kinds(log) + Kinds(xs) + ClientPart(q, next).rest;
    }
  }

  lemma ClientGoesOnFollows(p: Params, e: Endpoint<ClientState>, next: Endpoint<ClientState>, log: seq<Entry>)
    requires ClientFollows(p, e, log) && next == e.(state := next.state, wait := next.wait) && ClientAhead(p, next.state, Kinds(log))
    requires (next.wait == ReadCcs ==> next.state == ClientProcessCcs) && (next.wait == ReadMessage ==> next.inbox.None?)
    requires forall q | ClientKnows(p, next.state, Kinds(log), q) ::
      ClientKnows(p, e.state, Kinds(log), q) && ClientPart(q, e).rest == ClientPart(q, next).rest
    ensures ClientFollows(p, next, log)
  {
    hide ClientKnows, ClientPart, Conversation, LogOk, Spoken;
    assert log + [] == log && Kinds([]) == [];
    forall q | ClientKnows(p, next.state, Kinds(log + []), q)
      ensures ClientKnows(p, e.state, Kinds(log), q) && ClientPart(q, e).rest == Kinds([]) + ClientPart(q, next).rest
    {
      assert [] + ClientPart(q, next).rest == ClientPart(q, next).rest;
    }
    ClientFollowsBy(p, e, next, log, []);
  }

  /** A message taken or written. */
  lemma ClientOneFollows(p: Params, e: Endpoint<ClientState>, next: Endpoint<ClientState>, log: seq<Entry>, x: Entry)
    requires ClientFollows(p, e, log) && x.Said? && next.transcript == e.transcript + [x.msg] && EntryOk(p, e.transcript, x)
    requires next.certSeen <==> e.certSeen || x.Outline() == Says(false, CertificateRequest)
    requires ClientAhead(p, next.state, Kinds(log) + [x.Outline()])
    requires (next.wait == ReadCcs ==> next.state == ClientProcessCcs) && (next.wait == ReadMessage ==> next.inbox.None?)
    requires forall q | ClientKnows(p, next.state, Kinds(log) + [x.Outline()], q) ::
      ClientKnows(p, e.state, Kinds(log), q) && ClientPart(q, e).rest == [x.Outline()] + ClientPart(q, next).rest
    ensures ClientFollows(p, next, log + [x])
  {
    hide ClientKnows, ClientPart, Conversation, LogOk, Spoken, EntryOk;
    OneMore(p, log, x);
    assert Kinds([x]) == [x.Outline()];
    ClientFollowsBy(p, e, next, log, [x]);
  }

  /** The states in which the client passes over without a message. */
  predicate ClientPassesOver(s: ClientState) {
    s == VerifyServerCertificate || s == FinishFlight || s == ClientProcessCcs || s == FinishClientHandshake || s == ClientDone
  }

  /** The states in which it looks at a message: it fails, waits, passes over, or takes it. */
  predicate ClientReads(s: ClientState) {
    || s == ReadServerHello || s == ReadServerCertificate || s == ReadCertificateStatus || s == ReadServerKeyExchange
    || s == ReadCertificateRequest || s == ReadServerHelloDone || s == ReadSessionTicket || s == ReadServerFinished
  }

  /** The event of a message taken. */
  function Heard<S(==)>(e: Endpoint<S>, next: Endpoint<S>, fromClient: bool): seq<Event> {
    if e.inbox.Some? && next.inbox.None? then [Says(fromClient, e.inbox.value.kind)] else []
  }

  /** What each state has before it, one step unfolded. */
  lemma ClientOpensWith(q: Params)
    ensures ClientRest(q, ReadServerHello)
         == [Says(false, ServerHello)] + ClientRest(q, if q.resumed then ReadSessionTicket else ReadServerCertificate)
    ensures ClientRest(q, ReadServerCertificate) == If(q.certCipher, Says(false, Certificate)) + ClientRest(q, ReadCertificateStatus)
    ensures ClientRest(q, ReadCertificateStatus)
         == If(q.statusSent, Says(false, CertificateStatus)) + ClientRest(q, VerifyServerCertificate)
    ensures ClientRest(q, VerifyServerCertificate) == ClientRest(q, ReadServerKeyExchange)
    ensures ClientRest(q, ReadServerKeyExchange)
         == If(q.keyExchangeSent, Says(false, ServerKeyExchange)) + ClientRest(q, ReadCertificateRequest)
    ensures ClientRest(q, ReadCertificateRequest)
         == If(q.certRequest, Says(false, CertificateRequest)) + ClientRest(q, ReadServerHelloDone)
    ensures ClientRest(q, ReadServerHelloDone) == [Says(false, ServerHelloDone)] + ClientRest(q, SendClientCertificate)
  {
    hide If;
  }

  lemma ClientClosesWith(q: Params)
    ensures ClientRest(q, FinishFlight) == ClientRest(q, if q.resumed then FinishClientHandshake else ReadSessionTicket)
    ensures ClientRest(q, ReadSessionTicket)
         == If(q.ticket, Says(false, NewSessionTicket)) + [Changes(false)] + ClientRest(q, ClientProcessCcs)
    ensures ClientRest(q, ClientProcessCcs) == ClientRest(q, ReadServerFinished)
    ensures ClientRest(q, ReadServerFinished)
         == [Says(false, Finished)] + ClientRest(q, if q.resumed then SendClientFinished else FinishClientHandshake)
    ensures ClientRest(q, FinishClientHandshake) == ClientRest(q, ClientDone) == []
  {
    hide If;
  }

  lemma ClientAheadFirst(p: Params, e: Endpoint<ClientState>, c: Choice, kinds: seq<Event>)
    requires e.wait == Ready && (e.state == ReadServerHello || e.state == ReadServerCertificate || e.state == ReadCertificateStatus)
    requires ClientAct(p, e, c).wait != Error && ClientAhead(p, e.state, kinds)
    ensures var next := ClientAct(p, e, c); ClientAhead(p, next.state, kinds + Heard(e, next, false))
  {
  }

  lemma ClientAheadSecond(p: Params, e: Endpoint<ClientState>, c: Choice, kinds: seq<Event>)
    requires e.wait == Ready
    requires e.state == ReadServerKeyExchange || e.state == ReadCertificateRequest || e.state == ReadServerHelloDone
    requires ClientAct(p, e, c).wait != Error && ClientAhead(p, e.state, kinds)
    ensures var next := ClientAct(p, e, c); ClientAhead(p, next.state, kinds + Heard(e, next, false))
  {
  }

  lemma ClientAheadEarly(p: Params, e: Endpoint<ClientState>, c: Choice, kinds: seq<Event>)
    requires e.wait == Ready && ClientReads(e.state) && ClientEarly(e.state)
    requires ClientAct(p, e, c).wait != Error && ClientAhead(p, e.state, kinds)
    ensures var next := ClientAct(p, e, c); ClientAhead(p, next.state, kinds + Heard(e, next, false))
  {
    hide ClientAct, ClientAhead, Heard;
    if e.state == ReadServerHello || e.state == ReadServerCertificate || e.state == ReadCertificateStatus {
      ClientAheadFirst(p, e, c, kinds);
    } else {
      ClientAheadSecond(p, e, c, kinds);
    }
  }

  lemma ClientAheadLate(p: Params, e: Endpoint<ClientState>, c: Choice, kinds: seq<Event>)
    requires e.wait == Ready && ClientReads(e.state) && !ClientEarly(e.state)
    requires ClientAct(p, e, c).wait != Error && ClientAhead(p, e.state, kinds)
    ensures var next := ClientAct(p, e, c); ClientAhead(p, next.state, kinds + Heard(e, next, false))
  {
  }

  lemma ClientReadServerHello(p: Params, e: Endpoint<ClientState>, c: Choice, kinds: seq<Event>, q: Params)
    requires e.wait == Ready && e.state == ReadServerHello && ClientAct(p, e, c).wait != Error && ClientAhead(p, e.state, kinds)
    requires var next := ClientAct(p, e, c); ClientKnows(p, next.state, kinds + Heard(e, next, false), q)
    ensures var next := ClientAct(p, e, c);
      ClientKnows(p, e.state, kinds, q) && ClientPart(q, e).rest == Heard(e, next, false) + ClientPart(q, next).rest
  {
    hide ClientRest;
    ClientOpensWith(q);
  }

  lemma ClientReadServerCertificate(p: Params, e: Endpoint<ClientState>, c: Choice, kinds: seq<Event>, q: Params)
    requires e.wait == Ready && e.state == ReadServerCertificate && ClientAct(p, e, c).wait != Error && ClientAhead(p, e.state, kinds)
    requires var next := ClientAct(p, e, c); ClientKnows(p, next.state, kinds + Heard(e, next, false), q)
    ensures var next := ClientAct(p, e, c);
      ClientKnows(p, e.state, kinds, q) && ClientPart(q, e).rest == Heard(e, next, false) + ClientPart(q, next).rest
  {
    hide ClientRest;
    ClientOpensWith(q);
  }

  lemma ClientReadCertificateStatus(p: Params, e: Endpoint<ClientState>, c: Choice, kinds: seq<Event>, q: Params)
    requires e.wait == Ready && e.state == ReadCertificateStatus && ClientAct(p, e, c).wait != Error && ClientAhead(p, e.state, kinds)
    requires var next := ClientAct(p, e, c); ClientKnows(p, next.state, kinds + Heard(e, next, false), q)
    ensures var next := ClientAct(p, e, c);
      ClientKnows(p, e.state, kinds, q) && ClientPart(q, e).rest == Heard(e, next, false) + ClientPart(q, next).rest
  {
    hide ClientRest;
    ClientOpensWith(q);
  }

  lemma ClientKnewKeyExchange(p: Params, e: Endpoint<ClientState>, c: Choice, kinds: seq<Event>, q: Params)
    requires e.wait == Ready && e.state == ReadServerKeyExchange && ClientAct(p, e, c).wait != Error && ClientAhead(p, e.state, kinds)
    requires var next := ClientAct(p, e, c); ClientKnows(p, next.state, kinds + Heard(e, next, false), q)
    ensures ClientKnows(p, e.state, kinds, q)
    ensures var next := ClientAct(p, e, c);
      next.state != e.state ==> (q.keyExchangeSent <==> Says(false, ServerKeyExchange) in Heard(e, next, false))
  {
  }

  lemma ClientReadServerKeyExchange(p: Params, e: Endpoint<ClientState>, c: Choice, kinds: seq<Event>, q: Params)
    requires e.wait == Ready && e.state == ReadServerKeyExchange && ClientAct(p, e, c).wait != Error && ClientAhead(p, e.state, kinds)
    requires var next := ClientAct(p, e, c); ClientKnows(p, next.state, kinds + Heard(e, next, false), q)
    ensures var next := ClientAct(p, e, c);
      ClientKnows(p, e.state, kinds, q) && ClientPart(q, e).rest == Heard(e, next, false) + ClientPart(q, next).rest
  {
    hide ClientRest, ClientKnows, ClientAhead;
    ClientKnewKeyExchange(p, e, c, kinds, q);
    ClientOpensWith(q);
  }

  lemma ClientReadCertificateRequest(p: Params, e: Endpoint<ClientState>, c: Choice, kinds: seq<Event>, q: Params)
    requires e.wait == Ready && e.state == ReadCertificateRequest && ClientAct(p, e, c).wait != Error && ClientAhead(p, e.state, kinds)
    requires var next := ClientAct(p, e, c); ClientKnows(p, next.state, kinds + Heard(e, next, false), q)
    ensures var next := ClientAct(p, e, c);
      ClientKnows(p, e.state, kinds, q) && ClientPart(q, e).rest == Heard(e, next, false) + ClientPart(q, next).rest
  {
    hide ClientRest;
    ClientOpensWith(q);
  }

  lemma ClientReadServerHelloDone(p: Params, e: Endpoint<ClientState>, c: Choice, kinds: seq<Event>, q: Params)
    requires e.wait == Ready && e.state == ReadServerHelloDone && ClientAct(p, e, c).wait != Error && ClientAhead(p, e.state, kinds)
    requires var next := ClientAct(p, e, c); ClientKnows(p, next.state, kinds + Heard(e, next, false), q)
    ensures var next := ClientAct(p, e, c);
      ClientKnows(p, e.state, kinds, q) && ClientPart(q, e).rest == Heard(e, next, false) + ClientPart(q, next).rest
  {
    hide ClientRest;
    ClientOpensWith(q);
  }

  lemma ClientReadSessionTicket(p: Params, e: Endpoint<ClientState>, c: Choice, kinds: seq<Event>, q: Params)
    requires e.wait == Ready && e.state == ReadSessionTicket && ClientAct(p, e, c).wait != Error && ClientAhead(p, e.state, kinds)
    requires var next := ClientAct(p, e, c); ClientKnows(p, next.state, kinds + Heard(e, next, false), q)
    ensures var next := ClientAct(p, e, c);
      ClientKnows(p, e.state, kinds, q) && ClientPart(q, e).rest == Heard(e, next, false) + ClientPart(q, next).rest
  {
    hide ClientRest;
    ClientClosesWith(q);
  }

  lemma ClientReadServerFinished(p: Params, e: Endpoint<ClientState>, c: Choice, kinds: seq<Event>, q: Params)
    requires e.wait == Ready && e.state == ReadServerFinished && ClientAct(p, e, c).wait != Error && ClientAhead(p, e.state, kinds)
    requires var next := ClientAct(p, e, c); ClientKnows(p, next.state, kinds + Heard(e, next, false), q)
    ensures var next := ClientAct(p, e, c);
      ClientKnows(p, e.state, kinds, q) && ClientPart(q, e).rest == Heard(e, next, false) + ClientPart(q, next).rest
  {
    hide ClientRest;
    ClientClosesWith(q);
  }

  lemma ClientReadRest(p: Params, e: Endpoint<ClientState>, c: Choice, kinds: seq<Event>, q: Params)
    requires e.wait == Ready && ClientReads(e.state) && ClientAct(p, e, c).wait != Error && ClientAhead(p, e.state, kinds)
    requires var next := ClientAct(p, e, c); ClientKnows(p, next.state, kinds + Heard(e, next, false), q)
    ensures var next := ClientAct(p, e, c);
      ClientKnows(p, e.state, kinds, q) && ClientPart(q, e).rest == Heard(e, next, false) + ClientPart(q, next).rest
  {
    hide ClientAct, ClientAhead, ClientKnows, ClientPart, Heard;
    match e.state
    case ReadServerHello => ClientReadServerHello(p, e, c, kinds, q);
    case ReadServerCertificate => ClientReadServerCertificate(p, e, c, kinds, q);
    case ReadCertificateStatus => ClientReadCertificateStatus(p, e, c, kinds, q);
    case ReadServerKeyExchange => ClientReadServerKeyExchange(p, e, c, kinds, q);
    case ReadCertificateRequest => ClientReadCertificateRequest(p, e, c, kinds, q);
    case ReadServerHelloDone => ClientReadServerHelloDone(p, e, c, kinds, q);
    case ReadSessionTicket => ClientReadSessionTicket(p, e, c, kinds, q);
    case ReadServerFinished => ClientReadServerFinished(p, e, c, kinds, q);
  }

  /** What a step that looks at a message does to the rest of the machine. */
  /** What a step that looks at a message makes of it. */
  predicate ClientReadOk(p: Params, e: Endpoint<ClientState>, next: Endpoint<ClientState>) {
    next.wait != Error ==>
      && next.flight == e.flight
      && (next.wait == ReadCcs ==> next.state == ClientProcessCcs) && (next.wait == ReadMessage ==> next.inbox.None?)
      && (if Heard(e, next, false) == [] then next == e.(state := next.state, wait := next.wait)
          else
            && next.transcript == e.transcript + [e.inbox.value] && EntryOk(p, e.transcript, Said(false, e.inbox.value))
            && (next.certSeen <==> e.certSeen || e.inbox.value.kind == CertificateRequest))
  }

  lemma ClientReadFirst(p: Params, e: Endpoint<ClientState>, c: Choice)
    requires e.wait == Ready && ClientReads(e.state) && ClientEarly(e.state)
    ensures ClientReadOk(p, e, ClientAct(p, e, c))
  {
  }

  lemma ClientReadSecond(p: Params, e: Endpoint<ClientState>, c: Choice)
    requires e.wait == Ready && ClientReads(e.state) && !ClientEarly(e.state)
    ensures ClientReadOk(p, e, ClientAct(p, e, c))
  {
  }

  lemma ClientReadFacts(p: Params, e: Endpoint<ClientState>, c: Choice)
    requires e.wait == Ready && ClientReads(e.state)
    ensures ClientReadOk(p, e, ClientAct(p, e, c))
  {
    hide ClientAct, ClientReadOk, ClientReads;
    if ClientEarly(e.state) {
      ClientReadFirst(p, e, c);
    } else {
      ClientReadSecond(p, e, c);
    }
  }

  lemma ClientReadFollows(p: Params, e: Endpoint<ClientState>, c: Choice, log: seq<Entry>)
    requires e.wait == Ready && ClientFollows(p, e, log) && ClientReads(e.state) && ClientAct(p, e, c).wait != Error
    ensures var next := ClientAct(p, e, c); ClientFollows(p, next, log + Added(true, e, next))
  {
    hide ClientAct, ClientKnows, ClientPart, ClientAhead, Conversation, LogOk, EntryOk, Spoken;
    var next := ClientAct(p, e, c);
    ClientReadFacts(p, e, c);
    if ClientEarly(e.state) {
      ClientAheadEarly(p, e, c, Kinds(log));
    } else {
      ClientAheadLate(p, e, c, Kinds(log));
    }
    forall q | ClientKnows(p, next.state, Kinds(log) + Heard(e, next, false), q)
      ensures ClientKnows(p, e.state, Kinds(log), q) && ClientPart(q, e).rest == Heard(e, next, false) + ClientPart(q, next).rest
    {
      ClientReadRest(p, e, c, Kinds(log), q);
    }
    if Heard(e, next, false) == [] {
      assert Kinds(log) + [] == Kinds(log) && log + [] == log;
      ClientSame(p, e, next, log);
    } else {
      ClientOneFollows(p, e, next, log, Said(false, e.inbox.value));
    }
  }

  lemma ClientSame(p: Params, e: Endpoint<ClientState>, next: Endpoint<ClientState>, log: seq<Entry>)
    requires ClientFollows(p, e, log) && next == e.(state := next.state, wait := next.wait) && ClientAhead(p, next.state, Kinds(log))
    requires (next.wait == ReadCcs ==> next.state == ClientProcessCcs) && (next.wait == ReadMessage ==> next.inbox.None?)
    requires forall q | ClientKnows(p, next.state, Kinds(log), q) ::
      ClientKnows(p, e.state, Kinds(log), q) && ClientPart(q, e).rest == [] + ClientPart(q, next).rest
    ensures ClientFollows(p, next, log)
  {
    hide ClientKnows, ClientPart, ClientAhead, Conversation, LogOk, Spoken;
    forall q | ClientKnows(p, next.state, Kinds(log), q)
      ensures ClientKnows(p, e.state, Kinds(log), q) && ClientPart(q, e).rest == ClientPart(q, next).rest
    {
      NoPrefix(ClientPart(q, next).rest);
    }
    ClientGoesOnFollows(p, e, next, log);
  }

  /** A step that hears nothing of the server's choices leaves open what was open. */
  lemma ClientKnewBefore(p: Params, s: ClientState, next: ClientState, kinds: seq<Event>, xs: seq<Event>, q: Params)
    requires ClientKnows(p, next, kinds + xs, q) && ClientRank(p, next) <= ClientRank(p, s)
    requires Says(false, CertificateStatus) !in xs && Says(false, ServerKeyExchange) !in xs && Says(false, CertificateRequest) !in xs
    ensures ClientKnows(p, s, kinds, q)
  {
    hide ClientRank;
  }

  lemma ClientPassAct(p: Params, e: Endpoint<ClientState>, c: Choice)
    requires e.wait == Ready && ClientPassesOver(e.state)
    ensures var next := ClientAct(p, e, c);
      && next == e.(state := next.state, wait := next.wait) && (next.wait == Ready || next.wait == Pending)
      && (next.state == e.state || next.state ==
            match e.state
            case VerifyServerCertificate => ReadServerKeyExchange
            case FinishFlight => if p.resumed then FinishClientHandshake else ReadSessionTicket
            case ClientProcessCcs => ReadServerFinished
            case _ => ClientDone)
  {
  }

  lemma ClientPassRest(p: Params, e: Endpoint<ClientState>, c: Choice, kinds: seq<Event>, q: Params)
    requires e.wait == Ready && ClientPassesOver(e.state)
    requires var next := ClientAct(p, e, c); ClientKnows(p, next.state, kinds + [], q)
    ensures var next := ClientAct(p, e, c);
      ClientKnows(p, e.state, kinds, q) && ClientPart(q, e).rest == [] + ClientPart(q, next).rest
  {
    hide ClientAct, ClientRest, ClientKnows;
    ClientPassAct(p, e, c);
    ClientKnewBefore(p, e.state, ClientAct(p, e, c).state, kinds, [], q);
    ClientKnowsTable(p, e.state, kinds, q);
    ClientOpensWith(q);
    ClientClosesWith(q);
  }

  lemma ClientKnowsTable(p: Params, s: ClientState, kinds: seq<Event>, q: Params)
    requires ClientKnows(p, s, kinds, q)
    ensures q.resumed == p.resumed && q.certCipher == p.certCipher && q.ticket == p.ticket
    ensures q.nextProto == p.nextProto && q.channelId == p.channelId
  {
  }

  lemma ClientPassFollows(p: Params, e: Endpoint<ClientState>, c: Choice, log: seq<Entry>)
    requires e.wait == Ready && ClientFollows(p, e, log) && ClientPassesOver(e.state)
    ensures var next := ClientAct(p, e, c); ClientFollows(p, next, log + Added(true, e, next))
  {
    hide ClientKnows, ClientPart, Conversation, LogOk, Spoken;
    var next := ClientAct(p, e, c);
    assert log + [] == log && Kinds(log) + [] == Kinds(log);
    forall q | ClientKnows(p, next.state, Kinds(log), q)
      ensures ClientKnows(p, e.state, Kinds(log), q) && ClientPart(q, e).rest == [] + ClientPart(q, next).rest
    {
      ClientPassRest(p, e, c, Kinds(log), q);
    }
    ClientSame(p, e, next, log);
  }

  /** The states in which it writes one message, or none. */
  predicate ClientWritesOne(s: ClientState) {
    s == StartConnect || s == SendClientCertificate || s == SendClientKeyExchange || s == SendClientCertificateVerify
  }

  /** What a state that writes at most one message writes, and whether it does. */
  function ClientSays(p: Params, s: ClientState, asked: bool, c: Choice): (bool, Message) {
    match s
    case StartConnect => (true, Message(ClientHello, c.body))
    case SendClientCertificate => (asked, Message(Certificate, if p.clientCert then c.Chain() else []))
    case SendClientKeyExchange => (true, Message(ClientKeyExchange, c.body))
    case _ => (asked && p.clientCert, Message(CertificateVerify, c.body))
  }

  function ClientAfter(s: ClientState): ClientState {
    match s
    case StartConnect => ReadServerHello
    case SendClientCertificate => SendClientKeyExchange
    case SendClientKeyExchange => SendClientCertificateVerify
    case _ => SendClientFinished
  }

  /** A message, if there is one to be sent. */
  function SaidIf(b: bool, me: bool, m: Message): seq<Entry> {
    if b then [Said(me, m)] else []
  }

  lemma {:induction false} MoreIf(p: Params, log: seq<Entry>, b: bool, me: bool, m: Message)
    requires LogOk(p, log) && m.kind != Finished && (m.kind == ServerHelloDone ==> m.body == [])
    ensures LogOk(p, log + SaidIf(b, me, m)) && Spoken(log + SaidIf(b, me, m)) == Spoken(log) + (if b then [m] else [])
    ensures Kinds(SaidIf(b, me, m)) == If(b, Says(me, m.kind))
  {
    hide LogOk, Spoken;
    if b {
      OneMore(p, log, Said(me, m));
    } else {
      assert log + [] == log;
    }
  }

  lemma ClientWriteIs(p: Params, e: Endpoint<ClientState>, c: Choice)
    requires e.wait == Ready && ClientWritesOne(e.state)
    ensures var next := ClientAct(p, e, c); var m := ClientSays(p, e.state, e.certSeen, c);
      if next.wait == Pending then next == e.(wait := Pending)
      else
        && (next.wait == Ready || next.wait == Flush) && m.1.kind != Finished && m.1.kind != ServerHelloDone
        && next == e.SendIf(m.0, m.1.kind, m.1.body).(state := ClientAfter(e.state), wait := next.wait)
        && Added(true, e, next) == SaidIf(m.0, true, m.1)
  {
  }

  lemma ClientWritesWith(q: Params)
    ensures ClientRest(q, StartConnect) == [Says(true, ClientHello)] + ClientRest(q, ReadServerHello)
    ensures ClientRest(q, SendClientCertificate) == If(q.certRequest, Says(true, Certificate)) + ClientRest(q, SendClientKeyExchange)
    ensures ClientRest(q, SendClientKeyExchange) == [Says(true, ClientKeyExchange)] + ClientRest(q, SendClientCertificateVerify)
    ensures ClientRest(q, SendClientCertificateVerify)
         == If(q.clientCert, Says(true, CertificateVerify)) + ClientRest(q, SendClientFinished)
    ensures ClientRest(q, SendClientFinished) == ClientCloses(q) + ClientRest(q, FinishFlight)
  {
    hide If;
  }

  /** A message of the client changes nothing about what it knows, and before the request it says only ClientHello. */
  lemma ClientKnewWriting(p: Params, e: Endpoint<ClientState>, c: Choice, kinds: seq<Event>, q: Params)
    requires ClientWritesOne(e.state) && ClientAhead(p, e.state, kinds)
    requires var m := ClientSays(p, e.state, e.certSeen, c);
      ClientKnows(p, ClientAfter(e.state), kinds + If(m.0, Says(true, m.1.kind)), q)
    ensures ClientKnows(p, e.state, kinds, q)
    ensures e.state != StartConnect ==>
      && (q.certRequest <==> Says(false, CertificateRequest) in kinds) && (q.clientCert <==> p.clientCert && q.certRequest)
  {
    var m := ClientSays(p, e.state, e.certSeen, c);
    assert forall x | x in If(m.0, Says(true, m.1.kind)) :: x.fromClient;
  }

  lemma ClientAheadWriting(p: Params, e: Endpoint<ClientState>, c: Choice, kinds: seq<Event>)
    requires ClientWritesOne(e.state) && ClientAhead(p, e.state, kinds)
    ensures var m := ClientSays(p, e.state, e.certSeen, c);
      ClientAhead(p, ClientAfter(e.state), kinds + If(m.0, Says(true, m.1.kind)))
  {
    var m := ClientSays(p, e.state, e.certSeen, c);
    assert forall x | x in If(m.0, Says(true, m.1.kind)) :: x.fromClient;
  }

  /** It writes exactly what comes next in the conversation. */
  lemma ClientWriteRest(p: Params, e: Endpoint<ClientState>, next: Endpoint<ClientState>, c: Choice, kinds: seq<Event>, q: Params)
    requires e.wait == Ready && ClientWritesOne(e.state) && ClientAhead(p, e.state, kinds)
    requires next.state == ClientAfter(e.state) && next.wait != ReadCcs
    requires e.certSeen <==> Says(false, CertificateRequest) in kinds
    requires var m := ClientSays(p, e.state, e.certSeen, c);
      ClientKnows(p, next.state, kinds + If(m.0, Says(true, m.1.kind)), q)
    ensures ClientKnows(p, e.state, kinds, q)
    ensures var m := ClientSays(p, e.state, e.certSeen, c);
      ClientPart(q, e).rest == If(m.0, Says(true, m.1.kind)) + ClientPart(q, next).rest
  {
    hide ClientRest, ClientKnows, ClientAhead;
    ClientKnewWriting(p, e, c, kinds, q);
    ClientWritesWith(q);
  }

  lemma ClientWriteFollows(p: Params, e: Endpoint<ClientState>, c: Choice, log: seq<Entry>)
    requires e.wait == Ready && ClientFollows(p, e, log) && ClientWritesOne(e.state)
    ensures var next := ClientAct(p, e, c); ClientFollows(p, next, log + Added(true, e, next))
  {
    hide ClientAct, ClientKnows, ClientRest, ClientAhead, ClientSays, ClientAfter, Conversation, LogOk, Spoken, Added;
    var next, m := ClientAct(p, e, c), ClientSays(p, e.state, e.certSeen, c);
    ClientWriteIs(p, e, c);
    if next.wait == Pending {
      ClientPends(p, e, log);
    } else {
      var xs := SaidIf(m.0, true, m.1);
      MoreIf(p, log, m.0, true, m.1);
      KindsConcat(log, xs);
      ClientAheadWriting(p, e, c, Kinds(log));
      forall q | ClientKnows(p, next.state, Kinds(log + xs), q)
        ensures ClientKnows(p, e.state, Kinds(log), q) && ClientPart(q, e).rest == Kinds(xs) + ClientPart(q, next).rest
      {
        ClientWriteRest(p, e, next, c, Kinds(log), q);
      }
      ClientFollowsBy(p, e, next, log, xs);
    }
  }

  /** A callback that asks to be called again changes nothing. */
  lemma ClientPends(p: Params, e: Endpoint<ClientState>, log: seq<Entry>)
    requires e.wait == Ready && ClientFollows(p, e, log)
    ensures ClientFollows(p, e.(wait := Pending), log + Added(true, e, e.(wait := Pending)))
  {
    hide ClientKnows, ClientRest, ClientAhead, Conversation, LogOk, Spoken;
    assert log + [] == log;
    assert forall q :: ClientPart(q, e.(wait := Pending)).rest == ClientPart(q, e).rest;
  }

  // ---- the client's Finished ----

  /** The closing flight of the client, entry by entry. */
  function ClientLast(p: Params, transcript: seq<Message>, c: Choice): seq<Entry> {
    var np, id := Message(NextProto, c.body), Message(ChannelId, c.extra);
    var before := transcript + (if p.nextProto then [np] else []) + (if p.channelId then [id] else []);
    [Changed(true)] + SaidIf(p.nextProto, true, np) + SaidIf(p.channelId, true, id)
    + [Said(true, Message(Finished, p.mac(before, true)))]
  }

  lemma ClientFinishFacts(p: Params, e: Endpoint<ClientState>, c: Choice)
    requires e.wait == Ready && e.state == SendClientFinished && !(p.channelId && c.retry)
    ensures var next := ClientAct(p, e, c);
      && next.state == FinishFlight && next.wait == Flush && next.inbox == e.inbox && next.certSeen == e.certSeen
      && Added(true, e, next) == ClientLast(p, e.transcript, c)
      && next.transcript == e.transcript + (if p.nextProto then [Message(NextProto, c.body)] else [])
           + (if p.channelId then [Message(ChannelId, c.extra)] else [])
           + [Message(Finished, p.mac(e.transcript + (if p.nextProto then [Message(NextProto, c.body)] else [])
                                      + (if p.channelId then [Message(ChannelId, c.extra)] else []), true))]
  {
    var next := ClientAct(p, e, c);
    var np, id := Message(NextProto, c.body), Message(ChannelId, c.extra);
    var before := e.transcript + (if p.nextProto then [np] else []) + (if p.channelId then [id] else []);
    var items := [Ccs] + (if p.nextProto then [Hs(np)] else []) + (if p.channelId then [Hs(id)] else [])
      + [Hs(Message(Finished, p.mac(before, true)))];
    assert before == e.SendCcs().SendIf(p.nextProto, NextProto, c.body).SendIf(p.channelId, ChannelId, c.extra).transcript;
    assert next.flight == e.flight + items;
    assert next.flight[|e.flight|..] == items;
    assert Own(true, items) == ClientLast(p, e.transcript, c);
  }

  lemma {:induction false} ClientLastOk(p: Params, log: seq<Entry>, c: Choice)
    requires LogOk(p, log)
    ensures var last := ClientLast(p, Spoken(log), c);
      && LogOk(p, log + last) && Kinds(last) == ClientCloses(p)
      && var before := Spoken(log) + (if p.nextProto then [Message(NextProto, c.body)] else [])
                       + (if p.channelId then [Message(ChannelId, c.extra)] else []);
         Spoken(log + last) == before + [Message(Finished, p.mac(before, true))]
  {
    hide LogOk, Spoken, If;
    var np, id := Message(NextProto, c.body), Message(ChannelId, c.extra);
    var a := log + [Changed(true)];
    OneMore(p, log, Changed(true));
    assert Spoken(log) + [] == Spoken(log);
    var b := a + SaidIf(p.nextProto, true, np);
    MoreIf(p, a, p.nextProto, true, np);
    var d := b + SaidIf(p.channelId, true, id);
    MoreIf(p, b, p.channelId, true, id);
    var fin := Said(true, Message(Finished, p.mac(Spoken(d), true)));
    OneMore(p, d, fin);
    assert log + ClientLast(p, Spoken(log), c) == d + [fin];
    KindsConcat([Changed(true)] + SaidIf(p.nextProto, true, np) + SaidIf(p.channelId, true, id), [fin]);
    KindsConcat([Changed(true)] + SaidIf(p.nextProto, true, np), SaidIf(p.channelId, true, id));
    KindsConcat([Changed(true)], SaidIf(p.nextProto, true, np));
    assert Kinds([Changed(true)]) == [Changes(true)] && Kinds([fin]) == [Says(true, Finished)];
  }

  lemma ClientFinishRest(p: Params, e: Endpoint<ClientState>, kinds: seq<Event>, q: Params)
    requires e.wait == Ready && e.state == SendClientFinished && ClientAhead(p, e.state, kinds)
    requires ClientKnows(p, FinishFlight, kinds + ClientCloses(p), q)
    ensures ClientKnows(p, e.state, kinds, q) && ClientAhead(p, FinishFlight, kinds + ClientCloses(p))
    ensures ClientPart(q, e).rest == ClientCloses(p) + ClientPart(q, e.(state := FinishFlight, wait := Flush)).rest
  {
    hide ClientRest;
    ClientWritesWith(q);
  }

  lemma ClientFinishAhead(p: Params, kinds: seq<Event>)
    requires ClientAhead(p, SendClientFinished, kinds)
    ensures ClientAhead(p, FinishFlight, kinds + ClientCloses(p))
    ensures Says(false, CertificateRequest) in kinds + ClientCloses(p) <==> Says(false, CertificateRequest) in kinds
  {
  }

  lemma ClientFinishFollows(p: Params, e: Endpoint<ClientState>, c: Choice, log: seq<Entry>)
    requires e.wait == Ready && ClientFollows(p, e, log) && e.state == SendClientFinished && !(p.channelId && c.retry)
    ensures var next := ClientAct(p, e, c); ClientFollows(p, next, log + Added(true, e, next))
  {
    hide ClientAct, ClientKnows, ClientRest, ClientAhead, Conversation, LogOk, Spoken, Added, ClientLast, ClientCloses;
    var next, last := ClientAct(p, e, c), ClientLast(p, e.transcript, c);
    ClientFinishFacts(p, e, c);
    ClientLastOk(p, log, c);
    KindsConcat(log, last);
    ClientFinishAhead(p, Kinds(log));
    forall q | ClientKnows(p, next.state, Kinds(log + last), q)
      ensures ClientKnows(p, e.state, Kinds(log), q) && ClientPart(q, e).rest == Kinds(last) + ClientPart(q, next).rest
    {
      ClientFinishRest(p, e, Kinds(log), q);
    }
    ClientFollowsBy(p, e, next, log, last);
  }

  // ---- whole runs of the client ----

  lemma ClientCcsFollows(p: Params, e: Endpoint<ClientState>, log: seq<Entry>)
    requires ClientFollows(p, e, log) && e.wait == ReadCcs
    ensures ClientFollows(p, e.(wait := Ready), log + [Changed(false)])
  {
    hide ClientRest, Conversation, LogOk, Spoken;
    var next := e.(wait := Ready);
    OneMore(p, log, Changed(false));
    assert Kinds([Changed(false)]) == [Changes(false)];
    assert Spoken(log) + [] == Spoken(log);
    forall q | ClientKnows(p, next.state, Kinds(log + [Changed(false)]), q)
      ensures ClientKnows(p, e.state, Kinds(log), q)
      ensures ClientPart(q, e).rest == Kinds([Changed(false)]) + ClientPart(q, next).rest
    {
      NoPrefix(ClientRest(q, e.state));
    }
    ClientFollowsBy(p, e, next, log, [Changed(false)]);
  }

  /** Whatever comes in, or however much goes out. */
  lemma ClientGetsFollows(p: Params, e: Endpoint<ClientState>, r: Resolution, incoming: seq<Item>, log: seq<Entry>)
    requires ClientFollows(p, e, log) && Resolve(e, r, incoming).wait != Error
    ensures var next := Resolve(e, r, incoming); ClientFollows(p, next, log + Added(true, e, next))
  {
    hide ClientRest, ClientKnows, ClientAhead, Conversation, LogOk, Spoken;
    var next := Resolve(e, r, incoming);
    assert log + [] == log;
    if e.wait == ReadCcs && next.wait == Ready {
      ClientCcsFollows(p, e, log);
    } else {
      assert Added(true, e, next) == [];
      assert forall q :: ClientPart(q, next).rest == ClientPart(q, e).rest;
    }
  }

  lemma ClientActFollows(p: Params, e: Endpoint<ClientState>, c: Choice, log: seq<Entry>)
    requires e.wait == Ready && ClientFollows(p, e, log) && ClientAct(p, e, c).wait != Error
    ensures var next := ClientAct(p, e, c); ClientFollows(p, next, log + Added(true, e, next))
  {
    if ClientReads(e.state) {
      hide ClientAct, ClientFollows, Added;
      ClientReadFollows(p, e, c, log);
    } else if ClientPassesOver(e.state) {
      hide ClientAct, ClientFollows, Added;
      ClientPassFollows(p, e, c, log);
    } else if ClientWritesOne(e.state) {
      hide ClientAct, ClientFollows, Added;
      ClientWriteFollows(p, e, c, log);
    } else if p.channelId && c.retry {
      hide ClientFollows, Added;
      ClientPends(p, e, log);
    } else {
      hide ClientAct, ClientFollows, Added;
      ClientFinishFollows(p, e, c, log);
    }
  }

  /** What can happen to one side: it runs, or something comes from a peer that sends what it likes. */
  datatype SoloMove = Acts(c: Choice) | Gets(r: Resolution, incoming: seq<Item>)

  function ClientMove(p: Params, e: Endpoint<ClientState>, m: SoloMove): Endpoint<ClientState> {
    match m
    case Acts(c) => if e.wait == Ready then ClientAct(p, e, c) else e
    case Gets(r, incoming) => Resolve(e, r, incoming)
  }

  /** The client after some moves, and the log of all of them. */
  function ClientSolo(p: Params, e: Endpoint<ClientState>, log: seq<Entry>, moves: seq<SoloMove>): (Endpoint<ClientState>, seq<Entry>)
    decreases |moves|
  {
    if moves == [] then (e, log)
    else
      var next := ClientMove(p, e, moves[0]);
      ClientSolo(p, next, log + Added(true, e, next), moves[1..])
  }

  /** An error is for good. */
  lemma {:induction false} ClientFailed(p: Params, e: Endpoint<ClientState>, log: seq<Entry>, moves: seq<SoloMove>)
    requires e.wait == Error
    ensures ClientSolo(p, e, log, moves).0.wait == Error
    decreases |moves|
  {
    if moves != [] {
      ClientFailed(p, e, log + Added(true, e, e), moves[1..]);
    }
  }

  /**
   * Over any moves, with any peer: unless it has failed, the client has said and heard, in order, what makes up
   * the conversation together with what is still before it, and each Finished in its transcript is over the
   * messages before it.
   */
  lemma {:induction false} ClientStaysInOrder(p: Params, e: Endpoint<ClientState>, log: seq<Entry>, moves: seq<SoloMove>)
    requires ClientFollows(p, e, log)
    ensures var (last, all) := ClientSolo(p, e, log, moves); last.wait == Error || ClientFollows(p, last, all)
    decreases |moves|
  {
    hide ClientAct, Resolve, ClientFollows, Added;
    if moves != [] {
      var next := ClientMove(p, e, moves[0]);
      var more := log + Added(true, e, next);
      if next.wait == Error {
        ClientFailed(p, next, more, moves[1..]);
      } else {
        match moves[0] {
          case Acts(c) =>
            if e.wait == Ready {
              ClientActFollows(p, e, c, log);
            } else {
              NothingAdded(e, log);
            }
          case Gets(r, incoming) => ClientGetsFollows(p, e, r, incoming, log);
        }
        ClientStaysInOrder(p, next, more, moves[1..]);
      }
    }
  }

  lemma NothingAdded<S>(e: Endpoint<S>, log: seq<Entry>)
    ensures log + Added(true, e, e) == log + Added(false, e, e) == log
  {
  }

  /** It has failed, or has gone on in order. */
  ghost predicate ClientStays(p: Params, e: Endpoint<ClientState>, log: seq<Entry>) {
    e.wait == Error || exists more :: ClientFollows(p, e, log + more)
  }

  lemma {:induction false} ClientStepStays(p: Params, s: System, m: Move, log: seq<Entry>)
    requires ClientFollows(p, s.client, log)
    ensures var e := Step(p, s, m).client; e.wait == Error || ClientFollows(p, e, log + Added(true, s.client, e))
  {
    hide ClientAct, ServerAct, Resolve, ClientFollows, Added;
    NothingAdded(s.client, log);
    if Step(p, s, m).client.wait != Error {
      match m {
        case ClientRuns(c) =>
          if s.client.wait == Ready {
            ClientActFollows(p, s.client, c, log);
          }
        case ClientResolves(r) => ClientGetsFollows(p, s.client, r, s.toClient, log);
        case ServerRuns(c) =>
        case ServerResolves(r) =>
      }
    }
  }

  lemma {:induction false} ClientErrorStays(p: Params, s: System, moves: seq<Move>)
    requires s.client.wait == Error
    ensures After(p, s, moves).client.wait == Error
    decreases |moves|
  {
    hide ClientAct, ServerAct;
    if moves != [] {
      ClientErrorStays(p, Step(p, s, moves[0]), moves[1..]);
    }
  }

  /** The same in a run of the two machines, from any state of the other and of what is on the way. */
  lemma {:induction false} ClientStaysInRun(p: Params, s: System, moves: seq<Move>, log: seq<Entry>)
    requires ClientFollows(p, s.client, log)
    ensures ClientStays(p, After(p, s, moves).client, log)
    decreases |moves|
  {
    hide Step, ClientFollows, Added;
    if moves == [] {
      assert log + [] == log;
    } else {
      var next := Step(p, s, moves[0]);
      if next.client.wait == Error {
        ClientErrorStays(p, next, moves[1..]);
      } else {
        ClientStepStays(p, s, moves[0], log);
        var first := Added(true, s.client, next.client);
        ClientStaysInRun(p, next, moves[1..], log + first);
        var last := After(p, next, moves[1..]).client;
        if last.wait != Error {
          var more :| ClientFollows(p, last, log + first + more);
          assert log + first + more == log + (first + more);
        }
      }
    }
  }

  lemma ClientStartFollows(p: Params)
    ensures ClientFollows(p, Endpoint(StartConnect, Ready, [], [], None, false), [])
  {
    hide ClientRest, Conversation;
    forall q ensures Kinds([]) + ClientPart(q, Endpoint(StartConnect, Ready, [], [], None, false)).rest == Conversation(q) {
      ConversationIs(q);
      NoPrefix(ClientRest(q, StartConnect));
    }
  }

  /** The choices of the server, as the client has come to know them. */
  function ServersChoices(p: Params, kinds: seq<Event>): Params {
    p.(statusSent := Says(false, CertificateStatus) in kinds, keyExchangeSent := Says(false, ServerKeyExchange) in kinds,
       certRequest := Says(false, CertificateRequest) in kinds, clientCert := p.clientCert && Says(false, CertificateRequest) in kinds)
  }

  /** The whole conversation, for choices that the server was free to make, with its Finished over all before it. */
  ghost predicate ClientVerified(p: Params, e: Endpoint<ClientState>, log: seq<Entry>) {
    var q := ServersChoices(p, Kinds(log));
    && Kinds(log) == Conversation(q) && e.transcript == Spoken(log) && LogOk(p, log)
    && (q.statusSent ==> p.statusExpected) && (p.keyExchangeNeeded && !p.resumed ==> q.keyExchangeSent) && (q.certRequest ==> p.certCipher)
    && exists i | 0 <= i < |log| :: FinishedHere(p, log, i, false)
  }

  lemma ClientEnds(p: Params, e: Endpoint<ClientState>, log: seq<Entry>)
    requires ClientFollows(p, e, log) && e.state == ClientDone
    ensures ClientVerified(p, e, log)
  {
    hide LogOk, Spoken, Conversation, ClientRest;
    var q := ServersChoices(p, Kinds(log));
    assert ClientKnows(p, e.state, Kinds(log), q);
    NothingBeforeDone(q);
    assert Kinds(log) + [] == Kinds(log);
    ConversationFinishes(q);
    var i :| 0 <= i < |Kinds(log)| && Kinds(log)[i] == Says(false, Finished);
    FinishedIsOk(p, log, i, false);
  }

  /**
   * A client that is done has gone through the whole conversation, for choices that the server was free to make,
   * and has checked the server's Finished against everything before it.
   */
  lemma ClientDoneVerified(p: Params, moves: seq<SoloMove>)
    requires ClientSolo(p, Endpoint(StartConnect, Ready, [], [], None, false), [], moves).0.state == ClientDone
    requires ClientSolo(p, Endpoint(StartConnect, Ready, [], [], None, false), [], moves).0.wait != Error
    ensures var (e, log) := ClientSolo(p, Endpoint(StartConnect, Ready, [], [], None, false), [], moves); ClientVerified(p, e, log)
  {
    hide ClientSolo, LogOk, Spoken, Conversation, ClientRest, ClientVerified;
    var start: Endpoint<ClientState> := Endpoint(StartConnect, Ready, [], [], None, false);
    ClientStartFollows(p);
    ClientStaysInOrder(p, start, [], moves);
    var (e, log) := ClientSolo(p, start, [], moves);
    ClientEnds(p, e, log);
  }

  lemma NothingBeforeDone(q: Params)
    ensures ClientRest(q, ClientDone) == [] && ServerRest(q, ServerDone) == []
  {
  }

  /** Entry `i` is the Finished of this side, over all messages before it. */
  predicate FinishedHere(p: Params, log: seq<Entry>, i: nat, fromClient: bool)
    requires i < |log|
  {
    && log[i].Said? && log[i].fromClient == fromClient && log[i].msg.kind == Finished
    && log[i].msg.body == p.mac(Spoken(log[..i]), fromClient)
  }

  lemma FinishedIsOk(p: Params, log: seq<Entry>, i: nat, fromClient: bool)
    requires LogOk(p, log) && i < |log| && Kinds(log)[i] == Says(fromClient, Finished)
    ensures FinishedHere(p, log, i, fromClient)
  {
    hide Spoken;
    assert EntryOk(p, Spoken(log[..i]), log[i]);
  }

  lemma ConversationFinishes(q: Params)
    ensures exists i | 0 <= i < |Conversation(q)| :: Conversation(q)[i] == Says(false, Finished)
    ensures exists i | 0 <= i < |Conversation(q)| :: Conversation(q)[i] == Says(true, Finished)
  {
    hide If, ServerOpens, ClientAnswers;
    assert Says(false, Finished) in ServerCloses(q) && Says(true, Finished) in ClientCloses(q);
    assert Says(false, Finished) in Conversation(q) && Says(true, Finished) in Conversation(q);
  }

  // ---- what the application is asked ----

  /** Where the client asks the application: about the certificate, or for a signature or a key. */
  predicate ClientAsksBack(p: Params, e: Endpoint<ClientState>) {
    || (e.state == VerifyServerCertificate && p.certCipher)
    || (e.state == SendClientCertificate && e.certSeen)
    || (e.state == SendClientCertificateVerify && e.certSeen && p.clientCert)
    || (e.state == SendClientFinished && p.channelId)
  }

  lemma ReadingAsksNothing(p: Params, e: Endpoint<ClientState>, c: Choice)
    requires e.wait == Ready && ClientReads(e.state)
    ensures ClientAct(p, e, c).wait != Pending && !ClientAsksBack(p, e)
  {
  }

  lemma PendsWriting(p: Params, e: Endpoint<ClientState>, c: Choice)
    requires e.wait == Ready && !ClientReads(e.state)
    ensures ClientAct(p, e, c).wait == Pending <==> c.retry && ClientAsksBack(p, e)
    ensures ClientAct(p, e, c).wait == Pending ==> ClientAct(p, e, c) == e.(wait := Pending)
  {
  }

  /** It waits for the application exactly there, as long as there is no answer, and nothing changes meanwhile. */
  lemma ClientPendsIff(p: Params, e: Endpoint<ClientState>, c: Choice)
    requires e.wait == Ready
    ensures ClientAct(p, e, c).wait == Pending <==> c.retry && ClientAsksBack(p, e)
    ensures ClientAct(p, e, c).wait == Pending ==> ClientAct(p, e, c) == e.(wait := Pending)
  {
    hide ClientAct, ClientAsksBack;
    if ClientReads(e.state) {
      ReadingAsksNothing(p, e, c);
    } else {
      PendsWriting(p, e, c);
    }
  }

  /** In one of these moves the client was in this state and the application answered. */
  ghost predicate ClientAnswered(p: Params, e: Endpoint<ClientState>, moves: seq<SoloMove>, s: ClientState)
    decreases |moves|
  {
    moves != []
    && ((e.state == s && e.wait == Ready && moves[0].Acts? && !moves[0].c.retry)
        || ClientAnswered(p, ClientMove(p, e, moves[0]), moves[1..], s))
  }

  /** The only way past the certificate. */
  lemma ClientPassesCertificate(p: Params, e: Endpoint<ClientState>, m: SoloMove)
    requires !p.resumed && p.certCipher && ClientRank(p, e.state) >= 13 && ClientRank(p, ClientMove(p, e, m).state) < 13
    ensures e.state == VerifyServerCertificate && e.wait == Ready && m.Acts? && !m.c.retry
  {
  }

  /** Against any peer: a full handshake with certificates gets nowhere unless the application has accepted the server's. */
  lemma {:induction false} CertificateWasVerified(p: Params, e: Endpoint<ClientState>, log: seq<Entry>, moves: seq<SoloMove>)
    requires !p.resumed && p.certCipher && ClientRank(p, e.state) >= 13
    requires ClientRank(p, ClientSolo(p, e, log, moves).0.state) < 13
    ensures ClientAnswered(p, e, moves, VerifyServerCertificate)
    decreases |moves|
  {
    hide ClientMove, ClientRank, Added;
    if moves != [] {
      var next := ClientMove(p, e, moves[0]);
      if ClientRank(p, next.state) < 13 {
        ClientPassesCertificate(p, e, moves[0]);
      } else {
        CertificateWasVerified(p, next, log + Added(true, e, next), moves[1..]);
      }
    }
  }

  // ---- out of place ----

  /** A change of cipher among the messages, or a message where a change of cipher is awaited, is always an error. */
  lemma OutOfPlaceIff<S>(e: Endpoint<S>, r: Resolution, incoming: seq<Item>)
    requires e.wait != Error
    ensures Resolve(e, r, incoming).wait == Error <==>
      && r.Opened? && incoming != []
      && ((e.wait == ReadMessage && incoming[0].Ccs?) || (e.wait == ReadCcs && incoming[0].Hs?))
  {
  }

  // ---- exactly when a Finished is accepted ----

  /** The client leaves this state exactly on a Finished over its own transcript; on anything else it fails or waits. */
  lemma ClientLeavesIff(p: Params, e: Endpoint<ClientState>, c: Choice)
    requires e.wait == Ready && e.state == ReadServerFinished
    ensures var next := ClientAct(p, e, c);
      && (next.state != ReadServerFinished <==> e.inbox == Some(Message(Finished, p.mac(e.transcript, false))))
      && (next.state == ReadServerFinished ==> next == e.(wait := if e.inbox.None? then ReadMessage else Error))
  {
  }

  lemma ServerLeavesIff(p: Params, e: Endpoint<ServerState>, c: Choice)
    requires e.wait == Ready && e.state == ReadClientFinished
    ensures var next := ServerAct(p, e, c);
      && (next.state != ReadClientFinished <==> e.inbox == Some(Message(Finished, p.mac(e.transcript, true))))
      && (next.state == ReadClientFinished ==> next == e.(wait := if e.inbox.None? then ReadMessage else Error))
  {
  }
}
