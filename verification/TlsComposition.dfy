/**
 * A client and a server joined by two channels: in every run they follow one conversation, so that
 * neither meets a message it does not expect, their transcripts agree, and they never both wait.
 */
module TlsComposition {
  import opened Bytes
  import opened TlsMachines

  /** One message, or ChangeCipherSpec, of the conversation. */
  datatype Event = Says(fromClient: bool, kind: Kind) | Changes(fromClient: bool)

  function If(b: bool, e: Event): seq<Event> {
    if b then [e] else []
  }

  // ---- the conversation, as each side has it still before it ----

  function ClientRank(p: Params, s: ClientState): nat {
    match s
    case StartConnect => 17
    case ReadServerHello => 16
    case ReadServerCertificate => 15
    case ReadCertificateStatus => 14
    case VerifyServerCertificate => 13
    case ReadServerKeyExchange => 12
    case ReadCertificateRequest => 11
    case ReadServerHelloDone => 10
    case SendClientCertificate => 9
    case SendClientKeyExchange => 8
    case SendClientCertificateVerify => 7
    case SendClientFinished => if p.resumed then 3 else 6
    case FinishFlight => if p.resumed then 2 else 5
    case ReadSessionTicket => if p.resumed then 6 else 4
    case ClientProcessCcs => if p.resumed then 5 else 3
    case ReadServerFinished => if p.resumed then 4 else 2
    case FinishClientHandshake => 1
    case ClientDone => 0
  }

  function ClientRest(p: Params, s: ClientState): seq<Event>
    decreases ClientRank(p, s)
  {
    match s
    case StartConnect => [Says(true, ClientHello)] + ClientRest(p, ReadServerHello)
    case ReadServerHello =>
      [Says(false, ServerHello)] + ClientRest(p, if p.resumed then ReadSessionTicket else ReadServerCertificate)
    case ReadServerCertificate => If(p.certCipher, Says(false, Certificate)) + ClientRest(p, ReadCertificateStatus)
    case ReadCertificateStatus => If(p.statusSent, Says(false, CertificateStatus)) + ClientRest(p, VerifyServerCertificate)
    case VerifyServerCertificate => ClientRest(p, ReadServerKeyExchange)
    case ReadServerKeyExchange => If(p.keyExchangeSent, Says(false, ServerKeyExchange)) + ClientRest(p, ReadCertificateRequest)
    case ReadCertificateRequest => If(p.certRequest, Says(false, CertificateRequest)) + ClientRest(p, ReadServerHelloDone)
    case ReadServerHelloDone => [Says(false, ServerHelloDone)] + ClientRest(p, SendClientCertificate)
    case SendClientCertificate => If(p.certRequest, Says(true, Certificate)) + ClientRest(p, SendClientKeyExchange)
    case SendClientKeyExchange => [Says(true, ClientKeyExchange)] + ClientRest(p, SendClientCertificateVerify)
    case SendClientCertificateVerify => If(p.clientCert, Says(true, CertificateVerify)) + ClientRest(p, SendClientFinished)
    case SendClientFinished =>
      [Changes(true)] + If(p.nextProto, Says(true, NextProto)) + If(p.channelId, Says(true, ChannelId))
      + [Says(true, Finished)] + ClientRest(p, FinishFlight)
    case FinishFlight => ClientRest(p, if p.resumed then FinishClientHandshake else ReadSessionTicket)
    case ReadSessionTicket =>
      If(p.ticket, Says(false, NewSessionTicket)) + [Changes(false)] + ClientRest(p, ClientProcessCcs)
    case ClientProcessCcs => ClientRest(p, ReadServerFinished)
    case ReadServerFinished =>
      [Says(false, Finished)] + ClientRest(p, if p.resumed then SendClientFinished else FinishClientHandshake)
    case FinishClientHandshake => []
    case ClientDone => []
  }

  function ServerRank(p: Params, s: ServerState): nat {
    match s
    case ReadClientHello => 18
    case SelectCertificate => 17
    case SelectParameters => 16
    case SendServerHello => 15
    case SendServerCertificate => 14
    case SendServerKeyExchange => 13
    case SendServerHelloDone => 12
    case ReadClientCertificate => 11
    case VerifyClientCertificate => 10
    case ReadClientKeyExchange => 9
    case ReadClientCertificateVerify => 8
    case ReadChangeCipherSpec => 7
    case ServerProcessCcs => 6
    case ReadNextProto => 5
    case ReadChannelId => 4
    case ReadClientFinished => 3
    case SendServerFinished => if p.resumed then 8 else 2
    case FinishServerHandshake => 1
    case ServerDone => 0
  }

  function ServerRest(p: Params, s: ServerState): seq<Event>
    decreases ServerRank(p, s)
  {
    match s
    case ReadClientHello => ServerRest(p, SelectCertificate)
    case SelectCertificate => ServerRest(p, SelectParameters)
    case SelectParameters => [Says(true, ClientHello)] + ServerRest(p, SendServerHello)
    case SendServerHello =>
      [Says(false, ServerHello)] + ServerRest(p, if p.resumed then SendServerFinished else SendServerCertificate)
    case SendServerCertificate =>
      If(p.certCipher, Says(false, Certificate)) + If(p.statusSent, Says(false, CertificateStatus))
      + ServerRest(p, SendServerKeyExchange)
    case SendServerKeyExchange => If(p.keyExchangeSent, Says(false, ServerKeyExchange)) + ServerRest(p, SendServerHelloDone)
    case SendServerHelloDone =>
      If(p.certRequest, Says(false, CertificateRequest)) + [Says(false, ServerHelloDone)] + ServerRest(p, ReadClientCertificate)
    case ReadClientCertificate => If(p.certRequest, Says(true, Certificate)) + ServerRest(p, VerifyClientCertificate)
    case VerifyClientCertificate => ServerRest(p, ReadClientKeyExchange)
    case ReadClientKeyExchange => [Says(true, ClientKeyExchange)] + ServerRest(p, ReadClientCertificateVerify)
    case ReadClientCertificateVerify => If(p.clientCert, Says(true, CertificateVerify)) + ServerRest(p, ReadChangeCipherSpec)
    case ReadChangeCipherSpec => [Changes(true)] + ServerRest(p, ServerProcessCcs)
    case ServerProcessCcs => ServerRest(p, ReadNextProto)
    case ReadNextProto => If(p.nextProto, Says(true, NextProto)) + ServerRest(p, ReadChannelId)
    case ReadChannelId => If(p.channelId, Says(true, ChannelId)) + ServerRest(p, ReadClientFinished)
    case ReadClientFinished =>
      [Says(true, Finished)] + ServerRest(p, if p.resumed then FinishServerHandshake else SendServerFinished)
    case SendServerFinished =>
      If(p.ticket, Says(false, NewSessionTicket)) + [Changes(false)] + [Says(false, Finished)]
      + ServerRest(p, if p.resumed then ReadChangeCipherSpec else FinishServerHandshake)
    case FinishServerHandshake => []
    case ServerDone => []
  }

  function TicketEvents(p: Params): seq<Event> {
    If(p.ticket, Says(false, NewSessionTicket)) + [Changes(false)]
  }

  /** The server's closing events of a full handshake. */
  lemma {:induction false} FullEnd(p: Params)
    requires !p.resumed
    ensures ClientRest(p, FinishFlight) == ServerRest(p, SendServerFinished) == TicketEvents(p) + [Says(false, Finished)]
  {
    assert ClientRest(p, ReadServerFinished) == [Says(false, Finished)];
    assert ClientRest(p, ClientProcessCcs) == [Says(false, Finished)];
    assert ClientRest(p, FinishFlight) == ClientRest(p, ReadSessionTicket);
  }

  function ClientEnd(p: Params, rest: seq<Event>): seq<Event> {
    [Changes(true)] + If(p.nextProto, Says(true, NextProto)) + If(p.channelId, Says(true, ChannelId))
    + [Says(true, Finished)] + rest
  }

  /** The client's closing events, as the server goes through them. */
  lemma {:induction false} ServerReadsEnd(p: Params)
    ensures ServerRest(p, ReadChangeCipherSpec)
         == ClientEnd(p, ServerRest(p, if p.resumed then FinishServerHandshake else SendServerFinished))
  {
    var np, id := If(p.nextProto, Says(true, NextProto)), If(p.channelId, Says(true, ChannelId));
    var last := ServerRest(p, if p.resumed then FinishServerHandshake else SendServerFinished);
    assert ServerRest(p, ReadClientFinished) == [Says(true, Finished)] + last;
    assert ServerRest(p, ReadChannelId) == id + ([Says(true, Finished)] + last);
    assert ServerRest(p, ReadNextProto) == np + (id + ([Says(true, Finished)] + last));
    assert ServerRest(p, ServerProcessCcs) == ServerRest(p, ReadNextProto);
    EndJoins([Changes(true)], np, id, [Says(true, Finished)], last);
  }

  lemma EndJoins(a: seq<Event>, b: seq<Event>, c: seq<Event>, d: seq<Event>, e: seq<Event>)
    ensures a + b + c + d + e == a + (b + (c + (d + e)))
  {
  }

  lemma {:induction false} SameFinishing(p: Params)
    requires !p.resumed
    ensures ClientRest(p, SendClientFinished) == ServerRest(p, ReadChangeCipherSpec)
  {
    hide ServerRest;
    FullEnd(p);
    ServerReadsEnd(p);
    assert ClientRest(p, SendClientFinished) == ClientEnd(p, ClientRest(p, FinishFlight));
  }

  lemma {:induction false} SameClientFlight(p: Params)
    requires !p.resumed
    ensures ClientRest(p, SendClientCertificate) == ServerRest(p, ReadClientCertificate)
  {
    SameFinishing(p);
    assert ClientRest(p, SendClientCertificateVerify) == ServerRest(p, ReadClientCertificateVerify);
    assert ClientRest(p, SendClientKeyExchange) == ServerRest(p, ReadClientKeyExchange);
    assert ServerRest(p, VerifyClientCertificate) == ServerRest(p, ReadClientKeyExchange);
  }

  lemma {:induction false} SameRequest(p: Params)
    requires !p.resumed
    ensures ServerRest(p, SendServerHelloDone) == ClientRest(p, ReadCertificateRequest)
  {
    SameClientFlight(p);
    var request := If(p.certRequest, Says(false, CertificateRequest));
    var done := [Says(false, ServerHelloDone)] + ClientRest(p, SendClientCertificate);
    assert ClientRest(p, ReadServerHelloDone) == done;
    assert request + [Says(false, ServerHelloDone)] + ClientRest(p, SendClientCertificate) == request + done;
  }

  lemma {:induction false} SameKeyExchange(p: Params)
    requires !p.resumed
    ensures ServerRest(p, SendServerKeyExchange) == ClientRest(p, ReadServerKeyExchange) == ClientRest(p, VerifyServerCertificate)
  {
    SameRequest(p);
  }

  lemma {:induction false} SameServerFlight(p: Params)
    requires !p.resumed
    ensures ClientRest(p, ReadServerCertificate) == ServerRest(p, SendServerCertificate)
  {
    SameKeyExchange(p);
    var cert, status := If(p.certCipher, Says(false, Certificate)), If(p.statusSent, Says(false, CertificateStatus));
    assert ClientRest(p, ReadCertificateStatus) == status + ServerRest(p, SendServerKeyExchange);
    assert cert + (status + ServerRest(p, SendServerKeyExchange)) == cert + status + ServerRest(p, SendServerKeyExchange);
  }

  lemma {:induction false} SameResumption(p: Params)
    requires p.resumed
    ensures ClientRest(p, ReadSessionTicket) == ServerRest(p, SendServerFinished)
  {
    ServerReadsEnd(p);
    ResumedClientEnd(p);
    assert ClientRest(p, ReadServerFinished) == [Says(false, Finished)] + ServerRest(p, ReadChangeCipherSpec);
    assert ClientRest(p, ClientProcessCcs) == ClientRest(p, ReadServerFinished);
    assert TicketEvents(p) + ([Says(false, Finished)] + ServerRest(p, ReadChangeCipherSpec))
        == TicketEvents(p) + [Says(false, Finished)] + ServerRest(p, ReadChangeCipherSpec);
  }

  lemma {:induction false} ResumedClientEnd(p: Params)
    requires p.resumed
    ensures ClientRest(p, SendClientFinished) == ClientEnd(p, ServerRest(p, FinishServerHandshake))
  {
    assert ClientRest(p, FinishFlight) == ClientRest(p, FinishClientHandshake) == [];
  }

  /** Before the first step, both sides have the same conversation before them, in the full and in the resumed order. */
  lemma {:induction false} SameConversation(p: Params)
    ensures ClientRest(p, StartConnect) == ServerRest(p, ReadClientHello)
  {
    if p.resumed { SameResumption(p); } else { SameServerFlight(p); }
    assert ClientRest(p, ReadServerHello) == ServerRest(p, SendServerHello);
    assert ServerRest(p, SelectCertificate) == ServerRest(p, SelectParameters);
  }

  // ---- the joint state ----

  datatype System = System(client: Endpoint<ClientState>, server: Endpoint<ServerState>, toServer: seq<Item>, toClient: seq<Item>)

  function InboxItems<S(==)>(e: Endpoint<S>): seq<Item> {
    if e.inbox.Some? then [Hs(e.inbox.value)] else []
  }

  /** All that one side has sent and the other has not yet dealt with: buffered there, on the way, or not yet flushed. */
  function Underway<A(==), B(==)>(from: Endpoint<A>, to: Endpoint<B>, channel: seq<Item>): seq<Item> {
    InboxItems(to) + channel + from.flight
  }

  function EventOf(fromClient: bool, i: Item): Event {
    if i.Hs? then Says(fromClient, i.msg.kind) else Changes(fromClient)
  }

  function Events(fromClient: bool, items: seq<Item>): (r: seq<Event>)
    ensures |r| == |items|
  {
    if items == [] then [] else [EventOf(fromClient, items[0])] + Events(fromClient, items[1..])
  }

  function Messages(items: seq<Item>): seq<Message> {
    if items == [] then []
    else (if items[0].Hs? then [items[0].msg] else []) + Messages(items[1..])
  }

  /** What is known about a message beyond its kind. */
  predicate ItemOk(p: Params, transcript: seq<Message>, fromClient: bool, i: Item) {
    i.Hs? ==>
      && (i.msg.kind == Finished ==> i.msg.body == p.mac(transcript, fromClient))
      && (i.msg.kind == Certificate && fromClient ==> (i.msg.body != [] <==> p.clientCert))
      && (i.msg.kind == ServerHelloDone ==> i.msg.body == [])
  }

  predicate ItemsOk(p: Params, transcript: seq<Message>, fromClient: bool, items: seq<Item>)
    decreases |items|
  {
    items != [] ==>
      ItemOk(p, transcript, fromClient, items[0])
      && ItemsOk(p, transcript + Messages([items[0]]), fromClient, items[1..])
  }

  /** One side's part in the conversation: what is left of it, and its transcript. */
  datatype Part = Part(rest: seq<Event>, transcript: seq<Message>)

  /** The sender is ahead of the receiver by exactly the items under way. */
  predicate Ahead(p: Params, fromClient: bool, sender: Part, receiver: Part, items: seq<Item>) {
    && receiver.rest == Events(fromClient, items) + sender.rest
    && sender.transcript == receiver.transcript + Messages(items)
    && ItemsOk(p, receiver.transcript, fromClient, items)
  }

  lemma {:induction false} EventsConcat(fromClient: bool, a: seq<Item>, b: seq<Item>)
    ensures Events(fromClient, a + b) == Events(fromClient, a) + Events(fromClient, b)
  {
    hide EventOf;
    if a == [] {
      assert a + b == b;
    } else {
      EventsConcat(fromClient, a[1..], b);
      assert (a + b)[1..] == a[1..] + b;
    }
  }

  lemma {:induction false} MessagesConcat(a: seq<Item>, b: seq<Item>)
    ensures Messages(a + b) == Messages(a) + Messages(b)
  {
    if a == [] {
      assert a + b == b;
    } else {
      MessagesConcat(a[1..], b);
      assert (a + b)[1..] == a[1..] + b;
      var first := if a[0].Hs? then [a[0].msg] else [];
      assert first + (Messages(a[1..]) + Messages(b)) == first + Messages(a[1..]) + Messages(b);
    }
  }

  lemma {:induction false} ItemsOkConcat(p: Params, transcript: seq<Message>, fromClient: bool, a: seq<Item>, b: seq<Item>)
    ensures ItemsOk(p, transcript, fromClient, a + b)
       <==> ItemsOk(p, transcript, fromClient, a) && ItemsOk(p, transcript + Messages(a), fromClient, b)
    decreases |a|
  {
    if a == [] {
      assert a + b == b && transcript + [] == transcript;
    } else {
      var after := transcript + Messages([a[0]]);
      ItemsOkConcat(p, after, fromClient, a[1..], b);
      assert (a + b)[1..] == a[1..] + b;
      MessagesConcat([a[0]], a[1..]);
      assert [a[0]] + a[1..] == a;
      assert after + Messages(a[1..]) == transcript + Messages(a);
    }
  }

  /** The sender sends more. */
  lemma {:induction false} Sends(p: Params, fromClient: bool, sender: Part, receiver: Part, items: seq<Item>, more: seq<Item>, next: Part)
    requires Ahead(p, fromClient, sender, receiver, items)
    requires sender.rest == Events(fromClient, more) + next.rest && next.transcript == sender.transcript + Messages(more)
    requires ItemsOk(p, sender.transcript, fromClient, more)
    ensures Ahead(p, fromClient, next, receiver, items + more)
  {
    hide ItemsOk;
    EventsConcat(fromClient, items, more);
    MessagesConcat(items, more);
    ItemsOkConcat(p, receiver.transcript, fromClient, items, more);
    assert Events(fromClient, items) + (Events(fromClient, more) + next.rest) == Events(fromClient, items) + Events(fromClient, more) + next.rest;
    assert receiver.transcript + Messages(items) + Messages(more) == receiver.transcript + (Messages(items) + Messages(more));
  }

  /** The receiver deals with the first item under way. */
  lemma {:induction false} Receives(p: Params, fromClient: bool, sender: Part, receiver: Part, items: seq<Item>, next: Part)
    requires Ahead(p, fromClient, sender, receiver, items) && items != []
    requires receiver.rest == [EventOf(fromClient, items[0])] + next.rest
    requires next.transcript == receiver.transcript + Messages([items[0]])
    ensures Ahead(p, fromClient, sender, next, items[1..])
  {
    assert receiver.rest[1..] == next.rest == Events(fromClient, items[1..]) + sender.rest;
    MessagesConcat([items[0]], items[1..]);
    assert [items[0]] + items[1..] == items;
    assert receiver.transcript + (Messages([items[0]]) + Messages(items[1..])) == next.transcript + Messages(items[1..]);
  }

  /** With nothing under way, either side may be called the sender. */
  lemma {:induction false} Level(p: Params, fromClient: bool, a: Part, b: Part)
    requires Ahead(p, fromClient, a, b, [])
    ensures a == b && Ahead(p, !fromClient, b, a, [])
  {
    assert [] + a.rest == a.rest && b.transcript + [] == b.transcript;
  }

  /** The next event of the receiver is that of the first item under way. */
  lemma NextItem(p: Params, fromClient: bool, sender: Part, receiver: Part, items: seq<Item>)
    requires Ahead(p, fromClient, sender, receiver, items) && items != []
    ensures receiver.rest != [] && receiver.rest[0] == EventOf(fromClient, items[0])
    ensures ItemOk(p, receiver.transcript, fromClient, items[0])
  {
  }

  // ---- one step of one side ----

  function ClientPart(p: Params, e: Endpoint<ClientState>): Part {
    Part((if e.wait == ReadCcs then [Changes(false)] else []) + ClientRest(p, e.state), e.transcript)
  }

  function ServerPart(p: Params, e: Endpoint<ServerState>): Part {
    Part((if e.wait == ReadCcs then [Changes(true)] else []) + ServerRest(p, e.state), e.transcript)
  }

  predicate ClientSending(s: ClientState) {
    s == SendClientKeyExchange || s == SendClientCertificateVerify || s == SendClientFinished
  }

  predicate ClientReading(s: ClientState) {
    s == ReadServerHello || s == ReadServerCertificate || s == ReadCertificateStatus || s == ReadServerKeyExchange
    || s == ReadCertificateRequest || s == ReadServerHelloDone || s == ReadSessionTicket || s == ReadServerFinished
  }

  predicate ServerSending(s: ServerState) {
    s == SendServerCertificate || s == SendServerKeyExchange || s == SendServerHelloDone || s == SendServerFinished
  }

  predicate ServerReading(s: ServerState) {
    s == ReadClientHello || s == SelectCertificate || s == SelectParameters || s == ReadClientCertificate
    || s == ReadClientKeyExchange || s == ReadClientCertificateVerify || s == ReadNextProto || s == ReadChannelId
    || s == ReadClientFinished
  }

  /** A waiting machine has nothing buffered, and something to wait for; what is written is flushed before reading. */
  predicate ClientOk(p: Params, e: Endpoint<ClientState>) {
    && e.wait != Error
    && (e.wait == ReadMessage ==> e.inbox.None? && ClientWaits(p, e.state))
    && (e.wait == ReadCcs ==> e.inbox.None? && e.state == ClientProcessCcs)
    && (e.wait != Flush && !ClientSending(e.state) ==> e.flight == [])
    && (e.state == ClientDone ==> e.wait == Ready)
    && (ClientRank(p, e.state) >= 11 ==> !e.certSeen)
    && (7 <= ClientRank(p, e.state) <= 10 ==> e.certSeen == p.certRequest)
  }

  predicate ServerOk(p: Params, e: Endpoint<ServerState>) {
    && e.wait != Error
    && (e.wait == ReadMessage ==> e.inbox.None? && ServerWaits(p, e.state))
    && (e.wait == ReadCcs ==> e.inbox.None? && e.state == ServerProcessCcs)
    && (e.wait != Flush && !ServerSending(e.state) ==> e.flight == [])
    && (e.state == ServerDone ==> e.wait == Ready)
    && (BeforeClientCertificate(e.state) ==> !e.certSeen)
    && (AfterClientCertificate(e.state) ==> e.certSeen == p.clientCert)
  }

  predicate BeforeClientCertificate(s: ServerState) {
    s == ReadClientHello || s == SelectCertificate || s == SelectParameters || s == SendServerHello
    || s == SendServerCertificate || s == SendServerKeyExchange || s == SendServerHelloDone || s == ReadClientCertificate
  }

  predicate AfterClientCertificate(s: ServerState) {
    s == VerifyClientCertificate || s == ReadClientKeyExchange || s == ReadClientCertificateVerify
  }

  /** In these states the next event is a message from the peer. */
  predicate ClientWaits(p: Params, s: ClientState) {
    ClientReading(s) && (s == ReadServerCertificate ==> p.certCipher) && (s == ReadSessionTicket ==> p.ticket)
    && (s == ReadCertificateRequest ==> p.certCipher)
  }

  predicate ServerWaits(p: Params, s: ServerState) {
    ServerReading(s) && (s == ReadClientCertificate ==> p.certRequest) && (s == ReadClientCertificateVerify ==> p.clientCert)
    && (s == ReadNextProto ==> p.nextProto) && (s == ReadChannelId ==> p.channelId)
  }

  lemma {:induction false} ClientWaitsForMessage(p: Params, s: ClientState)
    requires ClientWaits(p, s)
    ensures ClientRest(p, s) != [] && ClientRest(p, s)[0].Says? && !ClientRest(p, s)[0].fromClient
    decreases ClientRank(p, s)
  {
    if s == ReadCertificateStatus {
      assert ClientRest(p, VerifyServerCertificate) == ClientRest(p, ReadServerKeyExchange);
      ClientWaitsForMessage(p, ReadServerKeyExchange);
    } else if s == ReadServerKeyExchange {
      assert ClientRest(p, ReadServerHelloDone) == [Says(false, ServerHelloDone)] + ClientRest(p, SendClientCertificate);
    }
  }

  lemma {:induction false} ServerWaitsForMessage(p: Params, s: ServerState)
    requires ServerWaits(p, s)
    ensures ServerRest(p, s) != [] && ServerRest(p, s)[0].Says? && ServerRest(p, s)[0].fromClient
    decreases ServerRank(p, s)
  {
    if s == ReadClientHello {
      ServerWaitsForMessage(p, SelectCertificate);
    } else if s == SelectCertificate {
      ServerWaitsForMessage(p, SelectParameters);
    }
  }

  /** Nothing of the conversation happens. */
  predicate Quiet<S(==)>(e: Endpoint<S>, next: Endpoint<S>, before: Part, after: Part) {
    before == after && next.inbox == e.inbox && next.flight == e.flight
  }

  /** The buffered message is dealt with. */
  predicate Takes<S(==)>(e: Endpoint<S>, next: Endpoint<S>, before: Part, after: Part) {
    && e.inbox.Some? && next.inbox.None? && next.flight == e.flight
    && before.rest != [] && before.rest[1..] == after.rest
    && after.transcript == before.transcript + [e.inbox.value]
  }

  /** Messages are written. */
  predicate Writes<S(==)>(p: Params, fromClient: bool, e: Endpoint<S>, next: Endpoint<S>, before: Part, after: Part) {
    && next.inbox == e.inbox && e.flight < next.flight
    && (var more := next.flight[|e.flight|..];
        && before.rest == Events(fromClient, more) + after.rest
        && after.transcript == before.transcript + Messages(more)
        && ItemsOk(p, before.transcript, fromClient, more))
  }

  /** The buffered message, if there is one, is the next event. */
  predicate InboxIsNext<S(==)>(p: Params, fromClient: bool, e: Endpoint<S>, part: Part) {
    e.inbox.Some? ==>
      && part.rest != [] && part.rest[0] == Says(fromClient, e.inbox.value.kind)
      && ItemOk(p, part.transcript, fromClient, Hs(e.inbox.value))
  }

  predicate Transition<S(==)>(p: Params, fromClient: bool, e: Endpoint<S>, next: Endpoint<S>, before: Part, after: Part) {
    Quiet(e, next, before, after) || Takes(e, next, before, after) || Writes(p, fromClient, e, next, before, after)
  }

  /** One message written. */
  lemma {:induction false} WritesOne<S>(p: Params, fromClient: bool, e: Endpoint<S>, next: Endpoint<S>, before: Part, after: Part, kind: Kind, body: seq<byte>)
    requires next.inbox == e.inbox && next.flight == e.flight + [Hs(Message(kind, body))]
    requires before.rest == [Says(fromClient, kind)] + after.rest && after.transcript == before.transcript + [Message(kind, body)]
    requires ItemOk(p, before.transcript, fromClient, Hs(Message(kind, body)))
    ensures Writes(p, fromClient, e, next, before, after)
  {
    var more := [Hs(Message(kind, body))];
    assert next.flight[|e.flight|..] == more;
    assert Events(fromClient, more) == [Says(fromClient, kind)] + Events(fromClient, []);
    assert Messages(more) == [Message(kind, body)];
  }

  /** The expected message taken. */
  lemma {:induction false} TakesOne<S>(fromClient: bool, e: Endpoint<S>, next: Endpoint<S>, before: Part, after: Part)
    requires e.inbox.Some? && next.inbox.None? && next.flight == e.flight
    requires before.rest == [Says(fromClient, e.inbox.value.kind)] + after.rest
    requires after.transcript == before.transcript + [e.inbox.value]
    ensures Takes(e, next, before, after)
  {
    assert before.rest[1..] == after.rest;
  }

  predicate ClientStepOk(p: Params, e: Endpoint<ClientState>, next: Endpoint<ClientState>) {
    ClientOk(p, next) && Transition(p, true, e, next, ClientPart(p, e), ClientPart(p, next))
  }

  predicate ClientMayRead(p: Params, e: Endpoint<ClientState>) {
    p.Valid() && e.wait == Ready && ClientOk(p, e) && InboxIsNext(p, false, e, ClientPart(p, e))
  }

  /** A message that is always there: the machine waits for it, or takes it. */
  lemma {:induction false} ClientExpects(p: Params, e: Endpoint<ClientState>, kind: Kind, then': ClientState)
    requires ClientMayRead(p, e) && ClientWaits(p, e.state) && e.state != ClientDone && ClientOk(p, e.Go(then'))
    requires ClientRest(p, e.state) == [Says(false, kind)] + ClientRest(p, then')
    ensures ClientStepOk(p, e, e.Expect(kind, then'))
  {
    hide ClientRest, Writes, ItemOk, ClientRank, ClientWaits, ClientSending, Params.Valid;
    var next := e.Expect(kind, then');
    NoPrefix(ClientRest(p, e.state));
    NoPrefix(ClientRest(p, then'));
    if e.inbox.Some? {
      TakesOne(false, e, next, ClientPart(p, e), ClientPart(p, next));
    }
  }

  lemma NoPrefix(rest: seq<Event>)
    ensures [] + rest == rest
  {
  }

  lemma {:induction false} ClientReadsHello(p: Params, e: Endpoint<ClientState>, c: Choice)
    requires ClientMayRead(p, e) && (e.state == ReadServerHello || e.state == ReadServerCertificate)
    ensures ClientStepOk(p, e, ClientAct(p, e, c))
  {
    hide Writes, InboxIsNext, Takes;
    if e.state == ReadServerHello {
      ClientExpects(p, e, ServerHello, if p.resumed then ReadSessionTicket else ReadServerCertificate);
    } else if p.certCipher {
      ClientExpects(p, e, Certificate, ReadCertificateStatus);
    }
  }

  lemma StatusRest(p: Params)
    ensures ClientRest(p, ReadCertificateStatus) == If(p.statusSent, Says(false, CertificateStatus)) + ClientRest(p, VerifyServerCertificate)
  {
  }

  /** A message that may be left out: if another one is there instead, it is left for the next state. */
  lemma {:induction false} ClientTakesIf(p: Params, e: Endpoint<ClientState>, sent: bool, kind: Kind, then': ClientState, next: Endpoint<ClientState>)
    requires ClientMayRead(p, e) && e.inbox.Some? && ClientOk(p, e.Go(then')) && next.state == then' && next.wait == Ready
    requires ClientRest(p, e.state) == If(sent, Says(false, kind)) + ClientRest(p, then')
    requires next.flight == e.flight && ClientOk(p, next)
    requires if e.inbox.value.kind == kind && sent
      then next.inbox.None? && next.transcript == e.transcript + [e.inbox.value]
      else next.inbox == e.inbox && next.transcript == e.transcript
    ensures ClientStepOk(p, e, next)
  {
    hide ClientRest, Writes, ItemOk, ClientRank, ClientWaits, ClientSending, Params.Valid, ClientOk;
    NoPrefix(ClientRest(p, e.state));
    NoPrefix(ClientRest(p, then'));
    if sent {
      TakesOne(false, e, next, ClientPart(p, e), ClientPart(p, next));
    }
  }

  lemma {:induction false} ClientReadsStatus(p: Params, e: Endpoint<ClientState>, c: Choice)
    requires ClientMayRead(p, e) && e.state == ReadCertificateStatus
    ensures ClientStepOk(p, e, ClientAct(p, e, c))
  {
    hide ClientRest, Writes, Takes, ItemOk;
    var next := ClientAct(p, e, c);
    StatusRest(p);
    VerifyRest(p);
    NoPrefix(ClientRest(p, VerifyServerCertificate));
    if p.statusExpected && e.inbox.Some? {
      if e.inbox.value.kind == CertificateStatus && !p.statusSent { NoStatus(p); }
      ClientTakesIf(p, e, p.statusSent, CertificateStatus, VerifyServerCertificate, next);
    }
  }

  lemma VerifyRest(p: Params)
    ensures ClientRest(p, VerifyServerCertificate) == ClientRest(p, ReadServerKeyExchange)
  {
  }

  /** What follows an omitted status, key exchange or request is something else. */
  lemma {:induction false} NoStatus(p: Params)
    ensures ClientRest(p, ReadServerHelloDone) != [] && ClientRest(p, ReadServerHelloDone)[0] == Says(false, ServerHelloDone)
    ensures ClientRest(p, ReadCertificateRequest) != []
    ensures ClientRest(p, ReadCertificateRequest)[0] == Says(false, if p.certRequest then CertificateRequest else ServerHelloDone)
    ensures ClientRest(p, ReadServerKeyExchange) != []
    ensures ClientRest(p, ReadServerKeyExchange)[0]
         == if p.keyExchangeSent then Says(false, ServerKeyExchange) else ClientRest(p, ReadCertificateRequest)[0]
  {
    assert ClientRest(p, ReadServerHelloDone) == [Says(false, ServerHelloDone)] + ClientRest(p, SendClientCertificate);
    assert ClientRest(p, ReadCertificateRequest) == If(p.certRequest, Says(false, CertificateRequest)) + ClientRest(p, ReadServerHelloDone);
  }

  lemma KeyExchangeRest(p: Params)
    ensures ClientRest(p, ReadServerKeyExchange) == If(p.keyExchangeSent, Says(false, ServerKeyExchange)) + ClientRest(p, ReadCertificateRequest)
    ensures ClientRest(p, ReadCertificateRequest) == If(p.certRequest, Says(false, CertificateRequest)) + ClientRest(p, ReadServerHelloDone)
  {
  }

  lemma {:induction false} ClientReadsKeyExchange(p: Params, e: Endpoint<ClientState>, c: Choice)
    requires ClientMayRead(p, e) && e.state == ReadServerKeyExchange
    ensures ClientStepOk(p, e, ClientAct(p, e, c))
  {
    hide ClientRest, Writes, Takes, ItemOk, ClientAct, ClientOk, InboxIsNext, Transition;
    KeyExchangeRest(p);
    KeyExchangeAct(p, e, c);
    if e.inbox.Some? {
      ClientTakesIf(p, e, p.keyExchangeSent, ServerKeyExchange, ReadCertificateRequest, ClientAct(p, e, c));
    } else {
      WaitsForKeyExchange(p, e, c);
    }
  }

  lemma {:induction false} KeyExchangeAct(p: Params, e: Endpoint<ClientState>, c: Choice)
    requires ClientMayRead(p, e) && e.state == ReadServerKeyExchange
    ensures ClientOk(p, e.Go(ReadCertificateRequest))
    ensures e.inbox.Some? ==> var next := ClientAct(p, e, c);
      && next.state == ReadCertificateRequest && next.wait == Ready && next.flight == e.flight && ClientOk(p, next)
      && (if e.inbox.value.kind == ServerKeyExchange && p.keyExchangeSent
          then next.inbox.None? && next.transcript == e.transcript + [e.inbox.value]
          else next.inbox == e.inbox && next.transcript == e.transcript)
  {
    hide ClientRest, ItemOk;
    NoStatus(p);
    NoPrefix(ClientRest(p, ReadServerKeyExchange));
  }

  lemma WaitsForKeyExchange(p: Params, e: Endpoint<ClientState>, c: Choice)
    requires ClientMayRead(p, e) && e.state == ReadServerKeyExchange && e.inbox.None?
    ensures ClientStepOk(p, e, ClientAct(p, e, c))
  {
    hide ClientRest, Writes, Takes, ItemOk;
  }

  lemma {:induction false} RequestOrDone(p: Params, e: Endpoint<ClientState>)
    requires ClientMayRead(p, e) && e.state == ReadCertificateRequest && e.inbox.Some?
    ensures e.inbox.value.kind == if p.certRequest then CertificateRequest else ServerHelloDone
  {
    hide ClientRest, ItemOk, ClientOk;
    NoStatus(p);
    NoPrefix(ClientRest(p, ReadCertificateRequest));
  }

  lemma RequestLeavesOk(p: Params, e: Endpoint<ClientState>, c: Choice)
    requires p.Valid() && e.wait == Ready && ClientOk(p, e) && e.state == ReadCertificateRequest
    requires e.inbox.Some? ==> e.inbox.value.kind == if p.certRequest then CertificateRequest else ServerHelloDone
    ensures ClientOk(p, ClientAct(p, e, c)) && ClientOk(p, e.Go(ReadServerHelloDone).(certSeen := p.certRequest))
    ensures e.inbox.Some? && p.certCipher ==> var next := ClientAct(p, e, c);
      next.state == ReadServerHelloDone && next.wait == Ready && next.flight == e.flight
      && (if p.certRequest then next.inbox.None? && next.transcript == e.transcript + [e.inbox.value]
          else next.inbox == e.inbox && next.transcript == e.transcript)
  {
  }

  lemma {:induction false} ClientReadsRequest(p: Params, e: Endpoint<ClientState>, c: Choice)
    requires ClientMayRead(p, e) && e.state == ReadCertificateRequest
    ensures ClientStepOk(p, e, ClientAct(p, e, c))
  {
    hide ClientRest, Writes, ItemOk, ClientOk, InboxIsNext;
    var next := ClientAct(p, e, c);
    if e.inbox.Some? { RequestOrDone(p, e); }
    RequestLeavesOk(p, e, c);
    KeyExchangeRest(p);
    NoPrefix(ClientRest(p, ReadCertificateRequest));
    NoPrefix(ClientRest(p, ReadServerHelloDone));
    if p.certCipher && e.inbox.Some? && p.certRequest {
      TakesOne(false, e, next, ClientPart(p, e), ClientPart(p, next));
    }
  }

  lemma {:induction false} ClientReadsDone(p: Params, e: Endpoint<ClientState>, c: Choice)
    requires ClientMayRead(p, e) && e.state == ReadServerHelloDone
    ensures ClientStepOk(p, e, ClientAct(p, e, c))
  {
    hide Writes, Takes;
    NoPrefix(ClientRest(p, ReadServerHelloDone));
    ClientExpects(p, e, ServerHelloDone, SendClientCertificate);
  }

  lemma {:induction false} ClientReadsFinished(p: Params, e: Endpoint<ClientState>, c: Choice)
    requires ClientMayRead(p, e) && e.state == ReadServerFinished
    ensures ClientStepOk(p, e, ClientAct(p, e, c))
  {
    hide Writes, Takes;
    NoPrefix(ClientRest(p, ReadServerFinished));
    ClientExpects(p, e, Finished, if p.resumed then SendClientFinished else FinishClientHandshake);
  }

  lemma {:induction false} TicketRest(p: Params)
    ensures ClientRest(p, ReadSessionTicket)
         == If(p.ticket, Says(false, NewSessionTicket)) + ([Changes(false)] + ClientRest(p, ClientProcessCcs))
  {
    EndJoins(If(p.ticket, Says(false, NewSessionTicket)), [Changes(false)], ClientRest(p, ClientProcessCcs), [], []);
  }

  lemma TicketLeavesOk(p: Params, e: Endpoint<ClientState>, c: Choice)
    requires p.Valid() && e.wait == Ready && ClientOk(p, e) && e.state == ReadSessionTicket
    requires p.ticket && e.inbox.Some? ==> e.inbox.value.kind == NewSessionTicket
    requires !p.ticket ==> e.inbox.None?
    ensures ClientOk(p, ClientAct(p, e, c))
  {
  }

  lemma {:induction false} TicketThere(p: Params, e: Endpoint<ClientState>)
    requires ClientMayRead(p, e) && e.state == ReadSessionTicket
    ensures p.ticket && e.inbox.Some? ==> e.inbox.value.kind == NewSessionTicket
    ensures !p.ticket ==> e.inbox.None?
  {
    hide ClientRest, ItemOk, ClientOk;
    TicketRest(p);
    NoPrefix(ClientRest(p, ReadSessionTicket));
  }

  lemma {:induction false} ClientReadsTicket(p: Params, e: Endpoint<ClientState>, c: Choice)
    requires ClientMayRead(p, e) && e.state == ReadSessionTicket
    ensures ClientStepOk(p, e, ClientAct(p, e, c))
  {
    hide ClientRest, Writes, ItemOk, ClientOk, InboxIsNext;
    var next := ClientAct(p, e, c);
    TicketThere(p, e);
    TicketLeavesOk(p, e, c);
    TicketRest(p);
    NoPrefix(ClientRest(p, ReadSessionTicket));
    NoPrefix([Changes(false)] + ClientRest(p, ClientProcessCcs));
    if p.ticket && e.inbox.Some? {
      TakesOne(false, e, next, ClientPart(p, e), ClientPart(p, next));
    }
  }

  lemma ClientGoesOn(p: Params, e: Endpoint<ClientState>, c: Choice)
    requires p.Valid() && e.wait == Ready && ClientOk(p, e)
    requires e.state == VerifyServerCertificate || e.state == FinishFlight || e.state == ClientProcessCcs
      || e.state == FinishClientHandshake || e.state == ClientDone
    ensures ClientStepOk(p, e, ClientAct(p, e, c))
  {
    hide Writes;
  }

  lemma {:induction false} ClientWritesHello(p: Params, e: Endpoint<ClientState>, c: Choice)
    requires p.Valid() && e.wait == Ready && ClientOk(p, e) && (e.state == StartConnect || e.state == SendClientKeyExchange)
    ensures ClientStepOk(p, e, ClientAct(p, e, c))
  {
    hide Writes;
    var next := ClientAct(p, e, c);
    WritesOne(p, true, e, next, ClientPart(p, e), ClientPart(p, next),
              if e.state == StartConnect then ClientHello else ClientKeyExchange, c.body);
  }

  lemma {:induction false} ClientWritesCertificate(p: Params, e: Endpoint<ClientState>, c: Choice)
    requires p.Valid() && e.wait == Ready && ClientOk(p, e) && e.state == SendClientCertificate
    ensures ClientStepOk(p, e, ClientAct(p, e, c))
  {
    hide ClientRest, Writes, Takes;
    var next := ClientAct(p, e, c);
    CertificateRest(p);
    NoPrefix(ClientRest(p, SendClientCertificate));
    NoPrefix(ClientRest(p, SendClientKeyExchange));
    if p.certRequest && !c.retry {
      WritesOne(p, true, e, next, ClientPart(p, e), ClientPart(p, next), Certificate, if p.clientCert then c.Chain() else []);
    }
  }

  lemma CertificateRest(p: Params)
    ensures ClientRest(p, SendClientCertificate) == If(p.certRequest, Says(true, Certificate)) + ClientRest(p, SendClientKeyExchange)
    ensures ClientRest(p, SendClientCertificateVerify) == If(p.clientCert, Says(true, CertificateVerify)) + ClientRest(p, SendClientFinished)
  {
  }

  lemma {:induction false} ClientWritesVerify(p: Params, e: Endpoint<ClientState>, c: Choice)
    requires p.Valid() && e.wait == Ready && ClientOk(p, e) && e.state == SendClientCertificateVerify
    ensures ClientStepOk(p, e, ClientAct(p, e, c))
  {
    hide ClientRest, Writes, Takes;
    var next := ClientAct(p, e, c);
    CertificateRest(p);
    NoPrefix(ClientRest(p, SendClientCertificateVerify));
    NoPrefix(ClientRest(p, SendClientFinished));
    if p.clientCert && !c.retry {
      WritesOne(p, true, e, next, ClientPart(p, e), ClientPart(p, next), CertificateVerify, c.body);
    }
  }

  // ---- several messages in one step ----

  /** From `a` to `b`, these events were written, one after the other. */
  predicate Wrote<S(==)>(p: Params, fromClient: bool, a: Endpoint<S>, b: Endpoint<S>, events: seq<Event>) {
    && b.inbox == a.inbox && a.flight <= b.flight
    && (var more := b.flight[|a.flight|..];
        Events(fromClient, more) == events && b.transcript == a.transcript + Messages(more)
        && ItemsOk(p, a.transcript, fromClient, more))
  }

  lemma {:induction false} WroteThen<S>(p: Params, fromClient: bool, a: Endpoint<S>, b: Endpoint<S>, c: Endpoint<S>, x: seq<Event>, y: seq<Event>)
    requires Wrote(p, fromClient, a, b, x) && Wrote(p, fromClient, b, c, y)
    ensures Wrote(p, fromClient, a, c, x + y)
  {
    hide Events, Messages, ItemsOk;
    var m, n := b.flight[|a.flight|..], c.flight[|b.flight|..];
    assert c.flight[|a.flight|..] == m + n;
    EventsConcat(fromClient, m, n);
    MessagesConcat(m, n);
    ItemsOkConcat(p, a.transcript, fromClient, m, n);
    assert a.transcript + Messages(m) + Messages(n) == a.transcript + (Messages(m) + Messages(n));
  }

  lemma {:induction false} WroteItem<S>(p: Params, fromClient: bool, a: Endpoint<S>, b: Endpoint<S>, i: Item)
    requires b.inbox == a.inbox && b.flight == a.flight + [i] && b.transcript == a.transcript + (if i.Hs? then [i.msg] else [])
    requires ItemOk(p, a.transcript, fromClient, i)
    ensures Wrote(p, fromClient, a, b, [EventOf(fromClient, i)])
  {
    assert b.flight[|a.flight|..] == [i];
    assert Events(fromClient, [i]) == [EventOf(fromClient, i)] + Events(fromClient, []);
    assert Messages([i]) == (if i.Hs? then [i.msg] else []) + Messages([]);
  }

  lemma {:induction false} WroteIf<S>(p: Params, fromClient: bool, a: Endpoint<S>, b: bool, kind: Kind, body: seq<byte>)
    requires b ==> ItemOk(p, a.transcript, fromClient, Hs(Message(kind, body)))
    ensures Wrote(p, fromClient, a, a.SendIf(b, kind, body), If(b, Says(fromClient, kind)))
  {
    if b {
      WroteItem(p, fromClient, a, a.Send(kind, body), Hs(Message(kind, body)));
    } else {
      assert a.flight[|a.flight|..] == [] && a.transcript + [] == a.transcript;
    }
  }

  lemma {:induction false} WroteCcs<S>(p: Params, fromClient: bool, a: Endpoint<S>)
    ensures Wrote(p, fromClient, a, a.SendCcs(), [Changes(fromClient)])
  {
    assert a.transcript + [] == a.transcript;
    WroteItem(p, fromClient, a, a.SendCcs(), Ccs);
  }

  lemma {:induction false} WroteFinished<S>(p: Params, fromClient: bool, a: Endpoint<S>)
    ensures Wrote(p, fromClient, a, SendFinished(p, a, fromClient), [Says(fromClient, Finished)])
  {
    WroteItem(p, fromClient, a, SendFinished(p, a, fromClient), Hs(Message(Finished, p.mac(a.transcript, fromClient))));
  }

  lemma {:induction false} WroteIsStep<S>(p: Params, fromClient: bool, e: Endpoint<S>, next: Endpoint<S>, events: seq<Event>, before: Part, after: Part)
    requires Wrote(p, fromClient, e, next, events) && before.transcript == e.transcript && after.transcript == next.transcript
    requires before.rest == events + after.rest
    ensures Transition(p, fromClient, e, next, before, after)
  {
    if events == [] {
      assert next.flight == e.flight;
      NoPrefix(after.rest);
      assert e.transcript + [] == e.transcript;
    }
  }

  function ClientFinishing(p: Params, e: Endpoint<ClientState>, c: Choice): Endpoint<ClientState> {
    SendFinished(p, e.SendCcs().SendIf(p.nextProto, NextProto, c.body).SendIf(p.channelId, ChannelId, c.extra), true)
  }

  lemma {:induction false} ClientFinishingWrote(p: Params, e: Endpoint<ClientState>, c: Choice)
    ensures Wrote(p, true, e, ClientFinishing(p, e, c),
      [Changes(true)] + If(p.nextProto, Says(true, NextProto)) + If(p.channelId, Says(true, ChannelId)) + [Says(true, Finished)])
  {
    hide Wrote, If;
    var a := e.SendCcs();
    var b := a.SendIf(p.nextProto, NextProto, c.body);
    var d := b.SendIf(p.channelId, ChannelId, c.extra);
    WroteCcs(p, true, e);
    WroteIf(p, true, a, p.nextProto, NextProto, c.body);
    WroteIf(p, true, b, p.channelId, ChannelId, c.extra);
    WroteFinished(p, true, d);
    WroteThen(p, true, e, a, b, [Changes(true)], If(p.nextProto, Says(true, NextProto)));
    WroteThen(p, true, e, b, d, [Changes(true)] + If(p.nextProto, Says(true, NextProto)), If(p.channelId, Says(true, ChannelId)));
    WroteThen(p, true, e, d, SendFinished(p, d, true),
              [Changes(true)] + If(p.nextProto, Says(true, NextProto)) + If(p.channelId, Says(true, ChannelId)), [Says(true, Finished)]);
  }

  /** The next state does not matter for what was written. */
  lemma WroteState<S>(p: Params, fromClient: bool, a: Endpoint<S>, b: Endpoint<S>, next: Endpoint<S>, events: seq<Event>)
    requires Wrote(p, fromClient, a, b, events) && next.flight == b.flight && next.inbox == b.inbox && next.transcript == b.transcript
    ensures Wrote(p, fromClient, a, next, events)
  {
  }

  lemma {:induction false} ClientWritesFinished(p: Params, e: Endpoint<ClientState>, c: Choice)
    requires p.Valid() && e.wait == Ready && ClientOk(p, e) && e.state == SendClientFinished
    ensures ClientStepOk(p, e, ClientAct(p, e, c))
  {
    hide Writes, Takes, Wrote, If, Transition;
    var next := ClientAct(p, e, c);
    if !(p.channelId && c.retry) {
      ClientFinishingWrote(p, e, c);
      var events := [Changes(true)] + If(p.nextProto, Says(true, NextProto)) + If(p.channelId, Says(true, ChannelId)) + [Says(true, Finished)];
      WroteState(p, true, e, ClientFinishing(p, e, c), next, events);
      NoPrefix(ClientRest(p, SendClientFinished));
      NoPrefix(ClientRest(p, FinishFlight));
      WroteIsStep(p, true, e, next, events, ClientPart(p, e), ClientPart(p, next));
    } else {
      QuietIsStep(p, true, e, next, ClientPart(p, e), ClientPart(p, next));
    }
  }

  lemma QuietIsStep<S>(p: Params, fromClient: bool, e: Endpoint<S>, next: Endpoint<S>, before: Part, after: Part)
    requires Quiet(e, next, before, after)
    ensures Transition(p, fromClient, e, next, before, after)
  {
    hide Writes, Takes;
  }

  /** Whatever the client does next, it is in step with the conversation, and does not fail. */
  lemma {:induction false} ClientActs(p: Params, e: Endpoint<ClientState>, c: Choice)
    requires p.Valid() && e.wait == Ready && ClientOk(p, e) && InboxIsNext(p, false, e, ClientPart(p, e))
    ensures ClientStepOk(p, e, ClientAct(p, e, c))
  {
    hide ClientStepOk, ClientAct, ClientOk, InboxIsNext, Params.Valid;
    match e.state
    case ReadServerHello | ReadServerCertificate => ClientReadsHello(p, e, c);
    case ReadCertificateStatus => ClientReadsStatus(p, e, c);
    case ReadServerKeyExchange => ClientReadsKeyExchange(p, e, c);
    case ReadCertificateRequest => ClientReadsRequest(p, e, c);
    case ReadServerHelloDone => ClientReadsDone(p, e, c);
    case ReadSessionTicket => ClientReadsTicket(p, e, c);
    case ReadServerFinished => ClientReadsFinished(p, e, c);
    case StartConnect | SendClientKeyExchange => ClientWritesHello(p, e, c);
    case SendClientCertificate => ClientWritesCertificate(p, e, c);
    case SendClientCertificateVerify => ClientWritesVerify(p, e, c);
    case SendClientFinished => ClientWritesFinished(p, e, c);
    case _ => ClientGoesOn(p, e, c);
  }

  // ---- the same for the server ----

  predicate ServerStepOk(p: Params, e: Endpoint<ServerState>, next: Endpoint<ServerState>) {
    ServerOk(p, next) && Transition(p, false, e, next, ServerPart(p, e), ServerPart(p, next))
  }

  predicate ServerMayRead(p: Params, e: Endpoint<ServerState>) {
    p.Valid() && e.wait == Ready && ServerOk(p, e) && InboxIsNext(p, true, e, ServerPart(p, e))
  }

  lemma HelloRest(p: Params)
    ensures ServerRest(p, ReadClientHello) == ServerRest(p, SelectCertificate) == ServerRest(p, SelectParameters)
    ensures ServerRest(p, SelectParameters) == [Says(true, ClientHello)] + ServerRest(p, SendServerHello)
  {
  }

  /** The ClientHello is looked at in two states before it is dealt with in a third. */
  lemma {:induction false} ServerPeeksHello(p: Params, e: Endpoint<ServerState>, c: Choice)
    requires ServerMayRead(p, e) && (e.state == ReadClientHello || e.state == SelectCertificate)
    ensures ServerStepOk(p, e, ServerAct(p, e, c))
  {
    hide ServerRest, Writes, Takes, ItemOk, InboxIsNext;
    HelloRest(p);
    HelloKind(p, e);
  }

  lemma {:induction false} ServerReadsHello(p: Params, e: Endpoint<ServerState>, c: Choice)
    requires ServerMayRead(p, e) && e.state == SelectParameters
    ensures ServerStepOk(p, e, ServerAct(p, e, c))
  {
    hide ServerRest, Writes, Takes, ItemOk, InboxIsNext;
    HelloRest(p);
    HelloKind(p, e);
    if e.inbox.None? || !c.retry {
      ServerExpects(p, e, ClientHello, SendServerHello);
    }
  }

  lemma {:induction false} HelloKind(p: Params, e: Endpoint<ServerState>)
    requires ServerMayRead(p, e) && (e.state == ReadClientHello || e.state == SelectCertificate || e.state == SelectParameters)
    ensures e.inbox.Some? ==> e.inbox.value.kind == ClientHello
  {
    hide ServerRest, ItemOk, ServerOk;
    HelloRest(p);
    BufferedKind(p, e, ClientHello, SendServerHello);
  }

  /** A message that is always there: the machine waits for it, or takes it. */
  lemma {:induction false} ServerExpects(p: Params, e: Endpoint<ServerState>, kind: Kind, then': ServerState)
    requires ServerMayRead(p, e) && ServerWaits(p, e.state) && e.state != ServerDone && ServerOk(p, e.Go(then'))
    requires ServerRest(p, e.state) == [Says(true, kind)] + ServerRest(p, then')
    ensures ServerStepOk(p, e, e.Expect(kind, then'))
  {
    hide ServerRest, Writes, ItemOk, ServerWaits, ServerSending, Params.Valid, BeforeClientCertificate, AfterClientCertificate;
    var next := e.Expect(kind, then');
    NoPrefix(ServerRest(p, e.state));
    NoPrefix(ServerRest(p, then'));
    if e.inbox.Some? {
      TakesOne(true, e, next, ServerPart(p, e), ServerPart(p, next));
    }
  }

  lemma {:induction false} ClientCertificateRest(p: Params)
    ensures ServerRest(p, ReadClientCertificate)
         == if p.certRequest then [Says(true, Certificate)] + ServerRest(p, VerifyClientCertificate) else ServerRest(p, VerifyClientCertificate)
  {
    NoPrefix(ServerRest(p, VerifyClientCertificate));
  }

  /** The client's certificate is empty exactly when it has none. */
  lemma {:induction false} CertificateBuffered(p: Params, e: Endpoint<ServerState>)
    requires ServerMayRead(p, e) && e.state == ReadClientCertificate && p.certRequest && e.inbox.Some?
    ensures e.inbox.value.kind == Certificate && (e.inbox.value.body != [] <==> p.clientCert)
  {
    hide ServerRest, ServerOk;
    ClientCertificateRest(p);
    BufferedKind(p, e, Certificate, VerifyClientCertificate);
  }

  lemma {:induction false} ServerReadsCertificate(p: Params, e: Endpoint<ServerState>, c: Choice)
    requires ServerMayRead(p, e) && e.state == ReadClientCertificate
    ensures ServerStepOk(p, e, ServerAct(p, e, c))
  {
    hide ServerRest, Writes, Takes, InboxIsNext, If;
    var next := ServerAct(p, e, c);
    ClientCertificateRest(p);
    NoPrefix(ServerRest(p, ReadClientCertificate));
    NoPrefix(ServerRest(p, VerifyClientCertificate));
    if p.certRequest && e.inbox.Some? {
      CertificateBuffered(p, e);
      TakesOne(true, e, next, ServerPart(p, e), ServerPart(p, next));
    }
  }

  lemma {:induction false} ServerReadsKeyExchange(p: Params, e: Endpoint<ServerState>, c: Choice)
    requires ServerMayRead(p, e) && e.state == ReadClientKeyExchange
    ensures ServerStepOk(p, e, ServerAct(p, e, c))
  {
    hide ServerRest, Writes, Takes, ItemOk, InboxIsNext;
    KeyExchangeNext(p);
    BufferedKind(p, e, ClientKeyExchange, ReadClientCertificateVerify);
    NoPrefix(ServerRest(p, ReadClientKeyExchange));
    if e.inbox.None? || !c.retry {
      ServerExpects(p, e, ClientKeyExchange, ReadClientCertificateVerify);
    }
  }

  lemma KeyExchangeNext(p: Params)
    ensures ServerRest(p, ReadClientKeyExchange) == [Says(true, ClientKeyExchange)] + ServerRest(p, ReadClientCertificateVerify)
  {
  }

  lemma {:induction false} BufferedKind(p: Params, e: Endpoint<ServerState>, kind: Kind, then': ServerState)
    requires ServerMayRead(p, e) && ServerRest(p, e.state) == [Says(true, kind)] + ServerRest(p, then')
    ensures e.inbox.Some? ==> e.inbox.value.kind == kind
  {
    hide ServerRest, ItemOk, ServerOk;
    NoPrefix(ServerRest(p, e.state));
  }

  lemma {:induction false} ServerReadsVerify(p: Params, e: Endpoint<ServerState>, c: Choice)
    requires ServerMayRead(p, e) && e.state == ReadClientCertificateVerify
    ensures ServerStepOk(p, e, ServerAct(p, e, c))
  {
    hide Writes, Takes;
    NoPrefix(ServerRest(p, ReadChangeCipherSpec));
    if p.clientCert {
      ServerExpects(p, e, CertificateVerify, ReadChangeCipherSpec);
    }
  }

  lemma {:induction false} ServerReadsExtras(p: Params, e: Endpoint<ServerState>, c: Choice)
    requires ServerMayRead(p, e) && (e.state == ReadNextProto || e.state == ReadChannelId)
    ensures ServerStepOk(p, e, ServerAct(p, e, c))
  {
    hide Writes, Takes;
    if e.state == ReadNextProto && p.nextProto {
      ServerExpects(p, e, NextProto, ReadChannelId);
    } else if e.state == ReadChannelId && p.channelId {
      ServerExpects(p, e, ChannelId, ReadClientFinished);
    } else {
      NoPrefix(ServerRest(p, ReadChannelId));
      NoPrefix(ServerRest(p, ReadClientFinished));
    }
  }

  lemma {:induction false} ServerReadsFinished(p: Params, e: Endpoint<ServerState>, c: Choice)
    requires ServerMayRead(p, e) && e.state == ReadClientFinished
    ensures ServerStepOk(p, e, ServerAct(p, e, c))
  {
    hide Writes, Takes;
    NoPrefix(ServerRest(p, ReadClientFinished));
    ServerExpects(p, e, Finished, if p.resumed then FinishServerHandshake else SendServerFinished);
  }

  lemma ServerGoesOn(p: Params, e: Endpoint<ServerState>, c: Choice)
    requires p.Valid() && e.wait == Ready && ServerOk(p, e) && InboxIsNext(p, true, e, ServerPart(p, e))
    requires e.state == ServerProcessCcs || e.state == FinishServerHandshake || e.state == ServerDone
    ensures ServerStepOk(p, e, ServerAct(p, e, c))
  {
    hide Writes, Takes, ItemOk;
  }

  lemma ServerVerifies(p: Params, e: Endpoint<ServerState>, c: Choice)
    requires p.Valid() && e.wait == Ready && ServerOk(p, e) && InboxIsNext(p, true, e, ServerPart(p, e))
    requires e.state == VerifyClientCertificate
    ensures ServerStepOk(p, e, ServerAct(p, e, c))
  {
    hide Writes, Takes, ItemOk;
  }

  lemma {:induction false} ServerAwaitsCcs(p: Params, e: Endpoint<ServerState>, c: Choice)
    requires p.Valid() && e.wait == Ready && ServerOk(p, e) && InboxIsNext(p, true, e, ServerPart(p, e))
    requires e.state == ReadChangeCipherSpec
    ensures ServerStepOk(p, e, ServerAct(p, e, c))
  {
    hide Writes, Takes, ItemOk;
    NoPrefix(ServerRest(p, ReadChangeCipherSpec));
  }

  lemma {:induction false} ServerWritesHello(p: Params, e: Endpoint<ServerState>, c: Choice)
    requires p.Valid() && e.wait == Ready && ServerOk(p, e) && e.state == SendServerHello
    ensures ServerStepOk(p, e, ServerAct(p, e, c))
  {
    hide Writes, Takes;
    var next := ServerAct(p, e, c);
    WritesOne(p, false, e, next, ServerPart(p, e), ServerPart(p, next), ServerHello, c.body);
  }

  lemma {:induction false} ServerWritesCertificate(p: Params, e: Endpoint<ServerState>, c: Choice)
    requires p.Valid() && e.wait == Ready && ServerOk(p, e) && e.state == SendServerCertificate
    ensures ServerStepOk(p, e, ServerAct(p, e, c))
  {
    hide Wrote, Transition;
    var next := ServerAct(p, e, c);
    var a := e.SendIf(p.certCipher, Certificate, c.body);
    var b := a.SendIf(p.statusSent, CertificateStatus, c.extra);
    var x, y := If(p.certCipher, Says(false, Certificate)), If(p.statusSent, Says(false, CertificateStatus));
    WroteIf(p, false, e, p.certCipher, Certificate, c.body);
    WroteIf(p, false, a, p.statusSent, CertificateStatus, c.extra);
    WroteThen(p, false, e, a, b, x, y);
    WroteState(p, false, e, b, next, x + y);
    NoPrefix(ServerRest(p, SendServerCertificate));
    NoPrefix(ServerRest(p, SendServerKeyExchange));
    WroteIsStep(p, false, e, next, x + y, ServerPart(p, e), ServerPart(p, next));
  }

  lemma {:induction false} ServerWritesKeyExchange(p: Params, e: Endpoint<ServerState>, c: Choice)
    requires p.Valid() && e.wait == Ready && ServerOk(p, e) && e.state == SendServerKeyExchange
    ensures ServerStepOk(p, e, ServerAct(p, e, c))
  {
    hide Writes, Takes;
    var next := ServerAct(p, e, c);
    NoPrefix(ServerRest(p, SendServerHelloDone));
    if p.keyExchangeSent && !(p.certCipher && c.retry) {
      WritesOne(p, false, e, next, ServerPart(p, e), ServerPart(p, next), ServerKeyExchange, c.body);
    }
  }

  lemma {:induction false} ServerWritesDone(p: Params, e: Endpoint<ServerState>, c: Choice)
    requires p.Valid() && e.wait == Ready && ServerOk(p, e) && e.state == SendServerHelloDone
    ensures ServerStepOk(p, e, ServerAct(p, e, c))
  {
    hide Wrote, Transition;
    var next := ServerAct(p, e, c);
    var a := e.SendIf(p.certRequest, CertificateRequest, c.body);
    var b := a.SendIf(true, ServerHelloDone, []);
    var x, y := If(p.certRequest, Says(false, CertificateRequest)), [Says(false, ServerHelloDone)];
    WroteIf(p, false, e, p.certRequest, CertificateRequest, c.body);
    WroteIf(p, false, a, true, ServerHelloDone, []);
    WroteThen(p, false, e, a, b, x, y);
    WroteState(p, false, e, b, next, x + y);
    NoPrefix(ServerRest(p, SendServerHelloDone));
    NoPrefix(ServerRest(p, ReadClientCertificate));
    WroteIsStep(p, false, e, next, x + y, ServerPart(p, e), ServerPart(p, next));
  }

  lemma {:induction false} ServerWritesFinished(p: Params, e: Endpoint<ServerState>, c: Choice)
    requires p.Valid() && e.wait == Ready && ServerOk(p, e) && e.state == SendServerFinished
    ensures ServerStepOk(p, e, ServerAct(p, e, c))
  {
    hide Wrote, Transition;
    var next := ServerAct(p, e, c);
    var a := e.SendIf(p.ticket, NewSessionTicket, c.body);
    var b := a.SendCcs();
    var d := SendFinished(p, b, false);
    var x := If(p.ticket, Says(false, NewSessionTicket));
    WroteIf(p, false, e, p.ticket, NewSessionTicket, c.body);
    WroteCcs(p, false, a);
    WroteFinished(p, false, b);
    WroteThen(p, false, e, a, b, x, [Changes(false)]);
    WroteThen(p, false, e, b, d, x + [Changes(false)], [Says(false, Finished)]);
    var events := x + [Changes(false)] + [Says(false, Finished)];
    WroteState(p, false, e, d, next, events);
    var then' := if p.resumed then ReadChangeCipherSpec else FinishServerHandshake;
    NoPrefix(ServerRest(p, SendServerFinished));
    NoPrefix(ServerRest(p, then'));
    WroteIsStep(p, false, e, next, events, ServerPart(p, e), ServerPart(p, next));
  }

  /** Whatever the server does next, it is in step with the conversation, and does not fail. */
  lemma {:induction false} ServerActs(p: Params, e: Endpoint<ServerState>, c: Choice)
    requires p.Valid() && e.wait == Ready && ServerOk(p, e) && InboxIsNext(p, true, e, ServerPart(p, e))
    ensures ServerStepOk(p, e, ServerAct(p, e, c))
  {
    hide ServerStepOk, ServerAct, ServerOk, InboxIsNext, Params.Valid;
    match e.state
    case ReadClientHello | SelectCertificate => ServerPeeksHello(p, e, c);
    case SelectParameters => ServerReadsHello(p, e, c);
    case ReadClientCertificate => ServerReadsCertificate(p, e, c);
    case ReadClientKeyExchange => ServerReadsKeyExchange(p, e, c);
    case ReadClientCertificateVerify => ServerReadsVerify(p, e, c);
    case ReadNextProto | ReadChannelId => ServerReadsExtras(p, e, c);
    case ReadClientFinished => ServerReadsFinished(p, e, c);
    case SendServerHello => ServerWritesHello(p, e, c);
    case SendServerCertificate => ServerWritesCertificate(p, e, c);
    case SendServerKeyExchange => ServerWritesKeyExchange(p, e, c);
    case SendServerHelloDone => ServerWritesDone(p, e, c);
    case SendServerFinished => ServerWritesFinished(p, e, c);
    case ReadChangeCipherSpec => ServerAwaitsCcs(p, e, c);
    case VerifyClientCertificate => ServerVerifies(p, e, c);
    case _ => ServerGoesOn(p, e, c);
  }
}
