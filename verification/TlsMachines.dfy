/**
 * The client's and the server's handshake state machines for TLS up to version 1.2, one `do_` function
 * of the source a step. Message bodies are arbitrary and, apart from Finished, accepted; what depends
 * on the negotiation is fixed by parameters that both sides know.
 */
module TlsMachines {
  import opened Bytes

  datatype Kind =
    | ClientHello | ServerHello | Certificate | CertificateStatus | ServerKeyExchange | CertificateRequest
    | ServerHelloDone | ClientKeyExchange | CertificateVerify | NextProto | ChannelId | Finished | NewSessionTicket

  datatype Message = Message(kind: Kind, body: seq<byte>)

  /** What travels: handshake messages and ChangeCipherSpec records. */
  datatype Item = Hs(msg: Message) | Ccs

  /** The outcome of the negotiation, and the uninterpreted Finished computation. */
  datatype Params = Params(
    resumed: bool,
    certCipher: bool,        // the cipher authenticates with certificates
    statusSent: bool,        // the server staples a certificate status
    statusExpected: bool,    // it said that it might
    keyExchangeNeeded: bool, // the cipher requires ServerKeyExchange
    keyExchangeSent: bool,
    certRequest: bool,
    clientCert: bool,        // the client has a certificate to answer with
    ticket: bool,
    nextProto: bool,
    channelId: bool,
    mac: (seq<Message>, bool) -> seq<byte>)
  {
    predicate Valid() {
      && (statusSent ==> certCipher && statusExpected)
      && (keyExchangeNeeded ==> keyExchangeSent)
      && (certRequest ==> certCipher) && (clientCert ==> certRequest)
    }
  }

  /** What a machine is waiting for before it runs again. */
  datatype Wait = Ready | Flush | ReadMessage | ReadCcs | Pending | Error

  /**
   * One side: its state, its transcript, messages written but not flushed, the message at the front of
   * its buffer, and whether a certificate was requested (client) or received (server).
   */
  datatype Endpoint<S(==)> = Endpoint(state: S, wait: Wait, transcript: seq<Message>, flight: seq<Item>,
                                      inbox: Option<Message>, certSeen: bool)
  {
    function Go(next: S): Endpoint<S> {
      this.(state := next, wait := Ready)
    }

    function Fail(): Endpoint<S> {
      this.(wait := Error)
    }

    /** Add a message to the transcript and to the flight. */
    function Send(kind: Kind, body: seq<byte>): Endpoint<S> {
      var m := Message(kind, body);
      this.(transcript := transcript + [m], flight := flight + [Hs(m)])
    }

    function SendIf(b: bool, kind: Kind, body: seq<byte>): Endpoint<S> {
      if b then Send(kind, body) else this
    }

    function SendCcs(): Endpoint<S> {
      this.(flight := flight + [Ccs])
    }

    /** Hash the current message and release it. */
    function Take(): Endpoint<S>
      requires inbox.Some?
    {
      this.(transcript := transcript + [inbox.value], inbox := None)
    }

    /** Wait for a message, insist on its kind, and move on. */
    function Expect(kind: Kind, next: S): Endpoint<S> {
      if inbox.None? then this.(wait := ReadMessage)
      else if inbox.value.kind != kind then Fail()
      else Take().Go(next)
    }
  }

  /** Choices that the parameters leave open: bodies, and whether a callback asks to be called again. */
  datatype Choice = Choice(retry: bool, body: seq<byte>, extra: seq<byte>)
  {
    /** A certificate chain with something in it. */
    function Chain(): seq<byte> {
      if body == [] then [0] else body
    }
  }

  /** Verify the peer's Finished against the own transcript. */
  function ReadFinished<S(==)>(p: Params, e: Endpoint<S>, peerIsClient: bool, next: S): Endpoint<S> {
    if e.inbox.None? then e.(wait := ReadMessage)
    else if e.inbox.value.kind != Finished || e.inbox.value.body != p.mac(e.transcript, peerIsClient) then e.Fail()
    else e.Take().Go(next)
  }

  function SendFinished<S(==)>(p: Params, e: Endpoint<S>, isClient: bool): Endpoint<S> {
    e.Send(Finished, p.mac(e.transcript, isClient))
  }

  // ---- the client ----

  datatype ClientState =
    | StartConnect | ReadServerHello | ReadServerCertificate | ReadCertificateStatus | VerifyServerCertificate
    | ReadServerKeyExchange | ReadCertificateRequest | ReadServerHelloDone | SendClientCertificate
    | SendClientKeyExchange | SendClientCertificateVerify | SendClientFinished | FinishFlight | ReadSessionTicket
    | ClientProcessCcs | ReadServerFinished | FinishClientHandshake | ClientDone

  function ClientAct(p: Params, e: Endpoint<ClientState>, c: Choice): Endpoint<ClientState> {
    match e.state
    case StartConnect => e.Send(ClientHello, c.body).(state := ReadServerHello, wait := Flush)
    case ReadServerHello => e.Expect(ServerHello, if p.resumed then ReadSessionTicket else ReadServerCertificate)
    case ReadServerCertificate =>
      if !p.certCipher then e.Go(ReadCertificateStatus) else e.Expect(Certificate, ReadCertificateStatus)
    case ReadCertificateStatus =>
      if !p.statusExpected then e.Go(VerifyServerCertificate)
      else if e.inbox.None? then e.(wait := ReadMessage)
      else if e.inbox.value.kind != CertificateStatus then e.Go(VerifyServerCertificate)
      else e.Take().Go(VerifyServerCertificate)
    case VerifyServerCertificate =>
      if p.certCipher && c.retry then e.(wait := Pending) else e.Go(ReadServerKeyExchange)
    case ReadServerKeyExchange =>
      if e.inbox.None? then e.(wait := ReadMessage)
      else if e.inbox.value.kind != ServerKeyExchange then
        if p.keyExchangeNeeded then e.Fail() else e.Go(ReadCertificateRequest)
      else e.Take().Go(ReadCertificateRequest)
    case ReadCertificateRequest =>
      if !p.certCipher then e.Go(ReadServerHelloDone)
      else if e.inbox.None? then e.(wait := ReadMessage)
      else if e.inbox.value.kind == ServerHelloDone then e.Go(ReadServerHelloDone)
      else if e.inbox.value.kind != CertificateRequest then e.Fail()
      else e.Take().(certSeen := true).Go(ReadServerHelloDone)
    case ReadServerHelloDone =>
      if e.inbox.Some? && e.inbox.value.body != [] then e.Fail() else e.Expect(ServerHelloDone, SendClientCertificate)
    case SendClientCertificate =>
      if !e.certSeen then e.Go(SendClientKeyExchange)
      else if c.retry then e.(wait := Pending)
      else e.Send(Certificate, if p.clientCert then c.Chain() else []).Go(SendClientKeyExchange)
    case SendClientKeyExchange => e.Send(ClientKeyExchange, c.body).Go(SendClientCertificateVerify)
    case SendClientCertificateVerify =>
      if !e.certSeen || !p.clientCert then e.Go(SendClientFinished)
      else if c.retry then e.(wait := Pending)
      else e.Send(CertificateVerify, c.body).Go(SendClientFinished)
    case SendClientFinished =>
      if p.channelId && c.retry then e.(wait := Pending)
      else
        SendFinished(p, e.SendCcs().SendIf(p.nextProto, NextProto, c.body).SendIf(p.channelId, ChannelId, c.extra), true)
          .(state := FinishFlight, wait := Flush)
    case FinishFlight => e.Go(if p.resumed then FinishClientHandshake else ReadSessionTicket)
    case ReadSessionTicket =>
      if !p.ticket then e.(state := ClientProcessCcs, wait := ReadCcs)
      else
        var r := e.Expect(NewSessionTicket, ClientProcessCcs);
        if r.wait == Ready then r.(wait := ReadCcs) else r
    case ClientProcessCcs => e.Go(ReadServerFinished)
    case ReadServerFinished => ReadFinished(p, e, false, if p.resumed then SendClientFinished else FinishClientHandshake)
    case FinishClientHandshake => e.Go(ClientDone)
    case ClientDone => e
  }

  // ---- the server ----

  datatype ServerState =
    | ReadClientHello | SelectCertificate | SelectParameters | SendServerHello | SendServerCertificate
    | SendServerKeyExchange | SendServerHelloDone | ReadClientCertificate | VerifyClientCertificate
    | ReadClientKeyExchange | ReadClientCertificateVerify | ReadChangeCipherSpec | ServerProcessCcs | ReadNextProto
    | ReadChannelId | ReadClientFinished | SendServerFinished | FinishServerHandshake | ServerDone

  function ServerAct(p: Params, e: Endpoint<ServerState>, c: Choice): Endpoint<ServerState> {
    match e.state
    case ReadClientHello =>
      if e.inbox.None? then e.(wait := ReadMessage)
      else if e.inbox.value.kind != ClientHello then e.Fail()
      else if c.retry then e.(wait := Pending)
      else e.Go(SelectCertificate)
    case SelectCertificate =>
      if e.inbox.None? then e.(wait := ReadMessage)
      else if c.retry then e.(wait := Pending)
      else e.Go(SelectParameters)
    case SelectParameters =>
      if e.inbox.None? then e.(wait := ReadMessage)
      else if c.retry then e.(wait := Pending)
      else e.Take().Go(SendServerHello)
    case SendServerHello =>
      e.Send(ServerHello, c.body).Go(if p.resumed then SendServerFinished else SendServerCertificate)
    case SendServerCertificate =>
      e.SendIf(p.certCipher, Certificate, c.body).SendIf(p.certCipher && p.statusSent, CertificateStatus, c.extra)
       .Go(SendServerKeyExchange)
    case SendServerKeyExchange =>
      if !p.keyExchangeSent then e.Go(SendServerHelloDone)
      else if p.certCipher && c.retry then e.(wait := Pending)
      else e.Send(ServerKeyExchange, c.body).Go(SendServerHelloDone)
    case SendServerHelloDone =>
      e.SendIf(p.certRequest, CertificateRequest, c.body).Send(ServerHelloDone, [])
       .(state := ReadClientCertificate, wait := Flush)
    case ReadClientCertificate =>
      if !p.certRequest then e.Go(VerifyClientCertificate)
      else if e.inbox.None? then e.(wait := ReadMessage)
      else if e.inbox.value.kind != Certificate then e.Fail()
      else e.Take().(certSeen := e.inbox.value.body != []).Go(VerifyClientCertificate)
    case VerifyClientCertificate =>
      if e.certSeen && c.retry then e.(wait := Pending) else e.Go(ReadClientKeyExchange)
    case ReadClientKeyExchange =>
      if e.inbox.None? then e.(wait := ReadMessage)
      else if e.inbox.value.kind != ClientKeyExchange then e.Fail()
      else if c.retry then e.(wait := Pending)
      else e.Take().Go(ReadClientCertificateVerify)
    case ReadClientCertificateVerify =>
      if !e.certSeen then e.Go(ReadChangeCipherSpec) else e.Expect(CertificateVerify, ReadChangeCipherSpec)
    case ReadChangeCipherSpec => e.(state := ServerProcessCcs, wait := ReadCcs)
    case ServerProcessCcs => e.Go(ReadNextProto)
    case ReadNextProto => if !p.nextProto then e.Go(ReadChannelId) else e.Expect(NextProto, ReadChannelId)
    case ReadChannelId => if !p.channelId then e.Go(ReadClientFinished) else e.Expect(ChannelId, ReadClientFinished)
    case ReadClientFinished => ReadFinished(p, e, true, if p.resumed then FinishServerHandshake else SendServerFinished)
    case SendServerFinished =>
      SendFinished(p, e.SendIf(p.ticket, NewSessionTicket, c.body).SendCcs(), false)
        .(state := if p.resumed then ReadChangeCipherSpec else FinishServerHandshake, wait := Flush)
    case FinishServerHandshake => e.Go(ServerDone)
    case ServerDone => e
  }

  // ---- waiting ----

  /** One way in which what a machine waits for can be resolved; the channels are first in, first out. */
  datatype Resolution = Flushed(n: nat) | Opened | Called

  /** Flushing may stop anywhere; what is opened must be of the sort waited for. */
  function Resolve<S(==)>(e: Endpoint<S>, r: Resolution, incoming: seq<Item>): Endpoint<S> {
    match e.wait
    case Flush =>
      if r.Flushed? && r.n <= |e.flight| then
        e.(flight := e.flight[r.n..], wait := if r.n == |e.flight| then Ready else Flush)
      else e
    case ReadMessage =>
      if !r.Opened? || incoming == [] then e
      else if incoming[0].Ccs? then e.Fail()
      else e.(inbox := Some(incoming[0].msg), wait := Ready)
    case ReadCcs =>
      if !r.Opened? || incoming == [] then e
      else if incoming[0].Hs? then e.Fail()
      else e.(wait := Ready)
    case Pending => if r.Called? then e.(wait := Ready) else e
    case _ => e
  }

  /** What the resolution puts on the outgoing channel, and takes off the incoming one. */
  function Outgoing<S(==)>(e: Endpoint<S>, r: Resolution): seq<Item> {
    if e.wait == Flush && r.Flushed? && r.n <= |e.flight| then e.flight[..r.n] else []
  }

  function Incoming<S(==)>(e: Endpoint<S>, r: Resolution, incoming: seq<Item>): seq<Item> {
    if (e.wait == ReadMessage || e.wait == ReadCcs) && r.Opened? && incoming != [] then incoming[1..] else incoming
  }
}
