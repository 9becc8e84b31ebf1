/** TLS handshake messages over records: where the records are cut makes no difference. */
module HandshakeStream {
  import opened Bytes

  const MESSAGE_HEADER: nat := 4

  datatype Message = Message(typ: byte, body: seq<byte>)
  {
    predicate Valid() {
      |body| < 0x100_0000
    }

    function Raw(): (s: seq<byte>)
      ensures |s| == MESSAGE_HEADER + |body|
    {
      [typ, ByteOf(|body|, 2), ByteOf(|body|, 1), ByteOf(|body|, 0)] + body
    }
  }

  /** The bytes that a sender puts on the wire for a list of messages. */
  function Wire(msgs: seq<Message>): seq<byte> {
    if msgs == [] then [] else msgs[0].Raw() + Wire(msgs[1..])
  }

  /** How many bytes the message at the front of `buf` takes, as far as can be told. */
  function BytesNeeded(buf: seq<byte>): (n: nat)
    ensures n >= MESSAGE_HEADER
  {
    if |buf| < MESSAGE_HEADER then MESSAGE_HEADER else MESSAGE_HEADER + U24At(buf, 1)
  }

  function Parse(buf: seq<byte>): (r: Option<Message>)
    ensures r.Some? <==> |buf| >= BytesNeeded(buf) && |buf| >= MESSAGE_HEADER
    ensures r.Some? ==> r.value.Valid() && |r.value.Raw()| <= |buf|
  {
    if |buf| < MESSAGE_HEADER || |buf| < BytesNeeded(buf) then None
    else Some(Message(buf[0], buf[MESSAGE_HEADER..BytesNeeded(buf)]))
  }

  /** Type, length in three bytes with the most significant first, body. */
  lemma MessageLayout(m: Message)
    requires m.Valid()
    ensures var s := m.Raw();
      && s[0] == m.typ && 0x1_0000 * (s[1] as int) + 0x100 * s[2] as int + s[3] as int == |m.body| && s[4..] == m.body
  {
  }

  /** What is parsed is at the front, and serializes back to the same bytes. */
  lemma {:induction false} ParseFront(buf: seq<byte>)
    requires Parse(buf).Some?
    ensures buf == Parse(buf).value.Raw() + buf[|Parse(buf).value.Raw()|..]
  {
    BytesFromU24(buf, 1);
    var raw := Parse(buf).value.Raw();
    assert buf[..BytesNeeded(buf)] == raw;
  }

  /** A message at the front is found exactly when all its bytes are there. */
  lemma {:induction false} ParseWire(m: Message, received: seq<byte>, rest: seq<byte>)
    requires m.Valid() && received <= m.Raw() + rest
    ensures Parse(received).Some? <==> |received| >= |m.Raw()|
    ensures Parse(received).Some? ==> Parse(received).value == m
    ensures BytesNeeded(received) <= |m.Raw()|
  {
    var all := m.Raw() + rest;
    U24FromBytes(|m.body|, all, 1);
    if |received| >= MESSAGE_HEADER {
      assert U24At(received, 1) == U24At(all, 1);
      if |received| >= |m.Raw()| {
        assert received[MESSAGE_HEADER..|m.Raw()|] == m.body;
      }
    }
  }

  // ---- sending ----

  function Concat(records: seq<seq<byte>>): seq<byte> {
    if records == [] then [] else records[0] + Concat(records[1..])
  }

  lemma Regroup<T>(a: seq<T>, b: seq<T>, c: seq<T>)
    ensures a + b + c == a + (b + c)
  {
  }

  /** A record of a pending flight, by its plaintext. */
  datatype Record = HandshakeRecord(body: seq<byte>) | ChangeCipherSpecRecord

  /** What records stand for, wherever they are cut: a run of handshake bytes with changes of cipher between them. */
  datatype Token = Byte(b: byte) | Change

  function Tokens(bytes: seq<byte>): (r: seq<Token>)
    ensures |r| == |bytes|
    ensures forall i | 0 <= i < |r| :: r[i] == Byte(bytes[i])
  {
    seq(|bytes|, i requires 0 <= i < |bytes| => Byte(bytes[i]))
  }

  function Flat(records: seq<Record>): seq<Token> {
    if records == [] then []
    else (if records[0].HandshakeRecord? then Tokens(records[0].body) else [Change]) + Flat(records[1..])
  }

  lemma {:induction false} FlatConcat(a: seq<Record>, b: seq<Record>)
    ensures Flat(a + b) == Flat(a) + Flat(b)
  {
    if a == [] {
      assert a + b == b;
    } else {
      FlatConcat(a[1..], b);
      assert (a + b)[0] == a[0] && (a + b)[1..] == a[1..] + b;
      Regroup(if a[0].HandshakeRecord? then Tokens(a[0].body) else [Change], Flat(a[1..]), Flat(b));
    }
  }

  lemma {:induction false} FlatOne(r: Record)
    ensures Flat([r]) == if r.HandshakeRecord? then Tokens(r.body) else [Change]
  {
    assert [r][1..] == [];
  }

  lemma TokensConcat(a: seq<byte>, b: seq<byte>)
    ensures Tokens(a + b) == Tokens(a) + Tokens(b)
  {
  }

  predicate Filled(r: Record) {
    r.HandshakeRecord? ==> r.body != []
  }

  class FlightWriter {
    var maxSendFragment: nat
    // the pending flight
    var records: seq<Record>

    constructor (max: nat)
      ensures maxSendFragment == max && records == []
    {
      maxSendFragment, records := max, [];
    }

    /**
     * Cuts a message into records; nothing is lost, added or reordered, all records but the last are as long as
     * they may be, and none is empty unless the message is.
     */
    method AddMessage(msg: seq<byte>)
      requires maxSendFragment > 0
      modifies this`records
      ensures old(records) <= records && Flat(records) == Flat(old(records)) + Tokens(msg)
      ensures forall k | |old(records)| <= k < |records| ::
        records[k].HandshakeRecord? && |records[k].body| <= maxSendFragment && (msg != [] ==> Filled(records[k]))
      ensures forall k | |old(records)| <= k < |records| - 1 :: |records[k].body| == maxSendFragment
      ensures |records| > |old(records)|
    {
      hide Flat;
      var rest := msg;
      var more := true;
      while more
        invariant more || rest == []
        invariant msg != [] && more ==> rest != []
        invariant old(records) <= records && Flat(records) + Tokens(rest) == Flat(old(records)) + Tokens(msg)
        invariant !more ==> |records| > |old(records)|
        invariant forall k | |old(records)| <= k < |records| ::
          records[k].HandshakeRecord? && |records[k].body| <= maxSendFragment && (msg != [] ==> Filled(records[k]))
        invariant forall k | |old(records)| <= k < |records| - (if more then 0 else 1) :: |records[k].body| == maxSendFragment
        decreases more, |rest|
      {
        var n := if |rest| < maxSendFragment then |rest| else maxSendFragment;
        var chunk := rest[..n];
        Appended(records, chunk, rest[n..]);
        assert rest == chunk + rest[n..];
        rest := rest[n..];
        more := rest != [];
        records := records + [HandshakeRecord(chunk)];
      }
      assert Flat(records) + [] == Flat(records);
    }

    method AddChangeCipherSpec()
      modifies this`records
      ensures records == old(records) + [ChangeCipherSpecRecord] && Flat(records) == Flat(old(records)) + [Change]
    {
      FlatConcat(records, [ChangeCipherSpecRecord]);
      FlatOne(ChangeCipherSpecRecord);
      records := records + [ChangeCipherSpecRecord];
    }
  }

  lemma {:induction false} Appended(records: seq<Record>, chunk: seq<byte>, rest: seq<byte>)
    ensures Flat(records + [HandshakeRecord(chunk)]) + Tokens(rest) == Flat(records) + Tokens(chunk + rest)
  {
    hide Flat;
    FlatConcat(records, [HandshakeRecord(chunk)]);
    FlatOne(HandshakeRecord(chunk));
    TokensConcat(chunk, rest);
  }

  // ---- receiving ----

  /** More empty records than this in a row are an attack. */
  const MAX_EMPTY_RECORDS: nat := 32

  /** The handshake buffer and the counter of empty records of the receiving side. */
  datatype Reader = Reader(buf: seq<byte>, emptyRecords: nat)
  {
    /** A complete message must be taken first, and the one to come must not be too long. */
    predicate CanAccept(maxLen: nat) {
      Parse(buf).None? && BytesNeeded(buf) <= MESSAGE_HEADER + maxLen
    }

    function CountEmpty(body: seq<byte>): nat {
      if body == [] then emptyRecords + 1 else 0
    }

    /** Opening a handshake record appends all of it. */
    function Open(maxLen: nat, body: seq<byte>): Option<Reader> {
      if !CanAccept(maxLen) || CountEmpty(body) > MAX_EMPTY_RECORDS then None
      else Some(Reader(buf + body, CountEmpty(body)))
    }

    function Next(): Reader
      requires Parse(buf).Some?
    {
      this.(buf := buf[|Parse(buf).value.Raw()|..])
    }
  }

  /**
   * Exactly what is refused: a record while a whole message waits, a message announced as too long, and one empty
   * record too many.
   */
  lemma RefusedIff(r: Reader, maxLen: nat, body: seq<byte>)
    ensures r.Open(maxLen, body).None? <==>
      || (|r.buf| >= 4
          && var size := 0x1_0000 * (r.buf[1] as int) + 0x100 * r.buf[2] as int + r.buf[3] as int;
             |r.buf| >= 4 + size || size > maxLen)
      || (body == [] && r.emptyRecords >= 32)
    ensures r.Open(maxLen, body).Some? ==> r.Open(maxLen, body).value.buf == r.buf + body
  {
  }

  class HandshakeReader {
    // null until the first record, and again when it is released after the handshake
    var hsBuf: Option<seq<byte>>
    var hasMessage: bool
    var emptyRecordCount: nat
    var inInit: bool
    // everything appended so far, and the part that has been taken out
    ghost var received: seq<byte>
    ghost var released: seq<byte>

    /** The buffer is what has been received less the messages taken. */
    ghost predicate Valid()
      reads this
    {
      && received == released + Now().buf
      && (hasMessage ==> Parse(Now().buf).Some?)
    }

    function Now(): Reader
      reads this
    {
      Reader(if hsBuf.Some? then hsBuf.value else [], emptyRecordCount)
    }

    constructor ()
      ensures Valid() && Now() == Reader([], 0) && released == [] && inInit
    {
      hsBuf, hasMessage, emptyRecordCount, inInit := None, false, 0, true;
      received, released := [], [];
    }

    method ParseMessage() returns (m: Option<Message>, bytesNeeded: nat)
      ensures m == Parse(Now().buf) && bytesNeeded == BytesNeeded(Now().buf)
    {
      if hsBuf.None? || |hsBuf.value| < MESSAGE_HEADER {
        return None, MESSAGE_HEADER;
      }
      var buf := hsBuf.value;
      bytesNeeded := MESSAGE_HEADER + U24At(buf, 1);
      if |buf| < bytesNeeded {
        return None, bytesNeeded;
      }
      return Some(Message(buf[0], buf[MESSAGE_HEADER..bytesNeeded])), bytesNeeded;
    }

    method GetMessage() returns (m: Option<Message>)
      requires Valid()
      modifies this`hasMessage
      ensures Valid() && m == Parse(Now().buf)
      ensures hasMessage <==> old(hasMessage) || m.Some?
    {
      var needed;
      m, needed := ParseMessage();
      if m.Some? {
        hasMessage := true;
      }
    }

    method HasUnprocessed() returns (b: bool)
      requires Valid()
      ensures b <==> |Now().buf| > if hasMessage then |Parse(Now().buf).value.Raw()| else 0
    {
      var len := 0;
      if hasMessage {
        var m, needed := ParseMessage();
        if m.Some? {
          len := |m.value.Raw()|;
        }
      }
      return hsBuf.Some? && |hsBuf.value| > len;
    }

    /** One decrypted handshake record. */
    method OpenHandshake(maxLen: nat, body: seq<byte>) returns (ok: bool)
      requires Valid()
      modifies this
      ensures Valid() && released == old(released) && inInit == old(inInit) && hasMessage == old(hasMessage)
      ensures ok <==> old(Now()).Open(maxLen, body).Some?
      ensures ok ==> Some(Now()) == old(Now()).Open(maxLen, body) && received == old(received) + body
      ensures !ok ==> received == old(received)
    {
      if hsBuf.None? {
        hsBuf := Some([]);
      }
      var m, needed := ParseMessage();
      if m.Some? || needed > MESSAGE_HEADER + maxLen {
        return false;
      }
      if body == [] {
        emptyRecordCount := emptyRecordCount + 1;
        if emptyRecordCount > MAX_EMPTY_RECORDS {
          return false;
        }
      } else {
        emptyRecordCount := 0;
      }
      hsBuf := Some(hsBuf.value + body);
      received := received + body;
      return true;
    }

    /** Takes the message at the front out of the buffer. */
    method NextMessage()
      requires Valid() && Parse(Now().buf).Some?
      modifies this
      ensures Valid() && Now() == old(Now()).Next() && !hasMessage && received == old(received)
      ensures released == old(released) + Parse(old(Now()).buf).value.Raw()
    {
      hide Message.Raw, Parse;
      var m := GetMessage();
      ParseFront(hsBuf.value);
      assert released + (m.value.Raw() + hsBuf.value[|m.value.Raw()|..]) == released + m.value.Raw() + hsBuf.value[|m.value.Raw()|..];
      released := released + m.value.Raw();
      hsBuf := Some(hsBuf.value[|m.value.Raw()|..]);
      hasMessage := false;
      if !inInit && hsBuf.value == [] {
        hsBuf := None;
      }
    }
  }

  // ---- the whole stream ----

  /** Messages that the receiver's size limit admits. */
  predicate Sendable(msgs: seq<Message>, maxLen: nat) {
    forall k | 0 <= k < |msgs| :: msgs[k].Valid() && |msgs[k].body| <= maxLen
  }

  /** The receiver takes every complete message. */
  function Drain(buf: seq<byte>): (r: (seq<Message>, seq<byte>))
    ensures Parse(r.1).None? && |r.1| <= |buf|
    decreases |buf|
  {
    match Parse(buf)
    case None => ([], buf)
    case Some(m) =>
      var (ms, rest) := Drain(buf[|m.Raw()|..]);
      ([m] + ms, rest)
  }

  /** Records opened one by one, and all complete messages taken after each. */
  function Receive(r: Reader, maxLen: nat, records: seq<seq<byte>>): Option<(seq<Message>, Reader)>
    decreases |records|
  {
    if records == [] then Some(([], r))
    else
      match r.Open(maxLen, records[0])
      case None => None
      case Some(grown) =>
        var (ms, rest) := Drain(grown.buf);
        match Receive(grown.(buf := rest), maxLen, records[1..])
        case None => None
        case Some((more, last)) => Some((ms + more, last))
  }

  /** No run of empty records is too long, given how many came before. */
  predicate FewEmpty(emptyBefore: nat, records: seq<seq<byte>>)
    decreases |records|
  {
    records == []
    || (var n := if records[0] == [] then emptyBefore + 1 else 0;
        n <= MAX_EMPTY_RECORDS && FewEmpty(n, records[1..]))
  }

  /** The messages that are complete within the first bytes of a stream, and the rest of those bytes. */
  lemma {:induction false} DrainWire(msgs: seq<Message>, received: seq<byte>)
    requires (forall k | 0 <= k < |msgs| :: msgs[k].Valid()) && received <= Wire(msgs)
    ensures var (ms, rest) := Drain(received);
      && |ms| <= |msgs| && ms == msgs[..|ms|] && received == Wire(ms) + rest && rest <= Wire(msgs[|ms|..])
      && (|ms| < |msgs| ==> |rest| < |msgs[|ms|].Raw()|) && (|ms| == |msgs| ==> rest == [])
    decreases |msgs|
  {
    hide Parse, BytesNeeded, Message.Raw, Message.Valid, Wire;
    if msgs == [] {
      NothingToParse();
      WireNothing(received);
      assert msgs[0..] == msgs;
    } else {
      var m := msgs[0];
      WireOne(msgs);
      ParseWire(m, received, Wire(msgs[1..]));
      if Parse(received).Some? {
        var tail := received[|m.Raw()|..];
        PrefixTail(m.Raw(), Wire(msgs[1..]), received);
        DrainWire(msgs[1..], tail);
        DrainOne(msgs, received);
      } else {
        WireNothing(received);
        assert msgs[0..] == msgs;
      }
    }
  }

  lemma WireOne(msgs: seq<Message>)
    requires msgs != []
    ensures Wire(msgs) == msgs[0].Raw() + Wire(msgs[1..])
  {
  }

  /** What is drained behind the first message, with that message in front. */
  lemma {:induction false} DrainOne(msgs: seq<Message>, received: seq<byte>)
    requires msgs != [] && Parse(received) == Some(msgs[0]) && received == msgs[0].Raw() + received[|msgs[0].Raw()|..]
    requires var tail := received[|msgs[0].Raw()|..]; var (ms, rest) := Drain(tail);
      |ms| <= |msgs| - 1 && ms == msgs[1..][..|ms|] && tail == Wire(ms) + rest
    ensures var (ms, rest) := Drain(received[|msgs[0].Raw()|..]);
      && Drain(received) == (msgs[..1 + |ms|], rest) && received == Wire(msgs[..1 + |ms|]) + rest
      && msgs[1..][|ms|..] == msgs[1 + |ms|..]
  {
    hide Parse, Message.Raw, Wire;
    var m := msgs[0];
    var (ms, rest) := Drain(received[|m.Raw()|..]);
    assert msgs[..1 + |ms|] == [m] + ms && ([m] + ms)[1..] == ms;
    WireOne([m] + ms);
    assert m.Raw() + (Wire(ms) + rest) == m.Raw() + Wire(ms) + rest;
  }

  lemma NothingToParse()
    ensures Parse([]).None?
  {
  }

  lemma {:induction false} PrefixTail(a: seq<byte>, b: seq<byte>, s: seq<byte>)
    requires s <= a + b && |s| >= |a|
    ensures s == a + s[|a|..] && s[|a|..] <= b
  {
    assert s[..|a|] == (a + b)[..|a|] == a;
    assert (a + b)[|a|..|s|] == b[..|s| - |a|];
  }

  lemma {:induction false} WireSplit(msgs: seq<Message>, k: nat)
    requires k <= |msgs|
    ensures Wire(msgs) == Wire(msgs[..k]) + Wire(msgs[k..])
  {
    hide Message.Raw;
    if k == 0 {
      assert msgs[0..] == msgs;
      WireNothing(Wire(msgs));
    } else {
      WireSplit(msgs[1..], k - 1);
      assert msgs[1..][..k - 1] == msgs[..k][1..] && msgs[1..][k - 1..] == msgs[k..];
      assert msgs[0].Raw() + (Wire(msgs[..k][1..]) + Wire(msgs[k..])) == msgs[0].Raw() + Wire(msgs[..k][1..]) + Wire(msgs[k..]);
    }
  }

  /** The next message, or none, leaves room for more of it. */
  lemma {:induction false} RoomForNext(buf: seq<byte>, msgs: seq<Message>, maxLen: nat)
    requires Sendable(msgs, maxLen) && buf <= Wire(msgs)
    ensures BytesNeeded(buf) <= MESSAGE_HEADER + maxLen
  {
    if msgs != [] {
      ParseWire(msgs[0], buf, Wire(msgs[1..]));
    }
  }

  lemma ConcatFirst(records: seq<seq<byte>>)
    requires records != []
    ensures Concat(records) == records[0] + Concat(records[1..])
  {
  }

  lemma {:induction false} DrainedStays(buf: seq<byte>, msgs: seq<Message>, records: seq<seq<byte>>)
    requires records != [] && (forall k | 0 <= k < |msgs| :: msgs[k].Valid())
    requires buf + Concat(records) <= Wire(msgs)
    ensures var (ms, rest) := Drain(buf + records[0]);
      && |ms| <= |msgs| && ms == msgs[..|ms|] && buf + records[0] == Wire(ms) + rest
      && rest + Concat(records[1..]) <= Wire(msgs[|ms|..])
  {
    hide Wire, Drain, Concat, Message.Valid;
    var received, after := buf + records[0], Concat(records[1..]);
    ConcatFirst(records);
    assert buf + Concat(records) == received + after;
    assert received <= Wire(msgs);
    DrainWire(msgs, received);
    var (ms, rest) := Drain(received);
    WireSplit(msgs, |ms|);
    assert received + after == Wire(ms) + (rest + after);
    PrefixTail(Wire(ms), Wire(msgs[|ms|..]), Wire(ms) + (rest + after));
    assert (Wire(ms) + (rest + after))[|Wire(ms)|..] == rest + after;
  }

  /**
   * However the byte stream is cut into records, what comes out are the messages that went in, in
   * order, each as soon as its last byte is there; and nothing fails unless too many records in a
   * row are empty, when it does.
   */
  lemma {:induction false} RecordBoundariesDoNotMatter(r: Reader, maxLen: nat, msgs: seq<Message>, records: seq<seq<byte>>)
    requires Sendable(msgs, maxLen) && Parse(r.buf).None? && r.buf + Concat(records) <= Wire(msgs)
    ensures Receive(r, maxLen, records).Some? <==> FewEmpty(r.emptyRecords, records)
    ensures Receive(r, maxLen, records).Some? ==>
      var (ms, last) := Receive(r, maxLen, records).value;
      && |ms| <= |msgs| && ms == msgs[..|ms|] && r.buf + Concat(records) == Wire(ms) + last.buf && Parse(last.buf).None?
    decreases |records|
  {
    hide Parse, BytesNeeded, Drain, Wire;
    if records == [] {
      assert r.buf + Concat(records) == r.buf;
      WireNothing(r.buf);
    } else {
      var received := r.buf + records[0];
      var (ms, rest) := Drain(received);
      assert r.buf <= Wire(msgs);
      RoomForNext(r.buf, msgs, maxLen);
      DrainedStays(r.buf, msgs, records);
      RecordBoundariesDoNotMatter(Reader(rest, r.CountEmpty(records[0])), maxLen, msgs[|ms|..], records[1..]);
      if Receive(Reader(rest, r.CountEmpty(records[0])), maxLen, records[1..]).Some? {
        var (more, last) := Receive(Reader(rest, r.CountEmpty(records[0])), maxLen, records[1..]).value;
        JoinParts(msgs, ms, more, r.buf, records, rest, last.buf);
      }
    }
  }

  lemma WireNothing(s: seq<byte>)
    ensures Wire([]) + s == s
  {
  }

  lemma {:induction false} JoinParts(msgs: seq<Message>, ms: seq<Message>, more: seq<Message>, buf: seq<byte>,
                                     records: seq<seq<byte>>, rest: seq<byte>, last: seq<byte>)
    requires records != [] && |ms| <= |msgs| && ms == msgs[..|ms|] && buf + records[0] == Wire(ms) + rest
    requires |more| <= |msgs| - |ms| && more == msgs[|ms|..][..|more|] && rest + Concat(records[1..]) == Wire(more) + last
    ensures ms + more == msgs[..|ms| + |more|] && buf + Concat(records) == Wire(ms + more) + last
  {
    hide Wire;
    WireSplit(ms + more, |ms|);
    assert (ms + more)[..|ms|] == ms && (ms + more)[|ms|..] == more;
    assert buf + Concat(records) == buf + records[0] + Concat(records[1..]) == Wire(ms) + (rest + Concat(records[1..]));
    assert Wire(ms) + (Wire(more) + last) == Wire(ms) + Wire(more) + last;
  }

  /** All of it at once: whole messages in, the same messages out, nothing left over. */
  lemma {:induction false} StreamDelivers(maxLen: nat, msgs: seq<Message>, records: seq<seq<byte>>)
    requires Sendable(msgs, maxLen) && Concat(records) == Wire(msgs) && FewEmpty(0, records)
    ensures Receive(Reader([], 0), maxLen, records).Some? && Receive(Reader([], 0), maxLen, records).value.0 == msgs
    ensures Receive(Reader([], 0), maxLen, records).value.1.buf == []
  {
    hide Wire, Receive, FewEmpty, Parse, Message.Valid;
    assert [] + Concat(records) == Concat(records);
    NothingToParse();
    RecordBoundariesDoNotMatter(Reader([], 0), maxLen, msgs, records);
    var (ms, last) := Receive(Reader([], 0), maxLen, records).value;
    WireSplit(msgs, |ms|);
    SameTail(Wire(ms), Wire(msgs[|ms|..]), last.buf);
    if |ms| < |msgs| {
      WireFront(msgs[|ms|..]);
    } else {
      assert msgs[|ms|..] == [] && ms == msgs;
      WireNothing([]);
    }
  }

  lemma {:induction false} SameTail(a: seq<byte>, b: seq<byte>, c: seq<byte>)
    requires a + b == a + c
    ensures b == c
  {
    assert (a + b)[|a|..] == b && (a + c)[|a|..] == c;
  }

  lemma {:induction false} WireFront(msgs: seq<Message>)
    requires msgs != [] && msgs[0].Valid()
    ensures Parse(Wire(msgs)).Some?
  {
    ParseWire(msgs[0], Wire(msgs), Wire(msgs[1..]));
  }
}
