/** The conversation of the two machines as it is on the wire: message types, bytes, and records cut anywhere. */
module TlsWire {
  import opened Bytes
  import opened TlsMachines
  import Stream = HandshakeStream

  /** The type byte of a message. */
  function TypeOf(k: Kind): byte {
    match k
    case ClientHello => 1
    case ServerHello => 2
    case NewSessionTicket => 4
    case Certificate => 11
    case ServerKeyExchange => 12
    case CertificateRequest => 13
    case ServerHelloDone => 14
    case CertificateVerify => 15
    case ClientKeyExchange => 16
    case Finished => 20
    case CertificateStatus => 22
    case NextProto => 67
    case ChannelId => 203
  }

  lemma TypesDiffer(a: Kind, b: Kind)
    requires TypeOf(a) == TypeOf(b)
    ensures a == b
  {
  }

  function Concrete(m: Message): Stream.Message {
    Stream.Message(TypeOf(m.kind), m.body)
  }

  function RawOf(m: Message): (s: seq<byte>)
    ensures |s| >= Stream.MESSAGE_HEADER
  {
    Concrete(m).Raw()
  }

  /** The bytes that a transcript hash is computed over. */
  function Raws(ms: seq<Message>): seq<byte> {
    if ms == [] then [] else Raws(ms[..|ms| - 1]) + RawOf(ms[|ms| - 1])
  }

  lemma RawsAppend(ms: seq<Message>, m: Message)
    ensures Raws(ms + [m]) == Raws(ms) + RawOf(m)
  {
    hide RawOf;
    assert (ms + [m])[..|ms|] == ms;
  }

  lemma {:induction false} RawsPrefix(a: seq<Message>, b: seq<Message>)
    requires a <= b
    ensures Raws(a) <= Raws(b)
  {
    hide RawOf;
    if |a| < |b| {
      RawsPrefix(a, b[..|b| - 1]);
    } else {
      assert a == b;
    }
  }

  function ItemTokens(i: Item): (r: seq<Stream.Token>)
    ensures r != []
  {
    if i.Hs? then Stream.Tokens(RawOf(i.msg)) else [Stream.Change]
  }

  function FlatItems(items: seq<Item>): seq<Stream.Token> {
    if items == [] then [] else ItemTokens(items[0]) + FlatItems(items[1..])
  }

  lemma {:induction false} FlatItemsConcat(a: seq<Item>, b: seq<Item>)
    ensures FlatItems(a + b) == FlatItems(a) + FlatItems(b)
  {
    hide ItemTokens;
    if a == [] {
      assert a + b == b;
    } else {
      FlatItemsConcat(a[1..], b);
      assert (a + b)[0] == a[0] && (a + b)[1..] == a[1..] + b;
      Stream.Regroup(ItemTokens(a[0]), FlatItems(a[1..]), FlatItems(b));
    }
  }

  lemma FlatItemsOne(i: Item)
    ensures FlatItems([i]) == ItemTokens(i)
  {
    hide ItemTokens;
    assert [i][1..] == [];
  }

  predicate ItemFits(i: Item, limit: nat) {
    i.Hs? ==> |i.msg.body| <= limit
  }

  predicate AllFit(items: seq<Item>, limit: nat) {
    forall i | i in items :: ItemFits(i, limit)
  }

  /** The tail is a part of the message that is coming, but not all of it. */
  predicate PartOf(tail: seq<Stream.Token>, coming: Option<Message>, limit: nat) {
    tail != [] ==> coming.Some? && |coming.value.body| <= limit && tail < Stream.Tokens(RawOf(coming.value))
  }

  /** These tokens are whole items, and after them part of a message. */
  predicate Carries(tokens: seq<Stream.Token>, items: seq<Item>, tail: seq<Stream.Token>, coming: Option<Message>, limit: nat) {
    tokens == FlatItems(items) + tail && AllFit(items, limit) && PartOf(tail, coming, limit)
  }

  // ---- the receiving side ----

  /** The message that the first bytes belong to. */
  ghost predicate Heads(buf: seq<byte>, more: seq<Stream.Token>, m: Message, whole: bool, after: seq<Stream.Token>) {
    var tokens := Stream.Tokens(buf) + more;
    if whole then tokens == Stream.Tokens(RawOf(m)) + after else tokens < Stream.Tokens(RawOf(m))
  }

  /** Bytes of a message at the front, and no change of cipher within it. */
  lemma FrontOfMessage(buf: seq<byte>, more: seq<Stream.Token>, m: Message, whole: bool, after: seq<Stream.Token>, limit: nat)
    requires Heads(buf, more, m, whole, after) && |m.body| <= limit < 0x100_0000
    ensures Stream.BytesNeeded(buf) <= Stream.MESSAGE_HEADER + limit
    ensures Stream.Parse(buf).Some? ==>
      whole && Stream.Parse(buf).value == Concrete(m) && |buf| >= |RawOf(m)| && buf[..|RawOf(m)|] == RawOf(m)
    ensures Stream.Parse(buf).None? && more != [] ==> more[0].Byte?
    ensures buf == [] && more != [] ==> more[0].Byte?
  {
    hide Stream.Parse, Stream.Message.Raw;
    var raw := RawOf(m);
    var tokens := Stream.Tokens(buf) + more;
    forall i | 0 <= i < |buf| ensures tokens[i] == Stream.Byte(buf[i]) {
    }
    forall i | 0 <= i < |raw| && i < |tokens| ensures tokens[i] == Stream.Byte(raw[i]) {
      assert Stream.Tokens(raw)[i] == Stream.Byte(raw[i]);
    }
    if |buf| <= |raw| {
      assert buf == raw[..|buf|];
      assert raw + [] == raw;
      Stream.ParseWire(Concrete(m), buf, []);
    } else {
      assert buf[..|raw|] == raw;
      assert buf == raw + buf[|raw|..];
      Stream.ParseWire(Concrete(m), buf, buf[|raw|..]);
    }
    if more != [] && |buf| < |raw| {
      assert tokens[|buf|] == more[0];
    }
  }

  lemma FrontCases(buf: seq<byte>, more: seq<Stream.Token>, items: seq<Item>, tail: seq<Stream.Token>, coming: Option<Message>, limit: nat)
    requires Carries(Stream.Tokens(buf) + more, items, tail, coming, limit) && (buf != [] || more != [])
    ensures items != [] && items[0].Hs? ==> Heads(buf, more, items[0].msg, true, FlatItems(items[1..]) + tail)
    ensures items == [] ==> coming.Some? && |coming.value.body| <= limit && Heads(buf, more, coming.value, false, [])
    ensures items != [] && items[0].Ccs? ==>
      buf == [] && more != [] && more[0] == Stream.Change && Carries(more[1..], items[1..], tail, coming, limit)
  {
    hide RawOf;
    var tokens := Stream.Tokens(buf) + more;
    if items != [] {
      Stream.Regroup(ItemTokens(items[0]), FlatItems(items[1..]), tail);
      if items[0].Ccs? {
        assert tokens[0] == Stream.Change;
        assert tokens == more;
        assert more[1..] == FlatItems(items[1..]) + tail;
      }
    } else {
      assert tokens == tail;
    }
  }

  /** A whole message in the buffer is the first item; what is behind it is what the other items are. */
  lemma WholeIsFirst(buf: seq<byte>, more: seq<Stream.Token>, items: seq<Item>, tail: seq<Stream.Token>, coming: Option<Message>, limit: nat)
    requires Carries(Stream.Tokens(buf) + more, items, tail, coming, limit) && limit < 0x100_0000
    requires Stream.Parse(buf).Some?
    ensures items != [] && items[0].Hs? && Stream.Parse(buf).value == Concrete(items[0].msg)
    ensures var n := |Stream.Parse(buf).value.Raw()|;
      n <= |buf| && Carries(Stream.Tokens(buf[n..]) + more, items[1..], tail, coming, limit)
  {
    hide Heads, Carries, Stream.Message.Raw, FlatItems;
    NothingParsed();
    FrontCases(buf, more, items, tail, coming, limit);
    if items == [] {
      FrontOfMessage(buf, more, coming.value, false, [], limit);
    } else {
      FirstFits(Stream.Tokens(buf) + more, items, tail, coming, limit);
      var after := FlatItems(items[1..]) + tail;
      FrontOfMessage(buf, more, items[0].msg, true, after, limit);
      DropMessage(buf, more, items, tail, coming, limit);
    }
  }

  lemma NothingParsed()
    ensures Stream.Parse([]).None? && Stream.BytesNeeded([]) == Stream.MESSAGE_HEADER
  {
  }

  lemma FirstFits(tokens: seq<Stream.Token>, items: seq<Item>, tail: seq<Stream.Token>, coming: Option<Message>, limit: nat)
    requires Carries(tokens, items, tail, coming, limit) && items != []
    ensures items[0].Hs? ==> |items[0].msg.body| <= limit
  {
    assert items[0] in items;
  }

  lemma DropMessage(buf: seq<byte>, more: seq<Stream.Token>, items: seq<Item>, tail: seq<Stream.Token>, coming: Option<Message>, limit: nat)
    requires Carries(Stream.Tokens(buf) + more, items, tail, coming, limit) && items != [] && items[0].Hs?
    requires |buf| >= |RawOf(items[0].msg)| && buf[..|RawOf(items[0].msg)|] == RawOf(items[0].msg)
    ensures Carries(Stream.Tokens(buf[|RawOf(items[0].msg)|..]) + more, items[1..], tail, coming, limit)
  {
    hide RawOf;
    var raw := RawOf(items[0].msg);
    var rest := buf[|raw|..];
    assert buf == raw + rest;
    Stream.TokensConcat(raw, rest);
    var tokens := Stream.Tokens(buf) + more;
    Stream.Regroup(Stream.Tokens(raw), Stream.Tokens(rest), more);
    Stream.Regroup(ItemTokens(items[0]), FlatItems(items[1..]), tail);
    assert tokens[|raw|..] == Stream.Tokens(rest) + more;
    assert tokens[|raw|..] == FlatItems(items[1..]) + tail;
  }

  /** What can be said of a buffer without a whole message. */
  lemma NotWhole(buf: seq<byte>, more: seq<Stream.Token>, items: seq<Item>, tail: seq<Stream.Token>, coming: Option<Message>, limit: nat)
    requires Carries(Stream.Tokens(buf) + more, items, tail, coming, limit) && limit < 0x100_0000
    requires Stream.Parse(buf).None?
    ensures Stream.BytesNeeded(buf) <= Stream.MESSAGE_HEADER + limit
    ensures more != [] && more[0] == Stream.Change ==>
      buf == [] && items != [] && items[0].Ccs? && Carries(more[1..], items[1..], tail, coming, limit)
  {
    hide Heads, Carries, RawOf, FlatItems, Stream.Parse;
    NothingParsed();
    if buf != [] || more != [] {
      FrontCases(buf, more, items, tail, coming, limit);
      FirstIfAny(Stream.Tokens(buf) + more, items, tail, coming, limit);
      if items == [] {
        FrontOfMessage(buf, more, coming.value, false, [], limit);
      } else if items[0].Hs? {
        FrontOfMessage(buf, more, items[0].msg, true, FlatItems(items[1..]) + tail, limit);
      }
    }
  }

  lemma FirstIfAny(tokens: seq<Stream.Token>, items: seq<Item>, tail: seq<Stream.Token>, coming: Option<Message>, limit: nat)
    requires Carries(tokens, items, tail, coming, limit)
    ensures items != [] && items[0].Hs? ==> |items[0].msg.body| <= limit
  {
    if items != [] {
      FirstFits(tokens, items, tail, coming, limit);
    }
  }

  /** Bytes at the front belong to a message, arrived in whole or in part. */
  lemma MessageNext(tokens: seq<Stream.Token>, items: seq<Item>, tail: seq<Stream.Token>, coming: Option<Message>, limit: nat)
    requires Carries(tokens, items, tail, coming, limit) && tokens != [] && tokens[0].Byte?
    ensures if items != [] then items[0].Hs? else tail != []
  {
    hide RawOf;
  }

  /** A change of cipher at the front is an item of its own. */
  lemma ChangeNext(more: seq<Stream.Token>, items: seq<Item>, tail: seq<Stream.Token>, coming: Option<Message>, limit: nat)
    requires Carries(more, items, tail, coming, limit) && more != [] && more[0] == Stream.Change && limit < 0x100_0000
    ensures items != [] && items[0].Ccs? && Carries(more[1..], items[1..], tail, coming, limit)
  {
    hide Carries;
    NothingParsed();
    assert Stream.Tokens([]) + more == more;
    NotWhole([], more, items, tail, coming, limit);
  }

  /** If all that has come is in the buffer, there is an item only if there is a message. */
  lemma NothingWhole(buf: seq<byte>, items: seq<Item>, tail: seq<Stream.Token>, coming: Option<Message>, limit: nat)
    requires Carries(Stream.Tokens(buf), items, tail, coming, limit) && limit < 0x100_0000
    ensures items != [] ==> items[0].Hs? && Stream.Parse(buf).Some?
  {
    hide Stream.Message.Raw, Stream.Parse;
    if items != [] {
      var tokens := Stream.Tokens(buf);
      assert tokens != [];
      MessageNext(tokens, items, tail, coming, limit);
      var raw := RawOf(items[0].msg);
      FirstFits(tokens, items, tail, coming, limit);
      Stream.Regroup(Stream.Tokens(raw), FlatItems(items[1..]), tail);
      assert |buf| == |tokens| >= |raw|;
      forall i | 0 <= i < |raw| ensures buf[i] == raw[i] {
        assert tokens[i] == Stream.Byte(buf[i]) && tokens[i] == Stream.Tokens(raw)[i] == Stream.Byte(raw[i]);
      }
      assert buf == raw + buf[|raw|..];
      Stream.ParseWire(Concrete(items[0].msg), buf, buf[|raw|..]);
    }
  }

  // ---- the sending side ----

  /** What is left of some items when a part of the first has been sent. */
  predicate Unsent(items: seq<Item>, part: seq<Stream.Token>, rest: seq<Stream.Token>) {
    part + rest == FlatItems(items) && if items == [] then part == [] else part < ItemTokens(items[0])
  }

  /** Sending more of it completes some items and leaves a part of the next. */
  lemma {:induction false} SendMore(items: seq<Item>, sent: seq<Stream.Token>, rest: seq<Stream.Token>)
    returns (k: nat, part: seq<Stream.Token>)
    requires sent + rest == FlatItems(items)
    ensures k <= |items| && sent == FlatItems(items[..k]) + part && Unsent(items[k..], part, rest)
    decreases |items|
  {
    hide ItemTokens;
    if items == [] {
      assert items[..0] == [] && items[0..] == [];
      return 0, [];
    }
    var first := ItemTokens(items[0]);
    if |sent| < |first| {
      assert sent == (sent + rest)[..|sent|] == first[..|sent|];
      assert items[..0] == [] && items[0..] == items;
      return 0, sent;
    }
    assert sent[..|first|] == (sent + rest)[..|first|] == first;
    assert sent[|first|..] + rest == (sent + rest)[|first|..] == FlatItems(items[1..]);
    var k', part' := SendMore(items[1..], sent[|first|..], rest);
    k, part := k' + 1, part';
    assert items[..k][1..] == items[1..][..k'] && items[..k][0] == items[0];
    assert items[k..] == items[1..][k'..];
    Stream.Regroup(first, FlatItems(items[1..][..k']), part);
    assert sent == first + sent[|first|..];
  }

  /** Nothing is left to send exactly when every item is out. */
  lemma UnsentNothing(items: seq<Item>, part: seq<Stream.Token>, rest: seq<Stream.Token>)
    requires Unsent(items, part, rest)
    ensures rest == [] <==> items == []
  {
    hide RawOf;
    if items != [] {
      assert |part| < |ItemTokens(items[0])| <= |FlatItems(items)|;
    }
  }

  /** One more item to send. */
  lemma UnsentMore(items: seq<Item>, part: seq<Stream.Token>, rest: seq<Stream.Token>, i: Item, more: seq<Stream.Token>)
    requires Unsent(items, part, rest) && more == rest + ItemTokens(i)
    ensures Unsent(items + [i], part, more)
  {
    hide ItemTokens;
    FlatItemsConcat(items, [i]);
    FlatItemsOne(i);
    Stream.Regroup(part, rest, ItemTokens(i));
  }

  // ---- between them ----

  /** More of the stream has come: what was a part of a message is now in whole items, and part of another. */
  lemma CarriesMore(tokens: seq<Stream.Token>, items: seq<Item>, tail: seq<Stream.Token>, coming: Option<Message>, limit: nat,
                    more: seq<Stream.Token>, newItems: seq<Item>, newTail: seq<Stream.Token>, newComing: Option<Message>)
    requires Carries(tokens, items, tail, coming, limit) && tail + more == FlatItems(newItems) + newTail
    requires AllFit(newItems, limit) && PartOf(newTail, newComing, limit)
    ensures Carries(tokens + more, items + newItems, newTail, newComing, limit)
  {
    hide PartOf, ItemFits;
    FlatItemsConcat(items, newItems);
    Stream.Regroup(FlatItems(items), tail, more);
    Stream.Regroup(FlatItems(items), FlatItems(newItems), newTail);
  }
}
