/** Several messages in one stream: length-delimited and null-terminated framing. */
module PbFraming {
  import opened Bytes
  import opened PbWire
  import opened PbSchema
  import opened PbCodec
  import opened PbRoundTrip

  function EncodeDelimited(fields: seq<Field>, slots: seq<Slot>): Option<seq<byte>>
    requires |slots| == |fields|
  {
    Framed(Encode(fields, slots))
  }

  /** The message is decoded from its own substream; closing that skips whatever it left unread. */
  function DecodeDelimited(fields: seq<Field>, s: seq<byte>): (r: Read<seq<Slot>>)
    ensures r.Done? ==> |r.rest| < |s|
  {
    match Split(s)
    case Fail => Fail
    case Done(body, rest) =>
      match Decode(fields, body)
      case Fail => Fail
      case Done(msg, _) => Done(msg, rest)
  }

  predicate Sendable(fields: seq<Field>, slots: seq<Slot>) {
    && |slots| == |fields| && AllStorable(fields, slots)
    && Encode(fields, slots).Some? && |Encode(fields, slots).value| < U32
  }

  function EncodeAll(fields: seq<Field>, msgs: seq<seq<Slot>>): seq<byte>
    requires forall k | 0 <= k < |msgs| :: Sendable(fields, msgs[k])
  {
    if msgs == [] then []
    else
      assert Sendable(fields, msgs[0]);
      EncodeDelimited(fields, msgs[0]).value + EncodeAll(fields, msgs[1..])
  }

  function DecodeAll(fields: seq<Field>, n: nat, s: seq<byte>): Read<seq<seq<Slot>>> {
    if n == 0 then Done([], s)
    else
      match DecodeDelimited(fields, s)
      case Fail => Fail
      case Done(msg, rest) =>
        match DecodeAll(fields, n - 1, rest)
        case Fail => Fail
        case Done(msgs, after) => Done([msg] + msgs, after)
  }

  function CanonAll(fields: seq<Field>, msgs: seq<seq<Slot>>): seq<seq<Slot>>
    requires forall k | 0 <= k < |msgs| :: |msgs[k]| == |fields|
  {
    if msgs == [] then [] else [Canon(fields, msgs[0])] + CanonAll(fields, msgs[1..])
  }

  /** One framed message is read back, and exactly its own bytes are consumed. */
  lemma {:induction false} DelimitedRoundTrip(fields: seq<Field>, slots: seq<Slot>, rest: seq<byte>)
    requires TableValid(fields) && Sendable(fields, slots)
    ensures EncodeDelimited(fields, slots).Some?
    ensures DecodeDelimited(fields, EncodeDelimited(fields, slots).value + rest) == Done(Canon(fields, slots), rest)
  {
    hide TableValid, Encode, Split, Delimited, DecodeMessage, Canon, AllStorable;
    SplitRoundTrip(Encode(fields, slots).value, rest);
    MessageRoundTrip(fields, slots);
  }

  /** A stream of framed messages is read back one by one, in order, up to what follows them. */
  lemma {:induction false} StreamRoundTrip(fields: seq<Field>, msgs: seq<seq<Slot>>, rest: seq<byte>)
    requires TableValid(fields) && forall k | 0 <= k < |msgs| :: Sendable(fields, msgs[k])
    ensures DecodeAll(fields, |msgs|, EncodeAll(fields, msgs) + rest) == Done(CanonAll(fields, msgs), rest)
    decreases |msgs|
  {
    hide TableValid, AllStorable, EncodeDelimited, DecodeDelimited, Canon, EncodeFrom;
    if msgs == [] {
      assert [] + rest == rest;
    } else {
      var more := EncodeAll(fields, msgs[1..]);
      DelimitedRoundTrip(fields, msgs[0], more + rest);
      assert EncodeAll(fields, msgs) + rest == EncodeDelimited(fields, msgs[0]).value + (more + rest);
      StreamRoundTrip(fields, msgs[1..], rest);
    }
  }

  /** A zero byte ends a message: decoding stops right behind it. */
  lemma {:induction false} NullTerminatedRoundTrip(fields: seq<Field>, slots: seq<Slot>, rest: seq<byte>)
    requires TableValid(fields) && Sendable(fields, slots)
    ensures Decode(fields, Encode(fields, slots).value + [0] + rest) == Done(Canon(fields, slots), rest)
  {
    hide TableValid, AllStorable, EncodeFrom, FixedComplete, RequiredSeen, Underway, DecodeTag;
    var e := Encode(fields, slots).value;
    assert e + [0] + rest == e + ([0] + rest);
    FieldsRoundTrip(fields, slots, 0, [0] + rest);
    TagEnds(rest);
    AfterUnderway(fields, slots, |fields|);
    FinalChecks(fields, After(fields, slots, |fields|));
  }
}
