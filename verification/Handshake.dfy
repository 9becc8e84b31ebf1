/** The DTLS handshake fragment header (section 4.2.2 of RFC 6347) and its parser. */
module Handshake {
  import opened Bytes

  const HEADER_LENGTH: nat := 12
  const MAX_FLIGHT: nat := 7

  datatype Header = Header(typ: byte, msgLen: nat, seqNo: nat, fragOff: nat, fragLen: nat)
  {
    predicate Valid() {
      msgLen < 0x100_0000 && seqNo < 0x1_0000 && fragOff < 0x100_0000 && fragLen < 0x100_0000
    }
  }

  datatype Parsed = Malformed | Parsed(hdr: Header, body: seq<byte>, rest: seq<byte>)

  function EncodeHeader(h: Header): (s: seq<byte>)
    requires h.Valid()
    ensures |s| == HEADER_LENGTH
  {
    [h.typ,
     ByteOf(h.msgLen, 2), ByteOf(h.msgLen, 1), ByteOf(h.msgLen, 0),
     ByteOf(h.seqNo, 1), ByteOf(h.seqNo, 0),
     ByteOf(h.fragOff, 2), ByteOf(h.fragOff, 1), ByteOf(h.fragOff, 0),
     ByteOf(h.fragLen, 2), ByteOf(h.fragLen, 1), ByteOf(h.fragLen, 0)]
  }

  function DecodeHeader(s: seq<byte>): (h: Header)
    requires |s| >= HEADER_LENGTH
    ensures h.Valid()
  {
    Header(s[0], U24At(s, 1), U16At(s, 4), U24At(s, 6), U24At(s, 9))
  }

  /** The bytes of one fragment: its header and the part of the message body it carries. */
  function FragmentBytes(h: Header, body: seq<byte>): (s: seq<byte>)
    requires h.Valid()
    ensures |s| == HEADER_LENGTH + |body|
  {
    EncodeHeader(h) + body
  }

  function ParseFragment(s: seq<byte>): (p: Parsed)
    ensures p.Parsed? ==> p.hdr.Valid() && |p.body| == p.hdr.fragLen && |p.rest| < |s|
  {
    if |s| < HEADER_LENGTH then Malformed
    else
      var hdr := DecodeHeader(s);
      var end := HEADER_LENGTH + hdr.fragLen;
      if |s| < end then Malformed else Parsed(hdr, s[HEADER_LENGTH..end], s[end..])
  }

  /** Where the fields stand, the most significant byte of each first. */
  lemma HeaderLayout(h: Header, body: seq<byte>)
    requires h.Valid()
    ensures var s := FragmentBytes(h, body);
      && s[0] == h.typ
      && 0x1_0000 * (s[1] as int) + 0x100 * s[2] as int + s[3] as int == h.msgLen
      && 0x100 * (s[4] as int) + s[5] as int == h.seqNo
      && 0x1_0000 * (s[6] as int) + 0x100 * s[7] as int + s[8] as int == h.fragOff
      && 0x1_0000 * (s[9] as int) + 0x100 * s[10] as int + s[11] as int == h.fragLen
      && s[12..] == body
  {
  }

  lemma DecodeEncodedHeader(h: Header, rest: seq<byte>)
    requires h.Valid()
    ensures DecodeHeader(EncodeHeader(h) + rest) == h
  {
    var s := EncodeHeader(h) + rest;
    U24FromBytes(h.msgLen, s, 1);
    U16FromBytes(h.seqNo, s, 4);
    U24FromBytes(h.fragOff, s, 6);
    U24FromBytes(h.fragLen, s, 9);
  }

  lemma EncodeDecodedHeader(s: seq<byte>)
    requires |s| >= HEADER_LENGTH
    ensures EncodeHeader(DecodeHeader(s)) == s[..HEADER_LENGTH]
  {
    BytesFromU24(s, 1);
    BytesFromU16(s, 4);
    BytesFromU24(s, 6);
    BytesFromU24(s, 9);
  }

  /** Parsing undoes serialization, whatever follows in the record. */
  lemma ParseEncoded(h: Header, body: seq<byte>, rest: seq<byte>)
    requires h.Valid() && |body| == h.fragLen
    ensures ParseFragment(FragmentBytes(h, body) + rest) == Parsed(h, body, rest)
  {
    var s := FragmentBytes(h, body) + rest;
    assert s == EncodeHeader(h) + (body + rest);
    DecodeEncodedHeader(h, body + rest);
    assert s[HEADER_LENGTH..HEADER_LENGTH + h.fragLen] == body;
    assert s[HEADER_LENGTH + h.fragLen..] == rest;
  }

  /** Serialization undoes parsing: a parsed fragment is the front of the input, and nothing is dropped. */
  lemma EncodeParsed(s: seq<byte>)
    requires ParseFragment(s).Parsed?
    ensures var p := ParseFragment(s); s == FragmentBytes(p.hdr, p.body) + p.rest
  {
    EncodeDecodedHeader(s);
    var end := HEADER_LENGTH + DecodeHeader(s).fragLen;
    assert s == s[..HEADER_LENGTH] + s[HEADER_LENGTH..end] + s[end..];
  }
}
