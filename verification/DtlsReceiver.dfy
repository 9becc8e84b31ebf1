/** Incoming DTLS handshake messages: the ring of partly received messages and the fragment loop. */
module DtlsReceiver {
  import opened Bytes
  import opened Handshake
  import opened Reassembly

  datatype Alert = DecodeError | IllegalParameter | UnexpectedMessage | InternalError | RecordOverflow

  datatype Result = Ok | Error(alert: Alert)

  // ---- the ring on values ----

  /** A message of which some bytes have been received. */
  datatype Frag = Frag(typ: byte, seqNo: nat, body: seq<Option<byte>>)

  function NewFrag(hdr: Header): Frag {
    Frag(hdr.typ, hdr.seqNo, seq(hdr.msgLen, _ => None))
  }

  /** A message as handed out: `raw` is what goes into the transcript hash. */
  datatype Message = Message(typ: byte, body: seq<byte>, raw: seq<byte>)

  /** The bytes of a complete body. */
  function BodyBytes(body: seq<Option<byte>>): (r: seq<byte>)
    requires Complete(body)
    ensures |r| == |body|
    ensures forall i | 0 <= i < |r| :: body[i] == Some(r[i])
  {
    seq(|body|, i requires 0 <= i < |body| => body[i].value)
  }

  /** The messages not yet read, message number `n` in slot `n % MAX_FLIGHT`, and the number to read next. */
  datatype Ring = Ring(slots: seq<Option<Frag>>, readSeq: nat)
  {
    /** Every occupied slot holds a message of the current window, at its own residue. */
    predicate Valid() {
      && |slots| == MAX_FLIGHT && readSeq < 0x1_0000
      && forall i | 0 <= i < MAX_FLIGHT :: slots[i].Some? ==> Belongs(slots[i].value, i)
    }

    predicate Belongs(f: Frag, i: nat) {
      && f.seqNo % MAX_FLIGHT == i && f.seqNo < 0x1_0000 && |f.body| < 0x100_0000
      && readSeq <= f.seqNo < readSeq + MAX_FLIGHT
    }

    /** The header fields contradict each other or ask for too large a message. */
    static predicate Excessive(hdr: Header, maxLen: nat) {
      hdr.fragOff > hdr.msgLen || hdr.fragOff + hdr.fragLen > hdr.msgLen || hdr.msgLen > maxLen
    }

    /** The message the fragment belongs to, created if this is its first fragment. */
    function Lookup(hdr: Header): (r: (Ring, Result))
      requires Valid() && hdr.Valid()
      ensures r.0.Valid() && r.0.readSeq == readSeq
      ensures r.1.Ok? ==> r.0.slots[hdr.seqNo % MAX_FLIGHT].Some?
    {
      var idx := hdr.seqNo % MAX_FLIGHT;
      if hdr.seqNo < readSeq || hdr.seqNo - readSeq >= MAX_FLIGHT then
        (this, Error(InternalError))
      else if slots[idx].None? then
        (this.(slots := slots[idx := Some(NewFrag(hdr))]), Ok)
      else if slots[idx].value.typ != hdr.typ || |slots[idx].value.body| != hdr.msgLen then
        (this, Error(IllegalParameter))
      else
        (this, Ok)
    }

    /** One fragment of a handshake record received in `epoch`. */
    function Accept(epoch: nat, maxLen: nat, hdr: Header, bytes: seq<byte>): (r: (Ring, Result))
      requires Valid() && hdr.Valid()
      ensures r.0.Valid() && r.0.readSeq == readSeq
    {
      if Excessive(hdr, maxLen) then
        (this, Error(IllegalParameter))
      else if epoch == 1 && hdr.seqNo != readSeq then
        (this, Error(UnexpectedMessage))
      else if hdr.seqNo < readSeq || hdr.seqNo > readSeq + MAX_FLIGHT then
        (this, Ok)
      else
        var (ring, result) := Lookup(hdr);
        if result.Error? then (ring, result) else (ring.Fill(hdr.seqNo % MAX_FLIGHT, hdr.fragOff, bytes), Ok)
    }

    /** Stores received bytes, unless the message is already complete. */
    function Fill(idx: nat, off: nat, bytes: seq<byte>): (r: Ring)
      requires Valid() && idx < MAX_FLIGHT && slots[idx].Some?
      ensures r.Valid() && r.readSeq == readSeq
    {
      var f := slots[idx].value;
      if Complete(f.body) then this
      else this.(slots := slots[idx := Some(f.(body := Overlay(f.body, off, bytes)))])
    }

    /** All fragments of one handshake record; stops at the first error. */
    function ProcessRecord(epoch: nat, maxLen: nat, record: seq<byte>): (r: (Ring, Result))
      requires Valid()
      ensures r.0.Valid() && r.0.readSeq == readSeq
      decreases |record|
    {
      if record == [] then (this, Ok)
      else
        match ParseFragment(record)
        case Malformed => (this, Error(DecodeError))
        case Parsed(hdr, body, rest) =>
          var (ring, result) := Accept(epoch, maxLen, hdr, body);
          if result.Error? then (ring, result) else ring.ProcessRecord(epoch, maxLen, rest)
    }

    /** The message to read next is there in full. */
    predicate HasCurrent()
      requires Valid()
    {
      var slot := slots[readSeq % MAX_FLIGHT];
      slot.Some? && Complete(slot.value.body)
    }

    /** The message to read next, if it is there in full. */
    function Current(): Option<Message>
      requires Valid()
    {
      if !HasCurrent() then None
      else
        var f := slots[readSeq % MAX_FLIGHT].value;
        var body := BodyBytes(f.body);
        Some(Message(f.typ, body, FragmentBytes(Header(f.typ, |body|, f.seqNo, 0, |body|), body)))
    }

    function Next(): (r: Ring)
      requires Valid()
      ensures r.Valid()
    {
      Ring(slots[readSeq % MAX_FLIGHT := None], (readSeq + 1) % 0x1_0000)
    }
  }

  /** A message of this number has begun to arrive, with another type or length. */
  predicate Contradicts(ring: Ring, hdr: Header)
    requires ring.Valid()
  {
    exists i | 0 <= i < MAX_FLIGHT && ring.slots[i].Some? ::
      var f := ring.slots[i].value; f.seqNo == hdr.seqNo && (f.typ != hdr.typ || |f.body| != hdr.msgLen)
  }

  /** Exactly which fragments are refused, and with which alert; a refusal changes nothing. */
  lemma RefusedIff(ring: Ring, epoch: nat, maxLen: nat, hdr: Header, bytes: seq<byte>)
    requires ring.Valid() && hdr.Valid()
    ensures var (next, result) := ring.Accept(epoch, maxLen, hdr, bytes);
      var tooLarge := hdr.fragOff + hdr.fragLen > hdr.msgLen || hdr.msgLen > maxLen;
      var awaited := epoch == 1 ==> hdr.seqNo == ring.readSeq;
      && (result == Error(IllegalParameter) <==> tooLarge || (awaited && Contradicts(ring, hdr)))
      && (result == Error(UnexpectedMessage) <==> !tooLarge && !awaited)
      && (result == Error(InternalError) <==> !tooLarge && awaited && hdr.seqNo == ring.readSeq + MAX_FLIGHT)
      && result != Error(DecodeError) && result != Error(RecordOverflow)
      && (result.Error? ==> next == ring)
  {
    var idx := hdr.seqNo % MAX_FLIGHT;
    if Contradicts(ring, hdr) {
      var i :| 0 <= i < MAX_FLIGHT && ring.slots[i].Some? && ring.slots[i].value.seqNo == hdr.seqNo;
      assert ring.Belongs(ring.slots[i].value, i) && i == idx;
    } else if ring.slots[idx].Some? {
      assert ring.Belongs(ring.slots[idx].value, idx);
      if ring.readSeq <= hdr.seqNo < ring.readSeq + MAX_FLIGHT {
        SameResidue(ring.readSeq, ring.slots[idx].value.seqNo, hdr.seqNo);
      }
    }
  }

  /** Two numbers of one window with the same residue are the same. */
  lemma SameResidue(base: nat, a: nat, b: nat)
    requires base <= a < base + MAX_FLIGHT && base <= b < base + MAX_FLIGHT && a % MAX_FLIGHT == b % MAX_FLIGHT
    ensures a == b
  {
  }

  /** Of the fragments outside the window, exactly the one numbered seven ahead is not ignored but an error. */
  lemma OutsideIgnoredIff(ring: Ring, epoch: nat, maxLen: nat, hdr: Header, bytes: seq<byte>)
    requires ring.Valid() && hdr.Valid() && !Ring.Excessive(hdr, maxLen) && epoch != 1
    requires hdr.seqNo < ring.readSeq || hdr.seqNo >= ring.readSeq + MAX_FLIGHT
    ensures ring.Accept(epoch, maxLen, hdr, bytes) == (ring, Ok) <==> hdr.seqNo != ring.readSeq + MAX_FLIGHT
    ensures hdr.seqNo == ring.readSeq + MAX_FLIGHT ==>
      ring.Accept(epoch, maxLen, hdr, bytes) == (ring, Error(InternalError))
  {
  }

  /** For instance message 7, empty, before message 0 has come. */
  lemma SevenAheadFails()
    ensures var ring := Ring(seq(MAX_FLIGHT, _ => None), 0);
      ring.Valid() && ring.ProcessRecord(0, 0, FragmentBytes(Header(1, 0, 7, 0, 0), [])) == (ring, Error(InternalError))
  {
    var hdr := Header(1, 0, 7, 0, 0);
    ParseEncoded(hdr, [], []);
    assert FragmentBytes(hdr, []) + [] == FragmentBytes(hdr, []);
  }

  /** A message that is complete is not touched by any later fragment, whatever it contains. */
  lemma {:induction false} CompleteStays(ring: Ring, epoch: nat, maxLen: nat, record: seq<byte>, i: nat)
    requires ring.Valid() && i < MAX_FLIGHT && ring.slots[i].Some? && Complete(ring.slots[i].value.body)
    ensures ring.ProcessRecord(epoch, maxLen, record).0.slots[i] == ring.slots[i]
    decreases |record|
  {
    var parsed := ParseFragment(record);
    if record != [] && parsed.Parsed? {
      var (next, result) := ring.Accept(epoch, maxLen, parsed.hdr, parsed.body);
      assert next.slots[i] == ring.slots[i];
      if result.Ok? {
        CompleteStays(next, epoch, maxLen, parsed.rest, i);
      }
    }
  }

  // ---- the ring in memory ----

  /** The object holds this partly received message. */
  ghost predicate Holds(f: HmFragment, frag: Frag)
    reads f, f.data, f.reassembly
  {
    f.Valid() && f.typ == frag.typ && f.seqNo == frag.seqNo && f.Body() == frag.body
  }

  ghost predicate Separate(f: HmFragment, g: HmFragment)
    reads f, g
  {
    && f != g && f.data != g.data && (f.reassembly == null || f.reassembly != g.reassembly)
    && f.data as object != g.reassembly && g.data as object != f.reassembly
  }

  /** `Fill`, in terms of the message the object holds. */
  method FillHeld(f: HmFragment, ghost was: Frag, off: nat, bytes: seq<byte>)
    requires Holds(f, was) && f.reassembly != null && off + |bytes| <= f.msgLen
    modifies f, f.data, f.reassembly
    ensures f.reassembly == null || f.reassembly == old(f.reassembly)
    ensures !Complete(was.body) && Holds(f, was.(body := Overlay(was.body, off, bytes)))
  {
    f.CompleteIffNoBitmap();
    f.Fill(off, bytes);
  }

  class IncomingRing {
    const incoming: array<HmFragment?>
    var readSeq: nat
    ghost var slots: seq<Option<Frag>>
    ghost var Repr: set<object>

    ghost function Contents(): Ring
      reads this
    {
      Ring(slots, readSeq)
    }

    ghost predicate Owned(f: HmFragment)
      reads this, f
    {
      && f in Repr && f.data in Repr && f.data as object != incoming
      && (f.reassembly != null ==> f.reassembly in Repr && f.reassembly as object != incoming)
    }

    ghost predicate Valid()
      reads this, Repr
    {
      && this in Repr && incoming in Repr && incoming.Length == MAX_FLIGHT
      && Contents().Valid()
      && (forall i | 0 <= i < MAX_FLIGHT :: incoming[i] == null <==> slots[i] == None)
      && (forall i | 0 <= i < MAX_FLIGHT && incoming[i] != null :: incoming[i] in Repr && Owned(incoming[i]))
      && (forall i | 0 <= i < MAX_FLIGHT && incoming[i] != null :: Holds(incoming[i], slots[i].value))
      && (forall i, j | 0 <= i < j < MAX_FLIGHT && incoming[i] != null && incoming[j] != null ::
            Separate(incoming[i], incoming[j]))
    }

    constructor ()
      ensures Valid() && fresh(Repr)
      ensures Contents() == Ring(seq(MAX_FLIGHT, _ => None), 0)
    {
      incoming := new HmFragment?[MAX_FLIGHT](_ => null);
      readSeq := 0;
      slots := seq(MAX_FLIGHT, _ => None);
      Repr := {this, incoming};
    }

    /** The message a fragment belongs to; creates it if need be, null on error. */
    method GetIncomingMessage(hdr: Header) returns (frag: HmFragment?, ghost result: Result)
      requires Valid() && hdr.Valid()
      modifies this, incoming
      ensures Valid() && fresh(Repr - old(Repr)) && old(Repr) <= Repr
      ensures (Contents(), result) == old(Contents()).Lookup(hdr)
      ensures frag == null <==> result.Error?
      ensures frag != null ==> frag == incoming[hdr.seqNo % MAX_FLIGHT]
    {
      if hdr.seqNo < readSeq || hdr.seqNo - readSeq >= MAX_FLIGHT {
        return null, Error(InternalError);
      }
      var idx := hdr.seqNo % MAX_FLIGHT;
      frag := incoming[idx];
      if frag != null {
        if frag.typ != hdr.typ || frag.msgLen != hdr.msgLen {
          return null, Error(IllegalParameter);
        }
        return frag, Ok;
      }
      frag := new HmFragment(hdr);
      Insert(idx, frag, hdr);
      result := Ok;
    }

    method Insert(idx: nat, frag: HmFragment, ghost hdr: Header)
      requires Valid() && idx < MAX_FLIGHT && incoming[idx] == null
      requires Holds(frag, NewFrag(hdr)) && Contents().Belongs(NewFrag(hdr), idx)
      requires frag.data as object != incoming && frag.reassembly as object? != incoming
      requires frag !in Repr && frag.data !in Repr && (frag.reassembly != null ==> frag.reassembly !in Repr)
      modifies this`slots, this`Repr, incoming
      ensures Valid() && Repr == old(Repr) + {frag, frag.data} + (if frag.reassembly == null then {} else {frag.reassembly})
      ensures slots == old(slots)[idx := Some(NewFrag(hdr))] && incoming[idx] == frag
    {
      hide Holds;
      incoming[idx] := frag;
      slots := slots[idx := Some(NewFrag(hdr))];
      Repr := Repr + {frag, frag.data} + (if frag.reassembly == null then {} else {frag.reassembly});
    }

    /** Stores received bytes in an occupied slot. */
    method FillSlot(idx: nat, off: nat, bytes: seq<byte>)
      requires Valid() && idx < MAX_FLIGHT && incoming[idx] != null
      requires incoming[idx].reassembly != null && off + |bytes| <= incoming[idx].msgLen
      modifies this`slots, incoming[idx], incoming[idx].data, incoming[idx].reassembly
      ensures Valid() && Repr == old(Repr)
      ensures Contents() == old(Contents()).Fill(idx, off, bytes)
    {
      hide Holds, Overlay, Complete;
      var frag := incoming[idx];
      ghost var was := slots[idx].value;
      assert Holds(frag, was);
      FillHeld(frag, was, off, bytes);
      slots := slots[idx := Some(was.(body := Overlay(was.body, off, bytes)))];
    }

    /** One fragment: the checks, the lookup and the copy. */
    method AcceptFragment(epoch: nat, maxLen: nat, hdr: Header, body: seq<byte>) returns (result: Result)
      requires Valid() && hdr.Valid() && |body| == hdr.fragLen
      modifies Repr
      ensures Valid() && fresh(Repr - old(Repr))
      ensures (Contents(), result) == old(Contents()).Accept(epoch, maxLen, hdr, body)
    {
      if hdr.fragOff > hdr.msgLen || hdr.fragOff + hdr.fragLen > hdr.msgLen || hdr.msgLen > maxLen {
        return Error(IllegalParameter);
      }
      // Under encryption nothing but the message to read next is expected.
      if epoch == 1 && hdr.seqNo != readSeq {
        return Error(UnexpectedMessage);
      }
      if hdr.seqNo < readSeq || hdr.seqNo > readSeq + MAX_FLIGHT {
        return Ok;
      }
      ghost var before := Contents();
      var frag, looked := GetIncomingMessage(hdr);
      if frag == null {
        return Error(if hdr.seqNo - readSeq >= MAX_FLIGHT then InternalError else IllegalParameter);
      }
      result := Ok;
      StoreIn(hdr.seqNo % MAX_FLIGHT, hdr, body);
    }

    /** Ignores the bytes if the message is already assembled, and stores them otherwise. */
    method StoreIn(idx: nat, hdr: Header, body: seq<byte>)
      requires Valid() && idx < MAX_FLIGHT && incoming[idx] != null
      requires |slots[idx].value.body| == hdr.msgLen && hdr.fragOff + |body| <= hdr.msgLen
      modifies Repr
      ensures Valid() && Repr == old(Repr)
      ensures Contents() == old(Contents()).Fill(idx, hdr.fragOff, body)
    {
      assert Holds(incoming[idx], slots[idx].value);
      incoming[idx].CompleteIffNoBitmap();
      if incoming[idx].reassembly != null {
        FillSlot(idx, hdr.fragOff, body);
      }
    }

    /** The fragment loop over one handshake record. */
    method ProcessRecord(epoch: nat, maxLen: nat, record: seq<byte>) returns (result: Result)
      requires Valid()
      modifies Repr
      ensures Valid() && fresh(Repr - old(Repr))
      ensures (Contents(), result) == old(Contents()).ProcessRecord(epoch, maxLen, record)
    {
      var rest := record;
      while rest != []
        invariant Valid() && fresh(Repr - old(Repr))
        invariant old(Contents()).ProcessRecord(epoch, maxLen, record) == Contents().ProcessRecord(epoch, maxLen, rest)
        decreases |rest|
      {
        var parsed := ParseFragment(rest);
        if parsed.Malformed? {
          return Error(DecodeError);
        }
        result := AcceptFragment(epoch, maxLen, parsed.hdr, parsed.body);
        if result.Error? {
          return;
        }
        rest := parsed.rest;
      }
      result := Ok;
    }

    /** Whether the message to read next is complete. */
    method IsCurrentComplete() returns (complete: bool)
      requires Valid()
      ensures complete <==> Contents().HasCurrent()
      ensures complete ==> incoming[readSeq % MAX_FLIGHT] != null
    {
      var frag := incoming[readSeq % MAX_FLIGHT];
      if frag == null {
        return false;
      }
      assert Holds(frag, slots[readSeq % MAX_FLIGHT].value);
      frag.CompleteIffNoBitmap();
      return frag.reassembly == null;
    }

    /** Hands out the current message: its type, its body, and the raw bytes with the rebuilt header. */
    method GetMessage() returns (msg: Option<Message>)
      requires Valid()
      ensures msg == Contents().Current()
    {
      var complete := IsCurrentComplete();
      if !complete {
        return None;
      }
      var frag := incoming[readSeq % MAX_FLIGHT];
      assert Holds(frag, slots[readSeq % MAX_FLIGHT].value);
      msg := Some(Message(frag.typ, frag.data[HEADER_LENGTH..], frag.data[..]));
      assert frag.data[..] == frag.data[..HEADER_LENGTH] + frag.data[HEADER_LENGTH..];
      assert frag.data[HEADER_LENGTH..] == BodyBytes(frag.Body());
    }

    /** Releases the current message and moves on to the next number, modulo 2^16. */
    method NextMessage()
      requires Valid()
      modifies this, incoming
      ensures Valid() && Repr == old(Repr)
      ensures Contents() == old(Contents()).Next()
    {
      hide Holds;
      ghost var next := Contents().Next();
      var index := readSeq % MAX_FLIGHT;
      incoming[index] := null;
      slots := slots[index := None];
      readSeq := (readSeq + 1) % 0x1_0000;
    }
  }
}
