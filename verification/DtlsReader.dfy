/** The reading side of a DTLS connection: records feed the ring, the handshake takes messages from it. */
module DtlsReader {
  import opened Bytes
  import opened Handshake
  import opened DtlsReceiver
  import opened DtlsRecord
  import ReplayWindow

  const CCS_PAYLOAD: seq<byte> := [1]

  datatype Opening =
    | Opened
    | Discarded
    | NeedMore
    | Closed
    | AlertReceived(payload: seq<byte>)
    | Failed(alert: Alert)

  datatype ReaderState = ReaderState(rec: ReadState, ring: Ring, hasMessage: bool, hasCcs: bool)
  {
    predicate Valid() {
      ring.Valid()
    }

    /** The record at the front of the datagram, during the handshake. */
    function OpenHandshake(maxLen: nat, input: seq<byte>): (r: (ReaderState, Opening, nat))
      requires Valid()
      ensures r.0.Valid() && r.2 <= |input|
    {
      var (rec', opened', consumed) := rec.Open(input);
      var (st, outcome) := this.(rec := rec').Dispatch(maxLen, opened');
      (st, outcome, consumed)
    }

    function Dispatch(maxLen: nat, outcome: DtlsRecord.Opened): (r: (ReaderState, Opening))
      requires Valid()
      ensures r.0.Valid() && r.0.rec == rec
    {
      match outcome
      case Discard => (this, Discarded)
      case Partial => (this, NeedMore)
      case CloseNotify => (this, Closed)
      case TooLong => (this, Failed(RecordOverflow))
      case AlertRecord(payload) => (this, AlertReceived(payload))
      case Success(typ, payload) => HandleRecord(maxLen, typ, payload)
    }

    function HandleRecord(maxLen: nat, typ: byte, payload: seq<byte>): (r: (ReaderState, Opening))
      requires Valid()
      ensures r.0.Valid() && r.0.rec == rec
    {
      if typ == APPLICATION_DATA then
        (this, if rec.cipher.NullRead? then Failed(UnexpectedMessage) else Discarded)
      else if typ == CHANGE_CIPHER_SPEC then
        if !rec.cipher.NullRead? then (this, Failed(UnexpectedMessage))
        else if payload != CCS_PAYLOAD then (this, Failed(IllegalParameter))
        else (this.(hasCcs := true), Opened)
      else if typ == HANDSHAKE then
        var (ring', result) := ring.ProcessRecord(rec.epoch, maxLen, payload);
        (this.(ring := ring'), if result.Error? then Failed(result.alert) else Opened)
      else
        (this, Failed(UnexpectedMessage))
    }

    /** Some partly or fully received message other than the one being read, or a ChangeCipherSpec, is left. */
    predicate HasUnprocessed()
      requires Valid()
    {
      hasCcs
      || exists i | 0 <= i < MAX_FLIGHT :: ring.slots[i].Some? && !(hasMessage && i == ring.readSeq % MAX_FLIGHT)
    }
  }

  /** New keys are held back by a ChangeCipherSpec not used up and by any message but the one being read, and by nothing else. */
  lemma HeldBackIff(st: ReaderState)
    requires st.Valid()
    ensures st.hasCcs ==> st.HasUnprocessed()
    ensures forall i | 0 <= i < MAX_FLIGHT && st.ring.slots[i].Some? && i != st.ring.readSeq % MAX_FLIGHT :: st.HasUnprocessed()
    ensures !st.hasMessage && st.ring.slots[st.ring.readSeq % MAX_FLIGHT].Some? ==> st.HasUnprocessed()
    ensures st.HasUnprocessed() ==>
      || st.hasCcs || (!st.hasMessage && st.ring.slots[st.ring.readSeq % MAX_FLIGHT].Some?)
      || exists i | 0 <= i < MAX_FLIGHT && i != st.ring.readSeq % MAX_FLIGHT :: st.ring.slots[i].Some?
  {
  }

  class Reader {
    const records: RecordReader
    const ring: IncomingRing
    const maxLen: nat
    var hasMessage: bool
    var hasCcs: bool

    ghost function State(): ReaderState
      reads this, records, records.bitmap, ring
    {
      ReaderState(records.State(), ring.Contents(), hasMessage, hasCcs)
    }

    ghost predicate Valid()
      reads this, records, records.bitmap, ring, ring.Repr
    {
      records.Valid() && ring.Valid() && {this, records, records.bitmap} !! ring.Repr
    }

    constructor (maxLen: nat)
      ensures Valid() && fresh(records) && fresh(records.bitmap) && fresh(ring.Repr) && this.maxLen == maxLen
      ensures State() == ReaderState(records.State(), Ring(seq(MAX_FLIGHT, _ => None), 0), false, false)
      ensures records.rEpoch == 0 && records.cipher.NullRead?
    {
      records := new RecordReader();
      ring := new IncomingRing();
      this.maxLen := maxLen;
      hasMessage, hasCcs := false, false;
    }

    method OpenHandshake(input: seq<byte>) returns (opening: Opening, consumed: nat)
      requires Valid()
      modifies this`hasCcs, records, records.bitmap, ring.Repr
      ensures Valid() && fresh(ring.Repr - old(ring.Repr))
      ensures (State(), opening, consumed) == old(State()).OpenHandshake(maxLen, input)
    {
      var outcome;
      outcome, consumed := records.OpenRecord(input);
      match outcome
      case Discard => opening := Discarded;
      case Partial => opening := NeedMore;
      case CloseNotify => opening := Closed;
      case TooLong => opening := Failed(RecordOverflow);
      case AlertRecord(payload) => opening := AlertReceived(payload);
      case Success(typ, payload) => opening := HandleRecord(typ, payload);
    }

    method HandleRecord(typ: byte, payload: seq<byte>) returns (opening: Opening)
      requires Valid()
      modifies this`hasCcs, ring.Repr
      ensures Valid() && fresh(ring.Repr - old(ring.Repr))
      ensures (State(), opening) == old(State()).HandleRecord(maxLen, typ, payload)
    {
      if typ == APPLICATION_DATA {
        // Unencrypted application data is illegal; out-of-order data before Finished is dropped.
        return if records.cipher.NullRead? then Failed(UnexpectedMessage) else Discarded;
      } else if typ == CHANGE_CIPHER_SPEC {
        if !records.cipher.NullRead? {
          return Failed(UnexpectedMessage);
        }
        if payload != CCS_PAYLOAD {
          return Failed(IllegalParameter);
        }
        hasCcs := true;
        return Opened;
      } else if typ == HANDSHAKE {
        var result := ring.ProcessRecord(records.rEpoch, maxLen, payload);
        return if result.Error? then Failed(result.alert) else Opened;
      }
      return Failed(UnexpectedMessage);
    }

    /** Waits for a ChangeCipherSpec; succeeds only on one that has been received, and then forgets it. */
    method OpenChangeCipherSpec(input: seq<byte>) returns (opening: Opening, consumed: nat)
      requires Valid()
      modifies this`hasCcs, records, records.bitmap, ring.Repr
      ensures Valid() && fresh(ring.Repr - old(ring.Repr))
      ensures old(hasCcs) ==> opening.Opened? && consumed == 0 && State() == old(State()).(hasCcs := false)
      ensures !old(hasCcs) ==>
        var (next, outcome, read) := old(State()).OpenHandshake(maxLen, input);
        && consumed == read && State() == (if outcome.Opened? then next.(hasCcs := false) else next)
        && opening == (if outcome.Opened? && !next.hasCcs then Discarded else outcome)
    {
      consumed := 0;
      if !hasCcs {
        opening, consumed := OpenHandshake(input);
        if !opening.Opened? {
          return;
        }
      }
      if hasCcs {
        hasCcs := false;
        return Opened, consumed;
      }
      opening := Discarded;
    }

    /** The message to read next; repeated calls hand out the same one until NextMessage. */
    method GetMessage() returns (msg: Option<Message>)
      requires Valid()
      modifies this`hasMessage
      ensures Valid() && msg == ring.Contents().Current()
      ensures hasMessage <==> old(hasMessage) || msg.Some?
    {
      msg := ring.GetMessage();
      if msg.Some? {
        hasMessage := true;
      }
    }

    method NextMessage()
      requires Valid() && hasMessage && ring.Contents().HasCurrent()
      modifies this, ring, ring.incoming
      ensures Valid() && ring.Repr == old(ring.Repr)
      ensures State() == old(State()).(ring := old(ring.Contents()).Next(), hasMessage := false)
    {
      ring.NextMessage();
      hasMessage := false;
    }

    method HasUnprocessed() returns (b: bool)
      requires Valid()
      ensures b <==> State().HasUnprocessed()
    {
      if hasCcs {
        return true;
      }
      var current := ring.readSeq % MAX_FLIGHT;
      for i := 0 to MAX_FLIGHT
        invariant forall k | 0 <= k < i :: ring.slots[k].None? || (hasMessage && k == current)
      {
        if hasMessage && i == current {
          continue;
        }
        if ring.incoming[i] != null {
          return true;
        }
      }
      return false;
    }

    /** A read cipher change; refused while anything of the current epoch is left. */
    method SetReadState(next: ReadCipher) returns (ok: bool)
      requires Valid()
      modifies records, records.bitmap
      ensures Valid() && (ok <==> !old(State()).HasUnprocessed())
      ensures !ok ==> State() == old(State())
      ensures ok ==> State() == old(State()).(rec :=
        ReadState((old(records.rEpoch) + 1) % 0x1_0000, ReplayWindow.EmptyWindow, next, records.closed))
    {
      var unprocessed := HasUnprocessed();
      if unprocessed {
        return false;
      }
      records.NextEpoch(next);
      ok := true;
    }
  }
}
