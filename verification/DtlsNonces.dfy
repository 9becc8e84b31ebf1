/** Over any sequence of records sealed and keys changed, no nonce is used twice under one key. */
module DtlsNonces {
  import opened Bytes
  import opened DtlsRecord
  import opened DtlsSealing
  import opened DtlsFlight
  import AeadContext

  /** What the record layer is asked to do: seal a record under the current or the previous epoch, or change keys. */
  datatype Op = SealOne(typ: byte, plaintext: seq<byte>, previous: bool, maxOut: nat) | ChangeKeys(next: WriteCipher)

  ghost predicate Possible(ws: WriteState, op: Op) {
    if op.SealOne? then op.previous ==> ws.epoch >= 1 else op.next.Valid()
  }

  /** The state after one operation, and the record it has made, if any. */
  function Perform(ws: WriteState, op: Op): (r: (WriteState, Option<WireRecord>))
    requires ws.Valid() && Possible(ws, op)
    ensures r.0.Valid()
  {
    match op
    case SealOne(typ, plaintext, previous, maxOut) => ws.Seal(typ, plaintext, previous, maxOut)
    case ChangeKeys(next) => (ws.NextEpoch(next), None)
  }

  /** A counter wraps. */
  ghost predicate Wraps(ws: WriteState, op: Op)
    requires ws.Valid() && Possible(ws, op)
  {
    if op.SealOne? then !ws.GrowsTo(Perform(ws, op).0) else ws.epoch == 0xffff
  }

  /** All of it is possible, and no counter wraps on the way. */
  ghost predicate Runs(ws: WriteState, ops: seq<Op>)
    requires ws.Valid()
    decreases |ops|
  {
    ops == [] || (Possible(ws, ops[0]) && !Wraps(ws, ops[0]) && Runs(Perform(ws, ops[0]).0, ops[1..]))
  }

  /** The records made, in order. */
  ghost function Sealed(ws: WriteState, ops: seq<Op>): seq<WireRecord>
    requires ws.Valid() && Runs(ws, ops)
    decreases |ops|
  {
    if ops == [] then []
    else
      var (next, record) := Perform(ws, ops[0]);
      (if record.Some? then [record.value] else []) + Sealed(next, ops[1..])
  }

  lemma OneNumber(ws: WriteState, op: Op)
    requires ws.Valid() && Possible(ws, op) && !Wraps(ws, op)
    ensures var (next, record) := Perform(ws, op);
      && (forall pair | ws.Spent(pair) :: next.Spent(pair))
      && (record.Some? ==> record.value.Valid() && !ws.Spent(NumberOf(record.value)) && next.Spent(NumberOf(record.value)))
  {
    hide WireRecord.Sequence, WriteCipher.Seal;
  }

  /** Every record has a number that was free before and that no later record has. */
  lemma {:induction false} NumbersFree(ws: WriteState, ops: seq<Op>, i: nat)
    requires ws.Valid() && Runs(ws, ops) && i < |Sealed(ws, ops)|
    ensures Sealed(ws, ops)[i].Valid() && !ws.Spent(NumberOf(Sealed(ws, ops)[i]))
    decreases |ops|
  {
    hide WriteState.Spent, Perform, Wraps, Possible;
    OneNumber(ws, ops[0]);
    var (next, record) := Perform(ws, ops[0]);
    var made := if record.Some? then 1 else 0;
    if i >= made {
      NumbersFree(next, ops[1..], i - made);
    }
  }

  lemma {:induction false} NumbersDistinct(ws: WriteState, ops: seq<Op>, i: nat, j: nat)
    requires ws.Valid() && Runs(ws, ops) && i < j < |Sealed(ws, ops)|
    ensures NumberOf(Sealed(ws, ops)[i]) != NumberOf(Sealed(ws, ops)[j])
    decreases |ops|
  {
    hide WriteState.Spent, Perform, Wraps, Possible;
    OneNumber(ws, ops[0]);
    var (next, record) := Perform(ws, ops[0]);
    var made := if record.Some? then 1 else 0;
    if i >= made {
      NumbersDistinct(next, ops[1..], i - made, j - made);
    } else {
      NumbersFree(next, ops[1..], j - made);
    }
  }

  /**
   * Two records of one epoch, which is to say under one key, never share a nonce that is built from the number,
   * whatever was sealed, retransmitted or rekeyed in between.
   */
  lemma NoncesUsedOnce(ws: WriteState, ops: seq<Op>, i: nat, j: nat, p: AeadContext.Params)
    requires ws.Valid() && Runs(ws, ops) && i < j < |Sealed(ws, ops)| && p.Valid() && !p.randomNonce
    requires Sealed(ws, ops)[i].epoch == Sealed(ws, ops)[j].epoch
    ensures Sealed(ws, ops)[i].Valid() && Sealed(ws, ops)[j].Valid()
    ensures AeadContext.Nonce(p, Sealed(ws, ops)[i].Sequence()) != AeadContext.Nonce(p, Sealed(ws, ops)[j].Sequence())
  {
    hide Runs, Sealed, AeadContext.Nonce, WireRecord.Sequence;
    NumbersFree(ws, ops, i);
    NumbersFree(ws, ops, j);
    NumbersDistinct(ws, ops, i, j);
    var a, b := Sealed(ws, ops)[i], Sealed(ws, ops)[j];
    if AeadContext.Nonce(p, a.Sequence()) == AeadContext.Nonce(p, b.Sequence()) {
      AeadContext.NoncesDistinct(p, a, b);
    }
  }
}
