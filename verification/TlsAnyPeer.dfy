/** A side that is done, whatever its peer was: what it has hashed, and the Finished that it has compared, as bytes. */
module TlsAnyPeer {
  import opened Bytes
  import opened TlsMachines
  import opened TlsOneSided
  import opened TlsOneSidedServer
  import opened TlsWire
  import opened TlsDriver

  /** Entry `i` is the Finished of this side, over all bytes hashed before it, and is itself hashed behind them. */
  ghost predicate FinishedOnBytes(hash: (seq<byte>, bool) -> seq<byte>, transcript: seq<byte>, log: seq<Entry>, i: nat, fromClient: bool)
    requires i < |log|
  {
    var before := Raws(Spoken(log[..i]));
    && log[i] == Said(fromClient, Message(Finished, hash(before, fromClient)))
    && before + RawOf(log[i].msg) <= transcript
  }

  lemma {:induction false} SpokenPrefix(log: seq<Entry>, i: nat)
    requires i <= |log|
    ensures Spoken(log[..i]) <= Spoken(log)
    decreases |log|
  {
    if i < |log| {
      SpokenPrefix(log[..|log| - 1], i);
      assert log[..|log| - 1][..i] == log[..i];
    } else {
      assert log[..i] == log;
    }
  }

  lemma ComparedOnBytes(p: Params, hash: (seq<byte>, bool) -> seq<byte>, log: seq<Entry>, i: nat, fromClient: bool)
    requires i < |log| && FinishedHere(p, log, i, fromClient) && forall ms, b :: p.mac(ms, b) == hash(Raws(ms), b)
    ensures FinishedOnBytes(hash, Raws(Spoken(log)), log, i, fromClient)
  {
    hide Raws, Spoken, RawOf;
    HashedBehind(log, i);
  }

  lemma HashedBehind(log: seq<Entry>, i: nat)
    requires i < |log| && log[i].Said?
    ensures Raws(Spoken(log[..i])) + RawOf(log[i].msg) <= Raws(Spoken(log))
  {
    hide Raws, Spoken, RawOf;
    OneSpoken(log[..i], log[i]);
    assert log[..i] + [log[i]] == log[..i + 1];
    SpokenPrefix(log, i + 1);
    RawsPrefix(Spoken(log[..i + 1]), Spoken(log));
    RawsAppend(Spoken(log[..i]), log[i].msg);
  }

  lemma OneSpoken(log: seq<Entry>, x: Entry)
    requires x.Said?
    ensures Spoken(log + [x]) == Spoken(log) + [x.msg]
  {
    assert (log + [x])[..|log|] == log;
  }

  /**
   * Against any peer: a client that is done has hashed the messages of a whole conversation, and among them is a
   * server's Finished that is the hash of all bytes before it.
   */
  lemma ClientOnBytes(hs: Side<ClientState>, inp: Pipe, p: Params, log: seq<Entry>) returns (i: nat)
    requires hs.Valid(inp) && hs.Agrees(p) && ClientFollows(p, hs.Now(), log) && hs.state == ClientDone
    ensures Kinds(log) == Conversation(ServersChoices(p, Kinds(log))) && hs.transcript == Raws(Spoken(log))
    ensures i < |log| && FinishedOnBytes(hs.hash, hs.transcript, log, i, false)
  {
    hide ClientFollows, Conversation, ServersChoices, Kinds, Spoken, LogOk, FinishedHere, Side.Sends, Side.Receives;
    ClientEnds(p, hs.Now(), log);
    i :| 0 <= i < |log| && FinishedHere(p, log, i, false);
    ComparedOnBytes(p, hs.hash, log, i, false);
  }

  /** The same for a server, with a client's Finished. */
  lemma ServerOnBytes(hs: Side<ServerState>, inp: Pipe, p: Params, log: seq<Entry>) returns (i: nat)
    requires hs.Valid(inp) && hs.Agrees(p) && ServerFollows(p, hs.Now(), log) && hs.state == ServerDone
    ensures Kinds(log) == Conversation(p.(clientCert := HasChain(log))) && hs.transcript == Raws(Spoken(log))
    ensures i < |log| && FinishedOnBytes(hs.hash, hs.transcript, log, i, true)
  {
    hide ServerFollows, Conversation, HasChain, Kinds, Spoken, LogOk, FinishedHere, Side.Sends, Side.Receives;
    ServerEnds(p, hs.Now(), log);
    i :| 0 <= i < |log| && FinishedHere(p, log, i, true);
    ComparedOnBytes(p, hs.hash, log, i, true);
  }
}
