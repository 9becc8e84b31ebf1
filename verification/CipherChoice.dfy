/** The server's choice among the cipher suites that both sides offer. */
module CipherChoice {
  import opened Bytes

  datatype Cipher = Cipher(id: nat, minVersion: nat, maxVersion: nat, keyExchange: bv32, auth: bv32)

  /** What version and certificate leave possible. */
  datatype Config = Config(version: nat, keyMask: bv32, authMask: bv32)

  /** The bytes that mark a cipher as not the last of its equal-preference group. */
  type Flags = Option<seq<bool>>

  predicate Compatible(cfg: Config, c: Cipher) {
    c.minVersion <= cfg.version <= c.maxVersion && c.keyExchange & cfg.keyMask != 0 && c.auth & cfg.authMask != 0
  }

  // ---- what the configuration leaves possible ----

  const K_RSA: bv32 := 1
  const K_ECDHE: bv32 := 2
  const K_PSK: bv32 := 4
  const K_GENERIC: bv32 := 8
  const A_RSA: bv32 := 1
  const A_ECDSA: bv32 := 2
  const A_PSK: bv32 := 4
  const A_GENERIC: bv32 := 8

  datatype Key = Rsa | Ec | Ed25519 | OtherKey

  function AuthMaskForKey(key: Key): bv32 {
    match key
    case Rsa => A_RSA
    case Ec => A_ECDSA
    case Ed25519 => A_ECDSA
    case OtherKey => 0
  }

  /** The server has this certificate, shares a group with the client or not, and has a callback for PSKs or not. */
  function Masks(version: nat, certificate: Option<Key>, sharedGroup: bool, psk: bool): Config {
    var keyMask := if certificate == Some(Rsa) then K_RSA else 0;
    var authMask := if certificate.Some? then AuthMaskForKey(certificate.value) else 0;
    Config(version, keyMask | (if sharedGroup then K_ECDHE else 0) | (if psk then K_PSK else 0),
           authMask | (if psk then A_PSK else 0))
  }

  /** As every entry of the cipher table is: one key exchange and one authentication. */
  predicate InTable(c: Cipher) {
    && (c.keyExchange == K_RSA || c.keyExchange == K_ECDHE || c.keyExchange == K_PSK || c.keyExchange == K_GENERIC)
    && (c.auth == A_RSA || c.auth == A_ECDSA || c.auth == A_PSK || c.auth == A_GENERIC)
  }

  /**
   * A cipher is usable exactly if its versions allow it, the server can do its key exchange, and the server's key,
   * or its PSK, can do its authentication. The generic ciphers of TLS 1.3 are never among them.
   */
  lemma UsableIff(version: nat, certificate: Option<Key>, sharedGroup: bool, psk: bool, c: Cipher)
    requires InTable(c)
    ensures Compatible(Masks(version, certificate, sharedGroup, psk), c) <==>
      && c.minVersion <= version <= c.maxVersion
      && ((c.keyExchange == K_RSA && certificate == Some(Rsa)) || (c.keyExchange == K_ECDHE && sharedGroup)
          || (c.keyExchange == K_PSK && psk))
      && ((c.auth == A_RSA && certificate == Some(Rsa)) || (c.auth == A_ECDSA && (certificate == Some(Ec) || certificate == Some(Ed25519)))
          || (c.auth == A_PSK && psk))
  {
    KeyExchangeIff(version, certificate, sharedGroup, psk, c);
    AuthIff(version, certificate, sharedGroup, psk, c);
  }

  lemma KeyExchangeIff(version: nat, certificate: Option<Key>, sharedGroup: bool, psk: bool, c: Cipher)
    requires InTable(c)
    ensures c.keyExchange & Masks(version, certificate, sharedGroup, psk).keyMask != 0 <==>
      || (c.keyExchange == K_RSA && certificate == Some(Rsa)) || (c.keyExchange == K_ECDHE && sharedGroup)
      || (c.keyExchange == K_PSK && psk)
  {
  }

  lemma AuthIff(version: nat, certificate: Option<Key>, sharedGroup: bool, psk: bool, c: Cipher)
    requires InTable(c)
    ensures c.auth & Masks(version, certificate, sharedGroup, psk).authMask != 0 <==>
      || (c.auth == A_RSA && certificate == Some(Rsa)) || (c.auth == A_ECDSA && (certificate == Some(Ec) || certificate == Some(Ed25519)))
      || (c.auth == A_PSK && psk)
  {
  }

  /** The first position of a cipher in a list. */
  function Position(list: seq<Cipher>, c: Cipher): (r: Option<nat>)
    ensures r.Some? <==> c in list
    ensures r.Some? ==> r.value < |list| && list[r.value] == c && forall j | 0 <= j < r.value :: list[j] != c
  {
    if list == [] then None
    else if list[0] == c then Some(0)
    else match Position(list[1..], c) { case None => None case Some(k) => Some(k + 1) }
  }

  predicate InGroup(flags: Flags, i: nat) {
    flags.Some? && i < |flags.value| && flags.value[i]
  }

  /** The number of groups that end before entry `i`; without flags, every entry is a group. */
  function Group(flags: Flags, i: nat): (g: nat)
    ensures g <= i
  {
    if i == 0 then 0 else Group(flags, i - 1) + (if InGroup(flags, i - 1) then 0 else 1)
  }

  /** Some entry from `i` on ends the group. */
  predicate Closes(flags: Flags, n: nat, i: nat) {
    exists j | i <= j < n :: !InGroup(flags, j)
  }

  /** Entry `i` of the preferred list may be chosen. */
  predicate Candidate(cfg: Config, prio: seq<Cipher>, flags: Flags, allow: seq<Cipher>, i: nat) {
    i < |prio| && Compatible(cfg, prio[i]) && prio[i] in allow && Closes(flags, |prio|, i)
  }

  /** Entry `i` ranks no worse than `j`: an earlier group, or the same and an earlier place with the other side. */
  predicate NoWorse(prio: seq<Cipher>, flags: Flags, allow: seq<Cipher>, i: nat, j: nat)
    requires i < |prio| && j < |prio| && prio[i] in allow && prio[j] in allow
  {
    Group(flags, i) < Group(flags, j)
    || (Group(flags, i) == Group(flags, j) && Position(allow, prio[i]).value <= Position(allow, prio[j]).value)
  }

  lemma {:induction false} GroupGrows(flags: Flags, i: nat, j: nat)
    requires i <= j
    ensures Group(flags, i) <= Group(flags, j)
    ensures (exists k | i <= k < j :: !InGroup(flags, k)) ==> Group(flags, i) < Group(flags, j)
  {
    if i < j {
      GroupGrows(flags, i, j - 1);
    }
  }

  /** Entry `k` is the best of the open group among those before `i`. */
  ghost predicate BestSoFar(cfg: Config, prio: seq<Cipher>, flags: Flags, allow: seq<Cipher>, i: nat, groupMin: int) {
    && -1 <= groupMin < |allow| && i <= |prio|
    && (forall j | 0 <= j < i && Compatible(cfg, prio[j]) && prio[j] in allow ::
          Group(flags, j) == Group(flags, i) && 0 <= groupMin <= Position(allow, prio[j]).value)
    && (groupMin >= 0 ==> exists k | 0 <= k < i ::
          Compatible(cfg, prio[k]) && prio[k] in allow && Position(allow, prio[k]).value == groupMin)
  }

  /** The choice is a best candidate; there is none only when there is no candidate. */
  ghost predicate Best(cfg: Config, prio: seq<Cipher>, flags: Flags, allow: seq<Cipher>, r: Option<Cipher>) {
    match r
    case None => forall j: nat :: !Candidate(cfg, prio, flags, allow, j)
    case Some(c) => exists i: nat | Candidate(cfg, prio, flags, allow, i) ::
      c == prio[i] && forall j: nat | Candidate(cfg, prio, flags, allow, j) :: NoWorse(prio, flags, allow, i, j)
  }

  /** Entry `k`, best of its group up to `i`, is the best of all once the group ends at `i`. */
  lemma {:induction false} GroupEnds(cfg: Config, prio: seq<Cipher>, flags: Flags, allow: seq<Cipher>, i: nat, k: nat)
    requires k <= i < |prio| && !InGroup(flags, i)
    requires Compatible(cfg, prio[k]) && prio[k] in allow && Group(flags, k) == Group(flags, i)
    requires forall j | 0 <= j <= i && Compatible(cfg, prio[j]) && prio[j] in allow ::
      Group(flags, j) == Group(flags, i) && Position(allow, prio[k]).value <= Position(allow, prio[j]).value
    ensures Best(cfg, prio, flags, allow, Some(prio[k]))
  {
    hide Compatible, Position, Group;
    assert Candidate(cfg, prio, flags, allow, k);
    forall j: nat | Candidate(cfg, prio, flags, allow, j) ensures NoWorse(prio, flags, allow, k, j) {
      if j > i {
        GroupGrows(flags, i, j);
      }
    }
  }

  /** The loop goes on past entry `i`: its group stays open, or ends without a match. */
  lemma {:induction false} GoesOn(cfg: Config, prio: seq<Cipher>, flags: Flags, allow: seq<Cipher>, i: nat, groupMin: int, next: int)
    requires i < |prio| && BestSoFar(cfg, prio, flags, allow, i, groupMin)
    requires InGroup(flags, i) || groupMin == -1
    requires if Compatible(cfg, prio[i]) && prio[i] in allow
      then InGroup(flags, i)
        && next == (if groupMin == -1 || groupMin > Position(allow, prio[i]).value then Position(allow, prio[i]).value else groupMin)
      else next == groupMin
    ensures BestSoFar(cfg, prio, flags, allow, i + 1, next)
  {
    hide Compatible, Position;
    if Compatible(cfg, prio[i]) && prio[i] in allow && next != groupMin {
      assert Position(allow, prio[i]).value == next;
    }
  }

  method ChooseCipher(cfg: Config, prio: seq<Cipher>, flags: Flags, allow: seq<Cipher>) returns (r: Option<Cipher>)
    ensures Best(cfg, prio, flags, allow, r)
  {
    hide Compatible, Position, Best;
    var groupMin := -1;
    var i := 0;
    while i < |prio|
      invariant 0 <= i <= |prio| && BestSoFar(cfg, prio, flags, allow, i, groupMin)
      invariant flags.None? ==> groupMin == -1
    {
      ghost var was := groupMin;
      var c := prio[i];
      var at := Position(allow, c);
      if Compatible(cfg, c) && at.Some? {
        if InGroup(flags, i) {
          if groupMin == -1 || groupMin > at.value {
            groupMin := at.value;
          }
        } else {
          var index := if groupMin != -1 && groupMin < at.value then groupMin else at.value;
          ghost var k: nat := i;
          if groupMin != -1 && groupMin < at.value {
            k :| 0 <= k < i && Compatible(cfg, prio[k]) && prio[k] in allow && Position(allow, prio[k]).value == groupMin;
          }
          GroupEnds(cfg, prio, flags, allow, i, k);
          return Some(allow[index]);
        }
      }
      if flags.Some? && !InGroup(flags, i) && groupMin != -1 {
        ghost var k: nat :| 0 <= k < i && Compatible(cfg, prio[k]) && prio[k] in allow && Position(allow, prio[k]).value == groupMin;
        GroupEnds(cfg, prio, flags, allow, i, k);
        return Some(allow[groupMin]);
      }
      GoesOn(cfg, prio, flags, allow, i, was, groupMin);
      i := i + 1;
    }
    NoneLeft(cfg, prio, flags, allow, groupMin);
    return None;
  }

  lemma {:induction false} NoneLeft(cfg: Config, prio: seq<Cipher>, flags: Flags, allow: seq<Cipher>, groupMin: int)
    requires BestSoFar(cfg, prio, flags, allow, |prio|, groupMin)
    ensures Best(cfg, prio, flags, allow, None)
  {
    hide Compatible, Position, Group;
    forall j: nat ensures !Candidate(cfg, prio, flags, allow, j) {
      if Candidate(cfg, prio, flags, allow, j) {
        GroupGrows(flags, j, |prio|);
      }
    }
  }

  /** Server preference: the server's list with its groups against the client's; else the client's list alone. */
  method Negotiate(cfg: Config, serverPreference: bool, server: seq<Cipher>, inGroup: seq<bool>, client: seq<Cipher>)
    returns (r: Option<Cipher>)
    requires |inGroup| == |server| && (|server| > 0 ==> !inGroup[|server| - 1])
    ensures r.None? <==> forall c | c in server && c in client :: !Compatible(cfg, c)
    ensures r.Some? ==> r.value in server && r.value in client && Compatible(cfg, r.value)
    ensures r.Some? && serverPreference ==> Best(cfg, server, Some(inGroup), client, r)
    ensures r.Some? && !serverPreference ==> forall c | c in server && c in client && Compatible(cfg, c) ::
      Position(client, r.value).value <= Position(client, c).value
  {
    hide Compatible, Position;
    if serverPreference {
      r := ChooseCipher(cfg, server, Some(inGroup), client);
      SharedAreCandidates(cfg, server, Some(inGroup), client, r);
    } else {
      r := ChooseCipher(cfg, client, None, server);
      SharedAreCandidates(cfg, client, None, server, r);
      if r.Some? { FirstInList(cfg, client, server, r.value); }
    }
  }

  /** When the last entry ends its group, every shared compatible cipher is a candidate. */
  lemma {:induction false} SharedAreCandidates(cfg: Config, prio: seq<Cipher>, flags: Flags, allow: seq<Cipher>, r: Option<Cipher>)
    requires |prio| > 0 ==> !InGroup(flags, |prio| - 1)
    requires Best(cfg, prio, flags, allow, r)
    ensures r.None? <==> forall c | c in prio && c in allow :: !Compatible(cfg, c)
    ensures r.Some? ==> r.value in prio && r.value in allow && Compatible(cfg, r.value)
  {
    hide Compatible, Position, NoWorse;
    forall c | c in prio && c in allow && Compatible(cfg, c)
      ensures exists i: nat :: Candidate(cfg, prio, flags, allow, i)
    {
      var i :| 0 <= i < |prio| && prio[i] == c;
      assert Candidate(cfg, prio, flags, allow, i);
    }
  }

  /** Without groups the best is the first in the preferred list. */
  lemma {:induction false} FirstInList(cfg: Config, prio: seq<Cipher>, allow: seq<Cipher>, c: Cipher)
    requires Best(cfg, prio, None, allow, Some(c))
    ensures forall d | d in prio && d in allow && Compatible(cfg, d) ::
      Position(prio, c).Some? && Position(prio, c).value <= Position(prio, d).value
  {
    hide Compatible;
    forall d | d in prio && d in allow && Compatible(cfg, d)
      ensures Position(prio, c).Some? && Position(prio, c).value <= Position(prio, d).value
    {
      var j := Position(prio, d).value;
      assert !InGroup(None, j);
      assert Candidate(cfg, prio, None, allow, j);
      var i: nat :| Candidate(cfg, prio, None, allow, i) && c == prio[i] && NoWorse(prio, None, allow, i, j);
      UngroupedRank(i);
      UngroupedRank(j);
    }
  }

  lemma {:induction false} UngroupedRank(i: nat)
    ensures Group(None, i) == i
  {
    if i > 0 {
      UngroupedRank(i - 1);
    }
  }
}
