/**
 * The nonce and the additional data of a protected record: built by the sender, rebuilt by the
 * receiver. The AEAD itself is any pair of functions of which one undoes the other.
 */
module AeadContext {
  import opened Bytes
  import opened DtlsRecord

  const MAX_NONCE_LENGTH: nat := 16
  const TLS1_3: nat := 0x0304
  const SSL3: nat := 0x0300

  datatype Algorithm = ChaCha20 | AesGcm | OtherCipher

  /** What is fixed when a context is created. */
  datatype Params = Params(fixedNonce: seq<byte>, variableLen: nat, includedInRecord: bool, randomNonce: bool,
                           omitLength: bool, omitVersion: bool, omitAd: bool, xorFixed: bool)
  {
    /** What the assertions of the code say about the lengths. */
    predicate Valid() {
      && |fixedNonce| <= 12 && NonceLen() <= MAX_NONCE_LENGTH
      && (!randomNonce ==> variableLen == 8)
      && (xorFixed ==> !includedInRecord && variableLen <= |fixedNonce|)
      && (randomNonce ==> includedInRecord)
    }

    function NonceLen(): nat {
      if xorFixed then |fixedNonce| else |fixedNonce| + variableLen
    }

    function ExplicitNonceLen(): nat {
      if includedInRecord then variableLen else 0
    }
  }

  /** Which of the constructions a cipher and a protocol version use; no MAC key means a true AEAD. */
  function Create(protocolVersion: nat, alg: Algorithm, hasMacKey: bool, fixedIv: seq<byte>, aeadNonceLen: nat): Params {
    if hasMacKey then Params([], aeadNonceLen, true, true, true, protocolVersion == SSL3, false, false)
    else if protocolVersion >= TLS1_3 then Params(fixedIv, 8, false, false, false, false, true, true)
    else if alg == ChaCha20 then Params(fixedIv, 8, false, false, false, false, false, true)
    else
      Params(fixedIv, if aeadNonceLen >= |fixedIv| then aeadNonceLen - |fixedIv| else 0, alg == AesGcm,
             false, false, false, false, false)
  }

  /** The ciphers of TLS: 12-byte nonces with a fixed part of 12 or 4 bytes, or MAC-then-encrypt with its own nonce. */
  lemma CreateValid(protocolVersion: nat, alg: Algorithm, hasMacKey: bool, fixedIv: seq<byte>, aeadNonceLen: nat)
    requires if hasMacKey then aeadNonceLen <= MAX_NONCE_LENGTH
      else aeadNonceLen == 12 && |fixedIv| == if protocolVersion >= TLS1_3 || alg == ChaCha20 then 12 else 4
    ensures Create(protocolVersion, alg, hasMacKey, fixedIv, aeadNonceLen).Valid()
  {
  }

  // ---- exclusive or of bytes ----

  function Xor(a: nat, b: nat): nat {
    if a == 0 && b == 0 then 0 else 2 * Xor(a / 2, b / 2) + (a % 2 + b % 2) % 2
  }

  lemma {:induction false} XorBound(a: nat, b: nat, limit: nat)
    requires limit == 1 || limit == 2 || limit == 4 || limit == 8 || limit == 16 || limit == 32 || limit == 64 || limit == 128 || limit == 256
    requires a < limit && b < limit
    ensures Xor(a, b) < limit
  {
    if limit > 1 && (a != 0 || b != 0) {
      XorBound(a / 2, b / 2, limit / 2);
    }
  }

  lemma {:induction false} XorParts(a: nat, c: nat)
    ensures Xor(a, c) / 2 == Xor(a / 2, c / 2) && Xor(a, c) % 2 == (a % 2 + c % 2) % 2
  {
    if a == 0 && c == 0 {
      assert Xor(0, 0) == 0;
    }
  }

  lemma {:induction false} XorInjective(a: nat, b: nat, c: nat)
    requires Xor(a, c) == Xor(b, c)
    ensures a == b
    decreases a + b + c
  {
    hide Xor;
    if a != 0 || b != 0 || c != 0 {
      XorParts(a, c);
      XorParts(b, c);
      XorInjective(a / 2, b / 2, c / 2);
    }
  }

  function XorBytes(a: seq<byte>, b: seq<byte>): (r: seq<byte>)
    requires |a| == |b|
    ensures |r| == |a|
  {
    if a == [] then []
    else
      XorBound(a[0], b[0], 256);
      [Xor(a[0], b[0]) as byte] + XorBytes(a[1..], b[1..])
  }

  lemma {:induction false} XorBytesAt(a: seq<byte>, b: seq<byte>, k: nat)
    requires |a| == |b| && k < |a|
    ensures XorBytes(a, b)[k] == Xor(a[k], b[k])
  {
    if k > 0 {
      XorBytesAt(a[1..], b[1..], k - 1);
    }
  }

  lemma {:induction false} XorBytesInjective(a: seq<byte>, b: seq<byte>, c: seq<byte>)
    requires |a| == |b| == |c| && XorBytes(a, c) == XorBytes(b, c)
    ensures a == b
  {
    forall k | 0 <= k < |a| ensures a[k] == b[k] {
      XorBytesAt(a, c, k);
      XorBytesAt(b, c, k);
      XorInjective(a[k], b[k], c[k]);
    }
  }

  // ---- nonce and additional data ----

  function Zeros(n: nat): (s: seq<byte>)
    ensures |s| == n
  {
    seq(n, _ => 0)
  }

  function Nonce(p: Params, variable: seq<byte>): (s: seq<byte>)
    requires p.Valid() && |variable| == p.variableLen
    ensures |s| == p.NonceLen()
  {
    if p.xorFixed then XorBytes(Zeros(|p.fixedNonce| - p.variableLen) + variable, p.fixedNonce)
    else p.fixedNonce + variable
  }

  /** Under one context, different variable parts make different nonces. */
  lemma {:induction false} NonceInjective(p: Params, a: seq<byte>, b: seq<byte>)
    requires p.Valid() && |a| == |b| == p.variableLen && Nonce(p, a) == Nonce(p, b)
    ensures a == b
  {
    var front := if p.xorFixed then Zeros(|p.fixedNonce| - p.variableLen) else p.fixedNonce;
    if p.xorFixed {
      XorBytesInjective(front + a, front + b, p.fixedNonce);
    }
    assert (front + a)[|front|..] == a && (front + b)[|front|..] == b;
  }

  function AdditionalData(p: Params, typ: byte, version: nat, seqnum: seq<byte>, plaintextLen: nat): (s: seq<byte>)
    requires |seqnum| == 8
    ensures |s| <= 13
  {
    if p.omitAd then []
    else
      seqnum + [typ]
      + (if p.omitVersion then [] else [ByteOf(version, 1), ByteOf(version, 0)])
      + (if p.omitLength then [] else [ByteOf(plaintextLen, 1), ByteOf(plaintextLen, 0)])
  }

  /** The AEAD under one key. */
  datatype Aead = Aead(overhead: nat,
                       seal: (seq<byte>, seq<byte>, seq<byte>) -> Option<seq<byte>>,
                       open: (seq<byte>, seq<byte>, seq<byte>) -> Option<seq<byte>>)
  {
    /** What was sealed opens again, under the same nonce and data; where the length is authenticated the overhead is fixed. */
    ghost predicate Correct(fixedOverhead: bool) {
      && (forall n, x, ad :: seal(n, x, ad).Some? ==> open(n, seal(n, x, ad).value, ad) == Some(x))
      && (fixedOverhead ==> forall n, x, ad :: seal(n, x, ad).Some? ==> |seal(n, x, ad).value| == |x| + overhead)
    }
  }

  /** The nonce put together in a buffer: fixed part or padding, variable part, and the fixed part mixed in. */
  method AssembleNonce(p: Params, nonce: array<byte>, variable: seq<byte>) returns (len: nat)
    requires p.Valid() && nonce.Length == MAX_NONCE_LENGTH && |variable| == p.variableLen
    modifies nonce
    ensures len == p.NonceLen() && nonce[..len] == Nonce(p, variable)
  {
    hide XorBytes, Xor;
    var front := if p.xorFixed then Zeros(|p.fixedNonce| - p.variableLen) else p.fixedNonce;
    forall k | 0 <= k < |front| {
      nonce[k] := front[k];
    }
    len := |front|;
    forall k | 0 <= k < |variable| {
      nonce[len + k] := variable[k];
    }
    len := len + |variable|;
    assert nonce[..len] == front + variable;
    if p.xorFixed {
      XorInPlace(nonce, p.fixedNonce);
    }
  }

  method XorInPlace(nonce: array<byte>, mask: seq<byte>)
    requires |mask| <= nonce.Length
    modifies nonce
    ensures nonce[..|mask|] == XorBytes(old(nonce[..|mask|]), mask)
    ensures nonce[|mask|..] == old(nonce[|mask|..])
  {
    hide XorBytes, Xor;
    ghost var was := nonce[..|mask|];
    var i := 0;
    while i < |mask|
      invariant 0 <= i <= |mask|
      invariant forall k | 0 <= k < i :: nonce[k] as int == Xor(was[k], mask[k])
      invariant forall k | i <= k < nonce.Length :: nonce[k] == old(nonce[k])
    {
      XorBound(nonce[i], mask[i], 256);
      nonce[i] := Xor(nonce[i], mask[i]);
      i := i + 1;
    }
    forall k | 0 <= k < |mask| ensures nonce[k] == XorBytes(was, mask)[k] {
      XorBytesAt(was, mask, k);
    }
  }

  method GetAdditionalData(p: Params, out: array<byte>, typ: byte, version: nat, seqnum: seq<byte>, plaintextLen: nat)
    returns (len: nat)
    requires out.Length == 13 && |seqnum| == 8
    modifies out
    ensures len <= 13 && out[..len] == AdditionalData(p, typ, version, seqnum, plaintextLen)
  {
    if p.omitAd {
      return 0;
    }
    forall k | 0 <= k < 8 {
      out[k] := seqnum[k];
    }
    out[8] := typ;
    len := 9;
    if !p.omitVersion {
      out[len] := ByteOf(version, 1);
      out[len + 1] := ByteOf(version, 0);
      len := len + 2;
    }
    if !p.omitLength {
      out[len] := ByteOf(plaintextLen, 1);
      out[len + 1] := ByteOf(plaintextLen, 0);
      len := len + 2;
    }
  }

  // ---- sealing and opening ----

  /** The explicit nonce of the record, and the ciphertext behind it. */
  function Seal(p: Params, aead: Aead, typ: byte, version: nat, seqnum: seq<byte>, plaintext: seq<byte>, random: seq<byte>)
    : Option<seq<byte>>
    requires p.Valid() && |seqnum| == 8 && |random| == p.variableLen
  {
    var variable := if p.randomNonce then random else seqnum;
    match aead.seal(Nonce(p, variable), plaintext, AdditionalData(p, typ, version, seqnum, |plaintext|))
    case None => None
    case Some(ct) => Some((if p.includedInRecord then variable else []) + ct)
  }

  function Open(p: Params, aead: Aead, typ: byte, version: nat, seqnum: seq<byte>, record: seq<byte>): Option<seq<byte>>
    requires p.Valid() && |seqnum| == 8
  {
    var overhead := p.ExplicitNonceLen() + aead.overhead;
    if !p.omitLength && |record| < overhead then None
    else if p.includedInRecord && |record| < p.variableLen then None
    else
      var plaintextLen := if p.omitLength then 0 else |record| - overhead;
      var variable := if p.includedInRecord then record[..p.variableLen] else seqnum;
      aead.open(Nonce(p, variable), record[p.ExplicitNonceLen()..], AdditionalData(p, typ, version, seqnum, plaintextLen))
  }

  method SealRecord(p: Params, aead: Aead, typ: byte, version: nat, seqnum: seq<byte>, plaintext: seq<byte>, random: seq<byte>)
    returns (r: Option<seq<byte>>)
    requires p.Valid() && |seqnum| == 8 && |random| == p.variableLen
    ensures r == Seal(p, aead, typ, version, seqnum, plaintext, random)
  {
    hide Nonce;
    var ad, nonce := new byte[13], new byte[MAX_NONCE_LENGTH];
    var adLen := GetAdditionalData(p, ad, typ, version, seqnum, |plaintext|);
    var variable := if p.randomNonce then random else seqnum;
    var nonceLen := AssembleNonce(p, nonce, variable);
    r := aead.seal(nonce[..nonceLen], plaintext, ad[..adLen]);
    if r.Some? {
      r := Some((if p.includedInRecord then variable else []) + r.value);
    }
  }

  method OpenRecord(p: Params, aead: Aead, typ: byte, version: nat, seqnum: seq<byte>, record: seq<byte>)
    returns (r: Option<seq<byte>>)
    requires p.Valid() && |seqnum| == 8
    ensures r == Open(p, aead, typ, version, seqnum, record)
  {
    hide Nonce;
    var plaintextLen := 0;
    if !p.omitLength {
      if |record| < p.ExplicitNonceLen() + aead.overhead {
        return None;
      }
      plaintextLen := |record| - (p.ExplicitNonceLen() + aead.overhead);
    }
    var ad, nonce := new byte[13], new byte[MAX_NONCE_LENGTH];
    var adLen := GetAdditionalData(p, ad, typ, version, seqnum, plaintextLen);
    var variable, body := seqnum, record;
    if p.includedInRecord {
      if |record| < p.variableLen {
        return None;
      }
      variable, body := record[..p.variableLen], record[p.variableLen..];
    }
    var nonceLen := AssembleNonce(p, nonce, variable);
    r := aead.open(nonce[..nonceLen], body, ad[..adLen]);
  }

  /** The receiver rebuilds what the sender used: sealed records open, for every construction. */
  lemma {:induction false} OpenUndoesSeal(p: Params, aead: Aead, typ: byte, version: nat, seqnum: seq<byte>,
                                          plaintext: seq<byte>, random: seq<byte>)
    requires p.Valid() && |seqnum| == 8 && |random| == p.variableLen && aead.Correct(!p.omitLength)
    requires Seal(p, aead, typ, version, seqnum, plaintext, random).Some?
    ensures Open(p, aead, typ, version, seqnum, Seal(p, aead, typ, version, seqnum, plaintext, random).value) == Some(plaintext)
  {
    hide Nonce, AdditionalData;
    var variable := if p.randomNonce then random else seqnum;
    var record := Seal(p, aead, typ, version, seqnum, plaintext, random).value;
    var ct := aead.seal(Nonce(p, variable), plaintext, AdditionalData(p, typ, version, seqnum, |plaintext|)).value;
    if p.includedInRecord {
      assert record[..p.variableLen] == variable && record[p.variableLen..] == ct;
    } else {
      assert record == ct && record[0..] == ct;
    }
    if p.omitLength {
      LengthOmitted(p, typ, version, seqnum, |plaintext|);
    }
  }

  lemma LengthOmitted(p: Params, typ: byte, version: nat, seqnum: seq<byte>, n: nat)
    requires p.omitLength && |seqnum| == 8
    ensures AdditionalData(p, typ, version, seqnum, n) == AdditionalData(p, typ, version, seqnum, 0)
  {
  }

  // ---- the four constructions, byte by byte ----

  /** What is authenticated beside the plaintext: number, type, version and length, in this order. */
  predicate IsTlsData(ad: seq<byte>, typ: byte, version: nat, seqnum: seq<byte>, n: nat) {
    && |ad| == 13 && ad[..8] == seqnum && ad[8] == typ
    && 256 * (ad[9] as int) + ad[10] as int == version && 256 * (ad[11] as int) + ad[12] as int == n
  }

  /** The sealed plaintext, behind this prefix. */
  function Behind(prefix: seq<byte>, ct: Option<seq<byte>>): Option<seq<byte>> {
    match ct case None => None case Some(b) => Some(prefix + b)
  }

  /** AES-GCM before TLS 1.3: the nonce is the salt and the number, and the number goes out in front. */
  lemma SealsGcm(protocolVersion: nat, fixedIv: seq<byte>, aead: Aead, typ: byte, version: nat, seqnum: seq<byte>,
                 plaintext: seq<byte>, random: seq<byte>) returns (ad: seq<byte>)
    requires protocolVersion < TLS1_3 && |fixedIv| == 4 && |seqnum| == |random| == 8 && version < 0x1_0000 && |plaintext| < 0x1_0000
    ensures Create(protocolVersion, AesGcm, false, fixedIv, 12).Valid() && IsTlsData(ad, typ, version, seqnum, |plaintext|)
    ensures Seal(Create(protocolVersion, AesGcm, false, fixedIv, 12), aead, typ, version, seqnum, plaintext, random)
         == Behind(seqnum, aead.seal(fixedIv + seqnum, plaintext, ad))
  {
    var p := Create(protocolVersion, AesGcm, false, fixedIv, 12);
    ad := AdditionalData(p, typ, version, seqnum, |plaintext|);
  }

  /** And back: a record too short for the number and the tag is refused, and any other is opened with what it brings. */
  lemma OpensGcm(protocolVersion: nat, fixedIv: seq<byte>, aead: Aead, typ: byte, version: nat, seqnum: seq<byte>, record: seq<byte>)
    returns (ad: seq<byte>)
    requires protocolVersion < TLS1_3 && |fixedIv| == 4 && |seqnum| == 8 && version < 0x1_0000 && |record| < 0x1_0000
    ensures Create(protocolVersion, AesGcm, false, fixedIv, 12).Valid()
    ensures var r := Open(Create(protocolVersion, AesGcm, false, fixedIv, 12), aead, typ, version, seqnum, record);
      if |record| < 8 + aead.overhead then r == None
      else
        && IsTlsData(ad, typ, version, seqnum, |record| - 8 - aead.overhead)
        && r == aead.open(fixedIv + record[..8], record[8..], ad)
  {
    var p := Create(protocolVersion, AesGcm, false, fixedIv, 12);
    var n := |record| - 8 - aead.overhead;
    ad := if n < 0 then [] else AdditionalData(p, typ, version, seqnum, n);
  }

  /** The number, filled up with zeros in front, mixed into the 12 bytes of the fixed part. */
  predicate IsMixed(nonce: seq<byte>, fixedIv: seq<byte>, seqnum: seq<byte>)
    requires |fixedIv| == 12 && |seqnum| == 8
  {
    && |nonce| == 12 && nonce[..4] == fixedIv[..4]
    && forall k | 0 <= k < 8 :: nonce[4 + k] as int == Xor(seqnum[k], fixedIv[4 + k])
  }

  lemma {:induction false} XorZero(b: nat)
    ensures Xor(0, b) == b
  {
    if b > 0 {
      XorZero(b / 2);
    }
  }

  lemma {:induction false} NonceIsMixed(p: Params, seqnum: seq<byte>)
    requires p.Valid() && p.xorFixed && |p.fixedNonce| == 12 && p.variableLen == |seqnum| == 8
    ensures IsMixed(Nonce(p, seqnum), p.fixedNonce, seqnum)
  {
    hide Xor, XorBytes;
    var padded := Zeros(4) + seqnum;
    var nonce := Nonce(p, seqnum);
    forall k | 0 <= k < 12 ensures nonce[k] as int == Xor(padded[k], p.fixedNonce[k]) {
      XorBytesAt(padded, p.fixedNonce, k);
    }
    forall k | 0 <= k < 4 ensures nonce[k] == p.fixedNonce[k] {
      XorZero(p.fixedNonce[k]);
    }
    forall k | 0 <= k < 8 ensures nonce[4 + k] as int == Xor(seqnum[k], p.fixedNonce[4 + k]) {
      assert padded[4 + k] == seqnum[k];
    }
  }

  /** ChaCha20-Poly1305 before TLS 1.3: the number is mixed into the fixed part, and nothing goes in front. */
  lemma SealsChaCha(protocolVersion: nat, fixedIv: seq<byte>, aead: Aead, typ: byte, version: nat, seqnum: seq<byte>,
                    plaintext: seq<byte>, random: seq<byte>) returns (nonce: seq<byte>, ad: seq<byte>)
    requires protocolVersion < TLS1_3 && |fixedIv| == 12 && |seqnum| == |random| == 8 && version < 0x1_0000 && |plaintext| < 0x1_0000
    ensures Create(protocolVersion, ChaCha20, false, fixedIv, 12).Valid()
    ensures IsMixed(nonce, fixedIv, seqnum) && IsTlsData(ad, typ, version, seqnum, |plaintext|)
    ensures Seal(Create(protocolVersion, ChaCha20, false, fixedIv, 12), aead, typ, version, seqnum, plaintext, random)
         == Behind([], aead.seal(nonce, plaintext, ad))
  {
    hide Nonce, IsMixed;
    var p := Create(protocolVersion, ChaCha20, false, fixedIv, 12);
    nonce, ad := Nonce(p, seqnum), AdditionalData(p, typ, version, seqnum, |plaintext|);
    NonceIsMixed(p, seqnum);
  }

  /** TLS 1.3, with any cipher: the number is mixed in, and nothing is authenticated beside the plaintext. */
  lemma SealsTls13(protocolVersion: nat, alg: Algorithm, fixedIv: seq<byte>, aead: Aead, typ: byte, version: nat, seqnum: seq<byte>,
                   plaintext: seq<byte>, random: seq<byte>) returns (nonce: seq<byte>)
    requires protocolVersion >= TLS1_3 && |fixedIv| == 12 && |seqnum| == |random| == 8
    ensures Create(protocolVersion, alg, false, fixedIv, 12).Valid() && IsMixed(nonce, fixedIv, seqnum)
    ensures Seal(Create(protocolVersion, alg, false, fixedIv, 12), aead, typ, version, seqnum, plaintext, random)
         == Behind([], aead.seal(nonce, plaintext, []))
  {
    hide Nonce, IsMixed;
    var p := Create(protocolVersion, alg, false, fixedIv, 12);
    nonce := Nonce(p, seqnum);
    NonceIsMixed(p, seqnum);
  }

  /** Without a nonce in the record, a record too short for the tag is refused, and any other is opened. */
  lemma OpensChaCha(protocolVersion: nat, fixedIv: seq<byte>, aead: Aead, typ: byte, version: nat, seqnum: seq<byte>, record: seq<byte>)
    returns (nonce: seq<byte>, ad: seq<byte>)
    requires protocolVersion < TLS1_3 && |fixedIv| == 12 && |seqnum| == 8 && version < 0x1_0000 && |record| < 0x1_0000
    ensures Create(protocolVersion, ChaCha20, false, fixedIv, 12).Valid() && IsMixed(nonce, fixedIv, seqnum)
    ensures var r := Open(Create(protocolVersion, ChaCha20, false, fixedIv, 12), aead, typ, version, seqnum, record);
      if |record| < aead.overhead then r == None
      else IsTlsData(ad, typ, version, seqnum, |record| - aead.overhead) && r == aead.open(nonce, record, ad)
  {
    hide Nonce, IsMixed;
    var p := Create(protocolVersion, ChaCha20, false, fixedIv, 12);
    var n := |record| - aead.overhead;
    nonce := Nonce(p, seqnum);
    ad := if n < 0 then [] else AdditionalData(p, typ, version, seqnum, n);
    NonceIsMixed(p, seqnum);
    assert record[0..] == record;
  }

  /** MAC-then-encrypt: a random nonce that goes out in front; no length is given, and for SSL 3 no version. */
  lemma SealsMac(protocolVersion: nat, alg: Algorithm, fixedIv: seq<byte>, nonceLen: nat, aead: Aead, typ: byte, version: nat,
                 seqnum: seq<byte>, plaintext: seq<byte>, random: seq<byte>) returns (ad: seq<byte>)
    requires nonceLen <= MAX_NONCE_LENGTH && |seqnum| == 8 && |random| == nonceLen && version < 0x1_0000
    ensures Create(protocolVersion, alg, true, fixedIv, nonceLen).Valid()
    ensures |ad| == (if protocolVersion == SSL3 then 9 else 11) && ad[..8] == seqnum && ad[8] == typ
    ensures protocolVersion != SSL3 ==> 256 * (ad[9] as int) + ad[10] as int == version
    ensures Seal(Create(protocolVersion, alg, true, fixedIv, nonceLen), aead, typ, version, seqnum, plaintext, random)
         == Behind(random, aead.seal(random, plaintext, ad))
  {
    var p := Create(protocolVersion, alg, true, fixedIv, nonceLen);
    ad := AdditionalData(p, typ, version, seqnum, |plaintext|);
    assert [] + random == random;
  }

  /** Records with different epochs or sequence numbers never share a nonce that is built from them. */
  lemma {:induction false} NoncesDistinct(p: Params, a: WireRecord, b: WireRecord)
    requires p.Valid() && !p.randomNonce && a.Valid() && b.Valid()
    requires Nonce(p, a.Sequence()) == Nonce(p, b.Sequence())
    ensures a.epoch == b.epoch && a.seqNum == b.seqNum
  {
    hide Nonce;
    NonceInjective(p, a.Sequence(), b.Sequence());
    SequenceEpoch(a);
    SequenceEpoch(b);
    SequenceNumber(a);
    SequenceNumber(b);
  }
}
