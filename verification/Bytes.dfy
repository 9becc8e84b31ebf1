/** Bytes, optional values and the big-endian integers of TLS and DTLS headers. */
module Bytes {
  type byte = x: int | 0 <= x < 256

  datatype Option<+T> = None | Some(value: T)

  /** Byte `k` of the big-endian form of `n`, counted from the least significant one. */
  function ByteOf(n: nat, k: nat): (b: byte)
    requires k < 3
  {
    match k
    case 0 => n % 256
    case 1 => n / 256 % 256
    case _ => n / 256 / 256 % 256
  }

  function U16At(s: seq<byte>, i: nat): (n: nat)
    requires i + 2 <= |s|
    ensures n < 0x1_0000
  {
    s[i] as int * 256 + s[i + 1]
  }

  function U24At(s: seq<byte>, i: nat): (n: nat)
    requires i + 3 <= |s|
    ensures n < 0x100_0000
  {
    s[i] as int * 0x1_0000 + s[i + 1] as int * 256 + s[i + 2]
  }

  /** The 48-bit record sequence number. */
  function U48At(s: seq<byte>, i: nat): (n: nat)
    requires i + 6 <= |s|
    ensures n < 0x1_0000_0000_0000
  {
    U24At(s, i) * 0x100_0000 + U24At(s, i + 3)
  }

  lemma DivMod256(high: nat, low: nat)
    requires low < 256
    ensures (256 * high + low) / 256 == high && (256 * high + low) % 256 == low
  {
  }

  lemma U16FromBytes(n: nat, s: seq<byte>, i: nat)
    requires n < 0x1_0000 && i + 2 <= |s|
    requires s[i] == ByteOf(n, 1) && s[i + 1] == ByteOf(n, 0)
    ensures U16At(s, i) == n
  {
  }

  lemma U24FromBytes(n: nat, s: seq<byte>, i: nat)
    requires n < 0x100_0000 && i + 3 <= |s|
    requires s[i] == ByteOf(n, 2) && s[i + 1] == ByteOf(n, 1) && s[i + 2] == ByteOf(n, 0)
    ensures U24At(s, i) == n
  {
    var m := n / 256;
    assert n == 256 * m + n % 256;
    assert m == 256 * (m / 256) + m % 256 && m / 256 < 256;
  }

  lemma U48FromHalves(n: nat, s: seq<byte>, i: nat)
    requires n < 0x1_0000_0000_0000 && i + 6 <= |s|
    requires U24At(s, i) == n / 0x100_0000 && U24At(s, i + 3) == n % 0x100_0000
    ensures U48At(s, i) == n
  {
  }

  lemma BytesFromU24(s: seq<byte>, i: nat)
    requires i + 3 <= |s|
    ensures ByteOf(U24At(s, i), 2) == s[i] && ByteOf(U24At(s, i), 1) == s[i + 1] && ByteOf(U24At(s, i), 0) == s[i + 2]
  {
    DivMod256(s[i] as int * 256 + s[i + 1], s[i + 2]);
    DivMod256(s[i], s[i + 1]);
  }

  lemma BytesFromU16(s: seq<byte>, i: nat)
    requires i + 2 <= |s|
    ensures ByteOf(U16At(s, i), 1) == s[i] && ByteOf(U16At(s, i), 0) == s[i + 1]
  {
  }

  lemma Bytes16(n: nat)
    requires n < 0x1_0000
    ensures 0x100 * (ByteOf(n, 1) as int) + ByteOf(n, 0) as int == n
  {
  }

  lemma Bytes24(n: nat)
    requires n < 0x100_0000
    ensures 0x1_0000 * (ByteOf(n, 2) as int) + 0x100 * ByteOf(n, 1) as int + ByteOf(n, 0) as int == n
  {
    var m := n / 256;
    assert n == 256 * m + n % 256;
    assert m == 256 * (m / 256) + m % 256 && m / 256 < 256;
  }
}
