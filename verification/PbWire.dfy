/**
 * Integers on the wire: base-128 varints, zigzag and little-endian words.
 *
 * The C decoders build their result with shifts and ORs in a fixed-width register; `Or`, `Shl` and
 * the explicit remainders keep that form, and the lemmas show when it is plain arithmetic.
 */
module PbWire {
  import opened Bytes

  const U32: nat := 0x1_0000_0000
  const U64: nat := 0x1_0000_0000_0000_0000

  /** What is left of a stream after a successful read, or failure. */
  datatype Read<+T> = Fail | Done(value: T, rest: seq<byte>)

  /** `v` shifted left by `k` bits, in an unbounded word. */
  function Shl(v: nat, k: nat): (r: nat)
    ensures r >= v
  {
    if k == 0 then v else 2 * Shl(v, k - 1)
  }

  /** Bitwise or of two unbounded words. */
  function Or(a: nat, b: nat): nat {
    if a == 0 then b
    else if b == 0 then a
    else 2 * Or(a / 2, b / 2) + (if a % 2 == 1 || b % 2 == 1 then 1 else 0)
  }

  // ---- shifts and disjoint bits ----

  lemma {:induction false} ShlSum(a: nat, b: nat, k: nat)
    ensures Shl(a + b, k) == Shl(a, k) + Shl(b, k)
  {
    if k > 0 {
      ShlSum(a, b, k - 1);
    }
  }

  lemma {:induction false} ShlDouble(v: nat, k: nat)
    ensures Shl(2 * v, k) == 2 * Shl(v, k) == Shl(v, k + 1)
  {
    if k > 0 {
      ShlDouble(v, k - 1);
    }
  }

  lemma {:induction false} ShlSeven(v: nat, k: nat)
    ensures Shl(128 * v, k) == Shl(v, k + 7) == 128 * Shl(v, k)
  {
    ShlDouble(v, k); ShlDouble(2 * v, k); ShlDouble(4 * v, k); ShlDouble(8 * v, k);
    ShlDouble(16 * v, k); ShlDouble(32 * v, k); ShlDouble(64 * v, k);
    ShlDouble(v, k + 1); ShlDouble(v, k + 2); ShlDouble(v, k + 3);
    ShlDouble(v, k + 4); ShlDouble(v, k + 5); ShlDouble(v, k + 6);
  }

  lemma {:induction false} ShlTwice(v: nat, j: nat, k: nat)
    ensures Shl(Shl(v, j), k) == Shl(v, j + k)
  {
    if k > 0 {
      ShlTwice(v, j, k - 1);
    }
  }

  lemma {:induction false} ShlOrder(a: nat, b: nat, k: nat)
    requires a <= b
    ensures Shl(a, k) <= Shl(b, k)
  {
    ShlSum(a, b - a, k);
  }

  lemma {:induction false} ShlLonger(v: nat, j: nat, k: nat)
    requires j <= k
    ensures Shl(v, j) <= Shl(v, k)
  {
    if j < k {
      ShlLonger(v, j, k - 1);
    }
  }

  lemma {:induction false} ShlZero(v: nat)
    ensures Shl(v, 0) == v
  {
  }

  lemma {:induction false} ShlValues()
    ensures Shl(1, 0) == 1 && Shl(1, 7) == 128 && Shl(1, 28) == 0x1000_0000 && Shl(1, 32) == U32
    ensures Shl(1, 63) == 0x8000_0000_0000_0000 && Shl(1, 64) == U64 && Shl(1, 70) == 64 * U64
  {
    hide Shl;
    ShlZero(1);
    ShlSeven(1, 0); ShlSeven(1, 7); ShlSeven(1, 14); ShlSeven(1, 21); ShlSeven(1, 28);
    ShlSeven(1, 35); ShlSeven(1, 42); ShlSeven(1, 49); ShlSeven(1, 56); ShlSeven(1, 63);
    ShlDouble(1, 28); ShlDouble(1, 29); ShlDouble(1, 30); ShlDouble(1, 31); ShlDouble(1, 63);
  }

  lemma {:induction false} SmallRemainder(v: nat, m: nat)
    requires v < m
    ensures v % m == v
  {
  }

  /** Below the shifted word there is room for `a`: or is then addition. */
  lemma {:induction false} OrDisjoint(a: nat, b: nat, k: nat)
    requires a < Shl(1, k)
    ensures Or(a, Shl(b, k)) == a + Shl(b, k)
  {
    if k > 0 {
      OrDisjoint(a / 2, b, k - 1);
    }
  }

  lemma {:induction false} OrBound(a: nat, b: nat, k: nat)
    requires a < Shl(1, k) && b < Shl(1, k)
    ensures Or(a, b) < Shl(1, k)
  {
    if a != 0 && b != 0 {
      OrBound(a / 2, b / 2, k - 1);
    }
  }

  // ---- the encoder ----

  /** Seven bits a byte, lowest first, the top bit set on all but the last. */
  function Varint(v: nat): (s: seq<byte>)
    ensures |s| >= 1
  {
    if v < 128 then [v] else [128 + v % 128] + Varint(v / 128)
  }

  lemma {:induction false} VarintWidth(v: nat, n: nat)
    requires n >= 1 && v < Shl(1, 7 * n)
    ensures |Varint(v)| <= n
  {
    ShlSeven(1, 7 * (n - 1));
    if v >= 128 {
      VarintWidth(v / 128, n - 1);
    }
  }

  /** Every 64-bit value fits the ten-byte buffer of the encoder. */
  lemma {:induction false} VarintAtMostTen(v: nat)
    requires v < U64
    ensures |Varint(v)| <= 10
  {
    ShlValues();
    VarintWidth(v, 10);
  }

  // ---- the 64-bit decoder ----

  /** The decoding loop: `bitpos` is where the next seven bits go. */
  function Varint64From(s: seq<byte>, bitpos: nat, result: nat): (r: Read<nat>)
    ensures r.Done? ==> |r.rest| < |s|
    decreases |s|
  {
    if bitpos >= 64 || s == [] then Fail
    else
      var next := Or(result, Shl(s[0] % 128, bitpos) % U64);
      if s[0] >= 128 then Varint64From(s[1..], bitpos + 7, next) else Done(next, s[1..])
  }

  function DecodeVarint(s: seq<byte>): (r: Read<nat>)
    ensures r.Done? ==> |r.rest| < |s|
  {
    Varint64From(s, 0, 0)
  }

  /** Moving the low seven bits of `v` into the result keeps the value that the two stand for. */
  lemma {:induction false} ShiftStep(result: nat, v: nat, k: nat)
    requires result < Shl(1, k)
    ensures result + Shl(v % 128, k) < Shl(1, k + 7)
    ensures result + Shl(v % 128, k) + Shl(v / 128, k + 7) == result + Shl(v, k)
    ensures v >= 128 ==> Shl(v, k) >= Shl(1, k + 7)
  {
    var low, high := v % 128, v / 128;
    ShlSum(low, 1, k);
    ShlOrder(low + 1, 128, k);
    ShlSeven(1, k);
    ShlSeven(high, k);
    ShlSum(128 * high, low, k);
    if v >= 128 { ShlOrder(128, v, k); }
  }

  /** The register step of both decoders, while the value fits the register. */
  lemma {:induction false} MoveSeven(result: nat, v: nat, k: nat, limit: nat)
    requires result < Shl(1, k) && result + Shl(v, k) < limit
    ensures Or(result, Shl(v % 128, k) % limit) == result + Shl(v % 128, k)
  {
    hide Or;
    ShlOrder(v % 128, v, k);
    OrDisjoint(result, v % 128, k);
    SmallRemainder(Shl(v % 128, k), limit);
  }

  lemma {:induction false} VarintBytes(v: nat, rest: seq<byte>)
    ensures var s := Varint(v) + rest;
      && s != [] && s[0] % 128 == v % 128 && (s[0] >= 128 <==> v >= 128)
      && (if v < 128 then s[0] == v && s[1..] == rest
          else s[0] == 128 + v % 128 && s[1..] == Varint(v / 128) + rest)
  {
    var s := Varint(v) + rest;
    assert v < 128 ==> s[1..] == rest;
    assert v >= 128 ==> s[1..] == Varint(v / 128) + rest;
  }

  lemma {:induction false} VarintRoundTripFrom(v: nat, k: nat, result: nat, rest: seq<byte>)
    requires result < Shl(1, k) && result + Shl(v, k) < U64 && k < 64
    ensures Varint64From(Varint(v) + rest, k, result) == Done(result + Shl(v, k), rest)
    decreases v
  {
    hide Shl, Or, Varint;
    VarintBytes(v, rest);
    ShiftStep(result, v, k);
    MoveSeven(result, v, k, U64);
    if v >= 128 {
      ShlValues();
      if k + 7 >= 64 { ShlLonger(1, 64, k + 7); }
      VarintRoundTripFrom(v / 128, k + 7, result + Shl(v % 128, k), rest);
    }
  }

  /** Every 64-bit value survives, whatever follows it. */
  lemma {:induction false} VarintRoundTrip(v: nat, rest: seq<byte>)
    requires v < U64
    ensures DecodeVarint(Varint(v) + rest) == Done(v, rest)
  {
    VarintRoundTripFrom(v, 0, 0, rest);
  }

  // ---- the 32-bit decoder, used for tags and lengths ----

  /** Past bit 31 a byte must carry no bits, or belong to the sign extension of a negative value. */
  predicate StrayBits(b: byte, bitpos: nat, result: nat) {
    && bitpos >= 32 && b % 128 != 0
    && (result / 0x8000_0000 == 0 || b != (if bitpos < 63 then 0xff else 0x01))
  }

  function Merge32(b: byte, bitpos: nat, result: nat): nat {
    if bitpos >= 32 then result else Or(result, Shl(b % 128, bitpos) % U32)
  }

  /** The multi-byte loop; its position counter is eight bits wide. */
  function Varint32From(s: seq<byte>, bitpos: nat, result: nat): (r: Read<nat>)
    ensures r.Done? ==> |r.rest| < |s|
    decreases |s|
  {
    if s == [] || StrayBits(s[0], bitpos, result) then Fail
    else
      var next, pos := Merge32(s[0], bitpos, result), (bitpos + 7) % 256;
      if s[0] >= 128 then Varint32From(s[1..], pos, next)
      else if pos == 35 && s[0] / 16 % 8 != 0 then Fail
      else Done(next, s[1..])
  }

  function DecodeVarint32(s: seq<byte>): (r: Read<nat>)
    ensures r.Done? ==> |r.rest| < |s|
  {
    if s == [] then Fail
    else if s[0] < 128 then Done(s[0], s[1..])
    else Varint32From(s[1..], 7, s[0] % 128)
  }

  /** While the value fits, and the byte is not past bit 31, a step is plain arithmetic. */
  lemma {:induction false} Merge32Adds(b: byte, v: nat, k: nat, result: nat)
    requires k < 32 && b % 128 == v % 128 && result < Shl(1, k) && result + Shl(v % 128, k) < U32
    ensures !StrayBits(b, k, result) && Merge32(b, k, result) == result + Shl(v % 128, k)
  {
    hide Shl, Or;
    MoveSeven(result, v % 128, k, U32);
  }

  lemma {:induction false} Varint32FitsFrom(v: nat, k: nat, result: nat, rest: seq<byte>)
    requires k == 7 || k == 14 || k == 21 || k == 28
    requires result < Shl(1, k) && result + Shl(v, k) < U32
    ensures Varint32From(Varint(v) + rest, k, result) == Done(result + Shl(v, k), rest)
    decreases v
  {
    hide Shl, Varint, Merge32, StrayBits;
    VarintBytes(v, rest);
    ShiftStep(result, v, k);
    Merge32Adds((Varint(v) + rest)[0], v, k, result);
    if v < 128 {
      ShlValues();
      if k == 28 { TopBits(result, v); }
    } else {
      ShlValues();
      if k == 28 { ShlLonger(1, 32, 35); }
      Varint32FitsFrom(v / 128, k + 7, result + Shl(v % 128, k), rest);
    }
  }

  /** Past bit 31, what is left of a value below 2^63 is never taken for a sign extension. */
  lemma {:induction false} Varint32HighFails(v: nat, k: nat, result: nat, rest: seq<byte>)
    requires 35 <= k < 63 && v >= 1 && v < Shl(1, 63 - k)
    ensures Varint32From(Varint(v) + rest, k, result) == Fail
    decreases v
  {
    hide Shl, Varint, Merge32;
    VarintBytes(v, rest);
    if v >= 128 {
      ShlValues();
      if 63 - k <= 7 { ShlLonger(1, 63 - k, 7); }
      ShlSeven(1, 63 - k - 7);
      Varint32HighFails(v / 128, k + 7, Merge32((Varint(v) + rest)[0], k, result), rest);
    }
  }

  lemma {:induction false} Varint32TooLargeFrom(v: nat, k: nat, result: nat, rest: seq<byte>)
    requires k == 7 || k == 14 || k == 21 || k == 28
    requires result < Shl(1, k) && U32 <= result + Shl(v, k) < 0x8000_0000_0000_0000
    ensures Varint32From(Varint(v) + rest, k, result) == Fail
    decreases v
  {
    hide Shl, Varint, Merge32;
    VarintBytes(v, rest);
    ShlValues();
    ShiftStep(result, v, k);
    if v < 128 {
      if k < 28 { ShlLonger(1, k + 7, 28); }
      TopBits(result, v);
    } else {
      if k < 28 {
        ShlLonger(1, k + 7, 28);
        Merge32Adds((Varint(v) + rest)[0], v, k, result);
        Varint32TooLargeFrom(v / 128, k + 7, result + Shl(v % 128, k), rest);
      } else {
        ShlTwice(1, 28, 35);
        if v / 128 >= Shl(1, 28) { ShlOrder(Shl(1, 28), v / 128, 35); }
        Varint32HighFails(v / 128, 35, Merge32((Varint(v) + rest)[0], 28, result), rest);
      }
    }
  }

  /** The fifth byte overflows a 32-bit value exactly when one of its bits 4 to 6 is set. */
  lemma {:induction false} TopBits(result: nat, v: nat)
    requires v < 128 && result < 0x1000_0000
    ensures result + Shl(v, 28) >= U32 <==> v / 16 % 8 != 0
  {
    hide Shl;
    ShlByTwentyEight(v);
  }

  lemma {:induction false} ShlByTwentyEight(v: nat)
    ensures Shl(v, 28) == 0x1000_0000 * v
  {
    hide Shl;
    ShlZero(v);
    ShlSeven(v, 0); ShlSeven(v, 7); ShlSeven(v, 14); ShlSeven(v, 21);
  }

  /** A value below 2^63 is accepted exactly when it fits 32 bits, and then read back. */
  lemma {:induction false} Varint32Exact(v: nat, rest: seq<byte>)
    requires v < 0x8000_0000_0000_0000
    ensures DecodeVarint32(Varint(v) + rest) == if v < U32 then Done(v, rest) else Fail
  {
    hide Shl, Or, Varint, Varint32From;
    VarintBytes(v, rest);
    ShlValues();
    ShlZero(v); ShlZero(v % 128);
    ShiftStep(0, v, 0);
    if v >= 128 {
      if v < U32 {
        Varint32FitsFrom(v / 128, 7, v % 128, rest);
      } else {
        Varint32TooLargeFrom(v / 128, 7, v % 128, rest);
      }
    }
  }

  /** The bytes of a sign extension are skipped. */
  lemma {:induction false} SignTail(k: nat, result: nat, rest: seq<byte>)
    requires k == 35 || k == 42 || k == 49 || k == 56 || k == 63
    requires result / 0x8000_0000 != 0
    ensures Varint32From(Varint(Shl(1, 64 - k) - 1) + rest, k, result) == Done(result, rest)
    decreases 63 - k
  {
    hide Shl, Varint;
    var v := Shl(1, 64 - k) - 1;
    VarintBytes(v, rest);
    if k == 63 {
      ShlZero(1);
      ShlDouble(1, 0);
    } else {
      ShlSeven(1, 64 - k - 7);
      ShlPositive(64 - k - 7);
      assert v / 128 == Shl(1, 64 - k - 7) - 1;
      SignTail(k + 7, result, rest);
    }
  }

  lemma {:induction false} ShlPositive(k: nat)
    ensures Shl(1, k) >= 1 && (k > 0 ==> Shl(1, k) >= 2)
  {
  }

  lemma {:induction false} FifthByteOfNegative(i: int, v: nat, result: nat)
    requires -0x8000_0000 <= i < 0 && result < 0x1000_0000 && result + Shl(v, 28) == i + U64
    ensures v / 128 == 0x1fff_ffff
    ensures result + Shl(v % 128, 28) % U32 == i + U32
    ensures Shl(v % 128, 28) % U32 == Shl(v % 16, 28)
  {
    hide Shl;
    ShlByTwentyEight(v); ShlByTwentyEight(v % 128); ShlByTwentyEight(v % 16);
    assert 0x10_0000_0000 - 8 <= v < 0x10_0000_0000;
    var j := 0x10_0000_0000 - v;
    assert v == 128 * 0x1fff_ffff + (128 - j);
    assert v % 128 == 128 - j && v % 16 == 16 - j;
    assert 0x1000_0000 * (128 - j) == 0x1000_0000 * (16 - j) + 7 * U32;
  }

  lemma {:induction false} NegativeIsLong(i: int, v: nat, k: nat, result: nat)
    requires -0x8000_0000 <= i < 0 && k <= 28 && result < Shl(1, k) && result + Shl(v, k) == i + U64
    ensures v >= 128
  {
    hide Shl;
    if v < 128 {
      ShlOrder(v, 128, k);
      ShlSeven(1, k);
      ShlLonger(1, k, 28);
      ShlValues();
    }
  }

  lemma {:induction false} Varint32NegativeFrom(i: int, v: nat, k: nat, result: nat, rest: seq<byte>)
    requires -0x8000_0000 <= i < 0 && (k == 7 || k == 14 || k == 21 || k == 28)
    requires result < Shl(1, k) && result + Shl(v, k) == i + U64
    ensures Varint32From(Varint(v) + rest, k, result) == Done(i + U32, rest)
    decreases v
  {
    hide Shl, Varint, Merge32, StrayBits;
    VarintBytes(v, rest);
    NegativeIsLong(i, v, k, result);
    ShiftStep(result, v, k);
    ShlValues();
    if k < 28 {
      ShlLonger(1, k + 7, 28);
      Merge32Adds((Varint(v) + rest)[0], v, k, result);
      Varint32NegativeFrom(i, v / 128, k + 7, result + Shl(v % 128, k), rest);
    } else {
      NegativeTail(i, v, result, rest);
    }
  }

  lemma {:induction false} NegativeTail(i: int, v: nat, result: nat, rest: seq<byte>)
    requires -0x8000_0000 <= i < 0 && result < 0x1000_0000 && result + Shl(v, 28) == i + U64 && v >= 128
    ensures Varint32From(Varint(v) + rest, 28, result) == Done(i + U32, rest)
  {
    hide Shl, Or, Varint;
    VarintBytes(v, rest);
    ShlValues();
    FifthByteOfNegative(i, v, result);
    OrDisjoint(result, v % 16, 28);
    ShlValue29();
    SignTail(35, i + U32, rest);
  }

  lemma {:induction false} ShlValue29()
    ensures Shl(1, 29) == 0x2000_0000
  {
    hide Shl;
    ShlValues();
    ShlDouble(1, 28);
  }

  /** A negative 32-bit value, sign-extended to 64 bits by the encoder, comes back as its low 32 bits. */
  lemma {:induction false} Varint32Negative(i: int, rest: seq<byte>)
    requires -0x8000_0000 <= i < 0
    ensures DecodeVarint32(Varint(i + U64) + rest) == Done(i + U32, rest)
  {
    hide Shl, Or, Varint, Varint32From;
    var v := i + U64;
    VarintBytes(v, rest);
    ShlValues();
    ShlZero(v); ShlZero(v % 128);
    ShiftStep(0, v, 0);
    Varint32NegativeFrom(i, v / 128, 7, v % 128, rest);
  }

  // ---- signed values ----

  /** The conversion of a signed 64-bit value to unsigned. */
  function Unsigned(i: int): (n: nat)
    requires -0x8000_0000_0000_0000 <= i < U64
    ensures n < U64
  {
    if i < 0 then i + U64 else i
  }

  /** The low `size` bytes of a 64-bit word, read as a two's complement number. */
  function Signed(n: int, size: nat): (i: int) {
    var low := n % Shl(1, 8 * size);
    if 2 * low >= Shl(1, 8 * size) then low - Shl(1, 8 * size) else low
  }

  function ZigZag(i: int): (n: nat)
    requires -0x8000_0000_0000_0000 <= i < 0x8000_0000_0000_0000
    ensures n < U64
  {
    if i < 0 then U64 - 1 - 2 * Unsigned(i) % U64 else 2 * i
  }

  function UnZigZag(n: nat): (i: int)
    requires n < U64
  {
    if n % 2 == 1 then (U64 - 1 - n / 2) - U64 else n / 2
  }

  /** Zigzag interleaves the signed values: small magnitudes get small codes, and none is lost. */
  lemma {:induction false} ZigZagRoundTrip(i: int)
    requires -0x8000_0000_0000_0000 <= i < 0x8000_0000_0000_0000
    ensures ZigZag(i) == (if i < 0 then -2 * i - 1 else 2 * i)
    ensures UnZigZag(ZigZag(i)) == i
  {
  }

  lemma {:induction false} UnZigZagRoundTrip(n: nat)
    requires n < U64
    ensures -0x8000_0000_0000_0000 <= UnZigZag(n) < 0x8000_0000_0000_0000 && ZigZag(UnZigZag(n)) == n
  {
  }

  // ---- fixed-width words ----

  function LittleEndian(v: nat, n: nat): (s: seq<byte>)
    ensures |s| == n
  {
    if n == 0 then [] else [v % 256] + LittleEndian(v / 256, n - 1)
  }

  function FromLittleEndian(s: seq<byte>): nat {
    if s == [] then 0 else s[0] + 256 * FromLittleEndian(s[1..])
  }

  lemma {:induction false} LittleEndianRoundTrip(v: nat, n: nat)
    requires v < Shl(1, 8 * n)
    ensures FromLittleEndian(LittleEndian(v, n)) == v
  {
    if n > 0 {
      ShlSeven(1, 8 * n - 8);
      ShlDouble(1, 8 * n - 1);
      LittleEndianRoundTrip(v / 256, n - 1);
      assert LittleEndian(v, n)[1..] == LittleEndian(v / 256, n - 1);
    }
  }

  // ---- tags and length-delimited values ----

  const WT_VARINT: nat := 0
  const WT_64BIT: nat := 1
  const WT_STRING: nat := 2
  const WT_32BIT: nat := 5

  function EncodeTag(tag: nat, wireType: nat): (s: seq<byte>)
    ensures |s| >= 1
  {
    Varint(8 * tag + wireType)
  }

  /** A zero byte where a tag is expected ends the message. */
  datatype TagRead = TagFail | TagEnd(rest: seq<byte>) | Tag(tag: nat, wireType: nat, rest: seq<byte>)

  function DecodeTag(s: seq<byte>): (r: TagRead)
    ensures !r.TagFail? ==> |r.rest| < |s|
    ensures r.Tag? ==> r.wireType < 8
  {
    match DecodeVarint32(s)
    case Fail => TagFail
    case Done(temp, rest) => if temp == 0 then TagEnd(rest) else Tag(temp / 8, temp % 8, rest)
  }

  lemma {:induction false} TagRoundTrip(tag: nat, wireType: nat, rest: seq<byte>)
    requires wireType < 8 && 8 * tag < U32 && 8 * tag + wireType > 0
    ensures DecodeTag(EncodeTag(tag, wireType) + rest) == Tag(tag, wireType, rest)
  {
    hide Varint, DecodeVarint32;
    Varint32Exact(8 * tag + wireType, rest);
  }

  lemma {:induction false} TagEnds(rest: seq<byte>)
    ensures DecodeTag([0] + rest) == TagEnd(rest)
  {
    assert ([0] + rest)[1..] == rest;
  }

  /** A length prefix and that many bytes: the substream, and what follows it once it is closed. */
  function Split(s: seq<byte>): (r: Read<seq<byte>>)
    ensures r.Done? ==> |r.value| + |r.rest| < |s|
  {
    match DecodeVarint32(s)
    case Fail => Fail
    case Done(n, rest) => if |rest| < n then Fail else Done(rest[..n], rest[n..])
  }

  /** The length is written as a 64-bit varint. */
  function Delimited(body: seq<byte>): (s: seq<byte>)
    ensures |s| > |body|
  {
    Varint(|body| % U64) + body
  }

  function Framed(body: Option<seq<byte>>): Option<seq<byte>> {
    if body.Some? then Some(Delimited(body.value)) else None
  }

  lemma {:induction false} DelimitedShort(body: seq<byte>)
    requires |body| < U64
    ensures Delimited(body) == Varint(|body|) + body
  {
  }

  lemma {:induction false} SplitRoundTrip(body: seq<byte>, rest: seq<byte>)
    requires |body| < U32
    ensures Split(Delimited(body) + rest) == Done(body, rest)
  {
    hide DecodeVarint32, Delimited;
    DelimitedShort(body);
    assert Delimited(body) + rest == Varint(|body|) + (body + rest);
    Varint32Exact(|body|, body + rest);
    assert (body + rest)[..|body|] == body && (body + rest)[|body|..] == rest;
  }

  function SkipVarint(s: seq<byte>): (r: Read<()>)
    ensures r.Done? ==> |r.rest| < |s|
  {
    if s == [] then Fail
    else if s[0] >= 128 then SkipVarint(s[1..])
    else Done((), s[1..])
  }

  function Drop(s: seq<byte>, n: nat): (r: Read<()>)
    ensures r.Done? ==> |r.rest| == |s| - n
  {
    if |s| < n then Fail else Done((), s[n..])
  }

  /** Stepping over the value of an unknown field. */
  function Skip(wireType: nat, s: seq<byte>): (r: Read<()>)
    ensures r.Done? ==> |r.rest| <= |s|
  {
    if wireType == WT_VARINT then SkipVarint(s)
    else if wireType == WT_64BIT then Drop(s, 8)
    else if wireType == WT_STRING then
      match Split(s) { case Fail => Fail case Done(_, rest) => Done((), rest) }
    else if wireType == WT_32BIT then Drop(s, 4)
    else Fail
  }

  // ---- readers look no further than what they consume ----

  /** What a reader of `s` that left `rest` has consumed. */
  function Consumed(s: seq<byte>, rest: seq<byte>): (r: seq<byte>)
    requires |rest| <= |s|
    ensures |r| == |s| - |rest|
  {
    s[..|s| - |rest|]
  }

  lemma {:induction false} Varint64Local(s: seq<byte>, k: nat, result: nat, x: seq<byte>)
    requires Varint64From(s, k, result).Done?
    ensures var r := Varint64From(s, k, result);
      s == Consumed(s, r.rest) + r.rest && Varint64From(Consumed(s, r.rest) + x, k, result) == Done(r.value, x)
    decreases |s|
  {
    hide Shl, Or;
    var r := Varint64From(s, k, result);
    var t := Consumed(s, r.rest) + x;
    if s[0] >= 128 {
      var next := Or(result, Shl(s[0] % 128, k) % U64);
      Varint64Local(s[1..], k + 7, next, x);
      assert t[1..] == Consumed(s[1..], r.rest) + x;
    } else {
      assert t[1..] == x;
    }
  }

  lemma {:induction false} Varint32Local(s: seq<byte>, k: nat, result: nat, x: seq<byte>)
    requires Varint32From(s, k, result).Done?
    ensures var r := Varint32From(s, k, result);
      s == Consumed(s, r.rest) + r.rest && Varint32From(Consumed(s, r.rest) + x, k, result) == Done(r.value, x)
    decreases |s|
  {
    hide Merge32, StrayBits;
    var r := Varint32From(s, k, result);
    var t := Consumed(s, r.rest) + x;
    if s[0] >= 128 {
      Varint32Local(s[1..], (k + 7) % 256, Merge32(s[0], k, result), x);
      assert t[1..] == Consumed(s[1..], r.rest) + x;
    } else {
      assert t[1..] == x;
    }
  }

  lemma {:induction false} DecodeVarint32Local(s: seq<byte>, x: seq<byte>)
    requires DecodeVarint32(s).Done?
    ensures var r := DecodeVarint32(s);
      s == Consumed(s, r.rest) + r.rest && DecodeVarint32(Consumed(s, r.rest) + x) == Done(r.value, x)
  {
    hide Varint32From;
    var r := DecodeVarint32(s);
    var t := Consumed(s, r.rest) + x;
    if s[0] >= 128 {
      Varint32Local(s[1..], 7, s[0] % 128, x);
      assert t[1..] == Consumed(s[1..], r.rest) + x;
    } else {
      assert t[1..] == x;
    }
  }

  lemma {:induction false} DecodeTagLocal(s: seq<byte>, x: seq<byte>)
    requires !DecodeTag(s).TagFail?
    ensures var r := DecodeTag(s);
      s == Consumed(s, r.rest) + r.rest && DecodeTag(Consumed(s, r.rest) + x) == r.(rest := x)
  {
    hide DecodeVarint32;
    DecodeVarint32Local(s, x);
  }

  lemma {:induction false} SplitLocal(s: seq<byte>, x: seq<byte>)
    requires Split(s).Done?
    ensures var r := Split(s);
      s == Consumed(s, r.rest) + r.rest && Split(Consumed(s, r.rest) + x) == Done(r.value, x)
  {
    hide DecodeVarint32;
    var len, r := DecodeVarint32(s), Split(s);
    DecodeVarint32Local(s, r.value + x);
    assert Consumed(s, r.rest) + x == Consumed(s, len.rest) + (r.value + x);
    assert (r.value + x)[..|r.value|] == r.value && (r.value + x)[|r.value|..] == x;
  }

  lemma {:induction false} SkipVarintLocal(s: seq<byte>, x: seq<byte>)
    requires SkipVarint(s).Done?
    ensures var r := SkipVarint(s);
      s == Consumed(s, r.rest) + r.rest && SkipVarint(Consumed(s, r.rest) + x) == Done((), x)
    decreases |s|
  {
    var r := SkipVarint(s);
    var t := Consumed(s, r.rest) + x;
    if s[0] >= 128 {
      SkipVarintLocal(s[1..], x);
      assert t[1..] == Consumed(s[1..], r.rest) + x;
    } else {
      assert t[1..] == x;
    }
  }

  lemma {:induction false} DropLocal(s: seq<byte>, n: nat, x: seq<byte>)
    requires n <= |s|
    ensures s == Consumed(s, s[n..]) + s[n..] && Drop(Consumed(s, s[n..]) + x, n) == Done((), x)
  {
    assert (s[..n] + x)[n..] == x;
  }

  lemma {:induction false} SkipLocal(wireType: nat, s: seq<byte>, x: seq<byte>)
    requires Skip(wireType, s).Done?
    ensures var r := Skip(wireType, s);
      s == Consumed(s, r.rest) + r.rest && Skip(wireType, Consumed(s, r.rest) + x) == Done((), x)
  {
    hide SkipVarint, Split;
    if wireType == WT_VARINT {
      SkipVarintLocal(s, x);
    } else if wireType == WT_STRING {
      SplitLocal(s, x);
    } else {
      DropLocal(s, if wireType == WT_64BIT then 8 else 4, x);
    }
  }
}
