/** What the two varint decoders make of any input at all, not only of what the encoder writes. */
module PbVarintExact {
  import opened Bytes
  import opened PbWire

  /** Seven bits a byte, lowest first; the top bits do not count. */
  function Base128(s: seq<byte>): nat {
    if s == [] then 0 else s[0] % 128 + 128 * Base128(s[1..])
  }

  /** Byte `n` is the first whose top bit is clear. */
  predicate EndsAt(s: seq<byte>, n: nat) {
    n < |s| && s[n] < 128 && forall i | 0 <= i < n :: s[i] >= 128
  }

  predicate Endless(s: seq<byte>) {
    forall i | 0 <= i < |s| :: s[i] >= 128
  }

  lemma {:induction false} EndsOrNot(s: seq<byte>)
    ensures Endless(s) <==> forall n: nat :: !EndsAt(s, n)
  {
    if s != [] && s[0] >= 128 {
      EndsOrNot(s[1..]);
      if !Endless(s[1..]) {
        var n: nat :| EndsAt(s[1..], n);
        assert EndsAt(s, n + 1);
      }
    } else if s != [] {
      assert EndsAt(s, 0);
    }
  }

  lemma EndsLater(s: seq<byte>, n: nat)
    requires EndsAt(s, n) && n > 0
    ensures EndsAt(s[1..], n - 1) && s[1..][n..] == s[n + 1..] && s[..n + 1][1..] == s[1..][..n]
  {
  }

  // ---- 64 bits ----

  lemma {:induction false} Register(result: nat, v: nat, k: nat)
    requires v < 128 && k <= 63 && k % 7 == 0 && result < Shl(1, k)
    ensures Or(result, Shl(v, k) % U64) == (result + Shl(v, k)) % U64
    ensures k < 63 ==> result + Shl(v, k) < Shl(1, k + 7) <= Shl(1, 63)
  {
    hide Shl, Or;
    if k < 63 {
      WithRoom(result, v, k);
    } else {
      TenthByte(result, v);
    }
  }

  lemma {:induction false} WithRoom(result: nat, v: nat, k: nat)
    requires v < 128 && k + 7 <= 63 && result < Shl(1, k)
    ensures Or(result, Shl(v, k) % U64) == (result + Shl(v, k)) % U64
    ensures result + Shl(v, k) < Shl(1, k + 7) <= Shl(1, 63)
  {
    hide Shl, Or;
    ShlValues();
    ShiftStep(result, v, k);
    ShlLonger(1, k + 7, 63);
    OrDisjoint(result, v, k);
    SmallRemainder(Shl(v, k), U64);
    SmallRemainder(result + Shl(v, k), U64);
  }

  lemma {:induction false} TenthByte(result: nat, v: nat)
    requires v < 128 && result < Shl(1, 63)
    ensures Or(result, Shl(v, 63) % U64) == (result + Shl(v, 63)) % U64
  {
    hide Shl, Or;
    ShlValues();
    LastByte(v);
    OrDisjoint(result, v % 2, 63);
    SmallRemainder(result + Shl(v % 2, 63), U64);
    assert result + Shl(v, 63) == result + Shl(v % 2, 63) + v / 2 * U64;
  }

  /** Of the tenth byte only the lowest bit fits. */
  lemma {:induction false} LastByte(v: nat)
    requires v < 128
    ensures Shl(v, 63) == Shl(v % 2, 63) + v / 2 * U64 && Shl(v, 63) % U64 == Shl(v % 2, 63)
    ensures Shl(v % 2, 63) <= 0x8000_0000_0000_0000
  {
    hide Shl;
    ShlBy63(v);
    ShlBy63(v % 2);
  }

  lemma {:induction false} ShlBy63(v: nat)
    ensures Shl(v, 63) == 0x8000_0000_0000_0000 * v
  {
    hide Shl;
    ShlZero(v);
    ShlSeven(v, 0); ShlSeven(v, 7); ShlSeven(v, 14); ShlSeven(v, 21); ShlSeven(v, 28);
    ShlSeven(v, 35); ShlSeven(v, 42); ShlSeven(v, 49); ShlSeven(v, 56);
  }

  lemma {:induction false} ReadsFrom(s: seq<byte>, k: nat, result: nat, n: nat)
    requires EndsAt(s, n) && k % 7 == 0 && result < Shl(1, k) && k + 7 * n <= 63
    ensures Varint64From(s, k, result) == Done((result + Shl(Base128(s[..n + 1]), k)) % U64, s[n + 1..])
    decreases n
  {
    hide Shl, Or;
    var v := s[0] % 128;
    Register(result, v, k);
    assert s[..n + 1][0] == s[0];
    if n > 0 {
      EndsLater(s, n);
      SmallNow(result + Shl(v, k));
      ReadsFrom(s[1..], k + 7, result + Shl(v, k), n - 1);
      ShlSum(v, 128 * Base128(s[1..][..n]), k);
      ShlSeven(Base128(s[1..][..n]), k);
    } else {
      assert s[..1][1..] == [];
    }
  }

  lemma SmallNow(r: nat)
    requires r < Shl(1, 63)
    ensures r % U64 == r
  {
    hide Shl;
    ShlValues();
  }

  lemma {:induction false} TooLong(s: seq<byte>, k: nat, result: nat, n: nat)
    requires n <= |s| && k + 7 * n >= 64 && forall i | 0 <= i < n :: s[i] >= 128
    ensures Varint64From(s, k, result) == Fail
    decreases n
  {
    hide Shl, Or;
    if k < 64 {
      TooLong(s[1..], k + 7, Or(result, Shl(s[0] % 128, k) % U64), n - 1);
    }
  }

  lemma {:induction false} RunsOut(s: seq<byte>, k: nat, result: nat)
    requires Endless(s)
    ensures Varint64From(s, k, result) == Fail
    decreases |s|
  {
    hide Shl, Or;
    if k < 64 && s != [] {
      RunsOut(s[1..], k + 7, Or(result, Shl(s[0] % 128, k) % U64));
    }
  }

  /**
   * On every input: a varint is read exactly if it ends within ten bytes, and its value is the base-128 number,
   * of which the low 64 bits are kept.
   */
  lemma {:induction false} DecodeVarintIff(s: seq<byte>)
    ensures DecodeVarint(s).Done? <==> exists n: nat :: EndsAt(s, n) && n <= 9
    ensures forall n: nat | EndsAt(s, n) && n <= 9 :: DecodeVarint(s) == Done(Base128(s[..n + 1]) % U64, s[n + 1..])
  {
    hide Varint64From;
    EndsOrNot(s);
    if Endless(s) {
      RunsOut(s, 0, 0);
    } else {
      var n: nat :| EndsAt(s, n);
      if n <= 9 {
        ShlZero(1);
        ShlZero(Base128(s[..n + 1]));
        ReadsFrom(s, 0, 0, n);
      } else {
        TooLong(s, 0, 0, 10);
      }
      assert forall m: nat | EndsAt(s, m) :: m == n;
    }
  }

  // ---- 32 bits ----

  /** The step of the 32-bit register, up to the fifth byte. */
  lemma {:induction false} Register32(result: nat, b: byte, k: nat)
    requires (k == 7 || k == 14 || k == 21 || k == 28) && result < Shl(1, k)
    ensures !StrayBits(b, k, result) && Merge32(b, k, result) == (result + Shl(b % 128, k)) % U32
    ensures k < 28 ==> Merge32(b, k, result) == result + Shl(b % 128, k) < Shl(1, k + 7)
  {
    hide Shl, Or;
    ShlValues();
    if k < 28 {
      ShiftStep(result, b % 128, k);
      OrDisjoint(result, b % 128, k);
      ShlLonger(1, k + 7, 28);
      SmallRemainder(Shl(b % 128, k), U32);
      SmallRemainder(result + Shl(b % 128, k), U32);
    } else {
      FifthByte(result, b % 128);
    }
  }

  /** Of the fifth byte only the low four bits fit. */
  lemma {:induction false} FifthByte(result: nat, v: nat)
    requires result < 0x1000_0000 && v < 128
    ensures Or(result, Shl(v, 28) % U32) == (result + Shl(v, 28)) % U32
  {
    hide Shl, Or;
    ShlValues();
    ShlByTwentyEight(v);
    ShlByTwentyEight(v % 16);
    OrDisjoint(result, v % 16, 28);
    var low, high := v % 16, v / 16;
    assert v == 16 * high + low;
    assert Shl(v, 28) == Shl(low, 28) + high * U32;
    Multiple(Shl(low, 28), high);
    Multiple(result + Shl(low, 28), high);
  }

  lemma Multiple(r: nat, q: nat)
    requires r < U32
    ensures (r + q * U32) % U32 == r
  {
  }

  /** A byte behind the fifth that the decoder steps over: no bits, or the sign of a negative value. */
  predicate Extends(b: byte, i: nat, value: nat) {
    b % 128 == 0 || (value >= 0x8000_0000 && b == if i < 9 then 0xff else 0x01)
  }

  lemma {:induction false} StepsOver(s: seq<byte>, i: nat, result: nat, n: nat)
    requires EndsAt(s, n) && 5 <= i && i + n <= 36 && result < U32
    ensures Varint32From(s, 7 * i, result)
      == if forall j | 0 <= j <= n :: Extends(s[j], i + j, result) then Done(result, s[n + 1..]) else Fail
    decreases n
  {
    assert StrayBits(s[0], 7 * i, result) <==> !Extends(s[0], i, result);
    if Extends(s[0], i, result) && n > 0 {
      EndsLater(s, n);
      assert (7 * i + 7) % 256 == 7 * (i + 1);
      StepsOver(s[1..], i + 1, result, n - 1);
      assert forall j | 1 <= j <= n :: s[j] == s[1..][j - 1];
      assert forall j | 0 <= j < n :: s[1..][j] == s[j + 1];
    }
  }

  /** Bytes two to five. */
  lemma {:induction false} ReadsFrom32(s: seq<byte>, k: nat, result: nat, n: nat)
    requires k == 7 || k == 14 || k == 21 || k == 28
    requires EndsAt(s, n) && result < Shl(1, k) && k + 7 * n <= 28
    ensures var v := result + Shl(Base128(s[..n + 1]), k);
      Varint32From(s, k, result) == if v < U32 then Done(v, s[n + 1..]) else Fail
    decreases n
  {
    hide Shl, Merge32, StrayBits, Base128;
    var v := s[0] % 128;
    Register32(result, s[0], k);
    TakeOne(s, n + 1, k);
    if n > 0 {
      EndsLater(s, n);
      ReadsFrom32(s[1..], k + 7, result + Shl(v, k), n - 1);
    } else {
      assert s[1..][..0] == [];
      NoValue();
      FitsUntilFifth(result, v, k);
    }
  }

  /** Only the fifth byte can make the value too large. */
  lemma {:induction false} FitsUntilFifth(result: nat, v: nat, k: nat)
    requires (k == 7 || k == 14 || k == 21 || k == 28) && result < Shl(1, k) && v < 128
    ensures result + Shl(v, k) < U32 <==> k < 28 || v / 16 % 8 == 0
  {
    hide Shl;
    ShlValues();
    ShiftStep(result, v, k);
    if k == 28 {
      TopBits(result, v);
    } else {
      ShlLonger(1, k + 7, 28);
    }
  }

  /** The first five bytes, `m` of them from here: the value keeps its low 32 bits, and bits above are lost unseen. */
  lemma {:induction false} ReadsFive(s: seq<byte>, result: nat, m: nat, n: nat)
    requires 1 <= m <= 4 && EndsAt(s, n) && m <= n && result < Shl(1, 35 - 7 * m)
    ensures Varint32From(s, 35 - 7 * m, result)
         == Varint32From(s[m..], 35, (result + Shl(Base128(s[..m]), 35 - 7 * m)) % U32)
    decreases m
  {
    hide Shl, Merge32, StrayBits, Base128;
    var v, k := s[0] % 128, 35 - 7 * m;
    Register32(result, s[0], k);
    if m > 1 {
      EndsLater(s, n);
      ReadsFive(s[1..], result + Shl(v, k), m - 1, n - 1);
      assert s[1..][m - 1..] == s[m..];
      TakeOne(s, m, k);
    } else {
      TakeOne(s, 1, k);
      assert s[1..][..0] == [];
      NoValue();
    }
  }

  lemma TakeOne(s: seq<byte>, m: nat, k: nat)
    requires 1 <= m <= |s|
    ensures Shl(Base128(s[..m]), k) == Shl(s[0] % 128, k) + Shl(Base128(s[1..][..m - 1]), k + 7)
  {
    hide Shl;
    assert s[..m][0] == s[0] && s[..m][1..] == s[1..][..m - 1];
    ShlSum(s[0] % 128, 128 * Base128(s[1..][..m - 1]), k);
    ShlSeven(Base128(s[1..][..m - 1]), k);
  }

  lemma NoValue()
    ensures Base128([]) == Base128([0]) == 0
    ensures forall k: nat :: Shl(0, k) == 0
  {
    assert [0 as byte][1..] == [];
    forall k: nat ensures Shl(0, k) == 0 {
      ShlNothing(k);
    }
  }

  lemma {:induction false} ShlNothing(k: nat)
    ensures Shl(0, k) == 0
  {
    if k > 0 {
      ShlNothing(k - 1);
    }
  }

  lemma {:induction false} UpToFive(s: seq<byte>, n: nat)
    requires EndsAt(s, n) && n <= 4
    ensures DecodeVarint32(s) == if Base128(s[..n + 1]) < U32 then Done(Base128(s[..n + 1]), s[n + 1..]) else Fail
  {
    hide Varint32From;
    assert s[..n + 1][0] == s[0];
    if n == 0 {
      assert s[..1][1..] == [];
    } else {
      EndsLater(s, n);
      ShlValues();
      ReadsFrom32(s[1..], 7, s[0] % 128, n - 1);
      ShlSevenIs(Base128(s[1..][..n]));
    }
  }

  lemma {:induction false} MoreThanFive(s: seq<byte>, n: nat)
    requires EndsAt(s, n) && 5 <= n
    ensures DecodeVarint32(s) == Varint32From(s[5..], 35, Base128(s[..5]) % U32)
  {
    hide Varint32From;
    EndsLater(s, n);
    ShlValues();
    ReadsFive(s[1..], s[0] % 128, 4, n - 1);
    ShlSevenIs(Base128(s[1..][..4]));
    assert s[..5][1..] == s[1..][..4] && s[..5][0] == s[0] && s[1..][4..] == s[5..];
  }

  /**
   * On every input that ends within 37 bytes. Up to five bytes are read exactly if their value fits 32 bits. Of more,
   * the first five give the value, less any bits above 32, and the others must be empty or a sign extension.
   */
  lemma {:induction false} DecodeVarint32Iff(s: seq<byte>, n: nat)
    requires EndsAt(s, n) && n <= 36
    ensures DecodeVarint32(s) ==
      if n <= 4 then if Base128(s[..n + 1]) < U32 then Done(Base128(s[..n + 1]), s[n + 1..]) else Fail
      else
        var value := Base128(s[..5]) % U32;
        if forall i | 5 <= i <= n :: Extends(s[i], i, value) then Done(value, s[n + 1..]) else Fail
  {
    hide Varint32From, DecodeVarint32, Extends, Base128;
    if n <= 4 {
      UpToFive(s, n);
    } else {
      MoreThanFive(s, n);
      StepsOver(s[5..], 5, Base128(s[..5]) % U32, n - 5);
      assert forall i | 5 <= i <= n :: s[i] == s[5..][i - 5];
      assert forall j | 0 <= j <= n - 5 :: s[5..][j] == s[5 + j];
    }
  }

  lemma ShlSevenIs(v: nat)
    ensures Shl(v, 7) == 128 * v
  {
    hide Shl;
    ShlZero(v);
    ShlSeven(v, 0);
  }

  lemma ValueOf(b: byte, rest: seq<byte>)
    ensures Base128([b] + rest) == b % 128 + 128 * Base128(rest)
  {
    assert ([b] + rest)[1..] == rest;
  }

  lemma FiveBytes(rest: seq<byte>)
    ensures Base128([128, 128, 128, 128, 0xf0] + rest) == 0x1000_0000 * (112 + 128 * Base128(rest))
  {
    hide Base128;
    ValueOf(0xf0, rest);
    ValueOf(128, [0xf0] + rest);
    ValueOf(128, [128, 0xf0] + rest);
    ValueOf(128, [128, 128, 0xf0] + rest);
    ValueOf(128, [128, 128, 128, 0xf0] + rest);
    assert [128] + ([0xf0] + rest) == [128, 0xf0] + rest;
    assert [128] + ([128, 0xf0] + rest) == [128, 128, 0xf0] + rest;
    assert [128] + ([128, 128, 0xf0] + rest) == [128, 128, 128, 0xf0] + rest;
    assert [128] + ([128, 128, 128, 0xf0] + rest) == [128, 128, 128, 128, 0xf0] + rest;
  }

  lemma FiveAndEmpty(s: seq<byte>)
    requires |s| == 6 && s[5] == 0 && forall i | 0 <= i < 5 :: s[i] >= 128
    ensures DecodeVarint32(s) == Done(Base128(s[..5]) % U32, [])
  {
    hide DecodeVarint32, Base128;
    assert s[6..] == [];
    DecodeVarint32Iff(s, 5);
  }

  /** Bits above 32 are lost unseen: 7 times 2 to the 32, with an empty byte behind, is read as 0. */
  lemma HighBitsLost()
    ensures Base128([128, 128, 128, 128, 0xf0, 0]) == 7 * U32
    ensures DecodeVarint32([128, 128, 128, 128, 0xf0, 0]) == Done(0, [])
  {
    hide DecodeVarint32, Base128;
    var five: seq<byte> := [128, 128, 128, 128, 0xf0];
    var s := five + [0];
    assert s == [128, 128, 128, 128, 0xf0, 0];
    FiveBytes([]);
    FiveBytes([0]);
    NoValue();
    assert five + [] == five == s[..5];
    FiveAndEmpty(s);
  }

  function Padding(m: nat): (s: seq<byte>)
    ensures |s| == m && forall i | 0 <= i < m :: s[i] == 128
  {
    seq(m, _ => 128)
  }

  lemma {:induction false} PaddingMovesOn(m: nat, i: nat, rest: seq<byte>)
    requires 5 <= i && i + m <= 37
    ensures Varint32From(Padding(m) + rest, 7 * i % 256, 0) == Varint32From(rest, 7 * (i + m) % 256, 0)
    decreases m
  {
    var s := Padding(m) + rest;
    if m == 0 {
      assert s == rest;
    } else {
      assert s[1..] == Padding(m - 1) + rest;
      PaddingMovesOn(m - 1, i + 1, rest);
    }
  }

  lemma {:induction false} PaddingIsNothing(m: nat)
    ensures Base128(Padding(m)) == 0
  {
    if m > 0 {
      assert Padding(m)[1..] == Padding(m - 1);
      PaddingIsNothing(m - 1);
    }
  }

  /** Behind 37 bytes the position counter has wrapped: a 1 after 37 empty bytes is read as 8. */
  lemma {:induction false} CounterWraps()
    ensures DecodeVarint32(Padding(37) + [1]) == Done(8, [])
  {
    hide DecodeVarint32, Varint32From;
    var s := Padding(37) + [1];
    assert EndsAt(s, 37);
    MoreThanFive(s, 37);
    assert s[..5] == Padding(5) && s[5..] == Padding(32) + [1];
    PaddingIsNothing(5);
    PaddingMovesOn(32, 5, [1]);
    LastOne();
  }

  lemma LastOne()
    ensures Varint32From([1], 3, 0) == Done(8, [])
  {
    assert Shl(1, 3) == 2 * Shl(1, 2) == 4 * Shl(1, 1) == 8 * Shl(1, 0);
  }

  // ---- skipping ----

  /** Stepping over a value, on every input and for every wire type. */
  lemma {:induction false} SkipIff(wireType: nat, s: seq<byte>)
    ensures Skip(wireType, s).Done? <==>
      || (wireType == 0 && !Endless(s)) || (wireType == 1 && |s| >= 8) || (wireType == 5 && |s| >= 4)
      || (wireType == 2 && DecodeVarint32(s).Done? && DecodeVarint32(s).value <= |DecodeVarint32(s).rest|)
    ensures wireType == 0 ==> forall n: nat | EndsAt(s, n) :: Skip(wireType, s) == Done((), s[n + 1..])
    ensures wireType == 1 && |s| >= 8 ==> Skip(wireType, s) == Done((), s[8..])
    ensures wireType == 5 && |s| >= 4 ==> Skip(wireType, s) == Done((), s[4..])
    ensures wireType == 2 && Skip(wireType, s).Done? ==> Skip(wireType, s).rest == DecodeVarint32(s).rest[DecodeVarint32(s).value..]
  {
    hide DecodeVarint32, SkipVarint;
    SkipVarintIff(s);
  }

  lemma {:induction false} SkipVarintIff(s: seq<byte>)
    ensures SkipVarint(s).Done? <==> !Endless(s)
    ensures forall n: nat | EndsAt(s, n) :: SkipVarint(s) == Done((), s[n + 1..])
  {
    if s != [] && s[0] >= 128 {
      SkipVarintIff(s[1..]);
      forall n: nat | EndsAt(s, n) ensures SkipVarint(s) == Done((), s[n + 1..]) {
        EndsLater(s, n);
      }
    }
  }
}
