/**
 The 80-bit sample rate of an AIFF Common chunk (AIFF 1.3), across the two libraries: AudioFile's
 encoder and decoder, and dr_wav's decoder to a 64-bit integer. Rates are integers, and the encoder's
 logarithm is exact.
 */
module SampleRate80 {
  import opened Arith
  import opened Bytes

  const BIAS := 16383
  const INT64_MAX := 0x7FFF_FFFF_FFFF_FFFF
  const INT64_MIN := -0x8000_0000_0000_0000

  // ---- The exponent ----

  /** The integer part of the binary logarithm. */
  function Log2(x: nat): nat
    requires x > 0
  {
    if x == 1 then 0 else 1 + Log2(x / 2)
  }

  lemma {:induction false} Log2Bounds(x: nat)
    requires x > 0
    ensures Pow2(Log2(x)) <= x < Pow2(Log2(x) + 1)
  {
    if x > 1 {
      Log2Bounds(x / 2);
    }
  }

  /** There is only one exponent with which the mantissa is normalised. */
  lemma Log2Unique(x: nat, e: nat)
    requires x > 0 && Pow2(e) <= x < Pow2(e + 1)
    ensures e == Log2(x)
  {
    Log2Bounds(x);
    if e < Log2(x) {
      Pow2Mono(e + 1, Log2(x));
    } else if e > Log2(x) {
      Pow2Mono(Log2(x) + 1, e);
    }
  }

  // ---- Big-endian bytes ----

  /** The byte that starts `8 * k` bits up. */
  function ByteOf(m: nat, k: nat): byte {
    if k == 0 then m % 256 else ByteOf(m / 256, k - 1)
  }

  function BigEndian(m: nat, n: nat): (b: seq<byte>)
    ensures |b| == n
  {
    seq(n, i requires 0 <= i < n => ByteOf(m, n - 1 - i))
  }

  /** mantissa = (mantissa << 8) | byte, over all bytes. */
  function FromBigEndian(b: seq<byte>): nat {
    if b == [] then 0 else 256 * FromBigEndian(b[..|b| - 1]) + b[|b| - 1]
  }

  lemma {:induction false} BigEndianBack(m: nat, n: nat)
    requires m < Pow2(8 * n)
    ensures FromBigEndian(BigEndian(m, n)) == m
  {
    if n > 0 {
      Pow2Eight(n - 1);
      BigEndianBack(m / 256, n - 1);
      hide *;
      BigEndianStep(m, n);
      FromBigEndianStep(BigEndian(m / 256, n - 1), m % 256);
    }
  }

  lemma BigEndianStep(m: nat, n: nat)
    requires n > 0
    ensures 0 <= m % 256 < 256 && BigEndian(m, n) == BigEndian(m / 256, n - 1) + [m % 256]
    ensures 256 * (m / 256) + m % 256 == m
  {
    var whole, joined := BigEndian(m, n), BigEndian(m / 256, n - 1) + [m % 256];
    forall i | 0 <= i < n ensures whole[i] == joined[i] {
      assert whole[i] == ByteOf(m, n - 1 - i);
      assert i < n - 1 ==> joined[i] == ByteOf(m / 256, n - 2 - i);
    }
  }

  lemma FromBigEndianStep(b: seq<byte>, x: byte)
    ensures FromBigEndian(b + [x]) == 256 * FromBigEndian(b) + x
  {
    assert (b + [x])[..|b|] == b;
  }

  lemma Pow2Eight(n: nat)
    ensures Pow2(8 * (n + 1)) == 256 * Pow2(8 * n)
  {
    Pow2Add(8, 8 * n);
    Pow2Small();
  }

  lemma {:induction false} FromBigEndianJoin(a: seq<byte>, b: seq<byte>)
    ensures FromBigEndian(a + b) == FromBigEndian(a) * Pow2(8 * |b|) + FromBigEndian(b)
    decreases |b|
  {
    if b == [] {
      assert a + b == a;
    } else {
      var b' := b[..|b| - 1];
      assert (a + b)[..|a + b| - 1] == a + b';
      FromBigEndianJoin(a, b');
      Pow2Eight(|b'|);
      MulAssoc(FromBigEndian(a), 256, Pow2(8 * |b'|));
      Shifted(FromBigEndian(a), Pow2(8 * |b'|), FromBigEndian(b'));
    }
  }

  lemma Shifted(x: nat, p: nat, y: nat)
    ensures 256 * (x * p + y) == x * 256 * p + 256 * y && x * (256 * p) == x * 256 * p
  {
  }

  // ---- Shifts ----

  function Up(x: nat, k: nat): nat { x * Pow2(k) }

  function Down(x: nat, k: nat): nat {
    if k == 0 then x else Down(x / 2, k - 1)
  }

  lemma {:induction false} UpDown(x: nat, k: nat)
    ensures Down(Up(x, k), k) == x && (x > 0 ==> Up(x, k) > 0)
  {
    if k > 0 {
      MulTwo(x, Pow2(k - 1));
      UpDown(x, k - 1);
    }
  }

  lemma UpTwice(x: nat, a: nat, b: nat)
    ensures Up(Up(x, a), b) == Up(x, a + b)
  {
    Pow2Add(a, b);
    MulAssoc(x, Pow2(a), Pow2(b));
  }

  /** Moving up moves the bounds with it. */
  lemma UpBounds(x: nat, e: nat, k: nat)
    requires Pow2(e) <= x < Pow2(e + 1)
    ensures Pow2(e + k) <= Up(x, k) < Pow2(e + 1 + k)
  {
    hide Pow2;
    Pow2Add(e, k);
    Pow2Add(e + 1, k);
    MulMono(Pow2(e), x, Pow2(k));
    MulMono(x + 1, Pow2(e + 1), Pow2(k));
    MulSucc(x, Pow2(k));
    Pow2IsPositive(k);
  }

  // ---- AudioFile's encoder ----

  function Magnitude(rate: int): nat { if rate < 0 then -rate else rate }

  /** The mantissa: the rate moved up until its top bit is bit 63. */
  function Mantissa(x: nat): nat
    requires 0 < x < Pow2(64)
  {
    Log2Below(x, 64);
    Up(x, 63 - Log2(x))
  }

  lemma Log2Below(x: nat, n: nat)
    requires 0 < x < Pow2(n)
    ensures Log2(x) < n
  {
    Log2Bounds(x);
    if n <= Log2(x) {
      Pow2Mono(n, Log2(x));
    }
  }

  lemma MantissaNormalised(x: nat)
    requires 0 < x < Pow2(64)
    ensures Log2(x) < 64 && Pow2(63) <= Mantissa(x) < Pow2(64)
  {
    hide *;
    MantissaIs(x);
    Log2Bounds(x);
    UpBounds(x, Log2(x), 63 - Log2(x));
  }

  /** The ten bytes: sign and biased exponent, and the mantissa. */
  function Encoded(rate: int): (b: seq<byte>)
    requires rate != 0 && Magnitude(rate) < Pow2(64)
    ensures |b| == 10
  {
    hide Pow2, Log2, BigEndian, Mantissa;
    Log2Below(Magnitude(rate), 64);
    var biased := Log2(Magnitude(rate)) + BIAS;
    [(if rate < 0 then 0x80 else 0) + biased / 256 % 128, biased % 256] + BigEndian(Mantissa(Magnitude(rate)), 8)
  }

  /** AiffUtilities::encodeAiffSampleRate. */
  method EncodeAiffSampleRate(rate0: int) returns (bytes: seq<byte>)
    requires rate0 != 0 && Magnitude(rate0) < Pow2(64)
    ensures bytes == Encoded(rate0)
  {
    hide *;
    EncodedIs(rate0);
    var sign := if rate0 < 0 then -1 else 1;
    var rate: int := rate0;
    if sign == -1 {
      rate := -rate;
    }
    var exponent: int := Log2(rate);
    var biasedExponent := exponent + 16383;
    var mantissa: int := Up(rate, 63 - exponent);
    var b0, b1 := if sign == -1 then 0x80 else 0x00, 0;
    b0 := b0 + biasedExponent / 256 % 128;
    b1 := biasedExponent % 256;
    bytes := [b0, b1];
    var i: nat := 0;
    BigEndianPrefix(mantissa, 0);
    while i < 8
      invariant 0 <= i <= 8 && bytes == [b0, b1] + Leading(mantissa, i)
    {
      BigEndianPrefix(mantissa, i);
      bytes := bytes + [ByteOf(mantissa, 7 - i)];
      i := i + 1;
    }
    BigEndianPrefix(mantissa, 8);
  }

  /** The first `i` of the eight mantissa bytes. */
  function Leading(m: nat, i: nat): seq<byte>
    requires i <= 8
  {
    BigEndian(m, 8)[..i]
  }

  lemma BigEndianPrefix(m: nat, i: nat)
    requires i <= 8
    ensures Leading(m, 0) == [] && Leading(m, 8) == BigEndian(m, 8)
    ensures i < 8 ==> Leading(m, i + 1) == Leading(m, i) + [ByteOf(m, 7 - i)]
  {
  }

  lemma EncodedIs(rate: int)
    requires rate != 0 && Magnitude(rate) < Pow2(64)
    ensures Magnitude(rate) == if rate < 0 then -rate else rate
    ensures var x := Magnitude(rate);
            && 0 < x && 0 <= Log2(x) < 64 && 0 <= Up(x, 63 - Log2(x))
            && var biased := Log2(x) + 16383;
               && 0 <= biased / 256 % 128 < 128 && 0 <= biased % 256 < 256
               && Encoded(rate) == [(if rate < 0 then 0x80 else 0) + biased / 256 % 128, biased % 256]
                                   + BigEndian(Up(x, 63 - Log2(x)), 8)
               && Encoded(rate)[2..] == BigEndian(Up(x, 63 - Log2(x)), 8)
  {
    hide Pow2, Log2, BigEndian, Up;
    Log2Below(Magnitude(rate), 64);
  }

  // ---- dr_wav's decoder ----

  /** drwav_aiff_extented_to_s64; the exponent is unsigned and wraps below the bias. */
  function Decoded(b: seq<byte>): int
    requires |b| == 10
  {
    var exponent := b[0] as int * 256 + b[1];
    var hi, lo := FromBigEndian(b[2..6]), FromBigEndian(b[6..10]);
    var significand := hi * 0x1_0000_0000 + lo;
    var negative := exponent / 0x8000 == 1;
    var e := exponent % 0x8000;
    if e == 0 && significand == 0 then 0
    else if e == 0x7FFF then (if negative then INT64_MIN else INT64_MAX)
    else
      var unbiased := Sub32(e, BIAS);
      if unbiased > 63 then (if negative then INT64_MIN else INT64_MAX)
      else if unbiased < 1 then 0
      else
        var x := ToS64(Down(significand, 63 - unbiased));
        if negative then ToS64(-x) else x
  }

  /** A cast to a signed 64-bit integer. */
  function ToS64(x: int): int {
    if x % 0x1_0000_0000_0000_0000 < 0x8000_0000_0000_0000 then x % 0x1_0000_0000_0000_0000
    else x % 0x1_0000_0000_0000_0000 - 0x1_0000_0000_0000_0000
  }

  /** The fields of an encoded rate, as the decoder takes them apart. */
  lemma FieldsBack(rate: int)
    requires rate != 0 && Magnitude(rate) < Pow2(63)
    ensures Magnitude(rate) < Pow2(64)
    ensures var b, e := Encoded(rate), Log2(Magnitude(rate));
            && e <= 62
            && b[0] as int * 256 + b[1] == (if rate < 0 then 0x8000 else 0) + e + BIAS
            && FromBigEndian(b[2..6]) * 0x1_0000_0000 + FromBigEndian(b[6..10]) == Mantissa(Magnitude(rate))
            && FromBigEndian(b[2..10]) == Mantissa(Magnitude(rate))
  {
    hide *;
    var x := Magnitude(rate);
    EncodedIs(rate) by { Pow2Mono(63, 64); }
    Pow2Mono(63, 64);
    MantissaShifted(x);
    MantissaNormalised(x);
    var b := Encoded(rate);
    MantissaIs(x);
    EightBytes(Mantissa(x), b);
    ExponentBytes(Log2(x) + 16383);
    BiasIs();
  }

  lemma BiasIs()
    ensures BIAS == 16383
  {
  }

  lemma MantissaIs(x: nat)
    requires 0 < x < Pow2(64)
    ensures 0 <= Log2(x) < 64 && Mantissa(x) == Up(x, 63 - Log2(x)) >= 0
  {
    hide Pow2, Log2, Up;
    Log2Below(x, 64);
  }

  lemma EightBytes(m: nat, b: seq<byte>)
    requires m < Pow2(64) && |b| == 10 && b[2..] == BigEndian(m, 8)
    ensures FromBigEndian(b[2..10]) == m
    ensures FromBigEndian(b[2..6]) * 0x1_0000_0000 + FromBigEndian(b[6..10]) == m
  {
    hide *;
    BigEndianBack(m, 8);
    assert b[2..10] == b[2..] && b[2..6] + b[6..10] == b[2..];
    FromBigEndianJoin(b[2..6], b[6..10]);
    Pow2Small();
  }

  lemma ExponentBytes(biased: nat)
    requires biased < 0x8000
    ensures biased / 256 % 128 == biased / 256 && biased / 256 * 256 + biased % 256 == biased
  {
  }

  /**
   Every rate from 2 on, up to what 63 bits hold, and its negative, comes back exactly; a rate of 1 comes
   back as 0. So for every 32-bit rate: it survives exactly when it is at least 2.
   */
  lemma RoundTrip(rate: int)
    requires rate != 0 && Magnitude(rate) < Pow2(63)
    ensures Magnitude(rate) < Pow2(64)
    ensures Decoded(Encoded(rate)) == if Magnitude(rate) >= 2 then rate else 0
    ensures Decoded(Encoded(rate)) == rate <==> Magnitude(rate) >= 2
  {
    hide *;
    EncodedIs(rate) by { Pow2Mono(63, 64); }
    FieldsBack(rate);
    var x, e := Magnitude(rate), Log2(Magnitude(rate));
    LogOfOne(x);
    MantissaShifted(x);
    DecodedIs(Encoded(rate), rate < 0, e, Mantissa(x));
    FitsS64(x);
  }

  lemma MantissaShifted(x: nat)
    requires 0 < x < Pow2(63)
    ensures x < Pow2(64) && 0 <= Log2(x) <= 62
    ensures Mantissa(x) > 0 && Down(Mantissa(x), 63 - Log2(x)) == x
  {
    hide *;
    Pow2Mono(63, 64);
    Log2Below(x, 63);
    MantissaIs(x);
    UpDown(x, 63 - Log2(x));
  }

  /** The decoder on a sign, an unbiased exponent below 63 and a mantissa. */
  lemma DecodedIs(b: seq<byte>, negative: bool, e: nat, m: nat)
    requires |b| == 10 && e <= 62 && m > 0
    requires b[0] as int * 256 + b[1] == (if negative then 0x8000 else 0) + e + BIAS
    requires FromBigEndian(b[2..6]) * 0x1_0000_0000 + FromBigEndian(b[6..10]) == m
    ensures Decoded(b) == if e < 1 then 0
                          else if negative then ToS64(-ToS64(Down(m, 63 - e))) else ToS64(Down(m, 63 - e))
  {
    hide FromBigEndian, ToS64, Down;
  }

  lemma Pow2IsPositive(n: nat)
    ensures Pow2(n) > 0
  {
  }

  lemma LogOfOne(x: nat)
    requires x > 0
    ensures Log2(x) >= 1 <==> x >= 2
  {
  }

  lemma Pow2Is(n: nat)
    ensures Pow2(63) == 0x8000_0000_0000_0000
  {
    Pow2Small();
    Pow2Add(32, 31);
    Pow2Add(31, 1);
  }

  lemma FitsS64(x: int)
    requires 0 <= x < Pow2(63)
    ensures ToS64(x) == x && ToS64(-x) == -x
  {
    hide *;
    Pow2Is(63);
    Wraps(x);
    ToS64Is(x);
    ToS64Is(-x);
  }

  /** A number of up to 64 bits and its negative, modulo 2^64. */
  lemma Wraps(x: int)
    requires 0 <= x < 0x1_0000_0000_0000_0000
    ensures x % 0x1_0000_0000_0000_0000 == x
    ensures x > 0 ==> (-x) % 0x1_0000_0000_0000_0000 == 0x1_0000_0000_0000_0000 - x
  {
    DivModUnique(0, 0x1_0000_0000_0000_0000, x);
    if x > 0 {
      DivModUnique(-1, 0x1_0000_0000_0000_0000, 0x1_0000_0000_0000_0000 - x);
    }
  }

  lemma ToS64Is(x: int)
    ensures var r := x % 0x1_0000_0000_0000_0000;
            ToS64(x) == if r < 0x8000_0000_0000_0000 then r else r - 0x1_0000_0000_0000_0000
  {
  }

  // ---- What the ten bytes stand for ----

  /** The number of 80 bits: its sign, its biased exponent and its significand. */
  predicate IsNegative(b: seq<byte>) requires |b| == 10 { b[0] >= 0x80 }

  function ExponentField(b: seq<byte>): (e: nat)
    requires |b| == 10
    ensures e < 0x8000
  {
    b[0] as int % 128 * 256 + b[1]
  }

  function Significand(b: seq<byte>): (m: nat)
    requires |b| == 10
  {
    FromBigEndian(b[2..10])
  }

  /** significand * 2^(e - 63), rounded towards 0. */
  function Whole(m: nat, e: int): nat {
    if e <= 63 then Down(m, 63 - e) else Up(m, e - 63)
  }

  /** The value, rounded towards 0, or the nearest that there is in 64 bits; the largest exponent is infinity. */
  function Truncated(b: seq<byte>): int
    requires |b| == 10
  {
    var x: int := Whole(Significand(b), ExponentField(b) - BIAS);
    if IsNegative(b) then
      if ExponentField(b) == 0x7FFF || x > 0x8000_0000_0000_0000 then INT64_MIN else -x
    else if ExponentField(b) == 0x7FFF || x > INT64_MAX then INT64_MAX else x
  }

  /** The bytes for which the decoder is right, by sign, unbiased exponent and significand. */
  predicate RightlyDecoded(negative: bool, e: int, m: nat) {
    || e == 0x4000
    || (e == -BIAS && m == 0)
    || (e == 0 && m < 0x8000_0000_0000_0000)
    || 1 <= e <= 62
    || (e == 63 && (m < 0x8000_0000_0000_0000 || (negative && m == 0x8000_0000_0000_0000)))
    || (63 < e && Up(m, e - 63) >= 0x8000_0000_0000_0000)
  }

  lemma {:induction false} DownIs(m: nat, k: nat, n: nat)
    requires m < Pow2(n)
    ensures k <= n ==> Down(m, k) < Pow2(n - k)
    ensures k >= n ==> Down(m, k) == 0
  {
    if k > 0 && n > 0 {
      DownIs(m / 2, k - 1, n - 1);
    } else if n == 0 {
      DownOfNone(k);
    }
  }

  lemma {:induction false} DownOfNone(k: nat)
    ensures Down(0, k) == 0
  {
    if k > 0 {
      DownOfNone(k - 1);
    }
  }

  lemma {:induction false} FromBigEndianBound(b: seq<byte>)
    ensures FromBigEndian(b) < Pow2(8 * |b|)
  {
    if b != [] {
      FromBigEndianBound(b[..|b| - 1]);
      Pow2Eight(|b| - 1);
    }
  }

  lemma SignificandIs(b: seq<byte>)
    requires |b| == 10
    ensures FromBigEndian(b[2..6]) * 0x1_0000_0000 + FromBigEndian(b[6..10]) == Significand(b) < Pow2(64)
  {
    hide FromBigEndian, Pow2;
    assert b[2..6] + b[6..10] == b[2..10];
    FromBigEndianJoin(b[2..6], b[6..10]);
    FromBigEndianBound(b[2..10]);
    Pow2Small();
  }

  /** The decoder in the terms of the three fields. */
  lemma DecodedCases(b: seq<byte>)
    requires |b| == 10
    ensures var negative, e, m := IsNegative(b), ExponentField(b) - BIAS, Significand(b);
            var extreme := if negative then INT64_MIN else INT64_MAX;
            Decoded(b)
            == if e == -BIAS && m == 0 then 0
               else if e < 0 || e > 63 then extreme
               else if e == 0 then 0
               else if negative then ToS64(-ToS64(Down(m, 63 - e))) else ToS64(Down(m, 63 - e))
  {
    hide FromBigEndian, Down, ToS64, Pow2;
    SignificandIs(b);
    FieldsOf(b[0], b[1]);
  }

  lemma FieldsOf(b0: byte, b1: byte)
    ensures var x := b0 as int * 256 + b1;
            && x % 0x8000 == b0 as int % 128 * 256 + b1
            && (x / 0x8000 == 1 <==> b0 >= 0x80)
  {
  }

  /** The value that is wanted, by the same cases. */
  lemma WholeCases(m: nat, e: int)
    requires m < Pow2(64)
    ensures e < 0 ==> Whole(m, e) == 0
    ensures e == 0 ==> Whole(m, e) == if m < 0x8000_0000_0000_0000 then 0 else 1
    ensures 0 <= e <= 62 ==> Whole(m, e) == Down(m, 63 - e) < 0x8000_0000_0000_0000
    ensures e == 63 ==> Whole(m, e) == m == Down(m, 0)
    ensures e > 63 ==> Whole(m, e) == Up(m, e - 63) && Whole(m, e) % 2 == 0
    ensures m < 0x1_0000_0000_0000_0000
  {
    hide *;
    WholeIs(m, e);
    Pow2Is(63);
    Pow2Doubles(63);
    if e <= 62 {
      DownIs(m, 63 - e, 64);
    }
    if 0 <= e <= 62 {
      Pow2Mono(e + 1, 63);
    }
    if e == 0 {
      DownAll(m);
    }
    if e > 63 {
      UpEven(m, e - 63);
    }
  }

  lemma WholeIs(m: nat, e: int)
    ensures Whole(m, e) == if e <= 63 then Down(m, 63 - e) else Up(m, e - 63)
    ensures Down(m, 0) == m
  {
  }

  lemma Pow2Doubles(n: nat)
    ensures Pow2(n + 1) == 2 * Pow2(n)
  {
  }

  lemma UpEven(m: nat, k: nat)
    requires k > 0
    ensures Up(m, k) % 2 == 0
  {
    Pow2Doubles(k - 1);
    MulTwo(m, Pow2(k - 1));
  }

  /** 63 halvings leave the top bit. */
  lemma DownAll(m: nat)
    requires m < Pow2(64)
    ensures Down(m, 63) == if m < Pow2(63) then 0 else 1
  {
    hide *;
    DownIs(m, 63, 64);
    PowersOne();
    if m < Pow2(63) {
      DownIs(m, 63, 63);
    } else {
      DownAtLeast(m, 63);
    }
  }

  lemma PowersOne()
    ensures Pow2(1) == 2 && Pow2(0) == 1
  {
  }

  lemma {:induction false} DownAtLeast(m: nat, k: nat)
    requires m >= Pow2(k)
    ensures Down(m, k) >= 1
  {
    if k > 0 {
      DownAtLeast(m / 2, k - 1);
    }
  }

  /**
   The decoder gives the truncated value if and only if the exponent is at least 1 and at most 62, or the
   number is 0, infinite, or of the few others that fall on the right side. What is below 1 but not 0 comes out
   as the largest value, 1 as 0, and from 2^63 up to 2^64 the sign turns.
   */
  lemma TruncatedIff(b: seq<byte>)
    requires |b| == 10
    ensures Decoded(b) == Truncated(b)
            <==> RightlyDecoded(IsNegative(b), ExponentField(b) - BIAS, Significand(b))
  {
    hide *;
    var e, m := ExponentField(b) - BIAS, Significand(b);
    SignificandIs(b);
    DecodedCases(b);
    WholeCases(m, e);
    TruncatedIs(b);
    SignedCases(m);
    SignedCases(Whole(m, e));
  }

  lemma TruncatedIs(b: seq<byte>)
    requires |b| == 10
    ensures var negative, e, m := IsNegative(b), ExponentField(b) - BIAS, Significand(b);
            && -BIAS <= e <= 0x4000 && BIAS == 16383 && INT64_MAX == 0x7FFF_FFFF_FFFF_FFFF && INT64_MIN == -INT64_MAX - 1
            && Truncated(b)
               == (if negative then if e == 0x4000 || Whole(m, e) > INT64_MAX + 1 then INT64_MIN else 0 - Whole(m, e)
                   else if e == 0x4000 || Whole(m, e) > INT64_MAX then INT64_MAX else Whole(m, e))
            && (RightlyDecoded(negative, e, m)
                <==> || e == 0x4000
                     || (e == -BIAS && m == 0)
                     || (e == 0 && m < 0x8000_0000_0000_0000)
                     || 1 <= e <= 62
                     || (e == 63 && (m < 0x8000_0000_0000_0000 || (negative && m == 0x8000_0000_0000_0000)))
                     || (63 < e && Up(m, e - 63) >= 0x8000_0000_0000_0000))
  {
    hide FromBigEndian, Up, Down, Whole;
  }

  lemma SignedCases(x: int)
    ensures 0 <= x < 0x8000_0000_0000_0000 ==> ToS64(x) == x && ToS64(-x) == -x
    ensures 0x8000_0000_0000_0000 <= x < 0x1_0000_0000_0000_0000
            ==> ToS64(x) == x - 0x1_0000_0000_0000_0000
                && ToS64(-ToS64(x)) == (if x == 0x8000_0000_0000_0000 then -x else 0x1_0000_0000_0000_0000 - x)
  {
    hide *;
    if 0 <= x < 0x1_0000_0000_0000_0000 {
      Wraps(x);
      ToS64Is(x);
      ToS64Is(-x);
      ToS64Is(-ToS64(x));
      if x >= 0x8000_0000_0000_0000 {
        Wraps(0x1_0000_0000_0000_0000 - x);
      }
    }
  }

  // ---- AudioFile's decoder ----

  /** AiffUtilities::decodeAiffSampleRate gives sign * mantissa * 2^(exponent - 63): the same rate. */
  lemma AudioFileRoundTrip(rate: int)
    requires rate != 0 && Magnitude(rate) < Pow2(63)
    ensures Magnitude(rate) < Pow2(64)
    ensures var b := Encoded(rate);
            var exponent := (b[0] as int % 128 * 256 + b[1] - BIAS) % 0x1_0000;
            && exponent >= 0
            && Up(FromBigEndian(b[2..10]), exponent) == Up(Magnitude(rate), 63)
            && (b[0] as int / 128 == 1 <==> rate < 0)
  {
    hide *;
    EncodedIs(rate) by { Pow2Mono(63, 64); }
    FieldsBack(rate);
    BiasIs();
    var x, e := Magnitude(rate), Log2(Magnitude(rate));
    MantissaIs(x);
    SignApart(Encoded(rate)[0], Encoded(rate)[1], rate < 0, e + BIAS);
    UpTwice(x, 63 - e, e);
  }

  lemma SignApart(b0: byte, b1: byte, negative: bool, biased: nat)
    requires b0 as int * 256 + b1 == (if negative then 0x8000 else 0) + biased && 16383 <= biased < 0x8000
    ensures b0 as int % 128 * 256 + b1 == biased
    ensures (biased - 16383) % 0x1_0000 == biased - 16383
    ensures (b0 as int / 128 == 1 <==> negative)
  {
  }

  /**
   The ten bytes as the format defines them: the sign, an exponent biased by 16383, and the magnitude moved up until
   its top bit of 64 is set.
   */
  lemma ExtendedValue(rate: int, e: nat)
    requires rate != 0 && Magnitude(rate) < Pow2(64) && e < 64 && Pow2(e) <= Magnitude(rate) < Pow2(e + 1)
    ensures var b := Encoded(rate);
            && (b[0] >= 0x80 <==> rate < 0) && b[0] as int % 0x80 * 0x100 + b[1] == 16383 + e
            && FromBigEndian(b[2..10]) == Magnitude(rate) * Pow2(63 - e)
  {
    hide *;
    EncodedIs(rate);
    var x := Magnitude(rate);
    Log2Unique(x, e);
    MantissaIs(x);
    MantissaNormalised(x);
    EightBytes(Mantissa(x), Encoded(rate));
    ExponentBytes(e + 16383);
    SignApart(Encoded(rate)[0], Encoded(rate)[1], rate < 0, e + 16383);
    UpIs(x, 63 - e);
  }

  lemma UpIs(x: nat, k: nat)
    ensures Up(x, k) == x * Pow2(k)
  {
  }

  /** The rates of the compact disc and of video, as AIFF files have them. */
  lemma KnownRates()
    ensures Magnitude(44100) < Pow2(64) && Encoded(44100) == [0x40, 0x0E, 0xAC, 0x44, 0, 0, 0, 0, 0, 0]
    ensures Magnitude(48000) < Pow2(64) && Encoded(48000) == [0x40, 0x0E, 0xBB, 0x80, 0, 0, 0, 0, 0, 0]
  {
    hide *;
    KnownRate(44100, 0xAC, 0x44);
    KnownRate(48000, 0xBB, 0x80);
  }

  lemma KnownRate(rate: int, hi: byte, lo: byte)
    requires rate == 256 * hi + lo && hi >= 0x80
    ensures Magnitude(rate) < Pow2(64) && Encoded(rate) == [0x40, 0x0E, hi, lo, 0, 0, 0, 0, 0, 0]
  {
    hide *;
    Powers();
    MagnitudeIs(rate);
    EncodedIs(rate);
    Log2Unique(rate, 15);
    UpIs(rate, 48);
    TopBytes(rate, hi, lo);
  }

  lemma MagnitudeIs(rate: int)
    ensures rate > 0 ==> Magnitude(rate) == rate
  {
  }

  lemma Powers()
    ensures Pow2(15) == 0x8000 && Pow2(16) == 0x1_0000 && Pow2(48) == 0x1_0000_0000_0000 && Pow2(64) > 0x1_0000
  {
    Pow2Small();
    Pow2Add(32, 16);
    Pow2Add(32, 32);
    assert Pow2(16) == 2 * Pow2(15);
  }

  lemma TopBytes(rate: nat, hi: byte, lo: byte)
    requires rate == 256 * hi + lo
    ensures BigEndian(rate * 0x1_0000_0000_0000, 8) == [hi, lo, 0, 0, 0, 0, 0, 0]
  {
    hide Pow2;
    forall k: nat | k < 8
      ensures ByteOf(rate * 0x1_0000_0000_0000, k) == if k == 7 then hi else if k == 6 then lo else 0
    {
      ByteMoved(rate * 0x100_0000_0000, rate * 0x1_0000_0000_0000, k);
      ByteMoved(rate * 0x1_0000_0000, rate * 0x100_0000_0000, k - 1);
      ByteMoved(rate * 0x100_0000, rate * 0x1_0000_0000, k - 2);
      ByteMoved(rate * 0x1_0000, rate * 0x100_0000, k - 3);
      ByteMoved(rate * 0x100, rate * 0x1_0000, k - 4);
      ByteMoved(rate, rate * 0x100, k - 5);
      ByteMoved(hi, rate - lo, k - 6);
      assert rate / 256 == hi && rate % 256 == lo;
    }
  }

  lemma ByteMoved(m: nat, n: nat, k: int)
    requires n == 256 * m
    ensures k == 0 ==> ByteOf(n, 0) == 0
    ensures k > 0 ==> ByteOf(n, k) == ByteOf(m, k - 1)
  {
  }
}
