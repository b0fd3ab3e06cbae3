/**
 Frame headers from their fields (section 2.4.1.3 of ISO/IEC 11172-3, and ISO/IEC 13818-3 for the lower sampling
 rates): what dr_mp3 makes of every one of them, in numbers.
 */
module Mp3HeaderBits {
  import opened Bytes
  import opened Mp3Header

  /** MPEG-1, MPEG-2 and what is called MPEG-2.5. */
  datatype Version = Mpeg1 | Mpeg2 | Mpeg25

  /** The fields that follow the eleven bits of the sync word; `layer` counts from 1. */
  datatype Fields = Fields(version: Version, layer: nat, crc: bool, bitrate: nat, rate: nat, padding: bool,
                           priv: bool, mode: nat, rest: nat)

  predicate InBits(x: Fields) {
    1 <= x.layer <= 3 && x.bitrate < 16 && x.rate < 4 && x.mode < 4 && x.rest < 64
  }

  function One(b: bool): nat { if b then 1 else 0 }

  function VersionBits(v: Version): nat { if v.Mpeg1? then 3 else if v.Mpeg2? then 2 else 0 }

  /** Sync word; version, layer, no CRC; bitrate, sampling rate, padding, private bit; mode and the rest. */
  function HeaderOf(x: Fields): Header
    requires InBits(x)
  {
    [255, 0xE0 + 8 * VersionBits(x.version) + 2 * (4 - x.layer) + One(!x.crc),
     16 * x.bitrate + 4 * x.rate + 2 * One(x.padding) + One(x.priv), 64 * x.mode + x.rest]
  }

  /** Each field is read where it stands. */
  lemma FieldsBack(x: Fields)
    requires InBits(x)
    ensures var h := HeaderOf(x);
            && LayerNumber(h) == x.layer && (IsLayer1(h) <==> x.layer == 1) && (IsLayer3(h) <==> x.layer == 3)
            && (IsMpeg1(h) <==> x.version.Mpeg1?) && (IsNotMpeg25(h) <==> !x.version.Mpeg25?)
            && (HasCrc(h) <==> x.crc) && Bitrate(h) == x.bitrate && SampleRateIndex(h) == x.rate
            && (HasPadding(h) <==> x.padding) && (IsMono(h) <==> x.mode == 3)
            && (IsFreeFormat(h) <==> x.bitrate == 0)
            && (IsFrame576(h) <==> !x.version.Mpeg1? && x.layer == 3)
  {
    SecondByte(x);
    ThirdByte(x);
  }

  lemma SecondByte(x: Fields)
    requires InBits(x)
    ensures var b := 0xE0 + 8 * VersionBits(x.version) + 2 * (4 - x.layer) + One(!x.crc);
            && 0 <= b < 256 && b / 2 % 4 == 4 - x.layer && (b / 8 % 2 == 1 <==> x.version.Mpeg1?)
            && (b / 16 % 2 == 1 <==> !x.version.Mpeg25?) && (b % 2 == 0 <==> x.crc)
            && (b / 2 % 8 == 1 <==> !x.version.Mpeg1? && x.layer == 3)
            && (b / 16 == 15 <==> !x.version.Mpeg25?)
            && (b / 2 == 0x71 <==> x.version.Mpeg25? && x.layer == 3)
  {
  }

  lemma ThirdByte(x: Fields)
    requires InBits(x)
    ensures var b := 16 * x.bitrate + 4 * x.rate + 2 * One(x.padding) + One(x.priv);
            0 <= b < 256 && b / 16 == x.bitrate && b / 4 % 4 == x.rate && (b / 2 % 2 == 1 <==> x.padding)
  {
    var b := 16 * x.bitrate + 4 * x.rate + 2 * One(x.padding) + One(x.priv);
    assert b / 2 == 8 * x.bitrate + 2 * x.rate + One(x.padding);
    assert b / 4 == 4 * x.bitrate + x.rate;
  }

  /** A header is taken for one unless it has the last bitrate or rate, or is MPEG-2.5 and not Layer III. */
  lemma ValidIff(x: Fields)
    requires InBits(x)
    ensures IsValid(HeaderOf(x)) <==> x.bitrate != 15 && x.rate != 3 && (x.version.Mpeg25? ==> x.layer == 3)
  {
    SecondByte(x);
    ThirdByte(x);
  }

  /** And there are no others. */
  lemma ValidHasFields(h: Header) returns (x: Fields)
    requires IsValid(h)
    ensures InBits(x) && HeaderOf(x) == h
  {
    var b, c, d := h[1], h[2], h[3];
    var version := if b / 8 % 2 == 1 then Mpeg1 else if b / 16 % 2 == 1 then Mpeg2 else Mpeg25;
    x := Fields(version, 4 - b / 2 % 4, b % 2 == 0, c / 16, c / 4 % 4, c / 2 % 2 == 1, c % 2 == 1, d / 64, d % 64);
    HeaderAgain(h, x);
  }

  lemma HeaderAgain(h: Header, x: Fields)
    requires IsValid(h)
    requires var b, c, d := h[1], h[2], h[3];
             x == Fields(if b / 8 % 2 == 1 then Mpeg1 else if b / 16 % 2 == 1 then Mpeg2 else Mpeg25, 4 - b / 2 % 4,
                         b % 2 == 0, c / 16, c / 4 % 4, c / 2 % 2 == 1, c % 2 == 1, d / 64, d % 64)
    ensures InBits(x) && HeaderOf(x) == h
  {
    SecondAgain(h[1]);
    ThirdAgain(h[2]);
  }

  lemma SecondAgain(b: byte)
    requires b / 16 == 0xf || b / 2 == 0x71
    ensures b == 0xE0 + 8 * (if b / 8 % 2 == 1 then 3 else if b / 16 % 2 == 1 then 2 else 0) + 2 * (b / 2 % 4) + b % 2
  {
  }

  lemma ThirdAgain(c: byte)
    ensures c == 16 * (c / 16) + 4 * (c / 4 % 4) + 2 * (c / 2 % 2) + c % 2
  {
    assert c / 2 / 2 == c / 4 && c / 4 / 4 == c / 16;
  }

  /** Two frames go together when version, layer, sampling rate and being free format or not agree, and the second is valid. */
  lemma AlikeIff(x: Fields, y: Fields)
    requires InBits(x) && InBits(y)
    ensures Compare(HeaderOf(x), HeaderOf(y))
            <==> IsValid(HeaderOf(y)) && x.version == y.version && x.layer == y.layer && x.rate == y.rate
                 && (x.bitrate == 0 <==> y.bitrate == 0)
  {
    FieldsBack(x);
    FieldsBack(y);
    TypeBits(x);
    TypeBits(y);
    hide IsValid, SampleRateIndex, IsFreeFormat;
  }

  lemma TypeBits(x: Fields)
    requires InBits(x)
    ensures HeaderOf(x)[1] / 2 == 0x70 + 4 * VersionBits(x.version) + (4 - x.layer)
  {
  }

  // ---- What the fields stand for ----

  function RateOf(v: Version, rate: nat): nat
    requires rate < 3
  {
    match v
    case Mpeg1 => if rate == 0 then 44100 else if rate == 1 then 48000 else 32000
    case Mpeg2 => if rate == 0 then 22050 else if rate == 1 then 24000 else 16000
    case Mpeg25 => if rate == 0 then 11025 else if rate == 1 then 12000 else 8000
  }

  /** Bitrates in kbit/s; free format stands as 0. */
  function KbpsOf(v: Version, layer: nat, bitrate: nat): nat
    requires 1 <= layer <= 3 && bitrate < 15
  {
    if v.Mpeg1? then
      if layer == 1 then 32 * bitrate
      else if layer == 2 then [0, 32, 48, 56, 64, 80, 96, 112, 128, 160, 192, 224, 256, 320, 384][bitrate]
      else [0, 32, 40, 48, 56, 64, 80, 96, 112, 128, 160, 192, 224, 256, 320][bitrate]
    else if layer == 1 then [0, 32, 48, 56, 64, 80, 96, 112, 128, 144, 160, 176, 192, 224, 256][bitrate]
    else [0, 8, 16, 24, 32, 40, 48, 56, 64, 80, 96, 112, 128, 144, 160][bitrate]
  }

  function SamplesOf(v: Version, layer: nat): nat {
    if layer == 1 then 384 else if layer == 3 && !v.Mpeg1? then 576 else 1152
  }

  predicate Known(x: Fields) {
    InBits(x) && x.bitrate < 15 && x.rate < 3 && (x.version.Mpeg25? ==> x.layer == 3)
  }

  lemma KnownIs(x: Fields)
    requires Known(x)
    ensures InBits(x) && 1 <= x.layer <= 3 && x.bitrate < 15 && x.rate < 3
  {
  }

  lemma RateIs(x: Fields)
    requires Known(x)
    ensures IsValid(HeaderOf(x)) && SampleRateHz(HeaderOf(x)) == RateOf(x.version, x.rate)
  {
    ValidIff(x);
    FieldsBack(x);
    hide HeaderOf, IsMpeg1, IsNotMpeg25, SampleRateIndex;
  }

  lemma KbpsIs(x: Fields)
    requires Known(x)
    ensures IsValid(HeaderOf(x)) && BitrateKbps(HeaderOf(x)) == KbpsOf(x.version, x.layer, x.bitrate)
  {
    ValidIff(x);
    FieldsBack(x);
    hide HeaderOf, IsMpeg1, Bitrate;
  }

  lemma SamplesAre(x: Fields)
    requires Known(x)
    ensures FrameSamples(HeaderOf(x)) == SamplesOf(x.version, x.layer)
    ensures Padding(HeaderOf(x)) == if !x.padding then 0 else if x.layer == 1 then 4 else 1
  {
    FieldsBack(x);
    hide HeaderOf, IsLayer1, IsFrame576, HasPadding;
  }

  /**
   The bytes of a frame of known bitrate: of Layer III, 144 bits a second over the rate, or half of it at the lower
   rates; of Layer I in steps of four.
   */
  function BytesOf(x: Fields): nat
    requires Known(x)
  {
    var kbps, hz := KbpsOf(x.version, x.layer, x.bitrate), RateOf(x.version, x.rate);
    if x.layer == 1 then 48000 * kbps / hz / 4 * 4
    else if SamplesOf(x.version, x.layer) == 576 then 72000 * kbps / hz
    else 144000 * kbps / hz
  }

  lemma BytesAre(x: Fields)
    requires Known(x)
    ensures IsValid(HeaderOf(x)) && ComputedBytes(HeaderOf(x)) == BytesOf(x)
  {
    hide *;
    KnownIs(x);
    RateIs(x);
    KbpsIs(x);
    SamplesAre(x);
    ValidIff(x);
    FieldsBack(x);
    var h, kbps, hz := HeaderOf(x), KbpsOf(x.version, x.layer, x.bitrate), RateOf(x.version, x.rate);
    RatePositive(x.version, x.rate);
    ComputedIs(h);
    SamplesIs(x.version, x.layer);
    InBytes(SamplesOf(x.version, x.layer), kbps, hz);
    BytesOfIs(x);
    InFours(BytesFor(FrameSamples(h), kbps, hz));
  }

  lemma RatePositive(v: Version, rate: nat)
    requires rate < 3
    ensures RateOf(v, rate) > 0
  {
  }

  lemma ComputedIs(h: Header)
    requires IsValid(h)
    ensures SampleRateHz(h) > 0
    ensures var n := BytesFor(FrameSamples(h), BitrateKbps(h), SampleRateHz(h));
            ComputedBytes(h) == if IsLayer1(h) then n - n % 4 else n
  {
    hide IsValid, BytesFor, BitrateKbps, FrameSamples;
  }

  lemma SamplesIs(v: Version, layer: nat)
    ensures SamplesOf(v, layer) == if layer == 1 then 384 else if layer == 3 && !v.Mpeg1? then 576 else 1152
  {
  }

  lemma InBytes(samples: nat, kbps: nat, hz: nat)
    requires hz > 0
    ensures samples == 384 ==> BytesFor(samples, kbps, hz) == 48000 * kbps / hz
    ensures samples == 576 ==> BytesFor(samples, kbps, hz) == 72000 * kbps / hz
    ensures samples == 1152 ==> BytesFor(samples, kbps, hz) == 144000 * kbps / hz
  {
    BytesForIs(samples, kbps, hz);
    assert 384 * kbps * 125 == 48000 * kbps && 576 * kbps * 125 == 72000 * kbps && 1152 * kbps * 125 == 144000 * kbps;
  }

  lemma BytesForIs(samples: nat, kbps: nat, hz: nat)
    requires hz > 0
    ensures BytesFor(samples, kbps, hz) == samples * kbps * 125 / hz
  {
  }

  lemma BytesOfIs(x: Fields)
    requires Known(x)
    ensures var kbps, hz := KbpsOf(x.version, x.layer, x.bitrate), RateOf(x.version, x.rate);
            && hz > 0
            && BytesOf(x) == if x.layer == 1 then 48000 * kbps / hz / 4 * 4
                             else if SamplesOf(x.version, x.layer) == 576 then 72000 * kbps / hz
                             else 144000 * kbps / hz
  {
    RatePositive(x.version, x.rate);
    hide KbpsOf, RateOf, SamplesOf;
  }

  lemma InFours(n: nat)
    ensures n - n % 4 == n / 4 * 4
  {
  }

  /** At 128 kbit/s, MPEG-1 Layer III. */
  lemma At128Kbps(x: Fields)
    requires InBits(x) && x.version.Mpeg1? && x.layer == 3 && x.bitrate == 9 && x.rate < 3
    ensures Known(x) && KbpsOf(x.version, 3, 9) == 128
    ensures BytesOf(x) == if x.rate == 0 then 417 else if x.rate == 1 then 384 else 576
  {
    assert 144000 * 128 / 44100 == 417 && 144000 * 128 / 48000 == 384 && 144000 * 128 / 32000 == 576;
  }
}
