/**
 The four-byte MP3 frame header: the bit-field helpers of dr_mp3 and what they imply about the
 size of a frame.
 */
module Mp3Header {
  import opened Arith
  import opened Bytes

  const HDR_SIZE := 4
  const MAX_FREE_FORMAT_FRAME_SIZE := 2304

  type Header = h: seq<byte> | |h| == HDR_SIZE witness [0, 0, 0, 0]

  predicate IsMono(h: Header) { h[3] / 64 == 3 }
  predicate IsMpeg1(h: Header) { h[1] / 8 % 2 == 1 }
  predicate IsNotMpeg25(h: Header) { h[1] / 16 % 2 == 1 }
  predicate IsFreeFormat(h: Header) { h[2] / 16 == 0 }
  predicate HasCrc(h: Header) { h[1] % 2 == 0 }
  predicate HasPadding(h: Header) { h[2] / 2 % 2 == 1 }
  predicate IsFrame576(h: Header) { h[1] / 2 % 8 == 1 }
  predicate IsLayer1(h: Header) { h[1] / 2 % 4 == 3 }
  predicate IsLayer3(h: Header) { Layer(h) == 1 }

  /** The layer field: 1 is Layer III, 3 is Layer I. */
  function Layer(h: Header): nat { h[1] / 2 % 4 }
  function LayerNumber(h: Header): nat { 4 - Layer(h) }
  function Bitrate(h: Header): nat { h[2] / 16 }
  function SampleRateIndex(h: Header): nat { h[2] / 4 % 4 }

  predicate IsValid(h: Header) {
    && h[0] == 0xff
    && (h[1] / 16 == 0xf || h[1] / 2 == 0x71)
    && Layer(h) != 0 && Bitrate(h) != 15 && SampleRateIndex(h) != 3
  }

  /** drmp3_hdr_compare: `h2` can follow `h1` in one stream. */
  predicate Compare(h1: Header, h2: Header) {
    && IsValid(h2)
    && h1[1] / 2 == h2[1] / 2
    && SampleRateIndex(h1) == SampleRateIndex(h2)
    && IsFreeFormat(h1) == IsFreeFormat(h2)
  }

  /** Half the bitrate in kbps, by MPEG version, layer and bitrate index. */
  const HALF_RATE: seq<seq<seq<nat>>> := [
    [
      [0, 4, 8, 12, 16, 20, 24, 28, 32, 40, 48, 56, 64, 72, 80],
      [0, 4, 8, 12, 16, 20, 24, 28, 32, 40, 48, 56, 64, 72, 80],
      [0, 16, 24, 28, 32, 40, 48, 56, 64, 72, 80, 88, 96, 112, 128]
    ],
    [
      [0, 16, 20, 24, 28, 32, 40, 48, 56, 64, 80, 96, 112, 128, 160],
      [0, 16, 24, 28, 32, 40, 48, 56, 64, 80, 96, 112, 128, 160, 192],
      [0, 16, 32, 48, 64, 80, 96, 112, 128, 144, 160, 176, 192, 208, 224]
    ]
  ]

  function BitrateKbps(h: Header): (r: nat)
    requires IsValid(h)
    ensures r <= 448
    ensures IsLayer3(h) ==> r <= if IsMpeg1(h) then 320 else 160
    ensures r == 0 <==> IsFreeFormat(h)
    ensures r == 0 || r >= 8
  {
    2 * HALF_RATE[if IsMpeg1(h) then 1 else 0][Layer(h) - 1][Bitrate(h)]
  }

  function SampleRateHz(h: Header): (r: nat)
    requires IsValid(h)
    ensures 8000 <= r <= 48000
    ensures IsMpeg1(h) && IsNotMpeg25(h) ==> r >= 32000
  {
    var hz := if SampleRateIndex(h) == 0 then 44100 else if SampleRateIndex(h) == 1 then 48000 else 32000;
    var half := if IsMpeg1(h) then hz else hz / 2;
    if IsNotMpeg25(h) then half else half / 2
  }

  function FrameSamples(h: Header): (r: nat)
    ensures r in {384, 576, 1152}
  {
    if IsLayer1(h) then 384 else if IsFrame576(h) then 576 else 1152
  }

  function Padding(h: Header): (r: nat)
    ensures r <= 4
  {
    if HasPadding(h) then (if IsLayer1(h) then 4 else 1) else 0
  }

  function BytesFor(samples: nat, kbps: nat, hz: nat): nat
    requires hz > 0
  {
    samples * kbps * 125 / hz
  }

  function ComputedBytes(h: Header): nat
    requires IsValid(h)
  {
    var n := BytesFor(FrameSamples(h), BitrateKbps(h), SampleRateHz(h));
    if IsLayer1(h) then n - n % 4 else n
  }

  /** drmp3_hdr_frame_bytes: the size without padding; `freeFormatSize` where the bitrate does not say. */
  function FrameBytes(h: Header, freeFormatSize: nat): nat
    requires IsValid(h)
  {
    if ComputedBytes(h) != 0 then ComputedBytes(h) else freeFormatSize
  }

  /** The bitrate says the size of every frame but a free format one. */
  lemma ComputedUnlessFree(h: Header)
    requires IsValid(h)
    ensures ComputedBytes(h) == 0 <==> IsFreeFormat(h)
    ensures !IsFreeFormat(h) ==> ComputedBytes(h) >= 8
  {
    var r, hz := BitrateKbps(h), SampleRateHz(h);
    if r > 0 {
      QuotientAtLeast(FrameSamples(h) * r * 125, hz, 8);
    }
  }

  lemma QuotientAtLeast(x: int, d: int, q: int)
    requires d > 0 && x >= q * d
    ensures x / d >= q
  {
    var k := x / d;
    if k < q {
      MulSucc(k, d);
      MulMono(k + 1, q, d);
    }
  }

  lemma QuotientAtMost(x: int, d: int, q: int)
    requires d > 0 && x <= q * d
    ensures x / d <= q
  {
    var k := x / d;
    if k > q {
      MulSucc(q, d);
      MulMono(q + 1, k, d);
    }
  }

  /** No Layer III frame with a bitrate is longer than 1440 bytes, padding aside. */
  lemma Layer3FrameFits(h: Header)
    requires IsValid(h) && IsLayer3(h)
    ensures ComputedBytes(h) <= 1440
  {
    var r, hz := BitrateKbps(h), SampleRateHz(h);
    assert !IsMpeg1(h) ==> FrameSamples(h) == 576;
    assert IsMpeg1(h) ==> IsNotMpeg25(h);
    QuotientAtMost(FrameSamples(h) * r * 125, hz, 1440);
  }
}
