/**
 The WAV containers that dr_wav writes, RIFF, Wave64 and RF64, as byte layouts: what a file's head is,
 what a finished file is, and the size fields in it (RIFF: "Multimedia Programming Interface and Data
 Specifications 1.0"; RF64: EBU Tech 3306).
 */
module WavFormat {
  import opened Arith
  import opened Bytes
  import P = PcmFrames
  import opened WavMetadata

  datatype Container = Riff | Rifx | W64 | Rf64 | Aiff

  const FORMAT_ADPCM := 0x2
  const FORMAT_ALAW := 0x6
  const FORMAT_MULAW := 0x7
  const FORMAT_DVI_ADPCM := 0x11
  const FORMAT_EXTENSIBLE := 0xFFFE

  const RIFF_ID: Id := [0x52, 0x49, 0x46, 0x46]
  const RF64_ID: Id := [0x52, 0x46, 0x36, 0x34]
  const WAVE_ID: Id := [0x57, 0x41, 0x56, 0x45]
  const DS64_ID: Id := [0x64, 0x73, 0x36, 0x34]
  const W64_TAIL: seq<byte> := [0xF3, 0xAC, 0xD3, 0x11, 0x8C, 0xD1, 0x00, 0xC0, 0x4F, 0x8E, 0xDB, 0x8A]

  type Guid = b: seq<byte> | |b| == 16 witness seq(16, _ => 0)

  const GUID_RIFF: Guid :=
    [0x72, 0x69, 0x66, 0x66, 0x2E, 0x91, 0xCF, 0x11, 0xA5, 0xD6, 0x28, 0xDB, 0x04, 0xC1, 0x00, 0x00]
  const GUID_WAVE: Guid := [0x77, 0x61, 0x76, 0x65] + W64_TAIL
  const GUID_FMT: Guid := FMT + W64_TAIL
  const GUID_FACT: Guid := FACT + W64_TAIL
  const GUID_DATA: Guid := DATA + W64_TAIL

  /** drwav_fmt. */
  datatype Fmt = Fmt(formatTag: u16, channels: u16, sampleRate: u32, avgBytesPerSec: u32, blockAlign: u16,
                     bitsPerSample: u16, extendedSize: u16, validBitsPerSample: u16, channelMask: u32,
                     subFormat: seq<byte>)

  const NO_SUB_FORMAT: Guid := [0, 0, 0, 0, 0, 0, 0, 0, 0, 0, 0, 0, 0, 0, 0, 0]
  const NO_FMT := Fmt(0, 0, 0, 0, 0, 0, 0, 0, 0, NO_SUB_FORMAT)

  /** drwav_data_format, what the caller asks for. */
  datatype DataFormat = DataFormat(container: Container, format: u32, channels: u32, sampleRate: u32, bitsPerSample: u32)

  function To16(x: nat): u16 { x % 0x1_0000 }
  function To32(x: nat): u32 { x % 0x1_0000_0000 }
  function To64(x: int): u64 { x % 0x1_0000_0000_0000_0000 }

  /** The fmt fields that are derived from it; products wrap to 32 bits before they are divided. */
  function FmtOf(f: DataFormat): Fmt {
    NO_FMT.(formatTag := To16(f.format), channels := To16(f.channels), sampleRate := f.sampleRate,
            avgBytesPerSec := To32(P.Times(To32(P.Times(f.bitsPerSample, f.sampleRate)), f.channels)) / 8,
            blockAlign := To16(To32(P.Times(f.channels, f.bitsPerSample)) / 8), bitsPerSample := To16(f.bitsPerSample))
  }

  /** So many whole bytes are in a number of bits. */
  predicate WholeBytes(bytes: nat, bits: nat) { 8 * bytes <= bits < 8 * bytes + 8 }

  /** What the fields of a fmt chunk say of the format that was asked for, and when they no longer can. */
  predicate Describes(fmt: Fmt, f: DataFormat) {
    var frame, second := f.channels * f.bitsPerSample, f.channels * f.bitsPerSample * f.sampleRate;
    && (fmt.formatTag == f.format <==> f.format < 0x1_0000)
    && (fmt.channels == f.channels <==> f.channels < 0x1_0000)
    && fmt.sampleRate == f.sampleRate
    && (fmt.bitsPerSample == f.bitsPerSample <==> f.bitsPerSample < 0x1_0000)
    && (WholeBytes(fmt.blockAlign, frame) <==> frame < 0x8_0000)
    && (WholeBytes(fmt.avgBytesPerSec, second) <==> second < 0x1_0000_0000)
    && (frame % 8 == 0 && frame < 0x8_0000 && second < 0x1_0000_0000 ==>
          8 * fmt.blockAlign == frame && fmt.avgBytesPerSec == f.sampleRate * fmt.blockAlign)
    && fmt.extendedSize == 0
  }

  /** The format can be written: neither compressed nor extensible, in a container there is a writer for. */
  predicate Writable(f: DataFormat) {
    && f.format != FORMAT_EXTENSIBLE && f.format != FORMAT_ADPCM && f.format != FORMAT_DVI_ADPCM
    && (f.container.Riff? || f.container.W64? || f.container.Rf64?)
  }

  function FmtBytes(fmt: Fmt): (b: seq<byte>)
    ensures |b| == 16
  {
    U16(fmt.formatTag) + U16(fmt.channels) + U32(fmt.sampleRate) + U32(fmt.avgBytesPerSec) + U16(fmt.blockAlign)
    + U16(fmt.bitsPerSample)
  }

  // ---- What the fields say ----

  /** The fields that are derived describe the format, as far as 16 and 32 bits go. */
  lemma FmtDescribes(f: DataFormat)
    ensures Describes(FmtOf(f), f)
  {
    hide *;
    var fmt, frame := FmtOf(f), P.Times(f.channels, f.bitsPerSample);
    var second := P.Times(frame, f.sampleRate);
    FmtOfIs(f);
    RatesAre(f);
    BitsPerSecond(f.bitsPerSample, f.sampleRate, f.channels);
    ProductIs(f.channels, f.bitsPerSample);
    ProductIs(frame, f.sampleRate);
    BlockFits(frame);
    RateFits(second);
    if frame % 8 == 0 && frame < 0x8_0000 && second < 0x1_0000_0000 {
      WholeFrames(frame, fmt.blockAlign, f.sampleRate, fmt.avgBytesPerSec);
    }
    DescribesIs(fmt, f, frame, second);
  }

  lemma ProductIs(a: nat, b: nat)
    ensures P.Times(a, b) == a * b >= 0
  {
  }

  lemma DescribesIs(fmt: Fmt, f: DataFormat, frame: nat, second: nat)
    requires frame == f.channels * f.bitsPerSample && second == f.channels * f.bitsPerSample * f.sampleRate
    ensures Describes(fmt, f)
            <==> && (fmt.formatTag == f.format <==> f.format < 0x1_0000)
                 && (fmt.channels == f.channels <==> f.channels < 0x1_0000)
                 && fmt.sampleRate == f.sampleRate
                 && (fmt.bitsPerSample == f.bitsPerSample <==> f.bitsPerSample < 0x1_0000)
                 && (WholeBytes(fmt.blockAlign, frame) <==> frame < 0x8_0000)
                 && (WholeBytes(fmt.avgBytesPerSec, second) <==> second < 0x1_0000_0000)
                 && (frame % 8 == 0 && frame < 0x8_0000 && second < 0x1_0000_0000 ==>
                       8 * fmt.blockAlign == frame && fmt.avgBytesPerSec == f.sampleRate * fmt.blockAlign)
                 && fmt.extendedSize == 0
  {
    hide WholeBytes;
  }

  lemma FmtOfIs(f: DataFormat)
    ensures var fmt := FmtOf(f);
            && (fmt.formatTag == f.format <==> f.format < 0x1_0000)
            && (fmt.channels == f.channels <==> f.channels < 0x1_0000)
            && fmt.sampleRate == f.sampleRate && fmt.extendedSize == 0
            && (fmt.bitsPerSample == f.bitsPerSample <==> f.bitsPerSample < 0x1_0000)
  {
    hide To16, To32;
    Low16(f.format);
    Low16(f.channels);
    Low16(f.bitsPerSample);
  }

  lemma RatesAre(f: DataFormat)
    ensures FmtOf(f).avgBytesPerSec == To32(P.Times(To32(P.Times(f.bitsPerSample, f.sampleRate)), f.channels)) / 8
    ensures FmtOf(f).blockAlign == To16(To32(P.Times(f.channels, f.bitsPerSample)) / 8)
  {
    hide To16, To32, P.Times;
  }

  lemma Low16(x: nat)
    ensures To16(x) == x <==> x < 0x1_0000
  {
  }

  /** The order of the factors, and where it wraps, does not matter. */
  lemma BitsPerSecond(b: nat, s: nat, c: nat)
    ensures To32(P.Times(To32(P.Times(b, s)), c)) == To32(P.Times(P.Times(c, b), s))
  {
    WrapFactor(P.Times(b, s), c);
    MulAssoc(c, b, s);
    MulSwap(c, b * s);
  }

  lemma MulSwap(a: int, b: int)
    ensures a * b == b * a
  {
  }

  lemma WrapFactor(x: nat, c: nat)
    ensures To32(P.Times(To32(x), c)) == To32(P.Times(x, c))
  {
    hide *;
    var q := Wrapped32(x);
    FactorOut(q, 0x1_0000_0000, To32(x), c);
    ProductIs(x, c);
    ProductIs(To32(x), c);
    ProductIs(q, c);
    MultipleGone(P.Times(To32(x), c), P.Times(q, c), P.Times(x, c));
  }

  lemma Wrapped32(x: nat) returns (q: nat)
    ensures x == q * 0x1_0000_0000 + To32(x)
  {
    q := x / 0x1_0000_0000;
  }

  lemma FactorOut(q: nat, m: nat, r: nat, c: nat)
    ensures (q * m + r) * c == r * c + q * c * m
  {
    MulSplit(q * m, r, c);
    MulAssoc(q, m, c);
    MulAssoc(q, c, m);
    MulSwap(m, c);
  }

  lemma MultipleGone(y: nat, k: nat, x: nat)
    requires x == y + k * 0x1_0000_0000
    ensures To32(x) == To32(y)
  {
  }

  lemma BlockFits(frame: nat)
    ensures WholeBytes(To16(To32(frame) / 8), frame) <==> frame < 0x8_0000
  {
    var x := To16(To32(frame) / 8);
    assert x < 0x1_0000;
  }

  lemma RateFits(second: nat)
    ensures WholeBytes(To32(second) / 8, second) <==> second < 0x1_0000_0000
  {
    var x := To32(second) / 8;
    assert x < 0x2000_0000;
  }

  lemma WholeFrames(frame: nat, block: nat, rate: nat, second: nat)
    requires frame % 8 == 0 && WholeBytes(block, frame) && WholeBytes(second, frame * rate)
    ensures 8 * block == frame && second == rate * block
  {
    MulAssoc(8, block, rate);
    assert frame * rate == 8 * (block * rate);
  }

  // ---- The head of a file: five stretches, the second and the fourth of them sizes ----

  predicate Supported(c: Container) { c.Riff? || c.W64? || c.Rf64? }

  function SizeField(c: Container, n: nat): (b: seq<byte>)
    ensures |b| == if c.Riff? then 4 else 8
  {
    if c.Riff? then Size32(n) else U64(To64(n))
  }

  function Start(c: Container): seq<byte> {
    if c.Riff? then RIFF_ID else if c.W64? then GUID_RIFF
    else RF64_ID + U32(0xFFFF_FFFF) + WAVE_ID + DS64_ID + U32(28)
  }

  /** The fmt chunk of RIFF and RF64. */
  function FmtChunk(fmt: Fmt): (b: seq<byte>)
    ensures |b| == 24
  {
    FMT + U32(16) + FmtBytes(fmt)
  }

  /** Between the two sizes; `meta` is what is written for the metadata. */
  function Middle(c: Container, fmt: Fmt, meta: seq<byte>): seq<byte> {
    if c.Riff? then (WAVE_ID + FmtChunk(fmt)) + meta + DATA
    else if c.W64? then GUID_WAVE + (GUID_FMT + U64(40) + FmtBytes(fmt)) + GUID_DATA
    else []
  }

  /** After the second size, up to the audio data. */
  function End(c: Container, fmt: Fmt, meta: seq<byte>): seq<byte> {
    if c.Rf64? then (U64(0) + U32(0) + FmtChunk(fmt)) + meta + (DATA + U32(0xFFFF_FFFF)) else []
  }

  function Head(c: Container, fmt: Fmt, meta: seq<byte>, riffField: nat, dataField: nat): seq<byte> {
    Start(c) + SizeField(c, riffField) + Middle(c, fmt, meta) + SizeField(c, dataField) + End(c, fmt, meta)
  }

  function HeadSize(c: Container, meta: nat): nat {
    if c.Riff? then 44 + meta else if c.W64? then 128 - 24 else 80 + meta
  }

  lemma HeadLength(c: Container, fmt: Fmt, meta: seq<byte>, riffField: nat, dataField: nat)
    requires Supported(c)
    ensures |Head(c, fmt, meta, riffField, dataField)| == HeadSize(c, |meta|)
  {
  }

  // ---- Sizes ----

  const MAX32 := 0xFFFF_FFFF

  function Clamp32(n: nat): nat { if n > MAX32 then MAX32 else n }

  /** drwav__chunk_padding_size_riff and drwav__chunk_padding_size_w64. */
  function PaddingSize(c: Container, n: nat): nat {
    if c.W64? then n % 8 else n % 2
  }

  /** drwav__riff_chunk_size_riff, _w64 and _rf64. */
  function RiffField(c: Container, n: nat, meta: nat): nat {
    if c.Riff? then Clamp32(4 + 24 + meta + 8 + n + PaddingSize(c, n))
    else if c.W64? then 80 + 24 + n + PaddingSize(c, n)
    else Clamp32(4 + 36 + 24 + meta + 8 + n + PaddingSize(c, n))
  }

  /** drwav__data_chunk_size_riff, _w64 and _rf64. */
  function DataField(c: Container, n: nat): nat {
    if c.Riff? then Clamp32(n) else if c.W64? then 24 + n else n
  }

  /** The sizes that a file starts with. */
  function InitialRiffField(c: Container): nat {
    if c.Riff? then 28 else if c.W64? then 80 + 24 else 8 + 28
  }

  /** A finished file. */
  function Finished(c: Container, fmt: Fmt, meta: seq<byte>, audio: seq<byte>): seq<byte> {
    Head(c, fmt, meta, RiffField(c, |audio|, |meta|), DataField(c, |audio|)) + audio
    + Zeros(PaddingSize(c, |audio|))
  }

  function FileSize(c: Container, n: nat, meta: nat): nat {
    HeadSize(c, meta) + n + PaddingSize(c, n)
  }

  lemma FinishedLength(c: Container, fmt: Fmt, meta: seq<byte>, audio: seq<byte>)
    requires Supported(c)
    ensures |Finished(c, fmt, meta, audio)| == FileSize(c, |audio|, |meta|)
  {
    HeadLength(c, fmt, meta, RiffField(c, |audio|, |meta|), DataField(c, |audio|));
    hide Head;
  }

  /**
   The size field of a finished file is the file's length, the first eight bytes left out in RIFF and
   RF64: exactly when that fits in 32 bits, also for the 64-bit field of RF64.
   */
  lemma RiffFieldIsFileSize(c: Container, fmt: Fmt, meta: seq<byte>, audio: seq<byte>)
    requires Supported(c)
    ensures var size := |Finished(c, fmt, meta, audio)|;
            if c.W64? then RiffField(c, |audio|, |meta|) == size
            else RiffField(c, |audio|, |meta|) == size - 8 <==> size - 8 <= MAX32
  {
    FinishedLength(c, fmt, meta, audio);
    hide Finished;
  }

  /** A Wave64 file is meant to end on a multiple of eight; it does exactly when the audio size is one of four. */
  lemma W64Alignment(fmt: Fmt, meta: seq<byte>, audio: seq<byte>)
    ensures |Finished(W64, fmt, meta, audio)| % 8 == 0 <==> |audio| % 4 == 0
  {
    FinishedLength(W64, fmt, meta, audio);
    hide Finished;
    PaddedByRemainder(|audio|);
  }

  lemma PaddedByRemainder(n: nat)
    ensures (104 + n + n % 8) % 8 == 0 <==> n % 4 == 0
  {
    var q, r := n / 8, n % 8;
    if r < 4 {
      DivModUnique(13 + q, 8, 2 * r);
      DivModUnique(2 * q, 4, r);
    } else {
      DivModUnique(14 + q, 8, 2 * r - 8);
      DivModUnique(2 * q + 1, 4, r - 4);
    }
  }

  /** RIFF and RF64 files have even length, provided that the metadata does. */
  lemma EvenLength(c: Container, fmt: Fmt, meta: seq<byte>, audio: seq<byte>)
    requires (c.Riff? || c.Rf64?) && |meta| % 2 == 0
    ensures |Finished(c, fmt, meta, audio)| % 2 == 0
  {
    hide *;
    EvenSum(c, |audio|, |meta|);
    FinishedLength(c, fmt, meta, audio);
  }

  lemma EvenSum(c: Container, n: nat, meta: nat)
    requires (c.Riff? || c.Rf64?) && meta % 2 == 0
    ensures FileSize(c, n, meta) % 2 == 0
    ensures Supported(c)
  {
    RoundedEven(n);
  }

  lemma RoundedEven(n: nat)
    ensures (n + n % 2) % 2 == 0
  {
  }

  /** The bytes that so many frames take. */
  function AudioBytes(frames: nat, channels: nat, bits: nat): nat {
    frames * channels * bits / 8
  }

  /** Whole bytes of all the bits. */
  lemma AudioBytesAre(frames: nat, channels: nat, bits: nat)
    ensures WholeBytes(AudioBytes(frames, channels, bits), frames * channels * bits)
  {
  }

  /** drwav_target_write_size_bytes, the audio size without rounding errors. */
  function TargetWriteSize(f: DataFormat, frames: nat, meta: nat): nat {
    var n := AudioBytes(frames, f.channels, f.bitsPerSample);
    if f.container.Riff? || f.container.Rf64? then 8 + RiffField(f.container, n, meta)
    else if f.container.W64? then RiffField(f.container, n, meta)
    else 0
  }

  /** The predicted size is the size of the file, as long as that is below the limit of the size field. */
  lemma TargetIsFileSize(f: DataFormat, frames: nat, fmt: Fmt, meta: seq<byte>, audio: seq<byte>)
    requires Writable(f) && |audio| == AudioBytes(frames, f.channels, f.bitsPerSample)
    ensures var size := |Finished(f.container, fmt, meta, audio)|;
            TargetWriteSize(f, frames, |meta|) == size <==> f.container.W64? || size - 8 <= MAX32
  {
    hide Finished, RiffField;
    RiffFieldIsFileSize(f.container, fmt, meta, audio);
  }
}
