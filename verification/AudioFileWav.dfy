/**
 AudioFile's own WAV writer and reader, for integer sample types: `saveToWaveFile`, `decodeWaveFile` and
 the search for chunks, `getIndexOfChunk`.
 */
module AudioFileWav {
  import opened Arith
  import opened ByteImages
  import opened Bytes
  import opened PcmFrames
  import opened WavMetadata
  import opened WavFormat

  const IXML: Id := [0x69, 0x58, 0x4D, 0x4C]
  const PCM := 1
  const IEEE_FLOAT := 3

  // ---- Samples ----

  predicate GoodDepth(d: int) { d == 8 || d == 16 || d == 24 || d == 32 }

  function Lowest(d: int): int {
    if d == 8 then -128 else if d == 16 then -32768 else if d == 24 then -8388608 else -2147483648
  }

  function Highest(d: int): int { -Lowest(d) - 1 }

  /** What a file of this depth can hold of a sample. */
  function Fitted(d: int, x: int): (y: int)
    ensures Lowest(d) <= y <= Highest(d)
    ensures Lowest(d) <= x <= Highest(d) ==> y == x
  {
    Clamp(x, Lowest(d), Highest(d))
  }

  function BytesPerSample(d: int): nat
    requires GoodDepth(d)
  {
    d / 8
  }

  /** The sample as it is stored: unsigned for 8 bits, otherwise two's complement, low byte first. */
  function EncodeSample(d: int, x: int): (b: seq<byte>)
    requires GoodDepth(d)
    ensures |b| == BytesPerSample(d)
  {
    var y := Fitted(d, x);
    if d == 8 then [y + 128]
    else if d == 16 then U16(y % 0x1_0000)
    else if d == 24 then
      var u := y % 0x100_0000;
      [u % 0x100, u / 0x100 % 0x100, u / 0x1_0000]
    else U32(y % 0x1_0000_0000)
  }

  function DecodeSample(d: int, src: seq<byte>, p: nat): int
    requires GoodDepth(d) && p + BytesPerSample(d) <= |src|
  {
    if d == 8 then src[p] as int - 128
    else if d == 16 then GetS16(src, p)
    else if d == 24 then
      var raw := src[p + 2] as int * 0x1_0000 + src[p + 1] as int * 0x100 + src[p];
      Fitted(24, if raw >= 0x80_0000 then raw - 0x100_0000 else raw)
    else GetS32(src, p)
  }

  /** A stored sample is read back clamped to the depth. */
  lemma SampleBack(d: int, src: seq<byte>, p: nat, x: int)
    requires GoodDepth(d) && Holds(src, p, EncodeSample(d, x))
    ensures p + BytesPerSample(d) <= |src| && DecodeSample(d, src, p) == Fitted(d, x)
  {
    hide *;
    SampleCases(d, src, p, x);
    var y := Fitted(d, x);
    HoldsIs(src, p, EncodeSample(d, x));
    if d == 8 {
      assert src[p] == src[p..p + 1][0];
    } else if d == 16 {
      U16At(src, p, y % 0x1_0000);
      Signed16(y);
    } else if d == 24 {
      Bytes24(src, p, y);
      Signed24(y);
    } else {
      U32At(src, p, y % 0x1_0000_0000);
      Signed32(y);
    }
  }

  /** The two conversions, depth by depth. */
  lemma SampleCases(d: int, src: seq<byte>, p: nat, x: int)
    requires GoodDepth(d)
    ensures d == 8 || d == 16 || d == 24 || d == 32
    ensures |EncodeSample(d, x)| == BytesPerSample(d) == d / 8
    ensures var y := Fitted(d, x);
            && (d == 8 ==> -128 <= y <= 127 && EncodeSample(d, x) == [y + 128])
            && (d == 16 ==> -0x8000 <= y < 0x8000 && EncodeSample(d, x) == U16(y % 0x1_0000))
            && (d == 24 ==> -0x80_0000 <= y < 0x80_0000
                            && var u := y % 0x100_0000;
                               EncodeSample(d, x) == [u % 0x100, u / 0x100 % 0x100, u / 0x1_0000])
            && (d == 32 ==> -0x8000_0000 <= y < 0x8000_0000 && EncodeSample(d, x) == U32(y % 0x1_0000_0000))
    ensures p + d / 8 <= |src| ==>
              && (d == 8 ==> DecodeSample(d, src, p) == src[p] as int - 128)
              && (d == 16 ==> DecodeSample(d, src, p) == ToS16(GetU16(src, p)))
              && (d == 24 ==>
                    var raw := src[p + 2] as int * 0x1_0000 + src[p + 1] as int * 0x100 + src[p];
                    DecodeSample(d, src, p) == Fitted(24, if raw >= 0x80_0000 then raw - 0x100_0000 else raw))
              && (d == 32 ==> DecodeSample(d, src, p) == ToS32(GetU32(src, p)))
  {
    hide U16, U32, GetU16, GetU32, ToS16, ToS32;
  }

  lemma Signed16(y: int)
    requires -0x8000 <= y < 0x8000
    ensures 0 <= y % 0x1_0000 < 0x1_0000 && ToS16(y % 0x1_0000) == y
  {
  }

  lemma Signed24(y: int)
    requires -0x80_0000 <= y < 0x80_0000
    ensures var raw := y % 0x100_0000; Fitted(24, if raw >= 0x80_0000 then raw - 0x100_0000 else raw) == y
  {
  }

  lemma Signed32(y: int)
    requires -0x8000_0000 <= y < 0x8000_0000
    ensures 0 <= y % 0x1_0000_0000 < 0x1_0000_0000 && ToS32(y % 0x1_0000_0000) == y
  {
  }

  lemma Bytes24(src: seq<byte>, p: nat, y: int)
    requires -8388608 <= y <= 8388607
    requires var u := y % 0x100_0000; Holds(src, p, [u % 0x100, u / 0x100 % 0x100, u / 0x1_0000])
    ensures p + 3 <= |src|
    ensures src[p + 2] as int * 0x1_0000 + src[p + 1] as int * 0x100 + src[p] == y % 0x100_0000
  {
    var b := src[p..p + 3];
    assert src[p] == b[0] && src[p + 1] == b[1] && src[p + 2] == b[2];
  }

  // ---- A file ----

  /** What is saved; a sample of frame `i` in channel `c` is samples[c][i]. */
  datatype Audio = Audio(samples: seq<seq<int>>, sampleRate: u32, bitDepth: int, iXML: seq<byte>)

  function FrameCount(a: Audio): nat {
    if |a.samples| > 0 then |a.samples[0]| else 0
  }

  predicate EqualLengths(a: Audio) {
    forall c :: 0 <= c < |a.samples| ==> |a.samples[c]| == FrameCount(a)
  }

  /** The first `c` samples of frame `i`. */
  function FrameBytes(a: Audio, i: nat, c: nat): (b: seq<byte>)
    requires GoodDepth(a.bitDepth) && EqualLengths(a) && i < FrameCount(a) && c <= |a.samples|
  {
    if c == 0 then [] else FrameBytes(a, i, c - 1) + EncodeSample(a.bitDepth, a.samples[c - 1][i])
  }

  /** The first `n` frames. */
  function DataBytes(a: Audio, n: nat): seq<byte>
    requires GoodDepth(a.bitDepth) && EqualLengths(a) && n <= FrameCount(a)
  {
    if n == 0 then [] else DataBytes(a, n - 1) + FrameBytes(a, n - 1, |a.samples|)
  }

  function BlockSize(a: Audio): nat
    requires GoodDepth(a.bitDepth)
  {
    Times(|a.samples|, BytesPerSample(a.bitDepth))
  }

  function DataSize(a: Audio): nat
    requires GoodDepth(a.bitDepth)
  {
    Times(FrameCount(a), BlockSize(a))
  }

  lemma {:induction false} FrameLength(a: Audio, i: nat, c: nat)
    requires GoodDepth(a.bitDepth) && EqualLengths(a) && i < FrameCount(a) && c <= |a.samples|
    ensures |FrameBytes(a, i, c)| == Times(c, BytesPerSample(a.bitDepth))
  {
    hide EncodeSample;
    if c > 0 {
      FrameLength(a, i, c - 1);
      MulSucc(c - 1, BytesPerSample(a.bitDepth));
    }
  }

  lemma {:induction false} DataLength(a: Audio, n: nat)
    requires GoodDepth(a.bitDepth) && EqualLengths(a) && n <= FrameCount(a)
    ensures |DataBytes(a, n)| == Times(n, BlockSize(a))
  {
    hide EncodeSample, FrameBytes;
    if n > 0 {
      DataLength(a, n - 1);
      FrameLength(a, n - 1, |a.samples|);
      MulSucc(n - 1, BlockSize(a));
    }
  }

  /** Bytes a second, in the source's wrapping 32-bit arithmetic. */
  function ByteRate(channels: nat, rate: u32, depth: nat): u32 {
    To32(Times(To32(Times(channels, rate)), depth)) / 8
  }

  function FmtFields(channels: nat, rate: u32, depth: nat, block: nat): (b: seq<byte>)
    ensures |b| == 16
  {
    U16(PCM) + U16(To16(channels)) + U32(rate) + U32(ByteRate(channels, rate, depth)) + U16(To16(block))
    + U16(To16(depth))
  }

  function FmtBody(a: Audio): (b: seq<byte>)
    requires GoodDepth(a.bitDepth)
    ensures |b| == 16
  {
    FmtFields(|a.samples|, a.sampleRate, a.bitDepth, BlockSize(a))
  }

  function XmlChunk(a: Audio): seq<byte> {
    if a.iXML == [] then [] else IXML + Size32(|a.iXML|) + a.iXML
  }

  function FileSize(a: Audio): nat
    requires GoodDepth(a.bitDepth)
  {
    4 + 16 + 8 + 8 + DataSize(a) + if a.iXML == [] then 0 else 8 + |a.iXML|
  }

  /** The saved file. */
  function Saved(a: Audio): seq<byte>
    requires GoodDepth(a.bitDepth) && EqualLengths(a)
  {
    RIFF_ID + Size32(FileSize(a)) + WAVE_ID
    + (FMT + Size32(16) + FmtBody(a))
    + (DATA + Size32(DataSize(a)) + DataBytes(a, FrameCount(a)))
    + XmlChunk(a)
  }

  /** The sizes fit the signed 32-bit fields. */
  predicate Savable(a: Audio) {
    GoodDepth(a.bitDepth) && EqualLengths(a) && |a.samples| < 0x8000 && FileSize(a) + 8 < 0x8000_0000
  }

  // ---- Finding a chunk ----

  /** getIndexOfChunk, from position `i`; -1 when there is none. */
  function IndexFrom(src: seq<byte>, id: Id, i: nat): (r: int)
    ensures r == -1 || (i <= r && r + 4 < |src| && src[r..r + 4] == id)
    decreases |src| - i
  {
    if i + 4 >= |src| then -1
    else if src[i..i + 4] == id then i
    else if i + 8 >= |src| then -1
    else
      var size := GetS32(src, i + 4);
      if size < 0 || size > |src| - (i + 4) - 4 then -1 else IndexFrom(src, id, i + 8 + size)
  }

  lemma IndexFromIs(src: seq<byte>, id: Id, i: nat)
    ensures i + 4 >= |src| ==> IndexFrom(src, id, i) == -1
    ensures i + 4 < |src| && src[i..i + 4] == id ==> IndexFrom(src, id, i) == i
    ensures i + 4 < |src| && src[i..i + 4] != id && i + 8 >= |src| ==> IndexFrom(src, id, i) == -1
    ensures i + 8 < |src| && src[i..i + 4] != id
            ==> var size := GetS32(src, i + 4);
                IndexFrom(src, id, i)
                == if size < 0 || size > |src| - (i + 4) - 4 then -1 else IndexFrom(src, id, i + 8 + size)
  {
    hide GetS32;
  }

  /** Its index grows by at least eight a turn, so the search ends. */
  method GetIndexOfChunk(source: seq<byte>, id: Id, startIndex: nat) returns (r: int)
    requires |source| >= 4
    ensures r == IndexFrom(source, id, startIndex)
  {
    hide *;
    var i: nat := startIndex;
    while i < |source| - 4
      invariant 0 <= i && IndexFrom(source, id, startIndex) == IndexFrom(source, id, i)
      decreases |source| - i
    {
      IndexFromIs(source, id, i);
      if source[i..i + 4] == id {
        return i;
      }
      i := i + 4;
      if i + 4 >= |source| {
        return -1;
      }
      var chunkSize := GetS32(source, i);
      if chunkSize > |source| - i - 4 || chunkSize < 0 {
        return -1;
      }
      i := i + (4 + chunkSize);
    }
    IndexFromIs(source, id, i);
    r := -1;
  }

  /** A chunk that is in a file. */
  datatype Part = Part(id: Id, body: seq<byte>)

  function PartsBytes(parts: seq<Part>): seq<byte> {
    if parts == [] then [] else (parts[0].id + Size32(|parts[0].body|) + parts[0].body) + PartsBytes(parts[1..])
  }

  /** Where the first part with this id starts. */
  function FirstWith(parts: seq<Part>, id: Id, at: nat): int {
    if parts == [] then -1
    else if parts[0].id == id then at
    else FirstWith(parts[1..], id, at + 8 + |parts[0].body|)
  }

  /**
   The search finds the first chunk with an id, and only that: nothing inside the bodies of the chunks
   before it, whatever their bytes, can be taken for it.
   */
  lemma {:induction false} SearchFindsChunks(src: seq<byte>, parts: seq<Part>, id: Id, i: nat)
    requires Holds(src, i, PartsBytes(parts)) && |src| == i + |PartsBytes(parts)| < 0x8000_0000
    ensures IndexFrom(src, id, i) == FirstWith(parts, id, i)
    decreases |parts|
  {
    hide *;
    IndexFromIs(src, id, i);
    PartsStep(parts, id, i);
    if parts != [] {
      var head := parts[0].id + Size32(|parts[0].body|) + parts[0].body;
      HoldsSplit(src, i, head, PartsBytes(parts[1..]));
      HoldsSplit(src, i, parts[0].id + Size32(|parts[0].body|), parts[0].body);
      HoldsSplit(src, i, parts[0].id, Size32(|parts[0].body|));
      PartHeader(src, i, parts[0]);
      if parts[0].id != id && i + 8 < |src| {
        SearchFindsChunks(src, parts[1..], id, i + 8 + |parts[0].body|);
      } else if parts[0].id != id {
        PartsStep(parts[1..], id, i + 8 + |parts[0].body|);
        NothingLeft(parts[1..]);
      }
    }
  }

  lemma PartsStep(parts: seq<Part>, id: Id, at: nat)
    ensures parts == [] ==> PartsBytes(parts) == [] && FirstWith(parts, id, at) == -1
    ensures parts != []
            ==> PartsBytes(parts)
                == (parts[0].id + Size32(|parts[0].body|) + parts[0].body) + PartsBytes(parts[1..])
                && FirstWith(parts, id, at)
                   == if parts[0].id == id then at else FirstWith(parts[1..], id, at + 8 + |parts[0].body|)
  {
  }

  lemma NothingLeft(parts: seq<Part>)
    requires PartsBytes(parts) == []
    ensures parts == []
  {
  }

  lemma PartHeader(src: seq<byte>, i: nat, part: Part)
    requires Holds(src, i, part.id) && Holds(src, i + 4, Size32(|part.body|)) && |part.body| < 0x8000_0000
    ensures i + 8 <= |src| && src[i..i + 4] == part.id && GetS32(src, i + 4) == |part.body|
    ensures |part.id| == 4 && |Size32(|part.body|)| == 4
  {
    hide GetU32, U32;
    U32At(src, i + 4, |part.body|);
  }

  // ---- The chunks of a saved file ----

  function PartsOf(a: Audio): seq<Part>
    requires GoodDepth(a.bitDepth) && EqualLengths(a)
  {
    [Part(FMT, FmtBody(a)), Part(DATA, DataBytes(a, FrameCount(a)))]
    + if a.iXML == [] then [] else [Part(IXML, a.iXML)]
  }

  /** A saved file is its twelve bytes of identification and its chunks. */
  lemma SavedIsParts(a: Audio)
    requires Savable(a)
    ensures |DataBytes(a, FrameCount(a))| == DataSize(a)
    ensures |Saved(a)| == 44 + DataSize(a) + |XmlChunk(a)| == FileSize(a) + 8
    ensures Holds(Saved(a), 0, RIFF_ID) && Holds(Saved(a), 8, WAVE_ID) && Holds(Saved(a), 12, PartsBytes(PartsOf(a)))
    ensures |Saved(a)| == 12 + |PartsBytes(PartsOf(a))|
  {
    hide FmtBody, DataBytes, DataSize, Size32, GoodDepth, BlockSize, Times;
    DataLength(a, FrameCount(a));
    DataSizeIs(a);
    var fmt := FMT + Size32(16) + FmtBody(a);
    var data := DATA + Size32(DataSize(a)) + DataBytes(a, FrameCount(a));
    ThreeParts(a);
    var img := Saved(a);
    var lead := RIFF_ID + Size32(FileSize(a)) + WAVE_ID;
    assert img == lead + (fmt + (data + XmlChunk(a)));
    HoldsAll(img);
    HoldsSplit(img, 0, lead, fmt + (data + XmlChunk(a)));
    HoldsSplit(img, 0, RIFF_ID + Size32(FileSize(a)), WAVE_ID);
    HoldsSplit(img, 0, RIFF_ID, Size32(FileSize(a)));
  }

  lemma DataSizeIs(a: Audio)
    requires GoodDepth(a.bitDepth)
    ensures DataSize(a) == Times(FrameCount(a), BlockSize(a))
  {
  }

  lemma ThreeParts(a: Audio)
    requires GoodDepth(a.bitDepth) && EqualLengths(a) && |DataBytes(a, FrameCount(a))| == DataSize(a)
    ensures PartsBytes(PartsOf(a))
            == (FMT + Size32(16) + FmtBody(a))
               + ((DATA + Size32(DataSize(a)) + DataBytes(a, FrameCount(a))) + XmlChunk(a))
  {
    hide FmtBody, DataBytes, DataSize, Size32, GoodDepth, EqualLengths, FrameCount, PartsBytes;
    var parts := PartsOf(a);
    PartsStep(parts, FMT, 0);
    PartsStep(parts[1..], FMT, 0);
    PartsStep(parts[1..][1..], FMT, 0);
    PartsStep([], FMT, 0);
    assert parts[1..][0] == Part(DATA, DataBytes(a, FrameCount(a)));
    if a.iXML != [] {
      assert parts[1..][1..] == [Part(IXML, a.iXML)];
      assert [Part(IXML, a.iXML)][1..] == [];
      assert XmlChunk(a) + [] == XmlChunk(a);
    } else {
      assert parts[1..][1..] == [];
    }
  }

  /** Where the reader finds the chunks of a saved file. */
  lemma ChunksFound(a: Audio)
    requires Savable(a)
    ensures |Saved(a)| >= 12
    ensures IndexFrom(Saved(a), FMT, 12) == 12 && IndexFrom(Saved(a), DATA, 12) == 36
    ensures IndexFrom(Saved(a), IXML, 12) == if a.iXML == [] then -1 else 44 + DataSize(a)
  {
    hide Saved, FmtBody, DataBytes, DataSize, Size32, XmlChunk, IndexFrom, PartsBytes, Holds;
    SavedIsParts(a);
    SearchFindsChunks(Saved(a), PartsOf(a), FMT, 12);
    SearchFindsChunks(Saved(a), PartsOf(a), DATA, 12);
    SearchFindsChunks(Saved(a), PartsOf(a), IXML, 12);
    FirstOf(a);
  }

  lemma FirstOf(a: Audio)
    requires GoodDepth(a.bitDepth) && EqualLengths(a) && |DataBytes(a, FrameCount(a))| == DataSize(a)
    ensures FirstWith(PartsOf(a), FMT, 12) == 12 && FirstWith(PartsOf(a), DATA, 12) == 36
    ensures FirstWith(PartsOf(a), IXML, 12) == if a.iXML == [] then -1 else 44 + DataSize(a)
  {
    hide FmtBody, DataBytes, DataSize, GoodDepth, EqualLengths, FrameCount, FirstWith;
    var parts := PartsOf(a);
    assert FMT[0] == 0x66 && DATA[0] == 0x64 && IXML[0] == 0x69;
    assert parts[1..][0] == Part(DATA, DataBytes(a, FrameCount(a)));
    if a.iXML != [] {
      assert parts[1..][1..] == [Part(IXML, a.iXML)];
    } else {
      assert parts[1..][1..] == [];
    }
    PartsStep(parts, FMT, 12);
    PartsStep(parts, DATA, 12);
    PartsStep(parts[1..], DATA, 36);
    PartsStep(parts, IXML, 12);
    PartsStep(parts[1..], IXML, 36);
    PartsStep(parts[1..][1..], IXML, 44 + DataSize(a));
  }

  // ---- What is read ----

  /** The fmt chunk at `f`, as the reader takes it apart. */
  datatype Format = Format(audioFormat: nat, channels: nat, sampleRate: u32, byteRate: u32, block: nat, bitDepth: int)

  function FormatAt(src: seq<byte>, f: nat): Format
    requires f + 24 <= |src|
  {
    Format(GetU16(src, f + 8), GetU16(src, f + 10), GetU32(src, f + 12), GetU32(src, f + 16), GetU16(src, f + 20),
           GetS16(src, f + 22))
  }

  /** The reader's checks of a format, for samples of `typeBits` bits. */
  predicate Supports(fmt: Format, typeBits: nat) {
    && 0 <= fmt.bitDepth <= typeBits
    && (fmt.audioFormat == PCM || fmt.audioFormat == IEEE_FLOAT || fmt.audioFormat == FORMAT_EXTENSIBLE)
    && 1 <= fmt.channels <= 128
    && fmt.byteRate == ByteRate(fmt.channels, fmt.sampleRate, fmt.bitDepth)
    && fmt.block == Times(fmt.channels, fmt.bitDepth / 8)
    && GoodDepth(fmt.bitDepth)
  }

  predicate Identified(src: seq<byte>)
    requires |src| >= 12
  {
    && IndexFrom(src, DATA, 12) != -1 && IndexFrom(src, FMT, 12) != -1
    && src[0..4] == RIFF_ID && src[8..12] == WAVE_ID
  }

  /** The fields of the fmt chunk are inside the file. */
  predicate HeaderInside(src: seq<byte>) {
    && |src| >= 12
    && (Identified(src) ==>
          IndexFrom(src, FMT, 12) + 24 <= |src|)
  }

  predicate XmlInside(src: seq<byte>)
    requires |src| >= 12
  {
    var x := IndexFrom(src, IXML, 12);
    x != -1 ==> x + 8 <= |src| && GetS32(src, x + 4) >= 0 && x + 8 + GetS32(src, x + 4) <= |src|
  }

  /** All that the reader goes to without looking, samples aside, is inside the file. */
  predicate FieldsInside(src: seq<byte>, typeBits: nat) {
    HeaderInside(src) && (DecodeFile(src, typeBits).DecodedFile? ==> XmlInside(src))
  }

  /** fourBytesToInt, assertions aside: 0 where the file ends before. */
  function SizeAt(src: seq<byte>, p: nat): int {
    if p + 4 <= |src| then GetS32(src, p) else 0
  }

  /** The number of frames that a data size stands for; none for a negative one. */
  function FramesIn(size: int, channels: nat, depth: int): nat
    requires GoodDepth(depth)
  {
    var unit := channels * depth / 8;
    if size <= 0 || unit <= 0 then 0 else size / unit
  }

  /** Where a sample lies. */
  function SampleIndex(start: nat, fmt: Format, i: nat, c: nat): nat {
    start + Times(fmt.block, i) + Times(c, if GoodDepth(fmt.bitDepth) then fmt.bitDepth / 8 else 0)
  }

  /** The first `n` samples of channel `c`. */
  function Column(src: seq<byte>, start: nat, fmt: Format, c: nat, n: nat): seq<int>
    requires GoodDepth(fmt.bitDepth)
  {
    if n == 0 then []
    else
      var p := SampleIndex(start, fmt, n - 1, c);
      Column(src, start, fmt, c, n - 1)
      + [if p + BytesPerSample(fmt.bitDepth) <= |src| then DecodeSample(fmt.bitDepth, src, p) else 0]
  }

  /** The first `n` samples of every channel. */
  function Columns(src: seq<byte>, start: nat, fmt: Format, n: nat): seq<seq<int>>
    requires GoodDepth(fmt.bitDepth)
  {
    seq(fmt.channels, c requires 0 <= c < fmt.channels => Column(src, start, fmt, c, n))
  }

  datatype DecodedFile = Unreadable | DecodedFile(fmt: Format, samples: seq<seq<int>>)

  function DecodeFile(src: seq<byte>, typeBits: nat): DecodedFile
    requires HeaderInside(src)
  {
    if !Identified(src) then Unreadable
    else
      var fmt := FormatAt(src, IndexFrom(src, FMT, 12));
      if !Supports(fmt, typeBits) then Unreadable
      else
        var d := IndexFrom(src, DATA, 12);
        var n := FramesIn(SizeAt(src, d + 4), fmt.channels, fmt.bitDepth);
        if n > 0 && d + 8 + Times(fmt.block, n) > |src| then Unreadable
        else DecodedFile(fmt, Columns(src, d + 8, fmt, n))
  }

  /** The iXML text afterwards: a file without one leaves what was there. */
  function XmlAfter(src: seq<byte>, before: seq<byte>): seq<byte>
    requires |src| >= 12 && XmlInside(src)
  {
    var x := IndexFrom(src, IXML, 12);
    if x == -1 then before else src[x + 8..x + 8 + GetS32(src, x + 4)]
  }

  // ---- Round trip ----

  /** A sample in the saved data: frame `i`, channel `c`. */
  lemma {:induction false} SampleInFrame(a: Audio, img: seq<byte>, p: nat, i: nat, c: nat, n: nat)
    requires GoodDepth(a.bitDepth) && EqualLengths(a) && i < FrameCount(a) && c < n <= |a.samples|
    requires Holds(img, p, FrameBytes(a, i, n))
    ensures Holds(img, p + Times(c, BytesPerSample(a.bitDepth)), EncodeSample(a.bitDepth, a.samples[c][i]))
    decreases n
  {
    hide *;
    FrameStep(a, i, n);
    FrameLength(a, i, n - 1);
    HoldsSplit(img, p, FrameBytes(a, i, n - 1), EncodeSample(a.bitDepth, a.samples[n - 1][i]));
    if c < n - 1 {
      SampleInFrame(a, img, p, i, c, n - 1);
    }
  }

  lemma FrameStep(a: Audio, i: nat, n: nat)
    requires GoodDepth(a.bitDepth) && EqualLengths(a) && i < FrameCount(a) && 0 < n <= |a.samples|
    ensures forall k :: 0 <= k < n ==> |a.samples[k]| == FrameCount(a)
    ensures FrameBytes(a, i, n) == FrameBytes(a, i, n - 1) + EncodeSample(a.bitDepth, a.samples[n - 1][i])
  {
  }

  lemma {:induction false} FrameInData(a: Audio, img: seq<byte>, p: nat, i: nat, n: nat)
    requires GoodDepth(a.bitDepth) && EqualLengths(a) && i < n <= FrameCount(a)
    requires Holds(img, p, DataBytes(a, n))
    ensures Holds(img, p + Times(i, BlockSize(a)), FrameBytes(a, i, |a.samples|))
    decreases n
  {
    hide *;
    DataStep(a, n);
    DataLength(a, n - 1);
    HoldsSplit(img, p, DataBytes(a, n - 1), FrameBytes(a, n - 1, |a.samples|));
    if i < n - 1 {
      FrameInData(a, img, p, i, n - 1);
    }
  }

  lemma DataStep(a: Audio, n: nat)
    requires GoodDepth(a.bitDepth) && EqualLengths(a) && 0 < n <= FrameCount(a)
    ensures DataBytes(a, n) == DataBytes(a, n - 1) + FrameBytes(a, n - 1, |a.samples|)
  {
  }

  /** The samples of one channel, clamped to the depth. */
  function FittedColumn(a: Audio, c: nat, n: nat): seq<int>
    requires c < |a.samples| && n <= |a.samples[c]|
  {
    if n == 0 then [] else FittedColumn(a, c, n - 1) + [Fitted(a.bitDepth, a.samples[c][n - 1])]
  }

  /** Reading the data back, channel by channel. */
  lemma {:induction false} ColumnBack(a: Audio, src: seq<byte>, start: nat, fmt: Format, c: nat, n: nat)
    requires GoodDepth(a.bitDepth) && EqualLengths(a) && c < |a.samples| && n <= FrameCount(a)
    requires Holds(src, start, DataBytes(a, FrameCount(a)))
    requires fmt.bitDepth == a.bitDepth && fmt.block == BlockSize(a)
    ensures Column(src, start, fmt, c, n) == FittedColumn(a, c, n)
  {
    hide *;
    ColumnStep(src, start, fmt, c, n);
    FittedStep(a, c, n);
    if n > 0 {
      ColumnBack(a, src, start, fmt, c, n - 1);
      FrameInData(a, src, start, n - 1, FrameCount(a));
      SampleInFrame(a, src, start + Times(n - 1, BlockSize(a)), n - 1, c, |a.samples|);
      SampleBack(a.bitDepth, src, start + Times(n - 1, BlockSize(a)) + Times(c, BytesPerSample(a.bitDepth)), a.samples[c][n - 1]);
      TimesSwap(BlockSize(a), n - 1);
    }
  }

  lemma TimesSwap(a: nat, b: nat)
    ensures Times(a, b) == Times(b, a) >= 0
  {
  }

  lemma ColumnStep(src: seq<byte>, start: nat, fmt: Format, c: nat, n: nat)
    requires GoodDepth(fmt.bitDepth)
    ensures n == 0 ==> Column(src, start, fmt, c, n) == []
    ensures n > 0
            ==> var p := start + Times(fmt.block, n - 1) + Times(c, BytesPerSample(fmt.bitDepth));
                Column(src, start, fmt, c, n)
                == Column(src, start, fmt, c, n - 1)
                   + [if p + BytesPerSample(fmt.bitDepth) <= |src| then DecodeSample(fmt.bitDepth, src, p) else 0]
  {
    hide DecodeSample, Times;
  }

  lemma FittedStep(a: Audio, c: nat, n: nat)
    requires EqualLengths(a) && c < |a.samples| && n <= FrameCount(a)
    ensures |a.samples[c]| == FrameCount(a)
    ensures FittedColumn(a, c, n)
            == if n == 0 then [] else FittedColumn(a, c, n - 1) + [Fitted(a.bitDepth, a.samples[c][n - 1])]
  {
  }

  /** The fmt chunk of a saved file. */
  lemma FormatBack(a: Audio, src: seq<byte>, f: nat)
    requires GoodDepth(a.bitDepth) && |a.samples| < 0x8000 && Holds(src, f + 8, FmtBody(a))
    ensures f + 24 <= |src|
    ensures FormatAt(src, f)
            == Format(PCM, |a.samples|, a.sampleRate, ByteRate(|a.samples|, a.sampleRate, a.bitDepth),
                      To16(BlockSize(a)), a.bitDepth)
  {
    hide U32, U16, GetU16, GetU32, BlockSize, ByteRate, To16;
    To16Is(|a.samples|);
    var r, b, k, d := U32(a.sampleRate), U32(ByteRate(|a.samples|, a.sampleRate, a.bitDepth)),
                      U16(To16(BlockSize(a))), U16(To16(a.bitDepth));
    To16Is(a.bitDepth);
    var p, n := U16(PCM), U16(To16(|a.samples|));
    HoldsIs(src, f + 8, FmtBody(a));
    HoldsSplit(src, f + 8, p + n + r + b + k, d);
    HoldsSplit(src, f + 8, p + n + r + b, k);
    HoldsSplit(src, f + 8, p + n + r, b);
    HoldsSplit(src, f + 8, p + n, r);
    HoldsSplit(src, f + 8, p, n);
    U16At(src, f + 8, PCM);
    U16At(src, f + 10, To16(|a.samples|));
    U32At(src, f + 12, a.sampleRate);
    U32At(src, f + 16, ByteRate(|a.samples|, a.sampleRate, a.bitDepth));
    U16At(src, f + 20, To16(BlockSize(a)));
    U16At(src, f + 22, a.bitDepth);
  }

  lemma To16Is(n: nat)
    requires n < 0x8000
    ensures To16(n) == n
  {
  }

  /** The parts of a saved file that the reader goes to. */
  lemma SavedFields(a: Audio)
    requires Savable(a)
    ensures var img := Saved(a);
            && |img| == FileSize(a) + 8 && Holds(img, 0, RIFF_ID) && Holds(img, 8, WAVE_ID)
            && Holds(img, 20, FmtBody(a)) && Holds(img, 40, Size32(DataSize(a)))
            && Holds(img, 44, DataBytes(a, FrameCount(a)))
            && (a.iXML != [] ==> Holds(img, 48 + DataSize(a), Size32(|a.iXML|)) && Holds(img, 52 + DataSize(a), a.iXML))
  {
    hide *;
    SavedIsParts(a);
    SavableIs(a);
    ThreeParts(a);
    FmtBodyIs(a);
    var img := Saved(a);
    var fmt := FMT + Size32(16) + FmtBody(a);
    var data := DATA + Size32(DataSize(a)) + DataBytes(a, FrameCount(a));
    HoldsSplit(img, 12, fmt, data + XmlChunk(a));
    HoldsSplit(img, 36, data, XmlChunk(a));
    HoldsSplit(img, 12, FMT + Size32(16), FmtBody(a));
    HoldsSplit(img, 36, DATA + Size32(DataSize(a)), DataBytes(a, FrameCount(a)));
    HoldsSplit(img, 36, DATA, Size32(DataSize(a)));
    XmlChunkIs(a);
    if a.iXML != [] {
      HoldsSplit(img, 44 + DataSize(a), IXML + Size32(|a.iXML|), a.iXML);
      HoldsSplit(img, 44 + DataSize(a), IXML, Size32(|a.iXML|));
    }
  }

  lemma SavableIs(a: Audio)
    requires Savable(a)
    ensures GoodDepth(a.bitDepth) && EqualLengths(a) && |a.samples| < 0x8000 && FileSize(a) + 8 < 0x8000_0000
    ensures 0 <= DataSize(a) && DataSize(a) + 44 + (if a.iXML == [] then 0 else 8 + |a.iXML|) == FileSize(a) + 8
  {
  }

  lemma FmtBodyIs(a: Audio)
    requires GoodDepth(a.bitDepth)
    ensures |FmtBody(a)| == 16 && |FMT + Size32(16)| == 8 && |DATA + Size32(DataSize(a))| == 8 && |DATA| == 4
  {
  }

  lemma XmlChunkIs(a: Audio)
    ensures XmlChunk(a) == if a.iXML == [] then [] else (IXML + Size32(|a.iXML|)) + a.iXML
    ensures |IXML| == 4 && |IXML + Size32(|a.iXML|)| == 8
  {
  }

  /** The format that the reader gets from a saved file. */
  function FormatOf(a: Audio): Format
    requires GoodDepth(a.bitDepth)
  {
    Format(PCM, |a.samples|, a.sampleRate, ByteRate(|a.samples|, a.sampleRate, a.bitDepth), To16(BlockSize(a)),
           a.bitDepth)
  }

  function FittedSamples(a: Audio): seq<seq<int>>
    requires EqualLengths(a)
  {
    seq(|a.samples|, c requires 0 <= c < |a.samples| => FittedColumn(a, c, FrameCount(a)))
  }

  /** The fields of a saved file, as the reader finds them. */
  lemma SavedFound(a: Audio)
    requires Savable(a)
    ensures |Saved(a)| >= 44 && Identified(Saved(a)) && XmlInside(Saved(a))
    ensures HeaderInside(Saved(a))
    ensures FormatAt(Saved(a), 12) == FormatOf(a) && SizeAt(Saved(a), 40) == DataSize(a)
    ensures a.iXML != [] ==> XmlAfter(Saved(a), []) == a.iXML
  {
    hide Saved, FmtBody, DataBytes, DataSize, Size32, IndexFrom, GetU16, GetU32, BlockSize, FileSize, ByteRate;
    SavableIs(a);
    SavedFields(a);
    ChunksFound(a);
    FormatBack(a, Saved(a), 12);
    SizeBack(Saved(a), 40, DataSize(a));
    if a.iXML != [] {
      SizeBack(Saved(a), 48 + DataSize(a), |a.iXML|);
    }
  }

  lemma FieldsIf(src: seq<byte>, typeBits: nat)
    requires HeaderInside(src) && XmlInside(src)
    ensures FieldsInside(src, typeBits)
  {
    hide HeaderInside, XmlInside, DecodeFile;
  }

  lemma SizeBack(src: seq<byte>, p: nat, n: nat)
    requires Holds(src, p, Size32(n)) && n < 0x8000_0000
    ensures p + 4 <= |src| && GetS32(src, p) == n
  {
    hide U32, GetU32;
    U32At(src, p, n);
  }

  /** The reader's format checks hold exactly for 1 to 128 channels. */
  lemma SupportsSaved(a: Audio, typeBits: nat)
    requires GoodDepth(a.bitDepth) && a.bitDepth <= typeBits
    ensures Supports(FormatOf(a), typeBits) <==> 1 <= |a.samples| <= 128
    ensures |a.samples| <= 128 ==> FormatOf(a).block == BlockSize(a)
  {
    if |a.samples| <= 128 {
      MulMono(|a.samples|, 128, BytesPerSample(a.bitDepth));
    }
  }

  /** The frame count of a saved file is read back. */
  lemma FramesBack(a: Audio)
    requires GoodDepth(a.bitDepth) && |a.samples| >= 1
    ensures FramesIn(DataSize(a), |a.samples|, a.bitDepth) == FrameCount(a)
  {
    var bps := BytesPerSample(a.bitDepth);
    var unit := Times(|a.samples|, bps);
    UnitIs(|a.samples|, a.bitDepth);
    MulMono(1, |a.samples|, bps);
    if FrameCount(a) > 0 {
      MulMono(1, FrameCount(a), unit);
    }
    DivModUnique(FrameCount(a), unit, 0);
  }

  lemma UnitIs(channels: nat, depth: int)
    requires GoodDepth(depth)
    ensures channels * depth / 8 == Times(channels, BytesPerSample(depth))
  {
  }

  /**
   Saving and loading: a file with 1 to 128 channels is read, and the samples come back clamped to its
   depth, with the same rate and depth. Any other number of channels is refused.
   */
  lemma SaveLoad(a: Audio, typeBits: nat)
    requires Savable(a) && a.bitDepth <= typeBits
    ensures FieldsInside(Saved(a), typeBits)
    ensures DecodeFile(Saved(a), typeBits)
            == if 1 <= |a.samples| <= 128 then DecodedFile(FormatOf(a), FittedSamples(a)) else Unreadable
  {
    hide *;
    SavableIs(a);
    SavedFound(a);
    ChunksFound(a);
    SupportsSaved(a, typeBits);
    FieldsIf(Saved(a), typeBits);
    DecodeFileIs(Saved(a), typeBits);
    FormatOfIs(a);
    if 1 <= |a.samples| <= 128 {
      SavedFields(a);
      FramesBack(a);
      SavedIsParts(a);
      DataSizeIs(a);
      TimesSwap(FrameCount(a), BlockSize(a));
      HoldsIs(Saved(a), 44, DataBytes(a, FrameCount(a)));
      ColumnsBack(a, Saved(a), FormatOf(a));
    }
  }

  lemma FormatOfIs(a: Audio)
    requires GoodDepth(a.bitDepth)
    ensures FormatOf(a).channels == |a.samples| && FormatOf(a).bitDepth == a.bitDepth
    ensures FormatOf(a).sampleRate == a.sampleRate
  {
  }

  lemma DecodeFileIs(src: seq<byte>, typeBits: nat)
    requires HeaderInside(src) && Identified(src) && 44 <= |src|
    requires IndexFrom(src, FMT, 12) == 12 && IndexFrom(src, DATA, 12) == 36
    ensures var fmt := FormatAt(src, 12);
            if !Supports(fmt, typeBits) then DecodeFile(src, typeBits) == Unreadable
            else
              && GoodDepth(fmt.bitDepth)
              && var n := FramesIn(SizeAt(src, 40), fmt.channels, fmt.bitDepth);
                 DecodeFile(src, typeBits)
                 == if n > 0 && 44 + Times(fmt.block, n) > |src| then Unreadable
                    else DecodedFile(fmt, Columns(src, 44, fmt, n))
  {
    hide IndexFrom, Columns, GetU16, GetU32, FramesIn, ByteRate, Times;
  }

  lemma ColumnsBack(a: Audio, src: seq<byte>, fmt: Format)
    requires GoodDepth(a.bitDepth) && EqualLengths(a) && Holds(src, 44, DataBytes(a, FrameCount(a)))
    requires fmt.bitDepth == a.bitDepth && fmt.block == BlockSize(a) && fmt.channels == |a.samples|
    ensures Columns(src, 44, fmt, FrameCount(a)) == FittedSamples(a)
  {
    hide Column, FittedColumn, DataBytes, BlockSize;
    forall c | 0 <= c < |a.samples|
      ensures Column(src, 44, fmt, c, FrameCount(a)) == FittedColumn(a, c, FrameCount(a))
    {
      ColumnBack(a, src, 44, fmt, c, FrameCount(a));
    }
  }

  /** What of the samples comes back: all of them, unless they need more bits than the depth has. */
  lemma {:induction false} FittedAt(a: Audio, c: nat, n: nat, i: nat)
    requires c < |a.samples| && i < n <= |a.samples[c]|
    ensures |FittedColumn(a, c, n)| == n && FittedColumn(a, c, n)[i] == Fitted(a.bitDepth, a.samples[c][i])
  {
    hide Fitted;
    FittedLength(a, c, n);
    FittedLength(a, c, n - 1);
    if i < n - 1 {
      FittedAt(a, c, n - 1, i);
    }
  }

  lemma {:induction false} FittedLength(a: Audio, c: nat, n: nat)
    requires c < |a.samples| && n <= |a.samples[c]|
    ensures |FittedColumn(a, c, n)| == n
  {
    hide Fitted;
    if n > 0 {
      FittedLength(a, c, n - 1);
    }
  }

  /** The iXML text comes back, except that an empty one leaves what the loading object had before. */
  lemma XmlSaveLoad(a: Audio, before: seq<byte>)
    requires Savable(a)
    ensures |Saved(a)| >= 12 && XmlInside(Saved(a))
    ensures XmlAfter(Saved(a), before) == if a.iXML == [] then before else a.iXML
    ensures XmlAfter(Saved(a), before) == a.iXML <==> a.iXML != [] || before == []
  {
    hide Saved, IndexFrom, GetU32, Savable, DataSize;
    SavedFound(a);
    ChunksFound(a);
  }

  // ---- The object ----

  class AudioFile {
    /** The width of the sample type. */
    const typeBits: nat
    var samples: seq<seq<int>>
    var sampleRate: u32
    var bitDepth: int
    var iXMLChunk: seq<byte>

    constructor (typeBits: nat)
      ensures this.typeBits == typeBits && Content() == Audio([[]], 44100, 16, [])
    {
      this.typeBits := typeBits;
      samples, sampleRate, bitDepth, iXMLChunk := [[]], 44100, 16, [];
    }

    function Content(): Audio
      reads this
    {
      Audio(samples, sampleRate, bitDepth, iXMLChunk)
    }

    /** saveToWaveFile, up to writing the bytes to disk. The sample type is at least as wide as the depth. */
    method SaveToWaveFile() returns (ok: bool, fileData: seq<byte>)
      requires EqualLengths(Content()) && 0 <= bitDepth <= typeBits
      requires GoodDepth(bitDepth) ==> Savable(Content())
      ensures GoodDepth(bitDepth) ==> ok && fileData == Saved(Content())
      ensures !GoodDepth(bitDepth) ==> ok == (FrameCount(Content()) == 0)
    {
      hide *;
      ghost var a := Content();
      ContentIs();
      var channels, frames := |samples|, if |samples| > 0 then |samples[0]| else 0;
      var dataChunkSize: int := Times(frames, Unit(channels, bitDepth));
      var fileSizeInBytes: int := 4 + 16 + 8 + 8 + dataChunkSize;
      if |iXMLChunk| > 0 {
        fileSizeInBytes := fileSizeInBytes + (8 + |iXMLChunk|);
      }
      SizesAre(a, frames);
      fileData := RIFF_ID + Size32(fileSizeInBytes) + WAVE_ID;
      fileData := fileData + (FMT + Size32(16) + FmtFields(channels, sampleRate, bitDepth, Times(channels, bitDepth / 8)));
      ghost var head := fileData;
      fileData := fileData + (DATA + Size32(dataChunkSize));
      ok, fileData := AddSamples(fileData, frames);
      if !ok {
        return;
      }
      ghost var data := if GoodDepth(bitDepth) then DataBytes(a, frames) else [];
      Joins(head, DATA + Size32(dataChunkSize), data);
      AppendNone(fileData);
      if |iXMLChunk| > 0 {
        fileData := fileData + (IXML + Size32(|iXMLChunk|) + iXMLChunk);
      }
      XmlChunkIs(a);
      HeadIs(fileSizeInBytes, FmtFields(channels, sampleRate, bitDepth, Times(channels, bitDepth / 8)), dataChunkSize);
      if GoodDepth(bitDepth) {
        SavedIs(a);
        DataLength(a, frames);
        DataSizeIs(a);
      }
      if fileSizeInBytes != |fileData| - 8 || dataChunkSize != Times(Times(frames, channels), bitDepth / 8) {
        ok := false;
      }
    }

    lemma ContentIs()
      ensures var a := Content();
              && a.samples == samples && a.sampleRate == sampleRate && a.bitDepth == bitDepth && a.iXML == iXMLChunk
              && FrameCount(a) == (if |samples| > 0 then |samples[0]| else 0)
    {
    }

    /** The loops over the samples. */
    method AddSamples(fileData0: seq<byte>, frames: nat) returns (ok: bool, fileData: seq<byte>)
      requires EqualLengths(Content()) && frames == FrameCount(Content())
      ensures ok == (GoodDepth(bitDepth) || frames == 0)
      ensures ok ==> fileData == fileData0 + if GoodDepth(bitDepth) then DataBytes(Content(), frames) else []
    {
      hide *;
      ghost var a := Content();
      ContentIs();
      Channels(a);
      fileData := fileData0;
      AppendNone(fileData0);
      if GoodDepth(bitDepth) {
        NoFrames(a);
      }
      var i: nat := 0;
      while i < frames
        invariant 0 <= i <= frames && (i > 0 ==> GoodDepth(bitDepth))
        invariant fileData == fileData0 + if GoodDepth(bitDepth) then DataBytes(a, i) else []
      {
        var c: nat := 0;
        ghost var before := fileData;
        AppendNone(before);
        if GoodDepth(bitDepth) {
          NoSamples(a, i);
        }
        while c < |samples|
          invariant 0 <= c <= |samples| && (c > 0 ==> GoodDepth(bitDepth))
          invariant fileData == before + if GoodDepth(bitDepth) then FrameBytes(a, i, c) else []
        {
          Depths(bitDepth);
          if bitDepth == 8 || bitDepth == 16 || bitDepth == 24 || bitDepth == 32 {
            FrameStep(a, i, c + 1);
            Joins(before, FrameBytes(a, i, c), EncodeSample(bitDepth, samples[c][i]));
            fileData := fileData + EncodeSample(bitDepth, samples[c][i]);
          } else {
            return false, fileData;
          }
          c := c + 1;
        }
        DataStep(a, i + 1);
        Joins(fileData0, DataBytes(a, i), FrameBytes(a, i, |samples|));
        i := i + 1;
      }
      ok := true;
    }

    /** The loops that read the samples; not ok when the file ends before they do. */
    method ReadSamples(fileData: seq<byte>, start: nat, fmt: Format, frames: nat)
      returns (ok: bool, out: seq<seq<int>>)
      requires GoodDepth(fmt.bitDepth) && fmt.channels >= 1 && fmt.block == Times(fmt.channels, fmt.bitDepth / 8)
      ensures ok == (frames == 0 || start + Times(fmt.block, frames) <= |fileData|)
      ensures ok ==> out == Columns(fileData, start, fmt, frames)
    {
      hide *;
      Depths(fmt.bitDepth);
      out := seq(fmt.channels, _ => []);
      ColumnsNone(fileData, start, fmt);
      var i: nat := 0;
      while i < frames
        invariant 0 <= i <= frames && out == Columns(fileData, start, fmt, i)
        invariant i > 0 ==> start + Times(fmt.block, i) <= |fileData|
      {
        var c: nat := 0;
        RowNone(fileData, start, fmt, i);
        while c < fmt.channels
          invariant 0 <= c <= fmt.channels && out == Row(fileData, start, fmt, i, c)
          invariant c > 0 ==> start + Times(fmt.block, i) + Times(c, fmt.bitDepth / 8) <= |fileData|
        {
          IndexIs(start, fmt, i, c, frames);
          var sampleIndex: nat := start + Times(fmt.block, i) + Times(c, fmt.bitDepth / 8);
          if sampleIndex + fmt.bitDepth / 8 - 1 >= |fileData| {
            return false, out;
          }
          RowNext(fileData, start, fmt, i, c);
          out := out[c := out[c] + [DecodeSample(fmt.bitDepth, fileData, sampleIndex)]];
          c := c + 1;
        }
        RowAll(fileData, start, fmt, i);
        i := i + 1;
      }
      ok := true;
    }

    /** decodeWaveFile. A file that is refused can leave its rate and depth behind. */
    method DecodeWaveFile(fileData: seq<byte>) returns (ok: bool)
      requires FieldsInside(fileData, typeBits)
      modifies this
      ensures ok == DecodeFile(fileData, typeBits).DecodedFile?
      ensures ok ==> var r := DecodeFile(fileData, typeBits);
                     samples == r.samples && sampleRate == r.fmt.sampleRate && bitDepth == r.fmt.bitDepth
      ensures iXMLChunk == if ok then XmlAfter(fileData, old(iXMLChunk)) else old(iXMLChunk)
      ensures !Identified(fileData) ==> unchanged(this)
      ensures Identified(fileData) ==>
                var fmt := FormatAt(fileData, IndexFrom(fileData, FMT, 12));
                && sampleRate == fmt.sampleRate && bitDepth == fmt.bitDepth
                && (!Supports(fmt, typeBits) ==> samples == old(samples))
    {
      hide *;
      FieldsAre(fileData, typeBits);
      HeaderFound(fileData);
      DecodeCases(fileData, typeBits);
      var headerChunkId, format := fileData[0..4], fileData[8..12];
      var indexOfDataChunk := GetIndexOfChunk(fileData, DATA, 12);
      var indexOfFormatChunk := GetIndexOfChunk(fileData, FMT, 12);
      var indexOfXmlChunk := GetIndexOfChunk(fileData, IXML, 12);
      if indexOfDataChunk == -1 || indexOfFormatChunk == -1 || headerChunkId != RIFF_ID || format != WAVE_ID {
        return false;
      }
      var fmt := FormatAt(fileData, indexOfFormatChunk);
      sampleRate := fmt.sampleRate;
      bitDepth := fmt.bitDepth;
      if bitDepth < 0 || bitDepth > typeBits {
        return false;
      }
      SupportsIs(fmt, typeBits);
      if fmt.audioFormat != PCM && fmt.audioFormat != IEEE_FLOAT && fmt.audioFormat != FORMAT_EXTENSIBLE {
        return false;
      }
      if fmt.channels < 1 || fmt.channels > 128 {
        return false;
      }
      if fmt.byteRate != ByteRate(fmt.channels, sampleRate, bitDepth) || fmt.block != Times(fmt.channels, bitDepth / 8) {
        return false;
      }
      if bitDepth != 8 && bitDepth != 16 && bitDepth != 24 && bitDepth != 32 {
        return false;
      }
      var dataChunkSize := SizeAt(fileData, indexOfDataChunk + 4);
      var numSamples := FramesIn(dataChunkSize, fmt.channels, bitDepth);
      samples := [];
      ok, samples := ReadSamples(fileData, indexOfDataChunk + 8, fmt, numSamples);
      if ok {
        XmlCases(fileData, iXMLChunk);
      }
      if ok && indexOfXmlChunk != -1 {
        var chunkSize := GetS32(fileData, indexOfXmlChunk + 4);
        iXMLChunk := fileData[indexOfXmlChunk + 8..indexOfXmlChunk + 8 + chunkSize];
      }
    }
  }

  /** From one object into a file, and from that into another. */
  method SaveAndLoad(writer: AudioFile, reader: AudioFile) returns (ok: bool)
    requires writer != reader && Savable(writer.Content())
    requires writer.bitDepth <= writer.typeBits && writer.bitDepth <= reader.typeBits
    modifies reader
    ensures ok == (1 <= |writer.samples| <= 128)
    ensures ok ==> reader.samples == FittedSamples(writer.Content())
    ensures ok ==> reader.sampleRate == writer.sampleRate && reader.bitDepth == writer.bitDepth
    ensures ok ==> reader.iXMLChunk == if writer.iXMLChunk == [] then old(reader.iXMLChunk) else writer.iXMLChunk
  {
    hide *;
    ghost var a := writer.Content();
    writer.ContentIs();
    SavableIs(a);
    Depths(a.bitDepth);
    var saved, fileData := writer.SaveToWaveFile();
    SaveLoad(a, reader.typeBits);
    XmlSaveLoad(a, reader.iXMLChunk);
    FormatOfIs(a);
    ok := reader.DecodeWaveFile(fileData);
  }

  /** The samples when frame `i` has been read up to channel `c`. */
  function Row(src: seq<byte>, start: nat, fmt: Format, i: nat, c: nat): seq<seq<int>>
    requires GoodDepth(fmt.bitDepth)
  {
    seq(fmt.channels, k requires 0 <= k < fmt.channels => Column(src, start, fmt, k, if k < c then i + 1 else i))
  }

  lemma ColumnsNone(src: seq<byte>, start: nat, fmt: Format)
    requires GoodDepth(fmt.bitDepth)
    ensures Columns(src, start, fmt, 0) == seq(fmt.channels, _ => [])
  {
  }

  lemma RowNone(src: seq<byte>, start: nat, fmt: Format, i: nat)
    requires GoodDepth(fmt.bitDepth)
    ensures Row(src, start, fmt, i, 0) == Columns(src, start, fmt, i)
  {
    hide Column;
  }

  lemma RowAll(src: seq<byte>, start: nat, fmt: Format, i: nat)
    requires GoodDepth(fmt.bitDepth) && fmt.block == Times(fmt.channels, fmt.bitDepth / 8)
    ensures Row(src, start, fmt, i, fmt.channels) == Columns(src, start, fmt, i + 1)
    ensures Times(fmt.block, i + 1) == Times(fmt.block, i) + Times(fmt.channels, fmt.bitDepth / 8)
  {
    hide Column;
    MulSucc(i, fmt.block);
  }

  lemma RowNext(src: seq<byte>, start: nat, fmt: Format, i: nat, c: nat)
    requires GoodDepth(fmt.bitDepth) && c < fmt.channels
    requires start + Times(fmt.block, i) + Times(c, fmt.bitDepth / 8) + fmt.bitDepth / 8 <= |src|
    ensures |Row(src, start, fmt, i, c)| == fmt.channels && BytesPerSample(fmt.bitDepth) == fmt.bitDepth / 8 >= 1
    ensures var p: nat := start + Times(fmt.block, i) + Times(c, fmt.bitDepth / 8);
            Row(src, start, fmt, i, c + 1)
            == Row(src, start, fmt, i, c)[c := Row(src, start, fmt, i, c)[c] + [DecodeSample(fmt.bitDepth, src, p)]]
  {
    hide DecodeSample, Times;
    ColumnStep(src, start, fmt, c, i + 1);
    hide Column;
  }

  /** Where a sample ends, and that this is before the end of all frames. */
  lemma IndexIs(start: nat, fmt: Format, i: nat, c: nat, frames: nat)
    requires GoodDepth(fmt.bitDepth) && i < frames && c < fmt.channels
    requires fmt.block == Times(fmt.channels, fmt.bitDepth / 8)
    ensures Times(fmt.block, i) >= 0 && Times(c, fmt.bitDepth / 8) >= 0 && fmt.bitDepth / 8 >= 1
    ensures Times(c + 1, fmt.bitDepth / 8) == Times(c, fmt.bitDepth / 8) + fmt.bitDepth / 8
    ensures Times(fmt.block, i) + Times(c + 1, fmt.bitDepth / 8) <= Times(fmt.block, frames)
  {
    MulSucc(c, fmt.bitDepth / 8);
    MulMono(c + 1, fmt.channels, fmt.bitDepth / 8);
    MulSucc(i, fmt.block);
    MulMono(i + 1, frames, fmt.block);
  }

  lemma SupportsIs(fmt: Format, typeBits: nat)
    requires fmt.bitDepth >= 0
    ensures Supports(fmt, typeBits)
            <==> && 0 <= fmt.bitDepth <= typeBits
                 && (fmt.audioFormat == PCM || fmt.audioFormat == IEEE_FLOAT || fmt.audioFormat == FORMAT_EXTENSIBLE)
                 && 1 <= fmt.channels <= 128
                 && fmt.byteRate == ByteRate(fmt.channels, fmt.sampleRate, fmt.bitDepth)
                 && fmt.block == Times(fmt.channels, fmt.bitDepth / 8)
                 && (fmt.bitDepth == 8 || fmt.bitDepth == 16 || fmt.bitDepth == 24 || fmt.bitDepth == 32)
    ensures GoodDepth(fmt.bitDepth)
            <==> fmt.bitDepth == 8 || fmt.bitDepth == 16 || fmt.bitDepth == 24 || fmt.bitDepth == 32
  {
  }

  /** XmlAfter, by the cases that the method goes through. */
  lemma XmlCases(src: seq<byte>, before: seq<byte>)
    requires |src| >= 12 && XmlInside(src)
    ensures var x := IndexFrom(src, IXML, 12);
            && x >= -1
            && (x == -1 ==> XmlAfter(src, before) == before)
            && (x != -1 ==> x + 8 <= |src| && GetS32(src, x + 4) >= 0 && x + 8 + GetS32(src, x + 4) <= |src|
                            && XmlAfter(src, before) == src[x + 8..x + 8 + GetS32(src, x + 4)])
  {
    hide IndexFrom, GetS32;
  }

  lemma FieldsAre(src: seq<byte>, typeBits: nat)
    requires FieldsInside(src, typeBits)
    ensures HeaderInside(src) && |src| >= 12
    ensures DecodeFile(src, typeBits).DecodedFile? ==> XmlInside(src)
  {
    hide DecodeFile, HeaderInside, XmlInside;
    HeaderFound(src);
  }

  lemma HeaderFound(src: seq<byte>)
    requires HeaderInside(src)
    ensures |src| >= 12
    ensures var f, d := IndexFrom(src, FMT, 12), IndexFrom(src, DATA, 12);
            && f >= -1 && d >= -1
            && (Identified(src) ==> f + 24 <= |src|)
            && (Identified(src) <==> d != -1 && f != -1 && src[0..4] == RIFF_ID && src[8..12] == WAVE_ID)
  {
    hide IndexFrom, GetS32, Supports, FormatAt;
  }

  lemma SupportsGood(fmt: Format, typeBits: nat)
    ensures Supports(fmt, typeBits) ==> GoodDepth(fmt.bitDepth) && 0 <= fmt.bitDepth <= typeBits
    ensures fmt.channels >= 0 && fmt.block >= 0
  {
    hide ByteRate, Times;
  }

  /** DecodeFile, by the cases that the method goes through. */
  lemma DecodeCases(src: seq<byte>, typeBits: nat)
    requires HeaderInside(src)
    ensures |src| >= 12
    ensures var f, d := IndexFrom(src, FMT, 12), IndexFrom(src, DATA, 12);
            if !Identified(src) then DecodeFile(src, typeBits) == Unreadable
            else
              && 0 <= f && f + 24 <= |src| && 0 <= d
              && var fmt := FormatAt(src, f);
                 && fmt.channels >= 0 && fmt.block >= 0
                 && (fmt.bitDepth < 0 || fmt.bitDepth > typeBits ==> !Supports(fmt, typeBits))
                 && if !Supports(fmt, typeBits) then DecodeFile(src, typeBits) == Unreadable
                    else
                      && GoodDepth(fmt.bitDepth)
                      && var n := FramesIn(SizeAt(src, d + 4), fmt.channels, fmt.bitDepth);
                         && n >= 0
                         && DecodeFile(src, typeBits)
                            == if n > 0 && d + 8 + Times(fmt.block, n) > |src| then Unreadable
                               else DecodedFile(fmt, Columns(src, d + 8, fmt, n))
  {
    hide *;
    HeaderFound(src);
    if Identified(src) {
      SupportsGood(FormatAt(src, IndexFrom(src, FMT, 12)), typeBits);
      IdentifiedFile(src, typeBits, IndexFrom(src, FMT, 12), IndexFrom(src, DATA, 12));
    } else {
      UnidentifiedFile(src, typeBits);
    }
  }

  lemma UnidentifiedFile(src: seq<byte>, typeBits: nat)
    requires HeaderInside(src) && |src| >= 12 && !Identified(src)
    ensures DecodeFile(src, typeBits) == Unreadable
  {
    hide IndexFrom, Columns, FormatAt, Supports, GetS32, FramesIn, Times, HeaderInside, Identified, GoodDepth;
  }

  lemma IdentifiedFile(src: seq<byte>, typeBits: nat, f: nat, d: nat)
    requires HeaderInside(src) && |src| >= 12 && Identified(src) && f + 24 <= |src|
    requires f == IndexFrom(src, FMT, 12) && d == IndexFrom(src, DATA, 12)
    ensures var fmt := FormatAt(src, f);
            && (!Supports(fmt, typeBits) ==> DecodeFile(src, typeBits) == Unreadable)
            && (Supports(fmt, typeBits) && GoodDepth(fmt.bitDepth) ==>
                  var n := FramesIn(SizeAt(src, d + 4), fmt.channels, fmt.bitDepth);
                  n >= 0 && DecodeFile(src, typeBits)
                            == if n > 0 && d + 8 + Times(fmt.block, n) > |src| then Unreadable
                               else DecodedFile(fmt, Columns(src, d + 8, fmt, n)))
  {
    hide IndexFrom, Columns, FormatAt, Supports, GetS32, FramesIn, Times, HeaderInside, Identified, GoodDepth;
  }

  /** Bytes in a frame, as the sizes are computed. */
  function Unit(channels: nat, depth: nat): nat { channels * depth / 8 }

  lemma Depths(d: int)
    ensures GoodDepth(d) <==> d == 8 || d == 16 || d == 24 || d == 32
  {
  }

  lemma Channels(a: Audio)
    ensures FrameCount(a) > 0 ==> |a.samples| > 0
  {
  }

  lemma NoFrames(a: Audio)
    requires GoodDepth(a.bitDepth) && EqualLengths(a)
    ensures DataBytes(a, 0) == []
  {
  }

  lemma NoSamples(a: Audio, i: nat)
    requires GoodDepth(a.bitDepth) && EqualLengths(a) && i < FrameCount(a)
    ensures FrameBytes(a, i, 0) == []
  {
  }

  lemma SizesAre(a: Audio, frames: nat)
    requires frames == FrameCount(a) && a.bitDepth >= 0
    ensures var n, d := |a.samples|, a.bitDepth;
            && (GoodDepth(d) ==>
                  && Times(frames, Unit(n, d)) == Times(Times(frames, n), d / 8) == DataSize(a)
                  && FmtFields(n, a.sampleRate, d, Times(n, d / 8)) == FmtBody(a)
                  && FileSize(a) == 4 + 16 + 8 + 8 + DataSize(a) + if |a.iXML| > 0 then 8 + |a.iXML| else 0)
            && (frames == 0 ==> Times(frames, Unit(n, d)) == 0 == Times(Times(frames, n), d / 8))
            && Times(frames, Unit(n, d)) >= 0 && Times(n, d / 8) >= 0
  {
    hide FmtFields;
    if GoodDepth(a.bitDepth) {
      UnitIs(|a.samples|, a.bitDepth);
      MulAssoc(frames, |a.samples|, a.bitDepth / 8);
    }
  }

  lemma HeadIs(fileSize: nat, fields: seq<byte>, dataSize: nat)
    requires |fields| == 16
    ensures |RIFF_ID + Size32(fileSize) + WAVE_ID + (FMT + Size32(16) + fields)| == 36
    ensures |DATA + Size32(dataSize)| == 8
  {
  }

  lemma SavedIs(a: Audio)
    requires GoodDepth(a.bitDepth) && EqualLengths(a)
    ensures Saved(a) == RIFF_ID + Size32(FileSize(a)) + WAVE_ID + (FMT + Size32(16) + FmtBody(a))
                        + (DATA + Size32(DataSize(a)) + DataBytes(a, FrameCount(a))) + XmlChunk(a)
  {
  }
}
