/**
 What AudioFile's WAV files say, in numbers and at fixed places: which formats it loads, what the header of a saved
 file holds, and where and how each sample is stored.
 */
module AudioFileFields {
  import opened Arith
  import opened ByteImages
  import opened Bytes
  import opened PcmFrames
  import F = WavFormat
  import opened WavMetadata
  import opened AudioFileWav

  // ---- Where chunks are looked for ----

  /** The search goes on behind a chunk that lies in the file, and ends at one that does not, or at the end. */
  lemma SearchStep(src: seq<byte>, id: Id, i: nat)
    ensures i + 4 >= |src| ==> IndexFrom(src, id, i) == -1
    ensures i + 4 < |src| && src[i..i + 4] == id ==> IndexFrom(src, id, i) == i
    ensures i + 4 < |src| <= i + 8 && src[i..i + 4] != id ==> IndexFrom(src, id, i) == -1
    ensures i + 8 < |src| && src[i..i + 4] != id ==>
              var size := Number(src[i + 4..i + 8]);
              IndexFrom(src, id, i)
              == if size < 0x8000_0000 && i + 8 + size <= |src| then IndexFrom(src, id, i + 8 + size) else -1
  {
    hide Number, GetU32;
    NumbersAre(src, i + 4);
  }

  // ---- Which formats are loaded ----

  predicate WholeBytesDepth(d: int) { d in {8, 16, 24, 32} }

  /** All that is asked of a format besides its byte rate. */
  predicate Plausible(fmt: Format, typeBits: nat) {
    && fmt.audioFormat in {1, 3, 0xFFFE} && 1 <= fmt.channels <= 128
    && WholeBytesDepth(fmt.bitDepth) && fmt.bitDepth <= typeBits
    && 8 * fmt.block == fmt.channels * fmt.bitDepth
  }

  /**
   A format is supported if and only if it is plausible and its byte rate is an eighth of the bits a second that
   32 bits can hold.
   */
  lemma SupportsIff(fmt: Format, typeBits: nat)
    requires fmt.bitDepth >= 0
    ensures Supports(fmt, typeBits)
            <==> Plausible(fmt, typeBits) && fmt.byteRate == fmt.channels * fmt.sampleRate * fmt.bitDepth % 0x1_0000_0000 / 8
  {
    hide *;
    SupportsIs(fmt, typeBits);
    PlausibleIs(fmt, typeBits);
    TagsAre();
    RateIs(fmt.channels, fmt.sampleRate, fmt.bitDepth);
    if fmt.bitDepth == 8 || fmt.bitDepth == 16 || fmt.bitDepth == 24 || fmt.bitDepth == 32 {
      BlockIs(fmt);
    }
  }

  lemma TagsAre()
    ensures PCM == 1 && IEEE_FLOAT == 3 && F.FORMAT_EXTENSIBLE == 0xFFFE
  {
  }

  lemma PlausibleIs(fmt: Format, typeBits: nat)
    ensures Plausible(fmt, typeBits)
            <==> && (fmt.audioFormat == 1 || fmt.audioFormat == 3 || fmt.audioFormat == 0xFFFE)
                 && 1 <= fmt.channels <= 128
                 && (fmt.bitDepth == 8 || fmt.bitDepth == 16 || fmt.bitDepth == 24 || fmt.bitDepth == 32)
                 && fmt.bitDepth <= typeBits && 8 * fmt.block == fmt.channels * fmt.bitDepth
  {
  }

  lemma BlockIs(fmt: Format)
    requires fmt.bitDepth == 8 || fmt.bitDepth == 16 || fmt.bitDepth == 24 || fmt.bitDepth == 32
    ensures fmt.block == Times(fmt.channels, fmt.bitDepth / 8) <==> 8 * fmt.block == fmt.channels * fmt.bitDepth
  {
    var k := fmt.bitDepth / 8;
    assert fmt.bitDepth == 8 * k;
    MulTwo(fmt.channels, 4 * k);
    MulTwo(fmt.channels, 2 * k);
    MulTwo(fmt.channels, k);
  }

  /** Where the product wraps does not matter. */
  lemma RateIs(channels: nat, rate: u32, depth: nat)
    ensures ByteRate(channels, rate, depth) == channels * rate * depth % 0x1_0000_0000 / 8
  {
    hide F.To32;
    F.WrapFactor(Times(channels, rate), depth);
    WrapIs(channels * rate * depth);
  }

  lemma WrapIs(x: int)
    requires x >= 0
    ensures F.To32(x) == x % 0x1_0000_0000
  {
  }

  /** So when 32 bits hold the product, the byte rate must be the rate times the block. */
  lemma SupportsRateTimesBlock(fmt: Format, typeBits: nat)
    requires Plausible(fmt, typeBits) && fmt.channels * fmt.sampleRate * fmt.bitDepth < 0x1_0000_0000
    ensures Supports(fmt, typeBits) <==> fmt.byteRate == fmt.sampleRate * fmt.block
  {
    hide *;
    PlausibleIs(fmt, typeBits);
    SupportsIff(fmt, typeBits);
    RateOfBlock(fmt.channels, fmt.sampleRate, fmt.bitDepth, fmt.block);
  }

  lemma RateOfBlock(c: nat, r: nat, d: nat, block: nat)
    requires 8 * block == c * d
    ensures c * r * d == 8 * (r * block) >= 0
  {
    MulAssoc(c, r, d);
    MulAssoc(r, c, d);
    Swapped(c, r);
    assert c * r * d == r * (c * d);
    MulAssoc(8, r, block);
    MulAssoc(r, 8, block);
    Swapped(r, 8);
  }

  lemma Swapped(a: int, b: int)
    ensures a * b == b * a
  {
  }

  /** The format fields of a file, by their bytes. */
  lemma FieldsOfFile(src: seq<byte>, f: nat)
    requires f + 24 <= |src|
    ensures var fmt := FormatAt(src, f);
            && fmt.audioFormat == Number(src[f + 8..f + 10]) && fmt.channels == Number(src[f + 10..f + 12])
            && fmt.sampleRate == Number(src[f + 12..f + 16]) && fmt.byteRate == Number(src[f + 16..f + 20])
            && fmt.block == Number(src[f + 20..f + 22]) && fmt.bitDepth == SignedOf(src[f + 22], src[f + 23])
  {
    hide Number, SignedOf, GetU16, GetU32, GetS16;
    NumbersAre(src, f + 8);
    NumbersAre(src, f + 10);
    NumbersAre(src, f + 12);
    NumbersAre(src, f + 16);
    NumbersAre(src, f + 20);
    GetS16Is(src, f + 22);
  }

  /**
   When a file is loaded: its chunks are found, its format is plausible with the byte rate that goes with it, and the
   file has all the whole frames that the data chunk announces.
   */
  lemma LoadedIff(src: seq<byte>, typeBits: nat, f: int, d: int, n: nat)
    requires HeaderInside(src) && f == IndexFrom(src, FMT, 12) && d == IndexFrom(src, DATA, 12)
    requires f != -1 && d != -1 && Identified(src) && f + 24 <= |src|
    requires var fmt := FormatAt(src, f);
             GoodDepth(fmt.bitDepth) ==> n == FramesIn(SizeAt(src, d + 4), fmt.channels, fmt.bitDepth)
    ensures var fmt := FormatAt(src, f);
            DecodeFile(src, typeBits).DecodedFile?
            <==> && fmt.bitDepth >= 0 && Plausible(fmt, typeBits)
                 && fmt.byteRate == fmt.channels * fmt.sampleRate * fmt.bitDepth % 0x1_0000_0000 / 8
                 && (n == 0 || d + 8 + Times(fmt.block, n) <= |src|)
  {
    hide *;
    var fmt := FormatAt(src, f);
    LoadedWhen(src, typeBits);
    PlausibleIs(fmt, typeBits);
    DepthIs(fmt.bitDepth);
    if fmt.bitDepth >= 0 {
      SupportsIff(fmt, typeBits);
    }
  }

  lemma LoadedWhen(src: seq<byte>, typeBits: nat)
    requires HeaderInside(src) && Identified(src)
    ensures var fmt, d := FormatAt(src, IndexFrom(src, FMT, 12)), IndexFrom(src, DATA, 12);
            && (Supports(fmt, typeBits) ==> GoodDepth(fmt.bitDepth) && fmt.bitDepth >= 0)
            && (DecodeFile(src, typeBits).DecodedFile?
                <==> Supports(fmt, typeBits)
                     && var n := FramesIn(SizeAt(src, d + 4), fmt.channels, fmt.bitDepth);
                        n == 0 || d + 8 + Times(fmt.block, n) <= |src|)
  {
    hide *;
    HeaderFound(src);
    DecodeCases(src, typeBits);
    SupportsGood(FormatAt(src, IndexFrom(src, FMT, 12)), typeBits);
  }

  /** The whole frames of a data chunk, by the bytes of a frame. */
  lemma FramesOfChunk(size: int, channels: nat, depth: int)
    requires GoodDepth(depth) && channels > 0
    ensures size <= 0 ==> FramesIn(size, channels, depth) == 0
    ensures size > 0 ==>
              var n, block := FramesIn(size, channels, depth), channels * (depth / 8);
              block > 0 && n * block <= size < (n + 1) * block
  {
    UnitIs(channels, depth);
    hide GoodDepth;
    var block := channels * (depth / 8);
    DepthIs(depth);
    MulMono(1, channels, depth / 8);
    if size > 0 {
      DivModUnique(size / block, block, size % block);
      MulSucc(size / block, block);
    }
  }

  // ---- The header of a saved file ----

  /**
   The forty-four bytes: RIFF, the length of the rest, WAVE; "fmt ", 16, PCM, channels, rate, bytes a second, bytes a
   frame, depth; "data" and its length. The bytes of a frame are the channels times the bytes of a sample, in 16 bits.
   */
  lemma SavedHeader(a: Audio)
    requires Savable(a)
    ensures var img, ch, n := Saved(a), |a.samples|, FrameCount(a);
            && |img| == 44 + n * (ch * (a.bitDepth / 8)) + (if a.iXML == [] then 0 else 8 + |a.iXML|)
            && img[0..4] == [0x52, 0x49, 0x46, 0x46] && Number(img[4..8]) == |img| - 8
            && img[8..16] == [0x57, 0x41, 0x56, 0x45, 0x66, 0x6D, 0x74, 0x20] && Number(img[16..20]) == 16
            && Number(img[20..22]) == 1 && Number(img[22..24]) == ch && Number(img[24..28]) == a.sampleRate
            && Number(img[28..32]) == ch * a.sampleRate * a.bitDepth % 0x1_0000_0000 / 8
            && Number(img[32..34]) == ch * (a.bitDepth / 8) % 0x1_0000
            && Number(img[34..36]) == a.bitDepth
            && img[36..40] == [0x64, 0x61, 0x74, 0x61] && Number(img[40..44]) == n * (ch * (a.bitDepth / 8))
  {
    hide *;
    SavableIs(a);
    SizesOf(a);
    HeaderPlaces(a);
    RateIs(|a.samples|, a.sampleRate, a.bitDepth);
    BlockWraps(a);
  }

  lemma SizesOf(a: Audio)
    requires Savable(a)
    ensures |Saved(a)| == FileSize(a) + 8
    ensures DataSize(a) == FrameCount(a) * (|a.samples| * (a.bitDepth / 8)) >= 0
    ensures FileSize(a) + 8 == 44 + DataSize(a) + (if a.iXML == [] then 0 else 8 + |a.iXML|)
    ensures 0 <= a.bitDepth < 0x1_0000
  {
    SavedFields(a);
    hide Saved, Holds, FmtBody, DataBytes, Size32;
  }

  lemma BlockWraps(a: Audio)
    requires GoodDepth(a.bitDepth)
    ensures F.To16(BlockSize(a)) == |a.samples| * (a.bitDepth / 8) % 0x1_0000
  {
  }

  lemma HeaderPlaces(a: Audio)
    requires Savable(a)
    ensures var img := Saved(a);
            && |img| >= 44 && img[0..4] == [0x52, 0x49, 0x46, 0x46] && Number(img[4..8]) == FileSize(a)
            && img[8..16] == [0x57, 0x41, 0x56, 0x45, 0x66, 0x6D, 0x74, 0x20] && Number(img[16..20]) == 16
            && Number(img[20..22]) == 1 && Number(img[22..24]) == |a.samples| && Number(img[24..28]) == a.sampleRate
            && Number(img[28..32]) == ByteRate(|a.samples|, a.sampleRate, a.bitDepth)
            && Number(img[32..34]) == F.To16(BlockSize(a)) && Number(img[34..36]) == a.bitDepth
            && img[36..40] == [0x64, 0x61, 0x74, 0x61] && Number(img[40..44]) == DataSize(a)
  {
    hide *;
    SavableIs(a);
    var img := Saved(a);
    SizesOf(a);
    SavedFields(a);
    FormatBack(a, img, 12);
    FieldsOfFile(img, 12);
    FormatIs(a);
    Depth16(img, a.bitDepth);
    IdsOf(a);
    HoldsIs(img, 0, F.RIFF_ID);
    HoldsIs(img, 8, F.WAVE_ID);
    OtherPlaces(a);
    Number32(img, 4, FileSize(a));
    Number32(img, 16, 16);
    Number32(img, 40, DataSize(a));
    WavePlace(img);
  }

  lemma FormatIs(a: Audio)
    requires GoodDepth(a.bitDepth)
    ensures var fmt := Format(PCM, |a.samples|, a.sampleRate, ByteRate(|a.samples|, a.sampleRate, a.bitDepth),
                              F.To16(BlockSize(a)), a.bitDepth);
            && fmt.audioFormat == 1 && fmt.channels == |a.samples| && fmt.sampleRate == a.sampleRate
            && fmt.byteRate == ByteRate(|a.samples|, a.sampleRate, a.bitDepth) && fmt.block == F.To16(BlockSize(a))
            && fmt.bitDepth == a.bitDepth && 0 <= a.bitDepth <= 32
  {
    hide ByteRate, F.To16, BlockSize;
  }

  lemma Depth16(img: seq<byte>, d: int)
    requires |img| >= 36 && 0 <= d < 0x8000 && SignedOf(img[34], img[35]) == d
    ensures Number(img[34..36]) == d
  {
    NumberOfTwo(img[34..36]);
  }

  lemma IdsOf(a: Audio)
    ensures F.RIFF_ID == [0x52, 0x49, 0x46, 0x46] && F.WAVE_ID == [0x57, 0x41, 0x56, 0x45]
    ensures FMT == [0x66, 0x6D, 0x74, 0x20] && DATA == [0x64, 0x61, 0x74, 0x61]
  {
  }

  lemma OtherPlaces(a: Audio)
    requires Savable(a)
    ensures var img := Saved(a);
            && |img| >= 44 && Holds(img, 4, Size32(FileSize(a))) && Holds(img, 12, FMT) && Holds(img, 16, Size32(16))
            && Holds(img, 36, DATA) && Holds(img, 40, Size32(DataSize(a)))
            && img[12..16] == FMT && img[36..40] == DATA
  {
    hide *;
    SavableIs(a);
    SizesOf(a);
    FmtBodyIs(a);
    FourEach(a);
    var img := Saved(a);
    SavedIs(a);
    HoldsAll(img);
    var lead := F.RIFF_ID + Size32(FileSize(a)) + F.WAVE_ID;
    var fmt, data := FMT + Size32(16) + FmtBody(a), DATA + Size32(DataSize(a)) + DataBytes(a, FrameCount(a));
    HoldsSplit(img, 0, lead + fmt + data, XmlChunk(a));
    HoldsSplit(img, 0, lead + fmt, data);
    HoldsSplit(img, 0, lead, fmt);
    HoldsSplit(img, 0, F.RIFF_ID + Size32(FileSize(a)), F.WAVE_ID);
    HoldsSplit(img, 0, F.RIFF_ID, Size32(FileSize(a)));
    HoldsSplit(img, 12, FMT + Size32(16), FmtBody(a));
    HoldsSplit(img, 12, FMT, Size32(16));
    HoldsSplit(img, 36, DATA + Size32(DataSize(a)), DataBytes(a, FrameCount(a)));
    HoldsSplit(img, 36, DATA, Size32(DataSize(a)));
    HoldsIs(img, 12, FMT);
    HoldsIs(img, 36, DATA);
  }

  lemma FourEach(a: Audio)
    ensures |F.RIFF_ID| == |F.WAVE_ID| == |FMT| == |DATA| == 4
  {
  }

  lemma Number32(img: seq<byte>, p: nat, n: nat)
    requires Holds(img, p, Size32(n)) && n < 0x1_0000_0000
    ensures p + 4 <= |img| && Number(img[p..p + 4]) == n
  {
    NumberOfU32(n);
    hide Number, U32;
  }

  lemma WavePlace(img: seq<byte>)
    requires |img| >= 44 && img[8..12] == [0x57, 0x41, 0x56, 0x45] && img[12..16] == [0x66, 0x6D, 0x74, 0x20]
    ensures img[8..16] == [0x57, 0x41, 0x56, 0x45, 0x66, 0x6D, 0x74, 0x20]
  {
    assert img[8..16] == img[8..12] + img[12..16];
  }

  /** And the text behind the samples: "iXML", its length, and its bytes. */
  lemma SavedXml(a: Audio)
    requires Savable(a) && a.iXML != []
    ensures var img, at := Saved(a), 44 + DataSize(a);
            && |img| == at + 8 + |a.iXML| && img[at..at + 4] == [0x69, 0x58, 0x4D, 0x4C]
            && Number(img[at + 4..at + 8]) == |a.iXML| && img[at + 8..] == a.iXML
  {
    hide *;
    SavableIs(a);
    SizesOf(a);
    SavedFields(a);
    SavedIs(a);
    XmlChunkIs(a);
    var img, at := Saved(a), 44 + DataSize(a);
    var head := F.RIFF_ID + Size32(AudioFileWav.FileSize(a)) + F.WAVE_ID + (FMT + Size32(16) + FmtBody(a))
                + (DATA + Size32(DataSize(a)) + DataBytes(a, FrameCount(a)));
    HoldsAll(img);
    HoldsSplit(img, 0, head, XmlChunk(a));
    HoldsSplit(img, at, IXML + Size32(|a.iXML|), a.iXML);
    HoldsSplit(img, at, IXML, Size32(|a.iXML|));
    HoldsIs(img, at, IXML);
    HoldsIs(img, at + 8, a.iXML);
    XmlName();
    Number32(img, at + 4, |a.iXML|);
  }

  lemma XmlName()
    ensures IXML == [0x69, 0x58, 0x4D, 0x4C]
  {
  }

  // ---- Samples ----

  /** What is kept of a sample: it, or the nearest number of the depth. */
  lemma KeptOf(d: int, x: int)
    requires GoodDepth(d)
    ensures d == 8 ==> Fitted(d, x) == if x < -128 then -128 else if x > 127 then 127 else x
    ensures d == 16 ==> Fitted(d, x) == if x < -32768 then -32768 else if x > 32767 then 32767 else x
    ensures d == 24 ==> Fitted(d, x) == if x < -8388608 then -8388608 else if x > 8388607 then 8388607 else x
    ensures d == 32 ==>
              Fitted(d, x) == if x < -2147483648 then -2147483648 else if x > 2147483647 then 2147483647 else x
  {
  }

  /** Eight bits count from 0, with silence at 128; more are two's complement, the low byte first. */
  lemma SampleStored(d: int, x: int)
    requires GoodDepth(d)
    ensures |EncodeSample(d, x)| == d / 8
    ensures Number(EncodeSample(d, x))
            == if d == 8 then Fitted(d, x) + 128
               else if Fitted(d, x) >= 0 then Fitted(d, x)
               else Fitted(d, x) + (if d == 16 then 0x1_0000 else if d == 24 then 0x100_0000 else 0x1_0000_0000)
  {
    hide *;
    KeptOf(d, x);
    DepthIs(d);
    EncodeIs(d, x);
    var y := Fitted(d, x);
    if d == 8 {
      OneByte(y + 128);
    } else if d == 16 {
      Wrapped(y, 0x1_0000);
      NumberOfU16(y % 0x1_0000);
    } else if d == 24 {
      Wrapped(y, 0x100_0000);
      ThreeBytes(y % 0x100_0000);
    } else {
      Wrapped(y, 0x1_0000_0000);
      NumberOfU32(y % 0x1_0000_0000);
    }
  }

  lemma DepthIs(d: int)
    ensures GoodDepth(d) <==> d == 8 || d == 16 || d == 24 || d == 32
    ensures GoodDepth(d) ==> BytesPerSample(d) == d / 8
  {
  }

  lemma EncodeIs(d: int, x: int)
    requires GoodDepth(d)
    ensures var y := Fitted(d, x);
            && (d == 8 ==> -128 <= y <= 127 && EncodeSample(d, x) == [y + 128])
            && (d == 16 ==> EncodeSample(d, x) == U16(y % 0x1_0000))
            && (d == 24 ==> var u := y % 0x100_0000; EncodeSample(d, x) == [u % 0x100, u / 0x100 % 0x100, u / 0x1_0000])
            && (d == 32 ==> EncodeSample(d, x) == U32(y % 0x1_0000_0000))
  {
    hide U16, U32;
  }

  lemma Wrapped(y: int, m: int)
    requires m in {0x1_0000, 0x100_0000, 0x1_0000_0000} && -m / 2 <= y < m
    ensures y % m == if y >= 0 then y else y + m
  {
  }

  lemma OneByte(x: byte)
    ensures Number([x]) == x
  {
    assert [x][1..] == [];
  }

  lemma ThreeBytes(u: nat)
    requires u < 0x100_0000
    ensures u / 0x1_0000 < 0x100 && Number([u % 0x100, u / 0x100 % 0x100, u / 0x1_0000]) == u
  {
    var b: seq<byte> := [u % 0x100, u / 0x100 % 0x100, u / 0x1_0000];
    assert b[1..] == [u / 0x100 % 0x100, u / 0x1_0000];
    NumberOfTwo(b[1..]);
  }

  /** Sample `i` of channel `c` of a saved file: frame after frame, the channels of a frame side by side. */
  lemma SampleAt(a: Audio, i: nat, c: nat)
    requires Savable(a) && i < FrameCount(a) && c < |a.samples|
    ensures GoodDepth(a.bitDepth) && EqualLengths(a) && i < |a.samples[c]|
    ensures Holds(Saved(a), 44 + Times(Times(i, |a.samples|) + c, a.bitDepth / 8), EncodeSample(a.bitDepth, a.samples[c][i]))
  {
    hide *;
    SavableIs(a);
    SavedFields(a);
    FrameInData(a, Saved(a), 44, i, FrameCount(a));
    FrameStep(a, i, |a.samples|);
    SampleInFrame(a, Saved(a), 44 + Times(i, BlockSize(a)), i, c, |a.samples|);
    PlaceIs(a, i, c);
  }

  lemma PlaceIs(a: Audio, i: nat, c: nat)
    requires GoodDepth(a.bitDepth)
    ensures Times(i, BlockSize(a)) + Times(c, BytesPerSample(a.bitDepth)) == Times(Times(i, |a.samples|) + c, a.bitDepth / 8)
    ensures Times(i, BlockSize(a)) >= 0
  {
    MulAssoc(i, |a.samples|, a.bitDepth / 8);
    MulSplit(i * |a.samples|, c, a.bitDepth / 8);
  }
}
