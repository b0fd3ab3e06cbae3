/**
 The files that dr_wav writes and the heads that it reads, byte for byte: names, sizes and fields at their places, as
 numbers of their bytes.
 */
module WavLayout {
  import opened ByteImages
  import opened Bytes
  import opened WavMetadata
  import opened WavFormat
  import opened WavItems
  import opened WavScan

  // ---- Names ----

  /** The names of Wave64: a word in small letters and twelve bytes, but for the first. */
  lemma Guids()
    ensures GUID_RIFF == Ascii("riff") + [0x2E, 0x91, 0xCF, 0x11, 0xA5, 0xD6, 0x28, 0xDB, 0x04, 0xC1, 0x00, 0x00]
    ensures W64_TAIL == [0xF3, 0xAC, 0xD3, 0x11, 0x8C, 0xD1, 0x00, 0xC0, 0x4F, 0x8E, 0xDB, 0x8A]
    ensures GUID_WAVE == Ascii("wave") + W64_TAIL && GUID_FMT == Ascii("fmt ") + W64_TAIL
    ensures GUID_FACT == Ascii("fact") + W64_TAIL && GUID_DATA == Ascii("data") + W64_TAIL
  {
    ChunkNames();
    RiffWord();
    hide Ascii;
  }

  lemma RiffWord()
    ensures Ascii("riff") == [0x72, 0x69, 0x66, 0x66] && Ascii("wave") == [0x77, 0x61, 0x76, 0x65]
  {
  }

  // ---- Fields ----

  /** The sixteen bytes of a fmt chunk. */
  predicate FmtAt(img: seq<byte>, p: nat, fmt: Fmt) {
    && p + 16 <= |img|
    && Number(img[p..p + 2]) == fmt.formatTag && Number(img[p + 2..p + 4]) == fmt.channels
    && Number(img[p + 4..p + 8]) == fmt.sampleRate && Number(img[p + 8..p + 12]) == fmt.avgBytesPerSec
    && Number(img[p + 12..p + 14]) == fmt.blockAlign && Number(img[p + 14..p + 16]) == fmt.bitsPerSample
  }

  lemma FmtWritten(img: seq<byte>, p: nat, fmt: Fmt)
    requires Holds(img, p, FmtBytes(fmt))
    ensures FmtAt(img, p, fmt)
  {
    hide U16, U32, Number, Holds;
    var a, b, c, d, e, g := U16(fmt.formatTag), U16(fmt.channels), U32(fmt.sampleRate), U32(fmt.avgBytesPerSec),
                            U16(fmt.blockAlign), U16(fmt.bitsPerSample);
    HoldsSplit(img, p, a + b + c + d + e, g);
    HoldsSplit(img, p, a + b + c + d, e);
    HoldsSplit(img, p, a + b + c, d);
    HoldsSplit(img, p, a + b, c);
    HoldsSplit(img, p, a, b);
    Number16(img, p, fmt.formatTag);
    Number16(img, p + 2, fmt.channels);
    Number32(img, p + 4, fmt.sampleRate);
    Number32(img, p + 8, fmt.avgBytesPerSec);
    Number16(img, p + 12, fmt.blockAlign);
    Number16(img, p + 14, fmt.bitsPerSample);
  }

  lemma Number16(img: seq<byte>, p: nat, x: u16)
    requires Holds(img, p, U16(x))
    ensures p + 2 <= |img| && Number(img[p..p + 2]) == x
  {
    hide *;
    NumberOfU16(x);
    HoldsIs(img, p, U16(x));
  }

  lemma Number32(img: seq<byte>, p: nat, x: u32)
    requires Holds(img, p, U32(x))
    ensures p + 4 <= |img| && Number(img[p..p + 4]) == x
  {
    hide *;
    NumberOfU32(x);
    HoldsIs(img, p, U32(x));
  }

  lemma Number64(img: seq<byte>, p: nat, x: u64)
    requires Holds(img, p, U64(x))
    ensures p + 8 <= |img| && Number(img[p..p + 8]) == x
  {
    hide *;
    NumberOfU64(x);
    HoldsIs(img, p, U64(x));
  }

  lemma NameAt(img: seq<byte>, p: nat, id: seq<byte>)
    requires Holds(img, p, id)
    ensures p + |id| <= |img| && img[p..p + |id|] == id
  {
  }

  /** And read from the same places. */
  lemma FieldsRead(img: seq<byte>, p: nat)
    requires p + 16 <= |img|
    ensures FmtAt(img, p, BasicFmt(img, p))
    ensures var fmt := BasicFmt(img, p);
            fmt.extendedSize == 0 && fmt.validBitsPerSample == 0 && fmt.channelMask == 0
  {
    hide Number, GetU16, GetU32;
    NumbersAre(img, p);
    NumbersAre(img, p + 2);
    NumbersAre(img, p + 4);
    NumbersAre(img, p + 8);
    NumbersAre(img, p + 12);
    NumbersAre(img, p + 14);
  }

  // ---- The head of a file that is written ----

  /** Up to four gigabytes; more stand as the largest number of 32 bits. */
  function AtMost32(n: nat): nat { if n > 0xFFFF_FFFF then 0xFFFF_FFFF else n }

  /** RIFF: twelve bytes, the fmt chunk, the metadata, and the header of the data chunk. */
  predicate RiffHead(img: seq<byte>, riffSize: nat, fmt: Fmt, meta: seq<byte>, dataSize: nat) {
    && 44 + |meta| <= |img|
    && img[0..4] == Ascii("RIFF") && Number(img[4..8]) == riffSize && img[8..12] == Ascii("WAVE")
    && img[12..16] == Ascii("fmt ") && Number(img[16..20]) == 16 && FmtAt(img, 20, fmt)
    && img[36..36 + |meta|] == meta
    && img[36 + |meta|..40 + |meta|] == Ascii("data") && Number(img[40 + |meta|..44 + |meta|]) == dataSize
  }

  lemma RiffHeadHolds(img: seq<byte>, fmt: Fmt, meta: seq<byte>, a: u32, b: u32)
    requires Holds(img, 0, Head(Riff, fmt, meta, a, b))
    ensures RiffHead(img, a, fmt, meta, b)
  {
    hide *;
    FmtChunkParts(fmt);
    var middle := (WAVE_ID + FmtChunk(fmt)) + meta + DATA;
    RiffIsHead(fmt, meta, a, b);
    HoldsSplit(img, 0, RIFF_ID + U32(a) + middle, U32(b));
    HoldsSplit(img, 0, RIFF_ID + U32(a), middle);
    HoldsSplit(img, 0, RIFF_ID, U32(a));
    HoldsSplit(img, 8, (WAVE_ID + FmtChunk(fmt)) + meta, DATA);
    HoldsSplit(img, 8, WAVE_ID + FmtChunk(fmt), meta);
    HoldsSplit(img, 8, WAVE_ID, FmtChunk(fmt));
    HoldsSplit(img, 12, FMT + U32(16), FmtBytes(fmt));
    HoldsSplit(img, 12, FMT, U32(16));
    ChunkNames();
    NameAt(img, 0, RIFF_ID);
    NameAt(img, 8, WAVE_ID);
    NameAt(img, 12, FMT);
    NameAt(img, 36, meta);
    NameAt(img, 36 + |meta|, DATA);
    Number32(img, 4, a);
    Number32(img, 16, 16);
    Number32(img, 40 + |meta|, b);
    FmtWritten(img, 20, fmt);
    RiffHeadIs(img, a, fmt, meta, b);
  }

  lemma FmtChunkParts(fmt: Fmt)
    ensures FmtChunk(fmt) == FMT + U32(16) + FmtBytes(fmt)
    ensures |FmtBytes(fmt)| == 16 && |RIFF_ID| == |WAVE_ID| == |FMT| == |DATA| == 4
  {
    hide U32;
  }

  lemma RiffHeadIs(img: seq<byte>, riffSize: nat, fmt: Fmt, meta: seq<byte>, dataSize: nat)
    requires && 44 + |meta| <= |img|
             && img[0..4] == Ascii("RIFF") && Number(img[4..8]) == riffSize && img[8..12] == Ascii("WAVE")
             && img[12..16] == Ascii("fmt ") && Number(img[16..20]) == 16 && FmtAt(img, 20, fmt)
             && img[36..36 + |meta|] == meta
             && img[36 + |meta|..40 + |meta|] == Ascii("data")
             && Number(img[40 + |meta|..44 + |meta|]) == dataSize
    ensures RiffHead(img, riffSize, fmt, meta, dataSize)
  {
    hide Ascii, Number, FmtAt;
  }

  lemma RiffIsHead(fmt: Fmt, meta: seq<byte>, a: u32, b: u32)
    ensures Head(Riff, fmt, meta, a, b) == RIFF_ID + U32(a) + ((WAVE_ID + FmtChunk(fmt)) + meta + DATA) + U32(b)
  {
    assert a % 0x1_0000_0000 == a && b % 0x1_0000_0000 == b;
    hide U32, FmtChunk;
  }

  /** RF64: a RIFF size of all ones, the ds64 chunk with the sizes, and a data chunk of all ones. */
  predicate Rf64Head(img: seq<byte>, riffSize: nat, fmt: Fmt, meta: seq<byte>, dataSize: nat) {
    && 80 + |meta| <= |img|
    && img[0..4] == Ascii("RF64") && Number(img[4..8]) == 0xFFFF_FFFF && img[8..12] == Ascii("WAVE")
    && img[12..16] == Ascii("ds64") && Number(img[16..20]) == 28
    && Number(img[20..28]) == riffSize && Number(img[28..36]) == dataSize && Number(img[36..44]) == 0
    && Number(img[44..48]) == 0
    && img[48..52] == Ascii("fmt ") && Number(img[52..56]) == 16 && FmtAt(img, 56, fmt)
    && img[72..72 + |meta|] == meta
    && img[72 + |meta|..76 + |meta|] == Ascii("data") && Number(img[76 + |meta|..80 + |meta|]) == 0xFFFF_FFFF
  }

  lemma Rf64HeadHolds(img: seq<byte>, fmt: Fmt, meta: seq<byte>, a: u64, b: u64)
    requires Holds(img, 0, Head(Rf64, fmt, meta, a, b))
    ensures Rf64Head(img, a, fmt, meta, b)
  {
    hide U32, U64, FmtBytes, Holds, Ascii, Number, FmtAt;
    var start := RF64_ID + U32(0xFFFF_FFFF) + WAVE_ID + DS64_ID + U32(28);
    var end := (U64(0) + U32(0) + FmtChunk(fmt)) + meta + (DATA + U32(0xFFFF_FFFF));
    Rf64IsHead(fmt, meta, a, b);
    HoldsSplit(img, 0, start + U64(a) + U64(b), end);
    HoldsSplit(img, 0, start + U64(a), U64(b));
    HoldsSplit(img, 0, start, U64(a));
    HoldsSplit(img, 0, RF64_ID + U32(0xFFFF_FFFF) + WAVE_ID + DS64_ID, U32(28));
    HoldsSplit(img, 0, RF64_ID + U32(0xFFFF_FFFF) + WAVE_ID, DS64_ID);
    HoldsSplit(img, 0, RF64_ID + U32(0xFFFF_FFFF), WAVE_ID);
    HoldsSplit(img, 0, RF64_ID, U32(0xFFFF_FFFF));
    HoldsSplit(img, 36, (U64(0) + U32(0) + FmtChunk(fmt)) + meta, DATA + U32(0xFFFF_FFFF));
    HoldsSplit(img, 36, U64(0) + U32(0) + FmtChunk(fmt), meta);
    HoldsSplit(img, 36, U64(0) + U32(0), FmtChunk(fmt));
    HoldsSplit(img, 36, U64(0), U32(0));
    HoldsSplit(img, 48, FMT + U32(16), FmtBytes(fmt));
    HoldsSplit(img, 48, FMT, U32(16));
    HoldsSplit(img, 72 + |meta|, DATA, U32(0xFFFF_FFFF));
    Rf64Names(img, meta);
    Number32(img, 4, 0xFFFF_FFFF);
    Number32(img, 16, 28);
    Number64(img, 20, a);
    Number64(img, 28, b);
    Number64(img, 36, 0);
    Number32(img, 44, 0);
    Number32(img, 52, 16);
    Number32(img, 76 + |meta|, 0xFFFF_FFFF);
    FmtWritten(img, 56, fmt);
  }

  lemma Rf64IsHead(fmt: Fmt, meta: seq<byte>, a: u64, b: u64)
    ensures Head(Rf64, fmt, meta, a, b)
            == (RF64_ID + U32(0xFFFF_FFFF) + WAVE_ID + DS64_ID + U32(28)) + U64(a) + U64(b)
               + ((U64(0) + U32(0) + FmtChunk(fmt)) + meta + (DATA + U32(0xFFFF_FFFF)))
  {
    var start := RF64_ID + U32(0xFFFF_FFFF) + WAVE_ID + DS64_ID + U32(28);
    assert To64(a) == a && To64(b) == b;
    hide U32, U64, FmtChunk;
    assert start + U64(a) + [] == start + U64(a);
  }

  lemma Rf64Names(img: seq<byte>, meta: seq<byte>)
    requires Holds(img, 0, RF64_ID) && Holds(img, 8, WAVE_ID) && Holds(img, 12, DS64_ID) && Holds(img, 48, FMT)
    requires Holds(img, 72, meta) && Holds(img, 72 + |meta|, DATA)
    ensures 76 + |meta| <= |img|
    ensures img[0..4] == Ascii("RF64") && img[8..12] == Ascii("WAVE") && img[12..16] == Ascii("ds64")
    ensures img[48..52] == Ascii("fmt ") && img[72..72 + |meta|] == meta
    ensures img[72 + |meta|..76 + |meta|] == Ascii("data")
  {
    hide *;
    ChunkNames();
    NameAt(img, 0, RF64_ID);
    NameAt(img, 8, WAVE_ID);
    NameAt(img, 12, DS64_ID);
    NameAt(img, 48, FMT);
    NameAt(img, 72, meta);
    NameAt(img, 72 + |meta|, DATA);
  }

  /** Wave64: names of sixteen bytes, sizes of eight that count the whole chunk. */
  predicate W64Head(img: seq<byte>, riffSize: nat, fmt: Fmt, dataSize: nat) {
    && 104 <= |img|
    && img[0..16] == GUID_RIFF && Number(img[16..24]) == riffSize && img[24..40] == Ascii("wave") + W64_TAIL
    && img[40..56] == Ascii("fmt ") + W64_TAIL && Number(img[56..64]) == 40 && FmtAt(img, 64, fmt)
    && img[80..96] == Ascii("data") + W64_TAIL && Number(img[96..104]) == dataSize
  }

  lemma W64HeadHolds(img: seq<byte>, fmt: Fmt, a: u64, b: u64)
    requires Holds(img, 0, Head(W64, fmt, [], a, b))
    ensures W64Head(img, a, fmt, b)
  {
    hide U64, FmtBytes, Holds, Ascii, Number, FmtAt, GUID_RIFF, GUID_WAVE, GUID_FMT, GUID_DATA, W64_TAIL;
    var middle := GUID_WAVE + (GUID_FMT + U64(40) + FmtBytes(fmt)) + GUID_DATA;
    W64IsHead(fmt, a, b);
    HoldsSplit(img, 0, GUID_RIFF + U64(a) + middle, U64(b));
    HoldsSplit(img, 0, GUID_RIFF + U64(a), middle);
    HoldsSplit(img, 0, GUID_RIFF, U64(a));
    HoldsSplit(img, 24, GUID_WAVE + (GUID_FMT + U64(40) + FmtBytes(fmt)), GUID_DATA);
    HoldsSplit(img, 24, GUID_WAVE, GUID_FMT + U64(40) + FmtBytes(fmt));
    HoldsSplit(img, 40, GUID_FMT + U64(40), FmtBytes(fmt));
    HoldsSplit(img, 40, GUID_FMT, U64(40));
    Guids();
    NameAt(img, 0, GUID_RIFF);
    NameAt(img, 24, GUID_WAVE);
    NameAt(img, 40, GUID_FMT);
    NameAt(img, 80, GUID_DATA);
    Number64(img, 16, a);
    Number64(img, 56, 40);
    Number64(img, 96, b);
    FmtWritten(img, 64, fmt);
  }

  lemma W64IsHead(fmt: Fmt, a: u64, b: u64)
    ensures Head(W64, fmt, [], a, b)
            == GUID_RIFF + U64(a) + (GUID_WAVE + (GUID_FMT + U64(40) + FmtBytes(fmt)) + GUID_DATA) + U64(b)
  {
    assert To64(a) == a && To64(b) == b;
    hide U64, FmtBytes;
  }

  // ---- A finished file ----

  /**
   A finished file, byte for byte: its head with the sizes of the file and of the audio, the audio, and as many zeros
   as the padding has.
   */
  lemma FinishedLayout(c: Container, fmt: Fmt, meta: seq<byte>, audio: seq<byte>)
    requires Supported(c) && |audio| + |meta| < 0x7FFF_FFFF_FFFF_FF00 && (c.W64? ==> meta == [])
    ensures var img, n := Finished(c, fmt, meta, audio), |audio|;
            var at, pad := (if c.Riff? then 44 + |meta| else if c.W64? then 104 else 80 + |meta|),
                           (if c.W64? then n % 8 else n % 2);
            && |img| == at + n + pad
            && img[at..at + n] == audio && img[at + n..] == Zeros(pad)
            && (c.Riff? ==> RiffHead(img, AtMost32(|img| - 8), fmt, meta, AtMost32(n)))
            && (c.Rf64? ==> Rf64Head(img, AtMost32(|img| - 8), fmt, meta, n))
            && (c.W64? ==> W64Head(img, |img|, fmt, 24 + n))
  {
    hide *;
    var img, n := Finished(c, fmt, meta, audio), |audio|;
    var head := Head(c, fmt, meta, RiffField(c, n, |meta|), DataField(c, n));
    FinishedIs(c, fmt, meta, audio);
    HeadLength(c, fmt, meta, RiffField(c, n, |meta|), DataField(c, n));
    SizesIs(c, n, |meta|);
    HoldsAll(img);
    HoldsSplit(img, 0, head + audio, Zeros(PaddingSize(c, n)));
    HoldsSplit(img, 0, head, audio);
    NameAt(img, |head|, audio);
    NameAt(img, |head| + n, Zeros(PaddingSize(c, n)));
    if c.Riff? {
      RiffHeadHolds(img, fmt, meta, AtMost32(|img| - 8), AtMost32(n));
    } else if c.Rf64? {
      Rf64HeadHolds(img, fmt, meta, AtMost32(|img| - 8), n);
    } else {
      W64HeadHolds(img, fmt, |img|, 24 + n);
    }
  }

  lemma FinishedIs(c: Container, fmt: Fmt, meta: seq<byte>, audio: seq<byte>)
    ensures Finished(c, fmt, meta, audio)
            == Head(c, fmt, meta, RiffField(c, |audio|, |meta|), DataField(c, |audio|)) + audio
               + Zeros(PaddingSize(c, |audio|))
    ensures c.Riff? ==> c == Riff
    ensures c.Rf64? ==> c == Rf64
    ensures c.W64? ==> c == W64
    ensures Supported(c) ==> c.Riff? || c.Rf64? || c.W64?
  {
    hide Head, RiffField, DataField, PaddingSize;
  }

  lemma SizesIs(c: Container, n: nat, meta: nat)
    requires Supported(c) && n + meta < 0x7FFF_FFFF_FFFF_FF00 && (c.W64? ==> meta == 0)
    ensures var size := HeadSize(c, meta) + n + PaddingSize(c, n);
            && PaddingSize(c, n) == (if c.W64? then n % 8 else n % 2) >= 0
            && HeadSize(c, meta) == (if c.Riff? then 44 + meta else if c.W64? then 104 else 80 + meta)
            && size < 0x1_0000_0000_0000_0000
            && RiffField(c, n, meta) == (if c.W64? then size else AtMost32(size - 8))
            && DataField(c, n) == (if c.Riff? then AtMost32(n) else if c.W64? then 24 + n else n)
            && (c.Riff? || c.Rf64? ==> 0 <= AtMost32(size - 8) <= 0xFFFF_FFFF)
            && 0 <= AtMost32(n) <= 0xFFFF_FFFF
  {
  }

  // ---- A file that is not finished ----

  /** The head that initialisation leaves: the sizes of a file without audio, RIFF and RF64 without the data chunk. */
  lemma FirstHeadLayout(c: Container, fmt: Fmt, meta: seq<byte>)
    requires Supported(c) && (c.W64? ==> meta == [])
    ensures var img := Head(c, fmt, meta, InitialRiffField(c), DataField(c, 0));
            && (c.Riff? ==> RiffHead(img, 28, fmt, meta, 0))
            && (c.Rf64? ==> Rf64Head(img, 36, fmt, meta, 0))
            && (c.W64? ==> W64Head(img, 104, fmt, 24))
  {
    hide *;
    FinishedIs(c, fmt, meta, []);
    FirstSizes(c);
    var img := Head(c, fmt, meta, InitialRiffField(c), DataField(c, 0));
    HoldsAll(img);
    if c.Riff? {
      RiffHeadHolds(img, fmt, meta, 28, 0);
    } else if c.Rf64? {
      Rf64HeadHolds(img, fmt, meta, 36, 0);
    } else {
      W64HeadHolds(img, fmt, 104, 24);
    }
  }

  lemma FirstSizes(c: Container)
    requires Supported(c)
    ensures InitialRiffField(c) == if c.Riff? then 28 else if c.W64? then 104 else 36
    ensures DataField(c, 0) == if c.W64? then 24 else 0
  {
  }

  // ---- Heads that are read ----

  /** Which files are recognised, and what is known before their chunks. */
  lemma LeadIff(img: seq<byte>)
    ensures var lead := ReadLead(img);
            && (lead.Lead? && lead.container.Riff?
                <==> |img| >= 12 && img[0..4] == Ascii("RIFF") && img[8..12] == Ascii("WAVE"))
            && (lead.Lead? && lead.container.W64?
                <==> |img| >= 40 && img[0..16] == GUID_RIFF && Number(img[16..24]) >= 80
                     && img[24..40] == Ascii("wave") + W64_TAIL)
            && (lead.Lead? && lead.container.Rf64?
                <==> && |img| >= 44 && img[0..4] == Ascii("RF64") && Number(img[4..8]) == 0xFFFF_FFFF
                     && img[8..12] == Ascii("WAVE") && img[12..16] == Ascii("ds64")
                     && var size := Number(img[16..20]); size + size % 2 >= 24 && 20 + size + size % 2 <= |img|)
            && (lead.Lead? ==> Supported(lead.container))
            && (lead.Lead? ==>
                  && lead.at == (if lead.container.Riff? then 12 else if lead.container.W64? then 40
                                 else 20 + Number(img[16..20]) + Number(img[16..20]) % 2)
                  && (lead.container.Rf64? ==>
                        lead.dataSize == Number(img[28..36]) && lead.sampleCount == Number(img[36..44]))
                  && (!lead.container.Rf64? ==> lead.dataSize == 0 && lead.sampleCount == 0))
  {
    hide Number, GetU32, GetU64, Ascii, W64_TAIL, GUID_RIFF, GUID_WAVE;
    ChunkNames();
    Guids();
    FirstNamesDiffer();
    NumbersAre(img, 4);
    NumbersAre(img, 16);
    NumbersAre(img, 28);
    NumbersAre(img, 36);
    if |img| >= 16 {
      GuidInTwo(img);
    }
  }

  lemma FirstNamesDiffer()
    ensures RIFF_ID != RF64_ID && RIFF_ID != GUID_RIFF[..4] && RF64_ID != GUID_RIFF[..4]
  {
  }

  lemma GuidInTwo(img: seq<byte>)
    requires |img| >= 16
    ensures img[0..16] == GUID_RIFF <==> img[0..4] == GUID_RIFF[..4] && img[4..16] == GUID_RIFF[4..]
  {
    assert img[0..16] == img[0..4] + img[4..16] && GUID_RIFF == GUID_RIFF[..4] + GUID_RIFF[4..];
    assert img[0..16][..4] == img[0..4] && img[0..16][4..] == img[4..16];
  }

  /** A chunk header: the name, the size, and padding to an even size; in Wave64 the size counts its 24 bytes. */
  lemma HeaderRead(img: seq<byte>, p: nat, c: Container)
    requires Supported(c)
    ensures !c.W64? ==>
              ReadHeader(img, p, c)
              == if p + 8 > |img| then NoHeader
                 else Header(img[p..p + 4], Number(img[p + 4..p + 8]), Number(img[p + 4..p + 8]) % 2, p + 8)
    ensures c.W64? && p + 24 > |img| ==> ReadHeader(img, p, c) == NoHeader
    ensures c.W64? && p + 24 <= |img| && Number(img[p + 16..p + 24]) >= 24 ==>
              var size := Number(img[p + 16..p + 24]) - 24;
              ReadHeader(img, p, c) == Header(img[p..p + 16], size, size % 8, p + 24)
  {
    hide Number, GetU32, GetU64;
    NumbersAre(img, p + 4);
    NumbersAre(img, p + 16);
  }

  /** Which chunk is which. */
  lemma ChunkIds(c: Container)
    requires Supported(c)
    ensures FmtId(c) == (if c.W64? then Ascii("fmt ") + W64_TAIL else Ascii("fmt "))
    ensures DataId(c) == (if c.W64? then Ascii("data") + W64_TAIL else Ascii("data"))
    ensures FactId(c) == (if c.W64? then Ascii("fact") + W64_TAIL else Ascii("fact"))
    ensures FactBytes(c) == if c.Riff? then 4 else if c.W64? then 8 else 0
  {
    hide Ascii, W64_TAIL;
    ChunkNames();
    Guids();
  }

  /** A fact chunk counts in Wave64, where it is a number of eight bytes. */
  lemma FactRead(img: seq<byte>, c: Container, h: Header, s: Scan)
    requires Supported(c) && h.Header? && h.body <= |img|
    ensures var t := FactTurn(img, c, h, s);
            && (t.Fails? <==> h.body + (if c.Riff? then 4 else if c.W64? then 8 else 0) > |img|)
            && (!t.Fails? ==>
                  t.scan.factCount == if c.Riff? then 0 else if c.W64? then Number(img[h.body..h.body + 8]) else s.factCount)
  {
    hide Number, GetU64, To64;
    NumbersAre(img, h.body);
  }

  /**
   A fmt chunk of at most sixteen bytes is those sixteen. A longer one gives the size of its extension; in an extensible
   format that has to be 22 bytes, or none: valid bits, channel mask, and the sub-format.
   */
  lemma ExtensionRead(img: seq<byte>, p: nat, size: nat)
    requires p + 16 <= |img| && size < 0x8000_0000
    ensures size <= 16 ==> ReadFmt(img, p, size) == FmtRead(BasicFmt(img, p), p + 16, 0)
    ensures size > 16 && p + 18 > |img| ==> ReadFmt(img, p, size).BadFmt?
    ensures size > 16 && p + 18 <= |img| ==>
              var ext, r := Number(img[p + 16..p + 18]), ReadFmt(img, p, size);
              var extensible := Number(img[p..p + 2]) == 0xFFFE && ext > 0;
              && (r.FmtRead? <==> (extensible ==> ext == 22) && p + 18 + ext <= |img| && p + size <= |img|)
              && (r.FmtRead? ==>
                    && r.after == p + size && r.slip == 0
                    && FmtAt(img, p, r.fmt) && r.fmt.extendedSize == ext
                    && (extensible ==>
                          && r.fmt.validBitsPerSample == Number(img[p + 18..p + 20])
                          && r.fmt.channelMask == Number(img[p + 20..p + 24]) && r.fmt.subFormat == img[p + 24..p + 40])
                    && (!extensible ==> r.fmt.validBitsPerSample == 0 && r.fmt.channelMask == 0))
  {
    hide Number, GetU16, GetU32, FmtAt, PastFmt, BasicFmt;
    NumbersAre(img, p);
    NumbersAre(img, p + 16);
    FieldsRead(img, p);
    BasicTag(img, p);
    if size > 16 && p + 18 <= |img| {
      var fmt := BasicFmt(img, p).(extendedSize := GetU16(img, p + 16));
      var ext: nat := fmt.extendedSize;
      FmtAtKeeps(img, p, BasicFmt(img, p), fmt);
      if p + 18 + ext <= |img| {
        PastIs(img, p + 18 + ext, size - 18 - ext, fmt);
        if ext == 22 {
          var extended := fmt.(validBitsPerSample := GetU16(img, p + 18), channelMask := GetU32(img, p + 20),
                               subFormat := img[p + 24..p + 40]);
          PastIs(img, p + 18 + ext, size - 18 - ext, extended);
          FmtAtKeeps(img, p, BasicFmt(img, p), extended);
          NumbersAre(img, p + 18);
          NumbersAre(img, p + 20);
        }
      }
    }
  }

  lemma BasicTag(img: seq<byte>, p: nat)
    requires p + 16 <= |img|
    ensures BasicFmt(img, p).formatTag == GetU16(img, p) && FORMAT_EXTENSIBLE == 0xFFFE
  {
    hide GetU16, GetU32;
  }

  lemma FmtAtKeeps(img: seq<byte>, p: nat, a: Fmt, b: Fmt)
    requires FmtAt(img, p, a) && b == a.(extendedSize := b.extendedSize, validBitsPerSample := b.validBitsPerSample,
                                         channelMask := b.channelMask, subFormat := b.subFormat)
    ensures FmtAt(img, p, b)
  {
    hide Number;
  }

  lemma PastIs(img: seq<byte>, p: nat, left: int, fmt: Fmt)
    requires p <= |img| && -0x1_0000 - 18 <= left < 0x8000_0000
    ensures PastFmt(img, p, left, fmt)
            == if 0 <= p + left <= |img| then FmtRead(fmt, p + left, 0) else BadFmt
  {
  }

  // ---- Cursors that are not where the stream is ----

  /** The rest of a fmt chunk that is 2^31 bytes or more: the seek goes back by what is missing to 2^32, the cursor on. */
  lemma LongSeek(img: seq<byte>, p: nat, left: int, fmt: Fmt)
    requires p <= |img| && 0x8000_0000 <= left < 0x1_0000_0000
    ensures PastFmt(img, p, left, fmt)
            == if 0 <= p + left - 0x1_0000_0000 <= |img| then FmtRead(fmt, p + left - 0x1_0000_0000, 0x1_0000_0000)
               else BadFmt
  {
  }

  /** From then on the cursor is ahead; the data are looked for where it is, and metadata chunks end where it says. */
  lemma AheadTurns(img: seq<byte>, c: Container, h: Header, s: Scan)
    requires h.Header? && h.body <= |img| && h.body + s.drift < 0x1_0000_0000_0000_0000
    requires h.size + h.padding < 0x1_0000_0000_0000_0000
    ensures var t, to := DataTurn(img, c, true, h, s), h.body + h.size + h.padding;
            && (t.GoesOn? <==> to <= |img|) && (t.GoesOn? ==> t.at == to) && !t.Fails?
            && t.scan.foundData && t.scan.dataPos == h.body + s.drift && t.scan.drift == s.drift
            && t.scan.dataSize == if c.Rf64? then s.dataSize else h.size
    ensures |h.id| == 4 ==>
              var t, to := OtherTurn(img, true, h, s), h.body + s.drift + h.size + h.padding;
              && (t.GoesOn? <==> to <= |img|) && (t.GoesOn? ==> t.at == to && t.scan.drift == 0) && !t.Fails?
              && t.scan.metadataCount >= s.metadataCount
    ensures var t, r := FmtTurn(img, h, s), ReadFmt(img, h.body, h.size);
            && (t.Fails? <==> r.BadFmt?)
            && (t.GoesOn? ==> t.at == r.after + h.padding && t.scan.fmt == r.fmt && t.scan.foundFmt)
            && (!t.Fails? && s.drift + r.slip < 0x1_0000_0000_0000_0000 ==> t.scan.drift == s.drift + r.slip)
  {
    hide ReadFmt, WavMetadataParser.CountChunk;
  }

  // ---- The data size ----

  /**
   The data size of an opened file is what the data chunk says, but for the largest number of 32 bits in RIFF: that
   stands for all that follows, or for nothing after a second pass, which ends at the end of the file.
   */
  lemma DataSizeOf(img: seq<byte>, at: nat, c: Container, s: Scan)
    requires AfterScan(img, at, c, Done(s)).Opened?
    ensures s.dataPos <= |img|
    ensures var wav := AfterScan(img, at, c, Done(s)).wav;
            && wav.dataPos == s.dataPos && wav.fmt == s.fmt && wav.metadataCount == s.metadataCount
            && wav.dataSize == if c.Riff? && s.dataSize == 0xFFFF_FFFF
                               then (if s.metadataCount > 0 then 0 else |img| - s.dataPos) else s.dataSize
  {
    hide FillFrom, Playable, InRange, FrameCount;
  }
}
