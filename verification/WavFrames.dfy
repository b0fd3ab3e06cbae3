/**
 The number of PCM frames that an opened file reports, and which formats open, in numbers: from the channels,
 the bits per sample and the size of the data, whatever the functions in between are called.
 */
module WavFrames {
  import A = Arith
  import opened Bytes
  import P = PcmFrames
  import opened Walks
  import opened WavFormat
  import opened WavMetadataParser
  import opened WavScan

  /** So many whole frames of that many bits are in so many bytes. */
  predicate HoldsFrames(count: nat, bits: nat, size: nat) {
    count * bits <= 8 * size < (count + 1) * bits
  }

  /** Only one number is the number of whole frames. */
  lemma OnceCounted(m: nat, n: nat, bits: nat, size: nat)
    requires HoldsFrames(m, bits, size) && HoldsFrames(n, bits, size)
    ensures m == n
  {
    if m < n {
      A.MulMono(m + 1, n, bits);
    } else if n < m {
      A.MulMono(n + 1, m, bits);
    }
  }

  lemma ExactFrames(n: nat, bits: nat, size: nat)
    requires 8 * size == n * bits && bits > 0
    ensures HoldsFrames(n, bits, size)
  {
    A.MulSucc(n, bits);
  }

  lemma QuotientCounts(size: nat, bytes: nat)
    requires bytes > 0
    ensures HoldsFrames(P.Quotient(size, bytes), 8 * bytes, size)
  {
    var n := size / bytes;
    assert size == n * bytes + size % bytes;
    A.MulTwo(n, 4 * bytes);
    A.MulTwo(n, 2 * bytes);
    A.MulTwo(n, bytes);
    A.MulSucc(n, 8 * bytes);
  }

  /** ADPCM: tag 2, or 0x11 as dr_wav knows it, in the fmt chunk or the sub-format of an extensible one. */
  predicate Compressed(fmt: Fmt) {
    var tag := if fmt.formatTag == 0xFFFE && |fmt.subFormat| >= 2 then fmt.subFormat[0] + 256 * fmt.subFormat[1]
               else fmt.formatTag;
    tag == 2 || tag == 0x11
  }

  lemma CompressedIs(fmt: Fmt)
    ensures Compressed(fmt) <==> TranslatedTag(fmt) == FORMAT_ADPCM || TranslatedTag(fmt) == FORMAT_DVI_ADPCM
  {
  }

  /** The bytes of a frame: the bits of all channels when a sample is whole bytes, else the block. */
  lemma FrameBytesAre(fmt: Fmt)
    requires Playable(fmt)
    ensures BytesPerFrame(fmt) > 0
    ensures fmt.bitsPerSample % 8 == 0 ==> 8 * BytesPerFrame(fmt) == fmt.channels * fmt.bitsPerSample
    ensures fmt.bitsPerSample % 8 != 0 ==> BytesPerFrame(fmt) == fmt.blockAlign
  {
    var b: nat, c: nat := fmt.bitsPerSample, fmt.channels;
    hide TranslatedTag;
    if b % 8 == 0 {
      var k := b / 8;
      assert b == 8 * k && k <= 8 && c <= 256;
      SmallProduct(c, k);
      A.MulAssoc(8, k, c);
    }
  }

  lemma SmallProduct(c: nat, k: nat)
    requires c <= 256 && k <= 8
    ensures 0 <= k * c <= 2048 && c * (8 * k) == 8 * (k * c) && (8 * k) * c == 8 * (k * c)
  {
    A.MulMono(k, 8, c);
  }

  /** What the count says of the data: with whole bytes, the frames by channels and bits; else by the block. */
  predicate RightCount(fmt: Fmt, count: nat, size: nat) {
    if fmt.bitsPerSample % 8 == 0 then HoldsFrames(count, fmt.channels * fmt.bitsPerSample, size)
    else HoldsFrames(count, 8 * fmt.blockAlign, size)
  }

  lemma CountIsRight(fmt: Fmt, size: nat)
    requires Playable(fmt) && !Compressed(fmt)
    ensures RightCount(fmt, FrameCount(fmt, 0, size), size)
  {
    hide *;
    CompressedIs(fmt);
    FrameBytesAre(fmt);
    CountIsQuotient(fmt, size);
    QuotientCounts(size, BytesPerFrame(fmt));
    RightCountIs(fmt, FrameCount(fmt, 0, size), size);
  }

  lemma RightCountIs(fmt: Fmt, count: nat, size: nat)
    ensures RightCount(fmt, count, size)
            == if fmt.bitsPerSample % 8 == 0 then HoldsFrames(count, fmt.channels * fmt.bitsPerSample, size)
               else HoldsFrames(count, 8 * fmt.blockAlign, size)
  {
    hide HoldsFrames;
  }

  lemma CountIsQuotient(fmt: Fmt, size: nat)
    requires Playable(fmt) && BytesPerFrame(fmt) > 0
    requires TranslatedTag(fmt) != FORMAT_ADPCM && TranslatedTag(fmt) != FORMAT_DVI_ADPCM
    ensures FrameCount(fmt, 0, size) == P.Quotient(size, BytesPerFrame(fmt))
  {
    hide TranslatedTag, BytesPerFrame, P.Quotient, AdpcmFrames, P.BlockCount;
  }

  /** Blocks are counted to the last, whole or not. */
  lemma BlocksCover(size: nat, block: nat)
    requires block > 0
    ensures var n := P.BlockCount(size, block);
            n * block >= size && (n > 0 ==> (n - 1) * block < size)
  {
    var n := size / block;
    assert size == n * block + size % block;
    A.MulSucc(n, block);
    if n > 0 {
      A.MulSucc(n - 1, block);
    }
  }

  /** ADPCM: two frames for each byte and channel behind the headers of the blocks, and in IMA one in each header. */
  lemma AdpcmCount(fmt: Fmt, size: nat, n: nat)
    requires Playable(fmt) && Compressed(fmt) && n == P.BlockCount(size, fmt.blockAlign) && size < 0x4000_0000_0000_0000
    requires fmt.blockAlign > 0 && P.Times(n, 6 * fmt.channels) <= size && n <= size
    ensures 1 <= fmt.channels <= 2
    ensures TranslatedTag(fmt) == 2 ==>
              FrameCount(fmt, 0, size) == 2 * (size - P.Times(n, 6 * fmt.channels)) / fmt.channels
    ensures TranslatedTag(fmt) == 0x11 ==>
              P.Times(n, 4 * fmt.channels) <= size
              && FrameCount(fmt, 0, size) == 2 * (size - P.Times(n, 4 * fmt.channels)) / fmt.channels + n
  {
    hide *;
    CompressedIs(fmt);
    TagsAre();
    FewChannels(fmt);
    AdpcmIs(fmt, size, n);
    HeadersLess(n, fmt.channels);
    NoWrap(size, P.Times(n, 6 * fmt.channels), fmt.channels, 0);
    NoWrap(size, P.Times(n, 4 * fmt.channels), fmt.channels, n);
  }

  lemma FewChannels(fmt: Fmt)
    requires Playable(fmt) && (TranslatedTag(fmt) == FORMAT_ADPCM || TranslatedTag(fmt) == FORMAT_DVI_ADPCM)
    ensures 1 <= fmt.channels <= 2 && fmt.blockAlign > 0
  {
    hide TranslatedTag, BytesPerFrame;
  }

  lemma AdpcmIs(fmt: Fmt, size: nat, n: nat)
    requires Playable(fmt) && fmt.channels > 0 && fmt.blockAlign > 0 && n == P.BlockCount(size, fmt.blockAlign)
    ensures TranslatedTag(fmt) == FORMAT_ADPCM ==>
              FrameCount(fmt, 0, size)
              == P.Quotient(To64(To64(size - P.Times(n, 6 * fmt.channels)) * 2), fmt.channels)
    ensures TranslatedTag(fmt) == FORMAT_DVI_ADPCM && FORMAT_ADPCM != FORMAT_DVI_ADPCM ==>
              FrameCount(fmt, 0, size)
              == To64(P.Quotient(To64(To64(size - P.Times(n, 4 * fmt.channels)) * 2), fmt.channels) + n)
  {
    hide TranslatedTag, BytesPerFrame, P.BlockCount, To64, P.Quotient, P.Times;
  }

  lemma HeadersLess(n: nat, channels: nat)
    ensures P.Times(n, 4 * channels) <= P.Times(n, 6 * channels) && P.Times(n, 4 * channels) >= 0
  {
    A.MulMono(4 * channels, 6 * channels, n);
  }

  lemma NoWrap(size: nat, headers: nat, channels: nat, n: nat)
    requires headers <= size < 0x4000_0000_0000_0000 && 1 <= channels <= 2 && n <= size
    ensures P.Quotient(To64(To64(size - headers) * 2), channels) == 2 * (size - headers) / channels
    ensures To64(2 * (size - headers) / channels + n) == 2 * (size - headers) / channels + n
  {
  }

  // ---- Of any opened file ----

  lemma OpenedCount(img: seq<byte>, at: nat, c: Container, r: ScanResult)
    requires AfterScan(img, at, c, r).Opened?
    ensures var wav := AfterScan(img, at, c, r).wav;
            && r.Done? && wav.container == c && Playable(wav.fmt)
            && wav.totalPCMFrameCount == FrameCount(wav.fmt, r.scan.factCount, wav.dataSize)
  {
    hide FrameCount, Playable, InRange, FillFrom;
  }

  lemma WithFact(fmt: Fmt, factCount: nat, size: nat)
    requires Playable(fmt) && factCount != 0
    ensures FrameCount(fmt, factCount, size) == factCount
  {
    hide TranslatedTag, BytesPerFrame, AdpcmFrames, P.BlockCount;
  }

  /** In RIFF a fact chunk counts for nothing, and in RF64 neither: its count comes with the ds64 chunk. */
  lemma FactStays(img: seq<byte>, c: Container, flag: bool, h: Header, s: Scan)
    requires (c.Rf64? || (c.Riff? && s.factCount == 0)) && h.Header? && h.body <= |img|
    ensures var t := ScanTurn(img, c, flag, h, s);
            t.Ends? || t.GoesOn? ==> t.scan.factCount == s.factCount
  {
    hide ReadFmt, CountChunk, To64, CursorAt, GetU64;
  }

  lemma ScanFact(img: seq<byte>, p: nat, c: Container, flag: bool, s: Scan)
    requires c.Rf64? || (c.Riff? && s.factCount == 0)
    ensures var r := ScanFrom(img, p, c, flag, s); r.Done? ==> r.scan.factCount == s.factCount
    decreases TurnsLeft(ScanMove(img, c, flag), Spot(p, s.drift))
  {
    hide *;
    ScanStepIs(img, p, c, flag, s);
    ScanHangsIs(img, p, c, flag, s);
    MoveIs(img, c, flag, p, s);
    EndsStep(ScanMove(img, c, flag), Spot(p, s.drift));
    var h := ReadHeader(img, p, c);
    if h.Header? && !ScanFrom(img, p, c, flag, s).ScanHangs? {
      FactStays(img, c, flag, h, s);
      var t := ScanTurn(img, c, flag, h, s);
      if t.GoesOn? {
        ScanFact(img, t.at, c, flag, t.scan);
      }
    }
  }

  lemma StartFact(dataSize: nat, sampleCount: nat)
    ensures StartScan(dataSize, sampleCount).factCount == sampleCount
  {
  }

  lemma LeadCount(img: seq<byte>)
    requires ReadLead(img).Lead?
    ensures ReadLead(img).container.Riff? ==> ReadLead(img).sampleCount == 0
    ensures ReadLead(img).container.W64? ==>
              ReadLead(img).at == 40 && ReadLead(img).dataSize == 0 && ReadLead(img).sampleCount == 0
    ensures ReadLead(img).container.Rf64? ==> |img| >= 44 && ReadLead(img).sampleCount == GetU64(img, 36)
  {
    hide GetU64, GetU32;
  }

  lemma InitIsAfterScan(img: seq<byte>, flag: bool)
    ensures var lead := ReadLead(img);
            Init(img, flag)
            == if lead.NoLead? then Rejected
               else AfterScan(img, lead.at, lead.container,
                              ScanFrom(img, lead.at, lead.container, flag && !lead.container.W64?,
                                       StartScan(lead.dataSize, lead.sampleCount)))
  {
    hide ReadLead, ScanFrom, AfterScan, StartScan;
  }

  /**
   Any RIFF file that opens, and is no ADPCM, has as many frames as whole frames of its channels and bits are in
   its data. In RF64 so does one whose ds64 chunk gives no number of samples; otherwise it has that number. In Wave64
   it is the number of the last fact chunk.
   */
  lemma FramesOfFile(img: seq<byte>, flag: bool)
    requires Init(img, flag).Opened?
    ensures var wav := Init(img, flag).wav;
            && (wav.container.Riff? && !Compressed(wav.fmt) ==>
                  RightCount(wav.fmt, wav.totalPCMFrameCount, wav.dataSize))
            && (wav.container.Rf64? ==>
                  && |img| >= 44
                  && (if GetU64(img, 36) != 0 then wav.totalPCMFrameCount == GetU64(img, 36)
                      else !Compressed(wav.fmt) ==> RightCount(wav.fmt, wav.totalPCMFrameCount, wav.dataSize)))
            && (wav.container.W64? ==>
                  var r := ScanFrom(img, 40, W64, false, StartScan(0, 0));
                  && r.Done?
                  && (if r.scan.factCount != 0 then wav.totalPCMFrameCount == r.scan.factCount
                      else !Compressed(wav.fmt) ==> RightCount(wav.fmt, wav.totalPCMFrameCount, wav.dataSize)))
  {
    hide *;
    InitIsAfterScan(img, flag);
    var lead := ReadLead(img);
    var start := StartScan(lead.dataSize, lead.sampleCount);
    var walk := flag && !lead.container.W64?;
    var r := ScanFrom(img, lead.at, lead.container, walk, start);
    LeadCount(img);
    StartFact(lead.dataSize, lead.sampleCount);
    OpenedCount(img, lead.at, lead.container, r);
    if lead.container.Riff? || lead.container.Rf64? {
      ScanFact(img, lead.at, lead.container, walk, start);
    }
    var wav := Init(img, flag).wav;
    if r.scan.factCount != 0 {
      WithFact(wav.fmt, r.scan.factCount, wav.dataSize);
    } else if !Compressed(wav.fmt) {
      CountIsRight(wav.fmt, wav.dataSize);
    }
  }

  // ---- Of a format that was asked for ----

  /** The numbers fit the fields of a fmt chunk. */
  predicate InFields(f: DataFormat) {
    f.format < 0x1_0000 && f.channels < 0x1_0000 && f.bitsPerSample < 0x1_0000
  }

  /** The format opens: rate, channels and bits in bounds, at least a byte a frame, and that in A-law and mu-law. */
  predicate Opening(f: DataFormat) {
    && 1 <= f.sampleRate <= 384000 && 1 <= f.channels <= 256 && 1 <= f.bitsPerSample <= 64
    && f.channels * f.bitsPerSample >= 8
    && (f.format == 6 || f.format == 7 ==> f.bitsPerSample >= 8 && f.channels * (f.bitsPerSample - 8) < 8)
  }

  lemma OpeningIff(f: DataFormat)
    requires InFields(f) && Writable(f)
    ensures Playable(FmtOf(f)) <==> Opening(f)
  {
    hide *;
    var fmt, c: nat, b: nat := FmtOf(f), f.channels, f.bitsPerSample;
    var p := P.Times(c, b);
    FieldsOf(f);
    RatesAre(f);
    PlainTag(f);
    TagsAre();
    ProductIs(c, b);
    PlayableIff(fmt, f);
    OpeningIs(f, p);
    if c <= 256 && b <= 64 {
      Bounded(c, b, p);
      EighthIs(p);
      SameProduct(fmt, f, p);
      LawBytes(c, b, p);
    }
  }

  lemma FieldsOf(f: DataFormat)
    requires InFields(f)
    ensures var fmt := FmtOf(f);
            && fmt.formatTag == f.format && fmt.channels == f.channels && fmt.sampleRate == f.sampleRate
            && fmt.bitsPerSample == f.bitsPerSample
  {
    FmtOfIs(f);
    hide FmtOf;
  }

  lemma TagsAre()
    ensures FORMAT_ALAW == 6 && FORMAT_MULAW == 7 && FORMAT_ADPCM == 2 && FORMAT_DVI_ADPCM == 0x11
    ensures FORMAT_EXTENSIBLE == 0xFFFE
  {
  }

  lemma PlainTag(f: DataFormat)
    requires InFields(f) && Writable(f)
    ensures TranslatedTag(FmtOf(f)) == f.format && f.format != FORMAT_ADPCM && f.format != FORMAT_DVI_ADPCM
    ensures !Compressed(FmtOf(f))
  {
    FieldsOf(f);
    hide FmtOf;
    CompressedIs(FmtOf(f));
  }

  lemma PlayableIff(fmt: Fmt, f: DataFormat)
    requires TranslatedTag(fmt) == f.format && f.format != FORMAT_ADPCM && f.format != FORMAT_DVI_ADPCM
    requires fmt.channels == f.channels && fmt.sampleRate == f.sampleRate && fmt.bitsPerSample == f.bitsPerSample
    ensures Playable(fmt)
            <==> && 1 <= f.sampleRate <= 384000 && 1 <= f.channels <= 256 && 1 <= f.bitsPerSample <= 64
                 && fmt.blockAlign != 0 && BytesPerFrame(fmt) != 0
  {
    hide TranslatedTag, BytesPerFrame;
  }

  lemma OpeningIs(f: DataFormat, p: nat)
    requires p == f.channels * f.bitsPerSample
    ensures Opening(f)
            <==> && 1 <= f.sampleRate <= 384000 && 1 <= f.channels <= 256 && 1 <= f.bitsPerSample <= 64 && p >= 8
                 && (f.format == 6 || f.format == 7 ==> f.bitsPerSample >= 8 && f.channels * (f.bitsPerSample - 8) < 8)
  {
  }

  lemma Bounded(c: nat, b: nat, p: nat)
    requires c <= 256 && b <= 64 && p == c * b
    ensures p <= 16384
  {
    A.MulMono(c, 256, b);
  }

  lemma EighthIs(p: nat)
    requires p <= 16384
    ensures To32(p) == p && To16(p / 8) == p / 8
  {
  }

  /** Both ways to the bytes of a frame lead to the same. */
  lemma SameProduct(fmt: Fmt, f: DataFormat, p: nat)
    requires p == P.Times(f.channels, f.bitsPerSample) == f.channels * f.bitsPerSample
    requires To32(p) == p && fmt.blockAlign == p / 8
    requires TranslatedTag(fmt) == f.format
    requires fmt.channels == f.channels && fmt.bitsPerSample == f.bitsPerSample
    ensures BytesPerFrame(fmt)
            == if (f.format == FORMAT_ALAW || f.format == FORMAT_MULAW) && p / 8 != f.channels then 0 else p / 8
  {
    hide TranslatedTag, To32;
    Commutes(fmt.bitsPerSample, fmt.channels);
  }

  lemma Commutes(a: nat, b: nat)
    ensures a * b == b * a
  {
  }

  lemma LawBytes(c: nat, b: nat, p: nat)
    requires p == c * b && c >= 0
    ensures c > 0 ==> (p / 8 == c <==> b >= 8 && c * (b - 8) < 8)
  {
    if c > 0 {
      if b >= 8 {
        assert c * (b - 8) == p - 8 * c;
      } else {
        A.MulMono(b + 1, 8, c);
        A.MulSucc(b, c);
      }
    }
  }

  /** The count of a file in a format that was asked for, when a frame is whole bytes. */
  lemma FramesAsked(f: DataFormat, size: nat)
    requires InFields(f) && Writable(f) && Playable(FmtOf(f)) && f.channels * f.bitsPerSample % 8 == 0
    ensures HoldsFrames(FrameCount(FmtOf(f), 0, size), f.channels * f.bitsPerSample, size)
  {
    hide *;
    var fmt, c: nat, b: nat := FmtOf(f), f.channels, f.bitsPerSample;
    var p := P.Times(c, b);
    FieldsOf(f);
    RatesAre(f);
    PlainTag(f);
    ProductIs(c, b);
    OpeningIff(f);
    OpeningIs(f, p);
    Bounded(c, b, p);
    EighthIs(p);
    SameProduct(fmt, f, p);
    PlayableIff(fmt, f);
    CountIsQuotient(fmt, size);
    QuotientCounts(size, p / 8);
  }

  /** So whole frames that are written are the frames that are counted, when the data size is theirs. */
  lemma FramesBack(f: DataFormat, size: nat, n: nat)
    requires InFields(f) && Writable(f) && Playable(FmtOf(f)) && f.channels * f.bitsPerSample % 8 == 0
    requires 8 * size == n * (f.channels * f.bitsPerSample)
    ensures FrameCount(FmtOf(f), 0, size) == n
  {
    hide *;
    FramesAsked(f, size);
    OpeningIff(f);
    OpeningIs(f, f.channels * f.bitsPerSample);
    ExactFrames(n, f.channels * f.bitsPerSample, size);
    OnceCounted(FrameCount(FmtOf(f), 0, size), n, f.channels * f.bitsPerSample, size);
  }
}
