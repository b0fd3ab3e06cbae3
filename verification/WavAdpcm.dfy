/**
 The frame count that dr_wav derives for an ADPCM file when it opens it, and the frames that its block
 decoders make of the data chunk.
 */
module WavAdpcm {
  import A = Arith
  import opened Bytes
  import opened PcmFrames
  import opened WavFormat
  import opened WavScan
  import I = ImaAdpcm
  import M = MsAdpcm

  /** Without wrap-around the count is the one of the block decoders. */
  lemma CountIsExact(size: nat, blocks: nat, header: nat, channels: nat)
    requires channels > 0 && Times(blocks, header) <= size < 0x4000_0000_0000_0000
    ensures AdpcmFrames(size, blocks, header, channels) == Quotient(2 * (size - Times(blocks, header)), channels)
  {
    hide Times, Quotient;
  }

  /** The headers are part of the blocks. */
  lemma HeadersFit(n: nat, header: nat, blockAlign: nat, size: nat)
    requires blockAlign > 0 && size == n * blockAlign && (size != 0 ==> header <= blockAlign)
    ensures BlockCount(size, blockAlign) == n && Times(n, header) <= size
  {
    A.DivModUnique(n, blockAlign, 0);
    A.MulMono(1, blockAlign, n);
    if n > 0 {
      A.MulMono(header, blockAlign, n);
    }
  }

  lemma ImaHeaderFits(s: seq<byte>, ch: nat, blockAlign: nat)
    requires ch > 0 && I.ValidBlocks(s, ch, blockAlign) && s != []
    ensures 4 * ch <= blockAlign
  {
  }

  lemma MsHeaderFits(s: seq<byte>, ch: nat, blockAlign: nat)
    requires ch > 0 && M.ValidBlocks(s, ch, blockAlign) && s != []
    ensures 7 * ch <= blockAlign
  {
  }

  lemma AdpcmHasTwo(fmt: Fmt)
    requires Playable(fmt) && (TranslatedTag(fmt) == FORMAT_ADPCM || TranslatedTag(fmt) == FORMAT_DVI_ADPCM)
    ensures 1 <= fmt.channels <= 2 && fmt.blockAlign > 0
  {
    hide TranslatedTag, BytesPerFrame;
  }

  lemma FrameCountIs(fmt: Fmt, size: nat)
    requires Playable(fmt)
    ensures fmt.channels > 0 && fmt.blockAlign > 0
    ensures var blocks := BlockCount(size, fmt.blockAlign);
            && (TranslatedTag(fmt) == FORMAT_ADPCM ==>
                  FrameCount(fmt, 0, size) == AdpcmFrames(size, blocks, 6 * fmt.channels, fmt.channels))
            && (TranslatedTag(fmt) == FORMAT_DVI_ADPCM ==>
                  FrameCount(fmt, 0, size) == To64(AdpcmFrames(size, blocks, 4 * fmt.channels, fmt.channels) + blocks))
  {
    hide TranslatedTag, BytesPerFrame, BlockCount, AdpcmFrames, To64;
  }

  /** Both formulas, for `n` whole blocks. */
  lemma TotalsAre(n: nat, ch: nat, blockAlign: nat, size: nat)
    requires 1 <= ch && blockAlign > 0 && size == n * blockAlign && BlockCount(size, blockAlign) == n
    ensures Times(n, 4 * ch) <= size ==>
              I.TotalFrames(size, ch, blockAlign) == Quotient(2 * (size - Times(n, 4 * ch)), ch) + n
    ensures Times(n, 6 * ch) <= size ==>
              M.TotalFrames(size, ch, blockAlign) == Quotient(2 * (size - Times(n, 6 * ch)), ch)
  {
  }

  lemma NoWrap(a: nat, ch: nat, n: nat, size: nat)
    requires 1 <= ch && a <= size && n <= size < 0x4000_0000_0000_0000
    ensures To64(Quotient(2 * a, ch) + n) == Quotient(2 * a, ch) + n
  {
    A.DivModUnique(2 * a / ch, ch, 2 * a % ch);
    A.MulMono(1, ch, 2 * a / ch);
  }

  lemma BlocksAtMost(n: nat, blockAlign: nat)
    requires blockAlign > 0
    ensures n <= n * blockAlign
  {
    A.MulMono(1, blockAlign, n);
  }

  /** A data chunk of whole valid IMA blocks: the count is the number of frames that come out of them. */
  lemma ImaCount(fmt: Fmt, audio: seq<byte>)
    requires Playable(fmt) && TranslatedTag(fmt) == FORMAT_DVI_ADPCM && |audio| < 0x4000_0000_0000_0000
    requires I.ValidBlocks(audio, fmt.channels, fmt.blockAlign)
    ensures 1 <= fmt.channels <= 2
    ensures FrameCount(fmt, 0, |audio|) == |I.Decode(audio, fmt.channels, fmt.blockAlign)|
  {
    hide *;
    AdpcmHasTwo(fmt);
    FrameCountIs(fmt, |audio|);
    var ch, blockAlign: nat := fmt.channels, fmt.blockAlign;
    I.TotalFramesIsDecodeLength(audio, ch, blockAlign);
    var n := I.DecodeLengthByBlocks(audio, ch, blockAlign, I.FramesPerBlock(ch, blockAlign));
    if audio != [] {
      ImaHeaderFits(audio, ch, blockAlign);
    }
    HeadersFit(n, 4 * ch, blockAlign, |audio|);
    BlocksAtMost(n, blockAlign);
    TotalsAre(n, ch, blockAlign, |audio|);
    CountIsExact(|audio|, n, 4 * ch, ch);
    NoWrap(|audio| - Times(n, 4 * ch), ch, n, |audio|);
  }

  /** And so for Microsoft blocks. */
  lemma MsCount(fmt: Fmt, audio: seq<byte>)
    requires Playable(fmt) && TranslatedTag(fmt) == FORMAT_ADPCM && |audio| < 0x4000_0000_0000_0000
    requires M.ValidBlocks(audio, fmt.channels, fmt.blockAlign)
    ensures 1 <= fmt.channels <= 2
    ensures FrameCount(fmt, 0, |audio|) == |M.Decode(audio, fmt.channels, fmt.blockAlign)|
  {
    hide *;
    AdpcmHasTwo(fmt);
    FrameCountIs(fmt, |audio|);
    var ch, blockAlign: nat := fmt.channels, fmt.blockAlign;
    M.TotalFramesIsDecodeLength(audio, ch, blockAlign);
    var n := M.DecodeLengthByBlocks(audio, ch, blockAlign, M.FramesPerBlock(ch, blockAlign));
    if audio != [] {
      MsHeaderFits(audio, ch, blockAlign);
    }
    HeadersFit(n, 6 * ch, blockAlign, |audio|);
    TotalsAre(n, ch, blockAlign, |audio|);
    CountIsExact(|audio|, n, 6 * ch, ch);
  }
}
