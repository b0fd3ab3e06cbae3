/**
 The Microsoft ADPCM reader of dr_wav. Like the IMA reader it resumes in the middle of a block,
 but its cache is two frames, its state is a second-order predictor and an adaptive step per
 channel, and the first two frames of a block come from the header, older one first.

 `RefSample` gives sample `t` of a channel from the block's bytes, `Decode` decodes byte by byte,
 `MsReader` is the code.
 */
module MsAdpcm {
  import opened Arith
  import opened Bytes
  import opened PcmFrames

  const ADAPTATION_TABLE: seq<int> := [
    230, 230, 230, 230, 307, 409, 512, 614,
    768, 614, 512, 409, 307, 230, 230, 230
  ]
  const COEFF1_TABLE: seq<int> := [256, 512, 0, 192, 240, 460, 392]
  const COEFF2_TABLE: seq<int> := [0, -256, 0, 64, 0, -208, -232]

  const MIN_DELTA := 16

  type nibble = x: int | 0 <= x < 16

  /** predictor, delta and prevFrames of one channel; `newer` is the frame decoded last. */
  datatype Channel = Channel(predictor: int, delta: int, newer: int, older: int) {
    predicate InRange() {
      0 <= predictor < 7 && -0x8000 <= newer < 0x8000 && -0x8000 <= older < 0x8000
    }
  }

  function Signed(n: nibble): int {
    if n >= 8 then n - 16 else n
  }

  function Adapt(delta: int, n: nibble): (d: int)
    ensures d >= MIN_DELTA
  {
    Max(Int32(ADAPTATION_TABLE[n] * delta) / 256, MIN_DELTA)
  }

  function Step(c: Channel, n: nibble): (c': Channel)
    requires c.InRange()
    ensures c'.InRange() && c'.delta >= MIN_DELTA && c'.older == c.newer
  {
    var sample := Int32((c.newer * COEFF1_TABLE[c.predictor] + c.older * COEFF2_TABLE[c.predictor]) / 256
                        + Signed(n) * c.delta);
    Channel(c.predictor, Adapt(c.delta, n), Clamp(sample, -32768, 32767), c.newer)
  }

  // ---- The format, straight from the block bytes ----

  function HeaderSize(ch: nat): nat {
    7 * ch
  }

  function HeaderChannel(block: seq<byte>, ch: nat, c: nat): Channel
    requires c < ch && HeaderSize(ch) <= |block|
  {
    Channel(block[c], GetS16(block, ch + 2 * c), GetS16(block, 3 * ch + 2 * c), GetS16(block, 5 * ch + 2 * c))
  }

  predicate ValidBlock(block: seq<byte>, ch: nat) {
    HeaderSize(ch) <= |block| && forall c :: 0 <= c < ch ==> HeaderChannel(block, ch, c).InRange()
  }

  /**
   The nibbles of channel `c` among payload bytes: both halves of every byte, high half first,
   in mono; the high half for the left and the low half for the right channel in stereo.
   */
  function ChannelNibbles(s: seq<byte>, ch: nat, c: nat): (n: seq<nibble>)
    requires c < ch <= 2
    ensures |n| == if ch == 1 then 2 * |s| else |s|
    decreases |s|
  {
    if s == [] then [] else ByteNibbles(s[0], ch, c) + ChannelNibbles(s[1..], ch, c)
  }

  function ByteNibbles(b: byte, ch: nat, c: nat): (n: seq<nibble>)
    requires c < ch <= 2
    ensures |n| == if ch == 1 then 2 else 1
  {
    if ch == 1 then [b / 16, b % 16] else if c == 0 then [b / 16] else [b % 16]
  }

  function After(c: Channel, n: seq<nibble>, t: nat): (c': Channel)
    requires c.InRange() && t <= |n|
    ensures c'.InRange() && (t > 0 ==> c'.delta >= MIN_DELTA)
  {
    if t == 0 then c else Step(After(c, n, t - 1), n[t - 1])
  }

  /** Sample `t` of channel `c` of a block: two from the header, then one per nibble of the channel. */
  function RefSample(block: seq<byte>, ch: nat, c: nat, t: nat): int
    requires c < ch <= 2 && ValidBlock(block, ch)
    requires t <= 1 + |ChannelNibbles(block[7 * ch..], ch, c)|
  {
    if t == 0 then HeaderChannel(block, ch, c).older
    else After(HeaderChannel(block, ch, c), ChannelNibbles(block[7 * ch..], ch, c), t - 1).newer
  }

  // ---- Decoding block by block, byte by byte ----

  predicate AllInRange(chs: seq<Channel>) {
    forall c :: 0 <= c < |chs| ==> chs[c].InRange()
  }

  function AfterByte(chs: seq<Channel>, b: byte): (chs': seq<Channel>)
    requires 1 <= |chs| <= 2 && AllInRange(chs)
    ensures |chs'| == |chs| && AllInRange(chs')
  {
    if |chs| == 1 then [Step(Step(chs[0], b / 16), b % 16)]
    else [Step(chs[0], b / 16), Step(chs[1], b % 16)]
  }

  function ByteFrames(chs: seq<Channel>, b: byte): (f: seq<Frame>)
    requires 1 <= |chs| <= 2 && AllInRange(chs)
    ensures |f| * |chs| == 2
  {
    if |chs| == 1 then
      var first := Step(chs[0], b / 16);
      [[first.newer], [Step(first, b % 16).newer]]
    else [[Step(chs[0], b / 16).newer, Step(chs[1], b % 16).newer]]
  }

  function DecodeBytes(chs: seq<Channel>, s: seq<byte>): (f: seq<Frame>)
    requires 1 <= |chs| <= 2 && AllInRange(chs)
    decreases |s|
  {
    if s == [] then [] else ByteFrames(chs, s[0]) + DecodeBytes(AfterByte(chs, s[0]), s[1..])
  }

  function HeaderChannels(block: seq<byte>, ch: nat): (chs: seq<Channel>)
    requires HeaderSize(ch) <= |block|
    ensures |chs| == ch
    ensures ValidBlock(block, ch) ==> AllInRange(chs)
  {
    seq(ch, c requires 0 <= c < ch => HeaderChannel(block, ch, c))
  }

  function HeaderFrames(chs: seq<Channel>): (f: seq<Frame>)
    ensures |f| == 2 && |f[0]| == |f[1]| == |chs|
  {
    [seq(|chs|, c requires 0 <= c < |chs| => chs[c].older), seq(|chs|, c requires 0 <= c < |chs| => chs[c].newer)]
  }

  function DecodeBlock(block: seq<byte>, ch: nat): seq<Frame>
    requires 1 <= ch <= 2 && ValidBlock(block, ch)
  {
    var chs := HeaderChannels(block, ch);
    HeaderFrames(chs) + DecodeBytes(chs, block[7 * ch..])
  }

  /** A data chunk made of whole, valid blocks. */
  predicate ValidBlocks(s: seq<byte>, ch: nat, blockAlign: nat)
    decreases |s|
  {
    s == [] || (0 < blockAlign <= |s| && ValidBlock(s[..blockAlign], ch) && ValidBlocks(s[blockAlign..], ch, blockAlign))
  }

  function Decode(s: seq<byte>, ch: nat, blockAlign: nat): seq<Frame>
    requires 1 <= ch <= 2 && ValidBlocks(s, ch, blockAlign)
    decreases |s|
  {
    if s == [] then [] else DecodeBlock(s[..blockAlign], ch) + Decode(s[blockAlign..], ch, blockAlign)
  }

  // ---- The two descriptions agree ----

  lemma {:induction false} AfterConcat(c: Channel, m: seq<nibble>, n: seq<nibble>, t: nat)
    requires c.InRange() && t <= |n|
    ensures After(c, m + n, |m| + t) == After(After(c, m, |m|), n, t)
    decreases t
  {
    if t == 0 {
      AfterPrefix(c, m, n, |m|);
    } else {
      AfterConcat(c, m, n, t - 1);
      assert (m + n)[|m| + t - 1] == n[t - 1];
    }
  }

  lemma {:induction false} AfterPrefix(c: Channel, m: seq<nibble>, n: seq<nibble>, t: nat)
    requires c.InRange() && t <= |m|
    ensures After(c, m + n, t) == After(c, m, t)
  {
    hide Step;
    if t > 0 {
      AfterPrefix(c, m, n, t - 1);
    }
  }

  /** One byte: the frames it yields and the state it leaves, seen from channel `c`. */
  lemma ByteIsChannel(chs: seq<Channel>, b: byte, c: nat)
    requires c < |chs| <= 2 && AllInRange(chs)
    ensures var n := ByteNibbles(b, |chs|, c);
            && |ByteFrames(chs, b)| == |n|
            && AfterByte(chs, b)[c] == After(chs[c], n, |n|)
            && (forall t :: 0 <= t < |n| ==>
                  |ByteFrames(chs, b)[t]| == |chs| && ByteFrames(chs, b)[t][c] == After(chs[c], n, t + 1).newer)
  {
    var n := ByteNibbles(b, |chs|, c);
    assert After(chs[c], n, 1) == Step(chs[c], n[0]);
    assert |chs| == 1 ==> After(chs[c], n, 2) == Step(Step(chs[c], n[0]), n[1]);
  }

  lemma DecodeBytesStep(chs: seq<Channel>, s: seq<byte>, c: nat)
    requires c < |chs| <= 2 && AllInRange(chs) && s != []
    ensures DecodeBytes(chs, s) == ByteFrames(chs, s[0]) + DecodeBytes(AfterByte(chs, s[0]), s[1..])
    ensures ChannelNibbles(s, |chs|, c) == ByteNibbles(s[0], |chs|, c) + ChannelNibbles(s[1..], |chs|, c)
  {
  }

  lemma InRangeAt(chs: seq<Channel>, c: nat)
    requires c < |chs| && AllInRange(chs)
    ensures chs[c].InRange()
  {
  }

  lemma DecodeBytesEnd(chs: seq<Channel>, c: nat)
    requires c < |chs| <= 2 && AllInRange(chs)
    ensures DecodeBytes(chs, []) == [] && ChannelNibbles([], |chs|, c) == []
  {
  }

  /** Interleaved decoding gives channel `c` what decoding its nibbles alone gives. */
  lemma {:induction false} BytesAreChannels(chs: seq<Channel>, s: seq<byte>, c: nat, t: nat)
    requires c < |chs| <= 2 && AllInRange(chs)
    ensures |DecodeBytes(chs, s)| == |ChannelNibbles(s, |chs|, c)|
    ensures t < |DecodeBytes(chs, s)| ==>
              && |DecodeBytes(chs, s)[t]| == |chs|
              && DecodeBytes(chs, s)[t][c] == After(chs[c], ChannelNibbles(s, |chs|, c), t + 1).newer
    decreases |s|
  {
    hide *;
    InRangeAt(chs, c);
    if s == [] {
      DecodeBytesEnd(chs, c);
    } else {
      var m, n := ByteNibbles(s[0], |chs|, c), ChannelNibbles(s[1..], |chs|, c);
      DecodeBytesStep(chs, s, c);
      ByteIsChannel(chs, s[0], c);
      if t < |m| {
        BytesAreChannels(AfterByte(chs, s[0]), s[1..], c, 0);
        AfterPrefix(chs[c], m, n, t + 1);
      } else {
        BytesAreChannels(AfterByte(chs, s[0]), s[1..], c, t - |m|);
        if t < |m| + |n| {
          AfterConcat(chs[c], m, n, t + 1 - |m|);
        }
      }
    }
  }

  lemma FirstAfter(c: Channel, n: seq<nibble>)
    requires c.InRange()
    ensures After(c, n, 0) == c
  {
  }

  /** Frame `t` of a block holds sample `t` of every channel. */
  lemma DecodeBlockIsRefSample(block: seq<byte>, ch: nat, c: nat, t: nat)
    requires c < ch <= 2 && ValidBlock(block, ch) && t < |DecodeBlock(block, ch)|
    ensures |DecodeBlock(block, ch)| == 2 + 2 * (|block| - 7 * ch) / ch
    ensures t <= 1 + |ChannelNibbles(block[7 * ch..], ch, c)|
    ensures |DecodeBlock(block, ch)[t]| == ch
    ensures DecodeBlock(block, ch)[t][c] == RefSample(block, ch, c, t)
  {
    hide *;
    BlockParts(block, ch, c);
    var chs, s := HeaderChannels(block, ch), block[7 * ch..];
    BytesAreChannels(chs, s, c, if t >= 2 then t - 2 else 0);
    FirstAfter(chs[c], ChannelNibbles(s, ch, c));
    NibbleCount(block, ch, c);
    RefIs(block, ch, c, t);
  }

  lemma BlockParts(block: seq<byte>, ch: nat, c: nat)
    requires c < ch <= 2 && ValidBlock(block, ch)
    ensures |block| >= 7 * ch == HeaderSize(ch)
    ensures var chs := HeaderChannels(block, ch);
            && AllInRange(chs) && |chs| == ch && chs[c] == HeaderChannel(block, ch, c) && chs[c].InRange()
            && |HeaderFrames(chs)| == 2 && |HeaderFrames(chs)[0]| == |HeaderFrames(chs)[1]| == ch
            && HeaderFrames(chs)[0][c] == chs[c].older && HeaderFrames(chs)[1][c] == chs[c].newer
            && DecodeBlock(block, ch) == HeaderFrames(chs) + DecodeBytes(chs, block[7 * ch..])
  {
    hide DecodeBytes, GetS16;
  }

  lemma NibbleCount(block: seq<byte>, ch: nat, c: nat)
    requires c < ch <= 2 && |block| >= 7 * ch
    ensures |ChannelNibbles(block[7 * ch..], ch, c)| == 2 * (|block| - 7 * ch) / ch
  {
    hide ChannelNibbles;
    assert ch == 1 || ch == 2;
  }

  lemma RefIs(block: seq<byte>, ch: nat, c: nat, t: nat)
    requires c < ch <= 2 && ValidBlock(block, ch) && 7 * ch <= |block|
    requires t <= 1 + |ChannelNibbles(block[7 * ch..], ch, c)| && HeaderChannel(block, ch, c).InRange()
    ensures var first, ns := HeaderChannel(block, ch, c), ChannelNibbles(block[7 * ch..], ch, c);
            && (t == 0 ==> RefSample(block, ch, c, t) == first.older)
            && (t > 0 ==> RefSample(block, ch, c, t) == After(first, ns, t - 1).newer)
  {
    hide After, ChannelNibbles, HeaderChannel;
  }

  // ---- The frame count ----

  /** totalPCMFrameCount, as the reader derives it from the size of the data chunk. */
  function TotalFrames(size: nat, ch: nat, blockAlign: nat): int
    requires blockAlign > 0 && ch > 0
  {
    (size - BlockCount(size, blockAlign) * (6 * ch)) * 2 / ch
  }

  function FramesPerBlock(ch: nat, blockAlign: nat): int
    requires ch > 0
  {
    2 + 2 * (blockAlign - 7 * ch) / ch
  }

  lemma DecodeStep(s: seq<byte>, ch: nat, blockAlign: nat)
    requires 1 <= ch <= 2 && ValidBlocks(s, ch, blockAlign) && s != []
    ensures 0 < blockAlign <= |s| && ValidBlock(s[..blockAlign], ch) && ValidBlocks(s[blockAlign..], ch, blockAlign)
    ensures Decode(s, ch, blockAlign) == DecodeBlock(s[..blockAlign], ch) + Decode(s[blockAlign..], ch, blockAlign)
    ensures |DecodeBlock(s[..blockAlign], ch)| == FramesPerBlock(ch, blockAlign)
  {
    DecodeBlockIsRefSample(s[..blockAlign], ch, 0, 0);
  }

  lemma HasHeader(s: seq<byte>, ch: nat, blockAlign: nat)
    ensures ValidBlocks(s, ch, blockAlign) && s != [] ==> |s| >= 7 * ch
  {
  }

  lemma DecodeBlockParts(block: seq<byte>, ch: nat)
    requires 1 <= ch <= 2 && ValidBlock(block, ch)
    ensures |block| >= 7 * ch && AllInRange(HeaderChannels(block, ch))
    ensures DecodeBlock(block, ch)
            == HeaderFrames(HeaderChannels(block, ch)) + DecodeBytes(HeaderChannels(block, ch), block[7 * ch..])
  {
  }

  /** The first block of valid ones, by its header. */
  lemma FirstBlock(s: seq<byte>, ch: nat, blockAlign: nat)
    requires 1 <= ch <= 2 && ValidBlocks(s, ch, blockAlign) && |s| >= 7 * ch
    ensures 7 * ch <= blockAlign <= |s| && ValidBlocks(s[blockAlign..], ch, blockAlign)
    ensures ValidBlock(s[..7 * ch], ch) && |Decode(s, ch, blockAlign)| > 0
    ensures var chs := HeaderChannels(s[..7 * ch], ch);
            && AllInRange(chs)
            && Decode(s, ch, blockAlign)
               == HeaderFrames(chs) + DecodeBytes(chs, s[..blockAlign][7 * ch..]) + Decode(s[blockAlign..], ch, blockAlign)
  {
    hide HeaderFrames, HeaderChannels, DecodeBytes, ValidBlock, DecodeBlock, AllInRange;
    assert 0 < blockAlign <= |s| && ValidBlock(s[..blockAlign], ch);
    DecodeBlockParts(s[..blockAlign], ch);
    HeaderPrefix(s[..blockAlign], ch);
    TakeTake(s, 7 * ch, blockAlign);
  }

  lemma SubHeader(blockAlign: u16, ch: nat)
    requires 7 * ch <= blockAlign
    ensures Sub32(blockAlign, 7 * ch) == blockAlign - 7 * ch
  {
  }

  lemma DecodeEnd(ch: nat, blockAlign: nat)
    requires 1 <= ch <= 2
    ensures ValidBlocks([], ch, blockAlign) && Decode([], ch, blockAlign) == []
  {
  }

  lemma {:induction false} DecodeLengthByBlocks(s: seq<byte>, ch: nat, blockAlign: nat, k: int) returns (n: nat)
    requires 1 <= ch <= 2 && ValidBlocks(s, ch, blockAlign) && k == FramesPerBlock(ch, blockAlign)
    ensures |s| == n * blockAlign && |Decode(s, ch, blockAlign)| == n * k
    decreases |s|
  {
    hide *;
    if s == [] {
      DecodeEnd(ch, blockAlign);
      n := 0;
    } else {
      DecodeStep(s, ch, blockAlign);
      n := DecodeLengthByBlocks(s[blockAlign..], ch, blockAlign, k);
      MulSucc(n, k);
      MulSucc(n, blockAlign);
      n := n + 1;
    }
  }

  lemma FrameFormula(n: nat, ch: nat, blockAlign: nat)
    requires 1 <= ch <= 2 && 0 < blockAlign
    ensures TotalFrames(n * blockAlign, ch, blockAlign) == n * FramesPerBlock(ch, blockAlign)
  {
    DivModUnique(n, blockAlign, 0);
    if ch == 1 {
      assert n * (2 + 2 * (blockAlign - 7)) == 2 * (n * blockAlign - n * 6);
    } else {
      assert FramesPerBlock(2, blockAlign) == blockAlign - 12;
      assert n * (blockAlign - 12) == n * blockAlign - n * 12;
    }
  }

  /** On a chunk of whole valid blocks the formula is the number of frames the decoder produces. */
  lemma TotalFramesIsDecodeLength(s: seq<byte>, ch: nat, blockAlign: nat)
    requires 1 <= ch <= 2 && 0 < blockAlign && ValidBlocks(s, ch, blockAlign)
    ensures TotalFrames(|s|, ch, blockAlign) == |Decode(s, ch, blockAlign)|
  {
    var n := DecodeLengthByBlocks(s, ch, blockAlign, FramesPerBlock(ch, blockAlign));
    FrameFormula(n, ch, blockAlign);
  }

  // ---- The reader ----

  /** Where the cache holds the first of its last `left` frames. */
  function Slot(left: nat, ch: nat): (i: nat)
    requires left <= 2 && 1 <= ch <= 2
    ensures i == 4 - left * ch
  {
    if ch == 1 then 4 - left else 4 - 2 * left
  }

  /** The last `count` frames of the cache. */
  function CachedView(cache: seq<int>, count: nat, ch: nat): (f: seq<Frame>)
    requires |cache| == 4 && count <= 2 && 1 <= ch <= 2
    ensures |f| == count
  {
    seq(count, k requires 0 <= k < count => cache[Slot(count - k, ch)..][..ch])
  }

  lemma FirstCached(cache: seq<int>, count: nat, ch: nat)
    requires |cache| == 4 && 0 < count <= 2 && 1 <= ch <= 2
    ensures CachedView(cache, count, ch)[0] == cache[Slot(count, ch)..][..ch]
    ensures CachedView(cache, count - 1, ch) == CachedView(cache, count, ch)[1..]
    ensures CachedView(cache, 0, ch) == []
  {
    forall k | 0 <= k < count - 1 ensures CachedView(cache, count - 1, ch)[k] == CachedView(cache, count, ch)[1..][k] {
      assert count - 1 - k == count - (k + 1);
    }
  }

  lemma HeaderCache(cache: seq<int>, chs: seq<Channel>)
    requires |cache| == 4 && 1 <= |chs| <= 2
    requires |chs| == 1 ==> cache[2] == chs[0].older && cache[3] == chs[0].newer
    requires |chs| == 2 ==> cache == [chs[0].older, chs[1].older, chs[0].newer, chs[1].newer]
    ensures CachedView(cache, 2, |chs|) == HeaderFrames(chs)
  {
    var f := CachedView(cache, 2, |chs|);
    assert f[0] == HeaderFrames(chs)[0] && f[1] == HeaderFrames(chs)[1];
  }

  /** A header is the first 7 bytes per channel of its block. */
  lemma HeaderPrefix(block: seq<byte>, ch: nat)
    requires 7 * ch <= |block|
    ensures HeaderChannels(block[..7 * ch], ch) == HeaderChannels(block, ch)
    ensures ValidBlock(block[..7 * ch], ch) == ValidBlock(block, ch)
  {
    assert forall c :: 0 <= c < ch ==> HeaderChannel(block[..7 * ch], ch, c) == HeaderChannel(block, ch, c);
  }

  class MsReader {
    const data: seq<byte>  // the bytes behind onRead, from the start of the data chunk
    const channels: nat
    const blockAlign: u16
    const totalPCMFrameCount: nat
    ghost const end: nat  // where the blocks end, and whatever else there is begins

    var pos: nat
    var readCursorInPCMFrames: nat
    var bytesRemainingInBlock: u32
    var state: seq<Channel>  // predictor, delta and prevFrames, channel by channel
    var cachedFrames: seq<int>
    var cachedFrameCount: nat

    constructor (data: seq<byte>, channels: nat, blockAlign: u16, totalPCMFrameCount: nat, ghost end: nat)
      requires 1 <= channels <= 2
      ensures Valid()
      ensures this.data == data && this.channels == channels && this.blockAlign == blockAlign
      ensures this.totalPCMFrameCount == totalPCMFrameCount
      ensures readCursorInPCMFrames == 0
      ensures this.end == end
      ensures end <= |data| && ValidBlocks(data[..end], channels, blockAlign) ==>
                Healthy() && Future() == Decode(data[..end], channels, blockAlign)
    {
      this.data, this.channels, this.blockAlign := data, channels, blockAlign;
      this.totalPCMFrameCount, this.end := totalPCMFrameCount, end;
      pos, readCursorInPCMFrames, bytesRemainingInBlock, cachedFrameCount := 0, 0, 0, 0;
      state := seq(channels, _ => Channel(0, 0, 0, 0));
      cachedFrames := [0, 0, 0, 0];
      new;
      assert data[0..0] == [] && (end <= |data| ==> data[0..end] == data[..end]);
    }

    /** What holds between calls, as long as no block header named a coefficient pair that does not exist. */
    ghost predicate Valid()
      reads this
      ensures Valid() ==>
                1 <= channels <= 2 && |state| == channels && |cachedFrames| == 4 && cachedFrameCount <= 2 && pos <= |data|
    {
      && 1 <= channels <= 2 && |state| == channels && AllInRange(state)
      && |cachedFrames| == 4 && cachedFrameCount <= 2
      && pos <= |data|
    }

    ghost function Cached(): (f: seq<Frame>)
      requires Valid()
      reads this
      ensures |f| == cachedFrameCount
    {
      CachedView(cachedFrames, cachedFrameCount, channels)
    }

    /** Whole valid blocks follow the current one. */
    ghost predicate Healthy()
      requires Valid()
      reads this
    {
      && pos + bytesRemainingInBlock <= end <= |data|
      && ValidBlocks(data[pos + bytesRemainingInBlock..end], channels, blockAlign)
    }

    /** The frames still to be delivered: cached, left in the block, and in the blocks after it. */
    ghost function Future(): seq<Frame>
      requires Valid() && Healthy()
      reads this
    {
      Cached()
      + DecodeBytes(state, data[pos..pos + bytesRemainingInBlock])
      + Decode(data[pos + bytesRemainingInBlock..end], channels, blockAlign)
    }

    /**
     Reads a block header; false when the read is short or a coefficient index is out of range. In
     the latter case the state is left as the header says, and must not be used again.
     */
    method LoadHeader() returns (ok: bool)
      requires Valid() && cachedFrameCount == 0 && bytesRemainingInBlock == 0
      modifies this`pos, this`bytesRemainingInBlock, this`state, this`cachedFrames, this`cachedFrameCount
      ensures ok ==> Valid() && cachedFrameCount == 2
      ensures old(Healthy()) && |old(Future())| > 0 ==> ok && Healthy() && Future() == old(Future())
    {
      hide *;
      ghost var healthy := Healthy() && |Future()| > 0;
      ghost var rest := if pos <= end <= |data| then data[pos..end] else [];
      if healthy {
        BetweenBlocks(rest);
      }
      var n := 7 * channels;
      if |data| - pos < n {
        pos := |data|;
        return false;
      }
      var header := data[pos..pos + n];
      pos := pos + n;
      bytesRemainingInBlock := Sub32(blockAlign, n);
      ok := StoreHeader(header);
      if healthy {
        HeaderKeepsFuture(rest, header);
      }
    }

    /** Takes over a header; false when a coefficient index is out of range. */
    method StoreHeader(header: seq<byte>) returns (ok: bool)
      requires 1 <= channels <= 2 && |cachedFrames| == 4 && |header| == 7 * channels && pos <= |data|
      modifies this`state, this`cachedFrames, this`cachedFrameCount
      ensures ok == ValidBlock(header, channels)
      ensures state == HeaderChannels(header, channels)
      ensures cachedFrameCount == 2
      ensures ok ==> Valid() && Cached() == HeaderFrames(state)
    {
      hide Step;
      if channels == 1 {
        state := [Channel(header[0], GetS16(header, 1), GetS16(header, 3), GetS16(header, 5))];
        cachedFrames := cachedFrames[2 := state[0].older][3 := state[0].newer];
      } else {
        state := [Channel(header[0], GetS16(header, 2), GetS16(header, 6), GetS16(header, 10)),
                  Channel(header[1], GetS16(header, 4), GetS16(header, 8), GetS16(header, 12))];
        cachedFrames := [state[0].older, state[1].older, state[0].newer, state[1].newer];
      }
      cachedFrameCount := 2;
      if state[0].predictor >= |COEFF1_TABLE| || (channels == 2 && state[1].predictor >= |COEFF2_TABLE|) {
        assert !(HeaderChannel(header, channels, 0).InRange() && HeaderChannel(header, channels, channels - 1).InRange());
        return false;
      }
      ok := true;
      HeaderCache(cachedFrames, state);
    }

    /** A freshly read header leaves the decoding of its block, and of what follows, to be delivered. */
    lemma HeaderKeepsFuture(rest: seq<byte>, header: seq<byte>)
      requires 1 <= channels <= 2 && 7 * channels <= pos <= end <= |data| && |rest| >= 7 * channels
      requires rest == data[pos - 7 * channels..end] && header == rest[..7 * channels]
      requires ValidBlocks(rest, channels, blockAlign)
      requires bytesRemainingInBlock == Sub32(blockAlign, 7 * channels)
      requires state == HeaderChannels(header, channels)
      ensures ValidBlock(header, channels)
      ensures |Decode(rest, channels, blockAlign)| > 0
      ensures Valid() && Cached() == HeaderFrames(state) ==>
                Healthy() && Future() == Decode(rest, channels, blockAlign)
    {
      hide *;
      FirstBlock(rest, channels, blockAlign);
      SubHeader(blockAlign, channels);
      Slices(data, pos - 7 * channels, end, 7 * channels, blockAlign);
      if Valid() && Cached() == HeaderFrames(state) {
        FutureParts(data[pos..pos + bytesRemainingInBlock], rest[blockAlign..]);
      }
    }

    lemma FutureParts(rem: seq<byte>, rest: seq<byte>)
      requires Valid() && pos + bytesRemainingInBlock <= end <= |data|
      requires rem == data[pos..pos + bytesRemainingInBlock] && rest == data[pos + bytesRemainingInBlock..end]
      ensures AllInRange(state)
      ensures Healthy() <==> ValidBlocks(rest, channels, blockAlign)
      ensures Healthy() ==> Future() == Cached() + DecodeBytes(state, rem) + Decode(rest, channels, blockAlign)
      ensures Cached() == CachedView(cachedFrames, cachedFrameCount, channels)
    {
      hide ValidBlocks, Decode, DecodeBytes, CachedView, AllInRange;
    }

    lemma InBlock()
      requires Valid() && Healthy() && cachedFrameCount == 0
      ensures pos + bytesRemainingInBlock <= end <= |data| && AllInRange(state)
      ensures ValidBlocks(data[pos + bytesRemainingInBlock..end], channels, blockAlign)
      ensures Future() == DecodeBytes(state, data[pos..pos + bytesRemainingInBlock])
                          + Decode(data[pos + bytesRemainingInBlock..end], channels, blockAlign)
    {
      hide ValidBlocks, Decode, DecodeBytes, CachedView, AllInRange;
      assert Cached() == [];
    }

    /** A freshly decoded byte `rem[0]` sits in the cache; the rest of the block follows. */
    lemma ByteKeepsFuture(chs: seq<Channel>, rem: seq<byte>)
      requires Valid() && AllInRange(chs) && |chs| == channels && rem != []
      requires pos + bytesRemainingInBlock <= end <= |data| && rem[1..] == data[pos..pos + bytesRemainingInBlock]
      requires ValidBlocks(data[pos + bytesRemainingInBlock..end], channels, blockAlign)
      requires state == AfterByte(chs, rem[0]) && Cached() == ByteFrames(chs, rem[0])
      ensures Healthy()
      ensures Future() == DecodeBytes(chs, rem) + Decode(data[pos + bytesRemainingInBlock..end], channels, blockAlign)
    {
      hide *;
      FutureParts(rem[1..], data[pos + bytesRemainingInBlock..end]);
      DecodeBytesStep(chs, rem, 0);
    }

    lemma HealthyInside()
      requires Valid() && Healthy()
      ensures pos + bytesRemainingInBlock <= end <= |data|
    {
      hide ValidBlocks, AllInRange;
    }

    lemma BetweenBlocks(rest: seq<byte>)
      requires Valid() && Healthy() && cachedFrameCount == 0 && bytesRemainingInBlock == 0
      requires pos <= end <= |data| ==> rest == data[pos..end]
      ensures pos <= end <= |data|
      ensures ValidBlocks(rest, channels, blockAlign) && Future() == Decode(rest, channels, blockAlign)
      ensures if rest == [] then Future() == [] else |rest| >= 7 * channels
    {
      hide *;
      HealthyInside();
      HasHeader(rest, channels, blockAlign);
      assert data[pos..pos] == [];
      FutureParts([], rest);
      DecodeBytesEnd(state, 0);
      DecodeEnd(channels, blockAlign);
    }

    /** One nibble of a channel: the next sample, and the channel's state after it. */
    method DecodeNibble(c: Channel, n: nibble) returns (c': Channel)
      requires c.InRange()
      ensures c' == Step(c, n)
    {
      var newSample := (c.newer * COEFF1_TABLE[c.predictor] + c.older * COEFF2_TABLE[c.predictor]) / 256;
      newSample := Int32(newSample + (if n >= 8 then n - 16 else n) * c.delta);
      newSample := Clamp(newSample, -32768, 32767);
      var delta := Int32(ADAPTATION_TABLE[n] * c.delta) / 256;
      if delta < MIN_DELTA {
        delta := MIN_DELTA;
      }
      c' := Channel(c.predictor, delta, newSample, c.newer);
    }

    /** The high nibble comes first in mono, and is the left channel's in stereo. */
    method DecodeByte(b: byte)
      requires Valid()
      modifies this`state, this`cachedFrames, this`cachedFrameCount
      ensures Valid() && cachedFrameCount > 0
      ensures AllInRange(old(state))
      ensures state == AfterByte(old(state), b)
      ensures Cached() == ByteFrames(old(state), b)
    {
      hide Step, ValidBlocks, Decode, DecodeBytes;
      var first := DecodeNibble(state[0], b / 16);
      if channels == 1 {
        var second := DecodeNibble(first, b % 16);
        state := [second];
        cachedFrames := cachedFrames[2 := first.newer][3 := second.newer];
        cachedFrameCount := 2;
        assert cachedFrames[2..][..1] == [first.newer] && cachedFrames[3..][..1] == [second.newer];
      } else {
        var right := DecodeNibble(state[1], b % 16);
        state := [first, right];
        cachedFrames := cachedFrames[2 := first.newer][3 := right.newer];
        cachedFrameCount := 1;
        assert cachedFrames[2..][..2] == [first.newer, right.newer];
      }
    }

    method ReadOne()
      requires Valid() && pos < |data| && bytesRemainingInBlock != 0
      modifies this`pos, this`bytesRemainingInBlock
      ensures Valid() && pos == old(pos) + 1 && bytesRemainingInBlock == old(bytesRemainingInBlock) - 1
    {
      hide AllInRange;
      pos := pos + 1;
      bytesRemainingInBlock := bytesRemainingInBlock - 1;
    }

    /** Decodes the next byte of the block; false when there is none. */
    method LoadByte() returns (ok: bool)
      requires Valid() && cachedFrameCount == 0 && bytesRemainingInBlock != 0
      modifies this`pos, this`bytesRemainingInBlock, this`state, this`cachedFrames, this`cachedFrameCount
      ensures Valid()
      ensures cachedFrameCount > 0 <==> ok
      ensures old(Healthy()) ==> ok && Healthy() && Future() == old(Future())
    {
      hide *;
      ghost var chs, healthy := state, Healthy();
      if healthy {
        InBlock();
      }
      if pos == |data| {
        return false;
      }
      ghost var rem := if healthy then data[pos..pos + bytesRemainingInBlock] else [];
      var nibbles := data[pos];
      ReadOne();
      DecodeByte(nibbles);
      ok := true;
      if healthy {
        ByteKeepsFuture(chs, rem);
      }
    }

    lemma CachedComesFirst()
      requires Valid() && Healthy()
      ensures Cached() <= Future()
    {
      hide ValidBlocks, Decode, DecodeBytes, CachedView, AllInRange;
    }

    /** Hands out the oldest cached frame, sample by sample. */
    method Deliver(discard: bool) returns (out: seq<int>)
      requires Valid() && cachedFrameCount > 0
      modifies this`readCursorInPCMFrames, this`cachedFrameCount
      ensures Valid()
      ensures readCursorInPCMFrames == old(readCursorInPCMFrames) + 1
      ensures cachedFrameCount == old(cachedFrameCount) - 1
      ensures Cached() == old(Cached())[1..]
      ensures out == if discard then [] else old(Cached())[0]
      ensures old(Healthy()) ==> Healthy() && Future() == old(Future())[1..]
    {
      hide AllInRange, DecodeBytes, Decode, ValidBlocks, CachedView;
      ghost var cached := Cached();
      FirstCached(cachedFrames, cachedFrameCount, channels);
      assert Slot(cachedFrameCount, channels) == 4 - cachedFrameCount * channels;
      out := [];
      if !discard {
        var iSample := 0;
        while iSample < channels
          invariant iSample <= channels && out == cached[0][..iSample]
        {
          assert cached[0][iSample] == cachedFrames[Slot(cachedFrameCount, channels) + iSample];
          assert cached[0][..iSample + 1] == cached[0][..iSample] + [cached[0][iSample]];
          out := out + [cachedFrames[4 - cachedFrameCount * channels + iSample]];
          iSample := iSample + 1;
        }
      }
      readCursorInPCMFrames := readCursorInPCMFrames + 1;
      cachedFrameCount := cachedFrameCount - 1;
      assert Cached() == cached[1..];
    }

    /** The loop that outputs anything that is cached. */
    method DeliverCached(framesToRead: nat, discard: bool) returns (n: nat, out: seq<int>)
      requires Valid()
      modifies this`readCursorInPCMFrames, this`cachedFrameCount
      ensures Valid()
      ensures n <= framesToRead && n <= old(cachedFrameCount)
      ensures n == framesToRead || cachedFrameCount == 0 || readCursorInPCMFrames >= totalPCMFrameCount
      ensures readCursorInPCMFrames == old(readCursorInPCMFrames) + n
      ensures cachedFrameCount == old(cachedFrameCount) - n
      ensures out == if discard then [] else Flatten(old(Cached())[..n])
      ensures old(Healthy()) ==> Healthy() && n <= |old(Future())| && Future() == old(Future())[n..]
      ensures old(Healthy()) ==> old(Future())[..n] == old(Cached())[..n]
    {
      hide *;
      ghost var cached := Cached();
      assert |cached| == old(cachedFrameCount);
      ghost var healthy := Healthy();
      ghost var frames := if healthy then Future() else [];
      if healthy {
        CachedComesFirst();
      }
      FlattenEmpty(cached);
      n, out := 0, [];
      while n < framesToRead && cachedFrameCount > 0 && readCursorInPCMFrames < totalPCMFrameCount
        invariant Valid() && n <= framesToRead && n <= |cached|
        invariant readCursorInPCMFrames == old(readCursorInPCMFrames) + n
        invariant cachedFrameCount == |cached| - n
        invariant Cached() == cached[n..]
        invariant out == if discard then [] else Flatten(cached[..n])
        invariant healthy ==> Healthy() && n <= |frames| && Future() == frames[n..]
      {
        FlattenPush(cached, n);
        var samples := Deliver(discard);
        out := out + samples;
        n := n + 1;
      }
    }

    /** One pass through the reader's loop; `ok` is false when it must give up. */
    method ReadSome(framesToRead: nat, discard: bool) returns (ok: bool, n: nat, out: seq<int>)
      requires Valid() && framesToRead > 0 && readCursorInPCMFrames < totalPCMFrameCount
      modifies this
      ensures n <= framesToRead && (ok ==> Valid())
      ensures readCursorInPCMFrames == old(readCursorInPCMFrames) + n
      ensures ok && n == 0 ==> old(cachedFrameCount) == 0 && cachedFrameCount > 0
      ensures old(Healthy()) && |old(Future())| > 0 ==>
                && (n < framesToRead && n < |old(Future())| ==> ok)
                && Valid() && Healthy() && n <= |old(Future())| && Future() == old(Future())[n..]
                && out == if discard then [] else Flatten(old(Future())[..n])
    {
      hide *;
      n, out := 0, [];
      ghost var frames := if Healthy() then Future() else [];
      FlattenEmpty(frames);
      if cachedFrameCount == 0 && bytesRemainingInBlock == 0 {
        ok := LoadHeader();
        if !ok {
          return;
        }
      }
      n, out := DeliverCached(framesToRead, discard);
      ok := true;
      if n < framesToRead && cachedFrameCount == 0 && bytesRemainingInBlock != 0 {
        ok := LoadByte();
      }
    }

    /**
     drwav_read_pcm_frames_s16__msadpcm. `out` is what goes to the caller's buffer; a null buffer is
     `discard`.
     */
    method ReadFrames(framesToRead: nat, discard: bool) returns (totalFramesRead: nat, out: seq<int>)
      requires Valid() && framesToRead > 0
      modifies this
      ensures totalFramesRead <= framesToRead
      ensures readCursorInPCMFrames == old(readCursorInPCMFrames) + totalFramesRead
      ensures old(Healthy()) && old(readCursorInPCMFrames + |Future()|) == totalPCMFrameCount ==>
                && Valid() && Healthy()
                && totalFramesRead == |Prefix(old(Future()), framesToRead)|
                && Future() == Rest(old(Future()), framesToRead)
                && readCursorInPCMFrames + |Future()| == totalPCMFrameCount
                && out == if discard then [] else Flatten(Prefix(old(Future()), framesToRead))
    {
      hide *;
      ghost var healthy := Healthy() && readCursorInPCMFrames + |Future()| == totalPCMFrameCount;
      ghost var frames := if healthy then Future() else [];
      FlattenEmpty(frames);
      totalFramesRead, out := 0, [];
      var ok := true;
      while ok && totalFramesRead < framesToRead && readCursorInPCMFrames < totalPCMFrameCount
        invariant (ok ==> Valid()) && totalFramesRead <= framesToRead
        invariant readCursorInPCMFrames == old(readCursorInPCMFrames) + totalFramesRead
        invariant healthy ==> Valid() && Healthy() && totalFramesRead <= |frames| && Future() == frames[totalFramesRead..]
        invariant healthy ==> ok || totalFramesRead == framesToRead || totalFramesRead == |frames|
        invariant healthy ==> out == if discard then [] else Flatten(frames[..totalFramesRead])
        decreases ok, totalPCMFrameCount - readCursorInPCMFrames, if cachedFrameCount == 0 then 1 else 0
      {
        var more, n, samples := ReadSome(framesToRead - totalFramesRead, discard);
        if healthy {
          FlattenSplit(frames, totalFramesRead, n);
        }
        ok, out, totalFramesRead := more, out + samples, totalFramesRead + n;
      }
      if healthy {
        PrefixAndRest(frames, framesToRead, totalFramesRead);
      }
    }

    /**
     However the frames still to be delivered are asked for, the caller gets the same samples: as
     many frames as were asked for in all, or all there are.
     */
    method ReadInPieces(sizes: seq<Count>) returns (out: seq<int>)
      requires Valid() && Healthy() && readCursorInPCMFrames + |Future()| == totalPCMFrameCount
      modifies this
      ensures out == Flatten(Prefix(old(Future()), Sum(sizes)))
    {
      hide *;
      ghost var frames := Future();
      PrefixNone(frames);
      SumStep(sizes);
      if sizes == [] {
        return [];
      }
      PrefixSplit(frames, sizes[0], Sum(sizes[1..]));
      var n, first := ReadFrames(sizes[0], false);
      var rest := ReadInPieces(sizes[1..]);
      out := first + rest;
    }
  }

  /** Sample `t` of channel `c` of block `k`, at its place in the decoded stream. */
  lemma {:induction false} DecodeIsRefSample(s: seq<byte>, ch: nat, blockAlign: nat, k: nat, c: nat, t: nat)
    requires c < ch <= 2 && ValidBlocks(s, ch, blockAlign)
    requires Times(k + 1, blockAlign) <= |s| && s != [] && t < FramesPerBlock(ch, blockAlign)
    ensures 0 <= Times(k, blockAlign) <= Times(k + 1, blockAlign)
    ensures var block := s[Times(k, blockAlign)..Times(k + 1, blockAlign)];
            var i := Times(k, FramesPerBlock(ch, blockAlign)) + t;
            && ValidBlock(block, ch)
            && t <= 1 + |ChannelNibbles(block[7 * ch..], ch, c)|
            && 0 <= i < |Decode(s, ch, blockAlign)|
            && |Decode(s, ch, blockAlign)[i]| == ch
            && Decode(s, ch, blockAlign)[i][c] == RefSample(block, ch, c, t)
    decreases k
  {
    hide *;
    var per: nat := FramesPerBlock(ch, blockAlign);
    TimesStep(k, blockAlign);
    DecodeStep(s, ch, blockAlign);
    if k == 0 {
      DecodeBlockIsRefSample(s[..blockAlign], ch, c, t);
      TimesStep(0, per);
      assert s[0..blockAlign] == s[..blockAlign];
    } else {
      TimesStep(k - 1, blockAlign);
      TimesStep(k - 1, per);
      var rest := s[blockAlign..];
      DecodeIsRefSample(rest, ch, blockAlign, k - 1, c, t);
      SliceOfRest(s, blockAlign, Times(k - 1, blockAlign), Times(k, blockAlign));
    }
  }
}
