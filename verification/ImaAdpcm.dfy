/**
 The IMA ADPCM reader of dr_wav: a resumable decoder that keeps block bytes, a frame cache and
 one predictor and step index per channel between calls.

 Three descriptions of the decoded audio meet here. `RefSample` gives sample `t` of a channel of
 a block straight from the block's bytes. `Decode` decodes a data chunk block by block and group
 by group. `ImaReader` is the code: fields, cache and loops. The reader is proved to deliver a
 prefix of `Decode`, and `Decode` to agree with `RefSample`.
 */
module ImaAdpcm {
  import opened Arith
  import opened Bytes
  import opened PcmFrames

  const INDEX_TABLE: seq<int> := [-1, -1, -1, -1, 2, 4, 6, 8, -1, -1, -1, -1, 2, 4, 6, 8]

  const STEP_TABLE: seq<int> :=
    [7, 8, 9, 10, 11, 12, 13, 14, 16, 17] +
    [19, 21, 23, 25, 28, 31, 34, 37, 41, 45] +
    [50, 55, 60, 66, 73, 80, 88, 97, 107, 118] +
    [130, 143, 157, 173, 190, 209, 230, 253, 279, 307] +
    [337, 371, 408, 449, 494, 544, 598, 658, 724, 796] +
    [876, 963, 1060, 1166, 1282, 1411, 1552, 1707, 1878, 2066] +
    [2272, 2499, 2749, 3024, 3327, 3660, 4026, 4428, 4871, 5358] +
    [5894, 6484, 7132, 7845, 8630, 9493, 10442, 11487, 12635, 13899] +
    [15289, 16818, 18500, 20350, 22385, 24623, 27086, 29794, 32767]

  lemma TableSizes()
    ensures |INDEX_TABLE| == 16 && |STEP_TABLE| == 89
  {
  }

  type nibble = x: int | 0 <= x < 16

  /** What the decoder remembers about a channel between two nibbles. */
  datatype Channel = Channel(predictor: int, stepIndex: int) {
    predicate InRange() {
      -0x8000 <= predictor < 0x8000 && 0 <= stepIndex < 89
    }
  }

  function Diff(step: int, n: nibble): int {
    var d := step / 8
             + (if n % 2 == 1 then step / 4 else 0)
             + (if n / 2 % 2 == 1 then step / 2 else 0)
             + (if n / 4 % 2 == 1 then step else 0);
    if n >= 8 then -d else d
  }

  function Step(c: Channel, n: nibble): (c': Channel)
    requires c.InRange()
    ensures c'.InRange()
  {
    Channel(Clamp(c.predictor + Diff(STEP_TABLE[c.stepIndex], n), -32768, 32767),
            Clamp(c.stepIndex + INDEX_TABLE[n], 0, 88))
  }

  /**
   The shifts of the decoder lose at most 17/8 of the exact difference (2m + 1) * step / 8 of the
   IMA reference algorithm, where m is the magnitude part of the nibble.
   */
  lemma DiffMagnitude(step: nat, n: nibble)
    ensures var m, d := n % 8, if n >= 8 then -Diff(step, n) else Diff(step, n);
            8 * d <= (2 * m + 1) * step <= 8 * d + 17
  {
    var m, b0, b1, b2 := n % 8, n % 2 == 1, n / 2 % 2 == 1, n / 4 % 2 == 1;
    hide *;
    NibbleBits(n);
    DiffIs(step, n);
    Weighed(step, b0, b1, b2);
    Eighths(step, b0, b1, b2);
  }

  /** The magnitude that is added up for three bits. */
  function Magnitude(step: int, b0: bool, b1: bool, b2: bool): int {
    step / 8 + (if b0 then step / 4 else 0) + (if b1 then step / 2 else 0) + (if b2 then step else 0)
  }

  lemma DiffIs(step: int, n: nibble)
    ensures var d := Magnitude(step, n % 2 == 1, n / 2 % 2 == 1, n / 4 % 2 == 1);
            Diff(step, n) == if n >= 8 then 0 - d else d
  {
  }

  lemma NibbleBits(n: nibble)
    ensures n % 8 == (if n % 2 == 1 then 1 else 0) + (if n / 2 % 2 == 1 then 2 else 0) + (if n / 4 % 2 == 1 then 4 else 0)
  {
  }

  /** (2m + 1) * step, for the three bits of m. */
  lemma Weighed(step: nat, b0: bool, b1: bool, b2: bool)
    ensures var m := (if b0 then 1 else 0) + (if b1 then 2 else 0) + (if b2 then 4 else 0);
            (2 * m + 1) * step
            == step + (if b0 then 2 * step else 0) + (if b1 then 4 * step else 0) + (if b2 then 8 * step else 0)
  {
  }

  lemma Eighths(step: nat, b0: bool, b1: bool, b2: bool)
    ensures var w := step + (if b0 then 2 * step else 0) + (if b1 then 4 * step else 0) + (if b2 then 8 * step else 0);
            8 * Magnitude(step, b0, b1, b2) <= w <= 8 * Magnitude(step, b0, b1, b2) + 17
  {
  }

  // ---- The format, straight from the block bytes ----

  function HeaderSize(ch: nat): nat {
    4 * ch
  }

  /** The nibbles of a run of bytes, low half first. */
  function Nibbles(b: seq<byte>): (n: seq<nibble>)
    ensures |n| == 2 * |b|
  {
    seq(2 * |b|, i requires 0 <= i < 2 * |b| => if i % 2 == 0 then b[i / 2] % 16 else b[i / 2] / 16)
  }

  function After(c: Channel, n: seq<nibble>, t: nat): (c': Channel)
    requires c.InRange() && t <= |n|
    ensures c'.InRange()
  {
    if t == 0 then c else Step(After(c, n, t - 1), n[t - 1])
  }

  /** The channel state a block header holds, if its step index is one of the table's. */
  function HeaderChannel(block: seq<byte>, c: nat): Channel
    requires 4 * c + 4 <= |block|
  {
    Channel(GetS16(block, 4 * c), block[4 * c + 2])
  }

  predicate ValidHeader(block: seq<byte>, ch: nat) {
    HeaderSize(ch) <= |block| && forall c :: 0 <= c < ch ==> HeaderChannel(block, c).InRange()
  }

  /** `n` bytes are whole groups of four bytes per channel. */
  predicate WholeGroups(n: int, ch: nat) {
    if ch == 1 then n % 4 == 0 else n % 8 == 0
  }

  /** Whole groups follow the header. */
  predicate ValidBlock(block: seq<byte>, ch: nat)
    requires ch > 0
  {
    ValidHeader(block, ch) && WholeGroups(|block| - 4 * ch, ch)
  }

  /** The four bytes of channel `c` in the group that `g` starts with. */
  function Part(g: seq<byte>, c: nat): (p: seq<byte>)
    requires 4 * c + 4 <= |g|
    ensures |p| == 4
  {
    g[4 * c..4 * c + 4]
  }

  /** The bytes of channel `c`, taken out of groups in which every channel has four bytes. */
  function ChannelBytes(s: seq<byte>, ch: nat, c: nat): (b: seq<byte>)
    requires c < ch
    decreases |s|
  {
    if |s| < 4 * ch then [] else Part(s, c) + ChannelBytes(s[4 * ch..], ch, c)
  }

  /** Sample `t` of channel `c` of a block: plain IMA ADPCM on that channel's bytes alone. */
  function RefSample(block: seq<byte>, ch: nat, c: nat, t: nat): int
    requires c < ch && ValidBlock(block, ch)
    requires t <= 2 * |ChannelBytes(block[4 * ch..], ch, c)|
  {
    After(HeaderChannel(block, c), Nibbles(ChannelBytes(block[4 * ch..], ch, c)), t).predictor
  }

  // ---- Decoding block by block, group by group ----

  predicate AllInRange(chs: seq<Channel>) {
    forall c :: 0 <= c < |chs| ==> chs[c].InRange()
  }

  function GroupFrame(chs: seq<Channel>, g: seq<byte>, t: nat): (f: Frame)
    requires AllInRange(chs) && |g| >= 4 * |chs| && t <= 8
    ensures |f| == |chs|
  {
    seq(|chs|, c requires 0 <= c < |chs| => After(chs[c], Nibbles(Part(g, c)), t).predictor)
  }

  function GroupFrames(chs: seq<Channel>, g: seq<byte>): (f: seq<Frame>)
    requires AllInRange(chs) && |g| >= 4 * |chs|
    ensures |f| == 8
  {
    seq(8, t requires 0 <= t < 8 => GroupFrame(chs, g, t + 1))
  }

  function AfterGroup(chs: seq<Channel>, g: seq<byte>): (chs': seq<Channel>)
    requires AllInRange(chs) && |g| >= 4 * |chs|
    ensures |chs'| == |chs| && AllInRange(chs')
  {
    seq(|chs|, c requires 0 <= c < |chs| => After(chs[c], Nibbles(Part(g, c)), 8))
  }

  function DecodeGroups(chs: seq<Channel>, s: seq<byte>): (f: seq<Frame>)
    requires |chs| > 0 && AllInRange(chs)
    decreases |s|
  {
    if |s| < 4 * |chs| then []
    else GroupFrames(chs, s) + DecodeGroups(AfterGroup(chs, s), s[4 * |chs|..])
  }

  function HeaderChannels(block: seq<byte>, ch: nat): (chs: seq<Channel>)
    requires ValidHeader(block, ch)
    ensures |chs| == ch && AllInRange(chs)
  {
    seq(ch, c requires 0 <= c < ch => HeaderChannel(block, c))
  }

  function Predictors(chs: seq<Channel>): (f: Frame)
    ensures |f| == |chs|
  {
    seq(|chs|, c requires 0 <= c < |chs| => chs[c].predictor)
  }

  function DecodeBlock(block: seq<byte>, ch: nat): seq<Frame>
    requires ch > 0 && ValidBlock(block, ch)
  {
    var chs := HeaderChannels(block, ch);
    [Predictors(chs)] + DecodeGroups(chs, block[4 * ch..])
  }

  /** A data chunk made of whole, valid blocks. */
  predicate ValidBlocks(s: seq<byte>, ch: nat, blockAlign: nat)
    requires ch > 0
    decreases |s|
  {
    s == [] || (0 < blockAlign <= |s| && ValidBlock(s[..blockAlign], ch) && ValidBlocks(s[blockAlign..], ch, blockAlign))
  }

  function Decode(s: seq<byte>, ch: nat, blockAlign: nat): seq<Frame>
    requires ch > 0 && ValidBlocks(s, ch, blockAlign)
    decreases |s|
  {
    if s == [] then [] else DecodeBlock(s[..blockAlign], ch) + Decode(s[blockAlign..], ch, blockAlign)
  }

  // ---- The two descriptions agree ----

  lemma {:induction false} AfterConcat(c: Channel, m: seq<nibble>, n: seq<nibble>, t: nat)
    requires c.InRange() && t <= |n|
    ensures After(c, m + n, |m| + t) == After(After(c, m, |m|), n, t)
    decreases t
  {
    hide Step;
    if t == 0 {
      AfterPrefix(c, m, n, |m|);
    } else {
      AfterConcat(c, m, n, t - 1);
      assert (m + n)[|m| + t - 1] == n[t - 1];
    }
  }

  lemma {:induction false} AfterPrefix(c: Channel, m: seq<nibble>, n: seq<nibble>, t: nat)
    requires c.InRange() && t <= |m|
    ensures After(c, m + n, t) == After(c, m, t)
  {
    hide Step;
    if t > 0 {
      AfterPrefix(c, m, n, t - 1);
    }
  }

  lemma NibblesConcat(a: seq<byte>, b: seq<byte>)
    ensures Nibbles(a + b) == Nibbles(a) + Nibbles(b)
  {
  }

  lemma {:induction false} ChannelBytesLength(s: seq<byte>, ch: nat, c: nat)
    requires c < ch <= 2 && WholeGroups(|s|, ch)
    ensures |ChannelBytes(s, ch, c)| * ch == |s|
    decreases |s|
  {
    if |s| >= 4 * ch {
      ChannelBytesLength(s[4 * ch..], ch, c);
      assert ch == 1 || ch == 2;
    } else {
      assert |s| == 0;
    }
  }

  /** Interleaved decoding gives channel `c` what decoding its bytes alone gives. */
  lemma {:induction false} GroupsAreChannels(chs: seq<Channel>, s: seq<byte>, c: nat, t: nat)
    requires c < |chs| && AllInRange(chs)
    requires t < |DecodeGroups(chs, s)|
    ensures |DecodeGroups(chs, s)| == 2 * |ChannelBytes(s, |chs|, c)|
    ensures |DecodeGroups(chs, s)[t]| == |chs|
    ensures DecodeGroups(chs, s)[t][c] == After(chs[c], Nibbles(ChannelBytes(s, |chs|, c)), t + 1).predictor
    decreases |s|
  {
    var p, rest := Part(s, c), s[4 * |chs|..];
    var q := ChannelBytes(rest, |chs|, c);
    NibblesConcat(p, q);
    if t < 8 {
      AfterPrefix(chs[c], Nibbles(p), Nibbles(q), t + 1);
      if |DecodeGroups(AfterGroup(chs, s), rest)| > 0 {
        GroupsAreChannels(AfterGroup(chs, s), rest, c, 0);
      }
    } else {
      GroupsAreChannels(AfterGroup(chs, s), rest, c, t - 8);
      AfterConcat(chs[c], Nibbles(p), Nibbles(q), t - 7);
    }
  }

  /** Frame `t` of a block holds sample `t` of every channel. */
  lemma DecodeBlockIsRefSample(block: seq<byte>, ch: nat, c: nat, t: nat)
    requires c < ch <= 2 && ValidBlock(block, ch) && t < |DecodeBlock(block, ch)|
    ensures |DecodeBlock(block, ch)| == 1 + 2 * (|block| - 4 * ch) / ch
    ensures t <= 2 * |ChannelBytes(block[4 * ch..], ch, c)|
    ensures |DecodeBlock(block, ch)[t]| == ch
    ensures DecodeBlock(block, ch)[t][c] == RefSample(block, ch, c, t)
  {
    var chs, s := HeaderChannels(block, ch), block[4 * ch..];
    ChannelBytesLength(s, ch, c);
    if |DecodeGroups(chs, s)| > 0 {
      GroupsAreChannels(chs, s, c, if t > 0 then t - 1 else 0);
    }
  }

  /** The number of frames a block decodes to: one from the header, two per payload byte and channel. */
  lemma DecodeBlockLength(block: seq<byte>, ch: nat)
    requires 1 <= ch <= 2 && ValidBlock(block, ch)
    ensures |DecodeBlock(block, ch)| == 1 + 2 * (|block| - 4 * ch) / ch
  {
    DecodeBlockIsRefSample(block, ch, 0, 0);
  }

  // ---- The frame count ----

  /** totalPCMFrameCount, as the reader derives it from the size of the data chunk. */
  function TotalFrames(size: nat, ch: nat, blockAlign: nat): int
    requires blockAlign > 0 && ch > 0
  {
    var n := BlockCount(size, blockAlign);
    ((size - n * (4 * ch)) * 2) / ch + n
  }

  function FramesPerBlock(ch: nat, blockAlign: nat): int
    requires ch > 0
  {
    1 + 2 * (blockAlign - 4 * ch) / ch
  }

  lemma {:induction false} DecodeLengthByBlocks(s: seq<byte>, ch: nat, blockAlign: nat, k: int) returns (n: nat)
    requires 1 <= ch <= 2 && ValidBlocks(s, ch, blockAlign) && k == FramesPerBlock(ch, blockAlign)
    ensures |s| == n * blockAlign && |Decode(s, ch, blockAlign)| == n * k
    decreases |s|
  {
    if s == [] {
      n := 0;
    } else {
      n := DecodeLengthByBlocks(s[blockAlign..], ch, blockAlign, k);
      DecodeBlockLength(s[..blockAlign], ch);
      MulSucc(n, k);
      MulSucc(n, blockAlign);
      n := n + 1;
    }
  }

  lemma FrameFormula(n: nat, ch: nat, blockAlign: nat)
    requires 1 <= ch <= 2 && 0 < blockAlign
    ensures TotalFrames(n * blockAlign, ch, blockAlign) == n * FramesPerBlock(ch, blockAlign)
  {
    DivModUnique(n, blockAlign, 0);
    if ch == 1 {
      assert n * FramesPerBlock(1, blockAlign) == n + 2 * (n * blockAlign - n * 4);
    } else {
      assert FramesPerBlock(2, blockAlign) == 1 + (blockAlign - 8);
      assert n * (1 + (blockAlign - 8)) == n + (n * blockAlign - n * 8);
    }
  }

  /** On a chunk of whole valid blocks the formula is the number of frames the decoder produces. */
  lemma TotalFramesIsDecodeLength(s: seq<byte>, ch: nat, blockAlign: nat)
    requires 1 <= ch <= 2 && 0 < blockAlign && ValidBlocks(s, ch, blockAlign)
    ensures TotalFrames(|s|, ch, blockAlign) == |Decode(s, ch, blockAlign)|
  {
    var n := DecodeLengthByBlocks(s, ch, blockAlign, FramesPerBlock(ch, blockAlign));
    FrameFormula(n, ch, blockAlign);
  }

  /** Where the cache holds the first of its last `left` frames. */
  function Slot(left: nat, ch: nat): (i: nat)
    requires left <= 8 && 1 <= ch <= 2
    ensures i == 16 - left * ch
  {
    if ch == 1 then 16 - left else 16 - 2 * left
  }

  /** The last `count` frames of the cache. */
  function CachedView(cache: seq<int>, count: nat, ch: nat): (f: seq<Frame>)
    requires |cache| == 16 && count <= 8 && 1 <= ch <= 2
    ensures |f| == count
  {
    seq(count, k requires 0 <= k < count => cache[Slot(count - k, ch)..][..ch])
  }

  /** Sample `t` of channel `c` in a cache that holds a whole group. */
  function GroupSample(cache: seq<int>, ch: nat, c: nat, t: nat): int
    requires |cache| == 16 && c < ch <= 2 && t < 8
  {
    cache[Slot(8 - t, ch) + c]
  }

  /** `cache` after the first `n` samples of channel `c`, decoded from state `s`, went to their places. */
  function PutSamples(cache: seq<int>, ch: nat, c: nat, s: Channel, ns: seq<nibble>, n: nat): (r: seq<int>)
    requires |cache| == 16 && c < ch <= 2 && n <= 8 && n <= |ns| && s.InRange()
    ensures |r| == 16
  {
    if n == 0 then cache
    else PutSamples(cache, ch, c, s, ns, n - 1)[Slot(9 - n, ch) + c := After(s, ns, n).predictor]
  }

  lemma NoSamples(cache: seq<int>, ch: nat, c: nat, s: Channel, ns: seq<nibble>)
    requires |cache| == 16 && c < ch <= 2 && s.InRange()
    ensures After(s, ns, 0) == s && PutSamples(cache, ch, c, s, ns, 0) == cache
  {
  }

  lemma TwoSamples(cache: seq<int>, ch: nat, c: nat, s: Channel, b: seq<byte>, i: nat)
    requires |cache| == 16 && c < ch <= 2 && i < 4 == |b| && s.InRange()
    ensures var ns := Nibbles(b);
            var s1 := Step(After(s, ns, 2 * i), b[i] % 16);
            var s2 := Step(s1, b[i] / 16);
            && After(s, ns, 2 * (i + 1)) == s2
            && PutSamples(cache, ch, c, s, ns, 2 * (i + 1))
               == PutSamples(cache, ch, c, s, ns, 2 * i)[Slot(8 - 2 * i, ch) + c := s1.predictor]
                                                        [Slot(7 - 2 * i, ch) + c := s2.predictor]
  {
    hide *;
    var ns := Nibbles(b);
    NibblesAt(b, i);
    OneSample(cache, ch, c, s, ns, 2 * i);
    OneSample(cache, ch, c, s, ns, 2 * i + 1);
  }

  lemma NibblesAt(b: seq<byte>, i: nat)
    requires i < |b|
    ensures |Nibbles(b)| == 2 * |b| && Nibbles(b)[2 * i] == b[i] % 16 && Nibbles(b)[2 * i + 1] == b[i] / 16
  {
  }

  lemma OneSample(cache: seq<int>, ch: nat, c: nat, s: Channel, ns: seq<nibble>, n: nat)
    requires |cache| == 16 && c < ch <= 2 && n < 8 && n < |ns| && s.InRange()
    ensures After(s, ns, n + 1) == Step(After(s, ns, n), ns[n])
    ensures PutSamples(cache, ch, c, s, ns, n + 1)
            == PutSamples(cache, ch, c, s, ns, n)[Slot(8 - n, ch) + c := After(s, ns, n + 1).predictor]
  {
    hide Step;
  }

  lemma {:induction false} PutSamplesAt(cache: seq<int>, ch: nat, c: nat, s: Channel, ns: seq<nibble>, n: nat, c': nat, t: nat)
    requires |cache| == 16 && c < ch <= 2 && n <= 8 && n <= |ns| && s.InRange()
    requires c' < ch && t < 8
    ensures GroupSample(PutSamples(cache, ch, c, s, ns, n), ch, c', t)
            == if c' == c && t < n then After(s, ns, t + 1).predictor else GroupSample(cache, ch, c', t)
  {
    hide Step, After;
    if n > 0 {
      PutSamplesAt(cache, ch, c, s, ns, n - 1, c', t);
    }
  }

  /** `cache` after the first `k` channels of group `g` were decoded into it. */
  function PutGroup(cache: seq<int>, chs: seq<Channel>, g: seq<byte>, k: nat): (r: seq<int>)
    requires |cache| == 16 && k <= |chs| <= 2 && |g| >= 4 * |chs| && AllInRange(chs)
    ensures |r| == 16
  {
    if k == 0 then cache
    else PutSamples(PutGroup(cache, chs, g, k - 1), |chs|, k - 1, chs[k - 1], Nibbles(Part(g, k - 1)), 8)
  }

  lemma {:induction false} PutGroupAt(cache: seq<int>, chs: seq<Channel>, g: seq<byte>, k: nat, c: nat, t: nat)
    requires |cache| == 16 && c < k <= |chs| <= 2 && |g| >= 4 * |chs| && AllInRange(chs) && t < 8
    ensures GroupSample(PutGroup(cache, chs, g, k), |chs|, c, t) == GroupFrame(chs, g, t + 1)[c]
  {
    PutSamplesAt(PutGroup(cache, chs, g, k - 1), |chs|, k - 1, chs[k - 1], Nibbles(Part(g, k - 1)), 8, c, t);
    if c < k - 1 {
      PutGroupAt(cache, chs, g, k - 1, c, t);
    }
  }

  lemma CachedViewAt(cache: seq<int>, ch: nat, c: nat, t: nat)
    requires |cache| == 16 && c < ch <= 2 && t < 8
    ensures |CachedView(cache, 8, ch)[t]| == ch && CachedView(cache, 8, ch)[t][c] == GroupSample(cache, ch, c, t)
  {
  }

  lemma GroupFramesAt(chs: seq<Channel>, g: seq<byte>, t: nat)
    requires AllInRange(chs) && |g| >= 4 * |chs| && t < 8
    ensures GroupFrames(chs, g)[t] == GroupFrame(chs, g, t + 1)
  {
  }

  /** After all channels the cache holds the frames of the group. */
  lemma PutGroupIsGroupFrames(cache: seq<int>, chs: seq<Channel>, g: seq<byte>)
    requires |cache| == 16 && 1 <= |chs| <= 2 && |g| >= 4 * |chs| && AllInRange(chs)
    ensures CachedView(PutGroup(cache, chs, g, |chs|), 8, |chs|) == GroupFrames(chs, g)
  {
    hide *;
    var r := PutGroup(cache, chs, g, |chs|);
    forall t | 0 <= t < 8 ensures CachedView(r, 8, |chs|)[t] == GroupFrames(chs, g)[t] {
      var f := CachedView(r, 8, |chs|)[t];
      CachedViewAt(r, |chs|, 0, t);
      GroupFramesAt(chs, g, t);
      forall c | 0 <= c < |chs| ensures f[c] == GroupFrame(chs, g, t + 1)[c] {
        PutGroupAt(cache, chs, g, |chs|, c, t);
        CachedViewAt(r, |chs|, c, t);
      }
    }
  }

  lemma WholeGroupsNext(n: nat, ch: nat)
    requires 1 <= ch <= 2 && WholeGroups(n, ch) && n > 0
    ensures n >= 4 * ch && WholeGroups(n - 4 * ch, ch)
  {
  }

  lemma FourLess(n: u32, i: nat)
    ensures Sub32((n - 4 * i) % 0x1_0000_0000, 4) == (n - 4 * (i + 1)) % 0x1_0000_0000
    ensures (n - 4 * 0) % 0x1_0000_0000 == n
  {
    var q, r := (n - 4 * i) / 0x1_0000_0000, (n - 4 * i) % 0x1_0000_0000;
    DivModUnique(0, 0x1_0000_0000, n);
    if r >= 4 {
      DivModUnique(q, 0x1_0000_0000, r - 4);
      DivModUnique(0, 0x1_0000_0000, r - 4);
    } else {
      DivModUnique(q - 1, 0x1_0000_0000, r - 4 + 0x1_0000_0000);
      DivModUnique(-1, 0x1_0000_0000, r - 4 + 0x1_0000_0000);
    }
  }

  lemma SubGroup(n: u32, ch: nat)
    requires 4 * ch <= n
    ensures (n - 4 * ch) % 0x1_0000_0000 == n - 4 * ch
  {
  }

  lemma SubHeader(blockAlign: u16, ch: nat)
    requires 4 * ch <= blockAlign
    ensures Sub32(blockAlign, 4 * ch) == blockAlign - 4 * ch
  {
  }

  lemma ChannelsAre(chs: seq<Channel>, block: seq<byte>, ch: nat)
    requires ValidHeader(block, ch) && |chs| == ch && forall c :: 0 <= c < ch ==> chs[c] == HeaderChannel(block, c)
    ensures chs == HeaderChannels(block, ch)
  {
    hide HeaderChannel, ValidHeader;
  }

  /** The first block of valid ones. */
  lemma BlockIs(s: seq<byte>, ch: nat, blockAlign: nat)
    requires 1 <= ch <= 2 && ValidBlocks(s, ch, blockAlign) && s != []
    ensures 4 * ch <= blockAlign <= |s| && WholeGroups(blockAlign - 4 * ch, ch) && ValidHeader(s[..blockAlign], ch)
    ensures ValidBlocks(s[blockAlign..], ch, blockAlign)
    ensures s[2] < 89 && (ch == 2 ==> s[6] < 89)
    ensures forall c :: 0 <= c < ch ==> HeaderChannel(s[..blockAlign], c) == HeaderChannel(s, c)
    ensures var chs := HeaderChannels(s[..blockAlign], ch);
            Decode(s, ch, blockAlign)
            == [Predictors(chs)] + DecodeGroups(chs, s[..blockAlign][4 * ch..]) + Decode(s[blockAlign..], ch, blockAlign)
  {
    hide DecodeGroups, Predictors, HeaderChannels, WholeGroups;
    assert ValidBlock(s[..blockAlign], ch);
    HeaderIs(s, ch, blockAlign);
  }

  lemma HeaderIs(s: seq<byte>, ch: nat, n: nat)
    requires 1 <= ch <= 2 && n <= |s| && ValidHeader(s[..n], ch)
    ensures 4 * ch <= n && s[2] < 89 && (ch == 2 ==> s[6] < 89)
    ensures forall c :: 0 <= c < ch ==> HeaderChannel(s[..n], c) == HeaderChannel(s, c)
  {
    hide GetS16;
    assert HeaderChannel(s[..n], 0).InRange() && (ch == 2 ==> HeaderChannel(s[..n], 1).InRange());
    HeaderPrefix(s, ch, n);
  }

  lemma HeaderPrefix(s: seq<byte>, ch: nat, n: nat)
    requires 4 * ch <= n <= |s|
    ensures forall c :: 0 <= c < ch ==> HeaderChannel(s[..n], c) == HeaderChannel(s, c)
  {
    hide GetS16;
    forall c | 0 <= c < ch ensures HeaderChannel(s[..n], c) == HeaderChannel(s, c) {
      S16InPrefix(s, n, 4 * c);
    }
  }

  lemma S16InPrefix(s: seq<byte>, n: nat, i: nat)
    requires i + 2 <= n <= |s|
    ensures GetS16(s[..n], i) == GetS16(s, i)
  {
  }

  lemma NothingLeft(cache: seq<int>, chs: seq<Channel>, ch: nat, blockAlign: nat)
    requires |cache| == 16 && 1 <= ch <= 2 && AllInRange(chs) && |chs| == ch
    ensures CachedView(cache, 0, ch) == [] && DecodeGroups(chs, []) == []
    ensures ValidBlocks([], ch, blockAlign) && Decode([], ch, blockAlign) == []
  {
  }

  lemma DecodeGroupsStep(chs: seq<Channel>, s: seq<byte>)
    requires 0 < |chs| && AllInRange(chs) && |s| >= 4 * |chs|
    ensures DecodeGroups(chs, s) == GroupFrames(chs, s) + DecodeGroups(AfterGroup(chs, s), s[4 * |chs|..])
  {
  }

  lemma FirstCached(cache: seq<int>, count: nat, ch: nat)
    requires |cache| == 16 && 0 < count <= 8 && 1 <= ch <= 2
    ensures CachedView(cache, count, ch)[0] == cache[Slot(count, ch)..][..ch]
    ensures CachedView(cache, count - 1, ch) == CachedView(cache, count, ch)[1..]
  {
    forall k | 0 <= k < count - 1 ensures CachedView(cache, count - 1, ch)[k] == CachedView(cache, count, ch)[1..][k] {
      assert count - 1 - k == count - (k + 1);
    }
  }

  lemma NothingDecoded(cache: seq<int>, chs: seq<Channel>, g: seq<byte>)
    requires |cache| == 16 && |chs| <= 2 && |g| >= 4 * |chs| && AllInRange(chs)
    ensures PutGroup(cache, chs, g, 0) == cache && PartlyAfter(chs, g, 0) == chs
    ensures PartlyAfter(chs, g, |chs|) == AfterGroup(chs, g)
  {
  }

  lemma NextChannelDecoded(cache: seq<int>, chs: seq<Channel>, g: seq<byte>, k: nat)
    requires |cache| == 16 && k < |chs| <= 2 && |g| >= 4 * |chs| && AllInRange(chs)
    ensures PutGroup(cache, chs, g, k + 1)
            == PutSamples(PutGroup(cache, chs, g, k), |chs|, k, chs[k], Nibbles(Part(g, k)), 8)
  {
  }

  /** A group depends only on its own bytes. */
  lemma GroupPrefix(chs: seq<Channel>, g: seq<byte>, n: nat)
    requires AllInRange(chs) && 4 * |chs| <= n <= |g|
    ensures GroupFrames(chs, g[..n]) == GroupFrames(chs, g)
    ensures AfterGroup(chs, g[..n]) == AfterGroup(chs, g)
  {
    forall c | 0 <= c < |chs| ensures Part(g[..n], c) == Part(g, c) {
      assert g[..n][4 * c..4 * c + 4] == g[4 * c..4 * c + 4];
    }
    forall t | 0 <= t < 8 ensures GroupFrames(chs, g[..n])[t] == GroupFrames(chs, g)[t] {
    }
  }

  /** The channel states when the first `k` channels are past the group and the others are not. */
  function PartlyAfter(chs: seq<Channel>, g: seq<byte>, k: nat): (r: seq<Channel>)
    requires AllInRange(chs) && |g| >= 4 * |chs| && k <= |chs|
    ensures |r| == |chs|
  {
    AfterGroup(chs, g)[..k] + chs[k..]
  }

  lemma PartlyAfterNext(chs: seq<Channel>, g: seq<byte>, k: nat)
    requires AllInRange(chs) && |g| >= 4 * |chs| && k < |chs|
    ensures PartlyAfter(chs, g, k)[k] == chs[k]
    ensures PartlyAfter(chs, g, k)[k := After(chs[k], Nibbles(Part(g, k)), 8)] == PartlyAfter(chs, g, k + 1)
  {
  }

  function ChannelView(predictor: seq<int>, stepIndex: seq<int>, ch: nat): (chs: seq<Channel>)
    requires ch <= |predictor| && ch <= |stepIndex|
    ensures |chs| == ch
  {
    seq(ch, c requires 0 <= c < ch => Channel(predictor[c], stepIndex[c]))
  }

  /** A cache of one frame, the predictors. */
  lemma FirstFrame(cache: seq<int>, p: seq<int>, q: seq<int>, ch: nat)
    requires |cache| == 16 && 1 <= ch <= 2 && ch <= |p| && ch <= |q|
    requires forall c :: 0 <= c < ch ==> cache[16 - ch + c] == p[c]
    ensures CachedView(cache, 1, ch) == [Predictors(ChannelView(p, q, ch))]
  {
    var frame := cache[Slot(1, ch)..][..ch];
    forall c | 0 <= c < ch ensures frame[c] == Predictors(ChannelView(p, q, ch))[c] {
    }
    assert CachedView(cache, 1, ch)[0] == frame == Predictors(ChannelView(p, q, ch));
  }

  lemma ChannelAt(p: seq<int>, q: seq<int>, ch: nat, c: nat)
    requires c < ch <= |p| && ch <= |q| && AllInRange(ChannelView(p, q, ch))
    ensures ChannelView(p, q, ch)[c] == Channel(p[c], q[c]) && Channel(p[c], q[c]).InRange()
  {
  }

  lemma StepIs(c: Channel, n: nibble)
    requires c.InRange()
    ensures Step(c, n) == Channel(Clamp(c.predictor + Diff(STEP_TABLE[c.stepIndex], n), -32768, 32767),
                                  Clamp(c.stepIndex + INDEX_TABLE[n], 0, 88))
    ensures Step(c, n).InRange()
  {
    hide Diff, Clamp;
  }

  lemma ChannelPut(p: seq<int>, q: seq<int>, ch: nat, c: nat, x: int, y: int)
    requires c < ch <= |p| && ch <= |q| && AllInRange(ChannelView(p, q, ch)) && Channel(x, y).InRange()
    ensures ChannelView(p[c := x], q[c := y], ch) == ChannelView(p, q, ch)[c := Channel(x, y)]
    ensures AllInRange(ChannelView(p[c := x], q[c := y], ch))
  {
  }

  // ---- The reader ----

  class ImaReader {
    const data: seq<byte>  // the bytes behind onRead, from the start of the data chunk
    const channels: nat
    const blockAlign: u16
    const totalPCMFrameCount: nat
    ghost const end: nat  // where the blocks end, and whatever else there is begins
    const predictor: array<int>
    const stepIndex: array<int>
    const cachedFrames: array<int>

    var pos: nat
    var readCursorInPCMFrames: nat
    var bytesRemainingInBlock: u32
    var cachedFrameCount: nat

    constructor (data: seq<byte>, channels: nat, blockAlign: u16, totalPCMFrameCount: nat, ghost end: nat)
      requires 1 <= channels <= 2
      ensures Valid() && fresh(predictor) && fresh(stepIndex) && fresh(cachedFrames)
      ensures this.data == data && this.channels == channels && this.blockAlign == blockAlign
      ensures this.totalPCMFrameCount == totalPCMFrameCount
      ensures pos == 0 && readCursorInPCMFrames == 0 && bytesRemainingInBlock == 0 && cachedFrameCount == 0
      ensures this.end == end
      ensures end <= |data| && ValidBlocks(data[..end], channels, blockAlign) ==>
                Healthy() && Future() == Decode(data[..end], channels, blockAlign)
    {
      this.data, this.channels, this.blockAlign := data, channels, blockAlign;
      this.totalPCMFrameCount, this.end := totalPCMFrameCount, end;
      predictor := new int[2](_ => 0);
      stepIndex := new int[2](_ => 0);
      cachedFrames := new int[16](_ => 0);
      pos, readCursorInPCMFrames, bytesRemainingInBlock, cachedFrameCount := 0, 0, 0, 0;
      new;
      assert data[0..0] == [] && (end <= |data| ==> data[0..end] == data[..end]);
    }

    /** What holds between calls, whatever the bytes are. */
    ghost predicate Valid()
      reads this, predictor, stepIndex, cachedFrames
      ensures Valid() ==> 1 <= channels <= 2 && cachedFrames.Length == 16 && cachedFrameCount <= 8
    {
      && 1 <= channels <= 2
      && predictor.Length == 2 && stepIndex.Length == 2 && cachedFrames.Length == 16
      && predictor != stepIndex && predictor != cachedFrames && stepIndex != cachedFrames
      && pos <= |data|
      && cachedFrameCount <= 8
      && AllInRange(States())
      && forall i :: 0 <= i < 16 ==> -0x8000 <= cachedFrames[i] < 0x8000
    }

    ghost function States(): (chs: seq<Channel>)
      requires channels <= 2 && predictor.Length == 2 && stepIndex.Length == 2
      reads this, predictor, stepIndex
    {
      ChannelView(predictor[..], stepIndex[..], channels)
    }

    /** The cached frames that have not been delivered. */
    ghost function Cached(): (f: seq<Frame>)
      requires 1 <= channels <= 2 && cachedFrames.Length == 16 && cachedFrameCount <= 8
      reads this, cachedFrames
      ensures |f| == cachedFrameCount
    {
      CachedView(cachedFrames[..], cachedFrameCount, channels)
    }

    /** The rest of the current block is whole groups, and whole valid blocks follow it. */
    ghost predicate Healthy()
      requires Valid()
      reads this, predictor, stepIndex, cachedFrames
    {
      && pos + bytesRemainingInBlock <= end <= |data|
      && WholeGroups(bytesRemainingInBlock, channels)
      && ValidBlocks(data[pos + bytesRemainingInBlock..end], channels, blockAlign)
    }

    /** The frames still to be delivered: cached, left in the block, and in the blocks after it. */
    ghost function Future(): seq<Frame>
      requires Valid() && Healthy()
      reads this, predictor, stepIndex, cachedFrames
    {
      Cached()
      + DecodeGroups(States(), data[pos..pos + bytesRemainingInBlock])
      + Decode(data[pos + bytesRemainingInBlock..end], channels, blockAlign)
    }

    lemma CachedComesFirst()
      requires Valid() && Healthy()
      ensures Cached() <= Future()
    {
    }

    /** Reads a block header; false when the read is short or the header is invalid. */
    method LoadHeader() returns (ok: bool)
      requires Valid() && cachedFrameCount == 0 && bytesRemainingInBlock == 0
      modifies this`pos, this`bytesRemainingInBlock, this`cachedFrameCount, predictor, stepIndex, cachedFrames
      ensures Valid()
      ensures ok ==> cachedFrameCount == 1
      ensures old(Healthy()) && |old(Future())| > 0 ==> ok && Healthy() && Future() == old(Future())
    {
      hide ValidBlocks, Decode, DecodeGroups, AllInRange, CachedView, ChannelView, HeaderChannel, WholeGroups, Predictors;
      ghost var healthy := Healthy() && |Future()| > 0;
      if healthy {
        NextHeaderIsValid();
      }
      var n := 4 * channels;
      if |data| - pos < n {
        pos := |data|;
        return false;
      }
      var header := data[pos..pos + n];
      pos := pos + n;
      bytesRemainingInBlock := Sub32(blockAlign, n);
      if header[2] >= |STEP_TABLE| || (channels == 2 && header[6] >= |STEP_TABLE|) {
        if pos + bytesRemainingInBlock <= |data| {
          pos := pos + bytesRemainingInBlock;
        }
        bytesRemainingInBlock := 0;
        return false;
      }
      StoreHeader(header);
      ok := true;
      if healthy {
        HeaderKeepsFuture(header);
      }
    }

    /** Takes the predictors and step indices from a header whose step indices are in the table. */
    method StoreHeader(header: seq<byte>)
      requires Valid() && |header| == 4 * channels
      requires header[2] < 89 && (channels == 2 ==> header[6] < 89)
      modifies this`cachedFrameCount, predictor, stepIndex, cachedFrames
      ensures Valid() && cachedFrameCount == 1
      ensures forall c :: 0 <= c < channels ==> States()[c] == HeaderChannel(header, c)
      ensures Cached() == [Predictors(States())]
    {
      predictor[0] := GetS16(header, 0);
      stepIndex[0] := Clamp(header[2], 0, 88);
      if channels == 1 {
        cachedFrames[15] := predictor[0];
      } else {
        predictor[1] := GetS16(header, 4);
        stepIndex[1] := Clamp(header[6], 0, 88);
        cachedFrames[14] := predictor[0];
        cachedFrames[15] := predictor[1];
      }
      cachedFrameCount := 1;
      FirstFrame(cachedFrames[..], predictor[..], stepIndex[..], channels);
    }

    /** Between blocks, with frames still to come, a whole block with usable step indices is next. */
    lemma NextHeaderIsValid()
      requires Valid() && cachedFrameCount == 0 && bytesRemainingInBlock == 0
      requires Healthy() && |Future()| > 0
      ensures Future() == Decode(data[pos..end], channels, blockAlign)
      ensures pos + 4 * channels <= end <= |data| && ValidBlocks(data[pos..end], channels, blockAlign)
      ensures data[pos + 2] < 89 && (channels == 2 ==> data[pos + 6] < 89)
    {
      hide *;
      ValidIs();
      var rest := data[pos..end];
      assert data[pos..pos] == [];
      FutureParts([], rest);
      NothingLeft(cachedFrames[..], States(), channels, blockAlign);
      BlockIs(rest, channels, blockAlign);
      assert rest[2] == data[pos + 2] && (channels == 2 ==> rest[6] == data[pos + 6]);
    }

    /** A freshly read header leaves the decoding of its block, and of what follows, to be delivered. */
    lemma HeaderKeepsFuture(header: seq<byte>)
      requires Valid() && 4 * channels <= pos <= end <= |data| && cachedFrameCount == 1
      requires header == data[pos - 4 * channels..pos]
      requires ValidBlocks(data[pos - 4 * channels..end], channels, blockAlign)
      requires bytesRemainingInBlock == Sub32(blockAlign, 4 * channels)
      requires forall c :: 0 <= c < channels ==> States()[c] == HeaderChannel(header, c)
      requires Cached() == [Predictors(States())]
      ensures Healthy() && Future() == Decode(data[pos - 4 * channels..end], channels, blockAlign)
    {
      hide *;
      ValidIs();
      var start: nat := pos - 4 * channels;
      var s := data[start..end];
      BlockIs(s, channels, blockAlign);
      SubHeader(blockAlign, channels);
      Slices(data, start, end, 4 * channels, blockAlign);
      HeaderPrefix(s, channels, 4 * channels);
      ChannelsAre(States(), s[..blockAlign], channels);
      FutureParts(data[pos..pos + bytesRemainingInBlock], s[blockAlign..]);
    }

    lemma ValidIs()
      requires Valid()
      ensures 1 <= channels <= 2 && pos <= |data| && |States()| == channels && AllInRange(States())
      ensures predictor.Length == 2 && stepIndex.Length == 2 && cachedFrames.Length == 16
      ensures Healthy() ==> pos + bytesRemainingInBlock <= end <= |data| && WholeGroups(bytesRemainingInBlock, channels)
                            && ValidBlocks(data[pos + bytesRemainingInBlock..end], channels, blockAlign)
    {
      hide AllInRange, ValidBlocks, WholeGroups;
    }

    /** One nibble of channel `c`: adapts the channel and stores the sample at index `at` of the cache. */
    method DecodeNibble(c: nat, n: nibble, at: nat)
      requires Valid() && c < channels && at < 16
      modifies predictor, stepIndex, cachedFrames
      ensures Valid()
      ensures States() == old(States())[c := Step(old(States())[c], n)]
      ensures cachedFrames[..] == old(cachedFrames[..])[at := Step(old(States())[c], n).predictor]
    {
      hide AllInRange, ChannelView, Clamp, Step, STEP_TABLE, INDEX_TABLE;
      TableSizes();
      ghost var p, q := predictor[..], stepIndex[..];
      ChannelAt(p, q, channels, c);
      var step := STEP_TABLE[stepIndex[c]];
      var diff := step / 8;
      if n % 2 == 1 { diff := diff + step / 4; }
      if n / 2 % 2 == 1 { diff := diff + step / 2; }
      if n / 4 % 2 == 1 { diff := diff + step; }
      if n >= 8 { diff := -diff; }
      assert diff == Diff(step, n);
      hide Diff;
      StepIs(States()[c], n);
      predictor[c] := Clamp(predictor[c] + diff, -32768, 32767);
      stepIndex[c] := Clamp(stepIndex[c] + INDEX_TABLE[n], 0, 88);
      cachedFrames[at] := predictor[c];
      assert predictor[..] == p[c := predictor[c]] && stepIndex[..] == q[c := stepIndex[c]];
      ChannelPut(p, q, channels, c, predictor[c], stepIndex[c]);
    }

    method DecodeByte(c: nat, b: byte, iByte: nat)
      requires Valid() && c < channels && iByte < 4
      modifies predictor, stepIndex, cachedFrames
      ensures Valid()
      ensures var s := Step(old(States())[c], b % 16);
              && States() == old(States())[c := Step(s, b / 16)]
              && cachedFrames[..] == old(cachedFrames[..])[Slot(8 - 2 * iByte, channels) + c := s.predictor]
                                     [Slot(7 - 2 * iByte, channels) + c := Step(s, b / 16).predictor]
    {
      var base := 16 - 8 * channels;
      assert base + (2 * iByte + 0) * channels == Slot(8 - 2 * iByte, channels);
      assert base + (2 * iByte + 1) * channels == Slot(7 - 2 * iByte, channels);
      DecodeNibble(c, b % 16, base + (2 * iByte + 0) * channels + c);
      DecodeNibble(c, b / 16, base + (2 * iByte + 1) * channels + c);
    }

    /** The four bytes of channel `c`: eight samples into the cache, low nibble first. */
    method DecodePart(c: nat, nibbles: seq<byte>)
      requires Valid() && c < channels && |nibbles| == 4
      modifies predictor, stepIndex, cachedFrames
      ensures Valid()
      ensures States() == old(States())[c := After(old(States())[c], Nibbles(nibbles), 8)]
      ensures cachedFrames[..]
              == PutSamples(old(cachedFrames[..]), channels, c, old(States())[c], Nibbles(nibbles), 8)
    {
      hide Step, After, PutSamples;
      ghost var chs := States();
      ghost var s, ns, cache := chs[c], Nibbles(nibbles), cachedFrames[..];
      NoSamples(cache, channels, c, s, ns);
      var iByte := 0;
      while iByte < 4
        invariant 0 <= iByte <= 4 && Valid()
        invariant States() == chs[c := After(s, ns, 2 * iByte)]
        invariant cachedFrames[..] == PutSamples(cache, channels, c, s, ns, 2 * iByte)
      {
        TwoSamples(cache, channels, c, s, nibbles, iByte);
        ghost var now, next := After(s, ns, 2 * iByte), After(s, ns, 2 * (iByte + 1));
        DecodeByte(c, nibbles[iByte], iByte);
        assert chs[c := now][c] == now && States() == chs[c := now][c := next] == chs[c := next];
        iByte := iByte + 1;
      }
    }

    /** Reads four bytes per channel and decodes them into the cache; false when a read is short. */
    method DecodeChannels() returns (ok: bool)
      requires Valid() && cachedFrameCount == 0
      modifies this`pos, this`bytesRemainingInBlock, this`cachedFrameCount, predictor, stepIndex, cachedFrames
      ensures Valid()
      ensures cachedFrameCount == if ok then 8 else 0
      ensures ok <==> old(pos) + 4 * channels <= |data|
      ensures ok ==> pos == old(pos) + 4 * channels
      ensures ok ==> bytesRemainingInBlock == (old(bytesRemainingInBlock) - 4 * channels) % 0x1_0000_0000
      ensures ok ==> States() == AfterGroup(old(States()), data[old(pos)..])
      ensures ok ==> cachedFrames[..] == PutGroup(old(cachedFrames[..]), old(States()), data[old(pos)..], channels)
    {
      hide AfterGroup, PutGroup, PutSamples, After, Step, PartlyAfter, Nibbles, AllInRange, Sub32, ChannelView;
      ghost var chs, g, cache := States(), data[pos..], cachedFrames[..];
      ghost var enough := |g| >= 4 * channels;
      cachedFrameCount := 8;
      if enough {
        NothingDecoded(cache, chs, g);
      }
      var iChannel := 0;
      while iChannel < channels
        invariant Valid() && iChannel <= channels && cachedFrameCount == 8
        invariant pos == old(pos) + 4 * iChannel
        invariant bytesRemainingInBlock == (old(bytesRemainingInBlock) - 4 * iChannel) % 0x1_0000_0000
        invariant enough ==> States() == PartlyAfter(chs, g, iChannel)
        invariant enough ==> cachedFrames[..] == PutGroup(cache, chs, g, iChannel)
      {
        if |data| - pos < 4 {
          pos := |data|;
          cachedFrameCount := 0;
          return false;
        }
        var nibbles := data[pos..pos + 4];
        pos := pos + 4;
        FourLess(old(bytesRemainingInBlock), iChannel);
        bytesRemainingInBlock := Sub32(bytesRemainingInBlock, 4);
        if enough {
          PartlyAfterNext(chs, g, iChannel);
          NextChannelDecoded(cache, chs, g, iChannel);
          SliceOfRest(data, old(pos), 4 * iChannel, 4 * iChannel + 4);
        }
        DecodePart(iChannel, nibbles);
        iChannel := iChannel + 1;
      }
      ok := true;
    }

    /** Decodes the next group of the block; false when a read is short. */
    method LoadGroup() returns (ok: bool)
      requires Valid() && cachedFrameCount == 0 && bytesRemainingInBlock != 0
      modifies this`pos, this`bytesRemainingInBlock, this`cachedFrameCount, predictor, stepIndex, cachedFrames
      ensures Valid()
      ensures cachedFrameCount == if ok then 8 else 0
      ensures old(Healthy()) ==> ok && Healthy() && Future() == old(Future())
    {
      hide *;
      InGroup();
      ghost var chs, cache, rem, g := States(), cachedFrames[..], bytesRemainingInBlock, data[pos..];
      ghost var healthy := Healthy();
      ghost var rest := if healthy then data[pos + rem..end] else [];
      if healthy {
        SlicesOfRest(data, pos, 4 * channels, rem);
      }
      ok := DecodeChannels();
      if healthy {
        SubGroup(rem, channels);
        GroupKeepsFuture(cache, chs, g, rem, rest);
      }
    }

    lemma InGroup()
      requires Valid() && cachedFrameCount == 0 && bytesRemainingInBlock != 0
      ensures 1 <= channels <= 2 && predictor.Length == 2 && stepIndex.Length == 2 && cachedFrames.Length == 16
      ensures pos <= |data| && |States()| == channels && AllInRange(States())
      ensures Healthy() ==>
                && pos + bytesRemainingInBlock <= end <= |data|
                && 4 * channels <= bytesRemainingInBlock && WholeGroups(bytesRemainingInBlock - 4 * channels, channels)
                && ValidBlocks(data[pos + bytesRemainingInBlock..end], channels, blockAlign)
                && Future() == DecodeGroups(States(), data[pos..][..bytesRemainingInBlock])
                               + Decode(data[pos + bytesRemainingInBlock..end], channels, blockAlign)
    {
      hide ValidBlocks, Decode, DecodeGroups, AllInRange, WholeGroups;
      if Healthy() {
        WholeGroupsNext(bytesRemainingInBlock, channels);
        SlicesOfRest(data, pos, 0, bytesRemainingInBlock);
        assert Cached() == [];
      }
    }

    lemma FutureParts(rem: seq<byte>, rest: seq<byte>)
      requires Valid() && pos + bytesRemainingInBlock <= end <= |data| && WholeGroups(bytesRemainingInBlock, channels)
      requires rem == data[pos..pos + bytesRemainingInBlock] && rest == data[pos + bytesRemainingInBlock..end]
      requires ValidBlocks(rest, channels, blockAlign)
      ensures Healthy()
      ensures Cached() == CachedView(cachedFrames[..], cachedFrameCount, channels)
      ensures AllInRange(States()) && |States()| == channels
      ensures Future() == Cached() + DecodeGroups(States(), rem) + Decode(rest, channels, blockAlign)
    {
    }

    /** A freshly decoded group `g[..4 * channels]` sits in the cache; the rest of the block follows. */
    lemma GroupKeepsFuture(cache: seq<int>, chs: seq<Channel>, g: seq<byte>, rem: u32, rest: seq<byte>)
      requires Valid() && cachedFrameCount == 8 && |chs| == channels && AllInRange(chs)
      requires 4 * channels <= rem <= |g| && WholeGroups(rem - 4 * channels, channels) && |cache| == 16
      requires bytesRemainingInBlock == rem - 4 * channels && pos + bytesRemainingInBlock <= end <= |data|
      requires data[pos..pos + bytesRemainingInBlock] == g[..rem][4 * channels..]
      requires data[pos + bytesRemainingInBlock..end] == rest && ValidBlocks(rest, channels, blockAlign)
      requires States() == AfterGroup(chs, g)
      requires cachedFrames[..] == PutGroup(cache, chs, g, channels)
      ensures Healthy()
      ensures Future() == DecodeGroups(chs, g[..rem]) + Decode(rest, channels, blockAlign)
    {
      hide *;
      FutureParts(g[..rem][4 * channels..], rest);
      GroupPrefix(chs, g, rem);
      PutGroupIsGroupFrames(cache, chs, g);
      DecodeGroupsStep(chs, g[..rem]);
    }

    /** Hands out the oldest cached frame, sample by sample. */
    method Deliver(discard: bool) returns (out: seq<int>)
      requires Valid() && cachedFrameCount > 0
      modifies this`readCursorInPCMFrames, this`cachedFrameCount
      ensures Valid()
      ensures readCursorInPCMFrames == old(readCursorInPCMFrames) + 1
      ensures cachedFrameCount == old(cachedFrameCount) - 1
      ensures Cached() == old(Cached())[1..]
      ensures out == if discard then [] else old(Cached())[0]
      ensures old(Healthy()) ==> Healthy() && Future() == old(Future())[1..]
    {
      hide AllInRange, DecodeGroups, Decode, ValidBlocks, CachedView;
      ghost var cached := Cached();
      FirstCached(cachedFrames[..], cachedFrameCount, channels);
      assert Slot(cachedFrameCount, channels) == 16 - cachedFrameCount * channels;
      out := [];
      if !discard {
        var iSample := 0;
        while iSample < channels
          invariant iSample <= channels && out == cached[0][..iSample]
        {
          assert cached[0][iSample] == cachedFrames[Slot(cachedFrameCount, channels) + iSample];
          assert cached[0][..iSample + 1] == cached[0][..iSample] + [cached[0][iSample]];
          out := out + [cachedFrames[16 - cachedFrameCount * channels + iSample]];
          iSample := iSample + 1;
        }
      }
      readCursorInPCMFrames := readCursorInPCMFrames + 1;
      cachedFrameCount := cachedFrameCount - 1;
      assert Cached() == cached[1..];
    }

    /** The loop that outputs anything that is cached. */
    method DeliverCached(framesToRead: nat, discard: bool) returns (n: nat, out: seq<int>)
      requires Valid()
      modifies this`readCursorInPCMFrames, this`cachedFrameCount
      ensures Valid()
      ensures n <= framesToRead && n <= old(cachedFrameCount)
      ensures n == framesToRead || cachedFrameCount == 0 || readCursorInPCMFrames >= totalPCMFrameCount
      ensures readCursorInPCMFrames == old(readCursorInPCMFrames) + n
      ensures cachedFrameCount == old(cachedFrameCount) - n
      ensures out == if discard then [] else Flatten(old(Cached())[..n])
      ensures old(Healthy()) ==> Healthy() && n <= |old(Future())| && Future() == old(Future())[n..]
      ensures old(Healthy()) ==> old(Future())[..n] == old(Cached())[..n]
    {
      hide *;
      ghost var cached := Cached();
      assert |cached| == old(cachedFrameCount);
      ghost var healthy := Healthy();
      ghost var frames := if healthy then Future() else [];
      if healthy {
        CachedComesFirst();
      }
      FlattenEmpty(cached);
      n, out := 0, [];
      while n < framesToRead && cachedFrameCount > 0 && readCursorInPCMFrames < totalPCMFrameCount
        invariant Valid() && n <= framesToRead && n <= |cached|
        invariant readCursorInPCMFrames == old(readCursorInPCMFrames) + n
        invariant cachedFrameCount == |cached| - n
        invariant Cached() == cached[n..]
        invariant out == if discard then [] else Flatten(cached[..n])
        invariant healthy ==> Healthy() && n <= |frames| && Future() == frames[n..]
      {
        FlattenPush(cached, n);
        var samples := Deliver(discard);
        out := out + samples;
        n := n + 1;
      }
    }

    /** One pass through the reader's loop; `ok` is false when it must give up. */
    method ReadSome(framesToRead: nat, discard: bool) returns (ok: bool, n: nat, out: seq<int>)
      requires Valid() && framesToRead > 0 && readCursorInPCMFrames < totalPCMFrameCount
      modifies this`pos, this`readCursorInPCMFrames, this`bytesRemainingInBlock, this`cachedFrameCount
      modifies predictor, stepIndex, cachedFrames
      ensures Valid() && n <= framesToRead
      ensures readCursorInPCMFrames == old(readCursorInPCMFrames) + n
      ensures ok && n == 0 ==> old(cachedFrameCount) == 0 && cachedFrameCount > 0
      ensures old(Healthy()) && |old(Future())| > 0 ==>
                && (n < framesToRead && n < |old(Future())| ==> ok)
                && Healthy() && n <= |old(Future())| && Future() == old(Future())[n..]
                && out == if discard then [] else Flatten(old(Future())[..n])
    {
      hide *;
      n, out := 0, [];
      ghost var frames := if Healthy() then Future() else [];
      FlattenEmpty(frames);
      if cachedFrameCount == 0 && bytesRemainingInBlock == 0 {
        ok := LoadHeader();
        if !ok {
          return;
        }
      }
      n, out := DeliverCached(framesToRead, discard);
      ok := true;
      if n < framesToRead && cachedFrameCount == 0 && bytesRemainingInBlock != 0 {
        ok := LoadGroup();
      }
    }

    /**
     drwav_read_pcm_frames_s16__ima. `out` is what goes to the caller's buffer; a null buffer is
     `discard`.
     */
    method ReadFrames(framesToRead: nat, discard: bool) returns (totalFramesRead: nat, out: seq<int>)
      requires Valid() && framesToRead > 0
      modifies this`pos, this`readCursorInPCMFrames, this`bytesRemainingInBlock, this`cachedFrameCount
      modifies predictor, stepIndex, cachedFrames
      ensures Valid()
      ensures totalFramesRead <= framesToRead
      ensures readCursorInPCMFrames == old(readCursorInPCMFrames) + totalFramesRead
      ensures old(Healthy()) && old(readCursorInPCMFrames + |Future()|) == totalPCMFrameCount ==>
                && Healthy()
                && totalFramesRead == |Prefix(old(Future()), framesToRead)|
                && Future() == Rest(old(Future()), framesToRead)
                && readCursorInPCMFrames + |Future()| == totalPCMFrameCount
                && out == if discard then [] else Flatten(Prefix(old(Future()), framesToRead))
    {
      hide *;
      ghost var healthy := Healthy() && readCursorInPCMFrames + |Future()| == totalPCMFrameCount;
      ghost var frames := if healthy then Future() else [];
      FlattenEmpty(frames);
      totalFramesRead, out := 0, [];
      var ok := true;
      while ok && totalFramesRead < framesToRead && readCursorInPCMFrames < totalPCMFrameCount
        invariant Valid() && totalFramesRead <= framesToRead
        invariant readCursorInPCMFrames == old(readCursorInPCMFrames) + totalFramesRead
        invariant healthy ==> Healthy() && totalFramesRead <= |frames| && Future() == frames[totalFramesRead..]
        invariant healthy ==> ok || totalFramesRead == framesToRead || totalFramesRead == |frames|
        invariant healthy ==> out == if discard then [] else Flatten(frames[..totalFramesRead])
        decreases ok, totalPCMFrameCount - readCursorInPCMFrames, if cachedFrameCount == 0 then 1 else 0
      {
        var more, n, samples := ReadSome(framesToRead - totalFramesRead, discard);
        if healthy {
          FlattenSplit(frames, totalFramesRead, n);
        }
        ok, out, totalFramesRead := more, out + samples, totalFramesRead + n;
      }
      if healthy {
        PrefixAndRest(frames, framesToRead, totalFramesRead);
      }
    }

    /**
     However the frames still to be delivered are asked for, the caller gets the same samples: as
     many frames as were asked for in all, or all there are.
     */
    method ReadInPieces(sizes: seq<Count>) returns (out: seq<int>)
      requires Valid() && Healthy() && readCursorInPCMFrames + |Future()| == totalPCMFrameCount
      modifies this`pos, this`readCursorInPCMFrames, this`bytesRemainingInBlock, this`cachedFrameCount
      modifies predictor, stepIndex, cachedFrames
      ensures out == Flatten(Prefix(old(Future()), Sum(sizes)))
    {
      hide *;
      ghost var frames := Future();
      PrefixNone(frames);
      SumStep(sizes);
      if sizes == [] {
        return [];
      }
      PrefixSplit(frames, sizes[0], Sum(sizes[1..]));
      var n, first := ReadFrames(sizes[0], false);
      var rest := ReadInPieces(sizes[1..]);
      out := first + rest;
    }
  }

  lemma DecodeStep(s: seq<byte>, ch: nat, blockAlign: nat)
    requires 1 <= ch <= 2 && ValidBlocks(s, ch, blockAlign) && s != []
    ensures 0 < blockAlign <= |s| && ValidBlock(s[..blockAlign], ch) && ValidBlocks(s[blockAlign..], ch, blockAlign)
    ensures Decode(s, ch, blockAlign) == DecodeBlock(s[..blockAlign], ch) + Decode(s[blockAlign..], ch, blockAlign)
    ensures |DecodeBlock(s[..blockAlign], ch)| == FramesPerBlock(ch, blockAlign)
  {
    DecodeBlockLength(s[..blockAlign], ch);
  }

  /** Sample `t` of channel `c` of block `k`, at its place in the decoded stream. */
  lemma {:induction false} DecodeIsRefSample(s: seq<byte>, ch: nat, blockAlign: nat, k: nat, c: nat, t: nat)
    requires c < ch <= 2 && ValidBlocks(s, ch, blockAlign)
    requires Times(k + 1, blockAlign) <= |s| && s != [] && t < FramesPerBlock(ch, blockAlign)
    ensures 0 <= Times(k, blockAlign) <= Times(k + 1, blockAlign)
    ensures var block := s[Times(k, blockAlign)..Times(k + 1, blockAlign)];
            var i := Times(k, FramesPerBlock(ch, blockAlign)) + t;
            && ValidBlock(block, ch)
            && t <= 2 * |ChannelBytes(block[4 * ch..], ch, c)|
            && 0 <= i < |Decode(s, ch, blockAlign)|
            && |Decode(s, ch, blockAlign)[i]| == ch
            && Decode(s, ch, blockAlign)[i][c] == RefSample(block, ch, c, t)
    decreases k
  {
    hide *;
    var per: nat := FramesPerBlock(ch, blockAlign);
    TimesStep(k, blockAlign);
    DecodeStep(s, ch, blockAlign);
    if k == 0 {
      DecodeBlockIsRefSample(s[..blockAlign], ch, c, t);
      TimesStep(0, per);
      assert s[0..blockAlign] == s[..blockAlign];
    } else {
      TimesStep(k - 1, blockAlign);
      TimesStep(k - 1, per);
      var rest := s[blockAlign..];
      DecodeIsRefSample(rest, ch, blockAlign, k - 1, c, t);
      SliceOfRest(s, blockAlign, Times(k - 1, blockAlign), Times(k, blockAlign));
    }
  }
}
