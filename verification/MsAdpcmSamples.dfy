/**
 What the samples of a Microsoft ADPCM block are, in numbers: where its header and its nibbles lie, how each
 sample follows from the two before it, and how the step size follows the nibbles.
 */
module MsAdpcmSamples {
  import opened Bytes
  import opened MsAdpcm
  import opened PcmFrames

  // ---- Where things are in a block ----

  /** Predictors first, then the deltas, then the newer samples, then the older, each for all channels. */
  lemma HeaderAt(block: seq<byte>, ch: nat, c: nat)
    requires c < ch && 7 * ch <= |block|
    ensures HeaderSize(ch) <= |block|
    ensures HeaderChannel(block, ch, c)
            == Channel(block[c], SignedOf(block[ch + 2 * c], block[ch + 2 * c + 1]),
                       SignedOf(block[3 * ch + 2 * c], block[3 * ch + 2 * c + 1]),
                       SignedOf(block[5 * ch + 2 * c], block[5 * ch + 2 * c + 1]))
  {
    GetS16Is(block, ch + 2 * c);
    GetS16Is(block, 3 * ch + 2 * c);
    GetS16Is(block, 5 * ch + 2 * c);
  }

  /** The nibbles of a byte: mono takes the upper first; in stereo the upper is left, the lower right. */
  function NibbleAt(s: seq<byte>, ch: nat, c: nat, t: nat): nibble
    requires c < ch <= 2 && t < if ch == 1 then 2 * |s| else |s|
  {
    if ch == 1 then (if t % 2 == 0 then s[t / 2] / 16 else s[t / 2] % 16)
    else if c == 0 then s[t] / 16 else s[t] % 16
  }

  lemma {:induction false} NibblesAt(s: seq<byte>, ch: nat, c: nat, t: nat)
    requires c < ch <= 2 && t < |ChannelNibbles(s, ch, c)|
    ensures t < (if ch == 1 then 2 * |s| else |s|)
    ensures ChannelNibbles(s, ch, c)[t] == NibbleAt(s, ch, c, t)
    decreases |s|
  {
    if s != [] {
      var k := if ch == 1 then 2 else 1;
      if t >= k {
        NibblesAt(s[1..], ch, c, t - k);
      }
    }
  }

  // ---- One sample after the other ----

  /** The two samples before, weighed by the predictor, times 256. */
  function Predicted(predictor: int, newer: int, older: int): int
    requires 0 <= predictor < 7
  {
    match predictor
    case 0 => 256 * newer
    case 1 => 512 * newer - 256 * older
    case 2 => 0
    case 3 => 192 * newer + 64 * older
    case 4 => 240 * newer
    case 5 => 460 * newer - 208 * older
    case _ => 392 * newer - 232 * older
  }

  /** What the step size is multiplied with after a nibble, times 256. */
  function Growth(n: nibble): nat {
    if n == 8 then 768
    else if n == 7 || n == 9 then 614
    else if n == 6 || n == 10 then 512
    else if n == 5 || n == 11 then 409
    else if n == 4 || n == 12 then 307
    else 230
  }

  /** A nibble as a two's complement number, in steps of the step size. */
  function Steps(n: nibble): int {
    if n < 8 then n else n - 16
  }

  function Limited(x: int): int {
    if x < -32768 then -32768 else if x > 32767 then 32767 else x
  }

  predicate In32(x: int) { -0x8000_0000 <= x < 0x8000_0000 }

  /**
   The law of one step, `q` being the prediction in whole numbers: the sample is `q` and as many step sizes as the
   nibble says, within 16 bits; the step size grows or shrinks by the nibble, but not below 16.
   */
  predicate Follows(c: Channel, n: nibble, q: int, c': Channel)
    requires c.InRange()
  {
    && (256 * q <= Predicted(c.predictor, c.newer, c.older) < 256 * q + 256 && In32(q + Steps(n) * c.delta) ==>
          c'.newer == Limited(q + Steps(n) * c.delta))
    && (In32(Growth(n) * c.delta) ==>
          if Growth(n) * c.delta < 16 * 256 then c'.delta == 16
          else 256 * c'.delta <= Growth(n) * c.delta < 256 * c'.delta + 256)
    && c'.older == c.newer && c'.predictor == c.predictor
  }

  lemma StepFollows(c: Channel, n: nibble, q: int)
    requires c.InRange()
    ensures Follows(c, n, q, Step(c, n))
  {
    hide *;
    InRangeIs(c);
    StepIs(c, n);
    PredictedIs(c);
    GrowthIs(n);
    Whole(Predicted(c.predictor, c.newer, c.older), q);
    Fits32(q + Steps(n) * c.delta);
    Fits32(Growth(n) * c.delta);
    LimitedIs(q + Steps(n) * c.delta);
    AtLeast16(Growth(n) * c.delta);
    FollowsIs(c, n, q, Step(c, n));
  }

  lemma InRangeIs(c: Channel)
    requires c.InRange()
    ensures 0 <= c.predictor < 7
  {
  }

  lemma StepIs(c: Channel, n: nibble)
    requires c.InRange()
    ensures |COEFF1_TABLE| == |COEFF2_TABLE| == 7 && |ADAPTATION_TABLE| == 16
    ensures 0 <= c.predictor < 7
    ensures var s := Step(c, n);
            && s.newer == Clamp(Int32((c.newer * COEFF1_TABLE[c.predictor] + c.older * COEFF2_TABLE[c.predictor]) / 256
                                      + Signed(n) * c.delta), -32768, 32767)
            && s.delta == Adapt(c.delta, n)
            && s.older == c.newer && s.predictor == c.predictor
            && Adapt(c.delta, n) == Bounded(Int32(ADAPTATION_TABLE[n] * c.delta) / 256)
  {
    hide Int32;
  }

  function Bounded(d: int): int { if d < 16 then 16 else d }

  lemma PredictedIs(c: Channel)
    requires c.InRange()
    ensures 0 <= c.predictor < 7 && |COEFF1_TABLE| == |COEFF2_TABLE| == 7
    ensures c.newer * COEFF1_TABLE[c.predictor] + c.older * COEFF2_TABLE[c.predictor]
            == Predicted(c.predictor, c.newer, c.older)
  {
  }

  lemma GrowthIs(n: nibble)
    ensures |ADAPTATION_TABLE| == 16 && ADAPTATION_TABLE[n] == Growth(n) && Signed(n) == Steps(n)
  {
  }

  lemma Whole(x: int, q: int)
    ensures 256 * q <= x < 256 * q + 256 ==> x / 256 == q
  {
  }

  lemma Fits32(x: int)
    ensures In32(x) ==> Int32(x) == x
  {
  }

  lemma LimitedIs(x: int)
    ensures Clamp(x, -32768, 32767) == Limited(x)
  {
  }

  lemma AtLeast16(x: int)
    ensures x < 16 * 256 ==> Bounded(x / 256) == 16
    ensures x >= 16 * 256 ==> 256 * Bounded(x / 256) <= x < 256 * Bounded(x / 256) + 256
  {
  }

  lemma FollowsIs(c: Channel, n: nibble, q: int, c': Channel)
    requires c.InRange()
    ensures 0 <= c.predictor < 7
    ensures Follows(c, n, q, c')
            <==> && (256 * q <= Predicted(c.predictor, c.newer, c.older) < 256 * q + 256 && In32(q + Steps(n) * c.delta) ==>
                       c'.newer == Limited(q + Steps(n) * c.delta))
                 && (In32(Growth(n) * c.delta) ==>
                       if Growth(n) * c.delta < 16 * 256 then c'.delta == 16
                       else 256 * c'.delta <= Growth(n) * c.delta < 256 * c'.delta + 256)
                 && c'.older == c.newer && c'.predictor == c.predictor
  {
    hide Predicted, Steps, Growth, Limited, In32;
  }

  // ---- The samples of a block ----

  /** The step size that sample `t + 2` of a channel is made with. */
  function RefDelta(block: seq<byte>, ch: nat, c: nat, t: nat): int
    requires c < ch <= 2 && ValidBlock(block, ch)
    requires t <= |ChannelNibbles(block[7 * ch..], ch, c)|
  {
    After(HeaderChannel(block, ch, c), ChannelNibbles(block[7 * ch..], ch, c), t).delta
  }

  /** The state in which sample `t + 2` is made, from the samples that are decoded. */
  lemma {:induction false} StateAt(block: seq<byte>, ch: nat, c: nat, t: nat)
    requires c < ch <= 2 && ValidBlock(block, ch) && t <= |ChannelNibbles(block[7 * ch..], ch, c)|
    ensures HeaderChannel(block, ch, c).InRange()
    ensures After(HeaderChannel(block, ch, c), ChannelNibbles(block[7 * ch..], ch, c), t)
            == Channel(block[c], RefDelta(block, ch, c, t), RefSample(block, ch, c, t + 1), RefSample(block, ch, c, t))
    decreases t
  {
    hide Step;
    if t > 0 {
      StateAt(block, ch, c, t - 1);
      var before := After(HeaderChannel(block, ch, c), ChannelNibbles(block[7 * ch..], ch, c), t - 1);
      StepIs(before, ChannelNibbles(block[7 * ch..], ch, c)[t - 1]);
    }
  }

  /** The first two samples, and the first step size, stand in the header. */
  lemma FirstSamples(block: seq<byte>, ch: nat, c: nat)
    requires c < ch <= 2 && ValidBlock(block, ch)
    ensures 7 * ch <= |block|
    ensures RefSample(block, ch, c, 0) == SignedOf(block[5 * ch + 2 * c], block[5 * ch + 2 * c + 1])
    ensures RefSample(block, ch, c, 1) == SignedOf(block[3 * ch + 2 * c], block[3 * ch + 2 * c + 1])
    ensures RefDelta(block, ch, c, 0) == SignedOf(block[ch + 2 * c], block[ch + 2 * c + 1])
  {
    hide SignedOf;
    HeaderAt(block, ch, c);
  }

  /**
   And every other follows from the two before it, by the predictor in the header and a nibble of the block: `q` is
   the prediction, rounded down.
   */
  lemma NextSample(block: seq<byte>, ch: nat, c: nat, t: nat, q: int)
    requires c < ch <= 2 && ValidBlock(block, ch) && t < |ChannelNibbles(block[7 * ch..], ch, c)|
    ensures 0 <= block[c] < 7 && 7 * ch <= |block|
    ensures t < (if ch == 1 then 2 * (|block| - 7 * ch) else |block| - 7 * ch)
    ensures var n, d := NibbleAt(block[7 * ch..], ch, c, t), RefDelta(block, ch, c, t);
            var x, y := RefSample(block, ch, c, t + 1), RefSample(block, ch, c, t);
            && (256 * q <= Predicted(block[c], x, y) < 256 * q + 256 && In32(q + Steps(n) * d) ==>
                  RefSample(block, ch, c, t + 2) == Limited(q + Steps(n) * d))
            && (In32(Growth(n) * d) ==>
                  if Growth(n) * d < 16 * 256 then RefDelta(block, ch, c, t + 1) == 16
                  else 256 * RefDelta(block, ch, c, t + 1) <= Growth(n) * d < 256 * RefDelta(block, ch, c, t + 1) + 256)
  {
    hide Step, ValidBlock, ChannelNibbles, Predicted, Steps, Growth, Limited, In32, Follows, NibbleAt, After, RefDelta, RefSample;
    HeaderFits(block, ch, c);
    var ns := ChannelNibbles(block[7 * ch..], ch, c);
    StateAt(block, ch, c, t);
    StateAt(block, ch, c, t + 1);
    NibblesAt(block[7 * ch..], ch, c, t);
    var s := After(HeaderChannel(block, ch, c), ns, t);
    AfterStep(HeaderChannel(block, ch, c), ns, t);
    StepFollows(s, ns[t], q);
    FollowsIs(s, ns[t], q, Step(s, ns[t]));
  }

  lemma HeaderFits(block: seq<byte>, ch: nat, c: nat)
    requires c < ch <= 2 && ValidBlock(block, ch)
    ensures 7 * ch <= |block| && 0 <= block[c] < 7
  {
    assert HeaderChannel(block, ch, c).InRange();
  }

  lemma AfterStep(s: Channel, ns: seq<nibble>, t: nat)
    requires s.InRange() && t < |ns|
    ensures After(s, ns, t + 1) == Step(After(s, ns, t), ns[t]) && After(s, ns, t).InRange()
  {
    hide Step;
  }

  /** With nibble 0, predictor 0 repeats a sample, and predictor 1 goes on in a straight line. */
  lemma StraightOn(block: seq<byte>, ch: nat, c: nat, t: nat)
    requires c < ch <= 2 && ValidBlock(block, ch) && t < |ChannelNibbles(block[7 * ch..], ch, c)|
    requires ChannelNibbles(block[7 * ch..], ch, c)[t] == 0
    ensures 7 * ch <= |block|
    ensures block[c] == 0 ==> RefSample(block, ch, c, t + 2) == RefSample(block, ch, c, t + 1)
    ensures block[c] == 1 ==>
              RefSample(block, ch, c, t + 2) == Limited(2 * RefSample(block, ch, c, t + 1) - RefSample(block, ch, c, t))
  {
    hide ValidBlock, ChannelNibbles, NibbleAt, RefDelta, RefSample;
    var x, y := RefSample(block, ch, c, t + 1), RefSample(block, ch, c, t);
    HeaderFits(block, ch, c);
    SampleFits(block, ch, c, t);
    NibblesAt(block[7 * ch..], ch, c, t);
    NextSample(block, ch, c, t, if block[c] == 0 then x else 2 * x - y);
  }

  lemma SampleFits(block: seq<byte>, ch: nat, c: nat, t: nat)
    requires c < ch <= 2 && ValidBlock(block, ch) && t <= |ChannelNibbles(block[7 * ch..], ch, c)|
    ensures -32768 <= RefSample(block, ch, c, t + 1) <= 32767 && -32768 <= RefSample(block, ch, c, t) <= 32767
  {
    hide ValidBlock, ChannelNibbles, RefDelta, RefSample, After;
    StateAt(block, ch, c, t);
    HeaderFits(block, ch, c);
    var s := After(HeaderChannel(block, ch, c), ChannelNibbles(block[7 * ch..], ch, c), t);
    assert s.InRange();
  }
}
