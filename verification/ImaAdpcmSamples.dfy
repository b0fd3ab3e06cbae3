/**
 What the samples of an IMA ADPCM block are, in numbers: where its header and its nibbles lie, how each sample and
 each step size follow from the ones before.
 */
module ImaAdpcmSamples {
  import opened Bytes
  import opened ImaAdpcm
  import opened PcmFrames

  // ---- Where things are in a block ----

  /** Four bytes for each channel: the first sample, and the index of the first step size. */
  lemma HeaderAt(block: seq<byte>, c: nat)
    requires 4 * c + 4 <= |block|
    ensures HeaderChannel(block, c) == Channel(SignedOf(block[4 * c], block[4 * c + 1]), block[4 * c + 2])
  {
    GetS16Is(block, 4 * c);
  }

  /** Where nibble `t` of a channel is: in groups of four bytes a channel, the lower nibble first. */
  function NibbleByte(ch: nat, c: nat, t: nat): nat {
    Times(t / 8, 4 * ch) + 4 * c + t % 8 / 2
  }

  function NibbleAt(s: seq<byte>, ch: nat, c: nat, t: nat): nibble
    requires NibbleByte(ch, c, t) < |s|
  {
    if t % 2 == 0 then s[NibbleByte(ch, c, t)] % 16 else s[NibbleByte(ch, c, t)] / 16
  }

  lemma {:induction false} NibblesAt(s: seq<byte>, ch: nat, c: nat, t: nat)
    requires c < ch && t < 2 * |ChannelBytes(s, ch, c)|
    ensures NibbleByte(ch, c, t) < |s|
    ensures Nibbles(ChannelBytes(s, ch, c))[t] == NibbleAt(s, ch, c, t)
    decreases |s|
  {
    hide *;
    BytesStep(s, ch, c);
    NibbleOf(ChannelBytes(s, ch, c), t);
    ByteAt(ch, c, t);
    NibbleAtIs(s, ch, c, t);
    if t < 8 {
      FirstPart(s, ch, c, t / 2);
    } else {
      var rest := s[4 * ch..];
      LaterPart(s, ch, c, t / 2);
      NibblesAt(rest, ch, c, t - 8);
      NibbleOf(ChannelBytes(rest, ch, c), t - 8);
      NibbleAtIs(rest, ch, c, t - 8);
    }
  }

  lemma NibbleOf(b: seq<byte>, t: nat)
    requires t < 2 * |b|
    ensures |Nibbles(b)| == 2 * |b| && Nibbles(b)[t] == if t % 2 == 0 then b[t / 2] % 16 else b[t / 2] / 16
  {
  }

  lemma ByteAt(ch: nat, c: nat, t: nat)
    ensures NibbleByte(ch, c, t) >= 0
    ensures t < 8 ==> NibbleByte(ch, c, t) == 4 * c + t / 2
    ensures t >= 8 ==> NibbleByte(ch, c, t) == NibbleByte(ch, c, t - 8) + 4 * ch && t % 2 == (t - 8) % 2
    ensures t >= 8 ==> (t - 8) / 2 == t / 2 - 4
  {
    TimesStep(if t >= 8 then (t - 8) / 8 else 0, 4 * ch);
    hide Times;
    if t >= 8 {
      assert t / 8 == (t - 8) / 8 + 1 && t % 8 == (t - 8) % 8;
    }
  }

  lemma NibbleAtIs(s: seq<byte>, ch: nat, c: nat, t: nat)
    ensures NibbleByte(ch, c, t) < |s| ==>
              NibbleAt(s, ch, c, t) == if t % 2 == 0 then s[NibbleByte(ch, c, t)] % 16 else s[NibbleByte(ch, c, t)] / 16
  {
    hide NibbleByte;
  }

  lemma BytesStep(s: seq<byte>, ch: nat, c: nat)
    requires c < ch && ChannelBytes(s, ch, c) != []
    ensures 4 * ch <= |s| && 4 * c + 4 <= 4 * ch
    ensures ChannelBytes(s, ch, c) == s[4 * c..4 * c + 4] + ChannelBytes(s[4 * ch..], ch, c)
  {
  }

  lemma FirstPart(s: seq<byte>, ch: nat, c: nat, k: nat)
    requires c < ch && ChannelBytes(s, ch, c) != [] && k < 4
    ensures k < |ChannelBytes(s, ch, c)| && 4 * c + k < |s| && ChannelBytes(s, ch, c)[k] == s[4 * c + k]
  {
    hide *;
    BytesStep(s, ch, c);
  }

  lemma LaterPart(s: seq<byte>, ch: nat, c: nat, k: nat)
    requires c < ch && 4 <= k < |ChannelBytes(s, ch, c)|
    ensures 4 * ch <= |s| && k - 4 < |ChannelBytes(s[4 * ch..], ch, c)|
    ensures |ChannelBytes(s, ch, c)| == 4 + |ChannelBytes(s[4 * ch..], ch, c)|
    ensures ChannelBytes(s, ch, c)[k] == ChannelBytes(s[4 * ch..], ch, c)[k - 4]
  {
    hide *;
    BytesStep(s, ch, c);
  }

  // ---- One sample after the other ----

  function Limited(x: int): int {
    if x < -32768 then -32768 else if x > 32767 then 32767 else x
  }

  /** The exact size of a difference: (2m + 1) eighths of the step, less what the three shifts drop. */
  lemma ExactDiff(step: nat, n: nibble)
    ensures var m := n % 8;
            var dropped := step % 8 + (if m % 2 == 1 then 2 * (step % 4) else 0) + (if m == 2 || m == 3 || m >= 6 then 4 * (step % 2) else 0);
            8 * Diff(step, n) == (if n < 8 then 1 else -1) * ((2 * m + 1) * step - dropped)
  {
    hide *;
    var m: nat := n % 8;
    DiffOf(step, n);
    Eighth(step);
    Weighed(m, step);
  }

  /** The difference, written out for each nibble. */
  lemma DiffOf(step: nat, n: nibble)
    ensures var m := n % 8;
            var d := step / 8 + (if m % 2 == 1 then step / 4 else 0)
                     + (if m == 2 || m == 3 || m >= 6 then step / 2 else 0) + (if m >= 4 then step else 0);
            Diff(step, n) == if n < 8 then d else -d
  {
  }

  lemma Eighth(step: nat)
    ensures 8 * (step / 8) == step - step % 8
    ensures 8 * (step / 4) == 2 * step - 2 * (step % 4)
    ensures 8 * (step / 2) == 4 * step - 4 * (step % 2)
  {
  }

  lemma Weighed(m: nat, step: nat)
    requires m < 8
    ensures (2 * m + 1) * step
            == step + (if m % 2 == 1 then 2 * step else 0) + (if m == 2 || m == 3 || m >= 6 then 4 * step else 0)
               + (if m >= 4 then 8 * step else 0)
  {
    if m == 0 {} else if m == 1 {} else if m == 2 {} else if m == 3 {} else if m == 4 {} else if m == 5 {} else if m == 6 {}
  }

  /** One nibble: the sample moves by the difference, within 16 bits; the index by -1, or 2, 4, 6, 8, within 0..88. */
  lemma StepMoves(c: Channel, n: nibble)
    requires c.InRange()
    ensures |STEP_TABLE| == 89
    ensures Step(c, n).predictor == Limited(c.predictor + Diff(STEP_TABLE[c.stepIndex], n))
    ensures var i := if n % 8 < 4 then c.stepIndex - 1 else c.stepIndex + 2 * (n % 8 - 3);
            Step(c, n).stepIndex == if i < 0 then 0 else if i > 88 then 88 else i
  {
    hide Diff;
  }

  // ---- The tables ----

  /** From one step size to the next: about a tenth more, until the last. */
  predicate TenthMore(a: int, b: int) {
    7 <= a < b && -8 <= 10 * b - 11 * a <= 8
  }

  lemma StepSizes(i: nat)
    requires i < 88
    ensures |STEP_TABLE| == 89 && STEP_TABLE[0] == 7 && STEP_TABLE[88] == 32767
    ensures if i < 87 then TenthMore(STEP_TABLE[i], STEP_TABLE[i + 1]) else STEP_TABLE[i] < STEP_TABLE[i + 1]
  {
    hide *;
    StepEnds();
    if i < 30 {
      StepsBelow30(i);
    } else if i < 60 {
      StepsBelow60(i);
    } else if i < 87 {
      StepsBelow87(i);
    }
  }

  lemma StepEnds()
    ensures |STEP_TABLE| == 89 && STEP_TABLE[0] == 7 && STEP_TABLE[87] < STEP_TABLE[88] == 32767
  {
  }

  lemma StepsBelow30(i: nat)
    requires i < 30
    ensures |STEP_TABLE| == 89 && TenthMore(STEP_TABLE[i], STEP_TABLE[i + 1])
  {
  }

  lemma StepsBelow60(i: nat)
    requires 30 <= i < 60
    ensures |STEP_TABLE| == 89 && TenthMore(STEP_TABLE[i], STEP_TABLE[i + 1])
  {
  }

  lemma StepsBelow87(i: nat)
    requires 60 <= i < 87
    ensures |STEP_TABLE| == 89 && TenthMore(STEP_TABLE[i], STEP_TABLE[i + 1])
  {
  }

  /** How far a nibble of 4 moves a sample, for each index: nine eighths of the step size. */
  const JUMPS: seq<int> :=
    [7, 9, 10, 11, 12, 13, 14, 15, 18, 19] +
    [21, 23, 25, 28, 31, 34, 38, 41, 46, 50] +
    [56, 61, 67, 74, 82, 90, 99, 109, 120, 132] +
    [146, 160, 176, 194, 213, 235, 258, 284, 313, 345] +
    [379, 417, 459, 505, 555, 612, 672, 740, 814, 895] +
    [985, 1083, 1192, 1311, 1442, 1587, 1746, 1920, 2112, 2324] +
    [2556, 2811, 3092, 3402, 3742, 4117, 4529, 4981, 5479, 6027] +
    [6630, 7294, 8023, 8825, 9708, 10679, 11747, 12922, 14214, 15636] +
    [17200, 18920, 20812, 22893, 25183, 27700, 30471, 33518, 36862]

  lemma Jumps(i: nat)
    requires i < 89
    ensures |JUMPS| == 89 && Channel(-32768, i).InRange() && Channel(32767, i).InRange()
    ensures Step(Channel(-32768, i), 4).predictor == -32768 + JUMPS[i]
    ensures Step(Channel(32767, i), 12).predictor == 32767 - JUMPS[i]
  {
    hide *;
    JumpsAre(i);
    IndexInRange(i);
    StepMoves(Channel(-32768, i), 4);
    StepMoves(Channel(32767, i), 12);
    DiffOf(STEP_TABLE[i], 4);
    DiffOf(STEP_TABLE[i], 12);
    LimitedIs(-32768 + JUMPS[i]);
    LimitedIs(32767 - JUMPS[i]);
  }

  lemma LimitedIs(x: int)
    ensures -32768 <= x <= 32767 ==> Limited(x) == x
  {
  }

  lemma IndexInRange(i: nat)
    requires i < 89
    ensures Channel(-32768, i).InRange() && Channel(32767, i).InRange()
  {
  }

  lemma JumpsAre(i: nat)
    requires i < 89
    ensures |JUMPS| == 89 && |STEP_TABLE| == 89
    ensures JUMPS[i] == STEP_TABLE[i] + STEP_TABLE[i] / 8 <= 65535 && STEP_TABLE[i] >= 0
  {
    hide *;
    if i < 20 {
      JumpsBelow20(i);
    } else if i < 30 {
      JumpsBelow30(i);
    } else if i < 40 {
      JumpsBelow40(i);
    } else if i < 50 {
      JumpsBelow50(i);
    } else if i < 60 {
      JumpsBelow60(i);
    } else {
      JumpsBelow89(i);
    }
    NineEighths(STEP_TABLE[i], JUMPS[i]);
  }

  predicate IsJump(step: int, jump: int) {
    0 <= step <= 32767 && 8 * (jump - step) <= step < 8 * (jump - step) + 8
  }

  lemma NineEighths(step: int, jump: int)
    requires IsJump(step, jump)
    ensures jump == step + step / 8 <= 65535 && step >= 0
  {
  }

  lemma JumpsBelow20(i: nat)
    requires i < 20
    ensures |JUMPS| == 89 && |STEP_TABLE| == 89 && IsJump(STEP_TABLE[i], JUMPS[i])
  {
  }

  lemma JumpsBelow30(i: nat)
    requires 20 <= i < 30
    ensures |JUMPS| == 89 && |STEP_TABLE| == 89 && IsJump(STEP_TABLE[i], JUMPS[i])
  {
  }

  lemma JumpsBelow40(i: nat)
    requires 30 <= i < 40
    ensures |JUMPS| == 89 && |STEP_TABLE| == 89 && IsJump(STEP_TABLE[i], JUMPS[i])
  {
  }

  lemma JumpsBelow50(i: nat)
    requires 40 <= i < 50
    ensures |JUMPS| == 89 && |STEP_TABLE| == 89 && IsJump(STEP_TABLE[i], JUMPS[i])
  {
  }

  lemma JumpsBelow60(i: nat)
    requires 50 <= i < 60
    ensures |JUMPS| == 89 && |STEP_TABLE| == 89 && IsJump(STEP_TABLE[i], JUMPS[i])
  {
  }

  lemma JumpsBelow89(i: nat)
    requires 60 <= i < 89
    ensures |JUMPS| == 89 && |STEP_TABLE| == 89 && IsJump(STEP_TABLE[i], JUMPS[i])
  {
  }

  // ---- The samples of a block ----

  /** The index of the step size that sample `t + 1` of a channel is made with. */
  function RefIndex(block: seq<byte>, ch: nat, c: nat, t: nat): (i: nat)
    requires c < ch && ValidBlock(block, ch)
    requires t <= 2 * |ChannelBytes(block[4 * ch..], ch, c)|
    ensures i < 89
  {
    After(HeaderChannel(block, c), Nibbles(ChannelBytes(block[4 * ch..], ch, c)), t).stepIndex
  }

  /** The first sample and the first index stand in the header. */
  lemma FirstSample(block: seq<byte>, ch: nat, c: nat)
    requires c < ch && ValidBlock(block, ch)
    ensures 4 * ch <= |block|
    ensures RefSample(block, ch, c, 0) == SignedOf(block[4 * c], block[4 * c + 1])
    ensures RefIndex(block, ch, c, 0) == block[4 * c + 2]
  {
    hide SignedOf;
    HeaderAt(block, c);
  }

  /** And every other follows from the one before it, by a nibble of the block and the step size of the index. */
  lemma NextSample(block: seq<byte>, ch: nat, c: nat, t: nat)
    requires c < ch && ValidBlock(block, ch) && t < 2 * |ChannelBytes(block[4 * ch..], ch, c)|
    ensures 4 * ch <= |block| && |STEP_TABLE| == 89
    ensures NibbleByte(ch, c, t) < |block| - 4 * ch
    ensures var n, i := NibbleAt(block[4 * ch..], ch, c, t), RefIndex(block, ch, c, t);
            var i' := if n % 8 < 4 then i - 1 else i + 2 * (n % 8 - 3);
            && RefSample(block, ch, c, t + 1) == Limited(RefSample(block, ch, c, t) + Diff(STEP_TABLE[i], n))
            && RefIndex(block, ch, c, t + 1) == if i' < 0 then 0 else if i' > 88 then 88 else i'
  {
    hide Step, ChannelBytes, Limited, NibbleAt, Diff, STEP_TABLE, Nibbles, WholeGroups;
    var ns := Nibbles(ChannelBytes(block[4 * ch..], ch, c));
    NibblesAt(block[4 * ch..], ch, c, t);
    StepMoves(After(HeaderChannel(block, c), ns, t), ns[t]);
  }
}
