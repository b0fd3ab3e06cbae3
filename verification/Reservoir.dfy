/**
 The bit reservoir of Layer III as a state machine over frames (section 2.4.2.7 of
 ISO/IEC 11172-3, main_data_begin). A frame's main data start some bytes back in the payloads of
 the frames before it; the decoder carries what it may still need, at most 511 bytes.
 */
module Reservoir {
  import opened Bytes

  const MAX_RESERVOIR := 511

  /** The last `n` elements, or all of them. */
  function Last(s: seq<byte>, n: nat): seq<byte> {
    if n < |s| then s[|s| - n..] else s
  }

  predicate IsSuffix(s: seq<byte>, t: seq<byte>) {
    |s| <= |t| && s == t[|t| - |s|..]
  }

  /** A Layer III frame whose side info was accepted. */
  datatype Frame = Frame(mainDataBegin: nat, payload: seq<byte>, part23Sum: nat)

  /** What the side info guarantees: its granules fit in the main data it asks for. */
  predicate Fits(f: Frame) {
    f.part23Sum <= 8 * (f.mainDataBegin + |f.payload|)
  }

  predicate Accepts(res: seq<byte>, f: Frame) {
    |res| >= f.mainDataBegin
  }

  function MainData(res: seq<byte>, f: Frame): seq<byte> {
    Last(res, f.mainDataBegin) + f.payload
  }

  /** Where decoding leaves the bit position: at the end of the granules, or at 0 when none is decoded. */
  function EndBit(res: seq<byte>, f: Frame, pcm: bool): nat {
    if pcm && Accepts(res, f) then f.part23Sum else 0
  }

  /** What follows a bit position, from the next byte boundary. */
  function After(main: seq<byte>, bit: nat): seq<byte> {
    var p := (bit + 7) / 8;
    if p < |main| then main[p..] else []
  }

  function Carry(res: seq<byte>, f: Frame, pcm: bool): seq<byte> {
    Last(After(MainData(res, f), EndBit(res, f, pcm)), MAX_RESERVOIR)
  }

  // ---- Runs ----

  /** `Reset`: the decoder lost sync or refused a side info, and starts over. */
  datatype Event = Reset | Play(frame: Frame)

  function Run(events: seq<Event>, pcm: bool): seq<byte> {
    if events == [] then []
    else match events[|events| - 1]
      case Reset => []
      case Play(f) => Carry(Run(events[..|events| - 1], pcm), f, pcm)
  }

  /** All payload bytes since the last reset. */
  function History(events: seq<Event>): seq<byte> {
    if events == [] then []
    else match events[|events| - 1]
      case Reset => []
      case Play(f) => History(events[..|events| - 1]) + f.payload
  }

  lemma SuffixTrans(a: seq<byte>, b: seq<byte>, c: seq<byte>)
    requires IsSuffix(a, b) && IsSuffix(b, c)
    ensures IsSuffix(a, c)
  {
    var j, k := |b| - |a|, |c| - |b|;
    forall i | 0 <= i < |a| ensures a[i] == c[|c| - |a|..][i] {
      assert a[i] == b[j..][i] == b[j + i] == c[k..][j + i] == c[k + j + i];
    }
  }

  lemma SuffixAppend(a: seq<byte>, b: seq<byte>, t: seq<byte>)
    requires IsSuffix(a, b)
    ensures IsSuffix(a + t, b + t)
  {
    assert (b + t)[|b + t| - |a + t|..] == b[|b| - |a|..] + t;
  }

  lemma LastIsSuffix(s: seq<byte>, n: nat)
    ensures IsSuffix(Last(s, n), s) && |Last(s, n)| == if n < |s| then n else |s|
  {
  }

  lemma AfterIsSuffix(s: seq<byte>, bit: nat)
    ensures IsSuffix(After(s, bit), s) && |After(s, bit)| == if (bit + 7) / 8 < |s| then |s| - (bit + 7) / 8 else 0
  {
  }

  /** Of two suffixes of one sequence, the shorter is a suffix of the longer. */
  lemma SuffixByLength(a: seq<byte>, b: seq<byte>, c: seq<byte>)
    requires IsSuffix(a, c) && IsSuffix(b, c) && |a| <= |b|
    ensures IsSuffix(a, b)
  {
    var k := |c| - |b|;
    forall i | 0 <= i < |a| ensures a[i] == b[|b| - |a|..][i] {
      assert a[i] == c[|c| - |a|..][i] == c[|c| - |a| + i];
      assert b[|b| - |a| + i] == c[k..][|b| - |a| + i];
    }
  }

  lemma SuffixSameLength(a: seq<byte>, b: seq<byte>)
    requires IsSuffix(a, b) && |a| == |b|
    ensures a == b
  {
  }

  /** Only bytes of the main data are carried over, and no more than the buffer holds. */
  lemma CarryFits(res: seq<byte>, f: Frame, pcm: bool)
    ensures |Carry(res, f, pcm)| <= MAX_RESERVOIR
    ensures IsSuffix(Carry(res, f, pcm), MainData(res, f))
  {
    hide IsSuffix, Last, After, MainData;
    var main, bit := MainData(res, f), EndBit(res, f, pcm);
    var rest := After(main, bit);
    CarryIs(res, f, pcm);
    AfterIsSuffix(main, bit);
    LastIsSuffix(rest, MAX_RESERVOIR);
    SuffixTrans(Last(rest, MAX_RESERVOIR), rest, main);
  }

  lemma CarryIs(res: seq<byte>, f: Frame, pcm: bool)
    ensures Carry(res, f, pcm) == Last(After(MainData(res, f), EndBit(res, f, pcm)), MAX_RESERVOIR)
    ensures MainData(res, f) == Last(res, f.mainDataBegin) + f.payload
  {
  }

  lemma RunStep(events: seq<Event>, pcm: bool)
    requires events != []
    ensures var e, before := events[|events| - 1], events[..|events| - 1];
            && (e.Reset? ==> Run(events, pcm) == [] && History(events) == [])
            && (e.Play? ==> Run(events, pcm) == Carry(Run(before, pcm), e.frame, pcm)
                            && History(events) == History(before) + e.frame.payload)
  {
  }

  /**
   Over any run, decoding or counting, the reservoir stays within its buffer and holds the latest
   payload bytes since the last reset.
   */
  lemma {:induction false} ReservoirIsRecentPayload(events: seq<Event>, pcm: bool)
    ensures |Run(events, pcm)| <= MAX_RESERVOIR
    ensures IsSuffix(Run(events, pcm), History(events))
  {
    if events != [] {
      var before, e := events[..|events| - 1], events[|events| - 1];
      ReservoirIsRecentPayload(before, pcm);
      hide Run, History, Carry;
      RunStep(events, pcm);
      if e.Play? {
        var res, f := Run(before, pcm), e.frame;
        CarryFits(res, f, pcm);
        MainDataIsRecent(res, History(before), f);
        SuffixTrans(Carry(res, f, pcm), MainData(res, f), History(before) + f.payload);
      }
    }
  }

  lemma MainDataIsRecent(res: seq<byte>, history: seq<byte>, f: Frame)
    requires IsSuffix(res, history)
    ensures IsSuffix(MainData(res, f), history + f.payload)
  {
    LastIsSuffix(res, f.mainDataBegin);
    SuffixTrans(Last(res, f.mainDataBegin), res, history);
    SuffixAppend(Last(res, f.mainDataBegin), history, f.payload);
  }

  /**
   The main data of an accepted frame are what the standard asks for: the payload stream from
   main_data_begin bytes before this frame's payload. The buffer they are put together in suffices,
   and granules that fit what the frame asks for end inside them.
   */
  lemma AcceptedMainData(events: seq<Event>, f: Frame, pcm: bool)
    requires Accepts(Run(events, pcm), f)
    ensures MainData(Run(events, pcm), f)
            == Last(History(events + [Play(f)]), f.mainDataBegin + |f.payload|)
    ensures |MainData(Run(events, pcm), f)| == f.mainDataBegin + |f.payload| <= MAX_RESERVOIR + |f.payload|
    ensures Fits(f) ==> f.part23Sum <= 8 * |MainData(Run(events, pcm), f)|
  {
    var res, whole := Run(events, pcm), events + [Play(f)];
    ReservoirIsRecentPayload(events, pcm);
    assert whole[..|whole| - 1] == events;
    var history := History(events) + f.payload;
    assert History(whole) == history;
    MainDataIsRecent(res, History(events), f);
    LastIsSuffix(res, f.mainDataBegin);
    LastIsSuffix(history, f.mainDataBegin + |f.payload|);
    SuffixByLength(MainData(res, f), Last(history, f.mainDataBegin + |f.payload|), history);
    SuffixSameLength(MainData(res, f), Last(history, f.mainDataBegin + |f.payload|));
  }

  /** The step of the two runs: whatever decoding keeps, counting keeps too. */
  lemma CarryMonotone(dec: seq<byte>, cnt: seq<byte>, f: Frame)
    requires IsSuffix(dec, cnt)
    ensures IsSuffix(Carry(dec, f, true), Carry(cnt, f, false))
  {
    hide IsSuffix, Last, After;
    var md, mc := MainData(dec, f), MainData(cnt, f);
    LastMonotone(dec, cnt, f.mainDataBegin);
    SuffixAppend(Last(dec, f.mainDataBegin), Last(cnt, f.mainDataBegin), f.payload);
    var rd := After(md, EndBit(dec, f, true));
    AfterIsSuffix(md, EndBit(dec, f, true));
    SuffixTrans(rd, md, mc);
    AfterNothing(mc);
    LastMonotone(rd, mc, MAX_RESERVOIR);
  }

  lemma AfterNothing(s: seq<byte>)
    ensures After(s, 0) == s
  {
  }

  lemma LastMonotone(a: seq<byte>, b: seq<byte>, n: nat)
    requires IsSuffix(a, b)
    ensures IsSuffix(Last(a, n), Last(b, n))
  {
    LastIsSuffix(a, n);
    LastIsSuffix(b, n);
    SuffixTrans(Last(a, n), a, b);
    SuffixLength(a, b);
    SuffixByLength(Last(a, n), Last(b, n), b);
  }

  lemma SuffixLength(a: seq<byte>, b: seq<byte>)
    requires IsSuffix(a, b)
    ensures |a| <= |b|
  {
  }

  /**
   Counting frames (no PCM wanted) and decoding them: over the same frames the counting run holds
   at least the bytes that the decoding run holds.
   */
  lemma {:induction false} CountingHoldsMore(events: seq<Event>)
    ensures IsSuffix(Run(events, true), Run(events, false))
  {
    if events != [] {
      var before, e := events[..|events| - 1], events[|events| - 1];
      CountingHoldsMore(before);
      hide Run, Carry;
      RunStep(events, true);
      RunStep(events, false);
      if e.Play? {
        CarryMonotone(Run(before, true), Run(before, false), e.frame);
      }
    }
  }

  /** How many of the frames of a run are accepted. */
  function Accepted(events: seq<Event>, pcm: bool): nat {
    if events == [] then 0
    else
      var before, e := events[..|events| - 1], events[|events| - 1];
      Accepted(before, pcm) + if e.Play? && Accepts(Run(before, pcm), e.frame) then 1 else 0
  }

  /** So every frame that decodes is counted, and the count is never too small. */
  lemma {:induction false} CountingAcceptsMore(events: seq<Event>)
    ensures Accepted(events, true) <= Accepted(events, false)
    ensures forall k :: 0 <= k < |events| && events[k].Play? && Accepts(Run(events[..k], true), events[k].frame)
                        ==> Accepts(Run(events[..k], false), events[k].frame)
  {
    hide Run;
    if events != [] {
      var before := events[..|events| - 1];
      CountingAcceptsMore(before);
      CountingHoldsMore(before);
    }
    forall k | 0 <= k < |events| && events[k].Play? && Accepts(Run(events[..k], true), events[k].frame)
      ensures Accepts(Run(events[..k], false), events[k].frame)
    {
      CountingHoldsMore(events[..k]);
    }
  }

  // ---- Where the two runs part, by sizes ----

  /** How many bytes are carried over a frame, given how many were held before it. */
  function Kept(held: nat, f: Frame, pcm: bool): nat {
    var main := (if f.mainDataBegin < held then f.mainDataBegin else held) + |f.payload|;
    var used := if pcm && held >= f.mainDataBegin then (f.part23Sum + 7) / 8 else 0;
    if used >= main then 0 else if main - used > MAX_RESERVOIR then MAX_RESERVOIR else main - used
  }

  /** The size of the reservoir: sizes of payloads, bit counts and back pointers are all it takes. */
  function Held(events: seq<Event>, pcm: bool): nat {
    if events == [] then 0
    else match events[|events| - 1]
      case Reset => 0
      case Play(f) => Kept(Held(events[..|events| - 1], pcm), f, pcm)
  }

  lemma CarrySize(res: seq<byte>, f: Frame, pcm: bool)
    ensures |Carry(res, f, pcm)| == Kept(|res|, f, pcm)
  {
    hide After, Last;
    var main := MainData(res, f);
    LastIsSuffix(res, f.mainDataBegin);
    AfterIsSuffix(main, EndBit(res, f, pcm));
    LastIsSuffix(After(main, EndBit(res, f, pcm)), MAX_RESERVOIR);
  }

  lemma {:induction false} HeldIsSize(events: seq<Event>, pcm: bool)
    ensures Held(events, pcm) == |Run(events, pcm)|
  {
    hide Carry, Kept;
    if events != [] {
      var before, e := events[..|events| - 1], events[|events| - 1];
      HeldIsSize(before, pcm);
      RunStep(events, pcm);
      if e.Play? {
        CarrySize(Run(before, pcm), e.frame, pcm);
      }
    }
  }

  /** After a frame that is not decoded, all it has is kept, up to 511 bytes; after one that is, what its granules leave. */
  lemma KeptOfFrame(held: nat, f: Frame)
    requires f.mainDataBegin <= held
    ensures var main := f.mainDataBegin + |f.payload|;
            && Kept(held, f, false) == (if main > 511 then 511 else main)
            && (8 * main >= f.part23Sum ==>
                  8 * Kept(held, f, true) <= 8 * main - f.part23Sum
                  && (Kept(held, f, true) < 511 ==> 8 * main - f.part23Sum < 8 * Kept(held, f, true) + 8))
  {
  }

  /** What the granules of the frames before it leave is enough for each frame that is counted. */
  predicate LeavesEnough(events: seq<Event>) {
    forall k :: 0 <= k < |events| && events[k].Play? ==> EnoughAt(events[..k], events[k].frame)
  }

  predicate EnoughAt(before: seq<Event>, f: Frame) {
    f.mainDataBegin <= Held(before, false) ==> f.mainDataBegin <= Held(before, true)
  }

  lemma EnoughStep(events: seq<Event>)
    requires events != []
    ensures var before, e := events[..|events| - 1], events[|events| - 1];
            LeavesEnough(events) <==> LeavesEnough(before) && (e.Play? ==> EnoughAt(before, e.frame))
  {
    hide EnoughAt;
    var before := events[..|events| - 1];
    forall k | 0 <= k < |before| ensures events[..k] == before[..k] && events[k] == before[k] {
    }
  }

  lemma AcceptedStep(events: seq<Event>, pcm: bool)
    requires events != []
    ensures var before, e := events[..|events| - 1], events[|events| - 1];
            Accepted(events, pcm)
            == Accepted(before, pcm) + if e.Play? && e.frame.mainDataBegin <= Held(before, pcm) then 1 else 0
  {
    hide Held, Run;
    HeldIsSize(events[..|events| - 1], pcm);
  }

  lemma HeldAtMost(events: seq<Event>)
    ensures Held(events, true) <= Held(events, false)
  {
    hide *;
    HeldIsSize(events, true);
    HeldIsSize(events, false);
    CountingHoldsMore(events);
    SuffixLength(Run(events, true), Run(events, false));
  }

  /** Counting gives the number of frames that decode if and only if each counted frame finds enough bytes left. */
  lemma {:induction false} CountIsDecodedIff(events: seq<Event>)
    ensures Accepted(events, true) == Accepted(events, false) <==> LeavesEnough(events)
    ensures Accepted(events, true) <= Accepted(events, false)
  {
    hide Held, LeavesEnough, Accepted;
    if events == [] {
      NoEvents();
    } else {
      var before := events[..|events| - 1];
      CountIsDecodedIff(before);
      EnoughStep(events);
      AcceptedStep(events, true);
      AcceptedStep(events, false);
      HeldAtMost(before);
    }
  }

  lemma NoEvents()
    ensures Accepted([], true) == Accepted([], false) == 0 && LeavesEnough([])
  {
  }
}
