/**
 Which frame of a buffer is decoded: how one is found behind other bytes, when the next one follows on from the last,
 and when everything is forgotten.
 */
module Mp3Sync {
  import opened Bytes
  import opened Mp3Header
  import opened Mp3HeaderBits
  import opened Reservoir
  import opened Mp3Decoder
  import opened Mp3SilentFrames

  // ---- The search ----

  /** Ten headers that go with the one at `i` follow it; or fewer, but one at least, and then the buffer ends. */
  ghost predicate Matches(mp3: seq<byte>, i: nat, free: nat)
    requires i + 4 <= |mp3| && IsValid(HeaderAt(mp3, i))
  {
    Chain(mp3, i, i, free, 10) || exists n: nat :: 1 <= n < 10 && ChainEnds(mp3, i, i, free, n, false)
  }

  lemma {:induction false} MatchGives(mp3: seq<byte>, at: nat, p: nat, free: nat, matched: nat) returns (n: nat)
    requires at + HDR_SIZE <= |mp3| && p + HDR_SIZE <= |mp3| && IsValid(HeaderAt(mp3, p))
    requires matched <= 10 && MatchFrom(mp3, at, p, free, matched)
    ensures n <= 10 - matched
    ensures if n == 10 - matched then Chain(mp3, at, p, free, n)
            else matched + n > 0 && ChainEnds(mp3, at, p, free, n, false)
    decreases 10 - matched
  {
    hide SizeOf, Compare, IsValid, HeaderAt;
    var q := p + SizeOf(HeaderAt(mp3, p), free);
    if matched == 10 || q + HDR_SIZE > |mp3| {
      n := 0;
    } else {
      CompareIsValid(HeaderAt(mp3, at), HeaderAt(mp3, q));
      n := MatchGives(mp3, at, q, free, matched + 1);
      n := n + 1;
    }
  }

  lemma MatchIff(mp3: seq<byte>, i: nat, free: nat)
    requires i + HDR_SIZE <= |mp3| && IsValid(HeaderAt(mp3, i))
    ensures MatchFrom(mp3, i, i, free, 0) <==> Matches(mp3, i, free)
  {
    hide MatchFrom, Chain, ChainEnds, IsValid, HeaderAt;
    if MatchFrom(mp3, i, i, free, 0) {
      var n := MatchGives(mp3, i, i, free, 0);
    }
    if Chain(mp3, i, i, free, 10) {
      TenMatch(mp3, i, i, free, 10);
    }
    forall n: nat | 1 <= n < 10 && ChainEnds(mp3, i, i, free, n, false)
      ensures MatchFrom(mp3, i, i, free, 0)
    {
      FewerMatch(mp3, i, i, free, n, 0, false);
    }
  }

  /** The size of a candidate: by its bitrate, or by the two free format frames behind it. */
  function Measured(mp3: seq<byte>, i: nat): Size
    requires i + 4 <= |mp3| && IsValid(HeaderAt(mp3, i))
  {
    SizeFrom(mp3, i, HDR_SIZE, InitialSize(HeaderAt(mp3, i), 0))
  }

  /** A frame starts at `i`: all of it is there and others follow, or the buffer is this frame. */
  ghost predicate Starts(mp3: seq<byte>, i: nat)
    requires i + 4 <= |mp3|
  {
    && IsValid(HeaderAt(mp3, i))
    && var s := Measured(mp3, i);
       || (s.frameBytes != 0 && i + s.withPadding <= |mp3| && Matches(mp3, i, s.frameBytes))
       || (i == 0 && s.withPadding == |mp3|)
  }

  /** The frame that is found is the first that starts anywhere; without one, all bytes are passed over. */
  lemma FoundFirst(mp3: seq<byte>)
    ensures var f := FindFrom(mp3, 0, 0);
            && (f.size == 0 ==> f.at == |mp3| && forall i: nat :: i + 4 < |mp3| ==> !Starts(mp3, i))
            && (f.size > 0 ==>
                  && f.at + 4 < |mp3| && Starts(mp3, f.at) && f.size == Measured(mp3, f.at).withPadding
                  && forall i: nat :: i < f.at ==> !Starts(mp3, i))
  {
    hide *;
    FoundFrom(mp3, 0);
    FreeLimit();
    FindFromSound(mp3, 0, 0);
    SoundIs(mp3, FindFrom(mp3, 0, 0));
    FourBytes();
  }

  lemma FreeLimit()
    ensures MAX_FREE_FORMAT_FRAME_SIZE == 2304
  {
  }

  lemma StartsIff(mp3: seq<byte>, i: nat)
    requires i + HDR_SIZE <= |mp3|
    ensures HDR_SIZE == 4
    ensures Starts(mp3, i) <==> IsValid(HeaderAt(mp3, i)) && Acceptable(mp3, i, Measured(mp3, i))
    ensures IsValid(HeaderAt(mp3, i)) ==>
              Measured(mp3, i) == SizeFrom(mp3, i, HDR_SIZE, InitialSize(HeaderAt(mp3, i), 0))
  {
    hide IsValid, HeaderAt, SizeFrom, MatchFrom, Matches;
    if IsValid(HeaderAt(mp3, i)) {
      MatchIff(mp3, i, Measured(mp3, i).frameBytes);
    }
  }

  lemma {:induction false} FoundFrom(mp3: seq<byte>, k: nat)
    ensures var f := FindFrom(mp3, k, 0);
            || (f == Found(|mp3|, 0, 0) && forall i: nat :: k <= i && i + 4 < |mp3| ==> !Starts(mp3, i))
            || (&& k <= f.at && f.at + 4 < |mp3| && Starts(mp3, f.at) && f.size == Measured(mp3, f.at).withPadding
                && forall i: nat :: k <= i < f.at ==> !Starts(mp3, i))
    decreases |mp3| - k
  {
    hide *;
    FourBytes();
    FindFromIs(mp3, k, 0);
    if k + HDR_SIZE < |mp3| {
      StartsIff(mp3, k);
      if !Starts(mp3, k) {
        FoundFrom(mp3, k + 1);
      }
    }
  }

  // ---- Behind other bytes ----

  /** A byte of which no header can start. */
  predicate NoSync(b: seq<byte>) { forall i :: 0 <= i < |b| ==> b[i] != 0xFF }

  lemma {:induction false} Passed(mp3: seq<byte>, from: nat, last: nat)
    requires from <= last && last + 4 < |mp3|
    requires forall i: nat :: from <= i < last ==> !IsValid(HeaderAt(mp3, i))
    ensures FindFrom(mp3, from, 0) == FindFrom(mp3, last, 0)
    decreases last - from
  {
    hide *;
    FourBytes();
    if from < last {
      FindFromIs(mp3, from, 0);
      Passed(mp3, from + 1, last);
    }
  }

  lemma NoHeaderIn(mp3: seq<byte>, i: nat)
    requires i + 4 <= |mp3|
    ensures mp3[i] != 0xFF ==> !IsValid(HeaderAt(mp3, i))
    ensures mp3[i + 1] == 0 ==> !IsValid(HeaderAt(mp3, i))
  {
  }

  /** Where the parts of two frames behind other bytes are. */
  lemma TwoParts(junk: seq<byte>, a: seq<byte>, b: seq<byte>)
    requires |a| >= 4 && |b| >= 4
    ensures var mp3 := junk + a + b;
            && |mp3| == |junk| + |a| + |b|
            && HeaderAt(mp3, |junk|) == a[..4] && HeaderAt(mp3, |junk| + |a|) == b[..4]
            && mp3[|junk|..|junk| + |a|] == a
            && (forall i :: 0 <= i < |junk| ==> mp3[i] == junk[i])
  {
  }

  /** Two frames that go together, behind other bytes: the first is found. */
  lemma FirstOfTwo(s: State, junk: seq<byte>, x: Fields, y: Fields)
    requires NoSync(junk) && Sized(x) && Sized(y) && x.version == y.version && x.rate == y.rate
    ensures SizeIn(x) >= 6 && SizeIn(y) >= 6
    ensures var f := Locate(s, junk + SilentFrame(x) + SilentFrame(y)).0; f.at == |junk| && f.size == SizeIn(x)
  {
    hide *;
    FourBytes();
    SizedIs(x);
    RoomForSideInfo(x);
    RoomForSideInfo(y);
    var a, b := SilentFrame(x), SilentFrame(y);
    var mp3 := junk + a + b;
    SilentParts(x);
    SilentParts(y);
    TwoParts(junk, a, b);
    SizeOfIs(x, s.free);
    SizeOfIs(x, 0);
    GoTogether(x, y);
    ContinuesIs(s, mp3);
    if Continues(s, mp3) {
      if junk != [] {
        Junk(junk, 0);
        NoHeaderIn(mp3, 0);
      }
    } else {
      forall i: nat | 0 <= i < |junk| ensures !IsValid(HeaderAt(mp3, i)) {
        Junk(junk, i);
        NoHeaderIn(mp3, i);
      }
      Passed(mp3, 0, |junk|);
      FindFromIs(mp3, |junk|, 0);
      var z := Size(FrameBytes(HeaderOf(x), 0), SizeIn(x), 0);
      NotSearched(mp3, |junk|, z);
      SizeFromIs(mp3, |junk|, HDR_SIZE, z);
      SizeOfIs(y, z.frameBytes);
      SizeOfIs(x, z.frameBytes);
      OneMatches(mp3, |junk|, z.frameBytes);
      AcceptableIs(mp3, |junk|, z);
    }
  }

  lemma Junk(junk: seq<byte>, i: nat)
    requires NoSync(junk) && i < |junk|
    ensures junk[i] != 0xFF
  {
  }

  lemma GoTogether(x: Fields, y: Fields)
    requires Sized(x) && Sized(y) && x.version == y.version && x.rate == y.rate
    ensures Compare(HeaderOf(x), HeaderOf(y)) && IsValid(HeaderOf(y))
  {
    hide *;
    SizedIs(x);
    SizedIs(y);
    SizeOfIs(y, 0);
    AlikeIff(x, y);
  }

  lemma NotSearched(mp3: seq<byte>, i: nat, z: Size)
    requires z.frameBytes > 0
    ensures !Searching(mp3, i, HDR_SIZE, z)
  {
  }

  /** One header that goes with a candidate is enough at the end of the buffer; none is not. */
  lemma OneMatches(mp3: seq<byte>, i: nat, free: nat)
    requires i + HDR_SIZE <= |mp3| && IsValid(HeaderAt(mp3, i))
    ensures var q := i + SizeOf(HeaderAt(mp3, i), free);
            && (q + HDR_SIZE > |mp3| ==> !MatchFrom(mp3, i, i, free, 0))
            && (q + HDR_SIZE <= |mp3| && Compare(HeaderAt(mp3, i), HeaderAt(mp3, q)) ==>
                  && IsValid(HeaderAt(mp3, q))
                  && (q + SizeOf(HeaderAt(mp3, q), free) + HDR_SIZE > |mp3| ==> MatchFrom(mp3, i, i, free, 0)))
  {
    hide *;
    SyncMatches();
    MatchFromIs(mp3, i, i, free, 0);
    var q := i + SizeOf(HeaderAt(mp3, i), free);
    if q + HDR_SIZE <= |mp3| && Compare(HeaderAt(mp3, i), HeaderAt(mp3, q)) {
      CompareIsValid(HeaderAt(mp3, i), HeaderAt(mp3, q));
      MatchFromIs(mp3, i, q, free, 1);
    }
  }

  lemma SyncMatches()
    ensures MAX_FRAME_SYNC_MATCHES == 10
  {
  }

  /** Decoding it consumes the other bytes with it, and reports its samples and its fields. */
  lemma TwoBehind(s: State, junk: seq<byte>, x: Fields, y: Fields, pcm: bool, fits: seq<byte> -> bool, info0: FrameInfo)
    requires NoSync(junk) && Sized(x) && Sized(y) && x.version == y.version && x.rate == y.rate
    requires s.free < MAX_FREE_FORMAT_FRAME_SIZE
    ensures SizeIn(x) >= 6 && SizeIn(y) >= 6
    ensures var mp3 := junk + SilentFrame(x) + SilentFrame(y);
            && Decode(s, mp3, pcm, fits).consumed == |junk| + SizeIn(x)
            && Decode(s, mp3, pcm, fits).samples == (if x.version.Mpeg1? then 1152 else 576)
            && Sound(mp3, Locate(s, mp3).0)
            && FrameInfoOf(mp3, Locate(s, mp3).0, info0)
               == FrameInfo(|junk| + SizeIn(x), if x.mode == 3 then 1 else 2, RateOf(x.version, x.rate), 3,
                            KbpsOf(x.version, 3, x.bitrate))
  {
    hide *;
    SizedIs(x);
    FirstOfTwo(s, junk, x, y);
    var frame, h := SilentFrame(x), HeaderOf(x);
    var mp3 := junk + frame + SilentFrame(y);
    SilentParts(x);
    SilentParts(y);
    TwoParts(junk, frame, SilentFrame(y));
    SizeOfIs(x, 0);
    SilentAccepted(x);
    DecodeIs(s, mp3, pcm, fits);
    Mp3SilentFrames.BodySamples(Locate(s, mp3).1, frame, h, pcm, fits);
    SamplesAre(x);
    SamplesIs(x.version, 3);
    LocateSound(s, mp3);
    FrameInfoIs(mp3, Locate(s, mp3).0, info0);
    RateIs(x);
    KbpsIs(x);
    FieldsBack(x);
  }

  /** But one frame alone behind other bytes is not found: all bytes are consumed, and nothing else reported. */
  lemma OneBehind(s: State, junk: seq<byte>, x: Fields, pcm: bool, fits: seq<byte> -> bool, info0: FrameInfo)
    requires NoSync(junk) && junk != [] && Sized(x) && s.free < MAX_FREE_FORMAT_FRAME_SIZE
    ensures SizeIn(x) >= 6
    ensures var mp3 := junk + SilentFrame(x);
            && Decode(s, mp3, pcm, fits) == Outcome(State([0, 0, 0, 0], 0, []), 0, |mp3|)
            && Sound(mp3, Locate(s, mp3).0)
            && FrameInfoOf(mp3, Locate(s, mp3).0, info0) == info0.(frameBytes := |mp3|)
  {
    hide *;
    RoomForSideInfo(x);
    var mp3 := junk + SilentFrame(x);
    NoneFound(s, junk, x);
    DecodeIs(s, mp3, pcm, fits);
    LocateSound(s, mp3);
    FrameInfoIs(mp3, Locate(s, mp3).0, info0);
  }

  lemma NoneFound(s: State, junk: seq<byte>, x: Fields)
    requires NoSync(junk) && junk != [] && Sized(x)
    ensures SizeIn(x) >= 6
    ensures var mp3 := junk + SilentFrame(x);
            Locate(s, mp3) == (Found(|mp3|, 0, 0), State([0, 0, 0, 0], 0, []))
  {
    hide *;
    FourBytes();
    SizedIs(x);
    RoomForSideInfo(x);
    var mp3, at := junk + SilentFrame(x), |junk|;
    SilentParts(x);
    SizeOfIs(x, 0);
    OnePart(junk, SilentFrame(x));
    ContinuesIs(s, mp3);
    NothingLeft();
    Junk(junk, 0);
    NoHeaderIn(mp3, 0);
    forall i: nat | 0 <= i < at ensures !IsValid(HeaderAt(mp3, i)) {
      Junk(junk, i);
      NoHeaderIn(mp3, i);
    }
    Passed(mp3, 0, at);
    FindFromIs(mp3, at, 0);
    var z := Size(FrameBytes(HeaderOf(x), 0), SizeIn(x), 0);
    NotSearched(mp3, at, z);
    SizeFromIs(mp3, at, HDR_SIZE, z);
    SizeOfIs(x, z.frameBytes);
    OneMatches(mp3, at, z.frameBytes);
    AcceptableIs(mp3, at, z);
    forall i: nat | at + 1 <= i < |mp3| - 4 ensures !IsValid(HeaderAt(mp3, i)) {
      InsideSilent(x, i - at);
      NoHeaderIn(mp3, i);
    }
    PassedAll(mp3, at + 1);
  }

  lemma NothingLeft()
    ensures ZEROED == State([0, 0, 0, 0], 0, [])
  {
  }

  lemma OnePart(junk: seq<byte>, a: seq<byte>)
    requires |a| >= 4
    ensures var mp3 := junk + a;
            && |mp3| == |junk| + |a| && HeaderAt(mp3, |junk|) == a[..4]
            && (forall i :: 0 <= i < |junk| ==> mp3[i] == junk[i])
            && (forall i :: |junk| <= i < |mp3| ==> mp3[i] == a[i - |junk|])
  {
  }

  lemma InsideSilent(x: Fields, i: nat)
    requires Sized(x) && SizeIn(x) >= 6 && 1 <= i < SizeIn(x) - 4
    ensures SilentFrame(x)[i] != 0xFF || SilentFrame(x)[i + 1] == 0
  {
    hide SizeIn;
    SecondByte(x);
    ThirdByte(x);
  }

  lemma {:induction false} PassedAll(mp3: seq<byte>, from: nat)
    requires from < |mp3|
    requires forall i: nat :: from <= i < |mp3| - 4 ==> !IsValid(HeaderAt(mp3, i))
    ensures FindFrom(mp3, from, 0) == Found(|mp3|, 0, 0)
    decreases |mp3| - from
  {
    hide *;
    FourBytes();
    FindFromIs(mp3, from, 0);
    if from < |mp3| - 4 {
      PassedAll(mp3, from + 1);
    }
  }

  // ---- From one frame to the next ----

  /**
   After a frame with the header of `w`, a buffer that begins with the header of `x`. If version, layer and rate are the
   same and neither is free format, and the frame ends the buffer or another such header follows it, then it is next,
   and nothing is forgotten. Otherwise all is forgotten, and the search begins.
   */
  lemma NextInSync(s: State, w: Fields, x: Fields, mp3: seq<byte>)
    requires InBits(w) && s.header == HeaderOf(w) && Sized(x) && |mp3| > 4 && HeaderAt(mp3, 0) == HeaderOf(x)
    ensures var n, f := SizeIn(x), FindFrom(mp3, 0, 0);
            if && w.version == x.version && w.layer == 3 && w.rate == x.rate && w.bitrate > 0
               && (|mp3| == n || (|mp3| >= n + 4 && Compare(HeaderOf(x), HeaderAt(mp3, n))))
            then Locate(s, mp3) == (Found(0, n, s.free), s)
            else Locate(s, mp3) == (f, State([0, 0, 0, 0], f.free, []))
  {
    hide *;
    FourBytes();
    SizedIs(x);
    RoomForSideInfo(x);
    SizeOfIs(x, s.free);
    AlikeIff(w, x);
    Synced(w);
    NothingLeft();
    ContinuesIs(s, mp3);
  }

  lemma Synced(w: Fields)
    requires InBits(w)
    ensures HeaderOf(w)[0] == 0xFF
  {
  }

  /** The frame that a call decodes, and its header. */
  predicate Next(s: State, mp3: seq<byte>, frame: seq<byte>, h: Header) {
    var f := Locate(s, mp3).0;
    && f.size > 0 && f.at + f.size <= |mp3| && f.at + 4 <= |mp3|
    && frame == mp3[f.at..f.at + f.size] && h == HeaderAt(mp3, f.at)
  }

  /** What decoding it comes to, in the state in which it was found. */
  lemma NextDecoded(s: State, mp3: seq<byte>, frame: seq<byte>, h: Header, pcm: bool, fits: seq<byte> -> bool)
    requires s.free < MAX_FREE_FORMAT_FRAME_SIZE && Next(s, mp3, frame, h)
    ensures var d, t := DecodeBody(Locate(s, mp3).1, frame, h, pcm, fits), Decode(s, mp3, pcm, fits);
            t.state == d.state && t.samples == d.samples
    ensures Locate(s, mp3).1.free == Locate(s, mp3).0.free
  {
    hide *;
    NextIs(s, mp3, frame, h);
    DecodeIs(s, mp3, pcm, fits);
  }

  lemma NextIs(s: State, mp3: seq<byte>, frame: seq<byte>, h: Header)
    ensures Next(s, mp3, frame, h) ==>
              var f := Locate(s, mp3).0;
              && f.size > 0 && f.at + f.size <= |mp3| && f.at + 4 <= |mp3|
              && frame == mp3[f.at..f.at + f.size] && h == HeaderAt(mp3, f.at)
  {
    hide Locate;
  }

  /** A frame that is refused gives no samples, and whatever comes next is searched for from the beginning. */
  lemma RefusedStartsOver(s: State, mp3: seq<byte>, frame: seq<byte>, h: Header, pcm: bool, fits: seq<byte> -> bool,
                          next: seq<byte>)
    requires s.free < MAX_FREE_FORMAT_FRAME_SIZE && Next(s, mp3, frame, h) && IsLayer3(h) && Refused(frame, h)
    ensures Decode(s, mp3, pcm, fits).samples == 0
    ensures var t, f := Decode(s, mp3, pcm, fits).state, FindFrom(next, 0, 0);
            Locate(t, next) == (f, State([0, 0, 0, 0], f.free, []))
  {
    hide *;
    NextDecoded(s, mp3, frame, h, pcm, fits);
    BodyRefused(Locate(s, mp3).1, frame, h, pcm, fits);
    NothingLeft();
    ContinuesIs(Decode(s, mp3, pcm, fits).state, next);
  }

  lemma BodyRefused(s: State, frame: seq<byte>, h: Header, pcm: bool, fits: seq<byte> -> bool)
    requires IsLayer3(h) && Refused(frame, h)
    ensures DecodeBody(s, frame, h, pcm, fits).samples == 0
    ensures DecodeBody(s, frame, h, pcm, fits).state.header[0] == 0
  {
    hide Refused, IsLayer3;
  }

  /** One that is not refused leaves its header for the next, whether or not it found its main data. */
  lemma AcceptedStaysInSync(s: State, mp3: seq<byte>, frame: seq<byte>, h: Header, pcm: bool, fits: seq<byte> -> bool)
    requires s.free < MAX_FREE_FORMAT_FRAME_SIZE && Next(s, mp3, frame, h) && IsLayer3(h) && !Refused(frame, h)
    ensures var t := Decode(s, mp3, pcm, fits);
            && t.state.header == h && t.state.free == Locate(s, mp3).0.free
            && (t.samples > 0 <==> FrameOf(frame, h).mainDataBegin <= |Locate(s, mp3).1.reservoir|)
  {
    hide *;
    NextDecoded(s, mp3, frame, h, pcm, fits);
    BodyAccepted(Locate(s, mp3).1, frame, h, pcm, fits);
  }

  lemma BodyAccepted(s: State, frame: seq<byte>, h: Header, pcm: bool, fits: seq<byte> -> bool)
    requires IsLayer3(h) && !Refused(frame, h)
    ensures var d := DecodeBody(s, frame, h, pcm, fits);
            && d.state.header == h && d.state.free == s.free
            && (d.samples > 0 <==> FrameOf(frame, h).mainDataBegin <= |s.reservoir|)
  {
    hide Refused, IsLayer3, FrameOf, Carry;
  }

  /**
   A frame of Layer I or II gives its samples, 384 or 1152, and leaves its header for the next; but one that is decoded
   and does not stay in its bytes gives none, and whatever comes next is searched for.
   */
  lemma LayersOneAndTwo(s: State, mp3: seq<byte>, frame: seq<byte>, x: Fields, pcm: bool, fits: seq<byte> -> bool,
                        next: seq<byte>)
    requires s.free < MAX_FREE_FORMAT_FRAME_SIZE && Known(x) && x.layer != 3 && Next(s, mp3, frame, HeaderOf(x))
    ensures var f, t := Locate(s, mp3).0, Decode(s, mp3, pcm, fits);
            if pcm && !fits(frame) then
              var g := FindFrom(next, 0, 0);
              t.samples == 0 && Locate(t.state, next) == (g, State([0, 0, 0, 0], g.free, []))
            else
              && t.samples == (if x.layer == 1 then 384 else 1152)
              && t.state == State(HeaderOf(x), f.free, Locate(s, mp3).1.reservoir)
  {
    hide *;
    KnownIs(x);
    FieldsBack(x);
    SamplesAre(x);
    SamplesIs(x.version, x.layer);
    NextDecoded(s, mp3, frame, HeaderOf(x), pcm, fits);
    BodyOneAndTwo(Locate(s, mp3).1, frame, HeaderOf(x), pcm, fits);
    NothingLeft();
    ContinuesIs(Decode(s, mp3, pcm, fits).state, next);
  }

  lemma BodyOneAndTwo(s: State, frame: seq<byte>, h: Header, pcm: bool, fits: seq<byte> -> bool)
    requires !IsLayer3(h)
    ensures var d := DecodeBody(s, frame, h, pcm, fits);
            if pcm && !fits(frame) then d.samples == 0 && d.state.header[0] == 0
            else d == Decoded(State(h, s.free, s.reservoir), FrameSamples(h))
  {
    hide IsLayer3, FrameSamples;
  }
}
