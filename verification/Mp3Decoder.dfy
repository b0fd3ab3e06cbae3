/**
 Finding frames in a buffer and decoding one of them: `drmp3d_match_frame`, `drmp3d_find_frame` and
 `drmp3dec_decode_frame` of dr_mp3, with the Layer III side info and bit reservoir. PCM samples are
 not modelled; what is, is which bytes a call consumes, how many samples it reports, and the decoder
 state that it leaves behind.
 */
module Mp3Decoder {
  import opened Bytes
  import opened BitStream
  import opened Mp3Header
  import opened SideInfo
  import opened Reservoir

  const MAX_FRAME_SYNC_MATCHES := 10
  const NO_HEADER: Header := [0, 0, 0, 0]

  function HeaderAt(mp3: seq<byte>, i: nat): Header
    requires i + HDR_SIZE <= |mp3|
  {
    mp3[i..i + HDR_SIZE]
  }

  function SizeOf(h: Header, free: nat): nat
    requires IsValid(h)
  {
    FrameBytes(h, free) + Padding(h)
  }

  // ---- Matching a candidate against the headers after it ----

  /** From the header at `p`, after `matched` headers that agree with the one at `at`. */
  predicate MatchFrom(mp3: seq<byte>, at: nat, p: nat, free: nat, matched: nat)
    requires at + HDR_SIZE <= |mp3| && p + HDR_SIZE <= |mp3| && IsValid(HeaderAt(mp3, p))
    decreases MAX_FRAME_SYNC_MATCHES - matched
  {
    matched >= MAX_FRAME_SYNC_MATCHES
    || var q := p + SizeOf(HeaderAt(mp3, p), free);
       if q + HDR_SIZE > |mp3| then matched > 0
       else Compare(HeaderAt(mp3, at), HeaderAt(mp3, q)) && MatchFrom(mp3, at, q, free, matched + 1)
  }

  lemma MatchFromIs(mp3: seq<byte>, at: nat, p: nat, free: nat, matched: nat)
    requires at + HDR_SIZE <= |mp3| && p + HDR_SIZE <= |mp3| && IsValid(HeaderAt(mp3, p))
    ensures MatchFrom(mp3, at, p, free, matched)
            == (matched >= MAX_FRAME_SYNC_MATCHES
                || var q := p + SizeOf(HeaderAt(mp3, p), free);
                   if q + HDR_SIZE > |mp3| then matched > 0
                   else Compare(HeaderAt(mp3, at), HeaderAt(mp3, q))
                        && MatchFrom(mp3, at, q, free, matched + 1))
  {
  }

  lemma CompareIsValid(h1: Header, h2: Header)
    requires Compare(h1, h2)
    ensures IsValid(h2)
  {
  }

  /** drmp3d_match_frame. */
  method MatchFrame(mp3: seq<byte>, at: nat, free: nat) returns (ok: bool)
    requires at + HDR_SIZE <= |mp3| && IsValid(HeaderAt(mp3, at))
    ensures ok == MatchFrom(mp3, at, at, free, 0)
  {
    hide *;
    var p, matched: nat := at, 0;
    while matched < MAX_FRAME_SYNC_MATCHES
      invariant at <= p && p + HDR_SIZE <= |mp3| && IsValid(HeaderAt(mp3, p))
      invariant MatchFrom(mp3, at, at, free, 0) == MatchFrom(mp3, at, p, free, matched)
    {
      MatchFromIs(mp3, at, p, free, matched);
      p := p + SizeOf(HeaderAt(mp3, p), free);
      if p + HDR_SIZE > |mp3| {
        return matched > 0;
      }
      if !Compare(HeaderAt(mp3, at), HeaderAt(mp3, p)) {
        return false;
      }
      CompareIsValid(HeaderAt(mp3, at), HeaderAt(mp3, p));
      matched := matched + 1;
    }
    MatchFromIs(mp3, at, p, free, matched);
    ok := true;
  }

  // ---- The size of a free format frame ----

  datatype Size = Size(frameBytes: nat, withPadding: nat, free: nat)

  /** A frame of `k` bytes, padding included, at `i` is followed by two frames of the same kind. */
  predicate FreeFits(mp3: seq<byte>, i: nat, k: nat)
    requires HDR_SIZE <= k && i + k + HDR_SIZE <= |mp3|
  {
    var h, next := HeaderAt(mp3, i), HeaderAt(mp3, i + k);
    && Compare(h, next)
    && var q := i + k + (k - Padding(h)) + Padding(next);
       q + HDR_SIZE <= |mp3| && Compare(h, HeaderAt(mp3, q))
  }

  /** The search goes on at length `k`. */
  predicate Searching(mp3: seq<byte>, i: nat, k: nat, s: Size) {
    s.frameBytes == 0 && k < MAX_FREE_FORMAT_FRAME_SIZE && i + 2 * k < |mp3| - HDR_SIZE
  }

  function SizeFrom(mp3: seq<byte>, i: nat, k: nat, s: Size): Size
    requires HDR_SIZE <= k
    decreases MAX_FREE_FORMAT_FRAME_SIZE - k
  {
    if !Searching(mp3, i, k, s) then s
    else SizeFrom(mp3, i, k + 1, SizeStep(mp3, i, k, s))
  }

  function SizeStep(mp3: seq<byte>, i: nat, k: nat, s: Size): Size
    requires HDR_SIZE <= k && i + k + HDR_SIZE <= |mp3|
  {
    if FreeFits(mp3, i, k) then var fb := k - Padding(HeaderAt(mp3, i)); Size(fb, k, fb) else s
  }

  /** The size of the candidate at `i`, given what is known about free format frames. */
  function InitialSize(h: Header, free: nat): Size
    requires IsValid(h)
  {
    Size(FrameBytes(h, free), SizeOf(h, free), free)
  }

  method FindSize(mp3: seq<byte>, i: nat, free: nat) returns (s: Size)
    requires i + HDR_SIZE <= |mp3| && IsValid(HeaderAt(mp3, i))
    ensures s == SizeFrom(mp3, i, HDR_SIZE, InitialSize(HeaderAt(mp3, i), free))
  {
    hide *;
    var h := HeaderAt(mp3, i);
    s := InitialSize(h, free);
    var k: nat := HDR_SIZE;
    SizeFromIs(mp3, i, k, s);
    while Searching(mp3, i, k, s)
      invariant HDR_SIZE <= k
      invariant SizeFrom(mp3, i, HDR_SIZE, InitialSize(h, free)) == SizeFrom(mp3, i, k, s)
      invariant Searching(mp3, i, k, s) ==> k < MAX_FREE_FORMAT_FRAME_SIZE && i + k + HDR_SIZE <= |mp3|
      invariant !Searching(mp3, i, k, s) ==> SizeFrom(mp3, i, k, s) == s
      decreases MAX_FREE_FORMAT_FRAME_SIZE - k
    {
      SizeFromIs(mp3, i, k, s);
      SizeStepIs(mp3, i, k, s);
      if Compare(h, HeaderAt(mp3, i + k)) {
        var fb := k - Padding(h);
        var nextFb := fb + Padding(HeaderAt(mp3, i + k));
        if i + k + nextFb + HDR_SIZE > |mp3| || !Compare(h, HeaderAt(mp3, i + k + nextFb)) {
        } else {
          s := Size(fb, k, fb);
        }
      }
      k := k + 1;
      SizeFromIs(mp3, i, k, s);
    }
  }

  lemma SizeFromIs(mp3: seq<byte>, i: nat, k: nat, s: Size)
    requires HDR_SIZE <= k
    ensures Searching(mp3, i, k, s) ==> k < MAX_FREE_FORMAT_FRAME_SIZE && i + k + HDR_SIZE <= |mp3|
    ensures Searching(mp3, i, k, s) ==> SizeFrom(mp3, i, k, s) == SizeFrom(mp3, i, k + 1, SizeStep(mp3, i, k, s))
    ensures !Searching(mp3, i, k, s) ==> SizeFrom(mp3, i, k, s) == s
  {
  }

  lemma SizeStepIs(mp3: seq<byte>, i: nat, k: nat, s: Size)
    requires HDR_SIZE <= k && i + k + HDR_SIZE <= |mp3|
    ensures var h := HeaderAt(mp3, i);
            var fb := k - Padding(h);
            var next := fb + Padding(HeaderAt(mp3, i + k));
            0 <= fb && SizeStep(mp3, i, k, s)
            == if Compare(h, HeaderAt(mp3, i + k)) && i + k + next + HDR_SIZE <= |mp3|
                  && Compare(h, HeaderAt(mp3, i + k + next))
               then Size(fb, k, fb) else s
  {
  }

  // ---- Finding a frame ----

  /** Position and size of a frame, and the free format size to keep. Size 0: no frame. */
  datatype Found = Found(at: nat, size: nat, free: nat)

  predicate Acceptable(mp3: seq<byte>, i: nat, s: Size)
    requires i + HDR_SIZE <= |mp3| && IsValid(HeaderAt(mp3, i))
  {
    || (s.frameBytes != 0 && i + s.withPadding <= |mp3| && MatchFrom(mp3, i, i, s.frameBytes, 0))
    || (i == 0 && s.withPadding == |mp3|)
  }

  function FindFrom(mp3: seq<byte>, i: nat, free: nat): Found
    decreases |mp3| - i
  {
    if i >= |mp3| - HDR_SIZE then Found(|mp3|, 0, free)
    else if !IsValid(HeaderAt(mp3, i)) then FindFrom(mp3, i + 1, free)
    else
      var s := SizeFrom(mp3, i, HDR_SIZE, InitialSize(HeaderAt(mp3, i), free));
      if Acceptable(mp3, i, s) then Found(i, s.withPadding, s.free) else FindFrom(mp3, i + 1, 0)
  }

  lemma FindFromIs(mp3: seq<byte>, i: nat, free: nat)
    ensures i >= |mp3| - HDR_SIZE ==> FindFrom(mp3, i, free) == Found(|mp3|, 0, free)
    ensures i < |mp3| - HDR_SIZE && !IsValid(HeaderAt(mp3, i))
            ==> FindFrom(mp3, i, free) == FindFrom(mp3, i + 1, free)
    ensures i < |mp3| - HDR_SIZE && IsValid(HeaderAt(mp3, i))
            ==> var s := SizeFrom(mp3, i, HDR_SIZE, InitialSize(HeaderAt(mp3, i), free));
                FindFrom(mp3, i, free)
                == if Acceptable(mp3, i, s) then Found(i, s.withPadding, s.free) else FindFrom(mp3, i + 1, 0)
  {
  }

  /** drmp3d_find_frame. */
  method FindFrame(mp3: seq<byte>, free0: nat) returns (at: nat, free: nat, size: nat)
    ensures Found(at, size, free) == FindFrom(mp3, 0, free0)
  {
    hide *;
    var i: nat := 0;
    free := free0;
    while i < |mp3| - HDR_SIZE
      invariant 0 <= i
      invariant FindFrom(mp3, 0, free0) == FindFrom(mp3, i, free)
      decreases |mp3| - i
    {
      FindFromIs(mp3, i, free);
      if IsValid(HeaderAt(mp3, i)) {
        var s := FindSize(mp3, i, free);
        var matched := false;
        if s.frameBytes != 0 && i + s.withPadding <= |mp3| {
          matched := MatchFrame(mp3, i, s.frameBytes);
        }
        AcceptableIs(mp3, i, s);
        if matched || (i == 0 && s.withPadding == |mp3|) {
          return i, s.free, s.withPadding;
        }
        free := 0;
      }
      i := i + 1;
    }
    FindFromIs(mp3, i, free);
    at, size := |mp3|, 0;
  }

  lemma AcceptableIs(mp3: seq<byte>, i: nat, s: Size)
    requires i + HDR_SIZE <= |mp3| && IsValid(HeaderAt(mp3, i))
    ensures Acceptable(mp3, i, s)
            <==> (s.frameBytes != 0 && i + s.withPadding <= |mp3| && MatchFrom(mp3, i, i, s.frameBytes, 0))
                 || (i == 0 && s.withPadding == |mp3|)
  {
  }

  /** The size found for a candidate: by bitrate, or at most 2303 bytes before padding. */
  lemma {:induction false} SizeFromSound(mp3: seq<byte>, i: nat, k: nat, s: Size)
    requires HDR_SIZE <= k && i + HDR_SIZE <= |mp3| && IsValid(HeaderAt(mp3, i))
    requires s.withPadding == s.frameBytes + Padding(HeaderAt(mp3, i))
    requires s.free < MAX_FREE_FORMAT_FRAME_SIZE
    ensures var r := SizeFrom(mp3, i, k, s);
            && r.withPadding == r.frameBytes + Padding(HeaderAt(mp3, i))
            && r.free < MAX_FREE_FORMAT_FRAME_SIZE
            && (r == s || (s.frameBytes == 0 && r.free == r.frameBytes))
    decreases MAX_FREE_FORMAT_FRAME_SIZE - k
  {
    hide IsValid, Compare, Padding;
    SizeFromIs(mp3, i, k, s);
    if Searching(mp3, i, k, s) {
      SizeStepIs(mp3, i, k, s);
      SizeFromSound(mp3, i, k + 1, SizeStep(mp3, i, k, s));
    }
  }

  /** What FindFrame returns: a whole frame with a valid header and a size of its own, or all bytes. */
  ghost predicate Sound(mp3: seq<byte>, f: Found) {
    && f.at + f.size <= |mp3| && f.free < MAX_FREE_FORMAT_FRAME_SIZE
    && (f.size == 0 ==> f.at == |mp3|)
    && (f.size > 0 ==> f.at + HDR_SIZE < |mp3| && IsValid(HeaderAt(mp3, f.at))
                       && f.size == SizeOf(HeaderAt(mp3, f.at), f.free))
  }

  lemma {:induction false} FindFromSound(mp3: seq<byte>, i: nat, free: nat)
    requires free < MAX_FREE_FORMAT_FRAME_SIZE
    ensures Sound(mp3, FindFrom(mp3, i, free))
    decreases |mp3| - i
  {
    hide IsValid, SizeFrom, MatchFrom, FindFrom, ComputedBytes;
    FindFromIs(mp3, i, free);
    if i < |mp3| - HDR_SIZE {
      if IsValid(HeaderAt(mp3, i)) {
        var h := HeaderAt(mp3, i);
        var s0 := InitialSize(h, free);
        var s := SizeFrom(mp3, i, HDR_SIZE, s0);
        SizeFromSound(mp3, i, HDR_SIZE, s0);
        if !Acceptable(mp3, i, s) {
          FindFromSound(mp3, i + 1, 0);
        }
      } else {
        FindFromSound(mp3, i + 1, free);
      }
    }
  }

  // ---- How many headers have to match ----

  /** From the frame at `p` the next `n` headers lie in the buffer, and each goes with the one at `at`. */
  predicate Chain(mp3: seq<byte>, at: nat, p: nat, free: nat, n: nat)
    requires at + HDR_SIZE <= |mp3| && p + HDR_SIZE <= |mp3| && IsValid(HeaderAt(mp3, p))
    decreases n
  {
    n == 0
    || var q := p + SizeOf(HeaderAt(mp3, p), free);
       q + HDR_SIZE <= |mp3| && Compare(HeaderAt(mp3, at), HeaderAt(mp3, q)) && Chain(mp3, at, q, free, n - 1)
  }

  /** And behind them the buffer ends, or there is a header that does not go with it. */
  predicate ChainEnds(mp3: seq<byte>, at: nat, p: nat, free: nat, n: nat, inBuffer: bool)
    requires at + HDR_SIZE <= |mp3| && p + HDR_SIZE <= |mp3| && IsValid(HeaderAt(mp3, p))
    decreases n
  {
    var q := p + SizeOf(HeaderAt(mp3, p), free);
    if n == 0 then
      if inBuffer then q + HDR_SIZE <= |mp3| && !Compare(HeaderAt(mp3, at), HeaderAt(mp3, q)) else q + HDR_SIZE > |mp3|
    else
      q + HDR_SIZE <= |mp3| && Compare(HeaderAt(mp3, at), HeaderAt(mp3, q)) && ChainEnds(mp3, at, q, free, n - 1, inBuffer)
  }

  /** A chain of ten is enough, and more are not looked at. */
  lemma {:induction false} TenMatch(mp3: seq<byte>, at: nat, p: nat, free: nat, n: nat)
    requires at + HDR_SIZE <= |mp3| && p + HDR_SIZE <= |mp3| && IsValid(HeaderAt(mp3, p))
    requires n <= 10 && Chain(mp3, at, p, free, n)
    ensures MatchFrom(mp3, at, p, free, 10 - n)
    decreases n
  {
    hide SizeOf, Compare, IsValid, HeaderAt;
    if n > 0 {
      var q := p + SizeOf(HeaderAt(mp3, p), free);
      CompareIsValid(HeaderAt(mp3, at), HeaderAt(mp3, q));
      TenMatch(mp3, at, q, free, n - 1);
    }
  }

  /** A shorter one is enough if the buffer ends behind it, and it is not empty; if another header follows, it is not. */
  lemma {:induction false} FewerMatch(mp3: seq<byte>, at: nat, p: nat, free: nat, n: nat, matched: nat, inBuffer: bool)
    requires at + HDR_SIZE <= |mp3| && p + HDR_SIZE <= |mp3| && IsValid(HeaderAt(mp3, p))
    requires matched + n < 10 && ChainEnds(mp3, at, p, free, n, inBuffer)
    ensures MatchFrom(mp3, at, p, free, matched) <==> !inBuffer && matched + n > 0
    decreases n
  {
    hide SizeOf, Compare, IsValid, HeaderAt;
    if n > 0 {
      var q := p + SizeOf(HeaderAt(mp3, p), free);
      CompareIsValid(HeaderAt(mp3, at), HeaderAt(mp3, q));
      FewerMatch(mp3, at, q, free, n - 1, matched + 1, inBuffer);
    }
  }

  // ---- Free format: the size of a frame from where the next ones are ----

  /** Three frames of one size besides their padding, one behind the other, give that size away. */
  lemma FreeThree(mp3: seq<byte>, i: nat, n: nat)
    requires i + HDR_SIZE <= |mp3|
    requires var k := n + Padding(HeaderAt(mp3, i));
             && HDR_SIZE <= k && i + k + HDR_SIZE <= |mp3| && Compare(HeaderAt(mp3, i), HeaderAt(mp3, i + k))
             && var q := i + k + n + Padding(HeaderAt(mp3, i + k));
                q + HDR_SIZE <= |mp3| && Compare(HeaderAt(mp3, i), HeaderAt(mp3, q))
    ensures FreeFits(mp3, i, n + Padding(HeaderAt(mp3, i)))
  {
    hide Padding, Compare;
  }

  /** The least distance at which that is so is the size with padding; 2304 bytes and more are not tried. */
  lemma {:induction false} LeastFree(mp3: seq<byte>, i: nat, k: nat, s: Size, m: nat)
    requires s.frameBytes == 0 && 4 <= k <= m < 2304 && i + 2 * m + 4 < |mp3|
    requires FreeFits(mp3, i, m) && m > Padding(HeaderAt(mp3, i))
    requires forall j :: k <= j < m ==> !FreeFits(mp3, i, j)
    ensures var n := m - Padding(HeaderAt(mp3, i)); SizeFrom(mp3, i, k, s) == Size(n, m, n)
    decreases m - k
  {
    hide FreeFits, Padding;
    if k < m {
      LeastFree(mp3, i, k + 1, s, m);
    }
  }

  lemma {:induction false} NoneFree(mp3: seq<byte>, i: nat, k: nat, s: Size)
    requires s.frameBytes == 0 && 4 <= k <= 2304
    requires forall j :: k <= j < 2304 && i + 2 * j + 4 < |mp3| ==> !FreeFits(mp3, i, j)
    ensures SizeFrom(mp3, i, k, s) == s
    decreases 2304 - k
  {
    hide FreeFits, Padding;
    if k < 2304 && i + 2 * k + 4 < |mp3| {
      NoneFree(mp3, i, k + 1, s);
    }
  }

  // ---- A Layer III frame ----

  /** What follows the header. A frame can be shorter than its header; its bit limit is then negative. */
  function Body(frame: seq<byte>): seq<byte> {
    if |frame| >= HDR_SIZE then frame[HDR_SIZE..] else []
  }

  function BodyLimit(frame: seq<byte>): (limit: int)
    ensures limit <= 8 * |Body(frame)|
  {
    8 * (|frame| - HDR_SIZE)
  }

  /** Where the side info starts: after the CRC, if there is one. */
  function SideStart(h: Header): nat {
    if HasCrc(h) then 16 else 0
  }

  function PayloadStart(h: Header): nat {
    SideStart(h) / 8 + SideInfoBytes(h)
  }

  predicate Refused(frame: seq<byte>, h: Header) {
    || Invalid(Body(frame), BodyLimit(frame), h, SideStart(h))
    || 8 * PayloadStart(h) > BodyLimit(frame)
  }

  /** The frame as the reservoir sees it. */
  function FrameOf(frame: seq<byte>, h: Header): Frame
    requires !Refused(frame, h)
  {
    Frame(MainDataBegin(Body(frame), BodyLimit(frame), h, SideStart(h)),
          Body(frame)[PayloadStart(h)..],
          Part23Sum(Body(frame), BodyLimit(frame), h, SideStart(h), Granules(h)))
  }

  /** A side info that is not refused claims no more main data than the frame can have. */
  lemma AcceptedSideInfoFits(frame: seq<byte>, h: Header)
    requires !Refused(frame, h)
    ensures Fits(FrameOf(frame, h)) && |FrameOf(frame, h).payload| <= |frame|
  {
    hide MainDataBegin, Part23Sum;
  }

  datatype State = State(header: Header, free: nat, reservoir: seq<byte>)

  /** drmp3dec_init: a header that nothing goes on from. */
  function Unsynced(h: Header): Header {
    h[0 := 0]
  }

  function Lost(s: State): State {
    s.(header := Unsynced(s.header))
  }

  const ZEROED := State(NO_HEADER, 0, [])

  datatype Decoded = Decoded(state: State, samples: nat)

  function DecodeLayer3(s: State, frame: seq<byte>, h: Header, pcm: bool): Decoded {
    if Refused(frame, h) then Decoded(Lost(s), 0)
    else
      var f := FrameOf(frame, h);
      Decoded(s.(reservoir := Carry(s.reservoir, f, pcm)),
              if Accepts(s.reservoir, f) then FrameSamples(h) else 0)
  }

  /** Layers I and II: `fits` says whether the body stays within the frame. */
  function DecodeLayer12(s: State, frame: seq<byte>, h: Header, pcm: bool, fits: seq<byte> -> bool): Decoded {
    if pcm && !fits(frame) then Decoded(Lost(s), 0) else Decoded(s, FrameSamples(h))
  }

  // ---- Decoding a frame from a buffer ----

  /** The frame at the start of the buffer goes on from the last one, and the next does so in turn. */
  predicate Continues(s: State, mp3: seq<byte>) {
    && |mp3| > 4 && s.header[0] == 0xff && Compare(s.header, HeaderAt(mp3, 0))
    && var n := SizeOf(HeaderAt(mp3, 0), s.free);
       && n > 0
       && (n == |mp3| || (n + HDR_SIZE <= |mp3| && Compare(HeaderAt(mp3, 0), HeaderAt(mp3, n))))
  }

  /** Where the next frame is, and the decoder state in which it is decoded. */
  function Locate(s: State, mp3: seq<byte>): (Found, State) {
    if Continues(s, mp3) then (Found(0, SizeOf(HeaderAt(mp3, 0), s.free), s.free), s)
    else var f := FindFrom(mp3, 0, 0); (f, ZEROED.(free := f.free))
  }

  lemma LocateSound(s: State, mp3: seq<byte>)
    requires s.free < MAX_FREE_FORMAT_FRAME_SIZE
    ensures Sound(mp3, Locate(s, mp3).0) && Locate(s, mp3).1.free == Locate(s, mp3).0.free
  {
    hide FindFrom;
    FindFromSound(mp3, 0, 0);
  }

  function DecodeBody(s: State, frame: seq<byte>, h: Header, pcm: bool, fits: seq<byte> -> bool): Decoded {
    if IsLayer3(h) then DecodeLayer3(s.(header := h), frame, h, pcm)
    else DecodeLayer12(s.(header := h), frame, h, pcm, fits)
  }

  datatype Outcome = Outcome(state: State, samples: nat, consumed: nat)

  function Decode(s: State, mp3: seq<byte>, pcm: bool, fits: seq<byte> -> bool): Outcome
    requires s.free < MAX_FREE_FORMAT_FRAME_SIZE
  {
    LocateSound(s, mp3);
    var (f, s') := Locate(s, mp3);
    if f.size == 0 then Outcome(s', 0, f.at)
    else
      var d := DecodeBody(s', mp3[f.at..f.at + f.size], HeaderAt(mp3, f.at), pcm, fits);
      Outcome(d.state, d.samples, f.at + f.size)
  }

  datatype FrameInfo = FrameInfo(frameBytes: nat, channels: nat, hz: nat, layer: nat, bitrateKbps: nat)

  /** What is reported about a frame; without one, only how many bytes were passed over. */
  ghost function FrameInfoOf(mp3: seq<byte>, f: Found, info0: FrameInfo): FrameInfo
    requires Sound(mp3, f)
  {
    if f.size == 0 then info0.(frameBytes := f.at)
    else
      var h := HeaderAt(mp3, f.at);
      FrameInfo(f.at + f.size, if IsMono(h) then 1 else 2, SampleRateHz(h), LayerNumber(h), BitrateKbps(h))
  }

  /** A Layer III frame is at most 2304 bytes long, so its payload fits in the main data buffer. */
  lemma FrameLength(h: Header, free: nat)
    requires IsValid(h) && IsLayer3(h) && free < MAX_FREE_FORMAT_FRAME_SIZE
    ensures SizeOf(h, free) <= MAX_FREE_FORMAT_FRAME_SIZE
  {
    Layer3FrameFits(h);
    hide ComputedBytes, IsValid;
  }

  /** DRMP3_COPY_MEMORY. */
  method CopyMemory(dst: array<byte>, at: nat, src: seq<byte>)
    requires at + |src| <= dst.Length
    modifies dst
    ensures dst[..at] == old(dst[..at]) && dst[at..at + |src|] == src
  {
    forall k | 0 <= k < |src| {
      dst[at + k] := src[k];
    }
  }

  lemma BufferSizes()
    ensures MAX_RESERVOIR == 511 && MAX_FREE_FORMAT_FRAME_SIZE == 2304 && HDR_SIZE == 4
  {
  }

  lemma RestOf(buf: seq<byte>, p: nat, n: nat)
    requires p + n == |buf|
    ensures buf[p..p + n] == buf[p..]
  {
  }

  lemma Joined(main: seq<byte>, a: seq<byte>, b: seq<byte>)
    requires |a| + |b| <= |main| && main[..|a|] == a && main[|a|..|a| + |b|] == b
    ensures main[..|a| + |b|] == a + b
  {
    assert main[..|a| + |b|] == main[..|a|] + main[|a|..|a| + |b|];
  }

  class Decoder {
    var header: Header
    var freeFormatBytes: nat
    var reserv: nat
    const reservBuf: array<byte>
    /** The bit allocation and samples of a Layer I or II frame stay inside the frame. */
    const layer12Fits: seq<byte> -> bool

    ghost predicate Valid()
      reads this`reserv, this`freeFormatBytes
    {
      reservBuf.Length == MAX_RESERVOIR && reserv <= MAX_RESERVOIR && freeFormatBytes < MAX_FREE_FORMAT_FRAME_SIZE
    }

    ghost function Reserved(): seq<byte>
      requires Valid()
      reads this`reserv, this`freeFormatBytes, reservBuf
    {
      reservBuf[..reserv]
    }

    ghost function Abstract(): State
      requires Valid()
      reads this, reservBuf
    {
      State(header, freeFormatBytes, Reserved())
    }

    constructor (layer12Fits: seq<byte> -> bool)
      ensures Valid() && fresh(reservBuf) && Abstract() == ZEROED && this.layer12Fits == layer12Fits
    {
      header, freeFormatBytes, reserv := NO_HEADER, 0, 0;
      reservBuf := new byte[MAX_RESERVOIR](_ => 0);
      this.layer12Fits := layer12Fits;
    }

    /** drmp3dec_init. */
    method Init()
      requires Valid()
      modifies this`header
      ensures Valid() && Abstract() == Lost(old(Abstract()))
    {
      header := Unsynced(header);
    }

    /** drmp3_L3_restore_reservoir; the reader that is returned is the scratch one. */
    method RestoreReservoir(bs: BitReader, mainDataBegin: nat) returns (s: BitReader, ok: bool)
      requires Valid() && bs.limit == 8 * |bs.buf| && bs.pos <= bs.limit && bs.pos % 8 == 0
      requires |bs.buf| <= MAX_FREE_FORMAT_FRAME_SIZE
      ensures fresh(s) && s.pos == 0 && s.limit == 8 * |s.buf|
      ensures s.buf == Last(Reserved(), mainDataBegin) + bs.buf[bs.pos / 8..]
      ensures ok == (reserv >= mainDataBegin)
    {
      hide *;
      BufferSizes();
      var frameBytes := (bs.limit - bs.pos) / 8;
      var bytesHave := if reserv < mainDataBegin then reserv else mainDataBegin;
      var from := if reserv > mainDataBegin then reserv - mainDataBegin else 0;
      ValidIs();
      LastOf(from, bytesHave, mainDataBegin);
      var p := bs.pos / 8;
      RestOf(bs.buf, p, frameBytes);
      var maindata := new byte[MAX_RESERVOIR + MAX_FREE_FORMAT_FRAME_SIZE](_ => 0);
      CopyMemory(maindata, 0, reservBuf[from..from + bytesHave]);
      assert maindata[..bytesHave] == maindata[0..0 + bytesHave];
      CopyMemory(maindata, bytesHave, bs.buf[p..p + frameBytes]);
      assert maindata[..][..bytesHave] == maindata[..bytesHave];
      assert maindata[..][bytesHave..bytesHave + frameBytes] == maindata[bytesHave..bytesHave + frameBytes];
      Joined(maindata[..], reservBuf[from..from + bytesHave], bs.buf[p..p + frameBytes]);
      assert maindata[..][..bytesHave + frameBytes] == maindata[..bytesHave + frameBytes];
      s := new BitReader(maindata[..bytesHave + frameBytes], bytesHave + frameBytes);
      ok := reserv >= mainDataBegin;
    }

    lemma ValidIs()
      requires Valid()
      ensures reservBuf.Length == MAX_RESERVOIR && reserv <= MAX_RESERVOIR
      ensures freeFormatBytes < MAX_FREE_FORMAT_FRAME_SIZE
    {
    }

    lemma LastOf(from: nat, n: nat, mainDataBegin: nat)
      requires Valid() && from == reserv - n && (n == reserv <= mainDataBegin || n == mainDataBegin <= reserv)
      ensures reservBuf[from..from + n] == Last(Reserved(), mainDataBegin)
    {
    }

    /** drmp3_L3_save_reservoir. */
    method SaveReservoir(s: BitReader)
      requires Valid() && s.limit == 8 * |s.buf| && s.pos <= s.limit
      modifies this`reserv, reservBuf
      ensures Valid() && Reserved() == Last(After(s.buf, s.pos), MAX_RESERVOIR)
    {
      var pos := (s.pos + 7) / 8;
      var remains := s.limit / 8 - pos;
      if remains > MAX_RESERVOIR {
        pos := pos + (remains - MAX_RESERVOIR);
        remains := MAX_RESERVOIR;
      }
      if remains > 0 {
        forall k | 0 <= k < remains {
          reservBuf[k] := s.buf[pos + k];
        }
      }
      reserv := remains;
      assert Reserved() == s.buf[pos..];
    }

    /** drmp3_L3_decode over all granules, for its effect on the bit position. */
    method DecodeGranules(s: BitReader, gr: seq<GrInfo>, h: Header)
      requires |gr| == 4
      modifies s`pos
      ensures s.pos == old(s.pos) + Claimed(gr, Granules(h))
    {
      hide Claimed;
      var channels := if IsMono(h) then 1 else 2;
      var count := if IsMpeg1(h) then 2 else 1;
      var igr := 0;
      ClaimedNone(gr);
      while igr < count
        invariant 0 <= igr <= count
        invariant s.pos == old(s.pos) + Claimed(gr, igr * channels)
      {
        var ch := 0;
        while ch < channels
          invariant 0 <= ch <= channels
          invariant s.pos == old(s.pos) + Claimed(gr, igr * channels + ch)
        {
          var granuleLimit := s.pos + gr[igr * channels + ch].part23Length;
          ClaimedStep(gr, igr * channels + ch);
          s.pos := granuleLimit;
          ch := ch + 1;
        }
        igr := igr + 1;
      }
    }

    /** The Layer III branch of drmp3dec_decode_frame. */
    method DecodeLayer3Frame(bs: BitReader, h: Header, pcm: bool, ghost frame: seq<byte>) returns (samples: nat)
      requires Valid() && bs.buf == Body(frame) && bs.limit == BodyLimit(frame) && bs.pos == SideStart(h)
      requires |frame| <= MAX_FREE_FORMAT_FRAME_SIZE
      modifies this`header, this`reserv, reservBuf, bs
      ensures Valid() && Decoded(Abstract(), samples) == DecodeLayer3(old(Abstract()), frame, h, pcm)
    {
      hide *;
      BufferSizes();
      SideStartIs(h);
      BodyIs(frame);
      DecodeLayer3Is(Abstract(), frame, h, pcm);
      AbstractIs();
      var gr0 := seq(4, _ => NO_GRANULE);
      var mainDataBegin, gr := ReadSideInfo(bs, gr0, h);
      InvalidSpan(bs.buf, bs.limit, h, SideStart(h));
      if mainDataBegin < 0 || bs.pos > bs.limit {
        header := Unsynced(header);
        AbstractIs();
        return 0;
      }
      GranulesUpTo(h);
      FilledLength(gr, bs.buf, bs.limit, h, SideStart(h), Granules(h), gr0);
      ghost var f := FrameOf(frame, h);
      FrameOfIs(frame, h);
      AcceptedSideInfoFits(frame, h);
      FilledClaims(gr, bs.buf, bs.limit, h, SideStart(h), Granules(h), gr0);
      ghost var res := Reserved();
      var s, success := RestoreReservoir(bs, mainDataBegin);
      CarryParts(res, f, pcm);
      if success && pcm {
        DecodeGranules(s, gr, h);
      }
      SaveReservoir(s);
      AbstractIs();
      samples := if success then FrameSamples(h) else 0;
    }

    /** The start of drmp3dec_decode_frame: where the frame is, and whether the decoder starts over. */
    method Sync(mp3: seq<byte>) returns (i: nat, frameSize: nat)
      requires Valid()
      modifies this`header, this`freeFormatBytes, this`reserv
      ensures Valid()
      ensures (Found(i, frameSize, freeFormatBytes), Abstract()) == Locate(old(Abstract()), mp3)
    {
      hide *;
      ValidIs();
      AbstractIs();
      BufferSizes();
      ContinuesIs(Abstract(), mp3);
      i, frameSize := 0, 0;
      if |mp3| > 4 && header[0] == 0xff && Compare(header, HeaderAt(mp3, 0)) {
        CompareIsValid(header, HeaderAt(mp3, 0));
        frameSize := SizeOf(HeaderAt(mp3, 0), freeFormatBytes);
        if frameSize != |mp3|
           && (frameSize + HDR_SIZE > |mp3| || !Compare(HeaderAt(mp3, 0), HeaderAt(mp3, frameSize))) {
          frameSize := 0;
        }
      }
      if frameSize == 0 {
        header, freeFormatBytes, reserv := NO_HEADER, 0, 0;
        i, freeFormatBytes, frameSize := FindFrame(mp3, 0);
        FoundSound(mp3, i, frameSize, freeFormatBytes);
        ResetIs();
      }
    }

    /** drmp3dec_decode_frame. `info0` is what the caller's info holds before. */
    method DecodeFrame(mp3: seq<byte>, pcm: bool, info0: FrameInfo) returns (samples: nat, info: FrameInfo)
      requires Valid()
      modifies this, reservBuf
      ensures Valid()
      ensures Outcome(Abstract(), samples, info.frameBytes) == Decode(old(Abstract()), mp3, pcm, layer12Fits)
      ensures var f := Locate(old(Abstract()), mp3).0; Sound(mp3, f) && info == FrameInfoOf(mp3, f, info0)
    {
      hide *;
      ValidIs();
      AbstractIs();
      LocateSound(Abstract(), mp3);
      FrameInfoIs(mp3, Locate(Abstract(), mp3).0, info0);
      DecodeIs(Abstract(), mp3, pcm, layer12Fits);
      info := info0;
      var i, frameSize := Sync(mp3);
      if frameSize == 0 || i + frameSize > |mp3| {
        info := info.(frameBytes := i);
        return 0, info;
      }
      AbstractIs();
      ghost var s1 := Abstract();
      var h := HeaderAt(mp3, i);
      header := h;
      info := info.(frameBytes := i + frameSize, channels := if IsMono(h) then 1 else 2,
                    hz := SampleRateHz(h), layer := LayerNumber(h), bitrateKbps := BitrateKbps(h));
      AbstractIs();
      samples := DecodeBodyOf(mp3[i..i + frameSize], h, pcm);
      DecodeBodyIs(s1, h);
    }

    /** The rest of drmp3dec_decode_frame. */
    method DecodeBodyOf(frame: seq<byte>, h: Header, pcm: bool) returns (samples: nat)
      requires Valid() && header == h && IsValid(h) && |frame| == SizeOf(h, freeFormatBytes)
      modifies this`header, this`reserv, reservBuf
      ensures Valid() && Decoded(Abstract(), samples) == DecodeBody(old(Abstract()), frame, h, pcm, layer12Fits)
    {
      hide *;
      ValidIs();
      AbstractIs();
      BufferSizes();
      BodyIs(frame);
      SideStartIs(h);
      DecodeBodyCases(Abstract(), frame, h, pcm, layer12Fits);
      var bs := new BitReader(Body(frame), |frame| - HDR_SIZE);
      if HasCrc(h) {
        var crc := bs.GetBits(16);
      }
      if IsLayer3(h) {
        FrameLength(h, freeFormatBytes);
        samples := DecodeLayer3Frame(bs, h, pcm, frame);
      } else {
        if pcm && !layer12Fits(frame) {
          header := Unsynced(header);
          AbstractIs();
          return 0;
        }
        samples := FrameSamples(h);
      }
    }

    lemma ResetIs()
      requires reservBuf.Length == MAX_RESERVOIR && reserv == 0 && freeFormatBytes < MAX_FREE_FORMAT_FRAME_SIZE
      requires header == NO_HEADER
      ensures Valid() && Abstract() == ZEROED.(free := freeFormatBytes)
    {
    }

    lemma AbstractIs()
      requires Valid()
      ensures Abstract() == State(header, freeFormatBytes, Reserved())
      ensures Reserved() == reservBuf[..reserv] && |Reserved()| == reserv
    {
    }
  }

  lemma ContinuesIs(s: State, mp3: seq<byte>)
    ensures s.free < MAX_FREE_FORMAT_FRAME_SIZE ==> Sound(mp3, Locate(s, mp3).0)
    ensures |mp3| > 4 && s.header[0] == 0xff && Compare(s.header, HeaderAt(mp3, 0))
            ==> var n := SizeOf(HeaderAt(mp3, 0), s.free);
                Continues(s, mp3) <==> n > 0 && (n == |mp3| || (n + HDR_SIZE <= |mp3|
                                                 && Compare(HeaderAt(mp3, 0), HeaderAt(mp3, n))))
    ensures Continues(s, mp3)
            ==> |mp3| > 4 && s.header[0] == 0xff && Compare(s.header, HeaderAt(mp3, 0))
                && IsValid(HeaderAt(mp3, 0)) && Locate(s, mp3) == (Found(0, SizeOf(HeaderAt(mp3, 0), s.free), s.free), s)
    ensures !Continues(s, mp3)
            ==> Locate(s, mp3) == (FindFrom(mp3, 0, 0), ZEROED.(free := FindFrom(mp3, 0, 0).free))
  {
    hide FindFrom, Sound;
    if s.free < MAX_FREE_FORMAT_FRAME_SIZE {
      LocateSound(s, mp3);
    }
  }

  lemma FrameInfoIs(mp3: seq<byte>, f: Found, info0: FrameInfo)
    requires Sound(mp3, f)
    ensures f.size > 0 ==> f.at + HDR_SIZE <= |mp3| && IsValid(HeaderAt(mp3, f.at))
    ensures FrameInfoOf(mp3, f, info0)
            == if f.size == 0 then info0.(frameBytes := f.at)
               else var h := HeaderAt(mp3, f.at);
                    FrameInfo(f.at + f.size, if IsMono(h) then 1 else 2, SampleRateHz(h), LayerNumber(h), BitrateKbps(h))
  {
    hide IsValid, BitrateKbps, SampleRateHz;
  }

  lemma FoundSound(mp3: seq<byte>, at: nat, size: nat, free: nat)
    requires Found(at, size, free) == FindFrom(mp3, 0, 0)
    ensures at + size <= |mp3| && free < MAX_FREE_FORMAT_FRAME_SIZE
    ensures size > 0 ==> at + HDR_SIZE <= |mp3| && IsValid(HeaderAt(mp3, at)) && size == SizeOf(HeaderAt(mp3, at), free)
  {
    FindFromSound(mp3, 0, 0);
  }

  lemma DecodeIs(s: State, mp3: seq<byte>, pcm: bool, fits: seq<byte> -> bool)
    requires s.free < MAX_FREE_FORMAT_FRAME_SIZE
    ensures var f, s' := Locate(s, mp3).0, Locate(s, mp3).1;
            && f.at + f.size <= |mp3| && f.free == s'.free
            && (f.size == 0 ==> Decode(s, mp3, pcm, fits) == Outcome(s', 0, f.at))
            && (f.size > 0 ==> f.at + HDR_SIZE <= |mp3| && IsValid(HeaderAt(mp3, f.at))
                               && f.size == SizeOf(HeaderAt(mp3, f.at), f.free)
                               && var d := DecodeBody(s', mp3[f.at..f.at + f.size], HeaderAt(mp3, f.at), pcm, fits);
                                  Decode(s, mp3, pcm, fits) == Outcome(d.state, d.samples, f.at + f.size))
  {
    hide Locate, DecodeBody, IsValid, SizeOf;
    LocateSound(s, mp3);
  }

  lemma DecodeBodyIs(s: State, h: Header)
    ensures forall frame, pcm, fits ::
              DecodeBody(s, frame, h, pcm, fits) == DecodeBody(State(h, s.free, s.reservoir), frame, h, pcm, fits)
  {
    hide DecodeLayer3, DecodeLayer12;
  }

  lemma DecodeBodyCases(s: State, frame: seq<byte>, h: Header, pcm: bool, fits: seq<byte> -> bool)
    requires s.header == h
    ensures IsLayer3(h) ==> DecodeBody(s, frame, h, pcm, fits) == DecodeLayer3(s, frame, h, pcm)
    ensures !IsLayer3(h) && pcm && !fits(frame)
            ==> DecodeBody(s, frame, h, pcm, fits) == Decoded(State(Unsynced(s.header), s.free, s.reservoir), 0)
    ensures !IsLayer3(h) && !(pcm && !fits(frame)) ==> DecodeBody(s, frame, h, pcm, fits) == Decoded(s, FrameSamples(h))
  {
    hide DecodeLayer3;
    assert s.(header := h) == s;
  }

  const NO_GRANULE := GrInfo(0, 0, 0, 0, Long, 0, 0, 0, 0, (0, 0, 0), (0, 0, 0), (0, 0, 0), 0, 0, 0, 0)

  /** The main data bits of the first `n` granules. */
  function Claimed(gr: seq<GrInfo>, n: nat): nat
    requires n <= |gr|
  {
    if n == 0 then 0 else Claimed(gr, n - 1) + gr[n - 1].part23Length
  }

  lemma ClaimedNone(gr: seq<GrInfo>)
    ensures Claimed(gr, 0) == 0
  {
  }

  lemma ClaimedStep(gr: seq<GrInfo>, n: nat)
    requires n < |gr|
    ensures Claimed(gr, n + 1) == Claimed(gr, n) + gr[n].part23Length
  {
  }

  lemma {:induction false} FilledClaims(gr: seq<GrInfo>, buf: seq<byte>, limit: int, h: Header, at: nat, n: nat,
                                        prior: seq<GrInfo>)
    requires limit <= 8 * |buf| && n <= |gr| && Filled(gr, buf, limit, h, at, n, prior)
    ensures Claimed(gr, n) == Part23Sum(buf, limit, h, at, n)
  {
    if n > 0 {
      FilledLast(gr, buf, limit, h, at, n, prior);
      var prior' := prior[n - 1 := gr[n - 1]];
      hide GrInfoOf;
      assert Filled(gr, buf, limit, h, at, n - 1, prior');
      FilledClaims(gr, buf, limit, h, at, n - 1, prior');
    }
  }

  lemma FilledLast(gr: seq<GrInfo>, buf: seq<byte>, limit: int, h: Header, at: nat, n: nat, prior: seq<GrInfo>)
    requires limit <= 8 * |buf| && 0 < n <= |gr| && Filled(gr, buf, limit, h, at, n, prior)
    ensures gr[n - 1].part23Length == Part23At(buf, limit, GranuleStart(h, at, n - 1))
  {
    hide GranuleAt;
    GranuleAtIs(buf, limit, h, GranuleStart(h, at, n - 1), prior[n - 1]);
  }

  lemma FilledLength(gr: seq<GrInfo>, buf: seq<byte>, limit: int, h: Header, at: nat, n: nat, prior: seq<GrInfo>)
    requires limit <= 8 * |buf| && Filled(gr, buf, limit, h, at, n, prior)
    ensures |gr| == |prior|
  {
  }

  lemma GranulesUpTo(h: Header)
    ensures Granules(h) <= 4
  {
  }

  lemma SideStartIs(h: Header)
    ensures SideStart(h) == if HasCrc(h) then 16 else 0
    ensures SideStart(h) % 8 == 0 && SideStart(h) + 8 * SideInfoBytes(h) == 8 * PayloadStart(h)
  {
  }

  lemma BodyIs(frame: seq<byte>)
    ensures BodyLimit(frame) == 8 * (|frame| - 4)
    ensures |frame| >= 4 ==> BodyLimit(frame) == 8 * |Body(frame)|
    ensures |Body(frame)| <= |frame| && BodyLimit(frame) <= 8 * |Body(frame)|
  {
  }

  lemma InvalidSpan(buf: seq<byte>, limit: int, h: Header, at: nat)
    requires limit <= 8 * |buf|
    ensures MainDataBegin(buf, limit, h, at) >= 0
  {
  }

  lemma DecodeLayer3Is(s: State, frame: seq<byte>, h: Header, pcm: bool)
    ensures Refused(frame, h)
            <==> Invalid(Body(frame), BodyLimit(frame), h, SideStart(h)) || 8 * PayloadStart(h) > BodyLimit(frame)
    ensures Refused(frame, h)
            ==> DecodeLayer3(s, frame, h, pcm) == Decoded(State(Unsynced(s.header), s.free, s.reservoir), 0)
    ensures !Refused(frame, h)
            ==> var f := FrameOf(frame, h);
                DecodeLayer3(s, frame, h, pcm)
                == Decoded(State(s.header, s.free, Carry(s.reservoir, f, pcm)),
                           if Accepts(s.reservoir, f) then FrameSamples(h) else 0)
  {
  }

  lemma FrameOfIs(frame: seq<byte>, h: Header)
    requires !Refused(frame, h)
    ensures var f := FrameOf(frame, h);
            && f.mainDataBegin == MainDataBegin(Body(frame), BodyLimit(frame), h, SideStart(h))
            && PayloadStart(h) <= |Body(frame)|
            && f.payload == Body(frame)[PayloadStart(h)..]
            && f.part23Sum == Part23Sum(Body(frame), BodyLimit(frame), h, SideStart(h), Granules(h))
  {
  }

  /** The carry in the terms of the two reservoir functions, and the position that decoding reaches. */
  lemma CarryParts(res: seq<byte>, f: Frame, pcm: bool)
    requires Fits(f)
    ensures var main := Last(res, f.mainDataBegin) + f.payload;
            && (Accepts(res, f) <==> |res| >= f.mainDataBegin)
            && Carry(res, f, pcm)
               == Last(After(main, if pcm && Accepts(res, f) then f.part23Sum else 0), MAX_RESERVOIR)
            && (Accepts(res, f) ==> f.part23Sum <= 8 * |main|)
  {
    hide After;
  }

  // ---- What every call keeps ----

  /**
   A call consumes no more than it is given, and something whenever it is given anything; the
   state it leaves behind is one from which the next call can start.
   */
  lemma ConsumesSome(s: State, mp3: seq<byte>, pcm: bool, fits: seq<byte> -> bool)
    requires s.free < MAX_FREE_FORMAT_FRAME_SIZE
    ensures var d := Decode(s, mp3, pcm, fits);
            && d.consumed <= |mp3|
            && (d.consumed == 0 <==> |mp3| == 0)
            && d.state.free < MAX_FREE_FORMAT_FRAME_SIZE
  {
    hide *;
    DecodeIs(s, mp3, pcm, fits);
    ContinuesIs(s, mp3);
    SoundIs(mp3, Locate(s, mp3).0);
    LocateKeeps(s, mp3);
    BufferSizes();
    var f, s' := Locate(s, mp3).0, Locate(s, mp3).1;
    if f.size > 0 {
      DecodeBodyKeeps(s', mp3[f.at..f.at + f.size], HeaderAt(mp3, f.at), pcm, fits);
    }
  }

  lemma SoundIs(mp3: seq<byte>, f: Found)
    requires Sound(mp3, f)
    ensures f.size == 0 ==> f.at == |mp3|
    ensures f.size > 0 ==> f.at + HDR_SIZE < |mp3|
  {
  }

  lemma LocateKeeps(s: State, mp3: seq<byte>)
    requires s.free < MAX_FREE_FORMAT_FRAME_SIZE
    ensures Locate(s, mp3).1.free == Locate(s, mp3).0.free < MAX_FREE_FORMAT_FRAME_SIZE
  {
    hide FindFrom;
    FindFromSound(mp3, 0, 0);
  }

  lemma DecodeBodyKeeps(s: State, frame: seq<byte>, h: Header, pcm: bool, fits: seq<byte> -> bool)
    ensures DecodeBody(s, frame, h, pcm, fits).state.free == s.free
  {
    hide Refused, FrameOf;
  }

  // ---- Runs of calls ----

  /** The state after a call on each buffer, and how many samples were reported in all. */
  function Calls(buffers: seq<seq<byte>>, pcm: bool, fits: seq<byte> -> bool): (r: (State, nat))
    ensures r.0.free < MAX_FREE_FORMAT_FRAME_SIZE
  {
    if buffers == [] then (ZEROED, 0)
    else
      var (s, total) := Calls(buffers[..|buffers| - 1], pcm, fits);
      var mp3 := buffers[|buffers| - 1];
      ConsumesSome(s, mp3, pcm, fits);
      var d := Decode(s, mp3, pcm, fits);
      (d.state, total + d.samples)
  }

  /** What a call does to the reservoir: it may start over, and it may play a Layer III frame. */
  function EventsOf(s: State, mp3: seq<byte>): seq<Event>
    requires s.free < MAX_FREE_FORMAT_FRAME_SIZE
  {
    LocateSound(s, mp3);
    var f := Locate(s, mp3).0;
    (if Continues(s, mp3) then [] else [Reset]) +
    if f.size == 0 then []
    else
      var frame, h := mp3[f.at..f.at + f.size], HeaderAt(mp3, f.at);
      if IsLayer3(h) && !Refused(frame, h) then [Play(FrameOf(frame, h))] else []
  }

  function Events(buffers: seq<seq<byte>>, pcm: bool, fits: seq<byte> -> bool): seq<Event> {
    if buffers == [] then []
    else
      var before := buffers[..|buffers| - 1];
      Events(before, pcm, fits) + EventsOf(Calls(before, pcm, fits).0, buffers[|buffers| - 1])
  }

  lemma RunAppend(events: seq<Event>, e: Event, pcm: bool)
    ensures Run(events + [e], pcm) == if e.Reset? then [] else Carry(Run(events, pcm), e.frame, pcm)
  {
    assert (events + [e])[..|events|] == events;
  }

  /** One call, as a step of the reservoir machine. */
  lemma CallIsStep(s: State, mp3: seq<byte>, pcm: bool, fits: seq<byte> -> bool, events: seq<Event>)
    requires s.free < MAX_FREE_FORMAT_FRAME_SIZE && s.reservoir == Run(events, pcm)
    ensures Decode(s, mp3, pcm, fits).state.reservoir == Run(events + EventsOf(s, mp3), pcm)
  {
    hide *;
    DecodeIs(s, mp3, pcm, fits);
    EventsOfIs(s, mp3);
    LocateReservoir(s, mp3);
    var f, s' := Locate(s, mp3).0, Locate(s, mp3).1;
    var first := if Continues(s, mp3) then [] else [Reset];
    var events' := events + first;
    RunAppend(events, Reset, pcm);
    assert s'.reservoir == Run(events', pcm) by {
      assert Continues(s, mp3) ==> events' == events;
    }
    if f.size == 0 {
      assert events + (first + []) == events';
    } else {
      var frame, h := mp3[f.at..f.at + f.size], HeaderAt(mp3, f.at);
      BodyReservoir(s', frame, h, pcm, fits);
      if IsLayer3(h) && !Refused(frame, h) {
        RunAppend(events', Play(FrameOf(frame, h)), pcm);
        assert events + (first + [Play(FrameOf(frame, h))]) == events' + [Play(FrameOf(frame, h))];
      } else {
        assert events + (first + []) == events';
      }
    }
  }

  lemma EventsOfIs(s: State, mp3: seq<byte>)
    requires s.free < MAX_FREE_FORMAT_FRAME_SIZE
    ensures var f := Locate(s, mp3).0;
            var first: seq<Event> := if Continues(s, mp3) then [] else [Reset];
            && (f.size == 0 ==> EventsOf(s, mp3) == first + [])
            && (f.size > 0 ==>
                  && f.at + f.size <= |mp3| && f.at + HDR_SIZE <= |mp3|
                  && var frame, h := mp3[f.at..f.at + f.size], HeaderAt(mp3, f.at);
                     EventsOf(s, mp3)
                     == first + if IsLayer3(h) && !Refused(frame, h) then [Play(FrameOf(frame, h))] else [])
  {
    hide Locate, Continues, Refused, FrameOf, IsLayer3, IsValid;
    LocateSound(s, mp3);
  }

  lemma LocateReservoir(s: State, mp3: seq<byte>)
    ensures Locate(s, mp3).1.reservoir == if Continues(s, mp3) then s.reservoir else []
  {
    hide FindFrom, Continues;
  }

  lemma BodyReservoir(s: State, frame: seq<byte>, h: Header, pcm: bool, fits: seq<byte> -> bool)
    ensures DecodeBody(s, frame, h, pcm, fits).state.reservoir
            == if IsLayer3(h) && !Refused(frame, h) then Carry(s.reservoir, FrameOf(frame, h), pcm) else s.reservoir
  {
    hide Refused, FrameOf, Carry, IsLayer3;
  }

  lemma CallsStep(buffers: seq<seq<byte>>, pcm: bool, fits: seq<byte> -> bool)
    requires buffers != []
    ensures var before, mp3 := buffers[..|buffers| - 1], buffers[|buffers| - 1];
            var s, d := Calls(before, pcm, fits), Decode(Calls(before, pcm, fits).0, mp3, pcm, fits);
            && Calls(buffers, pcm, fits) == (d.state, s.1 + d.samples)
            && Events(buffers, pcm, fits) == Events(before, pcm, fits) + EventsOf(s.0, mp3)
  {
    hide Decode, EventsOf;
  }

  /** The decoder's reservoir over any run of calls is the reservoir machine's over the events. */
  lemma {:induction false} CallsAreRun(buffers: seq<seq<byte>>, pcm: bool, fits: seq<byte> -> bool)
    ensures Calls(buffers, pcm, fits).0.reservoir == Run(Events(buffers, pcm, fits), pcm)
  {
    if buffers != [] {
      var before := buffers[..|buffers| - 1];
      CallsAreRun(before, pcm, fits);
      hide *;
      CallsStep(buffers, pcm, fits);
      CallIsStep(Calls(before, pcm, fits).0, buffers[|buffers| - 1], pcm, fits, Events(before, pcm, fits));
    }
  }

  /**
   So over any run of calls on any bytes: at most 511 bytes are kept, they are the latest payload
   bytes since the decoder last started over, and the frame that is decoded next gets the main data
   that its main_data_begin asks for or is not decoded.
   */
  lemma ReservoirOverCalls(buffers: seq<seq<byte>>, pcm: bool, fits: seq<byte> -> bool, f: Frame)
    ensures var res, events := Calls(buffers, pcm, fits).0.reservoir, Events(buffers, pcm, fits);
            && |res| <= MAX_RESERVOIR
            && IsSuffix(res, History(events))
            && (Accepts(res, f)
                ==> MainData(res, f) == Last(History(events + [Play(f)]), f.mainDataBegin + |f.payload|))
  {
    hide *;
    CallsAreRun(buffers, pcm, fits);
    ReservoirIsRecentPayload(Events(buffers, pcm, fits), pcm);
    if Accepts(Calls(buffers, pcm, fits).0.reservoir, f) {
      AcceptedMainData(Events(buffers, pcm, fits), f, pcm);
    }
  }

  // ---- Counting against decoding ----

  /** The same position in the stream, and no less in the counting decoder's reservoir. */
  predicate Ahead(dec: State, cnt: State) {
    dec.header == cnt.header && dec.free == cnt.free && IsSuffix(dec.reservoir, cnt.reservoir)
  }

  lemma LocateAhead(dec: State, cnt: State, mp3: seq<byte>)
    requires Ahead(dec, cnt)
    ensures Locate(dec, mp3).0 == Locate(cnt, mp3).0
    ensures Ahead(Locate(dec, mp3).1, Locate(cnt, mp3).1)
  {
    hide FindFrom;
  }

  lemma BodyAhead(dec: State, cnt: State, frame: seq<byte>, h: Header, fits: seq<byte> -> bool)
    requires Ahead(dec, cnt) && (IsLayer3(h) || fits(frame))
    ensures var d, c := DecodeBody(dec, frame, h, true, fits), DecodeBody(cnt, frame, h, false, fits);
            Ahead(d.state, c.state) && d.samples <= c.samples
  {
    hide Refused, FrameOf, Carry, IsLayer3, IsSuffix;
    AheadLength(dec, cnt);
    if IsLayer3(h) && !Refused(frame, h) {
      CarryMonotone(dec.reservoir, cnt.reservoir, FrameOf(frame, h));
    }
  }

  lemma AheadLength(dec: State, cnt: State)
    requires Ahead(dec, cnt)
    ensures |dec.reservoir| <= |cnt.reservoir|
  {
  }

  /** One call of each: the same bytes are consumed, and no fewer samples are counted. */
  lemma CallAhead(dec: State, cnt: State, mp3: seq<byte>, fits: seq<byte> -> bool)
    requires Ahead(dec, cnt) && dec.free < MAX_FREE_FORMAT_FRAME_SIZE && cnt.free < MAX_FREE_FORMAT_FRAME_SIZE
    requires forall frame :: fits(frame)
    ensures var d, c := Decode(dec, mp3, true, fits), Decode(cnt, mp3, false, fits);
            Ahead(d.state, c.state) && d.consumed == c.consumed && d.samples <= c.samples
  {
    hide *;
    DecodeIs(dec, mp3, true, fits);
    DecodeIs(cnt, mp3, false, fits);
    LocateAhead(dec, cnt, mp3);
    var f := Locate(dec, mp3).0;
    if f.size > 0 {
      BodyAhead(Locate(dec, mp3).1, Locate(cnt, mp3).1, mp3[f.at..f.at + f.size], HeaderAt(mp3, f.at), fits);
    }
  }

  /**
   Counting the samples of a stream, on the same buffers, never falls short of decoding it: the
   counting decoder holds at least as much and reports at least as many samples.
   */
  lemma {:induction false} CountingRunsAhead(buffers: seq<seq<byte>>, fits: seq<byte> -> bool)
    requires forall frame :: fits(frame)
    ensures Ahead(Calls(buffers, true, fits).0, Calls(buffers, false, fits).0)
    ensures Calls(buffers, true, fits).1 <= Calls(buffers, false, fits).1
  {
    if buffers != [] {
      var before := buffers[..|buffers| - 1];
      CountingRunsAhead(before, fits);
      hide *;
      CallsStep(buffers, true, fits);
      CallsStep(buffers, false, fits);
      CallAhead(Calls(before, true, fits).0, Calls(before, false, fits).0, buffers[|buffers| - 1], fits);
    }
  }

  // ---- Where the count is wrong ----

  lemma EventsOfSame(dec: State, cnt: State, mp3: seq<byte>)
    requires Ahead(dec, cnt) && dec.free < MAX_FREE_FORMAT_FRAME_SIZE
    ensures EventsOf(dec, mp3) == EventsOf(cnt, mp3)
  {
    hide *;
    LocateAhead(dec, cnt, mp3);
    SameWayOn(dec, cnt, mp3);
    EventsOfIs(dec, mp3);
    EventsOfIs(cnt, mp3);
  }

  lemma SameWayOn(dec: State, cnt: State, mp3: seq<byte>)
    requires Ahead(dec, cnt)
    ensures Continues(dec, mp3) == Continues(cnt, mp3) && dec.free == cnt.free
  {
    hide IsSuffix, Compare, IsValid;
  }

  lemma AcceptedAppend(events: seq<Event>, e: Event, pcm: bool)
    ensures Accepted(events + [e], pcm)
            == Accepted(events, pcm) + if e.Play? && Accepts(Run(events, pcm), e.frame) then 1 else 0
  {
    assert (events + [e])[..|events|] == events;
  }

  /** The frame that a call finds goes to the reservoir, and its main data are there. */
  predicate Plays(mp3: seq<byte>, f: Found, res: seq<byte>) {
    && f.size > 0 && f.at + f.size <= |mp3| && f.at + HDR_SIZE <= |mp3|
    && var frame, h := mp3[f.at..f.at + f.size], HeaderAt(mp3, f.at);
       IsLayer3(h) && !Refused(frame, h) && Accepts(res, FrameOf(frame, h))
  }

  function SamplesAt(mp3: seq<byte>, f: Found, plays: bool): nat {
    if f.size == 0 || f.at + HDR_SIZE > |mp3| then 0
    else if plays || !IsLayer3(HeaderAt(mp3, f.at)) then FrameSamples(HeaderAt(mp3, f.at))
    else 0
  }

  /** The samples of a call, and whether the reservoir machine accepts its frame. */
  lemma CallAccepts(s: State, mp3: seq<byte>, pcm: bool, fits: seq<byte> -> bool, events: seq<Event>)
    requires s.free < MAX_FREE_FORMAT_FRAME_SIZE && s.reservoir == Run(events, pcm) && forall frame :: fits(frame)
    ensures var plays := Plays(mp3, Locate(s, mp3).0, Locate(s, mp3).1.reservoir);
            && Accepted(events + EventsOf(s, mp3), pcm) == Accepted(events, pcm) + (if plays then 1 else 0)
            && Decode(s, mp3, pcm, fits).samples == SamplesAt(mp3, Locate(s, mp3).0, plays)
  {
    hide *;
    DecodeIs(s, mp3, pcm, fits);
    EventsOfIs(s, mp3);
    var f, s' := Locate(s, mp3).0, Locate(s, mp3).1;
    var first: seq<Event> := if Continues(s, mp3) then [] else [Reset];
    StartsOver(s, mp3, pcm, events, first);
    PlaysIs(mp3, f, s'.reservoir);
    if f.size == 0 {
      Chained(events, first, []);
    } else {
      var frame, h := mp3[f.at..f.at + f.size], HeaderAt(mp3, f.at);
      BodySamples(s', frame, h, pcm, fits);
      if IsLayer3(h) && !Refused(frame, h) {
        AcceptedAppend(events + first, Play(FrameOf(frame, h)), pcm);
        Chained(events, first, [Play(FrameOf(frame, h))]);
      } else {
        Chained(events, first, []);
      }
    }
  }

  lemma StartsOver(s: State, mp3: seq<byte>, pcm: bool, events: seq<Event>, first: seq<Event>)
    requires s.reservoir == Run(events, pcm) && first == if Continues(s, mp3) then [] else [Reset]
    ensures Locate(s, mp3).1.reservoir == Run(events + first, pcm)
    ensures Accepted(events + first, pcm) == Accepted(events, pcm)
  {
    hide *;
    LocateReservoir(s, mp3);
    RunAppend(events, Reset, pcm);
    AcceptedAppend(events, Reset, pcm);
    assert events + [] == events;
  }

  lemma Chained(a: seq<Event>, b: seq<Event>, c: seq<Event>)
    ensures a + (b + c) == (a + b) + c && (c == [] ==> a + (b + c) == a + b)
  {
  }

  lemma PlaysIs(mp3: seq<byte>, f: Found, res: seq<byte>)
    requires f.at + f.size <= |mp3| && (f.size > 0 ==> f.at + HDR_SIZE <= |mp3|)
    ensures Plays(mp3, f, res)
            <==> f.size > 0
                 && var frame, h := mp3[f.at..f.at + f.size], HeaderAt(mp3, f.at);
                    IsLayer3(h) && !Refused(frame, h) && Accepts(res, FrameOf(frame, h))
    ensures SamplesAt(mp3, f, Plays(mp3, f, res))
            == if f.size > 0 && (Plays(mp3, f, res) || !IsLayer3(HeaderAt(mp3, f.at))) then FrameSamples(HeaderAt(mp3, f.at))
               else 0
  {
    hide Refused, IsLayer3, FrameOf, Accepts;
  }

  lemma BodySamples(s: State, frame: seq<byte>, h: Header, pcm: bool, fits: seq<byte> -> bool)
    requires fits(frame)
    ensures DecodeBody(s, frame, h, pcm, fits).samples
            == if !IsLayer3(h) || (!Refused(frame, h) && Accepts(s.reservoir, FrameOf(frame, h))) then FrameSamples(h)
               else 0
  {
    hide Refused, FrameOf, Carry, IsLayer3, Accepts;
  }

  lemma AcceptsIs(res: seq<byte>, f: Frame)
    ensures Accepts(res, f) <==> |res| >= f.mainDataBegin
  {
  }

  /** One call: as many samples are counted as are decoded exactly if both accept the frame, or neither. */
  lemma CallAgrees(dec: State, cnt: State, mp3: seq<byte>, fits: seq<byte> -> bool, events: seq<Event>)
    requires Ahead(dec, cnt) && dec.free < MAX_FREE_FORMAT_FRAME_SIZE && cnt.free < MAX_FREE_FORMAT_FRAME_SIZE
    requires forall frame :: fits(frame)
    requires dec.reservoir == Run(events, true) && cnt.reservoir == Run(events, false)
    ensures var events' := events + EventsOf(dec, mp3);
            var a, b := Accepted(events', true) - Accepted(events, true), Accepted(events', false) - Accepted(events, false);
            && a <= b
            && (Decode(dec, mp3, true, fits).samples == Decode(cnt, mp3, false, fits).samples <==> a == b)
  {
    hide *;
    CallAccepts(dec, mp3, true, fits, events);
    CallAccepts(cnt, mp3, false, fits, events);
    EventsOfSame(dec, cnt, mp3);
    LocateAhead(dec, cnt, mp3);
    AheadSuffix(Locate(dec, mp3).1, Locate(cnt, mp3).1);
    MorePlays(mp3, Locate(dec, mp3).0, Locate(dec, mp3).1.reservoir, Locate(cnt, mp3).1.reservoir);
  }

  lemma AheadSuffix(dec: State, cnt: State)
    requires Ahead(dec, cnt)
    ensures IsSuffix(dec.reservoir, cnt.reservoir)
  {
  }

  lemma MorePlays(mp3: seq<byte>, f: Found, res: seq<byte>, more: seq<byte>)
    requires IsSuffix(res, more)
    ensures var a, b := Plays(mp3, f, res), Plays(mp3, f, more);
            (a ==> b) && (SamplesAt(mp3, f, a) == SamplesAt(mp3, f, b) <==> a == b)
  {
    hide Refused, FrameOf, IsLayer3;
  }

  /**
   Over any run of calls the sample count is right if and only if the granules of the frames before each
   counted frame leave the bytes that it reaches back for. The condition reads nothing but the header and
   side info of the frames: the sizes of their payloads, their back pointers and bit counts.
   */
  lemma CountIsRightIff(buffers: seq<seq<byte>>, fits: seq<byte> -> bool)
    requires forall frame :: fits(frame)
    ensures Events(buffers, true, fits) == Events(buffers, false, fits)
    ensures Calls(buffers, true, fits).1 == Calls(buffers, false, fits).1 <==> LeavesEnough(Events(buffers, true, fits))
  {
    CountsAgree(buffers, fits);
    hide *;
    CountIsDecodedIff(Events(buffers, true, fits));
  }

  lemma {:induction false} CountsAgree(buffers: seq<seq<byte>>, fits: seq<byte> -> bool)
    requires forall frame :: fits(frame)
    ensures var events := Events(buffers, true, fits);
            && events == Events(buffers, false, fits)
            && Accepted(events, true) <= Accepted(events, false)
            && (Calls(buffers, true, fits).1 == Calls(buffers, false, fits).1
                <==> Accepted(events, true) == Accepted(events, false))
  {
    if buffers != [] {
      var before, mp3 := buffers[..|buffers| - 1], buffers[|buffers| - 1];
      CountsAgree(before, fits);
      hide *;
      var dec, cnt, events := Calls(before, true, fits).0, Calls(before, false, fits).0, Events(before, true, fits);
      CountingRunsAhead(before, fits);
      CallsStep(buffers, true, fits);
      CallsStep(buffers, false, fits);
      CallsAreRun(before, true, fits);
      CallsAreRun(before, false, fits);
      EventsOfSame(dec, cnt, mp3);
      CallAhead(dec, cnt, mp3, fits);
      CallAgrees(dec, cnt, mp3, fits, events);
    } else {
      NoEvents();
    }
  }
}
