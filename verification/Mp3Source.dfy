/**
 Frames from a byte stream: what `drmp3_decode_next_frame_ex__callbacks` of dr_mp3 computes, as a
 function of the stream, the position in it and the number of bytes that are buffered. On a stream
 of Layer III frames it delivers, one after the other, those that find their main data: all of them, if
 they are independent of each other. What that means for a decoder that starts in the middle.
 */
module Mp3Source {
  import opened Bytes
  import opened Mp3Header
  import opened Reservoir
  import opened Mp3Decoder

  const MIN_DATA_CHUNK_SIZE := 16384
  const DATA_CHUNK_SIZE := 65536

  /** The next byte to decode is at `at`; `size` bytes from there are buffered. */
  datatype Reader = Reader(dec: State, at: nat, size: nat, atEnd: bool)

  predicate Sane(stream: seq<byte>, r: Reader) {
    r.at + r.size <= |stream| && r.size <= DATA_CHUNK_SIZE && r.dec.free < MAX_FREE_FORMAT_FRAME_SIZE
  }

  /** The buffer is filled up when it holds less than the least chunk. */
  function Refilled(stream: seq<byte>, r: Reader): (r': Reader)
    requires Sane(stream, r)
    ensures Sane(stream, r') && r' == r.(size := r'.size) && r.size <= r'.size
  {
    if r.size >= MIN_DATA_CHUNK_SIZE then r
    else if |stream| - r.at < DATA_CHUNK_SIZE then r.(size := |stream| - r.at)
    else r.(size := DATA_CHUNK_SIZE)
  }

  function Window(stream: seq<byte>, r: Reader): (w: seq<byte>)
    requires r.at + r.size <= |stream|
    ensures |w| == r.size
  {
    stream[r.at..r.at + r.size]
  }

  /** One call of the decoder on what is buffered. */
  function Attempt(stream: seq<byte>, r: Reader, pcm: bool, fits: seq<byte> -> bool): (a: (Reader, nat))
    requires Sane(stream, r)
    ensures Sane(stream, a.0) && (r.size > 0 ==> r.at < a.0.at) && a.0.atEnd == r.atEnd
  {
    var d := Decode(r.dec, Window(stream, r), pcm, fits);
    ConsumesSome(r.dec, Window(stream, r), pcm, fits);
    (Reader(d.state, r.at + d.consumed, r.size - d.consumed, r.atEnd), d.samples)
  }

  /** Attempts until one yields samples, or the stream has ended. */
  function Next(stream: seq<byte>, r: Reader, pcm: bool, fits: seq<byte> -> bool): (a: (Reader, nat))
    requires Sane(stream, r)
    ensures Sane(stream, a.0)
    decreases |stream| - r.at
  {
    if r.atEnd then (r, 0)
    else
      var full := Refilled(stream, r);
      if full.size == 0 then (full.(atEnd := true), 0)
      else
        var a := Attempt(stream, full, pcm, fits);
        if a.1 > 0 then a else Next(stream, a.0, pcm, fits)
  }

  lemma NextIs(stream: seq<byte>, r: Reader, pcm: bool, fits: seq<byte> -> bool)
    requires Sane(stream, r)
    ensures r.atEnd ==> Next(stream, r, pcm, fits) == (r, 0)
    ensures !r.atEnd && Refilled(stream, r).size == 0
            ==> Next(stream, r, pcm, fits) == (Refilled(stream, r).(atEnd := true), 0)
    ensures !r.atEnd && Refilled(stream, r).size > 0
            ==> var a := Attempt(stream, Refilled(stream, r), pcm, fits);
                r.at < a.0.at && Next(stream, r, pcm, fits) == if a.1 > 0 then a else Next(stream, a.0, pcm, fits)
  {
    hide Attempt, Refilled;
  }

  /** No bytes are skipped over or seen twice by the buffering: every attempt starts where the last ended. */
  lemma {:induction false} NextAdvances(stream: seq<byte>, r: Reader, pcm: bool, fits: seq<byte> -> bool)
    requires Sane(stream, r)
    ensures var a := Next(stream, r, pcm, fits);
            && r.at <= a.0.at <= |stream|
            && (a.1 > 0 ==> r.at < a.0.at && !a.0.atEnd)
            && (a.1 == 0 ==> a.0.atEnd && (r.atEnd || a.0.at == |stream|))
    decreases |stream| - r.at
  {
    hide *;
    NextIs(stream, r, pcm, fits);
    RefilledIs(stream, r);
    if !r.atEnd && Refilled(stream, r).size > 0 {
      AttemptIs(stream, Refilled(stream, r), pcm, fits);
      var a := Attempt(stream, Refilled(stream, r), pcm, fits);
      if a.1 == 0 {
        NextAdvances(stream, a.0, pcm, fits);
      }
    }
  }

  lemma RefilledIs(stream: seq<byte>, r: Reader)
    requires Sane(stream, r)
    ensures var full := Refilled(stream, r);
            && Sane(stream, full) && full.at == r.at && full.dec == r.dec && full.atEnd == r.atEnd
            && (full.size == 0 ==> full.at == |stream|)
            && (full.size >= MIN_DATA_CHUNK_SIZE || full.at + full.size == |stream|)
            && full.at + full.size <= |stream|
  {
  }

  lemma AttemptIs(stream: seq<byte>, r: Reader, pcm: bool, fits: seq<byte> -> bool)
    requires Sane(stream, r)
    ensures r.at + r.size <= |stream|
    ensures var a, d := Attempt(stream, r, pcm, fits), Decode(r.dec, Window(stream, r), pcm, fits);
            && Sane(stream, a.0) && (r.size > 0 ==> r.at < a.0.at) && a.0.at <= |stream|
            && d.consumed <= r.size
            && a == (Reader(d.state, r.at + d.consumed, r.size - d.consumed, r.atEnd), d.samples)
  {
    hide Decode;
    ConsumesSome(r.dec, Window(stream, r), pcm, fits);
  }

  // ---- Streams of frames ----

  /** Frame `k` is the bytes starts[k]..starts[k + 1] of the stream; each has the same number of samples. */
  datatype Layout = Layout(starts: seq<nat>, samples: nat)

  /** A Layer III frame of known length whose side info is accepted. */
  predicate Playable(frame: seq<byte>, samples: nat) {
    && |frame| >= HDR_SIZE
    && var h := HeaderAt(frame, 0);
       && IsValid(h) && IsLayer3(h) && !IsFreeFormat(h)
       && SizeOf(h, 0) == |frame| && FrameSamples(h) == samples
       && !Refused(frame, h)
  }

  function Count(g: Layout): int { |g.starts| - 1 }

  /** The stream is such frames, one behind the other. */
  ghost predicate Framed(stream: seq<byte>, g: Layout) {
    && Count(g) > 0 && g.starts[0] == 0 && g.starts[Count(g)] == |stream|
    && (forall k :: 0 <= k < Count(g) ==> FrameWithin(stream, g, k) && Playable(FrameBytesOf(stream, g, k), g.samples))
    && (forall j, k :: 0 <= j < Count(g) && 0 <= k < Count(g)
                       ==> Compare(HeaderOf(stream, g, j), HeaderOf(stream, g, k)))
  }

  function FrameAt(stream: seq<byte>, g: Layout, k: nat): Frame
    requires Framed(stream, g) && k < Count(g)
  {
    hide *;
    NotRefused(stream, g, k);
    FrameOf(FrameBytesOf(stream, g, k), HeaderOf(stream, g, k))
  }

  lemma NotRefused(stream: seq<byte>, g: Layout, k: nat)
    requires Framed(stream, g) && k < Count(g)
    ensures FrameWithin(stream, g, k) && !Refused(FrameBytesOf(stream, g, k), HeaderOf(stream, g, k))
  {
    hide Refused, SizeOf, Compare, IsLayer3, FrameSamples;
    var frame := FrameBytesOf(stream, g, k);
    assert Playable(frame, g.samples);
    assert HeaderAt(frame, 0) == HeaderOf(stream, g, k);
  }

  /** And none of the frames needs bytes from the frames before it. */
  ghost predicate Good(stream: seq<byte>, g: Layout): (b: bool)
    ensures b ==> Framed(stream, g)
  {
    Framed(stream, g) && forall k :: 0 <= k < Count(g) ==> FrameAt(stream, g, k).mainDataBegin == 0
  }

  predicate FrameWithin(stream: seq<byte>, g: Layout, k: nat)
    requires k < Count(g)
  {
    g.starts[k] + HDR_SIZE <= g.starts[k + 1] <= |stream|
  }

  function FrameBytesOf(stream: seq<byte>, g: Layout, k: nat): seq<byte>
    requires k < Count(g) && FrameWithin(stream, g, k)
  {
    stream[g.starts[k]..g.starts[k + 1]]
  }

  function HeaderOf(stream: seq<byte>, g: Layout, k: nat): Header
    requires k < Count(g) && FrameWithin(stream, g, k)
  {
    HeaderAt(stream, g.starts[k])
  }

  /** The decoder has lost sync, or comes from some frame of the stream. */
  ghost predicate Follows(stream: seq<byte>, g: Layout, s: State)
    requires Framed(stream, g)
  {
    s.header[0] != 0xff || exists k :: 0 <= k < Count(g) && s.header == HeaderOf(stream, g, k)
  }

  /** The reader stands before frame `k`. */
  ghost predicate Before(stream: seq<byte>, g: Layout, r: Reader, k: nat)
    requires Framed(stream, g)
  {
    k <= Count(g) && Sane(stream, r) && r.at == g.starts[k] && Follows(stream, g, r.dec) && (r.atEnd ==> k == Count(g))
  }

  lemma FramedAt(stream: seq<byte>, g: Layout, k: nat)
    requires Framed(stream, g) && k < Count(g)
    ensures FrameWithin(stream, g, k) && g.starts[k] + HDR_SIZE <= g.starts[k + 1] <= |stream|
    ensures var h, frame := HeaderOf(stream, g, k), FrameBytesOf(stream, g, k);
            && h == HeaderAt(stream, g.starts[k])
            && IsValid(h) && IsLayer3(h) && !IsFreeFormat(h) && h[0] == 0xff
            && SizeOf(h, 0) == |frame| == g.starts[k + 1] - g.starts[k] && FrameSamples(h) == g.samples
            && !Refused(frame, h) && FrameAt(stream, g, k) == FrameOf(frame, h)
  {
    hide Refused, FrameOf, SizeOf, Compare, IsLayer3, FrameSamples;
    var frame := FrameBytesOf(stream, g, k);
    assert Playable(frame, g.samples);
    assert HeaderAt(frame, 0) == HeaderOf(stream, g, k);
  }

  lemma FramedAlike(stream: seq<byte>, g: Layout, j: nat, k: nat)
    requires Framed(stream, g) && j < Count(g) && k < Count(g)
    ensures FrameWithin(stream, g, j) && FrameWithin(stream, g, k)
    ensures Compare(HeaderOf(stream, g, j), HeaderOf(stream, g, k))
  {
    hide Compare, Playable;
  }

  /** The size of such a frame does not depend on the free format size that the decoder knows. */
  lemma SizeKnown(h: Header, free: nat)
    requires IsValid(h) && !IsFreeFormat(h)
    ensures SizeOf(h, free) == SizeOf(h, 0) && FrameBytes(h, free) == ComputedBytes(h) > 0
    ensures SizeOf(h, free) == ComputedBytes(h) + Padding(h)
  {
    ComputedUnlessFree(h);
  }

  lemma {:induction false} StartsGrow(stream: seq<byte>, g: Layout, j: nat, k: nat)
    requires Framed(stream, g) && j <= k <= Count(g)
    ensures g.starts[j] + 4 * (k - j) <= g.starts[k] <= |stream|
    ensures (k == Count(g) || k < Count(g)) && (g.starts[k] == |stream| ==> k == Count(g))
    decreases k - j
  {
    hide *;
    CountIs(stream, g);
    if k < Count(g) {
      FramedAt(stream, g, k);
    }
    if j < k {
      StartsGrow(stream, g, j, k - 1);
      FramedAt(stream, g, k - 1);
    } else if k > 0 {
      FramedAt(stream, g, k - 1);
    }
  }

  lemma CountIs(stream: seq<byte>, g: Layout)
    requires Framed(stream, g)
    ensures Count(g) == |g.starts| - 1 > 0 && HDR_SIZE == 4 && g.starts[Count(g)] == |stream| && g.starts[0] == 0
  {
  }

  /** A header that lies in the window is the one in the stream. */
  lemma HeaderInWindow(stream: seq<byte>, r: Reader, p: nat)
    requires r.at + r.size <= |stream| && p + HDR_SIZE <= r.size
    ensures HeaderAt(Window(stream, r), p) == HeaderAt(stream, r.at + p)
  {
    Slices(stream, r.at, r.at + r.size, p, p + 4);
    assert Window(stream, r)[..p + 4][p..] == Window(stream, r)[p..p + 4];
  }

  /** From one frame of the stream, the headers that follow in the window all match. */
  lemma {:induction false} MatchesOn(stream: seq<byte>, g: Layout, r: Reader, k: nat, j: nat, free: nat, matched: nat)
    requires Framed(stream, g) && r.at + r.size <= |stream|
    requires k <= j < Count(g) && r.at == g.starts[k] && g.starts[j] + HDR_SIZE <= r.at + r.size
    requires matched > 0 || g.starts[j + 1] + HDR_SIZE <= r.at + r.size
    ensures g.starts[j] >= r.at && HDR_SIZE <= r.size && IsValid(HeaderAt(Window(stream, r), g.starts[j] - r.at))
    ensures MatchFrom(Window(stream, r), 0, g.starts[j] - r.at, free, matched)
    decreases Count(g) - j
  {
    hide *;
    var w := Window(stream, r);
    WindowSize(stream, r);
    CountIs(stream, g);
    StartsGrow(stream, g, k, j);
    var p: nat := g.starts[j] - r.at;
    FramedAt(stream, g, j);
    HeaderInWindow(stream, r, p);
    SizeKnown(HeaderAt(w, p), free);
    FrameIs(stream, g, j);
    MatchFromIs(w, 0, p, free, matched);
    if matched < MAX_FRAME_SYNC_MATCHES && g.starts[j + 1] + HDR_SIZE <= r.at + r.size {
      StartsGrow(stream, g, j + 1, j + 1);
      FramedAt(stream, g, j + 1);
      FramedAlike(stream, g, k, j + 1);
      FramedAt(stream, g, k);
      HeaderInWindow(stream, r, 0);
      HeaderInWindow(stream, r, g.starts[j + 1] - r.at);
      MatchesOn(stream, g, r, k, j + 1, free, matched + 1);
    }
  }

  lemma WindowSize(stream: seq<byte>, r: Reader)
    requires r.at + r.size <= |stream|
    ensures |Window(stream, r)| == r.size
  {
  }

  lemma FrameIs(stream: seq<byte>, g: Layout, k: nat)
    requires Framed(stream, g) && k < Count(g)
    ensures FrameWithin(stream, g, k) && |FrameBytesOf(stream, g, k)| == g.starts[k + 1] - g.starts[k] >= HDR_SIZE
    ensures FrameBytesOf(stream, g, k) == stream[g.starts[k]..g.starts[k + 1]]
    ensures HeaderOf(stream, g, k) == HeaderAt(stream, g.starts[k])
  {
    FramedAt(stream, g, k);
  }

  /** Enough is buffered: the rest of the stream, or the least chunk. */
  predicate Filled(stream: seq<byte>, r: Reader) {
    r.at + r.size <= |stream| && (r.size >= MIN_DATA_CHUNK_SIZE || r.at + r.size == |stream|)
  }

  /** Either frame `k` is all that is left, or the window reaches over the next header. */
  lemma EnoughBuffered(stream: seq<byte>, g: Layout, r: Reader, k: nat)
    requires Framed(stream, g) && k < Count(g) && r.at == g.starts[k] && Filled(stream, r)
    ensures HDR_SIZE < g.starts[k + 1] - g.starts[k] <= r.size
    ensures g.starts[k + 1] - g.starts[k] == r.size || (k + 1 < Count(g) && g.starts[k + 1] + HDR_SIZE <= r.at + r.size)
  {
    hide *;
    CountIs(stream, g);
    FramedAt(stream, g, k);
    FrameIs(stream, g, k);
    FilledIs(stream, r);
    FrameBounds(FrameBytesOf(stream, g, k), HeaderOf(stream, g, k));
    StartsGrow(stream, g, k + 1, k + 1);
    if k + 1 < Count(g) {
      FramedAt(stream, g, k + 1);
    }
  }

  lemma FilledIs(stream: seq<byte>, r: Reader)
    requires Filled(stream, r)
    ensures r.at + r.size <= |stream| && (r.size >= 16384 || r.at + r.size == |stream|)
  {
  }

  lemma FrameBounds(frame: seq<byte>, h: Header)
    requires IsValid(h) && IsLayer3(h) && |frame| == SizeOf(h, 0) && !Refused(frame, h)
    ensures 4 < |frame| <= 2304
  {
    hide IsValid, SizeOf, IsLayer3;
    FrameLength(h, 0);
  }

  /** What the reservoir holds by the time that the next frame is decoded: a search starts over. */
  function Entering(s: State): seq<byte> {
    if s.header[0] == 0xff then s.reservoir else []
  }

  lemma EnteringIs(s: State)
    ensures Entering(s) == if s.header[0] == 0xff then s.reservoir else []
  {
  }

  lemma ZeroedEmpty()
    ensures ZEROED.reservoir == []
  {
  }

  /** A decoder that comes from a frame of the stream goes on with this one, without a search. */
  lemma InSync(stream: seq<byte>, g: Layout, r: Reader, k: nat)
    requires Framed(stream, g) && k < Count(g) && r.at == g.starts[k] && Filled(stream, r)
    requires Follows(stream, g, r.dec) && r.dec.header[0] == 0xff
    ensures r.at + r.size <= |stream| && Continues(r.dec, Window(stream, r))
  {
    hide *;
    FilledIs(stream, r);
    var w := Window(stream, r);
    WindowSize(stream, r);
    CountIs(stream, g);
    EnoughBuffered(stream, g, r, k);
    FramedAt(stream, g, k);
    FrameIs(stream, g, k);
    HeaderInWindow(stream, r, 0);
    SizeKnown(HeaderAt(w, 0), r.dec.free);
    var j := FollowsWhich(stream, g, r.dec);
    FramedAlike(stream, g, j, k);
    if g.starts[k + 1] - g.starts[k] != r.size {
      FramedAt(stream, g, k + 1);
      FramedAlike(stream, g, k, k + 1);
      HeaderInWindow(stream, r, g.starts[k + 1] - r.at);
    }
    ContinuesIs(r.dec, w);
  }

  lemma FollowsWhich(stream: seq<byte>, g: Layout, s: State) returns (j: nat)
    requires Framed(stream, g) && Follows(stream, g, s) && s.header[0] == 0xff
    ensures j < Count(g) && FrameWithin(stream, g, j) && s.header == HeaderOf(stream, g, j)
  {
    hide HeaderOf, FrameWithin, Playable;
    j :| j < Count(g) && s.header == HeaderOf(stream, g, j);
    FramedAt(stream, g, j);
  }

  /** The frame at the start of the window is found at once, whether or not the decoder was in sync. */
  lemma LocateOn(stream: seq<byte>, g: Layout, r: Reader, k: nat)
    requires Framed(stream, g) && k < Count(g) && r.at == g.starts[k] && Filled(stream, r) && Follows(stream, g, r.dec)
    ensures r.at + r.size <= |stream|
    ensures var f := Locate(r.dec, Window(stream, r)).0; f.at == 0 && g.starts[k] + f.size == g.starts[k + 1]
    ensures Locate(r.dec, Window(stream, r)).1.reservoir == Entering(r.dec)
  {
    hide *;
    EnteringIs(r.dec);
    FilledIs(stream, r);
    var w := Window(stream, r);
    WindowSize(stream, r);
    CountIs(stream, g);
    EnoughBuffered(stream, g, r, k);
    FramedAt(stream, g, k);
    FrameIs(stream, g, k);
    HeaderInWindow(stream, r, 0);
    var h := HeaderAt(w, 0);
    SizeKnown(h, r.dec.free);
    SizeKnown(h, 0);
    ContinuesIs(r.dec, w);
    if r.dec.header[0] == 0xff {
      InSync(stream, g, r, k);
    }
    if !Continues(r.dec, w) {
      ZeroedEmpty();
      var s := InitialSize(h, 0);
      InitialSizeIs(h);
      NotSearching(w, 0, HDR_SIZE, s);
      SizeFromIs(w, 0, HDR_SIZE, s);
      AcceptableIs(w, 0, s);
      if g.starts[k + 1] - g.starts[k] != r.size {
        MatchesOn(stream, g, r, k, k, s.frameBytes, 0);
      }
      FindFromIs(w, 0, 0);
    }
  }

  lemma InitialSizeIs(h: Header)
    requires IsValid(h)
    ensures InitialSize(h, 0) == Size(FrameBytes(h, 0), SizeOf(h, 0), 0)
  {
  }

  lemma NotSearching(mp3: seq<byte>, i: nat, k: nat, s: Size)
    requires s.frameBytes > 0
    ensures !Searching(mp3, i, k, s)
  {
  }

  /** A frame is decoded if the reservoir holds the bytes before it that it asks for; it is carried on either way. */
  lemma BodyOn(s: State, frame: seq<byte>, h: Header, pcm: bool, fits: seq<byte> -> bool)
    requires IsLayer3(h) && !Refused(frame, h)
    ensures var d, f := DecodeBody(s, frame, h, pcm, fits), FrameOf(frame, h);
            && d.samples == (if f.mainDataBegin <= |s.reservoir| then FrameSamples(h) else 0)
            && d.state.header == h && d.state.reservoir == Carry(s.reservoir, f, pcm)
  {
    hide Refused, FrameOf, IsLayer3, FrameSamples, Carry;
  }

  lemma AttemptOn(stream: seq<byte>, g: Layout, r: Reader, k: nat, pcm: bool, fits: seq<byte> -> bool)
    requires Framed(stream, g) && Before(stream, g, r, k) && k < Count(g) && Filled(stream, r)
    ensures Sane(stream, r)
    ensures var a, f := Attempt(stream, r, pcm, fits), FrameAt(stream, g, k);
            && a.1 == (if f.mainDataBegin <= |Entering(r.dec)| then g.samples else 0)
            && Before(stream, g, a.0, k + 1) && a.0.atEnd == r.atEnd
            && Entering(a.0.dec) == Carry(Entering(r.dec), f, pcm)
  {
    hide *;
    BeforeIs(stream, g, r, k);
    SaneIs(stream, r);
    AttemptIs(stream, r, pcm, fits);
    LocateOn(stream, g, r, k);
    FramedAt(stream, g, k);
    FrameIs(stream, g, k);
    CountIs(stream, g);
    EnoughBuffered(stream, g, r, k);
    HeaderInWindow(stream, r, 0);
    var w := Window(stream, r);
    DecodeIs(r.dec, w, pcm, fits);
    FrameInWindow(stream, r, g.starts[k + 1]);
    var s' := Locate(r.dec, w).1;
    BodyOn(s', FrameBytesOf(stream, g, k), HeaderOf(stream, g, k), pcm, fits);
    var a := Attempt(stream, r, pcm, fits);
    FollowsFrame(stream, g, a.0.dec, k);
    EnteringIs(a.0.dec);
    BeforeIs(stream, g, a.0, k + 1);
  }

  lemma BeforeIs(stream: seq<byte>, g: Layout, r: Reader, k: nat)
    requires Framed(stream, g)
    ensures Before(stream, g, r, k)
            <==> k <= Count(g) && Sane(stream, r) && r.at == g.starts[k] && Follows(stream, g, r.dec)
                 && (r.atEnd ==> k == Count(g))
  {
    hide Follows, Sane;
  }

  lemma SaneIs(stream: seq<byte>, r: Reader)
    requires Sane(stream, r)
    ensures r.at + r.size <= |stream| && r.dec.free < MAX_FREE_FORMAT_FRAME_SIZE
  {
  }

  lemma FrameInWindow(stream: seq<byte>, r: Reader, end: nat)
    requires r.at <= end <= r.at + r.size <= |stream|
    ensures end - r.at <= |Window(stream, r)|
    ensures Window(stream, r)[0..0 + (end - r.at)] == stream[r.at..end]
  {
  }

  lemma FollowsFrame(stream: seq<byte>, g: Layout, s: State, k: nat)
    requires Framed(stream, g) && k < Count(g) && s.header == HeaderOf(stream, g, k)
    ensures Follows(stream, g, s)
  {
  }

  /** The first frame from `k` on that finds the bytes it needs, with so many held before frame `k`; else the end. */
  ghost function Taken(stream: seq<byte>, g: Layout, k: nat, held: nat): (t: nat)
    requires Framed(stream, g) && k <= Count(g)
    ensures k <= t <= Count(g)
    decreases Count(g) - k
  {
    if k == Count(g) || FrameAt(stream, g, k).mainDataBegin <= held then k
    else Taken(stream, g, k + 1, Kept(held, FrameAt(stream, g, k), true))
  }

  lemma TakenIs(stream: seq<byte>, g: Layout, k: nat, held: nat)
    requires Framed(stream, g) && k < Count(g)
    ensures var f := FrameAt(stream, g, k);
            Taken(stream, g, k, held)
            == if f.mainDataBegin <= held then k else Taken(stream, g, k + 1, Kept(held, f, true))
  {
    hide FrameAt, Kept;
  }

  /** What is decoded plays no part in what a frame leaves that is not. */
  lemma KeptUndecoded(held: nat, f: Frame, pcm: bool)
    requires held < f.mainDataBegin
    ensures Kept(held, f, pcm) == Kept(held, f, true)
  {
  }

  /**
   On any stream of frames each call delivers the next frame that finds its main data: those before it are passed
   over, though they fill the reservoir.
   */
  lemma {:induction false} NextOnFrames(stream: seq<byte>, g: Layout, r: Reader, k: nat, pcm: bool, fits: seq<byte> -> bool)
    requires Framed(stream, g) && Before(stream, g, r, k)
    ensures Sane(stream, r) && k <= Count(g)
    ensures var a, held := Next(stream, r, pcm, fits), |Entering(r.dec)|;
            var t := Taken(stream, g, k, held);
            && (t < Count(g) ==> a.1 == g.samples && Before(stream, g, a.0, t + 1) && !a.0.atEnd)
            && (t < Count(g) && t == k ==> |Entering(a.0.dec)| == Kept(held, FrameAt(stream, g, k), pcm))
            && (t == Count(g) ==> a.1 == 0 && Before(stream, g, a.0, Count(g)))
    decreases |g.starts| - k
  {
    hide *;
    BeforeIs(stream, g, r, k);
    CountIs(stream, g);
    FramedSamples(stream, g);
    NextIs(stream, r, pcm, fits);
    RefilledIs(stream, r);
    var full := Refilled(stream, r);
    BeforeIs(stream, g, full, k);
    StartsGrow(stream, g, k, k);
    if k < Count(g) {
      FilledFrom(stream, full);
      AttemptOn(stream, g, full, k, pcm, fits);
      var a, f := Attempt(stream, full, pcm, fits), FrameAt(stream, g, k);
      CarrySize(Entering(r.dec), f, pcm);
      TakenIs(stream, g, k, |Entering(r.dec)|);
      if a.1 == 0 {
        KeptUndecoded(|Entering(r.dec)|, f, pcm);
        NextOnFrames(stream, g, a.0, k + 1, pcm, fits);
      }
    } else {
      AtEndSane(stream, full);
      BeforeIs(stream, g, full.(atEnd := true), k);
      assert full.(atEnd := true).dec == full.dec;
    }
  }

  lemma GoodFrame(stream: seq<byte>, g: Layout, k: nat, held: nat)
    requires Good(stream, g) && k < Count(g)
    ensures FrameAt(stream, g, k).mainDataBegin == 0 && Taken(stream, g, k, held) == k
  {
    hide FrameAt;
    TakenIs(stream, g, k, held);
  }

  /** So on a stream of independent frames each call delivers exactly the next frame, until there is none. */
  lemma NextOn(stream: seq<byte>, g: Layout, r: Reader, k: nat, pcm: bool, fits: seq<byte> -> bool)
    requires Good(stream, g) && Before(stream, g, r, k)
    ensures Sane(stream, r)
    ensures var a := Next(stream, r, pcm, fits);
            if k < Count(g) then a.1 == g.samples && Before(stream, g, a.0, k + 1) && !a.0.atEnd
            else a.1 == 0 && Before(stream, g, a.0, k)
  {
    hide *;
    BeforeIs(stream, g, r, k);
    NextOnFrames(stream, g, r, k, pcm, fits);
    if k < Count(g) {
      GoodFrame(stream, g, k, |Entering(r.dec)|);
    }
  }

  lemma FramedSamples(stream: seq<byte>, g: Layout)
    requires Framed(stream, g)
    ensures 0 < g.samples <= 1152
  {
    hide Compare, Refused;
    assert Playable(FrameBytesOf(stream, g, 0), g.samples);
  }

  lemma FilledFrom(stream: seq<byte>, r: Reader)
    requires Sane(stream, r) && (r.size >= MIN_DATA_CHUNK_SIZE || r.at + r.size == |stream|)
    ensures Filled(stream, r)
  {
  }

  lemma AtEndSane(stream: seq<byte>, r: Reader)
    requires Sane(stream, r)
    ensures Sane(stream, r.(atEnd := true))
  {
  }

  // ---- Starting in the middle ----

  /** Calls of the loop, the last one with PCM, until one finds no frame. */
  function Discard(stream: seq<byte>, r: Reader, count: nat, fits: seq<byte> -> bool): (a: (Reader, bool))
    requires Sane(stream, r)
    ensures Sane(stream, a.0)
    decreases count
  {
    if count == 0 then (r, true)
    else
      var a := Next(stream, r, count == 1, fits);
      if a.1 == 0 then (a.0, false) else Discard(stream, a.0, count - 1, fits)
  }

  lemma DiscardIs(stream: seq<byte>, r: Reader, count: nat, fits: seq<byte> -> bool)
    requires Sane(stream, r)
    ensures Discard(stream, r, 0, fits) == (r, true)
    ensures count > 0 ==>
              var a := Next(stream, r, count == 1, fits);
              Discard(stream, r, count, fits) == if a.1 == 0 then (a.0, false) else Discard(stream, a.0, count - 1, fits)
  {
    hide Next;
  }

  /** Frame `k` needs nothing from before it, and frame `k + 1` no more than the payload of frame `k`. */
  ghost predicate Opens(stream: seq<byte>, g: Layout, k: nat)
    requires Framed(stream, g) && k + 2 <= Count(g)
  {
    && FrameAt(stream, g, k).mainDataBegin == 0
    && FrameAt(stream, g, k + 1).mainDataBegin <= Kept(0, FrameAt(stream, g, k), false)
  }

  /** What two such frames leave in an empty reservoir, the first of them decoded without PCM. */
  function Left(stream: seq<byte>, g: Layout, k: nat): nat
    requires Framed(stream, g) && k + 2 <= Count(g)
  {
    Kept(Kept(0, FrameAt(stream, g, k), false), FrameAt(stream, g, k + 1), true)
  }

  /**
   A decoder that starts over at frame `k` and discards two frames stands before frame `k + 2` if and only if it
   had not to pass over one of them; otherwise it is too late in the stream, or at its end.
   */
  lemma DiscardsTwoIff(stream: seq<byte>, g: Layout, r: Reader, k: nat, fits: seq<byte> -> bool)
    requires Framed(stream, g) && Before(stream, g, r, k) && k + 2 <= Count(g) && Entering(r.dec) == []
    ensures Sane(stream, r)
    ensures var d := Discard(stream, r, 2, fits);
            && (d.1 && d.0.at == g.starts[k + 2] <==> Opens(stream, g, k))
            && (Opens(stream, g, k) ==>
                  d.1 && Before(stream, g, d.0, k + 2) && |Entering(d.0.dec)| == Left(stream, g, k))
            && (d.1 ==> d.0.at >= g.starts[k + 2])
  {
    hide *;
    BeforeIs(stream, g, r, k);
    CountIs(stream, g);
    FramedSamples(stream, g);
    OpensIs(stream, g, k);
    DiscardIs(stream, r, 2, fits);
    NextOnFrames(stream, g, r, k, false, fits);
    TakenIs(stream, g, k, 0);
    TakenFrom(stream, g, k, 0);
    var a := Next(stream, r, false, fits);
    DiscardIs(stream, a.0, 1, fits);
    if a.1 > 0 {
      var t := Taken(stream, g, k, 0);
      var b := Next(stream, a.0, true, fits);
      DiscardIs(stream, b.0, 0, fits);
      var held := |Entering(a.0.dec)|;
      NextOnFrames(stream, g, a.0, t + 1, true, fits);
      TakenFrom(stream, g, t + 1, held);
      if t + 1 < Count(g) {
        TakenIs(stream, g, t + 1, held);
      }
      if b.1 > 0 {
        var u := Taken(stream, g, t + 1, held);
        BeforeIs(stream, g, b.0, u + 1);
        StartsGrow(stream, g, k + 2, u + 1);
      }
    }
  }

  lemma OpensIs(stream: seq<byte>, g: Layout, k: nat)
    requires Framed(stream, g) && k + 2 <= Count(g)
    ensures var e, f := FrameAt(stream, g, k), FrameAt(stream, g, k + 1);
            && Opens(stream, g, k) == (e.mainDataBegin <= 0 && f.mainDataBegin <= Kept(0, e, false))
            && Left(stream, g, k) == Kept(Kept(0, e, false), f, true)
  {
    hide FrameAt, Kept, Framed;
  }

  lemma TakenFrom(stream: seq<byte>, g: Layout, k: nat, held: nat)
    requires Framed(stream, g) && k <= Count(g)
    ensures k <= Taken(stream, g, k, held) <= Count(g)
    ensures k < Count(g) && Taken(stream, g, k, held) != k ==> k + 1 <= Taken(stream, g, k, held)
  {
  }

  /** And then frame `k + 2` is decoded next if and only if it reaches back no further than those two leave. */
  lemma DecodesNextIff(stream: seq<byte>, g: Layout, r: Reader, k: nat, pcm: bool, fits: seq<byte> -> bool)
    requires Framed(stream, g) && Before(stream, g, r, k) && k < Count(g)
    ensures Sane(stream, r)
    ensures var a := Next(stream, r, pcm, fits);
            a.1 > 0 && a.0.at == g.starts[k + 1]
            <==> FrameAt(stream, g, k).mainDataBegin <= |Entering(r.dec)|
  {
    hide *;
    BeforeIs(stream, g, r, k);
    CountIs(stream, g);
    FramedSamples(stream, g);
    var held := |Entering(r.dec)|;
    NextOnFrames(stream, g, r, k, pcm, fits);
    TakenIs(stream, g, k, held);
    TakenFrom(stream, g, k, held);
    var a, t := Next(stream, r, pcm, fits), Taken(stream, g, k, held);
    if t < Count(g) {
      BeforeIs(stream, g, a.0, t + 1);
      StartsGrow(stream, g, k + 1, t + 1);
      if t > k {
        TakenAfter(stream, g, k, held);
      }
    }
  }

  lemma TakenAfter(stream: seq<byte>, g: Layout, k: nat, held: nat)
    requires Framed(stream, g) && k < Count(g)
    ensures Taken(stream, g, k, held) > k <==> FrameAt(stream, g, k).mainDataBegin > held
  {
    hide FrameAt, Kept, Framed;
  }
}
