/**
 The pull API of dr_mp3 on a stream that is read through callbacks: the buffer that is refilled from
 the stream, reading PCM frames, and seeking, by brute force and through a seek table. The callbacks
 read as much as is asked for while the stream lasts, and seek to any position in it.
 */
module Mp3Stream {
  import opened Arith
  import opened Bytes
  import opened Mp3Header
  import opened Reservoir
  import opened Mp3Decoder
  import opened Mp3Source

  /** A PCM frame, identified by the MP3 frame it was decoded from and its place in it. */
  datatype Pcm = Pcm(frameEnd: nat, index: nat)

  // ---- The data buffer ----

  /** DRMP3_MOVE_MEMORY of `n` bytes down to the start of the buffer. */
  function MovedDown(buf: seq<byte>, from: nat, n: nat): (r: seq<byte>)
    requires from + n <= |buf|
    ensures |r| == |buf|
  {
    buf[from..from + n] + buf[n..]
  }

  function Resized(buf: seq<byte>, capacity: nat): (r: seq<byte>)
    requires |buf| <= capacity
    ensures |r| == capacity
  {
    buf + seq(capacity - |buf|, _ => 0)
  }

  /** `src` copied into the buffer at `at`. */
  function Put(buf: seq<byte>, at: nat, src: seq<byte>): (r: seq<byte>)
    requires at + |src| <= |buf|
    ensures |r| == |buf|
  {
    buf[..at] + src + buf[at + |src|..]
  }

  /** `n` bytes of the buffer, from `from`, are the bytes of the stream at `pos`. */
  predicate Buffered(buf: seq<byte>, from: nat, n: nat, stream: seq<byte>, pos: nat) {
    from + n <= |buf| && pos + n <= |stream| && buf[from..from + n] == stream[pos..pos + n]
  }

  lemma BufferedMoved(buf: seq<byte>, from: nat, n: nat, stream: seq<byte>, pos: nat)
    requires Buffered(buf, from, n, stream, pos)
    ensures Buffered(MovedDown(buf, from, n), 0, n, stream, pos)
  {
  }

  lemma BufferedResized(buf: seq<byte>, from: nat, n: nat, stream: seq<byte>, pos: nat, capacity: nat)
    requires Buffered(buf, from, n, stream, pos) && |buf| <= capacity
    ensures Buffered(Resized(buf, capacity), from, n, stream, pos)
  {
  }

  lemma BufferedPut(buf: seq<byte>, n: nat, stream: seq<byte>, pos: nat, m: nat)
    requires Buffered(buf, 0, n, stream, pos) && pos + n + m <= |stream| && n + m <= |buf|
    ensures Buffered(Put(buf, n, stream[pos + n..pos + n + m]), 0, n + m, stream, pos)
  {
    var r := Put(buf, n, stream[pos + n..pos + n + m]);
    assert r[0..n] == stream[pos..pos + n] && r[n..n + m] == stream[pos + n..pos + n + m];
    assert r[0..n + m] == r[0..n] + r[n..n + m];
    assert stream[pos..pos + n + m] == stream[pos..pos + n] + stream[pos + n..pos + n + m];
  }

  lemma BufferedConsumed(buf: seq<byte>, from: nat, n: nat, stream: seq<byte>, pos: nat, m: nat)
    requires Buffered(buf, from, n, stream, pos) && m <= n
    ensures Buffered(buf, from + m, n - m, stream, pos + m)
  {
    assert buf[from + m..from + n] == buf[from..from + n][m..];
    assert stream[pos + m..pos + n] == stream[pos..pos + n][m..];
  }

  lemma BufferedNone(buf: seq<byte>, from: nat, stream: seq<byte>, pos: nat)
    requires from <= |buf| && pos <= |stream|
    ensures Buffered(buf, from, 0, stream, pos)
  {
  }

  // ---- PCM frames of a stream of independent frames ----

  /** The PCM frames of the first `k` MP3 frames. */
  function Pcms(g: Layout, k: nat): nat { k * g.samples }

  function Total(g: Layout): nat
    requires Count(g) > 0
  {
    Pcms(g, Count(g))
  }

  lemma PcmsStep(g: Layout, k: nat)
    ensures Pcms(g, k + 1) == Pcms(g, k) + g.samples && Pcms(g, 0) == 0
  {
    MulSucc(k, g.samples);
  }

  lemma PcmsMono(g: Layout, j: nat, k: nat)
    requires j <= k
    ensures Pcms(g, j) <= Pcms(g, k)
  {
    MulMono(j, k, g.samples);
  }

  /** PCM frame `n` of the stream. */
  function PcmAt(g: Layout, n: nat): Pcm
    requires g.samples > 0
  {
    var k := n / g.samples + 1;
    Pcm(if k < |g.starts| then g.starts[k] else 0, n % g.samples)
  }

  /** The `n` PCM frames from `from`. */
  function Stretch(g: Layout, from: nat, n: nat): seq<Pcm>
    requires g.samples > 0
  {
    seq(n, i requires 0 <= i < n => PcmAt(g, from + i))
  }

  /** PCM frames `from` to `from + n` of the decoded MP3 frame that ends at `frameEnd`. */
  function Handed(frameEnd: nat, from: nat, n: nat): seq<Pcm> {
    seq(n, i requires 0 <= i < n => Pcm(frameEnd, from + i))
  }

  lemma HandedIsStretch(g: Layout, k: nat, from: nat, n: nat)
    requires g.samples > 0 && k + 1 < |g.starts| && from + n <= g.samples
    ensures Handed(g.starts[k + 1], from, n) == Stretch(g, Pcms(g, k) + from, n)
  {
    var r := Stretch(g, Pcms(g, k) + from, n);
    forall i | 0 <= i < n ensures r[i] == Handed(g.starts[k + 1], from, n)[i] {
      PcmAtIs(g, k, from + i);
      assert Pcms(g, k) + (from + i) == Pcms(g, k) + from + i;
    }
  }

  lemma PcmAtIs(g: Layout, k: nat, i: nat)
    requires i < g.samples && k + 1 < |g.starts|
    ensures PcmAt(g, Pcms(g, k) + i) == Pcm(g.starts[k + 1], i)
  {
    DivModUnique(k, g.samples, i);
  }

  lemma StretchJoin(g: Layout, from: nat, m: nat, n: nat)
    requires g.samples > 0
    ensures Stretch(g, from, m) + Stretch(g, from + m, n) == Stretch(g, from, m + n)
  {
  }

  lemma StretchNone(g: Layout, from: nat)
    requires g.samples > 0
    ensures Stretch(g, from, 0) == []
  {
  }

  // ---- The seek table ----

  const SEEK_LEADING_MP3_FRAMES := 2

  datatype SeekPoint = SeekPoint(seekPosInBytes: nat, pcmFrameIndex: nat, mp3FramesToDiscard: nat,
                                 pcmFramesToDiscard: nat)

  const STREAM_START := SeekPoint(0, 0, 0, 0)

  /** 64-bit unsigned subtraction. */
  function Sub64(a: nat, b: nat): nat { (a - b) % 0x1_0000_0000_0000_0000 }

  lemma Sub64Is(a: nat, b: nat)
    requires b <= a < 0x1_0000_0000_0000_0000
    ensures Sub64(a, b) == a - b
  {
  }

  /** The point lets the decoder start at frame `j`, and leaves the PCM position at frame `j + 1`. */
  predicate Leads(g: Layout, p: SeekPoint, j: nat) {
    && j + 2 <= Count(g) && j < |g.starts| && p.seekPosInBytes == g.starts[j]
    && p.mp3FramesToDiscard == SEEK_LEADING_MP3_FRAMES
    && p.pcmFrameIndex == Pcms(g, j + 1) + p.pcmFramesToDiscard
  }

  ghost predicate Usable(g: Layout, p: SeekPoint) {
    p == STREAM_START || exists j :: Leads(g, p, j)
  }

  ghost predicate AllUsable(g: Layout, points: seq<SeekPoint>) {
    forall i :: 0 <= i < |points| ==> Usable(g, points[i])
  }

  /** Seeking to none of the points can fail halfway. */
  predicate Reachable(points: seq<SeekPoint>, n: nat) {
    forall p :: p in points ==> p.seekPosInBytes <= n || p.seekPosInBytes <= 0x7FFF_FFFF
  }

  lemma ReachableAt(points: seq<SeekPoint>, n: nat, p: SeekPoint)
    requires Reachable(points, n) && (p == STREAM_START || p in points)
    ensures p.seekPosInBytes <= n || p.seekPosInBytes <= 0x7FFF_FFFF
  {
  }

  /** drmp3_find_closest_seek_point, with the start of the stream when the first point is too late. */
  method ClosestSeekPoint(points: seq<SeekPoint>, frameIndex: nat) returns (p: SeekPoint)
    requires |points| > 0
    ensures p == STREAM_START || p in points
    ensures p.pcmFrameIndex <= frameIndex
    ensures (forall i, j :: 0 <= i < j < |points| ==> points[i].pcmFrameIndex < points[j].pcmFrameIndex)
            ==> forall q :: q in points && q.pcmFrameIndex <= frameIndex ==> q.pcmFrameIndex <= p.pcmFrameIndex
  {
    if frameIndex < points[0].pcmFrameIndex {
      return STREAM_START;
    }
    var prior := 0;
    var i := 0;
    while i < |points|
      invariant 0 <= i <= |points| && prior == (if i == 0 then 0 else i - 1)
      invariant points[prior].pcmFrameIndex <= frameIndex
    {
      if points[i].pcmFrameIndex > frameIndex {
        break;
      }
      prior := i;
      i := i + 1;
    }
    p := points[prior];
  }

  /** How far apart the points of a table are. */
  function Spacing(g: Layout, count: nat): nat
    requires Count(g) > 0
  {
    Total(g) / (count + 1)
  }

  /** The frame to start at for a PCM frame: two before the one that holds it. */
  function LeadFrame(g: Layout, target: nat): nat
    requires g.samples > 0
  {
    Max(0, target / g.samples - SEEK_LEADING_MP3_FRAMES)
  }

  function PointFor(g: Layout, target: nat): SeekPoint
    requires g.samples > 0
  {
    var j := LeadFrame(g, target);
    SeekPoint(if j < |g.starts| then g.starts[j] else 0, target, SEEK_LEADING_MP3_FRAMES,
              Max(0, target - Pcms(g, j + 1)))
  }

  /** Times the spacing. */
  function Target(step: nat, i: nat): nat { i * step }

  /** The table of `count` evenly spaced points. */
  function Table(g: Layout, count: nat): seq<SeekPoint>
    requires Count(g) > 0 && g.samples > 0
  {
    seq(count, i requires 0 <= i < count => PointFor(g, Target(Spacing(g, count), i + 1)))
  }

  /** How many points there can be: one fewer than there are MP3 frames. */
  function PointCount(g: Layout, wanted: nat): nat
    requires Count(g) > 1
  {
    if wanted > Count(g) - 1 then Count(g) - 1 else wanted
  }

  lemma SpacingFits(g: Layout, count: nat, i: nat)
    requires Count(g) > 0 && count + 1 <= Count(g) && i <= count
    ensures Spacing(g, count) >= g.samples
    ensures Target(Spacing(g, count), i) + Spacing(g, count) <= Total(g)
    ensures Target(Spacing(g, count), i + 1) == Target(Spacing(g, count), i) + Spacing(g, count)
    ensures Target(Spacing(g, count), 0) == 0
  {
    var step := Spacing(g, count);
    QuotientAtLeast(Total(g), count + 1, g.samples) by { MulMono(count + 1, Count(g), g.samples); }
    MulSucc(i, step);
    MulMono(i + 1, count + 1, step);
    QuotientTimes(Total(g), count + 1);
  }

  /** The points are as many as wanted, but fewer than MP3 frames, and divide the stream into equal parts. */
  lemma EvenlySpaced(g: Layout, wanted: nat)
    requires Count(g) > 1
    ensures var n := PointCount(g, wanted);
            && n <= wanted && n < Count(g) && (n == wanted || n + 1 == Count(g))
            && (n + 1) * Spacing(g, n) <= Total(g) < (n + 1) * (Spacing(g, n) + 1)
            && forall i: nat :: Target(Spacing(g, n), i) == i * Spacing(g, n)
  {
    var n := PointCount(g, wanted);
    QuotientTimes(Total(g), n + 1);
    QuotientOver(Total(g), n + 1);
  }

  lemma QuotientOver(x: nat, d: nat)
    requires d > 0
    ensures x < d * (x / d + 1)
  {
    MulSucc(x / d, d);
  }

  lemma QuotientTimes(x: nat, d: nat)
    requires d > 0
    ensures d * (x / d) <= x
  {
  }

  /** A PCM frame between the first and the end lies less than two MP3 frames past its lead. */
  lemma PointForLeads(g: Layout, target: nat, c: nat)
    requires g.samples > 0 && Count(g) > 2 && 2 <= c < Count(g)
    requires g.samples <= target < Pcms(g, c + 1) && (c == 2 || Pcms(g, c) <= target)
    ensures LeadFrame(g, target) == c - 2
    ensures Leads(g, PointFor(g, target), c - 2)
    ensures PointFor(g, target)
            == SeekPoint(g.starts[c - 2], target, SEEK_LEADING_MP3_FRAMES, target - Pcms(g, c - 1))
    ensures 0 <= target - Pcms(g, c - 1) < 2 * g.samples
  {
    var q, r := target / g.samples, target % g.samples;
    assert target == q * g.samples + r;
    PcmsStep(g, c);
    PcmsStep(g, c - 1);
    if c == 2 {
      PcmsStep(g, 0);
      PcmsStep(g, 1);
      if q >= 3 {
        MulMono(3, q, g.samples);
      }
    } else {
      DivModUnique(c, g.samples, target - Pcms(g, c));
    }
  }

  lemma PointForAny(g: Layout, target: nat)
    requires g.samples > 0 && Count(g) > 2 && g.samples <= target < Total(g)
    ensures var p := PointFor(g, target);
            && Leads(g, p, LeadFrame(g, target)) && p.pcmFrameIndex == target
            && p.pcmFramesToDiscard < 2 * g.samples
  {
    var q := target / g.samples;
    var c := if q < 2 then 2 else q;
    MulSucc(q, g.samples);
    assert q * g.samples <= target < (q + 1) * g.samples;
    if q >= Count(g) {
      MulMono(Count(g), q, g.samples);
    }
    MulMono(q + 1, c + 1, g.samples);
    PointForLeads(g, target, c);
  }

  /**
   The points of a table are in increasing order and lie before the end; from each, fewer PCM frames
   than two MP3 frames hold are left to discard, and the decoder has two frames to warm up on.
   */
  lemma TableSound(g: Layout, count: nat, i: nat)
    requires g.samples > 0 && Count(g) > 2 && count + 1 <= Count(g) && i < count
    ensures var t := Table(g, count);
            && Usable(g, t[i]) && t[i].pcmFrameIndex < Total(g)
            && t[i].pcmFramesToDiscard < 2 * g.samples && t[i].mp3FramesToDiscard == SEEK_LEADING_MP3_FRAMES
            && (i + 1 < count ==> t[i].pcmFrameIndex < t[i + 1].pcmFrameIndex)
  {
    hide *;
    TableIs(g, count, i);
    SpacingFits(g, count, i);
    SpacingFits(g, count, i + 1);
    var target: nat := Target(Spacing(g, count), i + 1);
    PointForAny(g, target);
    UsableFrom(g, PointFor(g, target), LeadFrame(g, target));
    if i + 1 < count {
      TableIs(g, count, i + 1);
      SpacingFits(g, count, i + 2);
      PointForAny(g, Target(Spacing(g, count), i + 2));
    }
  }

  lemma TableIs(g: Layout, count: nat, i: nat)
    requires Count(g) > 0 && g.samples > 0 && i < count
    ensures |Table(g, count)| == count && Table(g, count)[i] == PointFor(g, Target(Spacing(g, count), i + 1))
    ensures Target(Spacing(g, count), i) >= 0 && Spacing(g, count) >= 0
  {
  }

  lemma UsableFrom(g: Layout, p: SeekPoint, j: nat)
    requires Leads(g, p, j)
    ensures Usable(g, p) && p.mp3FramesToDiscard == SEEK_LEADING_MP3_FRAMES
  {
  }

  // ---- What the calculation of a table remembers ----

  datatype Mp3FrameInfo = Mp3FrameInfo(bytePos: nat, pcmFrameIndex: nat)

  function InfoOf(g: Layout, k: nat): Mp3FrameInfo
    requires k < |g.starts|
  {
    Mp3FrameInfo(g.starts[k], Pcms(g, k))
  }

  /** Frame `c` is the latest of the three frames that are remembered. */
  ghost predicate Remembers(g: Layout, infos: seq<Mp3FrameInfo>, c: nat) {
    && |infos| == 3 && 2 <= c < Count(g)
    && infos[0] == InfoOf(g, c - 2) && infos[1] == InfoOf(g, c - 1) && infos[2] == InfoOf(g, c)
  }

  /** The seek point as the source fills it in, its last field cast to 16 bits. */
  function MakePoint(infos: seq<Mp3FrameInfo>, target: nat): SeekPoint
    requires |infos| == 3
  {
    SeekPoint(infos[0].bytePos, target, SEEK_LEADING_MP3_FRAMES, (target - infos[1].pcmFrameIndex) % 0x1_0000)
  }

  lemma MakePointIs(g: Layout, infos: seq<Mp3FrameInfo>, target: nat, c: nat)
    requires 0 < g.samples <= 1152 && Remembers(g, infos, c)
    requires g.samples <= target < Pcms(g, c + 1) && (c == 2 || Pcms(g, c) <= target)
    ensures MakePoint(infos, target) == PointFor(g, target)
  {
    PointForLeads(g, target, c);
  }

  lemma Sizes()
    ensures MIN_DATA_CHUNK_SIZE == 16384 && DATA_CHUNK_SIZE == 65536
  {
  }

  class Mp3 {
    const stream: seq<byte>
    const decoder: Decoder
    var pData: seq<byte>
    var dataSize: nat
    var dataConsumed: nat
    var streamCursor: nat
    var atEnd: bool
    /** The MP3 frame that the PCM buffer was last decoded from, by where it ends in the stream. */
    var pcmFrames: nat
    var pcmFramesConsumed: nat
    var pcmFramesRemaining: nat
    var currentPCMFrame: nat
    var seekPoints: seq<SeekPoint>

    ghost predicate Valid()
      reads this`pData, this`dataSize, this`dataConsumed, this`streamCursor, decoder
    {
      && decoder.Valid()
      && |pData| <= DATA_CHUNK_SIZE
      && dataSize <= streamCursor
      && Buffered(pData, dataConsumed, dataSize, stream, streamCursor - dataSize)
    }

    /** The reader that this object implements. */
    ghost function Abstract(): (r: Reader)
      requires Valid()
      reads this`pData, this`dataSize, this`dataConsumed, this`streamCursor, this`atEnd, decoder, decoder.reservBuf
      ensures Sane(stream, r)
    {
      Reader(decoder.Abstract(), streamCursor - dataSize, dataSize, atEnd)
    }

    lemma ValidIs()
      ensures Valid() <==> decoder.Valid() && |pData| <= DATA_CHUNK_SIZE && dataSize <= streamCursor
                           && Buffered(pData, dataConsumed, dataSize, stream, streamCursor - dataSize)
      ensures Valid() ==> dataConsumed + dataSize <= |pData| && streamCursor <= |stream|
      ensures Valid() ==> Abstract() == Reader(decoder.Abstract(), streamCursor - dataSize, dataSize, atEnd)
                          && Sane(stream, Abstract())
                          && pData[dataConsumed..dataConsumed + dataSize] == Window(stream, Abstract())
    {
    }

    /** The zeroed object that drmp3_init starts from. */
    constructor (stream: seq<byte>, layer12Fits: seq<byte> -> bool)
      ensures Valid() && this.stream == stream && fresh(decoder) && fresh(decoder.reservBuf)
      ensures Abstract() == Reader(ZEROED, 0, 0, false) && decoder.layer12Fits == layer12Fits
      ensures currentPCMFrame == 0 && pcmFramesRemaining == 0 && seekPoints == []
    {
      hide *;
      this.stream := stream;
      decoder := new Decoder(layer12Fits);
      pData, dataSize, dataConsumed, streamCursor, atEnd := [], 0, 0, 0, false;
      pcmFrames, pcmFramesConsumed, pcmFramesRemaining, currentPCMFrame, seekPoints := 0, 0, 0, 0, [];
      new;
      Sizes();
      BufferedNone(pData, 0, stream, 0);
      ValidIs();
    }

    /** The read callback: into the buffer at `at`, at most `n` bytes. */
    method OnRead(at: nat, n: nat) returns (bytesRead: nat)
      requires streamCursor <= |stream| && at + n <= |pData|
      modifies this`pData, this`streamCursor
      ensures bytesRead == Min(n, |stream| - old(streamCursor)) && streamCursor == old(streamCursor) + bytesRead
      ensures streamCursor <= |stream|
      ensures pData == Put(old(pData), at, stream[old(streamCursor)..streamCursor])
    {
      bytesRead := if n < |stream| - streamCursor then n else |stream| - streamCursor;
      pData := Put(pData, at, stream[streamCursor..streamCursor + bytesRead]);
      streamCursor := streamCursor + bytesRead;
    }

    /** The start of the decoding loop: at least 16K are buffered, unless the stream ends before. */
    method Refill() returns (some: bool)
      requires Valid() && !atEnd
      modifies this`pData, this`dataSize, this`dataConsumed, this`streamCursor, this`atEnd
      ensures Valid()
      ensures var full := Refilled(stream, old(Abstract()));
              some == (full.size > 0) && Abstract() == if some then full else full.(atEnd := true)
    {
      hide *;
      ValidIs();
      Sizes();
      RefilledCases(stream, Abstract());
      ghost var pos := streamCursor - dataSize;
      if dataSize < MIN_DATA_CHUNK_SIZE {
        BufferedMoved(pData, dataConsumed, dataSize, stream, pos);
        pData := MovedDown(pData, dataConsumed, dataSize);
        dataConsumed := 0;
        if |pData| < DATA_CHUNK_SIZE {
          BufferedResized(pData, 0, dataSize, stream, pos, DATA_CHUNK_SIZE);
          pData := Resized(pData, DATA_CHUNK_SIZE);
        }
        ReadFits(stream, streamCursor, |pData| - dataSize);
        BufferedPut(pData, dataSize, stream, pos, Min(|pData| - dataSize, |stream| - streamCursor));
        var bytesRead := OnRead(dataSize, |pData| - dataSize);
        if bytesRead == 0 && dataSize == 0 {
          atEnd := true;
          ValidIs();
          return false;
        }
        dataSize := dataSize + bytesRead;
        ValidIs();
      }
      some := true;
    }

    /** One turn of the decoding loop after the refill: decode what is buffered, and consume it. */
    method DecodeBuffered(pcm: bool, info0: FrameInfo) returns (n: nat, info: FrameInfo)
      requires Valid() && dataSize > 0
      modifies this`dataSize, this`dataConsumed, decoder, decoder.reservBuf
      ensures Valid() && (Abstract(), n) == Attempt(stream, old(Abstract()), pcm, decoder.layer12Fits)
      ensures n > 0 ==> n == FrameSamples(decoder.header)
      ensures info.frameBytes > 0
    {
      hide *;
      ValidIs();
      ghost var r := Abstract();
      AttemptIs(stream, r, pcm, decoder.layer12Fits);
      SamplesOfHeader(r.dec, Window(stream, r), pcm, decoder.layer12Fits);
      BufferedConsumed(pData, dataConsumed, dataSize, stream, streamCursor - dataSize,
                       Decode(r.dec, Window(stream, r), pcm, decoder.layer12Fits).consumed);
      n, info := decoder.DecodeFrame(pData[dataConsumed..dataConsumed + dataSize], pcm, info0);
      decoder.AbstractIs();
      if info.frameBytes > 0 {
        dataConsumed := dataConsumed + info.frameBytes;
        dataSize := dataSize - info.frameBytes;
      }
      ValidIs();
    }

    /** drmp3_decode_next_frame_ex__callbacks; `pcm`: a PCM buffer was passed. */
    method DecodeNextFrame(pcm: bool) returns (n: nat)
      requires Valid()
      modifies this`pData, this`dataSize, this`dataConsumed, this`streamCursor, this`atEnd,
               this`pcmFrames, this`pcmFramesConsumed, this`pcmFramesRemaining, decoder, decoder.reservBuf
      ensures Valid()
      ensures (Abstract(), n) == Next(stream, old(Abstract()), pcm, decoder.layer12Fits)
      ensures n > 0 ==> pcmFramesConsumed == 0 && pcmFramesRemaining == n
      ensures n > 0 && pcm ==> pcmFrames == streamCursor - dataSize
      ensures n == 0 ==> unchanged(this`pcmFramesConsumed, this`pcmFramesRemaining)
      ensures n == 0 || !pcm ==> unchanged(this`pcmFrames)
    {
      hide *;
      NextIs(stream, Abstract(), pcm, decoder.layer12Fits);
      ValidIs();
      n := 0;
      if atEnd {
        return;
      }
      var info := NO_INFO;
      while true
        invariant Valid() && Sane(stream, Abstract()) && !atEnd
        invariant Next(stream, old(Abstract()), pcm, decoder.layer12Fits)
                  == Next(stream, Abstract(), pcm, decoder.layer12Fits)
        invariant unchanged(this`pcmFrames, this`pcmFramesConsumed, this`pcmFramesRemaining)
        decreases |stream| - Abstract().at
      {
        ValidIs();
        NextIs(stream, Abstract(), pcm, decoder.layer12Fits);
        RefilledIs(stream, Abstract());
        ghost var full := Refilled(stream, Abstract());
        var some := Refill();
        if !some {
          return 0;
        }
        ValidIs();
        Sizes();
        if dataSize > 0x7FFF_FFFF {
          // Too much for one call: the buffer never holds that much.
          assert false;
        }
        AttemptIs(stream, full, pcm, decoder.layer12Fits);
        n, info := DecodeBuffered(pcm, info);
        ValidIs();
        if n > 0 {
          n := FrameSamples(decoder.header);
          if pcm {
            pcmFrames := streamCursor - dataSize;
          }
          pcmFramesConsumed, pcmFramesRemaining := 0, n;
          return;
        } else if info.frameBytes == 0 {
          // The branch that enlarges the buffer: a call that is given bytes always consumes some.
          assert false;
        }
      }
    }

    // ---- Reading PCM frames ----

    /** On a stream of independent frames: frame `k` is next to be decoded, and the PCM position agrees. */
    ghost predicate InStep(g: Layout, k: nat)
      reads this, decoder, decoder.reservBuf
    {
      && Valid() && Good(stream, g) && Before(stream, g, Abstract(), k)
      && currentPCMFrame + pcmFramesRemaining == Pcms(g, k)
      && (pcmFramesRemaining > 0 ==> k > 0 && pcmFrames == g.starts[k]
                                     && pcmFramesConsumed + pcmFramesRemaining == g.samples)
    }

    lemma InStepIs(g: Layout, k: nat)
      ensures InStep(g, k)
              <==> Valid() && Good(stream, g) && Before(stream, g, Abstract(), k)
                   && currentPCMFrame + pcmFramesRemaining == Pcms(g, k)
                   && (pcmFramesRemaining > 0 ==> k > 0 && k < |g.starts| && pcmFrames == g.starts[k]
                                                  && pcmFramesConsumed + pcmFramesRemaining == g.samples)
      ensures InStep(g, k) ==> k <= Count(g) && Count(g) > 0 && g.samples > 0
                               && Pcms(g, k) <= Total(g) == Pcms(g, Count(g))
    {
      if InStep(g, k) {
        PcmsMono(g, k, Count(g));
        FramedSamples(stream, g);
      }
    }

    /** Handing out `n` of the remaining PCM frames of the decoded MP3 frame. */
    lemma HandOut(g: Layout, k: nat, n: nat, from: nat, total: nat)
      requires InStep(g, k) && n <= pcmFramesRemaining && from + total == currentPCMFrame
      ensures g.samples > 0
      ensures Stretch(g, from, total) + Handed(pcmFrames, pcmFramesConsumed, n) == Stretch(g, from, total + n)
    {
      hide *;
      InStepIs(g, k);
      StretchNone(g, currentPCMFrame);
      if n > 0 {
        PcmsStep(g, k - 1);
        HandedIsStretch(g, k - 1, pcmFramesConsumed, n);
      } else {
        HandedNone(pcmFrames, pcmFramesConsumed);
      }
      StretchJoin(g, from, total, n);
    }

    /** The head of the reading loop: as many PCM frames as are there and are wanted. */
    method TakeRemaining(framesToRead: nat, discard: bool) returns (n: nat, out: seq<Pcm>)
      modifies this`currentPCMFrame, this`pcmFramesConsumed, this`pcmFramesRemaining
      ensures n == Min(old(pcmFramesRemaining), framesToRead)
      ensures out == if discard then [] else Handed(pcmFrames, old(pcmFramesConsumed), n)
      ensures currentPCMFrame == old(currentPCMFrame) + n
      ensures pcmFramesConsumed == old(pcmFramesConsumed) + n
      ensures pcmFramesRemaining == old(pcmFramesRemaining) - n
    {
      n := if pcmFramesRemaining < framesToRead then pcmFramesRemaining else framesToRead;
      out := [];
      if !discard {
        out := Handed(pcmFrames, pcmFramesConsumed, n);
      }
      currentPCMFrame := currentPCMFrame + n;
      pcmFramesConsumed := pcmFramesConsumed + n;
      pcmFramesRemaining := pcmFramesRemaining - n;
    }

    /** One turn of decoding on a stream of independent frames. */
    method DecodeInStep(ghost g: Layout, ghost k: nat) returns (n: nat, ghost k': nat)
      requires Valid()
      modifies this`pData, this`dataSize, this`dataConsumed, this`streamCursor, this`atEnd,
               this`pcmFrames, this`pcmFramesConsumed, this`pcmFramesRemaining, decoder, decoder.reservBuf
      ensures Valid()
      ensures n > 0 ==> pcmFramesRemaining == n
      ensures n == 0 ==> unchanged(this`pcmFramesRemaining)
      ensures old(InStep(g, k)) && old(pcmFramesRemaining) == 0 ==> InStep(g, k') && (n == 0 ==> k' == Count(g))
    {
      hide *;
      ghost var good := InStep(g, k) && pcmFramesRemaining == 0;
      if good {
        InStepIs(g, k);
        NextOn(stream, g, Abstract(), k, true, decoder.layer12Fits);
        PcmsStep(g, k);
      }
      n := DecodeNextFrame(true);
      k' := if n > 0 then k + 1 else k;
      if good {
        ValidIs();
        CountIs(stream, g);
        BeforeIs(stream, g, Abstract(), k');
        InStepIs(g, k');
      }
    }

    /** drmp3_read_pcm_frames_raw; `discard`: no buffer was passed. */
    method ReadPcmFramesRaw(framesToRead0: nat, discard: bool, ghost g: Layout, ghost k0: nat)
      returns (totalFramesRead: nat, out: seq<Pcm>, ghost k: nat)
      requires Valid()
      modifies this, decoder, decoder.reservBuf
      ensures Valid() && totalFramesRead <= framesToRead0 && seekPoints == old(seekPoints)
      ensures currentPCMFrame == old(currentPCMFrame) + totalFramesRead
      ensures old(InStep(g, k0)) ==>
                && InStep(g, k) && g.samples > 0 && Count(g) > 0 && old(currentPCMFrame) <= Total(g)
                && totalFramesRead == Min(framesToRead0, Total(g) - old(currentPCMFrame))
                && out == if discard then [] else Stretch(g, old(currentPCMFrame), totalFramesRead)
    {
      hide *;
      ghost var good := InStep(g, k0);
      totalFramesRead, out, k := 0, [], k0;
      var framesToRead := framesToRead0;
      InStepIs(g, k0);
      MinIs(framesToRead0, if good then Total(g) - currentPCMFrame else 0);
      if good {
        StretchNone(g, currentPCMFrame);
      }
      while framesToRead > 0
        invariant Valid() && totalFramesRead + framesToRead == framesToRead0 && seekPoints == old(seekPoints)
        invariant currentPCMFrame == old(currentPCMFrame) + totalFramesRead
        invariant good ==> InStep(g, k) && g.samples > 0
        invariant good ==> out == if discard then [] else Stretch(g, old(currentPCMFrame), totalFramesRead)
        decreases framesToRead, if pcmFramesRemaining == 0 then 1 else 0
      {
        MinIs(pcmFramesRemaining, framesToRead);
        if good {
          HandOut(g, k, Min(pcmFramesRemaining, framesToRead), old(currentPCMFrame), totalFramesRead);
          InStepIs(g, k);
        }
        var n, some := TakeRemaining(framesToRead, discard);
        out := out + some;
        totalFramesRead := totalFramesRead + n;
        framesToRead := framesToRead - n;
        ValidIs();
        if good {
          InStepIs(g, k);
        }
        if framesToRead == 0 {
          break;
        }
        var m;
        m, k := DecodeInStep(g, k);
        if good {
          InStepIs(g, k);
        }
        if m == 0 {
          break;
        }
      }
      if good {
        InStepIs(g, k);
      }
    }

    // ---- Seeking ----

    /** drmp3__on_seek from the start; a position outside the stream is refused. */
    method OnSeek(offset: nat) returns (ok: bool)
      modifies this`streamCursor
      ensures ok == (offset <= |stream|)
      ensures streamCursor == if ok then offset else old(streamCursor)
    {
      ok := offset <= |stream|;
      if ok {
        streamCursor := offset;
      }
    }

    /** drmp3__on_seek from the current position. */
    method OnSeekOn(offset: nat) returns (ok: bool)
      modifies this`streamCursor
      ensures ok == (old(streamCursor) + offset <= |stream|)
      ensures streamCursor == old(streamCursor) + if ok then offset else 0
    {
      ok := streamCursor + offset <= |stream|;
      if ok {
        streamCursor := streamCursor + offset;
      }
    }

    /** drmp3__on_seek_64: in steps that fit a 32-bit int. */
    method OnSeek64(offset0: nat) returns (ok: bool)
      requires streamCursor <= |stream|
      modifies this`streamCursor
      ensures ok == (offset0 <= |stream|) && streamCursor <= |stream|
      ensures ok ==> streamCursor == offset0
      ensures !ok && offset0 <= 0x7FFF_FFFF ==> streamCursor == old(streamCursor)
    {
      var offset := offset0;
      if offset <= 0x7FFF_FFFF {
        ok := OnSeek(offset);
        return;
      }
      ok := OnSeek(0x7FFF_FFFF);
      if !ok {
        return;
      }
      offset := offset - 0x7FFF_FFFF;
      while offset > 0
        invariant streamCursor <= |stream| && streamCursor + offset == offset0
      {
        if offset <= 0x7FFF_FFFF {
          ok := OnSeekOn(offset);
          if !ok {
            return;
          }
          offset := 0;
        } else {
          ok := OnSeekOn(0x7FFF_FFFF);
          if !ok {
            return;
          }
          offset := offset - 0x7FFF_FFFF;
        }
      }
      ok := true;
    }

    /** What is left of Valid() once the stream cursor has been moved. */
    ghost predicate Moved()
      reads this`pData, this`dataSize, this`dataConsumed, this`streamCursor, decoder
    {
      decoder.Valid() && |pData| <= DATA_CHUNK_SIZE && dataConsumed + dataSize <= |pData| && streamCursor <= |stream|
    }

    lemma MovedIs()
      ensures Moved() <==> decoder.Valid() && |pData| <= DATA_CHUNK_SIZE && dataConsumed + dataSize <= |pData|
                           && streamCursor <= |stream|
    {
    }

    lemma ValidMoves()
      requires Valid()
      ensures Moved()
    {
      hide *;
      ValidIs();
      MovedIs();
    }

    /** drmp3_reset. */
    method Reset()
      requires Moved()
      modifies this`dataSize, this`atEnd, this`pcmFramesConsumed, this`pcmFramesRemaining, this`currentPCMFrame,
               decoder`header
      ensures Valid() && Abstract().at == streamCursor && Abstract().dec.header[0] == 0 && !Abstract().atEnd
      ensures pcmFramesRemaining == 0 && currentPCMFrame == 0
    {
      hide *;
      MovedIs();
      pcmFramesConsumed, pcmFramesRemaining, currentPCMFrame := 0, 0, 0;
      dataSize := 0;
      atEnd := false;
      decoder.Init();
      LostHeader(old(decoder.Abstract()));
      BufferedNone(pData, dataConsumed, stream, streamCursor);
      ValidIs();
    }

    /** A reader that starts over at a frame of the stream. */
    lemma StartOver(g: Layout, k: nat)
      requires Valid() && Framed(stream, g) && k < |g.starts| && Abstract().at == g.starts[k]
      requires Abstract().dec.header[0] == 0 && !Abstract().atEnd
      ensures Before(stream, g, Abstract(), k) && Entering(Abstract().dec) == []
    {
    }

    /** drmp3_seek_to_start_of_stream. */
    method SeekToStart(ghost g: Layout) returns (ok: bool)
      requires Moved()
      modifies this`streamCursor, this`dataSize, this`atEnd, this`pcmFramesConsumed, this`pcmFramesRemaining,
               this`currentPCMFrame, decoder`header
      ensures Valid() && Moved() && ok && currentPCMFrame == 0
      ensures Good(stream, g) ==> InStep(g, 0)
    {
      hide *;
      MovedIs();
      ok := OnSeek(0);
      if !ok {
        return false;
      }
      MovedIs();
      Reset();
      ValidMoves();
      if Good(stream, g) {
        CountIs(stream, g);
        StartOver(g, 0);
        PcmsStep(g, 0);
        InStepIs(g, 0);
      }
    }

    /** drmp3_seek_forward_by_pcm_frames__brute_force: read and discard. */
    method SeekForward(frameOffset: nat, ghost g: Layout, ghost k0: nat) returns (ok: bool, ghost k: nat)
      requires Valid()
      modifies this, decoder, decoder.reservBuf
      ensures Valid() && seekPoints == old(seekPoints)
      ensures old(InStep(g, k0)) ==>
                && InStep(g, k) && Count(g) > 0 && ok == (old(currentPCMFrame) + frameOffset <= Total(g))
                && currentPCMFrame == Min(old(currentPCMFrame) + frameOffset, Total(g))
    {
      hide *;
      var framesRead, out;
      ghost var good := InStep(g, k0);
      framesRead, out, k := ReadPcmFramesRaw(frameOffset, true, g, k0);
      ok := framesRead == frameOffset;
      if good {
        InStepIs(g, k);
        MinIs(frameOffset, Total(g) - old(currentPCMFrame));
        MinIs(old(currentPCMFrame) + frameOffset, Total(g));
      }
    }

    /** drmp3_seek_to_pcm_frame__brute_force. */
    method SeekBruteForce(frameIndex: nat, ghost g: Layout, ghost k0: nat) returns (ok: bool, ghost k: nat)
      requires Valid()
      modifies this, decoder, decoder.reservBuf
      ensures Valid() && seekPoints == old(seekPoints)
      ensures old(InStep(g, k0)) ==> Sought(g, k, frameIndex, ok)
    {
      hide *;
      ghost var good := InStep(g, k0);
      k := k0;
      InStepIs(g, k);
      if frameIndex == currentPCMFrame {
        SoughtIs(g, k, frameIndex, true);
        return true, k;
      }
      if frameIndex < currentPCMFrame {
        ValidMoves();
        ok := SeekToStart(g);
        if !ok {
          return;
        }
        k := 0;
      }
      ok, k := SeekForward(frameIndex - currentPCMFrame, g, k);
      SoughtIs(g, k, frameIndex, ok);
    }

    /**
     What any seek leaves: the PCM frame that is read next is the one asked for, or the end of the
     stream when that comes first.
     */
    ghost predicate Sought(g: Layout, k: nat, frameIndex: nat, ok: bool)
      reads this, decoder, decoder.reservBuf
    {
      && InStep(g, k) && Count(g) > 0
      && ok == (frameIndex <= Total(g)) && currentPCMFrame == Min(frameIndex, Total(g))
    }

    lemma SoughtIs(g: Layout, k: nat, frameIndex: nat, ok: bool)
      ensures Sought(g, k, frameIndex, ok)
              <==> InStep(g, k) && Count(g) > 0 && ok == (frameIndex <= Total(g))
                   && currentPCMFrame == Min(frameIndex, Total(g))
      ensures InStep(g, k) ==> currentPCMFrame <= Total(g) && Count(g) > 0 && Good(stream, g)
      ensures Count(g) > 0 ==> Min(frameIndex, Total(g)) == if frameIndex < Total(g) then frameIndex else Total(g)
    {
      if InStep(g, k) {
        InStepIs(g, k);
      }
    }

    /** The leading MP3 frames of a seek point: decoded, all but the last without PCM. */
    method DiscardMp3Frames(count: nat, ghost g: Layout, ghost k0: nat) returns (ok: bool, ghost k: nat)
      requires Valid()
      modifies this`pData, this`dataSize, this`dataConsumed, this`streamCursor, this`atEnd,
               this`pcmFrames, this`pcmFramesConsumed, this`pcmFramesRemaining, decoder, decoder.reservBuf
      ensures Valid()
      ensures count == 0 ==> ok && unchanged(this`pcmFramesRemaining)
      ensures (Abstract(), ok) == Discard(stream, old(Abstract()), count, decoder.layer12Fits)
      ensures old(Valid() && Good(stream, g) && Before(stream, g, Abstract(), k0)) && k0 + count <= Count(g) ==>
                && ok && k == k0 + count && Good(stream, g) && Before(stream, g, Abstract(), k)
                && (count > 0 ==> k < |g.starts| && pcmFrames == g.starts[k] && pcmFramesConsumed == 0
                                  && pcmFramesRemaining == g.samples)
    {
      hide *;
      ghost var good := Good(stream, g) && Before(stream, g, Abstract(), k0) && k0 + count <= Count(g);
      k := k0;
      var i := 0;
      while i < count
        invariant Valid() && 0 <= i <= count && Sane(stream, Abstract())
        invariant Discard(stream, old(Abstract()), count, decoder.layer12Fits)
                  == Discard(stream, Abstract(), count - i, decoder.layer12Fits)
        invariant i == 0 ==> unchanged(this`pcmFramesRemaining)
        invariant good ==> k == k0 + i && k <= Count(g) && Good(stream, g) && Before(stream, g, Abstract(), k)
        invariant good && i == count > 0 ==> k < |g.starts| && pcmFrames == g.starts[k] && pcmFramesConsumed == 0
                                             && pcmFramesRemaining == g.samples
      {
        var pcm := i == count - 1;
        DiscardIs(stream, Abstract(), count - i, decoder.layer12Fits);
        if good {
          NextOn(stream, g, Abstract(), k, pcm, decoder.layer12Fits);
          FramedSamples(stream, g);
        }
        var n := DecodeNextFrame(pcm);
        if n == 0 {
          return false, k;
        }
        k := k + 1;
        i := i + 1;
        if good {
          CountIs(stream, g);
          ValidIs();
          BeforeIs(stream, g, Abstract(), k);
        }
      }
      DiscardIs(stream, Abstract(), 0, decoder.layer12Fits);
      ok := true;
    }

    /**
     drmp3_seek_to_pcm_frame__seek_table, up to the frames that are left to read and discard. A seek that fails
     halfway leaves the buffer with bytes from elsewhere in the stream. On a stream whose frames reach back, the
     reader is where the point says if and only if the two frames that it discards find all their main data.
     */
    method SeekToPoint(point: SeekPoint, ghost g: Layout, ghost j: nat) returns (ok: bool, ghost k: nat)
      requires Valid() && point.pcmFrameIndex < 0x1_0000_0000_0000_0000
      modifies this, decoder, decoder.reservBuf
      ensures Moved() && seekPoints == old(seekPoints)
      ensures ok || point.seekPosInBytes <= |stream| || point.seekPosInBytes <= 0x7FFF_FFFF ==> Valid()
      ensures Good(stream, g) && LedBy(g, point, j) ==>
                && ok && InStep(g, k) && point.pcmFramesToDiscard <= point.pcmFrameIndex
                && currentPCMFrame == point.pcmFrameIndex - point.pcmFramesToDiscard
      ensures Framed(stream, g) && LedBy(g, point, j) && point.mp3FramesToDiscard == 2 ==>
                && (ok && Valid() && Abstract().at == g.starts[j + 2] <==> Opens(stream, g, j))
                && (Opens(stream, g, j) ==>
                      && ok && Valid() && Before(stream, g, Abstract(), j + 2)
                      && |Entering(Abstract().dec)| == Left(stream, g, j)
                      && currentPCMFrame == Sub64(point.pcmFrameIndex, point.pcmFramesToDiscard))
    {
      hide *;
      k := 0;
      ghost var framed := Framed(stream, g) && LedBy(g, point, j);
      ghost var good := Good(stream, g) && LedBy(g, point, j);
      if framed {
        CountIs(stream, g);
        LedByIs(g, point, j);
        PointInside(stream, g, point, j);
      }
      ValidIs();
      ok := OnSeek64(point.seekPosInBytes);
      MovedIs();
      if !ok {
        ValidIs();
        return false, 0;
      }
      Reset();
      if framed {
        StartOver(g, j);
        if point.mp3FramesToDiscard == 2 {
          DiscardsTwoIff(stream, g, Abstract(), j, decoder.layer12Fits);
        }
      }
      ok, k := DiscardMp3Frames(point.mp3FramesToDiscard, g, j);
      ValidMoves();
      if !ok {
        return;
      }
      ValidIs();
      currentPCMFrame := Sub64(point.pcmFrameIndex, point.pcmFramesToDiscard);
      ValidIs();
      ValidMoves();
      if good {
        InStepIs(g, k);
      }
    }

    /** drmp3_seek_to_pcm_frame__seek_table. */
    method SeekByTable(frameIndex: nat, ghost g: Layout) returns (ok: bool, ghost k: nat)
      requires Valid() && seekPoints != []
      requires frameIndex < 0x1_0000_0000_0000_0000
      modifies this, decoder, decoder.reservBuf
      ensures Moved() && (ok || Reachable(seekPoints, |stream|) ==> Valid()) && seekPoints == old(seekPoints)
      ensures Good(stream, g) && AllUsable(g, old(seekPoints)) ==> Sought(g, k, frameIndex, ok)
    {
      hide *;
      var point := ClosestSeekPoint(seekPoints, frameIndex);
      ghost var good := Good(stream, g) && AllUsable(g, seekPoints);
      ghost var j: nat := 0;
      if good {
        CountIs(stream, g);
        j := FrameOfPoint(g, seekPoints, point);
      }
      if Reachable(seekPoints, |stream|) {
        ReachableAt(seekPoints, |stream|, point);
      }
      ok, k := SeekToPoint(point, g, j);
      if !ok {
        return;
      }
      if good {
        Sub64Is(frameIndex, currentPCMFrame);
      }
      var leftover := Sub64(frameIndex, currentPCMFrame);
      ok, k := SeekForward(leftover, g, k);
      ValidMoves();
      if good {
        SoughtIs(g, k, frameIndex, ok);
      }
    }

    /** drmp3_seek_to_pcm_frame. */
    method SeekToPcmFrame(frameIndex: nat, ghost g: Layout, ghost k0: nat) returns (ok: bool, ghost k: nat)
      requires Valid() && frameIndex < 0x1_0000_0000_0000_0000
      modifies this, decoder, decoder.reservBuf
      ensures Moved() && (ok || Reachable(seekPoints, |stream|) ==> Valid()) && seekPoints == old(seekPoints)
      ensures old(InStep(g, k0)) && AllUsable(g, seekPoints) ==> Sought(g, k, frameIndex, ok)
    {
      hide *;
      ValidIs();
      MovedIs();
      SoughtIs(g, k0, frameIndex, true);
      if frameIndex == 0 {
        ValidMoves();
        ok := SeekToStart(g);
        k := 0;
        SoughtIs(g, 0, 0, ok);
        TotalIs(g);
      } else if seekPoints != [] {
        ok, k := SeekByTable(frameIndex, g);
      } else {
        ok, k := SeekBruteForce(frameIndex, g, k0);
      }
      ValidIs();
      MovedIs();
    }

    // ---- Counting, and calculating a seek table ----

    /** Calls without PCM until there is no frame: the loop of drmp3_get_mp3_and_pcm_frame_count. */
    method CountRest(ghost g: Layout) returns (mp3Frames: nat, total: nat)
      requires Valid()
      modifies this`pData, this`dataSize, this`dataConsumed, this`streamCursor, this`atEnd,
               this`pcmFrames, this`pcmFramesConsumed, this`pcmFramesRemaining, decoder, decoder.reservBuf
      ensures Valid()
      ensures Good(stream, g) && old(Before(stream, g, Abstract(), 0)) ==> mp3Frames == Count(g) && total == Total(g)
    {
      hide *;
      mp3Frames, total := 0, 0;
      ghost var good := Good(stream, g) && Before(stream, g, Abstract(), 0);
      ValidIs();
      PcmsStep(g, 0);
      if good {
        CountIs(stream, g);
      }
      while true
        invariant Valid() && Sane(stream, Abstract()) && mp3Frames >= 0 && total >= 0
        invariant good ==> Good(stream, g) && mp3Frames <= Count(g) && Before(stream, g, Abstract(), mp3Frames)
        invariant good ==> total == Pcms(g, mp3Frames)
        decreases |stream| - Abstract().at
      {
        NextAdvances(stream, Abstract(), false, decoder.layer12Fits);
        if good {
          NextOn(stream, g, Abstract(), mp3Frames, false, decoder.layer12Fits);
          FramedSamples(stream, g);
          PcmsStep(g, mp3Frames);
        }
        var n := DecodeNextFrame(false);
        ValidIs();
        if n == 0 {
          TotalIs(g);
          return;
        }
        total := total + n;
        mp3Frames := mp3Frames + 1;
        if good {
          CountIs(stream, g);
          BeforeIs(stream, g, Abstract(), mp3Frames);
        }
      }
    }

    /** drmp3_get_mp3_and_pcm_frame_count: afterwards the PCM position is what it was. */
    method FrameCounts(ghost g: Layout, ghost k0: nat) returns (ok: bool, mp3Frames: nat, total: nat, ghost k: nat)
      requires Valid() && currentPCMFrame < 0x1_0000_0000_0000_0000
      modifies this, decoder, decoder.reservBuf
      ensures Moved() && (ok || Reachable(seekPoints, |stream|) ==> Valid()) && seekPoints == old(seekPoints)
      ensures old(InStep(g, k0)) && AllUsable(g, seekPoints) ==>
                && ok && Count(g) > 0 && mp3Frames == Count(g) && total == Total(g)
                && InStep(g, k) && currentPCMFrame == old(currentPCMFrame)
    {
      hide *;
      ghost var good := InStep(g, k0) && AllUsable(g, seekPoints);
      mp3Frames, total, k := 0, 0, 0;
      SoughtIs(g, k0, currentPCMFrame, true);
      var before := currentPCMFrame;
      ValidMoves();
      ok := SeekToStart(g);
      if !ok {
        return;
      }
      InStepIs(g, 0);
      mp3Frames, total := CountRest(g);
      ValidMoves();
      ok := SeekToStart(g);
      if !ok {
        return;
      }
      ok, k := SeekToPcmFrame(before, g, 0);
      if good {
        SoughtIs(g, k, before, ok);
      }
    }

    /** The position of the next byte to decode, and the PCM frames before it. */
    method Note(running: nat) returns (info: Mp3FrameInfo)
      requires Valid()
      ensures info == Mp3FrameInfo(Abstract().at, running)
    {
      info := Mp3FrameInfo(streamCursor - dataSize, running);
    }

    /** The first frames of the stream, to begin with. */
    method LeadIn(ghost g: Layout) returns (ok: bool, infos: seq<Mp3FrameInfo>, running: nat)
      requires Valid()
      modifies this`pData, this`dataSize, this`dataConsumed, this`streamCursor, this`atEnd,
               this`pcmFrames, this`pcmFramesConsumed, this`pcmFramesRemaining, decoder, decoder.reservBuf
      ensures Valid() && (ok ==> |infos| == 3)
      ensures Good(stream, g) && old(Before(stream, g, Abstract(), 0)) && Count(g) > 2 ==>
                ok && Remembers(g, infos, 2) && running == Pcms(g, 3) && Before(stream, g, Abstract(), 3)
    {
      hide *;
      ghost var good := Good(stream, g) && Before(stream, g, Abstract(), 0) && Count(g) > 2;
      infos, running := [], 0;
      PcmsStep(g, 0);
      if good {
        CountIs(stream, g);
      }
      var i := 0;
      while i < 3
        invariant Valid() && 0 <= i <= 3 && |infos| == i && running >= 0
        invariant good ==> Count(g) == |g.starts| - 1 && running == Pcms(g, i) && Before(stream, g, Abstract(), i)
        invariant good ==> forall m: nat :: m < i ==> infos[m] == InfoOf(g, m)
      {
        var info := Note(running);
        infos := infos + [info];
        if good {
          CountIs(stream, g);
          BeforeIs(stream, g, Abstract(), i);
          InfoIs(g, i);
          NextOn(stream, g, Abstract(), i, false, decoder.layer12Fits);
          FramedSamples(stream, g);
          PcmsStep(g, i);
        }
        var n := DecodeNextFrame(false);
        if n == 0 {
          return false, infos, running;
        }
        running := running + n;
        i := i + 1;
      }
      ok := true;
      if good {
        RemembersIs(g, infos, 2);
      }
    }

    /** On to the frame that holds PCM frame `target`. */
    method AdvanceTo(target: nat, infos0: seq<Mp3FrameInfo>, running0: nat, ghost g: Layout, ghost c0: nat)
      returns (infos: seq<Mp3FrameInfo>, running: nat, ghost c: nat)
      requires Valid() && |infos0| == 3
      modifies this`pData, this`dataSize, this`dataConsumed, this`streamCursor, this`atEnd,
               this`pcmFrames, this`pcmFramesConsumed, this`pcmFramesRemaining, decoder, decoder.reservBuf
      ensures Valid() && |infos| == 3
      ensures Good(stream, g) && old(Before(stream, g, Abstract(), c0 + 1)) && Remembers(g, infos0, c0)
              && running0 == Pcms(g, c0 + 1) && Count(g) > 0 && target < Total(g) ==>
                && Remembers(g, infos, c) && running == Pcms(g, c + 1) && Before(stream, g, Abstract(), c + 1)
                && target < Pcms(g, c + 1) && (c == c0 || Pcms(g, c) <= target)
    {
      hide *;
      ghost var good := Good(stream, g) && Before(stream, g, Abstract(), c0 + 1) && Remembers(g, infos0, c0)
                        && running0 == Pcms(g, c0 + 1) && Count(g) > 0 && target < Total(g);
      infos, running, c := infos0, running0, c0;
      ValidIs();
      while target >= running
        invariant Valid() && Sane(stream, Abstract()) && |infos| == 3 && running >= 0
        invariant good ==> Good(stream, g) && Remembers(g, infos, c) && running == Pcms(g, c + 1)
                           && Before(stream, g, Abstract(), c + 1) && (c == c0 || Pcms(g, c) <= target)
        decreases |stream| - Abstract().at
      {
        ghost var infos' := infos;
        var info := Note(running);
        infos := [infos[1], infos[2], info];
        NextAdvances(stream, Abstract(), false, decoder.layer12Fits);
        if good {
          CountIs(stream, g);
          RemembersIs(g, infos', c);
          BeforeIs(stream, g, Abstract(), c + 1);
          TotalIs(g);
          if c + 1 == Count(g) {
            assert false;
          }
          InfoIs(g, c + 1);
          RemembersIs(g, infos, c + 1);
          NextOn(stream, g, Abstract(), c + 1, false, decoder.layer12Fits);
          FramedSamples(stream, g);
          PcmsStep(g, c + 1);
        }
        var n := DecodeNextFrame(false);
        ValidIs();
        if n == 0 {
          return;
        }
        running := running + n;
        c := c + 1;
      }
    }

    /** The loop over the seek points of drmp3_calculate_seek_points. */
    method FillTable(count: nat, step: nat, infos0: seq<Mp3FrameInfo>, running0: nat, ghost g: Layout)
      returns (points: seq<SeekPoint>)
      requires Valid() && |infos0| == 3
      modifies this`pData, this`dataSize, this`dataConsumed, this`streamCursor, this`atEnd,
               this`pcmFrames, this`pcmFramesConsumed, this`pcmFramesRemaining, decoder, decoder.reservBuf
      ensures Valid() && |points| == count
      ensures Good(stream, g) && old(Before(stream, g, Abstract(), 3)) && Remembers(g, infos0, 2)
              && running0 == Pcms(g, 3) && g.samples > 0 && Count(g) > 2 && count + 1 <= Count(g)
              && step == Spacing(g, count)
              ==> points == Table(g, count)
    {
      hide *;
      ghost var good := Good(stream, g) && Before(stream, g, Abstract(), 3) && Remembers(g, infos0, 2)
                        && running0 == Pcms(g, 3) && g.samples > 0 && Count(g) > 2 && count + 1 <= Count(g)
                        && step == Spacing(g, count);
      var infos, running, target: nat := infos0, running0, 0;
      points := [];
      ghost var c: nat := 2;
      if good {
        SpacingFits(g, count, 0);
      }
      var i := 0;
      while i < count
        invariant Valid() && |infos| == 3 && 0 <= i <= count && |points| == i && running >= 0 && target >= 0
        invariant good ==> Good(stream, g) && Before(stream, g, Abstract(), c + 1) && Remembers(g, infos, c)
                           && running == Pcms(g, c + 1) && target == Target(step, i)
        invariant good ==> c == 2 || (c > 2 && Pcms(g, c) <= target)
        invariant good ==> forall m: nat :: m < i ==> points[m] == PointFor(g, Target(step, m + 1))
      {
        target := target + step;
        if good {
          SpacingFits(g, count, i);
          SpacingFits(g, count, i + 1);
          TargetIs(step, i);
          FramedSamples(stream, g);
        }
        ghost var c0 := c;
        infos, running, c := AdvanceTo(target, infos, running, g, c);
        if good {
          RemembersIs(g, infos, c);
          MakePointIs(g, infos, target, c);
        }
        points := points + [MakePoint(infos, target)];
        i := i + 1;
      }
      if good {
        TableOf(g, count, points);
      }
    }

    /** drmp3_calculate_seek_points. The PCM position is afterwards what it was. */
    method CalculateSeekPoints(wanted: nat, ghost g: Layout, ghost k0: nat)
      returns (ok: bool, points: seq<SeekPoint>, ghost k: nat)
      requires Valid() && currentPCMFrame < 0x1_0000_0000_0000_0000
      modifies this, decoder, decoder.reservBuf
      ensures Moved() && (ok || Reachable(seekPoints, |stream|) ==> Valid()) && seekPoints == old(seekPoints)
      ensures ok ==> wanted > 0
      ensures old(InStep(g, k0)) && AllUsable(g, seekPoints) && wanted > 0 ==>
                && ok && InStep(g, k) && currentPCMFrame == old(currentPCMFrame) && Count(g) > 0 && g.samples > 0
                && points == if Count(g) < 3 then [STREAM_START] else Table(g, PointCount(g, wanted))
    {
      hide *;
      ok, points, k := false, [], k0;
      ValidMoves();
      if wanted == 0 {
        return;
      }
      ghost var good := InStep(g, k0) && AllUsable(g, seekPoints);
      var before := currentPCMFrame;
      var mp3Frames, total;
      ok, mp3Frames, total, k := FrameCounts(g, k0);
      if !ok {
        return;
      }
      InStepIs(g, k);
      LeadingFrames();
      if mp3Frames < SEEK_LEADING_MP3_FRAMES + 1 {
        return true, [STREAM_START], k;
      }
      var count: nat := if wanted > mp3Frames - 1 then mp3Frames - 1 else wanted;
      var step := total / (count + 1);
      if good {
        SpacingIs(g, count, wanted);
      }
      ValidMoves();
      ok := SeekToStart(g);
      if !ok {
        return;
      }
      InStepIs(g, 0);
      var infos, running;
      ok, infos, running := LeadIn(g);
      ValidMoves();
      if !ok {
        return;
      }
      QuotientNat(total, count + 1);
      points := FillTable(count, step, infos, running, g);
      ValidMoves();
      ok := SeekToStart(g);
      if !ok {
        return;
      }
      ok, k := SeekToPcmFrame(before, g, 0);
      if good {
        SoughtIs(g, k, before, ok);
      }
    }

    /** drmp3_bind_seek_table. */
    method BindSeekTable(points: seq<SeekPoint>)
      requires Valid()
      modifies this`seekPoints
      ensures Valid() && seekPoints == points
    {
      seekPoints := points;
    }

    /** drmp3_init: the stream must hold a frame, which is decoded right away. */
    method Init(ghost g: Layout) returns (ok: bool)
      requires Valid() && Abstract() == Reader(ZEROED, 0, 0, false) && currentPCMFrame == 0 && pcmFramesRemaining == 0
      modifies this`pData, this`dataSize, this`dataConsumed, this`streamCursor, this`atEnd,
               this`pcmFrames, this`pcmFramesConsumed, this`pcmFramesRemaining, decoder, decoder.reservBuf
      ensures Valid()
      ensures Good(stream, g) ==> ok && InStep(g, 1) && currentPCMFrame == 0
    {
      hide *;
      if Good(stream, g) {
        ZeroedIs();
        CountIs(stream, g);
        StartOver(g, 0);
        FramedSamples(stream, g);
        PcmsStep(g, 0);
        NextOn(stream, g, Abstract(), 0, true, decoder.layer12Fits);
      }
      var n := DecodeNextFrame(true);
      ok := n > 0;
      ValidIs();
      if Good(stream, g) {
        BeforeIs(stream, g, Abstract(), 1);
        InStepIs(g, 1);
      }
    }

    /**
     Calculating a table, binding it and seeking through it leaves the reader where seeking by brute
     force leaves it: at the PCM frame asked for.
     */
    method SeekThroughTable(wanted: nat, frameIndex: nat, ghost g: Layout, ghost k0: nat) returns (ok: bool, ghost k: nat)
      requires InStep(g, k0) && seekPoints == [] && wanted > 0
      requires currentPCMFrame < 0x1_0000_0000_0000_0000 && frameIndex < 0x1_0000_0000_0000_0000
      modifies this, decoder, decoder.reservBuf
      ensures Sought(g, k, frameIndex, ok)
    {
      hide *;
      InStepIs(g, k0);
      NoneUsable(g);
      var points;
      ok, points, k := CalculateSeekPoints(wanted, g, k0);
      InStepIs(g, k);
      BindSeekTable(points);
      if Count(g) < 3 {
        StartUsable(g);
      } else {
        PointCountIs(g, wanted);
        TableUsable(g, PointCount(g, wanted));
      }
      InStepIs(g, k);
      ok, k := SeekToPcmFrame(frameIndex, g, k);
    }
  }

  lemma NoneUsable(g: Layout)
    ensures AllUsable(g, [])
  {
  }

  lemma StartUsable(g: Layout)
    ensures AllUsable(g, [STREAM_START])
  {
  }

  lemma PointCountIs(g: Layout, wanted: nat)
    requires Count(g) > 1
    ensures 0 <= PointCount(g, wanted) && PointCount(g, wanted) + 1 <= Count(g)
  {
  }

  lemma TableUsable(g: Layout, count: nat)
    requires g.samples > 0 && Count(g) > 2 && count + 1 <= Count(g)
    ensures AllUsable(g, Table(g, count))
  {
    forall i | 0 <= i < |Table(g, count)| ensures Usable(g, Table(g, count)[i]) {
      TableSound(g, count, i);
    }
  }

  lemma LeadingFrames()
    ensures SEEK_LEADING_MP3_FRAMES == 2
  {
  }

  lemma ZeroedIs()
    ensures ZEROED.header[0] == 0
  {
  }

  lemma SpacingIs(g: Layout, count: nat, wanted: nat)
    requires Count(g) > 2 && count == if wanted > Count(g) - 1 then Count(g) - 1 else wanted
    ensures Spacing(g, count) == Total(g) / (count + 1) && count == PointCount(g, wanted) && count + 1 <= Count(g)
  {
  }

  lemma QuotientNat(x: nat, d: nat)
    requires d > 0
    ensures x / d >= 0
  {
  }

  lemma TargetIs(step: nat, i: nat)
    ensures Target(step, i) >= 0
  {
  }

  lemma TableOf(g: Layout, count: nat, points: seq<SeekPoint>)
    requires Count(g) > 0 && g.samples > 0 && |points| == count
    requires forall m: nat :: m < count ==> points[m] == PointFor(g, Target(Spacing(g, count), m + 1))
    ensures points == Table(g, count)
  {
  }

  lemma InfoIs(g: Layout, k: nat)
    requires k < |g.starts|
    ensures InfoOf(g, k) == Mp3FrameInfo(g.starts[k], Pcms(g, k))
  {
  }

  lemma RemembersIs(g: Layout, infos: seq<Mp3FrameInfo>, c: nat)
    ensures Remembers(g, infos, c)
            <==> |infos| == 3 && 2 <= c < Count(g) == |g.starts| - 1
                 && infos[0] == InfoOf(g, c - 2) && infos[1] == InfoOf(g, c - 1) && infos[2] == InfoOf(g, c)
  {
  }

  lemma TotalIs(g: Layout)
    ensures Count(g) > 0 ==> Total(g) == Pcms(g, Count(g)) >= 0
  {
  }

  /** The point is MP3 frame `j` of the stream, two before the one that it is for, or the start. */
  ghost predicate LedBy(g: Layout, p: SeekPoint, j: nat) {
    && Count(g) >= 0
    && j + p.mp3FramesToDiscard <= Count(g) && j < |g.starts| && p.seekPosInBytes == g.starts[j]
    && ((p.mp3FramesToDiscard == 0 && j == 0 && p.pcmFrameIndex == p.pcmFramesToDiscard == 0)
        || (p.mp3FramesToDiscard == 2 && p.pcmFrameIndex == Pcms(g, j + 1) + p.pcmFramesToDiscard))
  }

  lemma LedByIs(g: Layout, p: SeekPoint, j: nat)
    requires LedBy(g, p, j)
    ensures j + p.mp3FramesToDiscard <= Count(g) && j < |g.starts| && p.seekPosInBytes == g.starts[j]
    ensures (p.mp3FramesToDiscard == 0 && j == 0 && p.pcmFrameIndex == p.pcmFramesToDiscard == 0)
            || (p.mp3FramesToDiscard == 2 && p.pcmFrameIndex == Pcms(g, j + 1) + p.pcmFramesToDiscard)
  {
    hide Pcms;
  }

  /** The point lies in the stream, and its PCM frame is the one that is left in front of the frames it discards. */
  lemma PointInside(stream: seq<byte>, g: Layout, p: SeekPoint, j: nat)
    requires Framed(stream, g) && LedBy(g, p, j) && p.pcmFrameIndex < 0x1_0000_0000_0000_0000
    ensures g.samples > 0 && p.seekPosInBytes <= |stream| && p.pcmFramesToDiscard <= p.pcmFrameIndex
    ensures var n := p.mp3FramesToDiscard;
            && Sub64(p.pcmFrameIndex, p.pcmFramesToDiscard) == p.pcmFrameIndex - p.pcmFramesToDiscard
            && p.pcmFrameIndex - p.pcmFramesToDiscard + (if n > 0 then g.samples else 0) == Pcms(g, j + n)
  {
    hide *;
    CountIs(stream, g);
    LedByIs(g, p, j);
    StartsGrow(stream, g, j, Count(g));
    FramedSamples(stream, g);
    PcmsStep(g, 0);
    PcmsStep(g, j + 1);
    PcmsMono(g, 0, j + 1);
    Sub64Is(p.pcmFrameIndex, p.pcmFramesToDiscard);
  }

  /** A usable point names a frame, from which discarding what it says leads to the PCM position it says. */
  lemma FrameOfPoint(g: Layout, points: seq<SeekPoint>, p: SeekPoint) returns (j: nat)
    requires AllUsable(g, points) && (p == STREAM_START || p in points) && Count(g) > 0 && g.starts[0] == 0
    ensures LedBy(g, p, j)
  {
    hide Pcms;
    if p == STREAM_START {
      j := 0;
    } else {
      var i :| 0 <= i < |points| && points[i] == p;
      j :| Leads(g, p, j);
    }
  }

  lemma LostHeader(s: State)
    ensures Lost(s).header[0] == 0 && Lost(s).free == s.free
  {
  }

  lemma MinIs(a: int, b: int)
    ensures Min(a, b) == if a < b then a else b
  {
  }

  lemma HandedNone(frameEnd: nat, from: nat)
    ensures Handed(frameEnd, from, 0) == []
  {
  }

  const NO_INFO := FrameInfo(0, 0, 0, 0, 0)

  lemma RefilledCases(stream: seq<byte>, r: Reader)
    requires Sane(stream, r)
    ensures Refilled(stream, r)
            == if r.size >= MIN_DATA_CHUNK_SIZE then r
               else r.(size := if |stream| - r.at < DATA_CHUNK_SIZE then |stream| - r.at else DATA_CHUNK_SIZE)
  {
  }

  lemma ReadFits(stream: seq<byte>, at: nat, n: nat)
    requires at <= |stream|
    ensures 0 <= Min(n, |stream| - at) <= n && at + Min(n, |stream| - at) <= |stream|
    ensures Min(n, |stream| - at) == if n < |stream| - at then n else |stream| - at
  {
  }

  /** Samples are reported as the frame's header says. */
  lemma SamplesOfHeader(s: State, mp3: seq<byte>, pcm: bool, fits: seq<byte> -> bool)
    requires s.free < MAX_FREE_FORMAT_FRAME_SIZE
    ensures var d := Decode(s, mp3, pcm, fits); d.samples > 0 ==> d.samples == FrameSamples(d.state.header)
  {
    hide *;
    DecodeIs(s, mp3, pcm, fits);
    var f := Locate(s, mp3).0;
    if f.size > 0 {
      SamplesOfBody(Locate(s, mp3).1, mp3[f.at..f.at + f.size], HeaderAt(mp3, f.at), pcm, fits);
    }
  }

  lemma SamplesOfBody(s: State, frame: seq<byte>, h: Header, pcm: bool, fits: seq<byte> -> bool)
    ensures var d := DecodeBody(s, frame, h, pcm, fits); d.samples > 0 ==> d.samples == FrameSamples(d.state.header)
  {
    hide Refused, FrameOf, Carry, IsLayer3, FrameSamples;
  }
}
