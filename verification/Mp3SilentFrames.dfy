/**
 One Layer III frame of each kind, its side info and main data all zero: what decoding a buffer that holds it gives,
 in numbers, whatever the decoder did before.
 */
module Mp3SilentFrames {
  import opened Bytes
  import opened BitStream
  import opened Mp3Header
  import opened Mp3HeaderBits
  import opened SideInfo
  import opened SideInfoFields
  import opened Reservoir
  import opened Mp3Decoder

  /** A Layer III frame of a bitrate that gives its size. */
  predicate Sized(x: Fields) {
    Known(x) && x.layer == 3 && x.bitrate > 0
  }

  function SizeIn(x: Fields): (n: nat)
    requires Sized(x)
  {
    BytesOf(x) + One(x.padding)
  }

  lemma SizedIs(x: Fields)
    requires Sized(x)
    ensures Known(x) && InBits(x) && x.layer == 3 && 0 < x.bitrate < 15 && x.rate < 3
    ensures SizeIn(x) == BytesOf(x) + One(x.padding)
  {
    hide BytesOf;
  }

  /** There is always room for the header, a CRC and the side info. */
  lemma RoomForSideInfo(x: Fields)
    requires Sized(x)
    ensures SizeIn(x) >= 6 + (if x.version.Mpeg1? then 32 else 17)
  {
    hide *;
    SizedIs(x);
    KbpsAtLeast(x);
    RateAtMost(x);
    BytesOfIs(x);
    SamplesIs(x.version, 3);
    var kbps, hz := KbpsOf(x.version, 3, x.bitrate), RateOf(x.version, x.rate);
    if x.version.Mpeg1? {
      QuotientAtLeast(144000 * kbps, hz, 96);
    } else {
      QuotientAtLeast(72000 * kbps, hz, 24);
    }
    OneIs(x.padding);
  }

  lemma OneIs(b: bool)
    ensures One(b) == if b then 1 else 0
  {
  }

  lemma KbpsAtLeast(x: Fields)
    requires Known(x) && x.bitrate > 0
    ensures KbpsOf(x.version, 3, x.bitrate) >= if x.version.Mpeg1? then 32 else 8
  {
  }

  lemma RateAtMost(x: Fields)
    requires x.rate < 3
    ensures 0 < RateOf(x.version, x.rate) <= if x.version.Mpeg1? then 48000 else 24000
  {
  }

  function SilentFrame(x: Fields): (frame: seq<byte>)
    requires Sized(x) && SizeIn(x) >= 4
    ensures |frame| == SizeIn(x)
  {
    hide BytesOf;
    HeaderOf(x) + Zeros(SizeIn(x) - 4)
  }

  // ---- The side info ----

  /** All bits of zeros are 0. */
  lemma NoBits(buf: seq<byte>, limit: int, pos: nat, n: nat)
    requires limit <= 8 * |buf| && forall i :: 0 <= i < |buf| ==> buf[i] == 0
    ensures Bits(buf, limit, pos, n) == 0
  {
    if pos + n <= limit {
      ZeroBits(buf, pos, n);
    }
  }

  lemma NothingRejected(buf: seq<byte>, limit: int, h: Header, at: nat)
    requires limit <= 8 * |buf| && forall i :: 0 <= i < |buf| ==> buf[i] == 0
    ensures !Rejected(buf, limit, h, at) && Part23At(buf, limit, at) == 0
  {
    NoBits(buf, limit, at, 12);
    NoBits(buf, limit, at + 12, 9);
    NoBits(buf, limit, at + 29 + ScalefacBits(h), 1);
    hide Bits;
  }

  lemma {:induction false} NothingClaimed(buf: seq<byte>, limit: int, h: Header, at: nat, n: nat)
    requires limit <= 8 * |buf| && forall i :: 0 <= i < |buf| ==> buf[i] == 0
    ensures Part23Sum(buf, limit, h, at, n) == 0
  {
    hide Part23At, GranuleStart;
    if n > 0 {
      NothingClaimed(buf, limit, h, at, n - 1);
      NothingRejected(buf, limit, h, GranuleStart(h, at, n - 1));
    }
  }

  lemma NothingBefore(buf: seq<byte>, limit: int, h: Header, at: nat)
    requires limit <= 8 * |buf| && forall i :: 0 <= i < |buf| ==> buf[i] == 0
    ensures MainDataBegin(buf, limit, h, at) == 0
  {
    NoBits(buf, limit, at, 9);
    NoBits(buf, limit, at, 8 + Granules(h));
    ShrZero(Granules(h));
    hide Bits;
  }

  lemma NotInvalid(buf: seq<byte>, limit: int, h: Header, at: nat)
    requires limit <= 8 * |buf| && forall i :: 0 <= i < |buf| ==> buf[i] == 0
    requires at + 8 * SideInfoBytes(h) <= limit
    ensures !Invalid(buf, limit, h, at)
  {
    hide *;
    NothingClaimed(buf, limit, h, at, Granules(h));
    NothingBefore(buf, limit, h, at);
    forall k | 0 <= k < Granules(h) ensures !Rejected(buf, limit, h, GranuleStart(h, at, k)) {
      NothingRejected(buf, limit, h, GranuleStart(h, at, k));
    }
    InvalidWhen(buf, limit, h, at);
  }

  lemma SilentParts(x: Fields)
    requires Sized(x) && SizeIn(x) >= 4
    ensures var frame, n := SilentFrame(x), SizeIn(x);
            && |frame| == n && frame[..4] == HeaderOf(x) && HeaderAt(frame, 0) == HeaderOf(x)
            && |Body(frame)| == n - 4 && BodyLimit(frame) == 8 * (n - 4)
            && (forall i :: 0 <= i < |Body(frame)| ==> Body(frame)[i] == 0)
            && frame[0..n] == frame
  {
    hide HeaderOf, SizeIn, Sized;
  }

  lemma SideBytes(x: Fields)
    requires InBits(x)
    ensures var h := HeaderOf(x);
            && SideStart(h) == (if x.crc then 16 else 0)
            && SideInfoBytes(h) == (if x.version.Mpeg1? then (if x.mode == 3 then 17 else 32)
                                    else if x.mode == 3 then 9 else 17)
            && PayloadStart(h) == SideStart(h) / 8 + SideInfoBytes(h)
  {
    FieldsBack(x);
    hide HeaderOf, HasCrc, IsMpeg1, IsMono;
  }

  /** Such a frame is accepted, and needs nothing from before it. */
  lemma SilentAccepted(x: Fields)
    requires Sized(x) && SizeIn(x) >= 4
    ensures var frame, h := SilentFrame(x), HeaderOf(x);
            !Refused(frame, h) && FrameOf(frame, h).mainDataBegin == 0
  {
    hide *;
    SizedIs(x);
    var frame, h := SilentFrame(x), HeaderOf(x);
    SilentParts(x);
    SideBytes(x);
    RoomForSideInfo(x);
    var side: nat := SideInfoBytes(h);
    NotInvalid(Body(frame), BodyLimit(frame), h, SideStart(h));
    NothingBefore(Body(frame), BodyLimit(frame), h, SideStart(h));
    RefusedIs(frame, h);
    FrameOfIs(frame, h);
  }

  lemma RefusedIs(frame: seq<byte>, h: Header)
    ensures Refused(frame, h)
            <==> Invalid(Body(frame), BodyLimit(frame), h, SideStart(h)) || 8 * PayloadStart(h) > BodyLimit(frame)
  {
    hide Invalid, Body, BodyLimit, PayloadStart;
  }

  // ---- The call ----

  lemma SizeOfIs(x: Fields, free: nat)
    requires Sized(x)
    ensures var h := HeaderOf(x);
            && IsValid(h) && !IsFreeFormat(h) && IsLayer3(h) && Compare(h, h)
            && SizeOf(h, free) == SizeIn(x) && FrameBytes(h, free) > 0
            && InitialSize(h, free) == Size(FrameBytes(h, free), SizeIn(x), free)
  {
    hide *;
    SizedIs(x);
    KnownIs(x);
    ValidIff(x);
    FieldsBack(x);
    AlikeIff(x, x);
    BytesAre(x);
    SamplesAre(x);
    ComputedUnlessFree(HeaderOf(x));
    OneIs(x.padding);
    FrameBytesIs(HeaderOf(x), free);
  }

  lemma FrameBytesIs(h: Header, free: nat)
    requires IsValid(h)
    ensures ComputedBytes(h) != 0 ==> FrameBytes(h, free) == ComputedBytes(h)
    ensures SizeOf(h, free) == FrameBytes(h, free) + Padding(h)
    ensures InitialSize(h, free) == Size(FrameBytes(h, free), SizeOf(h, free), free)
  {
    hide ComputedBytes, Padding;
  }

  /** A buffer that holds one frame and nothing else: it is found at once, in sync or not. */
  lemma FoundWhole(s: State, x: Fields)
    requires Sized(x) && SizeIn(x) >= 6
    ensures var frame, h := SilentFrame(x), HeaderOf(x);
            var (f, s') := Locate(s, frame);
            f.at == 0 && f.size == |frame| == SizeIn(x)
  {
    hide *;
    SizedIs(x);
    var frame, h := SilentFrame(x), HeaderOf(x);
    SilentParts(x);
    SizeOfIs(x, s.free);
    SizeOfIs(x, 0);
    ContinuesIs(s, frame);
    if !Continues(s, frame) {
      FourBytes();
      FindFromIs(frame, 0, 0);
      var z := Size(FrameBytes(h, 0), SizeIn(x), 0);
      NoSearch(frame, z);
      SizeFromIs(frame, 0, HDR_SIZE, z);
      AcceptableIs(frame, 0, z);
    }
  }

  lemma FourBytes()
    ensures HDR_SIZE == 4
  {
  }

  lemma NoSearch(mp3: seq<byte>, z: Size)
    requires z.frameBytes > 0
    ensures !Searching(mp3, 0, HDR_SIZE, z)
  {
  }

  lemma BodySamples(s: State, frame: seq<byte>, h: Header, pcm: bool, fits: seq<byte> -> bool)
    requires IsLayer3(h) && !Refused(frame, h) && FrameOf(frame, h).mainDataBegin == 0
    ensures DecodeBody(s, frame, h, pcm, fits).samples == FrameSamples(h)
  {
    hide Refused, FrameOf, IsLayer3, FrameSamples, Carry;
  }

  /**
   Decoding it consumes all of it and gives the samples of its version; and what is reported is its rate in Hz, its
   bitrate, its channels and its layer.
   */
  lemma SilentDecoded(s: State, x: Fields, pcm: bool, fits: seq<byte> -> bool, info0: FrameInfo)
    requires Sized(x) && s.free < MAX_FREE_FORMAT_FRAME_SIZE
    ensures SizeIn(x) >= 6
    ensures var frame := SilentFrame(x);
            && Decode(s, frame, pcm, fits).consumed == SizeIn(x)
            && Decode(s, frame, pcm, fits).samples == (if x.version.Mpeg1? then 1152 else 576)
            && Sound(frame, Locate(s, frame).0)
            && FrameInfoOf(frame, Locate(s, frame).0, info0)
               == FrameInfo(SizeIn(x), if x.mode == 3 then 1 else 2, RateOf(x.version, x.rate), 3,
                            KbpsOf(x.version, 3, x.bitrate))
  {
    hide *;
    SizedIs(x);
    RoomForSideInfo(x);
    var frame, h := SilentFrame(x), HeaderOf(x);
    SilentParts(x);
    SizeOfIs(x, 0);
    FoundWhole(s, x);
    SilentAccepted(x);
    DecodeIs(s, frame, pcm, fits);
    BodySamples(Locate(s, frame).1, frame, h, pcm, fits);
    SamplesAre(x);
    SamplesIs(x.version, 3);
    LocateSound(s, frame);
    FrameInfoIs(frame, Locate(s, frame).0, info0);
    RateIs(x);
    KbpsIs(x);
    FieldsBack(x);
  }

  /** So for MPEG-1 at 128 kbit/s: 417, 384 and 576 bytes of 44.1, 48 and 32 kHz, and one more with padding. */
  lemma SilentAt128Kbps(s: State, x: Fields, pcm: bool, fits: seq<byte> -> bool, info0: FrameInfo)
    requires InBits(x) && x.version.Mpeg1? && x.layer == 3 && x.bitrate == 9 && x.rate < 3
    requires s.free < MAX_FREE_FORMAT_FRAME_SIZE
    ensures Sized(x)
    ensures SizeIn(x) == (if x.rate == 0 then 417 else if x.rate == 1 then 384 else 576) + One(x.padding)
    ensures SilentFrame(x) == HeaderOf(x) + Zeros(SizeIn(x) - 4)
    ensures var frame := SilentFrame(x);
            && Decode(s, frame, pcm, fits).consumed == SizeIn(x) && Decode(s, frame, pcm, fits).samples == 1152
            && Sound(frame, Locate(s, frame).0)
            && FrameInfoOf(frame, Locate(s, frame).0, info0)
               == FrameInfo(SizeIn(x), if x.mode == 3 then 1 else 2,
                            if x.rate == 0 then 44100 else if x.rate == 1 then 48000 else 32000, 3, 128)
  {
    hide *;
    At128Kbps(x);
    KnownSized(x);
    SizedIs(x);
    OneIs(x.padding);
    SilentDecoded(s, x, pcm, fits, info0);
    SilentIs(x);
    Mpeg1Rates(x.rate);
  }

  lemma KnownSized(x: Fields)
    ensures Known(x) && x.layer == 3 && x.bitrate > 0 ==> Sized(x)
  {
    hide Known;
  }

  lemma SilentIs(x: Fields)
    requires Sized(x) && SizeIn(x) >= 4
    ensures SilentFrame(x) == HeaderOf(x) + Zeros(SizeIn(x) - 4)
  {
    hide SizeIn, HeaderOf, Sized;
  }

  lemma Mpeg1Rates(rate: nat)
    requires rate < 3
    ensures RateOf(Mpeg1, rate) == if rate == 0 then 44100 else if rate == 1 then 48000 else 32000
    ensures forall v: Version :: v.Mpeg1? ==> v == Mpeg1
  {
  }
}
