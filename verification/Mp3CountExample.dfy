/**
 Two Layer III frames, byte for byte, of which two are counted but only one decodes: MPEG-1, mono,
 48 kHz, 32 kbit/s, 96 bytes each. The granules of the first take up all its main data, and the second
 reaches back for one byte.
 */
module Mp3CountExample {
  import opened Arith
  import opened Bytes
  import opened BitStream
  import opened Mp3Header
  import opened SideInfo
  import opened Reservoir
  import opened Mp3Decoder

  const HEADER: Header := [0xFF, 0xFB, 0x14, 0xC0]

  /** Side info and main data, given the first four bytes; all others are 0. */
  function BodyOf(side: seq<byte>): seq<byte> { side + Zeros(88) }

  function FrameBytesOf(side: seq<byte>): seq<byte> { HEADER + BodyOf(side) }

  /** part2_3_length of the first granule is 600, main_data_begin is 0. */
  const FIRST: seq<byte> := [0x00, 0x00, 0x09, 0x60]

  /** main_data_begin is 1. */
  const SECOND: seq<byte> := [0x00, 0x80, 0x00, 0x00]

  lemma HeaderIs()
    ensures |HEADER| == 4 && IsValid(HEADER) && IsLayer3(HEADER) && IsMpeg1(HEADER) && IsMono(HEADER) && !HasCrc(HEADER)
    ensures Granules(HEADER) == 2 && FrameSamples(HEADER) == 1152 && HEADER[0] == 0xff && Compare(HEADER, HEADER)
    ensures LeadBits(HEADER) == 18 && GranuleBits(HEADER) == 59 && ScalefacBits(HEADER) == 4
    ensures SideStart(HEADER) == 0 && PayloadStart(HEADER) == 17 && SideInfoBytes(HEADER) == 17
    ensures FrameBytes(HEADER, 0) == 96 && FrameBytes(HEADER, 96) == 96 && Padding(HEADER) == 0
  {
    assert BytesFor(1152, 32, 48000) == 96;
  }

  lemma PartsIs(side: seq<byte>)
    requires |side| == 4
    ensures |FrameBytesOf(side)| == 96 && |BodyOf(side)| == 92 && FrameBytesOf(side)[..4] == HEADER
    ensures Body(FrameBytesOf(side)) == BodyOf(side) && BodyLimit(FrameBytesOf(side)) == 736
    ensures BodyOf(side)[..4] == side && forall i :: 4 <= i < 92 ==> BodyOf(side)[i] == 0
    ensures BodyOf(side)[17..] == Zeros(75)
  {
  }

  // ---- The side info of the two frames ----

  /** What both have in common: only zeros from the fifth byte on. */
  lemma RestOfSide(side: seq<byte>)
    requires |side| == 4 && side[3] % 4 == 0
    ensures var b := BodyOf(side);
            && BigValuesAt(b, 736, 18) == 0 && !SwitchedAt(b, 736, HEADER, 18)
            && Part23At(b, 736, 77) == 0 && BigValuesAt(b, 736, 77) == 0 && !SwitchedAt(b, 736, HEADER, 77)
  {
    hide *;
    var b := BodyOf(side);
    PartsIs(side);
    HeaderIs();
    ValueConcat(b, 30, 2, 7);
    ValueInByte(b, 3, 6, 2);
    LowBits(side[3]);
    ZeroBits(b, 32, 7);
    ZeroBits(b, 51, 1);
    ZeroBits(b, 77, 12);
    ZeroBits(b, 89, 9);
    ZeroBits(b, 110, 1);
    FieldsAre(b, 18);
    FieldsAre(b, 77);
  }

  lemma LowBits(x: byte)
    requires x % 4 == 0
    ensures Low(Shr(x, 0), 2) == 0 && Pow2(7) == 128
  {
  }

  lemma FieldsAre(b: seq<byte>, at: nat)
    requires 8 * |b| == 736 && at + 52 <= 736 && ScalefacBits(HEADER) == 4
    ensures Part23At(b, 736, at) == Value(b, at, 12) && BigValuesAt(b, 736, at) == Value(b, at + 12, 9)
    ensures SwitchedAt(b, 736, HEADER, at) <==> Value(b, at + 33, 1) != 0
  {
    hide Value;
  }

  lemma SumIs(b: seq<byte>, mdb: nat)
    requires 8 * |b| == 736
    requires BigValuesAt(b, 736, 18) == 0 && !SwitchedAt(b, 736, HEADER, 18)
    requires Part23At(b, 736, 77) == 0 && BigValuesAt(b, 736, 77) == 0 && !SwitchedAt(b, 736, HEADER, 77)
    requires MainDataBegin(b, 736, HEADER, 0) == mdb && Part23At(b, 736, 18) <= 600
    ensures !Invalid(b, 736, HEADER, 0) && Part23Sum(b, 736, HEADER, 0, Granules(HEADER)) == Part23At(b, 736, 18)
  {
    hide BigValuesAt, SwitchedAt, Part23At, MainDataBegin, Part23Sum, BlockTypeAt;
    HeaderIs();
    hide IsValid, Granules, SideInfoBytes;
    assert GranuleStart(HEADER, 0, 0) == 18 && GranuleStart(HEADER, 0, 1) == 77;
    SumOfTwo(b);
  }

  lemma SumOfTwo(b: seq<byte>)
    requires 8 * |b| == 736 && GranuleStart(HEADER, 0, 0) == 18 && GranuleStart(HEADER, 0, 1) == 77
    ensures Part23Sum(b, 736, HEADER, 0, 2) == Part23At(b, 736, 18) + Part23At(b, 736, 77)
  {
    hide Part23At, GranuleStart;
    assert Part23Sum(b, 736, HEADER, 0, 0) == 0;
    assert Part23Sum(b, 736, HEADER, 0, 1) == Part23At(b, 736, 18);
  }

  lemma FirstFields()
    ensures var b := BodyOf(FIRST);
            8 * |b| == 736 && Part23At(b, 736, 18) == 600 && MainDataBegin(b, 736, HEADER, 0) == 0
  {
    hide *;
    var b := BodyOf(FIRST);
    FirstIs();
    PartsIs(FIRST);
    HeaderIs();
    ZeroBits(b, 0, 9);
    ValueConcat(b, 18, 6, 6);
    ValueInByte(b, 2, 2, 6);
    ValueInByte(b, 3, 0, 6);
    FirstBits();
    FieldsAre(b, 18);
    BeginIs(b);
  }

  lemma BeginIs(b: seq<byte>)
    requires 8 * |b| == 736 && IsMpeg1(HEADER)
    ensures MainDataBegin(b, 736, HEADER, 0) == Value(b, 0, 9)
  {
    hide Value;
  }

  lemma FirstIs()
    ensures |FIRST| == 4 && FIRST[0] == FIRST[1] == 0 && FIRST[2] == 9 && FIRST[3] == 0x60
  {
  }

  lemma FirstBits()
    ensures Low(Shr(9, 0), 6) == 9 && Low(Shr(0x60, 2), 6) == 24 && Pow2(6) == 64
  {
    assert Shr(0x60, 2) == 24;
    assert Pow2(3) == 8;
    LowOfSmall(9, 6);
    LowOfSmall(24, 6);
  }

  lemma SecondFields()
    ensures var b := BodyOf(SECOND);
            8 * |b| == 736 && Part23At(b, 736, 18) == 0 && MainDataBegin(b, 736, HEADER, 0) == 1
  {
    hide *;
    var b := BodyOf(SECOND);
    SecondIs();
    PartsIs(SECOND);
    HeaderIs();
    ZeroBits(b, 0, 8);
    ValueConcat(b, 0, 8, 1);
    ValueInByte(b, 1, 0, 1);
    ZeroBits(b, 18, 12);
    FieldsAre(b, 18);
    BeginIs(b);
  }

  lemma SecondIs()
    ensures |SECOND| == 4 && SECOND[0] == SECOND[2] == SECOND[3] == 0 && SECOND[1] == 0x80 && Low(Shr(0x80, 7), 1) == 1
  {
    assert Shr(0x80, 4) == 8;
    ShrHalf(0x80, 4);
    ShrHalf(0x80, 5);
    ShrHalf(0x80, 6);
  }

  /** Both side infos are accepted, and this is what the reservoir makes of the frames. */
  lemma FramesAre()
    ensures !Refused(FrameBytesOf(FIRST), HEADER) && !Refused(FrameBytesOf(SECOND), HEADER)
    ensures FrameOf(FrameBytesOf(FIRST), HEADER) == Frame(0, Zeros(75), 600)
    ensures FrameOf(FrameBytesOf(SECOND), HEADER) == Frame(1, Zeros(75), 0)
  {
    hide *;
    FirstIs();
    SecondIs();
    PartsIs(FIRST);
    PartsIs(SECOND);
    FirstFields();
    SecondFields();
    RestOfSide(FIRST);
    RestOfSide(SECOND);
    SumIs(BodyOf(FIRST), 0);
    SumIs(BodyOf(SECOND), 1);
    HeaderIs();
    DecodeLayer3Is(ZEROED, FrameBytesOf(FIRST), HEADER, true);
    DecodeLayer3Is(ZEROED, FrameBytesOf(SECOND), HEADER, true);
    FrameOfIs(FrameBytesOf(FIRST), HEADER);
    FrameOfIs(FrameBytesOf(SECOND), HEADER);
    var f, g := FrameOf(FrameBytesOf(FIRST), HEADER), FrameOf(FrameBytesOf(SECOND), HEADER);
    assert f == Frame(f.mainDataBegin, f.payload, f.part23Sum);
    assert g == Frame(g.mainDataBegin, g.payload, g.part23Sum);
  }

  // ---- Both calls ----

  /** The decoder after the first frame. */
  function Then(res: seq<byte>): State { State(HEADER, 0, res) }

  lemma SizesAre()
    ensures SizeOf(HEADER, 0) == 96 && SizeOf(HEADER, 96) == 96 && InitialSize(HEADER, 0) == Size(96, 96, 0)
  {
    hide FrameBytes, Padding;
    HeaderIs();
  }

  /** The first frame is found: another follows it. */
  lemma FoundFirst(mp3: seq<byte>)
    requires mp3 == FrameBytesOf(FIRST) + FrameBytesOf(SECOND)
    ensures Locate(ZEROED, mp3) == (Found(0, 96, 0), ZEROED)
    ensures mp3[0..96] == FrameBytesOf(FIRST) && HeaderAt(mp3, 0) == HEADER
  {
    hide *;
    TwoHeaders(mp3);
    HeaderIs();
    SizesAre();
    ContinuesIs(ZEROED, mp3);
    FindFromIs(mp3, 0, 0);
    SizeFromIs(mp3, 0, 4, Size(96, 96, 0));
    NotSearching(mp3);
    AcceptableIs(mp3, 0, Size(96, 96, 0));
    MatchFromIs(mp3, 0, 0, 96, 0);
    MatchFromIs(mp3, 0, 96, 96, 1);
  }

  lemma TwoHeaders(mp3: seq<byte>)
    requires mp3 == FrameBytesOf(FIRST) + FrameBytesOf(SECOND)
    ensures |mp3| == 192 && HeaderAt(mp3, 0) == HeaderAt(mp3, 96) == HEADER && HDR_SIZE == 4
    ensures mp3[0..96] == FrameBytesOf(FIRST)
    ensures !Continues(ZEROED, mp3) && ZEROED.(free := 0) == ZEROED && MAX_FRAME_SYNC_MATCHES == 10
  {
    PartsIs(FIRST);
    PartsIs(SECOND);
  }

  lemma NotSearching(mp3: seq<byte>)
    ensures !Searching(mp3, 0, 4, Size(96, 96, 0))
  {
  }

  /** The second frame is all there is, and goes on from the first. */
  lemma FoundSecond(res: seq<byte>)
    ensures var mp3 := FrameBytesOf(SECOND);
            && Locate(Then(res), mp3) == (Found(0, 96, 0), Then(res))
            && mp3[0..96] == mp3 && HeaderAt(mp3, 0) == HEADER
  {
    hide *;
    OneHeader(res);
    HeaderIs();
    SizesAre();
    ContinuesIs(Then(res), FrameBytesOf(SECOND));
  }

  lemma OneHeader(res: seq<byte>)
    ensures var mp3 := FrameBytesOf(SECOND);
            |mp3| == 96 && HeaderAt(mp3, 0) == HEADER && mp3[0..96] == mp3 && Then(res) == State(HEADER, 0, res)
  {
    PartsIs(SECOND);
  }

  /** Decoding uses up the main data of the first frame; counting keeps them. */
  lemma FirstCall(pcm: bool, fits: seq<byte> -> bool)
    ensures Decode(ZEROED, FrameBytesOf(FIRST) + FrameBytesOf(SECOND), pcm, fits)
            == Outcome(Then(if pcm then [] else Zeros(75)), 1152, 96)
  {
    hide *;
    var mp3 := FrameBytesOf(FIRST) + FrameBytesOf(SECOND);
    FoundFirst(mp3);
    ZeroedIs();
    DecodeIs(ZEROED, mp3, pcm, fits);
    HeaderIs();
    var s := ZEROED.(header := HEADER);
    BodyOfCall(ZEROED, FrameBytesOf(FIRST), pcm, fits);
    FramesAre();
    DecodeLayer3Is(s, FrameBytesOf(FIRST), HEADER, pcm);
    FirstCarry(pcm);
  }

  lemma ZeroedIs()
    ensures ZEROED.free == 0 && ZEROED.reservoir == [] && MAX_FREE_FORMAT_FRAME_SIZE == 2304
    ensures forall res :: Then(res) == State(HEADER, 0, res)
    ensures ZEROED.(header := HEADER) == Then([])
  {
  }

  lemma BodyOfCall(s: State, frame: seq<byte>, pcm: bool, fits: seq<byte> -> bool)
    ensures DecodeBody(s, frame, HEADER, pcm, fits) == DecodeLayer3(s.(header := HEADER), frame, HEADER, pcm)
  {
    hide DecodeLayer3, DecodeLayer12;
    HeaderIs();
  }

  lemma FirstCarry(pcm: bool)
    ensures Accepts([], Frame(0, Zeros(75), 600))
    ensures Carry([], Frame(0, Zeros(75), 600), pcm) == if pcm then [] else Zeros(75)
  {
  }

  lemma SecondCall(pcm: bool, fits: seq<byte> -> bool, res: seq<byte>)
    ensures Decode(Then(res), FrameBytesOf(SECOND), pcm, fits).samples == if |res| >= 1 then 1152 else 0
  {
    hide *;
    var mp3 := FrameBytesOf(SECOND);
    FoundSecond(res);
    ZeroedIs();
    DecodeIs(Then(res), mp3, pcm, fits);
    HeaderIs();
    BodyOfCall(Then(res), mp3, pcm, fits);
    FramesAre();
    DecodeLayer3Is(Then(res), mp3, HEADER, pcm);
    AcceptsIs(res, Frame(1, Zeros(75), 0));
  }

  /** The two frames in a row, a call each: two frames are counted where one decodes. */
  lemma TwoCountedOneDecoded(fits: seq<byte> -> bool)
    ensures var buffers := [FrameBytesOf(FIRST) + FrameBytesOf(SECOND), FrameBytesOf(SECOND)];
            Calls(buffers, true, fits).1 == 1152 && Calls(buffers, false, fits).1 == 2304
  {
    hide *;
    Both(true, fits);
    Both(false, fits);
  }

  lemma Both(pcm: bool, fits: seq<byte> -> bool)
    ensures var buffers := [FrameBytesOf(FIRST) + FrameBytesOf(SECOND), FrameBytesOf(SECOND)];
            Calls(buffers, pcm, fits).1 == if pcm then 1152 else 2304
  {
    hide *;
    var both, second := FrameBytesOf(FIRST) + FrameBytesOf(SECOND), FrameBytesOf(SECOND);
    assert [both, second][..1] == [both];
    var one: seq<seq<byte>> := [both];
    assert one[..0] == [];
    CallsStep([both, second], pcm, fits);
    CallsStep([both], pcm, fits);
    NoCalls(pcm, fits);
    FirstCall(pcm, fits);
    SecondCall(pcm, fits, if pcm then [] else Zeros(75));
  }

  lemma NoCalls(pcm: bool, fits: seq<byte> -> bool)
    ensures Calls([], pcm, fits) == (ZEROED, 0)
  {
  }
}
