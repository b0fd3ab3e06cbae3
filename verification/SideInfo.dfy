/**
 Layer III side information (section 2.4.1.7 of ISO/IEC 11172-3, and its half-rate variant in
 ISO/IEC 13818-3): `drmp3_L3_read_side_info`. The reader takes the fields one after the other and
 threads the scfsi word through the granules; here it is proved against a layout that gives every
 field its own bit offset and every granule its own scfsi flags.
 */
module SideInfo {
  import opened Arith
  import opened Bytes
  import opened BitStream
  import opened Mp3Header

  const SHORT_BLOCK_TYPE := 2

  datatype SfbKind = Long | Short | Mixed

  /** One granule of one channel: drmp3_L3_gr_info. */
  datatype GrInfo = GrInfo(
    part23Length: nat, bigValues: nat, globalGain: nat, scalefacCompress: nat,
    sfbKind: SfbKind, nLongSfb: nat, nShortSfb: nat,
    blockType: nat, mixedBlockFlag: nat,
    tableSelect: (nat, nat, nat), regionCount: (nat, nat, nat), subblockGain: (nat, nat, nat),
    preflag: nat, scalefacScale: nat, count1Table: nat, scfsi: nat)

  // ---- The layout ----

  /** How many granules the side info describes, over both channels. */
  function Granules(h: Header): (n: nat)
    ensures n in {1, 2, 4}
  {
    (if IsMono(h) then 1 else 2) * (if IsMpeg1(h) then 2 else 1)
  }

  function ScalefacBits(h: Header): nat { if IsMpeg1(h) then 4 else 9 }

  function GranuleBits(h: Header): nat { if IsMpeg1(h) then 59 else 63 }

  /** main_data_begin, the private bits and, in MPEG-1, scfsi. */
  function LeadBits(h: Header): nat { if IsMpeg1(h) then 16 + Granules(h) else 8 + Granules(h) }

  function SideInfoBytes(h: Header): nat {
    if IsMpeg1(h) then (if IsMono(h) then 17 else 32) else (if IsMono(h) then 9 else 17)
  }

  lemma SideInfoIsWholeBytes(h: Header)
    ensures LeadBits(h) + Granules(h) * GranuleBits(h) == 8 * SideInfoBytes(h)
  {
  }

  /** Where the granule with number `k` starts. */
  function GranuleStart(h: Header, at: nat, k: nat): nat {
    at + LeadBits(h) + k * GranuleBits(h)
  }

  lemma GranuleStartStep(h: Header, at: nat, k: nat)
    ensures GranuleStart(h, at, k + 1) == GranuleStart(h, at, k) + GranuleBits(h)
    ensures GranuleStart(h, at, 0) == at + LeadBits(h)
  {
  }

  lemma GranuleStartLast(h: Header, at: nat)
    ensures GranuleStart(h, at, Granules(h)) == at + 8 * SideInfoBytes(h)
  {
    SideInfoIsWholeBytes(h);
  }

  // The fields of a granule that starts at bit `at`. Reads past the limit yield 0.

  function Part23At(buf: seq<byte>, limit: int, at: nat): nat
    requires limit <= 8 * |buf|
  {
    Bits(buf, limit, at, 12)
  }

  function BigValuesAt(buf: seq<byte>, limit: int, at: nat): nat
    requires limit <= 8 * |buf|
  {
    Bits(buf, limit, at + 12, 9)
  }

  /** The parts that every granule has, up to the window switching flag. */
  function HeadAt(buf: seq<byte>, limit: int, h: Header, at: nat, prior: GrInfo): GrInfo
    requires limit <= 8 * |buf|
  {
    prior.(part23Length := Part23At(buf, limit, at), bigValues := BigValuesAt(buf, limit, at),
           globalGain := Bits(buf, limit, at + 21, 8),
           scalefacCompress := Bits(buf, limit, at + 29, ScalefacBits(h)),
           sfbKind := Long, nLongSfb := 22, nShortSfb := 0)
  }

  predicate SwitchedAt(buf: seq<byte>, limit: int, h: Header, at: nat)
    requires limit <= 8 * |buf|
  {
    Bits(buf, limit, at + 29 + ScalefacBits(h), 1) != 0
  }

  /** The first bit after the window switching flag. */
  function WindowStart(h: Header, at: nat): nat { at + 30 + ScalefacBits(h) }

  function BlockTypeAt(buf: seq<byte>, limit: int, h: Header, at: nat): nat
    requires limit <= 8 * |buf|
  {
    Bits(buf, limit, WindowStart(h, at), 2)
  }

  /** What a block type and its mixed flag mean for the scale factor bands. */
  function Banded(h: Header, blockType: nat, mixed: nat, g: GrInfo): GrInfo {
    var g := g.(blockType := blockType, mixedBlockFlag := mixed, regionCount := (7, 255, g.regionCount.2));
    if blockType != SHORT_BLOCK_TYPE then g
    else if mixed == 0 then
      g.(regionCount := (8, 255, g.regionCount.2), sfbKind := Short, nLongSfb := 0, nShortSfb := 39)
    else
      g.(sfbKind := Mixed, nLongSfb := if IsMpeg1(h) then 8 else 6, nShortSfb := 30)
  }

  /** A granule with window switching: `w` is its WindowStart. */
  function SwitchedPart(buf: seq<byte>, limit: int, h: Header, w: nat, g: GrInfo): GrInfo
    requires limit <= 8 * |buf|
  {
    Banded(h, Bits(buf, limit, w, 2), Bits(buf, limit, w + 2, 1), g).(
      tableSelect := (Shr(Bits(buf, limit, w + 3, 10), 5), Low(Bits(buf, limit, w + 3, 10), 5), 0),
      subblockGain := (Bits(buf, limit, w + 13, 3), Bits(buf, limit, w + 16, 3), Bits(buf, limit, w + 19, 3)))
  }

  function PlainPart(buf: seq<byte>, limit: int, h: Header, w: nat, g: GrInfo): GrInfo
    requires limit <= 8 * |buf|
  {
    var tables := Bits(buf, limit, w, 15);
    g.(blockType := 0, mixedBlockFlag := 0,
       tableSelect := (Shr(tables, 10), Low(Shr(tables, 5), 5), Low(tables, 5)),
       regionCount := (Bits(buf, limit, w + 15, 4), Bits(buf, limit, w + 19, 3), 255))
  }

  /** The flags at the end of a granule: `e` is 22 bits after its WindowStart. */
  function TailPart(buf: seq<byte>, limit: int, h: Header, e: nat, g: GrInfo): GrInfo
    requires limit <= 8 * |buf|
  {
    if IsMpeg1(h) then
      g.(preflag := Bits(buf, limit, e, 1), scalefacScale := Bits(buf, limit, e + 1, 1),
         count1Table := Bits(buf, limit, e + 2, 1))
    else
      g.(preflag := if g.scalefacCompress >= 500 then 1 else 0,
         scalefacScale := Bits(buf, limit, e, 1), count1Table := Bits(buf, limit, e + 1, 1))
  }

  /** The granule at bit `at`, its scfsi left as it was. */
  function GranuleAt(buf: seq<byte>, limit: int, h: Header, at: nat, prior: GrInfo): GrInfo
    requires limit <= 8 * |buf|
  {
    var g := HeadAt(buf, limit, h, at, prior);
    var w := WindowStart(h, at);
    var g' := if SwitchedAt(buf, limit, h, at) then SwitchedPart(buf, limit, h, w, g)
              else PlainPart(buf, limit, h, w, g);
    TailPart(buf, limit, h, w + 22, g')
  }

  /** The two ways in which a granule by itself is rejected. */
  predicate Rejected(buf: seq<byte>, limit: int, h: Header, at: nat)
    requires limit <= 8 * |buf|
  {
    || BigValuesAt(buf, limit, at) > 288
    || (SwitchedAt(buf, limit, h, at) && BlockTypeAt(buf, limit, h, at) == 0)
  }

  /** Granule `k` is coded with short blocks. */
  predicate IsShort(buf: seq<byte>, limit: int, h: Header, at: nat, k: nat)
    requires limit <= 8 * |buf|
  {
    var g := GranuleStart(h, at, k);
    SwitchedAt(buf, limit, h, g) && BlockTypeAt(buf, limit, h, g) == SHORT_BLOCK_TYPE
  }

  /** The bits of main data that the first `n` granules claim. */
  function Part23Sum(buf: seq<byte>, limit: int, h: Header, at: nat, n: nat): nat
    requires limit <= 8 * |buf|
  {
    if n == 0 then 0
    else Part23Sum(buf, limit, h, at, n - 1) + Part23At(buf, limit, GranuleStart(h, at, n - 1))
  }

  function MainDataBegin(buf: seq<byte>, limit: int, h: Header, at: nat): nat
    requires limit <= 8 * |buf|
  {
    if IsMpeg1(h) then Bits(buf, limit, at, 9) else Shr(Bits(buf, limit, at, 8 + Granules(h)), Granules(h))
  }

  /** The scfsi field of an MPEG-1 side info, private bits included. */
  function ScfsiField(buf: seq<byte>, limit: int, h: Header, at: nat): nat
    requires limit <= 8 * |buf|
  {
    if IsMpeg1(h) then Bits(buf, limit, at + 9, 7 + Granules(h)) else 0
  }

  /** The side info at bit `at` is refused. */
  predicate Invalid(buf: seq<byte>, limit: int, h: Header, at: nat)
    requires limit <= 8 * |buf|
  {
    || (exists k :: 0 <= k < Granules(h) && Rejected(buf, limit, h, GranuleStart(h, at, k)))
    || Part23Sum(buf, limit, h, at, Granules(h)) + at + 8 * SideInfoBytes(h)
       > limit + 8 * MainDataBegin(buf, limit, h, at)
  }

  // ---- scfsi ----

  function Shl4(x: nat): nat { 16 * x }

  /** x & 0x0F0F. */
  function Keep0F0F(x: nat): nat { x % 16 + 256 * (x / 256 % 16) }

  /** The word after the shift that a mono granule starts with. */
  function Preshift(h: Header, word: nat): nat {
    if IsMono(h) then Shl4(word) else word
  }

  /** The word from which a granule takes its four flags. */
  function Masked(h: Header, word: nat, short: bool): nat {
    if short then Keep0F0F(Preshift(h, word)) else Preshift(h, word)
  }

  function Nibble3(word: nat): nat { word / 4096 % 16 }

  /** The word before granule `k`. */
  function ScfsiWord(buf: seq<byte>, limit: int, h: Header, at: nat, k: nat): nat
    requires limit <= 8 * |buf|
  {
    if k == 0 then ScfsiField(buf, limit, h, at)
    else Shl4(Masked(h, ScfsiWord(buf, limit, h, at, k - 1), IsShort(buf, limit, h, at, k - 1)))
  }

  /** The flags that granule `k` ends up with. */
  function ScfsiAt(buf: seq<byte>, limit: int, h: Header, at: nat, k: nat): nat
    requires limit <= 8 * |buf|
  {
    Nibble3(Masked(h, ScfsiWord(buf, limit, h, at, k), IsShort(buf, limit, h, at, k)))
  }

  lemma ScfsiWordStep(buf: seq<byte>, limit: int, h: Header, at: nat, k: nat)
    requires limit <= 8 * |buf|
    ensures ScfsiWord(buf, limit, h, at, 0) == ScfsiField(buf, limit, h, at)
    ensures ScfsiWord(buf, limit, h, at, k + 1)
            == Shl4(Masked(h, ScfsiWord(buf, limit, h, at, k), IsShort(buf, limit, h, at, k)))
    ensures ScfsiAt(buf, limit, h, at, k)
            == Nibble3(Masked(h, ScfsiWord(buf, limit, h, at, k), IsShort(buf, limit, h, at, k)))
  {
  }

  /** Four flags a channel, in the order of ISO/IEC 11172-3; `Private` are the bits before them. */
  function Private(field: nat, h: Header): nat { if IsMono(h) then field / 16 else field / 256 }
  function FlagsOf(field: nat, h: Header, ch: nat): nat {
    if IsMono(h) || ch == 1 then field % 16 else field / 16 % 16
  }

  /**
   Mono: the second granule gets the flags of the side info, unless one of the granules is short;
   the first gets the topmost private bit.
   */
  lemma ScfsiMono(buf: seq<byte>, limit: int, h: Header, at: nat)
    requires limit <= 8 * |buf| && IsMpeg1(h) && IsMono(h)
    ensures var s0, s1 := IsShort(buf, limit, h, at, 0), IsShort(buf, limit, h, at, 1);
            var f := ScfsiField(buf, limit, h, at);
            && ScfsiAt(buf, limit, h, at, 0) == (if s0 then 0 else Private(f, h) / 16)
            && ScfsiAt(buf, limit, h, at, 1) == if s0 || s1 then 0 else FlagsOf(f, h, 0)
  {
    var s0, s1 := IsShort(buf, limit, h, at, 0), IsShort(buf, limit, h, at, 1);
    var f := ScfsiField(buf, limit, h, at);
    FieldBound(buf, limit, h, at);
    MonoWords(f, s0, s1);
    ScfsiWordStep(buf, limit, h, at, 0);
    ScfsiWordStep(buf, limit, h, at, 1);
    hide *;
    PreshiftIs(h, f);
    PreshiftIs(h, Shl4(Masked(h, f, s0)));
    MonoParts(h, f);
  }

  lemma MonoParts(h: Header, f: nat)
    requires IsMono(h)
    ensures Private(f, h) == f / 16 && FlagsOf(f, h, 0) == f % 16
  {
  }

  lemma PreshiftIs(h: Header, word: nat)
    ensures Masked(h, word, true) == Keep0F0F(if IsMono(h) then Shl4(word) else word)
    ensures Masked(h, word, false) == if IsMono(h) then Shl4(word) else word
  {
  }

  lemma MonoWords(f: nat, s0: bool, s1: bool)
    requires f < 512
    ensures var w0 := if s0 then Keep0F0F(Shl4(f)) else Shl4(f);
            var w1 := if s1 then Keep0F0F(Shl4(Shl4(w0))) else Shl4(Shl4(w0));
            && Nibble3(w0) == (if s0 then 0 else f / 256)
            && Nibble3(w1) == if s0 || s1 then 0 else f % 16
  {
    hide *;
    NibblesOf(f);
    var p, m, l := f / 256, f / 16 % 16, f % 16;
    TopNibble(0, p, m, l);
    KeepNibbles(p, m, l, 0);
    TopNibble(p, m, l, 0);
    var (x3, x2, x1) := if s0 then (0, m, 0) else (p, m, l);
    TopNibble(x3, x2, x1, 0);
    TopNibble(16 * x3 + x2, x1, 0, 0);
    var top := 16 * (16 * x3 + x2) + x1;
    KeepNibbles(top, 0, 0, 0);
    TopNibble(top, 0, 0, 0);
    TopNibble(0, 0, 0, 0);
    TopOfSum(x3, x2, x1);
  }

  lemma NibblesOf(f: nat)
    requires f < 512
    ensures f == Nibbles(0, f / 256, f / 16 % 16, f % 16) && 0 <= f / 256 < 2
    ensures 0 <= f / 16 % 16 < 16 && 0 <= f % 16 < 16
  {
  }

  lemma FieldBound(buf: seq<byte>, limit: int, h: Header, at: nat)
    requires limit <= 8 * |buf| && IsMpeg1(h)
    ensures ScfsiField(buf, limit, h, at) < if IsMono(h) then 512 else 2048
  {
    assert Pow2(9) == 512 && Pow2(11) == 2048 by { assert Pow2(5) == 32; }
  }

  /** A word of four nibbles, after the mask that a short block applies. */
  function Nibbles(x3: nat, x2: nat, x1: nat, x0: nat): nat {
    4096 * x3 + 256 * x2 + 16 * x1 + x0
  }

  /** The mask keeps the nibbles 0 and 2. */
  lemma KeepNibbles(x3: nat, x2: nat, x1: nat, x0: nat)
    requires x2 < 16 && x1 < 16 && x0 < 16
    ensures Keep0F0F(Nibbles(x3, x2, x1, x0)) == Nibbles(0, x2, 0, x0)
  {
    DivModUnique(256 * x3 + 16 * x2 + x1, 16, x0);
    DivModUnique(16 * x3 + x2, 256, 16 * x1 + x0);
    DivModUnique(x3, 16, x2);
  }

  lemma TopNibble(x3: nat, x2: nat, x1: nat, x0: nat)
    requires x2 < 16 && x1 < 16 && x0 < 16
    ensures Nibble3(Nibbles(x3, x2, x1, x0)) == x3 % 16
    ensures Shl4(Nibbles(x3, x2, x1, x0)) == Nibbles(16 * x3 + x2, x1, x0, 0)
  {
  }

  /** One granule: its flags are the top nibble unless it is short, and the word moves up. */
  lemma StereoStep(h: Header, x3: nat, x2: nat, x1: nat, x0: nat, short: bool)
    requires !IsMono(h) && x2 < 16 && x1 < 16 && x0 < 16
    ensures Nibble3(Masked(h, Nibbles(x3, x2, x1, x0), short)) == if short then 0 else x3 % 16
    ensures Shl4(Masked(h, Nibbles(x3, x2, x1, x0), short))
            == if short then Nibbles(x2, 0, x0, 0) else Nibbles(16 * x3 + x2, x1, x0, 0)
  {
    PreshiftIs(h, Nibbles(x3, x2, x1, x0));
    hide *;
    KeepNibbles(x3, x2, x1, x0);
    TopNibble(x3, x2, x1, x0);
    TopNibble(0, x2, 0, x0);
  }

  lemma StereoParts(h: Header, f: nat)
    requires !IsMono(h) && f < 2048
    ensures Private(f, h) < 8
    ensures f == Nibbles(0, Private(f, h), FlagsOf(f, h, 0), FlagsOf(f, h, 1))
    ensures FlagsOf(f, h, 0) < 16 && FlagsOf(f, h, 1) < 16
  {
  }

  /**
   Stereo: the flags of a channel reach its second granule, unless one of its granules is short.
   The first granule of channel 1 gets the private bits.
   */
  lemma ScfsiStereo(buf: seq<byte>, limit: int, h: Header, at: nat, s0: bool, s1: bool, s2: bool, s3: bool)
    requires limit <= 8 * |buf| && IsMpeg1(h) && !IsMono(h)
    requires s0 == IsShort(buf, limit, h, at, 0) && s1 == IsShort(buf, limit, h, at, 1)
    requires s2 == IsShort(buf, limit, h, at, 2) && s3 == IsShort(buf, limit, h, at, 3)
    ensures var f := ScfsiField(buf, limit, h, at);
            && ScfsiAt(buf, limit, h, at, 0) == 0
            && ScfsiAt(buf, limit, h, at, 1) == (if s1 then 0 else Private(f, h))
            && ScfsiAt(buf, limit, h, at, 2) == (if s0 || s2 then 0 else FlagsOf(f, h, 0))
            && ScfsiAt(buf, limit, h, at, 3) == if s1 || s3 then 0 else FlagsOf(f, h, 1)
  {
    hide *;
    var f := ScfsiField(buf, limit, h, at);
    FieldBound(buf, limit, h, at);
    StereoParts(h, f);
    var p, a, b := Private(f, h), FlagsOf(f, h, 0), FlagsOf(f, h, 1);
    ScfsiWordStep(buf, limit, h, at, 0);
    StereoStep(h, 0, p, a, b, s0);
    var a' := if s0 then 0 else a;
    ScfsiWordStep(buf, limit, h, at, 1);
    StereoStep(h, p, a', b, 0, s1);
    var p', b' := if s1 then 0 else p, if s1 then 0 else b;
    ScfsiWordStep(buf, limit, h, at, 2);
    StereoStep(h, 16 * p' + a', b', 0, 0, s2);
    var high := 16 * (16 * p' + a');
    ScfsiWordStep(buf, limit, h, at, 3);
    StereoStep(h, if s2 then b' else high + b', 0, 0, 0, s3);
    TopOfSum(p', a', b');
  }

  lemma TopOfSum(p: nat, a: nat, b: nat)
    requires a < 16 && b < 16
    ensures (16 * p + a) % 16 == a && (16 * (16 * p + a) + b) % 16 == b
  {
  }

  /**
   Flags that the standard gives to no granule, those of the first granule of each channel, are all clear
   exactly when the private bits that end up there are, or the granule that gets them is short.
   */
  lemma FirstGranuleScfsi(buf: seq<byte>, limit: int, h: Header, at: nat)
    requires limit <= 8 * |buf| && IsMpeg1(h)
    ensures (ScfsiAt(buf, limit, h, at, 0) == 0 && (!IsMono(h) ==> ScfsiAt(buf, limit, h, at, 1) == 0))
            <==> ScfsiField(buf, limit, h, at) < 256 || IsShort(buf, limit, h, at, if IsMono(h) then 0 else 1)
  {
    hide *;
    var f := ScfsiField(buf, limit, h, at);
    FieldBound(buf, limit, h, at);
    if IsMono(h) {
      ScfsiMono(buf, limit, h, at);
      MonoParts(h, f);
    } else {
      ScfsiStereo(buf, limit, h, at, IsShort(buf, limit, h, at, 0), IsShort(buf, limit, h, at, 1),
                  IsShort(buf, limit, h, at, 2), IsShort(buf, limit, h, at, 3));
      StereoPrivate(h, f);
    }
  }

  lemma StereoPrivate(h: Header, f: nat)
    requires !IsMono(h)
    ensures Private(f, h) == 0 <==> f < 256
  {
  }

  // ---- The reader ----

  /** The three table numbers of a 15-bit word, and of a 10-bit word moved up by five. */
  lemma TablesOfTen(x: nat)
    ensures Shr(32 * x, 10) == Shr(x, 5) && Low(Shr(32 * x, 5), 5) == Low(x, 5) && Low(32 * x, 5) == 0
  {
    hide *;
    Pow2Five();
    ShrOfSum(x, 0, 5);
    ShrTwice(32 * x, 5, 5);
    LowOfMultiple(x, 5);
  }

  lemma Pow2Five()
    ensures Pow2(5) == 32
  {
  }

  lemma {:induction false} ShrTwice(x: nat, a: nat, b: nat)
    ensures Shr(x, a + b) == Shr(Shr(x, a), b)
  {
    if a > 0 {
      ShrTwice(x / 2, a - 1, b);
    }
  }

  lemma {:induction false} LowOfMultiple(x: nat, k: nat)
    ensures Low(x * Pow2(k), k) == 0
  {
    if k > 0 {
      MulTwo(x, Pow2(k - 1));
      LowOfMultiple(x, k - 1);
    }
  }

  /** The block type, as the source sets the fields from it, and the mask on the scfsi word. */
  method SetBands(h: Header, blockType: nat, mixed: nat, g0: GrInfo, scfsi0: nat) returns (g: GrInfo, scfsi: nat)
    ensures g == Banded(h, blockType, mixed, g0)
    ensures scfsi == if blockType == SHORT_BLOCK_TYPE then Keep0F0F(scfsi0) else scfsi0
  {
    g, scfsi := g0.(blockType := blockType, mixedBlockFlag := mixed), scfsi0;
    g := g.(regionCount := (7, 255, g.regionCount.2));
    if g.blockType == SHORT_BLOCK_TYPE {
      scfsi := Keep0F0F(scfsi);
      if g.mixedBlockFlag == 0 {
        g := g.(regionCount := (8, g.regionCount.1, g.regionCount.2));
        g := g.(sfbKind := Short, nLongSfb := 0, nShortSfb := 39);
      } else {
        g := g.(sfbKind := Mixed, nLongSfb := if IsMpeg1(h) then 8 else 6, nShortSfb := 30);
      }
    }
  }

  /** The branch with window switching. */
  method ReadSwitched(bs: BitReader, h: Header, g0: GrInfo, scfsi0: nat) returns (ok: bool, g: GrInfo, scfsi: nat)
    requires bs.limit <= 8 * |bs.buf|
    modifies bs`pos
    ensures ok == (Bits(bs.buf, bs.limit, old(bs.pos), 2) != 0)
    ensures ok ==> bs.pos == old(bs.pos) + 22 && g == SwitchedPart(bs.buf, bs.limit, h, old(bs.pos), g0)
    ensures ok ==> scfsi == if Bits(bs.buf, bs.limit, old(bs.pos), 2) == SHORT_BLOCK_TYPE
                            then Keep0F0F(scfsi0) else scfsi0
  {
    hide *;
    ghost var w := bs.pos;
    g, scfsi := g0, scfsi0;
    var blockType := bs.GetBits(2);
    if blockType == 0 {
      return false, g, scfsi;
    }
    var mixed := bs.GetBits(1);
    g, scfsi := SetBands(h, blockType, mixed, g, scfsi);
    var tables := bs.GetBits(10);
    TablesOfTen(tables);
    tables := 32 * tables;
    var s0 := bs.GetBits(3);
    var s1 := bs.GetBits(3);
    var s2 := bs.GetBits(3);
    g := g.(subblockGain := (s0, s1, s2));
    g := g.(tableSelect := (Shr(tables, 10), Low(Shr(tables, 5), 5), Low(tables, 5)));
    SwitchedPartIs(bs.buf, bs.limit, h, w, g0);
    ok := true;
  }

  lemma SwitchedPartIs(buf: seq<byte>, limit: int, h: Header, w: nat, g: GrInfo)
    requires limit <= 8 * |buf|
    ensures SwitchedPart(buf, limit, h, w, g)
            == Banded(h, Bits(buf, limit, w, 2), Bits(buf, limit, w + 2, 1), g).(
                 tableSelect := (Shr(Bits(buf, limit, w + 3, 10), 5), Low(Bits(buf, limit, w + 3, 10), 5), 0),
                 subblockGain := (Bits(buf, limit, w + 13, 3), Bits(buf, limit, w + 16, 3), Bits(buf, limit, w + 19, 3)))
  {
  }

  /** The branch without window switching. */
  method ReadPlain(bs: BitReader, h: Header, g0: GrInfo) returns (g: GrInfo)
    requires bs.limit <= 8 * |bs.buf|
    modifies bs`pos
    ensures bs.pos == old(bs.pos) + 22 && g == PlainPart(bs.buf, bs.limit, h, old(bs.pos), g0)
  {
    hide Bits, Shr, Low;
    g := g0.(blockType := 0, mixedBlockFlag := 0);
    var tables := bs.GetBits(15);
    var r0 := bs.GetBits(4);
    var r1 := bs.GetBits(3);
    g := g.(regionCount := (r0, r1, 255));
    g := g.(tableSelect := (Shr(tables, 10), Low(Shr(tables, 5), 5), Low(tables, 5)));
  }

  method ReadTail(bs: BitReader, h: Header, g0: GrInfo) returns (g: GrInfo)
    requires bs.limit <= 8 * |bs.buf|
    modifies bs`pos
    ensures bs.pos == old(bs.pos) + (if IsMpeg1(h) then 3 else 2)
    ensures g == TailPart(bs.buf, bs.limit, h, old(bs.pos), g0)
  {
    hide Bits, IsMpeg1;
    var preflag: nat;
    if IsMpeg1(h) {
      preflag := bs.GetBits(1);
    } else {
      preflag := if g0.scalefacCompress >= 500 then 1 else 0;
    }
    var scale := bs.GetBits(1);
    var table := bs.GetBits(1);
    g := g0.(preflag := preflag, scalefacScale := scale, count1Table := table);
  }

  /** Up to the window switching flag; not ok when big_values is too large. */
  method ReadHead(bs: BitReader, h: Header, g0: GrInfo) returns (ok: bool, g: GrInfo)
    requires bs.limit <= 8 * |bs.buf|
    modifies bs`pos
    ensures g.part23Length == Part23At(bs.buf, bs.limit, old(bs.pos))
    ensures ok == (BigValuesAt(bs.buf, bs.limit, old(bs.pos)) <= 288)
    ensures ok ==> bs.pos == old(bs.pos) + 29 + ScalefacBits(h) && g == HeadAt(bs.buf, bs.limit, h, old(bs.pos), g0)
  {
    hide Bits;
    var part23 := bs.GetBits(12);
    g := g0.(part23Length := part23);
    var big := bs.GetBits(9);
    g := g.(bigValues := big);
    if g.bigValues > 288 {
      return false, g;
    }
    var gain := bs.GetBits(8);
    var compress := bs.GetBits(ScalefacBits(h));
    g := g.(globalGain := gain, scalefacCompress := compress, sfbKind := Long, nLongSfb := 22, nShortSfb := 0);
    ok := true;
  }

  /** One turn of the granule loop, up to the scfsi flags. */
  method ReadGranule(bs: BitReader, h: Header, g0: GrInfo, scfsi0: nat) returns (ok: bool, g: GrInfo, scfsi: nat)
    requires bs.limit <= 8 * |bs.buf|
    modifies bs`pos
    ensures ok == !Rejected(bs.buf, bs.limit, h, old(bs.pos))
    ensures ok ==> bs.pos == old(bs.pos) + GranuleBits(h) && g == GranuleAt(bs.buf, bs.limit, h, old(bs.pos), g0)
    ensures ok ==> scfsi == if SwitchedAt(bs.buf, bs.limit, h, old(bs.pos))
                               && BlockTypeAt(bs.buf, bs.limit, h, old(bs.pos)) == SHORT_BLOCK_TYPE
                            then Keep0F0F(scfsi0) else scfsi0
    ensures ok ==> g.part23Length == Part23At(bs.buf, bs.limit, old(bs.pos))
  {
    hide *;
    ghost var at := bs.pos;
    RejectedIs(bs.buf, bs.limit, h, at);
    GranuleAtIs(bs.buf, bs.limit, h, at, g0);
    scfsi := scfsi0;
    ok, g := ReadHead(bs, h, g0);
    if !ok {
      return;
    }
    var switched := bs.GetBits(1);
    if switched != 0 {
      ok, g, scfsi := ReadSwitched(bs, h, g, scfsi);
      if !ok {
        return;
      }
    } else {
      g := ReadPlain(bs, h, g);
    }
    g := ReadTail(bs, h, g);
  }

  lemma RejectedIs(buf: seq<byte>, limit: int, h: Header, at: nat)
    requires limit <= 8 * |buf|
    ensures Rejected(buf, limit, h, at)
            <==> BigValuesAt(buf, limit, at) > 288
                 || (SwitchedAt(buf, limit, h, at) && BlockTypeAt(buf, limit, h, at) == 0)
    ensures SwitchedAt(buf, limit, h, at) <==> Bits(buf, limit, at + 29 + ScalefacBits(h), 1) != 0
    ensures BlockTypeAt(buf, limit, h, at) == Bits(buf, limit, WindowStart(h, at), 2)
    ensures WindowStart(h, at) == at + 30 + ScalefacBits(h)
    ensures GranuleBits(h) == 52 + ScalefacBits(h) + if IsMpeg1(h) then 3 else 2
  {
  }

  lemma GranuleAtIs(buf: seq<byte>, limit: int, h: Header, at: nat, prior: GrInfo)
    requires limit <= 8 * |buf|
    ensures var g, w := HeadAt(buf, limit, h, at, prior), WindowStart(h, at);
            GranuleAt(buf, limit, h, at, prior)
            == TailPart(buf, limit, h, w + 22,
                        if SwitchedAt(buf, limit, h, at) then SwitchedPart(buf, limit, h, w, g)
                        else PlainPart(buf, limit, h, w, g))
    ensures GranuleAt(buf, limit, h, at, prior).part23Length == Part23At(buf, limit, at)
  {
  }

  /** The side info up to the granules. */
  method ReadLead(bs: BitReader, h: Header) returns (mainDataBegin: nat, scfsi: nat)
    requires bs.limit <= 8 * |bs.buf|
    modifies bs`pos
    ensures bs.pos == GranuleStart(h, old(bs.pos), 0)
    ensures mainDataBegin == MainDataBegin(bs.buf, bs.limit, h, old(bs.pos))
    ensures scfsi == ScfsiField(bs.buf, bs.limit, h, old(bs.pos))
  {
    hide Bits, IsMpeg1, IsMono;
    scfsi := 0;
    if IsMpeg1(h) {
      mainDataBegin := bs.GetBits(9);
      scfsi := bs.GetBits(7 + Granules(h));
    } else {
      var x := bs.GetBits(8 + Granules(h));
      mainDataBegin := Shr(x, Granules(h));
    }
  }

  /** What granule `k` of a valid side info at bit `at` is read as. */
  function GrInfoOf(buf: seq<byte>, limit: int, h: Header, at: nat, k: nat, prior: GrInfo): GrInfo
    requires limit <= 8 * |buf|
  {
    GranuleAt(buf, limit, h, GranuleStart(h, at, k), prior).(scfsi := ScfsiAt(buf, limit, h, at, k))
  }

  /** The first `n` granules are in place, the others are as they were. */
  ghost predicate Filled(gr: seq<GrInfo>, buf: seq<byte>, limit: int, h: Header, at: nat, n: nat, prior: seq<GrInfo>)
    requires limit <= 8 * |buf|
  {
    && |gr| == |prior|
    && (forall k :: 0 <= k < n && k < |gr| ==> gr[k] == GrInfoOf(buf, limit, h, at, k, prior[k]))
    && (forall k :: n <= k < |gr| ==> gr[k] == prior[k])
  }

  ghost predicate NoneRejected(buf: seq<byte>, limit: int, h: Header, at: nat, n: nat)
    requires limit <= 8 * |buf|
  {
    forall k :: 0 <= k < n ==> !Rejected(buf, limit, h, GranuleStart(h, at, k))
  }

  /**
   drmp3_L3_read_side_info. A refused side info is -1; any other consumes exactly 17, 32, 9 or 17
   bytes and leaves every field in the place that the layout gives it.
   */
  method ReadSideInfo(bs: BitReader, gr0: seq<GrInfo>, h: Header) returns (mainDataBegin: int, gr: seq<GrInfo>)
    requires bs.limit <= 8 * |bs.buf| && |gr0| == 4
    modifies bs`pos
    ensures mainDataBegin == if Invalid(bs.buf, bs.limit, h, old(bs.pos)) then -1
                             else MainDataBegin(bs.buf, bs.limit, h, old(bs.pos))
    ensures mainDataBegin >= 0 ==> bs.pos == old(bs.pos) + 8 * SideInfoBytes(h)
    ensures mainDataBegin >= 0 ==> Filled(gr, bs.buf, bs.limit, h, old(bs.pos), Granules(h), gr0)
  {
    hide *;
    ghost var at := bs.pos;
    var part23Sum: nat, scfsi: nat := 0, 0;
    gr := gr0;
    GranulesAre(h);
    var left: int := Granules(h);
    mainDataBegin, scfsi := ReadLead(bs, h);
    var k: nat := 0;
    FilledNone(gr, bs.buf, bs.limit, h, at);
    while left > 0
      invariant 0 <= left == Granules(h) - k && |gr| == 4
      invariant bs.pos == GranuleStart(h, at, k)
      invariant mainDataBegin == MainDataBegin(bs.buf, bs.limit, h, at)
      invariant scfsi == ScfsiWord(bs.buf, bs.limit, h, at, k)
      invariant part23Sum == Part23Sum(bs.buf, bs.limit, h, at, k)
      invariant Filled(gr, bs.buf, bs.limit, h, at, k, gr0) && NoneRejected(bs.buf, bs.limit, h, at, k)
    {
      ScfsiWordStep(bs.buf, bs.limit, h, at, k);
      IsShortIs(bs.buf, bs.limit, h, at, k);
      MaskedIs(h, scfsi);
      GranuleStartStep(h, at, k);
      if IsMono(h) {
        scfsi := Shl4(scfsi);
      }
      FilledNext(gr, bs.buf, bs.limit, h, at, k, gr0);
      var ok, g;
      ok, g, scfsi := ReadGranule(bs, h, gr[k], scfsi);
      if !ok {
        RejectedIsInvalid(bs.buf, bs.limit, h, at, k);
        return -1, gr;
      }
      NoneRejectedStep(bs.buf, bs.limit, h, at, k);
      Part23SumStep(bs.buf, bs.limit, h, at, k);
      part23Sum := part23Sum + g.part23Length;
      gr := gr[k := g.(scfsi := Nibble3(scfsi))];
      scfsi := Shl4(scfsi);
      k, left := k + 1, left - 1;
    }
    GranuleStartLast(h, at);
    InvalidIs(bs.buf, bs.limit, h, at);
    if part23Sum + bs.pos > bs.limit + mainDataBegin * 8 {
      return -1, gr;
    }
  }

  lemma GranulesAre(h: Header)
    ensures 1 <= Granules(h) <= 4
    ensures forall buf: seq<byte>, limit: int, at: nat :: limit <= 8 * |buf| ==> Part23Sum(buf, limit, h, at, 0) == 0
  {
  }

  lemma FilledNone(gr: seq<GrInfo>, buf: seq<byte>, limit: int, h: Header, at: nat)
    requires limit <= 8 * |buf|
    ensures Filled(gr, buf, limit, h, at, 0, gr) && NoneRejected(buf, limit, h, at, 0)
    ensures ScfsiWord(buf, limit, h, at, 0) == ScfsiField(buf, limit, h, at)
  {
  }

  lemma IsShortIs(buf: seq<byte>, limit: int, h: Header, at: nat, k: nat)
    requires limit <= 8 * |buf|
    ensures var g := GranuleStart(h, at, k);
            IsShort(buf, limit, h, at, k)
            <==> SwitchedAt(buf, limit, h, g) && BlockTypeAt(buf, limit, h, g) == SHORT_BLOCK_TYPE
  {
  }

  lemma MaskedIs(h: Header, word: nat)
    ensures var w := if IsMono(h) then Shl4(word) else word;
            Masked(h, word, true) == Keep0F0F(w) && Masked(h, word, false) == w
  {
  }

  lemma FilledNext(gr: seq<GrInfo>, buf: seq<byte>, limit: int, h: Header, at: nat, k: nat, prior: seq<GrInfo>)
    requires limit <= 8 * |buf| && Filled(gr, buf, limit, h, at, k, prior) && k < |gr|
    ensures var g := GranuleAt(buf, limit, h, GranuleStart(h, at, k), gr[k]);
            Filled(gr[k := g.(scfsi := ScfsiAt(buf, limit, h, at, k))], buf, limit, h, at, k + 1, prior)
  {
    hide GranuleAt, GranuleStart, ScfsiAt;
  }

  lemma RejectedIsInvalid(buf: seq<byte>, limit: int, h: Header, at: nat, k: nat)
    requires limit <= 8 * |buf| && k < Granules(h) && Rejected(buf, limit, h, GranuleStart(h, at, k))
    ensures Invalid(buf, limit, h, at)
  {
  }

  lemma NoneRejectedStep(buf: seq<byte>, limit: int, h: Header, at: nat, k: nat)
    requires limit <= 8 * |buf|
    requires NoneRejected(buf, limit, h, at, k) && !Rejected(buf, limit, h, GranuleStart(h, at, k))
    ensures NoneRejected(buf, limit, h, at, k + 1)
  {
  }

  lemma Part23SumStep(buf: seq<byte>, limit: int, h: Header, at: nat, k: nat)
    requires limit <= 8 * |buf|
    ensures Part23Sum(buf, limit, h, at, k + 1)
            == Part23Sum(buf, limit, h, at, k) + Part23At(buf, limit, GranuleStart(h, at, k))
  {
  }

  lemma InvalidIs(buf: seq<byte>, limit: int, h: Header, at: nat)
    requires limit <= 8 * |buf| && NoneRejected(buf, limit, h, at, Granules(h))
    ensures Invalid(buf, limit, h, at)
            <==> Part23Sum(buf, limit, h, at, Granules(h)) + at + 8 * SideInfoBytes(h)
                 > limit + 8 * MainDataBegin(buf, limit, h, at)
  {
  }
}
