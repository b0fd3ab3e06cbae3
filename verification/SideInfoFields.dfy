/**
 The side info of Layer III as the standards lay it out (section 2.4.1.7 of ISO/IEC 11172-3; ISO/IEC 13818-3 for the
 lower sampling rates): fields of so many bits, one behind the other. What dr_mp3 reads is what they hold.
 */
module SideInfoFields {
  import opened Arith
  import opened Bytes
  import opened BitStream
  import opened Mp3Header
  import opened SideInfo

  datatype Field = Field(value: nat, width: nat)

  function Width(fields: seq<Field>): nat {
    if fields == [] then 0 else fields[0].width + Width(fields[1..])
  }

  /** The fields stand in the buffer from that bit on, one behind the other, and end before the limit. */
  predicate Carries(buf: seq<byte>, limit: int, pos: nat, fields: seq<Field>)
    requires limit <= 8 * |buf|
    decreases |fields|
  {
    fields == []
    || (&& pos + fields[0].width <= limit && Value(buf, pos, fields[0].width) == fields[0].value
        && Carries(buf, limit, pos + fields[0].width, fields[1..]))
  }

  lemma CarriesStep(buf: seq<byte>, limit: int, pos: nat, f: Field, rest: seq<Field>)
    requires limit <= 8 * |buf| && Carries(buf, limit, pos, [f] + rest)
    ensures pos + f.width <= limit && Bits(buf, limit, pos, f.width) == f.value
    ensures Carries(buf, limit, pos + f.width, rest)
  {
    hide Value;
    assert ([f] + rest)[1..] == rest;
  }

  lemma {:induction false} CarriesSplit(buf: seq<byte>, limit: int, pos: nat, a: seq<Field>, b: seq<Field>)
    requires limit <= 8 * |buf| && Carries(buf, limit, pos, a + b)
    ensures Carries(buf, limit, pos, a) && Carries(buf, limit, pos + Width(a), b)
    decreases |a|
  {
    hide Value;
    if a == [] {
      assert a + b == b;
    } else {
      assert (a + b)[1..] == a[1..] + b;
      CarriesSplit(buf, limit, pos + a[0].width, a[1..], b);
    }
  }

  // ---- One granule of one channel ----

  /** Its fields by the names of the standard; what a window switch leaves out, or brings, is not looked at otherwise. */
  datatype Granule = Granule(
    part23Length: nat, bigValues: nat, globalGain: nat, scalefacCompress: nat, switched: bool,
    blockType: nat, mixed: nat, tables: (nat, nat, nat), gains: (nat, nat, nat), region0: nat, region1: nat,
    preflag: nat, scale: nat, count1Table: nat)

  const ZEROS := GrInfo(0, 0, 0, 0, Long, 0, 0, 0, 0, (0, 0, 0), (0, 0, 0), (0, 0, 0), 0, 0, 0, 0)

  function HeadFields(mpeg1: bool, g: Granule): seq<Field> {
    [Field(g.part23Length, 12), Field(g.bigValues, 9), Field(g.globalGain, 8),
     Field(g.scalefacCompress, if mpeg1 then 4 else 9), Field(if g.switched then 1 else 0, 1)]
  }

  /** Both take 22 bits. */
  function WindowFields(g: Granule): seq<Field> {
    if g.switched then
      [Field(g.blockType, 2), Field(g.mixed, 1), Field(g.tables.0, 5), Field(g.tables.1, 5),
       Field(g.gains.0, 3), Field(g.gains.1, 3), Field(g.gains.2, 3)]
    else
      [Field(g.tables.0, 5), Field(g.tables.1, 5), Field(g.tables.2, 5), Field(g.region0, 4), Field(g.region1, 3)]
  }

  function TailFields(mpeg1: bool, g: Granule): seq<Field> {
    (if mpeg1 then [Field(g.preflag, 1)] else []) + [Field(g.scale, 1), Field(g.count1Table, 1)]
  }

  function Syntax(mpeg1: bool, g: Granule): seq<Field> {
    HeadFields(mpeg1, g) + (WindowFields(g) + TailFields(mpeg1, g))
  }

  /** Block type 0 is forbidden in a switched granule, and there are at most 288 pairs of big values. */
  predicate Allowed(g: Granule) {
    g.bigValues <= 288 && (g.switched ==> g.blockType != 0)
  }

  /** What the granule says of its bands: long ones, short ones, or both. */
  predicate Bands(mpeg1: bool, g: Granule, r: GrInfo) {
    if !g.switched || g.blockType != 2 then r.sfbKind == Long && r.nLongSfb == 22 && r.nShortSfb == 0
    else if g.mixed == 0 then r.sfbKind == Short && r.nLongSfb == 0 && r.nShortSfb == 39
    else r.sfbKind == Mixed && r.nLongSfb == (if mpeg1 then 8 else 6) && r.nShortSfb == 30
  }

  /** Every field is what the decoder has afterwards. */
  predicate Shows(mpeg1: bool, g: Granule, r: GrInfo) {
    && r.part23Length == g.part23Length && r.bigValues == g.bigValues && r.globalGain == g.globalGain
    && r.scalefacCompress == g.scalefacCompress && Bands(mpeg1, g, r)
    && r.scalefacScale == g.scale && r.count1Table == g.count1Table
    && r.preflag == (if mpeg1 then g.preflag else if g.scalefacCompress >= 500 then 1 else 0)
    && if g.switched then
         && r.blockType == g.blockType && r.mixedBlockFlag == g.mixed && r.tableSelect == (g.tables.0, g.tables.1, 0)
         && r.subblockGain == g.gains && r.regionCount.1 == 255
         && r.regionCount.0 == (if g.blockType == 2 && g.mixed == 0 then 8 else 7)
       else
         && r.blockType == 0 && r.mixedBlockFlag == 0 && r.tableSelect == g.tables
         && r.regionCount == (g.region0, g.region1, 255)
  }

  lemma HeadRead(buf: seq<byte>, limit: int, h: Header, at: nat, g: Granule, prior: GrInfo)
    requires limit <= 8 * |buf| && Carries(buf, limit, at, HeadFields(IsMpeg1(h), g))
    ensures Width(HeadFields(IsMpeg1(h), g)) == 30 + ScalefacBits(h) && WindowStart(h, at) == at + 30 + ScalefacBits(h)
    ensures Part23At(buf, limit, at) == g.part23Length && BigValuesAt(buf, limit, at) == g.bigValues
    ensures SwitchedAt(buf, limit, h, at) <==> g.switched
    ensures HeadAt(buf, limit, h, at, prior)
            == prior.(part23Length := g.part23Length, bigValues := g.bigValues, globalGain := g.globalGain,
                      scalefacCompress := g.scalefacCompress, sfbKind := Long, nLongSfb := 22, nShortSfb := 0)
  {
    hide Bits, Carries;
    var m := IsMpeg1(h);
    var a, b, c := Field(g.part23Length, 12), Field(g.bigValues, 9), Field(g.globalGain, 8);
    var d, e := Field(g.scalefacCompress, if m then 4 else 9), Field(if g.switched then 1 else 0, 1);
    assert HeadFields(m, g) == [a] + [b, c, d, e];
    CarriesStep(buf, limit, at, a, [b, c, d, e]);
    assert [b, c, d, e] == [b] + [c, d, e];
    CarriesStep(buf, limit, at + 12, b, [c, d, e]);
    assert [c, d, e] == [c] + [d, e];
    CarriesStep(buf, limit, at + 21, c, [d, e]);
    assert [d, e] == [d] + [e];
    CarriesStep(buf, limit, at + 29, d, [e]);
    assert [e] == [e] + [];
    CarriesStep(buf, limit, at + 29 + d.width, e, []);
    HeadWidth(m, g);
  }

  lemma HeadWidth(m: bool, g: Granule)
    ensures Width(HeadFields(m, g)) == if m then 34 else 39
  {
    var f := HeadFields(m, g);
    WidthOfFive(f);
  }

  lemma WidthOfFive(f: seq<Field>)
    requires |f| == 5
    ensures Width(f) == f[0].width + f[1].width + f[2].width + f[3].width + f[4].width
  {
    WidthStep(f);
    WidthStep(f[1..]);
    WidthStep(f[2..]);
    WidthStep(f[3..]);
    WidthStep(f[4..]);
    assert f[1..][1..] == f[2..] && f[2..][1..] == f[3..] && f[3..][1..] == f[4..] && f[4..][1..] == [];
  }

  lemma WidthStep(f: seq<Field>)
    requires f != []
    ensures Width(f) == f[0].width + Width(f[1..]) && Width([]) == 0
  {
  }

  /** The lower of two fields that are read as one. */
  lemma {:induction false} LowOfSum(a: nat, b: nat, k: nat)
    requires b < Pow2(k)
    ensures Low(a * Pow2(k) + b, k) == b
  {
    if k > 0 {
      MulTwo(a, Pow2(k - 1));
      var x := a * Pow2(k) + b;
      assert x / 2 == a * Pow2(k - 1) + b / 2 && x % 2 == b % 2;
      LowOfSum(a, b / 2, k - 1);
    }
  }

  lemma ValueLow(buf: seq<byte>, pos: nat, a: nat, b: nat)
    requires pos + a + b <= 8 * |buf|
    ensures Low(Value(buf, pos, a + b), b) == Value(buf, pos + a, b)
  {
    hide *;
    ValueConcat(buf, pos, a, b);
    ValueBound(buf, pos + a, b);
    LowOfSum(Value(buf, pos, a), Value(buf, pos + a, b), b);
  }

  lemma SwitchedRead(buf: seq<byte>, limit: int, h: Header, w: nat, g: Granule, r: GrInfo)
    requires limit <= 8 * |buf| && g.switched && Carries(buf, limit, w, WindowFields(g))
    ensures Width(WindowFields(g)) == 22
    ensures Bits(buf, limit, w, 2) == g.blockType
    ensures SwitchedPart(buf, limit, h, w, r)
            == Banded(h, g.blockType, g.mixed, r).(tableSelect := (g.tables.0, g.tables.1, 0), subblockGain := g.gains)
  {
    hide Bits, Carries, Banded, Shr, Low, Value;
    var a, b, c, d := Field(g.blockType, 2), Field(g.mixed, 1), Field(g.tables.0, 5), Field(g.tables.1, 5);
    var e, f, k := Field(g.gains.0, 3), Field(g.gains.1, 3), Field(g.gains.2, 3);
    assert WindowFields(g) == [a] + [b, c, d, e, f, k];
    CarriesStep(buf, limit, w, a, [b, c, d, e, f, k]);
    assert [b, c, d, e, f, k] == [b] + [c, d, e, f, k];
    CarriesStep(buf, limit, w + 2, b, [c, d, e, f, k]);
    assert [c, d, e, f, k] == [c] + [d, e, f, k];
    CarriesStep(buf, limit, w + 3, c, [d, e, f, k]);
    assert [d, e, f, k] == [d] + [e, f, k];
    CarriesStep(buf, limit, w + 8, d, [e, f, k]);
    assert [e, f, k] == [e] + [f, k];
    CarriesStep(buf, limit, w + 13, e, [f, k]);
    assert [f, k] == [f] + [k];
    CarriesStep(buf, limit, w + 16, f, [k]);
    assert [k] == [k] + [];
    CarriesStep(buf, limit, w + 19, k, []);
    TwoTables(buf, limit, w + 3);
    WindowWidth(g);
  }

  lemma WindowWidth(g: Granule)
    ensures Width(WindowFields(g)) == 22
  {
    var f := WindowFields(g);
    if g.switched {
      WidthStep(f);
      WidthStep(f[1..]);
      assert f[1..][1..] == f[2..];
      WidthOfFive(f[2..]);
    } else {
      WidthOfFive(f);
    }
  }

  lemma TwoTables(buf: seq<byte>, limit: int, p: nat)
    requires p + 10 <= limit <= 8 * |buf|
    ensures var x := Bits(buf, limit, p, 10);
            Shr(x, 5) == Bits(buf, limit, p, 5) && Low(x, 5) == Bits(buf, limit, p + 5, 5)
  {
    hide *;
    BitsIs(buf, limit, p, 10);
    BitsIs(buf, limit, p, 5);
    BitsIs(buf, limit, p + 5, 5);
    ValueShr(buf, p, 5, 5);
    ValueLow(buf, p, 5, 5);
  }

  lemma ThreeTables(buf: seq<byte>, limit: int, p: nat)
    requires p + 15 <= limit <= 8 * |buf|
    ensures var x := Bits(buf, limit, p, 15);
            && Shr(x, 10) == Bits(buf, limit, p, 5) && Low(Shr(x, 5), 5) == Bits(buf, limit, p + 5, 5)
            && Low(x, 5) == Bits(buf, limit, p + 10, 5)
  {
    hide *;
    TwoTables(buf, limit, p);
    BitsIs(buf, limit, p, 15);
    BitsIs(buf, limit, p, 10);
    BitsIs(buf, limit, p, 5);
    BitsIs(buf, limit, p + 10, 5);
    ValueShr(buf, p, 5, 10);
    ValueShr(buf, p, 10, 5);
    ValueLow(buf, p, 10, 5);
  }

  lemma PlainRead(buf: seq<byte>, limit: int, h: Header, w: nat, g: Granule, r: GrInfo)
    requires limit <= 8 * |buf| && !g.switched && Carries(buf, limit, w, WindowFields(g))
    ensures Width(WindowFields(g)) == 22
    ensures PlainPart(buf, limit, h, w, r)
            == r.(blockType := 0, mixedBlockFlag := 0, tableSelect := g.tables,
                  regionCount := (g.region0, g.region1, 255))
  {
    hide Bits, Carries, Shr, Low, Value;
    var a, b, c := Field(g.tables.0, 5), Field(g.tables.1, 5), Field(g.tables.2, 5);
    var d, e := Field(g.region0, 4), Field(g.region1, 3);
    assert WindowFields(g) == [a] + [b, c, d, e];
    CarriesStep(buf, limit, w, a, [b, c, d, e]);
    assert [b, c, d, e] == [b] + [c, d, e];
    CarriesStep(buf, limit, w + 5, b, [c, d, e]);
    assert [c, d, e] == [c] + [d, e];
    CarriesStep(buf, limit, w + 10, c, [d, e]);
    assert [d, e] == [d] + [e];
    CarriesStep(buf, limit, w + 15, d, [e]);
    assert [e] == [e] + [];
    CarriesStep(buf, limit, w + 19, e, []);
    ThreeTables(buf, limit, w);
    WindowWidth(g);
  }

  lemma TailRead(buf: seq<byte>, limit: int, h: Header, e: nat, g: Granule, r: GrInfo)
    requires limit <= 8 * |buf| && Carries(buf, limit, e, TailFields(IsMpeg1(h), g))
    requires r.scalefacCompress == g.scalefacCompress
    ensures TailPart(buf, limit, h, e, r)
            == r.(preflag := if IsMpeg1(h) then g.preflag else if g.scalefacCompress >= 500 then 1 else 0,
                  scalefacScale := g.scale, count1Table := g.count1Table)
  {
    hide Bits, Carries;
    var a, b, c := Field(g.preflag, 1), Field(g.scale, 1), Field(g.count1Table, 1);
    assert [b, c] == [b] + [c] && [c] == [c] + [];
    if IsMpeg1(h) {
      CarriesStep(buf, limit, e, a, [b, c]);
      CarriesStep(buf, limit, e + 1, b, [c]);
      CarriesStep(buf, limit, e + 2, c, []);
    } else {
      assert [] + [b, c] == [b, c];
      CarriesStep(buf, limit, e, b, [c]);
      CarriesStep(buf, limit, e + 1, c, []);
    }
  }

  /** The fields of a granule are what is read of it; and it is rejected exactly when one of them is not allowed. */
  lemma GranuleBack(buf: seq<byte>, limit: int, h: Header, at: nat, g: Granule, prior: GrInfo)
    requires limit <= 8 * |buf| && Carries(buf, limit, at, Syntax(IsMpeg1(h), g))
    ensures Shows(IsMpeg1(h), g, GranuleAt(buf, limit, h, at, prior))
    ensures Rejected(buf, limit, h, at) <==> !Allowed(g)
  {
    hide *;
    var m := IsMpeg1(h);
    SyntaxIs(m, g);
    CarriesSplit(buf, limit, at, HeadFields(m, g), WindowFields(g) + TailFields(m, g));
    HeadRead(buf, limit, h, at, g, prior);
    var w := WindowStart(h, at);
    CarriesSplit(buf, limit, w, WindowFields(g), TailFields(m, g));
    WindowWidth(g);
    var r := HeadAt(buf, limit, h, at, prior);
    if g.switched {
      SwitchedRead(buf, limit, h, w, g, r);
      BandedIs(h, g, r);
      TailRead(buf, limit, h, w + 22, g, SwitchedPart(buf, limit, h, w, r));
    } else {
      PlainRead(buf, limit, h, w, g, r);
      TailRead(buf, limit, h, w + 22, g, PlainPart(buf, limit, h, w, r));
    }
    GranuleIs(buf, limit, h, at, prior);
    ShowsIs(m, g, GranuleAt(buf, limit, h, at, prior));
  }

  lemma SyntaxIs(m: bool, g: Granule)
    ensures Syntax(m, g) == HeadFields(m, g) + (WindowFields(g) + TailFields(m, g))
  {
  }

  lemma BandedIs(h: Header, g: Granule, r: GrInfo)
    requires r.sfbKind == Long && r.nLongSfb == 22 && r.nShortSfb == 0 && g.switched
    ensures var b := Banded(h, g.blockType, g.mixed, r);
            && Bands(IsMpeg1(h), g, b) && b.blockType == g.blockType && b.mixedBlockFlag == g.mixed
            && b.regionCount.1 == 255 && b.regionCount.0 == (if g.blockType == 2 && g.mixed == 0 then 8 else 7)
            && b.part23Length == r.part23Length && b.bigValues == r.bigValues && b.globalGain == r.globalGain
            && b.scalefacCompress == r.scalefacCompress
  {
  }

  lemma GranuleIs(buf: seq<byte>, limit: int, h: Header, at: nat, prior: GrInfo)
    requires limit <= 8 * |buf|
    ensures var r, w := HeadAt(buf, limit, h, at, prior), WindowStart(h, at);
            GranuleAt(buf, limit, h, at, prior)
            == TailPart(buf, limit, h, w + 22, if SwitchedAt(buf, limit, h, at) then SwitchedPart(buf, limit, h, w, r)
                                               else PlainPart(buf, limit, h, w, r))
    ensures BlockTypeAt(buf, limit, h, at) == Bits(buf, limit, WindowStart(h, at), 2)
    ensures Rejected(buf, limit, h, at)
            <==> BigValuesAt(buf, limit, at) > 288
                 || (SwitchedAt(buf, limit, h, at) && BlockTypeAt(buf, limit, h, at) == 0)
  {
    hide Bits, HeadAt, WindowStart, TailPart, SwitchedAt, SwitchedPart, PlainPart, BigValuesAt;
  }

  lemma ShowsIs(m: bool, g: Granule, r: GrInfo)
    ensures Allowed(g) <==> g.bigValues <= 288 && (g.switched ==> g.blockType != 0)
    ensures !g.switched ==> (Bands(m, g, r) <==> r.sfbKind == Long && r.nLongSfb == 22 && r.nShortSfb == 0)
    ensures forall b: GrInfo :: b.sfbKind == r.sfbKind && b.nLongSfb == r.nLongSfb && b.nShortSfb == r.nShortSfb ==>
              (Bands(m, g, b) <==> Bands(m, g, r))
    ensures Shows(m, g, r)
            <==> && r.part23Length == g.part23Length && r.bigValues == g.bigValues && r.globalGain == g.globalGain
                 && r.scalefacCompress == g.scalefacCompress && Bands(m, g, r)
                 && r.scalefacScale == g.scale && r.count1Table == g.count1Table
                 && r.preflag == (if m then g.preflag else if g.scalefacCompress >= 500 then 1 else 0)
                 && if g.switched then
                      && r.blockType == g.blockType && r.mixedBlockFlag == g.mixed
                      && r.tableSelect == (g.tables.0, g.tables.1, 0) && r.subblockGain == g.gains
                      && r.regionCount.1 == 255
                      && r.regionCount.0 == (if g.blockType == 2 && g.mixed == 0 then 8 else 7)
                    else
                      && r.blockType == 0 && r.mixedBlockFlag == 0 && r.tableSelect == g.tables
                      && r.regionCount == (g.region0, g.region1, 255)
  {
  }

  // ---- What comes before the granules ----

  /** main_data_begin, the private bits, and in MPEG-1 four scfsi bits a channel. */
  function LeadFields(mpeg1: bool, mono: bool, mainDataBegin: nat, priv: nat, scfsi: nat): seq<Field> {
    if mpeg1 then
      [Field(mainDataBegin, 9), Field(priv, if mono then 5 else 3), Field(scfsi, if mono then 4 else 8)]
    else [Field(mainDataBegin, 8), Field(priv, if mono then 1 else 2)]
  }

  lemma LeadRead(buf: seq<byte>, limit: int, h: Header, at: nat, mainDataBegin: nat, priv: nat, scfsi: nat)
    requires limit <= 8 * |buf|
    requires Carries(buf, limit, at, LeadFields(IsMpeg1(h), IsMono(h), mainDataBegin, priv, scfsi))
    ensures MainDataBegin(buf, limit, h, at) == mainDataBegin
    ensures GranuleStart(h, at, 0) == at + Width(LeadFields(IsMpeg1(h), IsMono(h), mainDataBegin, priv, scfsi))
    ensures IsMpeg1(h) ==>
              var m := if IsMono(h) then 16 else 256; ScfsiField(buf, limit, h, at) == priv * m + scfsi && scfsi < m
  {
    hide Bits, Carries, Shr, Low, Value;
    var mono := IsMono(h);
    if IsMpeg1(h) {
      var a, b := Field(mainDataBegin, 9), Field(priv, if mono then 5 else 3);
      var c := Field(scfsi, if mono then 4 else 8);
      assert [a, b, c] == [a] + [b, c] && [b, c] == [b] + [c] && [c] == [c] + [];
      CarriesStep(buf, limit, at, a, [b, c]);
      CarriesStep(buf, limit, at + 9, b, [c]);
      CarriesStep(buf, limit, at + 9 + b.width, c, []);
      JoinedBits(buf, limit, at + 9, b.width, c.width);
      BitsIs(buf, limit, at + 9 + b.width, c.width);
      ValueBound(buf, at + 9 + b.width, c.width);
      WidthStep([a, b, c]);
      WidthStep([b, c]);
      WidthStep([c]);
      assert [a, b, c][1..] == [b, c] && [b, c][1..] == [c];
      SmallPowers();
    } else {
      var a, b := Field(mainDataBegin, 8), Field(priv, if mono then 1 else 2);
      assert [a, b] == [a] + [b] && [b] == [b] + [];
      CarriesStep(buf, limit, at, a, [b]);
      CarriesStep(buf, limit, at + 8, b, []);
      TopBits(buf, limit, at, 8, b.width);
      WidthStep([a, b]);
      WidthStep([b]);
      assert [a, b][1..] == [b];
    }
  }

  lemma SmallPowers()
    ensures Pow2(4) == 16 && Pow2(8) == 256
  {
    Pow2Small();
  }

  lemma JoinedBits(buf: seq<byte>, limit: int, p: nat, a: nat, b: nat)
    requires p + a + b <= limit <= 8 * |buf|
    ensures Bits(buf, limit, p, a + b) == Bits(buf, limit, p, a) * Pow2(b) + Bits(buf, limit, p + a, b)
  {
    hide *;
    BitsIs(buf, limit, p, a + b);
    BitsIs(buf, limit, p, a);
    BitsIs(buf, limit, p + a, b);
    ValueConcat(buf, p, a, b);
  }

  lemma TopBits(buf: seq<byte>, limit: int, p: nat, a: nat, b: nat)
    requires p + a + b <= limit <= 8 * |buf|
    ensures Shr(Bits(buf, limit, p, a + b), b) == Bits(buf, limit, p, a)
  {
    hide *;
    BitsIs(buf, limit, p, a + b);
    BitsIs(buf, limit, p, a);
    ValueShr(buf, p, a, b);
  }

  /** And each granule stands where the one before it ends: 59 bits on in MPEG-1, 63 otherwise. */
  lemma GranulesFollow(h: Header, at: nat, k: nat, g: Granule)
    ensures GranuleStart(h, at, k + 1) == GranuleStart(h, at, k) + Width(Syntax(IsMpeg1(h), g))
    ensures Width(Syntax(IsMpeg1(h), g)) == if IsMpeg1(h) then 59 else 63
  {
    hide *;
    var m := IsMpeg1(h);
    SyntaxIs(m, g);
    WidthOfBoth(HeadFields(m, g), WindowFields(g) + TailFields(m, g));
    WidthOfBoth(WindowFields(g), TailFields(m, g));
    HeadWidth(m, g);
    WindowWidth(g);
    TailWidth(m, g);
    GranuleStartStep(h, at, k);
    GranuleBitsAre(h);
  }

  lemma GranuleBitsAre(h: Header)
    ensures GranuleBits(h) == if IsMpeg1(h) then 59 else 63
  {
  }

  lemma TailWidth(m: bool, g: Granule)
    ensures Width(TailFields(m, g)) == if m then 3 else 2
  {
    var f := TailFields(m, g);
    WidthStep(f);
    WidthStep(f[1..]);
    if m {
      WidthStep(f[2..]);
      assert f[1..][1..] == f[2..] && f[2..][1..] == [];
    } else {
      assert f[1..][1..] == [];
    }
  }

  lemma {:induction false} WidthOfBoth(a: seq<Field>, b: seq<Field>)
    ensures Width(a + b) == Width(a) + Width(b)
  {
    if a == [] {
      assert a + b == b;
    } else {
      assert (a + b)[1..] == a[1..] + b;
      WidthOfBoth(a[1..], b);
    }
  }

  // ---- All of it ----

  function GranulesFields(mpeg1: bool, gs: seq<Granule>): seq<Field> {
    if gs == [] then [] else Syntax(mpeg1, gs[0]) + GranulesFields(mpeg1, gs[1..])
  }

  lemma {:induction false} GranuleCarried(buf: seq<byte>, limit: int, h: Header, at: nat, from: nat, gs: seq<Granule>,
                                          k: nat)
    requires limit <= 8 * |buf| && from <= k < from + |gs|
    requires Carries(buf, limit, GranuleStart(h, at, from), GranulesFields(IsMpeg1(h), gs))
    ensures Carries(buf, limit, GranuleStart(h, at, k), Syntax(IsMpeg1(h), gs[k - from]))
    decreases |gs|
  {
    hide *;
    var m := IsMpeg1(h);
    GranulesStep(m, gs);
    CarriesSplit(buf, limit, GranuleStart(h, at, from), Syntax(m, gs[0]), GranulesFields(m, gs[1..]));
    GranulesFollow(h, at, from, gs[0]);
    if k > from {
      GranuleCarried(buf, limit, h, at, from + 1, gs[1..], k);
    }
  }

  lemma GranulesStep(m: bool, gs: seq<Granule>)
    requires gs != []
    ensures GranulesFields(m, gs) == Syntax(m, gs[0]) + GranulesFields(m, gs[1..])
  {
  }

  /**
   A side info that is laid out by the standard, for any fields: what is kept of each granule are its fields, and the
   side info is invalid if and only if one is not allowed, or they claim more main data than there are.
   */
  lemma SideInfoBack(buf: seq<byte>, limit: int, h: Header, at: nat, mainDataBegin: nat, priv: nat, scfsi: nat,
                     gs: seq<Granule>)
    requires limit <= 8 * |buf| && |gs| == Granules(h)
    requires Carries(buf, limit, at, LeadFields(IsMpeg1(h), IsMono(h), mainDataBegin, priv, scfsi)
                                     + GranulesFields(IsMpeg1(h), gs))
    ensures MainDataBegin(buf, limit, h, at) == mainDataBegin
    ensures forall k, prior :: 0 <= k < |gs| ==> Shows(IsMpeg1(h), gs[k], GrInfoOf(buf, limit, h, at, k, prior))
    ensures Invalid(buf, limit, h, at)
            <==> (exists k :: 0 <= k < |gs| && !Allowed(gs[k]))
                 || Claim(gs, |gs|) + at + 8 * SideInfoBytes(h) > limit + 8 * mainDataBegin
  {
    hide *;
    var lead := LeadFields(IsMpeg1(h), IsMono(h), mainDataBegin, priv, scfsi);
    CarriesSplit(buf, limit, at, lead, GranulesFields(IsMpeg1(h), gs));
    LeadRead(buf, limit, h, at, mainDataBegin, priv, scfsi);
    forall k, prior | 0 <= k < |gs|
      ensures Shows(IsMpeg1(h), gs[k], GrInfoOf(buf, limit, h, at, k, prior))
      ensures Rejected(buf, limit, h, GranuleStart(h, at, k)) <==> !Allowed(gs[k])
    {
      GranuleCarried(buf, limit, h, at, 0, gs, k);
      GranuleBack(buf, limit, h, GranuleStart(h, at, k), gs[k], prior);
      WithScfsi(buf, limit, h, at, k, prior, gs[k]);
    }
    forall k | 0 <= k < |gs| ensures Rejected(buf, limit, h, GranuleStart(h, at, k)) <==> !Allowed(gs[k]) {
      GranuleCarried(buf, limit, h, at, 0, gs, k);
      GranuleBack(buf, limit, h, GranuleStart(h, at, k), gs[k], ZEROS);
    }
    ClaimIs(buf, limit, h, at, gs, |gs|);
    InvalidWhen(buf, limit, h, at);
  }

  /** The bits of main data that the first `n` granules claim. */
  function Claim(gs: seq<Granule>, n: nat): nat
    requires n <= |gs|
  {
    if n == 0 then 0 else Claim(gs, n - 1) + gs[n - 1].part23Length
  }

  lemma {:induction false} ClaimIs(buf: seq<byte>, limit: int, h: Header, at: nat, gs: seq<Granule>, n: nat)
    requires limit <= 8 * |buf| && n <= |gs|
    requires Carries(buf, limit, GranuleStart(h, at, 0), GranulesFields(IsMpeg1(h), gs))
    ensures Part23Sum(buf, limit, h, at, n) == Claim(gs, n)
  {
    hide *;
    ClaimStep(buf, limit, h, at, gs, n);
    if n > 0 {
      ClaimIs(buf, limit, h, at, gs, n - 1);
      GranuleCarried(buf, limit, h, at, 0, gs, n - 1);
      var g := gs[n - 1];
      SyntaxIs(IsMpeg1(h), g);
      var p := GranuleStart(h, at, n - 1);
      CarriesSplit(buf, limit, p, HeadFields(IsMpeg1(h), g), WindowFields(g) + TailFields(IsMpeg1(h), g));
      HeadRead(buf, limit, h, p, g, ZEROS);
    }
  }

  lemma ClaimStep(buf: seq<byte>, limit: int, h: Header, at: nat, gs: seq<Granule>, n: nat)
    requires limit <= 8 * |buf| && n <= |gs|
    ensures n == 0 ==> Part23Sum(buf, limit, h, at, n) == 0 == Claim(gs, n)
    ensures n > 0 ==>
              && Part23Sum(buf, limit, h, at, n)
                 == Part23Sum(buf, limit, h, at, n - 1) + Part23At(buf, limit, GranuleStart(h, at, n - 1))
              && Claim(gs, n) == Claim(gs, n - 1) + gs[n - 1].part23Length
  {
    hide Part23At, GranuleStart;
  }

  lemma InvalidWhen(buf: seq<byte>, limit: int, h: Header, at: nat)
    requires limit <= 8 * |buf|
    ensures Invalid(buf, limit, h, at)
            <==> (exists k :: 0 <= k < Granules(h) && Rejected(buf, limit, h, GranuleStart(h, at, k)))
                 || Part23Sum(buf, limit, h, at, Granules(h)) + at + 8 * SideInfoBytes(h)
                    > limit + 8 * MainDataBegin(buf, limit, h, at)
  {
    hide Granules, Rejected, GranuleStart, Part23Sum, SideInfoBytes, MainDataBegin;
  }

  lemma WithScfsi(buf: seq<byte>, limit: int, h: Header, at: nat, k: nat, prior: GrInfo, g: Granule)
    requires limit <= 8 * |buf|
    requires Shows(IsMpeg1(h), g, GranuleAt(buf, limit, h, GranuleStart(h, at, k), prior))
    ensures Shows(IsMpeg1(h), g, GrInfoOf(buf, limit, h, at, k, prior))
  {
    hide GranuleAt, ScfsiAt, GranuleStart;
  }

  predicate ShortBlocks(g: Granule) { g.switched && g.blockType == 2 }

  /**
   Which scfsi flags each granule ends up with, when the fields are laid out by the standard: the second of a channel
   those of its channel, and the first none, except for private bits. Short blocks have none, and leave none.
   */
  lemma ScfsiBack(buf: seq<byte>, limit: int, h: Header, at: nat, mainDataBegin: nat, priv: nat, scfsi: nat,
                  gs: seq<Granule>, prior: GrInfo)
    requires limit <= 8 * |buf| && |gs| == Granules(h) && IsMpeg1(h)
    requires Carries(buf, limit, at, LeadFields(true, IsMono(h), mainDataBegin, priv, scfsi) + GranulesFields(true, gs))
    ensures IsMono(h) ==>
              && |gs| == 2
              && GrInfoOf(buf, limit, h, at, 0, prior).scfsi == (if ShortBlocks(gs[0]) then 0 else priv / 16)
              && GrInfoOf(buf, limit, h, at, 1, prior).scfsi
                 == (if ShortBlocks(gs[0]) || ShortBlocks(gs[1]) then 0 else scfsi)
    ensures !IsMono(h) ==>
              && |gs| == 4
              && GrInfoOf(buf, limit, h, at, 0, prior).scfsi == 0
              && GrInfoOf(buf, limit, h, at, 1, prior).scfsi == (if ShortBlocks(gs[1]) then 0 else priv)
              && GrInfoOf(buf, limit, h, at, 2, prior).scfsi
                 == (if ShortBlocks(gs[0]) || ShortBlocks(gs[2]) then 0 else scfsi / 16)
              && GrInfoOf(buf, limit, h, at, 3, prior).scfsi
                 == (if ShortBlocks(gs[1]) || ShortBlocks(gs[3]) then 0 else scfsi % 16)
  {
    hide *;
    var lead := LeadFields(true, IsMono(h), mainDataBegin, priv, scfsi);
    CarriesSplit(buf, limit, at, lead, GranulesFields(true, gs));
    LeadRead(buf, limit, h, at, mainDataBegin, priv, scfsi);
    GranulesOf(h);
    forall k: nat | k < |gs| ensures IsShort(buf, limit, h, at, k) <==> ShortBlocks(gs[k]) {
      GranuleCarried(buf, limit, h, at, 0, gs, k);
      ShortBack(buf, limit, h, at, k, gs[k]);
    }
    PartsOf(h, priv, scfsi);
    ScfsiOf(buf, limit, h, at, 0, prior);
    ScfsiOf(buf, limit, h, at, 1, prior);
    ScfsiOf(buf, limit, h, at, 2, prior);
    ScfsiOf(buf, limit, h, at, 3, prior);
    if IsMono(h) {
      ScfsiMono(buf, limit, h, at);
    } else {
      ScfsiStereo(buf, limit, h, at, ShortBlocks(gs[0]), ShortBlocks(gs[1]), ShortBlocks(gs[2]), ShortBlocks(gs[3]));
    }
  }

  lemma GranulesOf(h: Header)
    ensures IsMpeg1(h) ==> Granules(h) == if IsMono(h) then 2 else 4
  {
  }

  lemma ShortBack(buf: seq<byte>, limit: int, h: Header, at: nat, k: nat, g: Granule)
    requires limit <= 8 * |buf| && Carries(buf, limit, GranuleStart(h, at, k), Syntax(IsMpeg1(h), g))
    ensures IsShort(buf, limit, h, at, k) <==> ShortBlocks(g)
  {
    hide *;
    var m, p := IsMpeg1(h), GranuleStart(h, at, k);
    SyntaxIs(m, g);
    CarriesSplit(buf, limit, p, HeadFields(m, g), WindowFields(g) + TailFields(m, g));
    HeadRead(buf, limit, h, p, g, ZEROS);
    var w := WindowStart(h, p);
    CarriesSplit(buf, limit, w, WindowFields(g), TailFields(m, g));
    if g.switched {
      SwitchedRead(buf, limit, h, w, g, ZEROS);
    }
    ShortIs(buf, limit, h, at, k, g);
  }

  lemma ShortIs(buf: seq<byte>, limit: int, h: Header, at: nat, k: nat, g: Granule)
    requires limit <= 8 * |buf|
    ensures var p := GranuleStart(h, at, k);
            IsShort(buf, limit, h, at, k)
            <==> SwitchedAt(buf, limit, h, p) && Bits(buf, limit, WindowStart(h, p), 2) == 2
    ensures ShortBlocks(g) <==> g.switched && g.blockType == 2
  {
    hide Bits, SwitchedAt, GranuleStart, WindowStart;
  }

  lemma PartsOf(h: Header, priv: nat, scfsi: nat)
    ensures IsMono(h) && scfsi < 16 ==>
              Private(priv * 16 + scfsi, h) == priv && FlagsOf(priv * 16 + scfsi, h, 0) == scfsi
    ensures !IsMono(h) && scfsi < 256 ==>
              var f := priv * 256 + scfsi;
              Private(f, h) == priv && FlagsOf(f, h, 0) == scfsi / 16 && FlagsOf(f, h, 1) == scfsi % 16
  {
    hide *;
    FlagsAre(h, priv * 16 + scfsi);
    FlagsAre(h, priv * 256 + scfsi);
    if scfsi < 16 {
      Sixteens(priv, scfsi);
    }
    if scfsi < 256 {
      Bytewise(priv, scfsi);
    }
  }

  lemma FlagsAre(h: Header, f: nat)
    ensures IsMono(h) ==> Private(f, h) == f / 16 && FlagsOf(f, h, 0) == f % 16
    ensures !IsMono(h) ==> Private(f, h) == f / 256 && FlagsOf(f, h, 0) == f / 16 % 16 && FlagsOf(f, h, 1) == f % 16
  {
    hide IsMono;
  }

  lemma Sixteens(a: nat, b: nat)
    requires b < 16
    ensures (a * 16 + b) / 16 == a && (a * 16 + b) % 16 == b
  {
  }

  lemma Bytewise(a: nat, b: nat)
    requires b < 256
    ensures var f := a * 256 + b; f / 256 == a && f / 16 % 16 == b / 16 && f % 16 == b % 16
  {
    assert (a * 256 + b) / 16 == a * 16 + b / 16;
    Sixteens(a, b / 16);
  }

  lemma ScfsiOf(buf: seq<byte>, limit: int, h: Header, at: nat, k: nat, prior: GrInfo)
    requires limit <= 8 * |buf|
    ensures GrInfoOf(buf, limit, h, at, k, prior).scfsi == ScfsiAt(buf, limit, h, at, k)
  {
    hide GranuleAt, ScfsiAt, GranuleStart;
  }
}
