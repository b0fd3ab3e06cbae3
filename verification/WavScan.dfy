/**
 What dr_wav's `drwav_init__internal` finds in a memory image, as functions of the image: the
 container, the chunks in whatever order they come, and the metadata of the second pass. Containers
 with little-endian chunk sizes are covered: RIFF, Wave64 and RF64.

 Both passes are walks over the image. A seek goes by an int, sums of sizes wrap at 2^64, and the cursor
 that the reader keeps need not be the position in the stream; so a walk can go back, and need not end.
 */
module WavScan {
  import opened Bytes
  import P = PcmFrames
  import opened Walks
  import opened WavMetadata
  import opened WavMetadataParser
  import opened WavFormat

  const MAX_SAMPLE_RATE := 384000
  const MAX_CHANNELS := 256
  const MAX_BITS_PER_SAMPLE := 64

  // ---- The start of the file ----

  /** What comes before the chunks: the position of the first, and for RF64 what its ds64 chunk says. */
  datatype Lead = NoLead | Lead(container: Container, at: nat, dataSize: nat, sampleCount: nat)

  function ReadLead(img: seq<byte>): (lead: Lead)
    ensures lead.Lead? ==> lead.at <= |img| && Supported(lead.container)
  {
    if |img| < 4 then NoLead
    else if img[0..4] == RIFF_ID then
      if |img| >= 12 && img[8..12] == WAVE_ID then Lead(Riff, 12, 0, 0) else NoLead
    else if img[0..4] == GUID_RIFF[..4] then
      if |img| >= 40 && img[4..16] == GUID_RIFF[4..] && GetU64(img, 16) >= 80 && img[24..40] == GUID_WAVE
      then Lead(W64, 40, 0, 0) else NoLead
    else if img[0..4] == RF64_ID then
      if |img| >= 12 && GetU32(img, 4) == 0xFFFF_FFFF && img[8..12] == WAVE_ID then ReadDs64(img) else NoLead
    else NoLead
  }

  function ReadDs64(img: seq<byte>): (lead: Lead)
    requires |img| >= 12
    ensures lead.Lead? ==> lead.at <= |img| && Supported(lead.container)
  {
    if |img| < 20 || img[12..16] != DS64_ID then NoLead
    else
      var size := GetU32(img, 16);
      if |img| < 44 then NoLead
      else if size + size % 2 < 24 || 20 + size + size % 2 > |img| then NoLead
      else Lead(Rf64, 20 + size + size % 2, GetU64(img, 28), GetU64(img, 36))
  }

  // ---- Chunks ----

  /** A chunk header: its id (the first four bytes of a GUID), its size and padding, where its body is. */
  datatype Header = NoHeader | Header(id: seq<byte>, size: nat, padding: nat, body: nat)

  /** drwav__read_chunk_header. */
  function ReadHeader(img: seq<byte>, p: nat, c: Container): (h: Header)
    ensures h.Header? ==> p < h.body <= |img|
  {
    if c.W64? then
      if p + 24 > |img| then NoHeader
      else
        var size := To64(GetU64(img, p + 16) - 24);
        Header(img[p..p + 16], size, size % 8, p + 24)
    else if p + 8 > |img| then NoHeader
    else
      var size := GetU32(img, p + 4);
      Header(img[p..p + 4], size, size % 2, p + 8)
  }

  function FmtId(c: Container): seq<byte> { if c.W64? then GUID_FMT else FMT }
  function DataId(c: Container): seq<byte> { if c.W64? then GUID_DATA else DATA }
  function FactId(c: Container): seq<byte> { if c.W64? then GUID_FACT else FACT }

  /** `slip` is how far the reader's cursor gets ahead of the position, modulo 2^64. */
  datatype FmtRead = BadFmt | FmtRead(fmt: Fmt, after: nat, slip: u64)

  /** The sixteen bytes that every fmt chunk has. */
  function BasicFmt(img: seq<byte>, p: nat): Fmt
    requires p + 16 <= |img|
  {
    NO_FMT.(formatTag := GetU16(img, p), channels := GetU16(img, p + 2), sampleRate := GetU32(img, p + 4),
            avgBytesPerSec := GetU32(img, p + 8), blockAlign := GetU16(img, p + 12), bitsPerSample := GetU16(img, p + 14))
  }

  /** A fmt chunk of this size, its body at `p`. */
  function ReadFmt(img: seq<byte>, p: nat, size: nat): (r: FmtRead)
    requires p <= |img|
    ensures r.FmtRead? ==> r.after <= |img|
  {
    if p + 16 > |img| then BadFmt
    else if size <= 16 then FmtRead(BasicFmt(img, p), p + 16, 0)
    else if p + 18 > |img| then BadFmt
    else
      var fmt := BasicFmt(img, p).(extendedSize := GetU16(img, p + 16));
      var extended: nat := fmt.extendedSize;
      if extended > 0 && fmt.formatTag == FORMAT_EXTENSIBLE && extended != 22 then BadFmt
      else if p + 18 + extended > |img| then BadFmt
      else if extended > 0 && fmt.formatTag == FORMAT_EXTENSIBLE then
        PastFmt(img, p + 18 + extended, size - 18 - extended,
                fmt.(validBitsPerSample := GetU16(img, p + 18), channelMask := GetU32(img, p + 20),
                     subFormat := img[p + 24..p + 40]))
      else PastFmt(img, p + 18 + extended, size - 18 - extended, fmt)
  }

  /** The seek past what is left of a fmt chunk goes by an int, the cursor by 64 bits. */
  function PastFmt(img: seq<byte>, p: nat, left: int, fmt: Fmt): (r: FmtRead)
    requires p <= |img|
    ensures r.FmtRead? ==> r.after <= |img|
  {
    var to := p + Int32(left);
    if 0 <= to <= |img| then FmtRead(fmt, to, To64(left - Int32(left))) else BadFmt
  }

  /** What the loop over the chunks has found so far; `drift` is the reader's cursor less the position. */
  datatype Scan = Scan(foundFmt: bool, fmt: Fmt, foundData: bool, dataPos: nat, dataSize: nat, factCount: nat,
                       metadataCount: nat, drift: u64)

  /** The reader's cursor; an image is shorter than 2^64 bytes. */
  function CursorAt(pos: nat, drift: u64): nat {
    if drift == 0 then pos else To64(pos + drift)
  }

  /** A turn of the loop: it fails, is the last, or the next chunk is at `at`. */
  datatype Turn = Fails | Ends(scan: Scan) | GoesOn(scan: Scan, at: nat)

  /** Forward by so many bytes, if the image reaches that far. */
  function Skip(img: seq<byte>, p: nat, n: nat, s: Scan): (t: Turn)
    ensures t.GoesOn? ==> t.at <= |img|
  {
    if p + n > |img| then Ends(s) else GoesOn(s, p + n)
  }

  function FmtTurn(img: seq<byte>, h: Header, s: Scan): (t: Turn)
    requires h.Header? && h.body <= |img|
    ensures t.GoesOn? ==> t.at <= |img|
  {
    var r := ReadFmt(img, h.body, h.size);
    if r.BadFmt? then Fails
    else Skip(img, r.after, h.padding, s.(foundFmt := true, fmt := r.fmt, drift := To64(s.drift + r.slip)))
  }

  function DataTurn(img: seq<byte>, c: Container, withMetadata: bool, h: Header, s: Scan): (t: Turn)
    requires h.Header?
    ensures t.GoesOn? ==> t.at <= |img|
  {
    var s' := s.(foundData := true, dataPos := CursorAt(h.body, s.drift),
                 dataSize := if c.Rf64? then s.dataSize else h.size);
    if withMetadata then Skip(img, h.body, To64(h.size + h.padding), s') else Ends(s')
  }

  /** How much of a fact chunk is read. */
  function FactBytes(c: Container): nat { if c.Riff? then 4 else if c.W64? then 8 else 0 }

  /** The sample count of a fact chunk is used in Wave64 only: for RIFF the format is not known yet. */
  function FactTurn(img: seq<byte>, c: Container, h: Header, s: Scan): (t: Turn)
    requires h.Header? && h.body <= |img|
    ensures t.GoesOn? ==> t.at <= |img|
  {
    var need := FactBytes(c);
    if h.body + need > |img| then Fails
    else
      Skip(img, h.body + need, To64(h.size - need + h.padding),
           if c.Riff? then s.(factCount := 0) else if c.W64? then s.(factCount := GetU64(img, h.body)) else s)
  }

  /** Any other chunk; after its metadata were counted, the reader goes to where its cursor says the chunk is. */
  function OtherTurn(img: seq<byte>, withMetadata: bool, h: Header, s: Scan): (t: Turn)
    requires h.Header? && h.body <= |img|
    ensures t.GoesOn? ==> t.at <= |img|
  {
    var n := To64(h.size + h.padding);
    if withMetadata && |h.id| == 4 then
      var s' := s.(metadataCount := s.metadataCount + CountChunk(img, h.body, h.id, h.size));
      var p := CursorAt(h.body, s.drift);
      if p > |img| then Ends(s') else Skip(img, p, n, s'.(drift := 0))
    else Skip(img, h.body, n, s)
  }

  function ScanTurn(img: seq<byte>, c: Container, withMetadata: bool, h: Header, s: Scan): (t: Turn)
    requires h.Header? && h.body <= |img|
    ensures t.GoesOn? ==> t.at <= |img|
  {
    if h.id == FmtId(c) then FmtTurn(img, h, s)
    else if h.id == DataId(c) then DataTurn(img, c, withMetadata, h, s)
    else if h.id == FactId(c) then FactTurn(img, c, h, s)
    else OtherTurn(img, withMetadata, h, s)
  }

  // ---- The walk over the chunks ----

  /** All that the way on depends on: the position, and how far the cursor is from it. */
  datatype Spot = Spot(at: nat, drift: u64)

  const BLANK := Scan(false, NO_FMT, false, 0, 0, 0, 0, 0)

  function NextSpot(img: seq<byte>, c: Container, withMetadata: bool, x: Spot): Move<Spot> {
    var h := ReadHeader(img, x.at, c);
    if h.NoHeader? then Stop
    else
      match ScanTurn(img, c, withMetadata, h, BLANK.(drift := x.drift))
      case GoesOn(s', at) => To(Spot(at, s'.drift))
      case _ => Stop
  }

  function ScanMove(img: seq<byte>, c: Container, withMetadata: bool): Spot -> Move<Spot> {
    x => NextSpot(img, c, withMetadata, x)
  }

  lemma SameWay(img: seq<byte>, c: Container, withMetadata: bool, h: Header, s: Scan)
    requires h.Header? && h.body <= |img|
    ensures var t, u := ScanTurn(img, c, withMetadata, h, s), ScanTurn(img, c, withMetadata, h, BLANK.(drift := s.drift));
            && (t.GoesOn? <==> u.GoesOn?)
            && (t.GoesOn? ==> t.at == u.at && t.scan.drift == u.scan.drift)
  {
    hide FmtTurn, DataTurn, FactTurn, OtherTurn;
    SameTurns(img, c, withMetadata, h, s, BLANK.(drift := s.drift));
  }

  /** Two turns that go on to the same place, or neither does. */
  predicate SameOn(t: Turn, u: Turn) {
    (t.GoesOn? <==> u.GoesOn?) && (t.GoesOn? ==> t.at == u.at && t.scan.drift == u.scan.drift)
  }

  lemma SameTurns(img: seq<byte>, c: Container, withMetadata: bool, h: Header, s: Scan, s': Scan)
    requires h.Header? && h.body <= |img| && s.drift == s'.drift
    ensures SameOn(FmtTurn(img, h, s), FmtTurn(img, h, s'))
    ensures SameOn(DataTurn(img, c, withMetadata, h, s), DataTurn(img, c, withMetadata, h, s'))
    ensures SameOn(FactTurn(img, c, h, s), FactTurn(img, c, h, s'))
    ensures SameOn(OtherTurn(img, withMetadata, h, s), OtherTurn(img, withMetadata, h, s'))
  {
    hide ReadFmt, CountChunk, To64, CursorAt, GetU64;
  }

  /** What the scan finds does not bear on where it goes. */
  lemma MoveIs(img: seq<byte>, c: Container, withMetadata: bool, p: nat, s: Scan)
    ensures var h := ReadHeader(img, p, c);
            ScanMove(img, c, withMetadata)(Spot(p, s.drift))
            == if h.NoHeader? then Stop
               else match ScanTurn(img, c, withMetadata, h, s)
                    case GoesOn(s', at) => To(Spot(at, s'.drift))
                    case _ => Stop
  {
    hide ScanTurn, ReadHeader;
    var h := ReadHeader(img, p, c);
    if h.Header? {
      HeaderInside(img, p, c);
      SameWay(img, c, withMetadata, h, s);
    }
  }

  lemma HeaderInside(img: seq<byte>, p: nat, c: Container)
    ensures var h := ReadHeader(img, p, c);
            h.Header? ==> p < h.body <= |img| && |h.id| == (if c.W64? then 16 else 4) && h.size >= 0 && h.padding >= 0
  {
    hide GetU32, GetU64, To64;
  }

  /** `ScanHangs`: the loop goes on for ever. */
  datatype ScanResult = Failed | Done(scan: Scan) | ScanHangs

  ghost function ScanFrom(img: seq<byte>, p: nat, c: Container, withMetadata: bool, s: Scan): ScanResult
    decreases TurnsLeft(ScanMove(img, c, withMetadata), Spot(p, s.drift))
  {
    var move, x := ScanMove(img, c, withMetadata), Spot(p, s.drift);
    MoveIs(img, c, withMetadata, p, s);
    EndsStep(move, x);
    if !Walks.Ends(move, x) then ScanHangs
    else
      var h := ReadHeader(img, p, c);
      if h.NoHeader? then Done(s)
      else
        match ScanTurn(img, c, withMetadata, h, s)
        case Fails => Failed
        case Ends(s') => Done(s')
        case GoesOn(s', at) => ScanFrom(img, at, c, withMetadata, s')
  }

  lemma ScanStepIs(img: seq<byte>, p: nat, c: Container, withMetadata: bool, s: Scan)
    ensures var h := ReadHeader(img, p, c);
            && (h.Header? ==> p < h.body <= |img| && |h.id| == if c.W64? then 16 else 4)
            && ScanFrom(img, p, c, withMetadata, s)
               == if h.NoHeader? then Done(s)
                  else match ScanTurn(img, c, withMetadata, h, s)
                       case Fails => Failed
                       case Ends(s') => Done(s')
                       case GoesOn(s', at) => ScanFrom(img, at, c, withMetadata, s')
  {
    hide ScanTurn, ReadHeader, Walks.Ends, ScanMove;
    HeaderInside(img, p, c);
    MoveIs(img, c, withMetadata, p, s);
    EndsStep(ScanMove(img, c, withMetadata), Spot(p, s.drift));
  }

  lemma ScanHangsIs(img: seq<byte>, p: nat, c: Container, withMetadata: bool, s: Scan)
    ensures ScanFrom(img, p, c, withMetadata, s).ScanHangs?
            <==> !Walks.Ends(ScanMove(img, c, withMetadata), Spot(p, s.drift))
    decreases TurnsLeft(ScanMove(img, c, withMetadata), Spot(p, s.drift))
  {
    hide ScanTurn, ReadHeader, Walks.Ends, ScanMove;
    var move, x := ScanMove(img, c, withMetadata), Spot(p, s.drift);
    ScanStepIs(img, p, c, withMetadata, s);
    MoveIs(img, c, withMetadata, p, s);
    EndsStep(move, x);
    if Walks.Ends(move, x) && move(x).To? {
      var t := ScanTurn(img, c, withMetadata, ReadHeader(img, p, c), s);
      ScanHangsIs(img, t.at, c, withMetadata, t.scan);
    }
  }

  /** All positions in an image, with all distances of the cursor. */
  ghost function Spots(n: nat): set<Spot> {
    set p: nat, d: u64 | p <= n && 0 <= d < 0x1_0000_0000_0000_0000 :: Spot(p, d)
  }

  /** The loop over the chunks hangs if and only if it gets twice to one position with one cursor. */
  lemma ScanHangsIff(img: seq<byte>, p: nat, c: Container, withMetadata: bool, s: Scan)
    requires p <= |img|
    ensures ScanFrom(img, p, c, withMetadata, s).ScanHangs?
            <==> Returns(ScanMove(img, c, withMetadata), Spot(p, s.drift))
  {
    hide ScanFrom, ScanTurn, ReadHeader, Walks.Ends, Returns;
    var move, x, space := ScanMove(img, c, withMetadata), Spot(p, s.drift), Spots(|img|);
    ScanHangsIs(img, p, c, withMetadata, s);
    forall y | y in space && move(y).To? ensures move(y).next in space {
      HeaderInside(img, y.at, c);
    }
    EndsIff(move, x, space);
  }

  /** Every fmt chunk that there is in the image, wherever it starts, is smaller than 2^31 bytes. */
  ghost predicate SmallFmts(img: seq<byte>, c: Container) {
    forall p: nat :: var h := ReadHeader(img, p, c); h.Header? && h.id == FmtId(c) ==> h.size < 0x8000_0000
  }

  lemma SmallFmtOn(img: seq<byte>, p: nat, size: nat)
    requires p <= |img| && size < 0x8000_0000 && ReadFmt(img, p, size).FmtRead?
    ensures p < ReadFmt(img, p, size).after && ReadFmt(img, p, size).slip == 0
  {
    hide BasicFmt, GetU16, GetU32;
  }

  /** Without a drift, and past a small fmt chunk, the walk only goes forward. */
  lemma SmallStep(img: seq<byte>, c: Container, withMetadata: bool, x: Spot)
    requires SmallFmts(img, c) && x.drift == 0
    ensures var m := ScanMove(img, c, withMetadata)(x);
            m.To? ==> m.next.drift == 0 && x.at < m.next.at <= |img|
  {
    hide ReadFmt, CountChunk, GetU64, ReadHeader;
    var h := ReadHeader(img, x.at, c);
    HeaderInside(img, x.at, c);
    if h.Header? && h.id == FmtId(c) {
      var r := ReadFmt(img, h.body, h.size);
      if r.FmtRead? {
        SmallFmtOn(img, h.body, h.size);
      }
    }
  }

  /** So no file hangs that has no fmt chunk of 2^31 bytes or more. */
  lemma SmallFmtsEnd(img: seq<byte>, p: nat, c: Container, withMetadata: bool, s: Scan)
    requires SmallFmts(img, c) && s.drift == 0 && p <= |img|
    ensures !ScanFrom(img, p, c, withMetadata, s).ScanHangs?
  {
    hide ScanFrom, SmallFmts, Walks.Ends, ScanMove;
    var move := ScanMove(img, c, withMetadata);
    forall y: Spot | y.drift == 0 && y.at <= |img| && move(y).To?
      ensures move(y).next.drift == 0 && y.at < move(y).next.at <= |img|
    {
      SmallStep(img, c, withMetadata, y);
    }
    GrowthEnds(move, Spot(p, 0), (y: Spot) => y.at, |img|, (y: Spot) => y.drift == 0 && y.at <= |img|);
    ScanHangsIs(img, p, c, withMetadata, s);
  }

  /** A size with which the seek past a fmt chunk goes back to its own header, by Int32. */
  function LoopingSize(c: Container): nat { if c.W64? then 0x1_0000_0000_0000_0000 - 24 else 0x1_0000_0000 - 8 }

  /** The seek past the rest of such a chunk goes back over what was read of it, and its header. */
  lemma LoopSeek(img: seq<byte>, p: nat, c: Container, extended: nat, fmt: Fmt)
    requires p <= |img| && 18 + extended + (if c.W64? then 24 else 8) <= p && extended < 0x1_0000
    ensures PastFmt(img, p, LoopingSize(c) - 18 - extended, fmt).FmtRead?
    ensures PastFmt(img, p, LoopingSize(c) - 18 - extended, fmt).after
            == p - 18 - extended - (if c.W64? then 24 else 8)
  {
  }

  lemma LoopRead(img: seq<byte>, p: nat, c: Container)
    requires (if c.W64? then 24 else 8) <= p <= |img| && ReadFmt(img, p, LoopingSize(c)).FmtRead?
    ensures ReadFmt(img, p, LoopingSize(c)).after == p - (if c.W64? then 24 else 8)
  {
    hide BasicFmt, GetU16, GetU32, PastFmt, LoopingSize;
    LoopSizes(c);
    if p + 18 <= |img| {
      var fmt := BasicFmt(img, p).(extendedSize := GetU16(img, p + 16));
      var extended: nat := fmt.extendedSize;
      if p + 18 + extended <= |img| {
        LoopSeek(img, p + 18 + extended, c, extended, fmt);
        if extended == 22 {
          LoopSeek(img, p + 18 + extended, c, extended,
                   fmt.(validBitsPerSample := GetU16(img, p + 18), channelMask := GetU32(img, p + 20),
                        subFormat := img[p + 24..p + 40]));
        }
      }
    }
  }

  lemma LoopSizes(c: Container)
    ensures LoopingSize(c) > 16 && LoopingSize(c) % 8 == 0 && LoopingSize(c) % 2 == 0
  {
  }

  lemma LoopStep(img: seq<byte>, p: nat, c: Container, withMetadata: bool, d: u64)
    requires var h := ReadHeader(img, p, c);
             h.Header? && h.id == FmtId(c) && h.size == LoopingSize(c) && ReadFmt(img, h.body, h.size).FmtRead?
    ensures var m := ScanMove(img, c, withMetadata)(Spot(p, d)); m.To? && m.next.at == p
  {
    hide ReadFmt, LoopingSize, ReadHeader, To64;
    var h := ReadHeader(img, p, c);
    HeaderAtIs(img, p, c);
    LoopSizes(c);
    LoopRead(img, h.body, c);
  }

  lemma HeaderAtIs(img: seq<byte>, p: nat, c: Container)
    ensures var h := ReadHeader(img, p, c);
            h.Header? ==> h.body == p + (if c.W64? then 24 else 8) <= |img|
                          && h.padding == if c.W64? then h.size % 8 else h.size % 2
  {
    hide GetU32, GetU64, To64;
  }

  lemma {:induction false} Stays(img: seq<byte>, p: nat, c: Container, withMetadata: bool, d: u64, n: nat)
    requires forall e: u64 :: var m := ScanMove(img, c, withMetadata)(Spot(p, e)); m.To? && m.next.at == p
    ensures var y := After(ScanMove(img, c, withMetadata), Spot(p, d), n); y.To? && y.next.at == p
  {
    hide ScanMove;
    if n > 0 {
      Stays(img, p, c, withMetadata, d, n - 1);
      var y := After(ScanMove(img, c, withMetadata), Spot(p, d), n - 1).next;
      assert y == Spot(p, y.drift);
    }
  }

  /**
   A fmt chunk of 2^32 - 8 bytes, in Wave64 one with the size field 0, is read again and again, whatever its
   format says and whatever follows.
   */
  lemma LoopingFmtHangs(img: seq<byte>, p: nat, c: Container, withMetadata: bool, s: Scan)
    requires var h := ReadHeader(img, p, c);
             h.Header? && h.id == FmtId(c) && h.size == LoopingSize(c) && ReadFmt(img, h.body, h.size).FmtRead?
    ensures ScanFrom(img, p, c, withMetadata, s).ScanHangs?
  {
    hide *;
    forall e: u64 ensures var m := ScanMove(img, c, withMetadata)(Spot(p, e)); m.To? && m.next.at == p {
      LoopStep(img, p, c, withMetadata, e);
    }
    forall n: nat ensures After(ScanMove(img, c, withMetadata), Spot(p, s.drift), n).To? {
      Stays(img, p, c, withMetadata, s.drift, n);
    }
    NeverEnds(ScanMove(img, c, withMetadata), Spot(p, s.drift));
    ScanHangsIs(img, p, c, withMetadata, s);
  }

  /** A fact chunk is passed if, with its padding, it has the bytes that are read of it; else the loop ends there. */
  lemma FactPassed(img: seq<byte>, c: Container, h: Header, s: Scan)
    requires h.Header? && h.body <= |img| < 0x7FFF_FFFF_FFFF_FFF0 && h.size < 0x7FFF_FFFF_FFFF_FFF0 && h.padding < 8
    requires h.body + FactBytes(c) <= |img|
    ensures var t := FactTurn(img, c, h, s);
            && (t.GoesOn? <==> FactBytes(c) <= h.size + h.padding && h.body + h.size + h.padding <= |img|)
            && (t.GoesOn? ==> t.at == h.body + h.size + h.padding)
            && (!t.GoesOn? ==> t.Ends?)
  {
    hide GetU64;
  }

  // ---- The second pass ----

  /** A turn of the second pass: the items of a chunk, and where the next chunk is; or no way past it. */
  datatype FillTurn = NoWay | Fills(items: seq<Metadata>, at: nat)

  function TakeTurn(img: seq<byte>, p: nat): (t: FillTurn)
    requires p + 8 <= |img|
    ensures t.Fills? ==> t.at <= |img|
  {
    var size := GetU32(img, p + 4);
    var t := FillChunk(img, p + 8, img[p..p + 4], size);
    var left := To64(size + size % 2 - t.read);
    if t.at + left > |img| then NoWay else Fills(t.items, t.at + left)
  }

  function NextChunk(img: seq<byte>, p: nat): Move<nat> {
    if p + 8 > |img| then Stop
    else
      match TakeTurn(img, p)
      case NoWay => Stop
      case Fills(_, at) => To(at)
  }

  function FillMove(img: seq<byte>): nat -> Move<nat> {
    (p: nat) => NextChunk(img, p)
  }

  datatype FillResult = Refused | Filled(items: seq<Metadata>) | FillHangs

  ghost function FillFrom(img: seq<byte>, p: nat, items: seq<Metadata>): FillResult
    decreases TurnsLeft(FillMove(img), p)
  {
    EndsStep(FillMove(img), p);
    if !Walks.Ends(FillMove(img), p) then FillHangs
    else if p + 8 > |img| then Filled(items)
    else
      var t := TakeTurn(img, p);
      if t.NoWay? then Refused else FillFrom(img, t.at, items + t.items)
  }

  lemma FillStepIs(img: seq<byte>, p: nat, items: seq<Metadata>)
    ensures p + 8 > |img| ==> FillFrom(img, p, items) == Filled(items)
    ensures p + 8 <= |img|
            ==> var t := TakeTurn(img, p);
                FillFrom(img, p, items) == if t.NoWay? then Refused else FillFrom(img, t.at, items + t.items)
  {
    hide TakeTurn, Walks.Ends;
    EndsStep(FillMove(img), p);
  }

  lemma FillHangsIs(img: seq<byte>, p: nat, items: seq<Metadata>)
    ensures FillFrom(img, p, items).FillHangs? <==> !Walks.Ends(FillMove(img), p)
    decreases TurnsLeft(FillMove(img), p)
  {
    hide TakeTurn, Walks.Ends;
    EndsStep(FillMove(img), p);
    FillStepIs(img, p, items);
    if Walks.Ends(FillMove(img), p) && p + 8 <= |img| && TakeTurn(img, p).Fills? {
      FillHangsIs(img, TakeTurn(img, p).at, items + TakeTurn(img, p).items);
    }
  }

  predicate Upto(q: nat, n: nat) { q <= n }

  ghost function Positions(n: nat): set<nat> {
    set q: nat | q <= n && Upto(q, n)
  }

  /** The second pass hangs if and only if it gets twice to one position. */
  lemma FillHangsIff(img: seq<byte>, p: nat, items: seq<Metadata>)
    requires p <= |img|
    ensures FillFrom(img, p, items).FillHangs? <==> Returns(FillMove(img), p)
  {
    hide FillFrom, TakeTurn, Walks.Ends, Returns;
    FillHangsIs(img, p, items);
    EndsIff(FillMove(img), p, Positions(|img|));
  }

  // ---- What is accepted ----

  /** drwav_fmt_get_format. */
  function TranslatedTag(fmt: Fmt): nat {
    if fmt.formatTag == FORMAT_EXTENSIBLE && |fmt.subFormat| >= 2 then GetU16(fmt.subFormat, 0) else fmt.formatTag
  }

  /** drwav_get_bytes_per_pcm_frame. */
  function BytesPerFrame(fmt: Fmt): nat {
    var n := if fmt.bitsPerSample % 8 == 0 then To32(fmt.bitsPerSample * fmt.channels) / 8 else fmt.blockAlign;
    if (TranslatedTag(fmt) == FORMAT_ALAW || TranslatedTag(fmt) == FORMAT_MULAW) && n != fmt.channels then 0 else n
  }

  predicate InRange(fmt: Fmt) {
    && 0 < fmt.sampleRate <= MAX_SAMPLE_RATE && 0 < fmt.channels <= MAX_CHANNELS
    && 0 < fmt.bitsPerSample <= MAX_BITS_PER_SAMPLE && fmt.blockAlign != 0
  }

  predicate Playable(fmt: Fmt) {
    && InRange(fmt)
    && !((TranslatedTag(fmt) == FORMAT_ADPCM || TranslatedTag(fmt) == FORMAT_DVI_ADPCM) && fmt.channels > 2)
    && BytesPerFrame(fmt) != 0
  }

  /** Two frames for each byte and channel that is not in a header; the sums wrap at 2^64. */
  function AdpcmFrames(size: nat, blocks: nat, header: nat, channels: nat): nat
    requires channels > 0
  {
    P.Quotient(To64(To64(size - P.Times(blocks, header)) * 2), channels)
  }

  /** totalPCMFrameCount. */
  function FrameCount(fmt: Fmt, factCount: nat, dataSize: nat): nat
    requires Playable(fmt)
  {
    hide BytesPerFrame, TranslatedTag, InRange, Playable, P.BlockCount, AdpcmFrames, To64;
    PlayableIs(fmt);
    var blocks := P.BlockCount(dataSize, fmt.blockAlign);
    if factCount != 0 then factCount
    else if TranslatedTag(fmt) == FORMAT_ADPCM then AdpcmFrames(dataSize, blocks, 6 * fmt.channels, fmt.channels)
    else if TranslatedTag(fmt) == FORMAT_DVI_ADPCM then
      To64(AdpcmFrames(dataSize, blocks, 4 * fmt.channels, fmt.channels) + blocks)
    else P.Quotient(dataSize, BytesPerFrame(fmt))
  }

  lemma PlayableIs(fmt: Fmt)
    requires Playable(fmt)
    ensures fmt.channels > 0 && fmt.blockAlign > 0 && BytesPerFrame(fmt) > 0
  {
    hide TranslatedTag, BytesPerFrame;
  }

  /** An opened file. */
  datatype Wav = Wav(container: Container, fmt: Fmt, dataPos: nat, dataSize: nat, totalPCMFrameCount: nat,
                     metadata: seq<Metadata>, metadataCount: nat)

  datatype InitResult = Rejected | Opened(wav: Wav) | Hangs

  /** A data size of 2^32 - 1 in RIFF stands for everything that is left after the current position. */
  function MeasuredSize(c: Container, dataSize: nat, left: nat): nat {
    if dataSize == MAX32 && c.Riff? then left else dataSize
  }

  /** The end of initialisation, once the chunks have been scanned. `left` is what follows the position by then. */
  function Accept(c: Container, s: Scan, metadata: seq<Metadata>, count: nat, left: nat): InitResult {
    if Playable(s.fmt) then
      var size := MeasuredSize(c, s.dataSize, left);
      Opened(Wav(c, s.fmt, s.dataPos, size, FrameCount(s.fmt, s.factCount, size), metadata, count))
    else Rejected
  }

  /** What follows the scan; the metadata start at `at`. */
  ghost function AfterScan(img: seq<byte>, at: nat, c: Container, r: ScanResult): InitResult {
    match r
    case Failed => Rejected
    case ScanHangs => Hangs
    case Done(s) =>
      if !s.foundFmt || !s.foundData || !InRange(s.fmt) || s.dataPos > |img| then Rejected
      else if s.metadataCount > 0 then
        match FillFrom(img, at, [])
        case Refused => Rejected
        case FillHangs => Hangs
        case Filled(items) => Accept(c, s, items, s.metadataCount, 0)
      else Accept(c, s, [], 0, |img| - s.dataPos)
  }

  function StartScan(dataSize: nat, sampleCount: nat): Scan {
    BLANK.(dataSize := dataSize, factCount := sampleCount)
  }

  ghost function Init(img: seq<byte>, flag: bool): InitResult {
    var lead := ReadLead(img);
    if lead.NoLead? then Rejected
    else
      var c := lead.container;
      AfterScan(img, lead.at, c,
                ScanFrom(img, lead.at, c, flag && !c.W64?, StartScan(lead.dataSize, lead.sampleCount)))
  }

  /** Opening a file hangs if and only if one of its walks gets twice to the same place. */
  lemma HangsIff(img: seq<byte>, flag: bool)
    ensures var lead := ReadLead(img);
            Init(img, flag).Hangs?
            <==> lead.Lead?
                 && var c, s := lead.container, StartScan(lead.dataSize, lead.sampleCount);
                    var r := ScanFrom(img, lead.at, c, flag && !c.W64?, s);
                    || Returns(ScanMove(img, c, flag && !c.W64?), Spot(lead.at, 0))
                    || (r.Done? && r.scan.foundFmt && r.scan.foundData && InRange(r.scan.fmt)
                        && r.scan.dataPos <= |img| && r.scan.metadataCount > 0 && Returns(FillMove(img), lead.at))
  {
    hide ScanFrom, FillFrom, InRange, Playable, FrameCount, ReadLead, Returns, ScanMove, FillMove;
    var lead := ReadLead(img);
    if lead.Lead? {
      LeadInside(img);
      var c, s := lead.container, StartScan(lead.dataSize, lead.sampleCount);
      ScanHangsIff(img, lead.at, c, flag && !c.W64?, s);
      FillHangsIff(img, lead.at, []);
    }
  }

  /** Files of 38 bytes that hang: any sixteen bytes of format, and no extension. */
  function LoopingFile(size: seq<byte>, fmt: seq<byte>): seq<byte> {
    RIFF_ID + size + WAVE_ID + FMT + [0xF8, 0xFF, 0xFF, 0xFF] + fmt + [0, 0]
  }

  lemma LoopingFileHangs(size: seq<byte>, fmt: seq<byte>, flag: bool)
    requires |size| == 4 && |fmt| == 16
    ensures |LoopingFile(size, fmt)| == 38 && Init(LoopingFile(size, fmt), flag) == Hangs
  {
    hide *;
    var img := LoopingFile(size, fmt);
    LoopingFileParts(size, fmt);
    LoopingFmtHangs(img, 12, Riff, flag, StartScan(0, 0));
    InitHangs(img, flag);
  }

  lemma LoopingFileParts(size: seq<byte>, fmt: seq<byte>)
    requires |size| == 4 && |fmt| == 16
    ensures var img := LoopingFile(size, fmt);
            && |img| == 38 && ReadLead(img) == Lead(Riff, 12, 0, 0)
            && ReadHeader(img, 12, Riff) == Header(FmtId(Riff), LoopingSize(Riff), 0, 20)
            && ReadFmt(img, 20, LoopingSize(Riff)).FmtRead?
  {
    hide BasicFmt;
    var img := LoopingFile(size, fmt);
    assert img[0..4] == RIFF_ID && img[8..12] == WAVE_ID && img[12..16] == FMT;
    assert img[16] == 0xF8 && img[17] == img[18] == img[19] == 0xFF && img[36] == img[37] == 0;
  }

  lemma InitHangs(img: seq<byte>, flag: bool)
    requires ReadLead(img) == Lead(Riff, 12, 0, 0) && ScanFrom(img, 12, Riff, flag, StartScan(0, 0)).ScanHangs?
    ensures Init(img, flag) == Hangs
  {
    hide ReadLead, ScanFrom, StartScan;
  }

  lemma LeadInside(img: seq<byte>)
    ensures ReadLead(img).Lead? ==> ReadLead(img).at <= |img| && Supported(ReadLead(img).container)
  {
    hide GetU32, GetU64;
  }
}
