/**
 The two passes over a file side by side: on files whose chunks are regular, both meet the chunks that lie one
 behind the other, and end; so the second fills in no more items, and takes no more memory, than the first has
 counted and asked for. On others they part.
 */
module WavPasses {
  import opened BumpAllocator
  import opened ByteImages
  import opened Bytes
  import opened MetadataMemory
  import opened Walks
  import opened WavFormat
  import opened WavMetadata
  import opened WavMetadataParser
  import opened WavScan

  // ---- Chunks one behind the other ----

  /** Where the chunk behind the one at `p` begins. */
  function Behind(img: seq<byte>, p: nat): (q: nat)
    requires p + 8 <= |img|
    ensures p < q
  {
    var size := GetU32(img, p + 4);
    p + 8 + size + size % 2
  }

  function ChunkAt(img: seq<byte>, p: nat): Chunk
    requires p + 8 <= |img|
  {
    Chunk(p + 8, img[p..p + 4], GetU32(img, p + 4))
  }

  /** The chunks from `p` on; the last one may end behind the image. */
  function Meets(img: seq<byte>, p: nat): (cs: seq<Chunk>)
    decreases |img| - p
  {
    if p + 8 > |img| then [] else [ChunkAt(img, p)] + Meets(img, Behind(img, p))
  }

  /**
   A fmt chunk that says how long it is: at least its sixteen bytes, with room for its extension, and not so long
   that an int goes back; a fact chunk with the bytes that RIFF reads of it; a list of chunks below 2^31 bytes.
   */
  predicate Regular(img: seq<byte>, c: Container, ch: Chunk) {
    && ch.at <= |img|
    && (ch.id == FMT ==>
          && 16 <= ch.size < 0x8000_0000
          && (16 < ch.size && ch.at + 18 <= |img| ==> 18 + GetU16(img, ch.at + 16) <= ch.size))
    && (ch.id == FACT && c.Riff? ==> ch.size >= 3)
    && (IsList(ch.id) ==> SmallChunks(img, ListStart(ch.at), ch.size))
  }

  /** All chunks from `p` on are regular. */
  ghost predicate AllRegular(img: seq<byte>, c: Container, p: nat) {
    forall ch :: ch in Meets(img, p) ==> Regular(img, c, ch)
  }

  lemma MeetsStep(img: seq<byte>, c: Container, p: nat)
    ensures p + 8 > |img| ==> Meets(img, p) == []
    ensures p + 8 <= |img| ==>
              && p < Behind(img, p) && Meets(img, p) == [ChunkAt(img, p)] + Meets(img, Behind(img, p))
              && (AllRegular(img, c, p) ==>
                    Regular(img, c, ChunkAt(img, p)) && AllRegular(img, c, Behind(img, p)))
    ensures p > |img| ==> Meets(img, p) == []
  {
    hide Regular, ChunkAt, Behind;
    if p + 8 <= |img| {
      var cs := [ChunkAt(img, p)] + Meets(img, Behind(img, p));
      assert cs[0] == ChunkAt(img, p) && cs[1..] == Meets(img, Behind(img, p));
      assert forall ch :: ch in Meets(img, Behind(img, p)) ==> ch in cs;
      assert ChunkAt(img, p) in cs;
    }
  }

  // ---- A turn of the first pass ----

  /** A regular fmt chunk is read to its end, if it is accepted. */
  lemma FmtToItsEnd(img: seq<byte>, c: Container, ch: Chunk)
    requires Regular(img, c, ch) && ch.id == FMT
    ensures var r := ReadFmt(img, ch.at, ch.size);
            r.FmtRead? ==> r.after == ch.at + ch.size && r.slip == 0
  {
    hide BasicFmt, GetU16, GetU32, SmallChunks, PastFmt;
    var p, size := ch.at, ch.size;
    if p + 18 <= |img| && size > 16 {
      var fmt := BasicFmt(img, p).(extendedSize := GetU16(img, p + 16));
      var extended: nat := fmt.extendedSize;
      if p + 18 + extended <= |img| {
        PastRest(img, p + 18 + extended, size - 18 - extended, fmt);
        if extended == 22 {
          PastRest(img, p + 18 + extended, size - 18 - extended,
                   fmt.(validBitsPerSample := GetU16(img, p + 18), channelMask := GetU32(img, p + 20),
                        subFormat := img[p + 24..p + 40]));
        }
      }
    }
  }

  lemma PastRest(img: seq<byte>, p: nat, left: nat, fmt: Fmt)
    requires p <= |img| && left < 0x8000_0000
    ensures var r := PastFmt(img, p, left, fmt); r.FmtRead? ==> r.after == p + left && r.slip == 0
  {
  }

  /** The items that the first pass counts for a chunk, and those that the second fills in. */
  function CountOf(img: seq<byte>, ch: Chunk): nat {
    if ch.at <= |img| then CountChunk(img, ch.at, ch.id, ch.size) else 0
  }

  function ItemsOf(img: seq<byte>, ch: Chunk): seq<Metadata> {
    if ch.at <= |img| then FillChunk(img, ch.at, ch.id, ch.size).items else []
  }

  function CountAll(img: seq<byte>, cs: seq<Chunk>): nat {
    if cs == [] then 0 else CountOf(img, cs[0]) + CountAll(img, cs[1..])
  }

  function ItemsAll(img: seq<byte>, cs: seq<Chunk>): seq<Metadata> {
    if cs == [] then [] else ItemsOf(img, cs[0]) + ItemsAll(img, cs[1..])
  }

  lemma NoChunks(img: seq<byte>)
    ensures CountAll(img, []) == 0 && ItemsAll(img, []) == []
  {
  }

  lemma AllStep(img: seq<byte>, ch: Chunk, cs: seq<Chunk>)
    ensures CountAll(img, [ch] + cs) == CountOf(img, ch) + CountAll(img, cs)
    ensures ItemsAll(img, [ch] + cs) == ItemsOf(img, ch) + ItemsAll(img, cs)
  {
    hide CountOf, ItemsOf;
    assert ([ch] + cs)[1..] == cs;
  }

  lemma HeaderIs(img: seq<byte>, p: nat, c: Container)
    requires (c.Riff? || c.Rf64?) && p + 8 <= |img|
    ensures var ch := ChunkAt(img, p);
            && ReadHeader(img, p, c) == Header(ch.id, ch.size, ch.size % 2, p + 8)
            && ch.at == p + 8 && |ch.id| == 4 && ch.size < 0x1_0000_0000 && Behind(img, p) == p + 8 + ch.size + ch.size % 2
  {
    hide GetU32;
  }

  /** Past a chunk whose rest is in the image; else the pass ends there. */
  predicate Passes(img: seq<byte>, t: Turn, q: nat, s: Scan, count: nat) {
    && (t.GoesOn? ==> t.at == q <= |img| && t.scan.drift == 0)
    && (t.Ends? ==> q > |img|)
    && (t.GoesOn? || t.Ends? ==> t.scan.metadataCount == s.metadataCount + count)
  }

  /** One turn of the first pass over a regular chunk. */
  lemma FirstTurn(img: seq<byte>, p: nat, c: Container, s: Scan)
    requires (c.Riff? || c.Rf64?) && p + 8 <= |img| && Regular(img, c, ChunkAt(img, p)) && s.drift == 0
    ensures var h := ReadHeader(img, p, c);
            && h.Header? && h.body <= |img|
            && Passes(img, ScanTurn(img, c, true, h, s), Behind(img, p), s, CountOf(img, ChunkAt(img, p)))
  {
    hide *;
    var ch := ChunkAt(img, p);
    HeaderIs(img, p, c);
    TurnIs(img, c, Header(ch.id, ch.size, ch.size % 2, p + 8), s);
    if ch.id == FMT {
      FmtToItsEnd(img, c, ch);
      FmtPasses(img, c, ch, s);
    } else if ch.id == DATA {
      DataPasses(img, c, ch, s);
    } else if ch.id == FACT {
      FactPasses(img, c, ch, s);
    } else {
      OtherPasses(img, c, ch, s);
    }
  }

  lemma TurnIs(img: seq<byte>, c: Container, h: Header, s: Scan)
    requires (c.Riff? || c.Rf64?) && h.Header? && h.body <= |img|
    ensures ScanTurn(img, c, true, h, s)
            == if h.id == FMT then FmtTurn(img, h, s)
               else if h.id == DATA then DataTurn(img, c, true, h, s)
               else if h.id == FACT then FactTurn(img, c, h, s)
               else OtherTurn(img, true, h, s)
  {
    hide FmtTurn, DataTurn, FactTurn, OtherTurn;
  }

  lemma FmtPasses(img: seq<byte>, c: Container, ch: Chunk, s: Scan)
    requires ch.at <= |img| && s.drift == 0 && ch.id == FMT
    requires var r := ReadFmt(img, ch.at, ch.size); r.FmtRead? ==> r.after == ch.at + ch.size && r.slip == 0
    ensures Passes(img, FmtTurn(img, Header(ch.id, ch.size, ch.size % 2, ch.at), s), ch.at + ch.size + ch.size % 2, s,
                   CountOf(img, ch))
  {
    hide ReadFmt;
  }

  lemma DataPasses(img: seq<byte>, c: Container, ch: Chunk, s: Scan)
    requires ch.at <= |img| && s.drift == 0 && ch.id == DATA && ch.size < 0x1_0000_0000
    ensures Passes(img, DataTurn(img, c, true, Header(ch.id, ch.size, ch.size % 2, ch.at), s),
                   ch.at + ch.size + ch.size % 2, s, CountOf(img, ch))
  {
  }

  lemma FactPasses(img: seq<byte>, c: Container, ch: Chunk, s: Scan)
    requires (c.Riff? || c.Rf64?) && Regular(img, c, ch) && s.drift == 0 && ch.id == FACT && ch.size < 0x1_0000_0000
    ensures Passes(img, FactTurn(img, c, Header(ch.id, ch.size, ch.size % 2, ch.at), s), ch.at + ch.size + ch.size % 2, s,
                   CountOf(img, ch))
  {
    hide SmallChunks;
  }

  lemma OtherPasses(img: seq<byte>, c: Container, ch: Chunk, s: Scan)
    requires ch.at <= |img| && s.drift == 0 && |ch.id| == 4 && ch.size < 0x1_0000_0000
    ensures Passes(img, OtherTurn(img, true, Header(ch.id, ch.size, ch.size % 2, ch.at), s),
                   ch.at + ch.size + ch.size % 2, s, CountOf(img, ch))
  {
    hide CountChunk;
  }

  /** The first pass ends, and counts the items of the chunks that lie one behind the other. */
  lemma {:induction false} FirstPass(img: seq<byte>, p: nat, c: Container, s: Scan)
    requires (c.Riff? || c.Rf64?) && AllRegular(img, c, p) && s.drift == 0
    ensures var r := ScanFrom(img, p, c, true, s);
            && !r.ScanHangs?
            && (r.Done? ==> r.scan.metadataCount == s.metadataCount + CountAll(img, Meets(img, p)))
    decreases |img| - p
  {
    hide *;
    MeetsStep(img, c, p);
    ScanStepIs(img, p, c, true, s);
    if p + 8 > |img| {
      NoHeaderAt(img, p, c);
      NoChunks(img);
    } else {
      var q, ch := Behind(img, p), ChunkAt(img, p);
      FirstTurn(img, p, c, s);
      AllStep(img, ch, Meets(img, q));
      NoChunks(img);
      var t := ScanTurn(img, c, true, ReadHeader(img, p, c), s);
      PassesIs(img, t, q, s, CountOf(img, ch));
      if t.GoesOn? {
        FirstPass(img, q, c, t.scan);
      } else {
        MeetsStep(img, c, q);
      }
    }
  }

  lemma NoHeaderAt(img: seq<byte>, p: nat, c: Container)
    requires (c.Riff? || c.Rf64?) && p + 8 > |img|
    ensures ReadHeader(img, p, c) == NoHeader
  {
  }

  lemma PassesIs(img: seq<byte>, t: Turn, q: nat, s: Scan, count: nat)
    requires Passes(img, t, q, s, count)
    ensures t.GoesOn? ==> t.at == q <= |img| && t.scan.drift == 0
    ensures t.Ends? ==> q > |img|
    ensures t.GoesOn? || t.Ends? ==> t.scan.metadataCount == s.metadataCount + count
  {
  }

  // ---- A turn of the second pass ----

  /** In a list of chunks below 2^31 bytes the position moves with the bytes that count as read. */
  lemma ListMoves(img: seq<byte>, s: ListState, fill: bool)
    requires SaneList(img, s) && SmallTurn(img, s)
    ensures var r := ListStep(img, s, fill).0; r.at - s.at == r.read - s.read
  {
    hide FillSub, CountSub, GetU32, SkipLeft, SkipPad;
    var p := s.at;
    if p + 8 <= |img| && img[p..p + 4] != ADTL && img[p..p + 4] != INFO {
      var id, size := img[p..p + 4], GetU32(img, p + 4);
      var g := if fill then FillSub(img, p + 8, id, size, s.kind) else Got(0, []);
      var s' := Past(s, 8 + g.read).(items := s.items + g.items, count := s.count + CountSub(id, size, s.kind));
      SkipMoves(img, s', size - g.read);
      PadMoves(img, SkipLeft(img, s', size - g.read).0, size);
    }
  }

  lemma SkipMoves(img: seq<byte>, s: ListState, left: nat)
    requires SaneList(img, s) && left < 0x8000_0000
    ensures var r := SkipLeft(img, s, left).0; r.at - s.at == r.read - s.read
  {
  }

  lemma PadMoves(img: seq<byte>, s: ListState, size: nat)
    requires SaneList(img, s)
    ensures var r := SkipPad(img, s, size).0; r.at - s.at == r.read - s.read
  {
  }

  /** What a list adds: no more items in the second pass than are counted in the first. */
  lemma {:induction false} ListFits(img: seq<byte>, s: ListState, t: ListState, size: nat)
    requires SaneList(img, s) && SaneList(img, t) && SamePlace(s, t) && SmallChunks(img, s, size)
    ensures var a, b := ListFrom(img, s, size, false), ListFrom(img, t, size, true);
            && |b.items| - |t.items| <= a.count - s.count
            && b.at - t.at == b.read - t.read
    decreases size - s.read
  {
    hide ListStep, SmallTurn;
    if s.read < size {
      StepSame(img, s, t);
      StepFits(img, s, t);
      SmallSame(img, s, t);
      ListMoves(img, t, true);
      var a, b := ListStep(img, s, false), ListStep(img, t, true);
      if a.1 {
        ListFits(img, a.0, b.0, size);
      }
    }
  }

  lemma SmallSame(img: seq<byte>, s: ListState, t: ListState)
    requires SaneList(img, s) && SaneList(img, t) && SamePlace(s, t)
    ensures SmallTurn(img, s) == SmallTurn(img, t)
  {
    hide GetU32;
  }

  lemma StepFits(img: seq<byte>, s: ListState, t: ListState)
    requires SaneList(img, s) && SaneList(img, t) && SamePlace(s, t)
    ensures var a, b := ListStep(img, s, false).0, ListStep(img, t, true).0;
            |b.items| - |t.items| <= a.count - s.count
  {
    hide GetU32, Int32, WholeItem, Kept;
  }

  /** One turn of the second pass, unless a list takes it back: past the chunk, or no way on. */
  lemma TakesForward(img: seq<byte>, p: nat)
    requires |img| < 0x1_0000_0000_0000_0000 && p + 8 <= |img|
    requires var ch := ChunkAt(img, p); IsList(ch.id) ==> SmallChunks(img, ListStart(ch.at), ch.size)
    ensures var t := TakeTurn(img, p);
            t.Fills? ==> t.items == ItemsOf(img, ChunkAt(img, p)) && t.at == Behind(img, p) <= |img|
  {
    hide *;
    var ch := ChunkAt(img, p);
    RiffIs();
    HeaderIs(img, p, Riff);
    FillMoves(img, ch);
    TakeIs(img, p);
    ItemsOfIs(img, ch);
    LeftOver(p + 8, FillChunk(img, p + 8, ch.id, ch.size).read, ch.size, |img|);
  }

  lemma RiffIs()
    ensures Riff.Riff?
  {
  }

  lemma SecondTurn(img: seq<byte>, p: nat, c: Container)
    requires |img| < 0x1_0000_0000_0000_0000 && p + 8 <= |img| && Regular(img, c, ChunkAt(img, p))
    ensures var t := TakeTurn(img, p);
            t.Fills? ==> t.items == ItemsOf(img, ChunkAt(img, p)) && t.at == Behind(img, p) <= |img|
  {
    hide *;
    HeaderAt8(img, p);
    RegularList(img, c, ChunkAt(img, p));
    TakesForward(img, p);
  }

  lemma HeaderAt8(img: seq<byte>, p: nat)
    requires p + 8 <= |img|
    ensures ChunkAt(img, p).at == p + 8
  {
  }

  lemma RegularList(img: seq<byte>, c: Container, ch: Chunk)
    requires Regular(img, c, ch)
    ensures ch.at <= |img| && (IsList(ch.id) ==> SmallChunks(img, ListStart(ch.at), ch.size))
  {
    hide SmallChunks;
  }

  lemma FillMoves(img: seq<byte>, ch: Chunk)
    requires ch.at <= |img| && (IsList(ch.id) ==> SmallChunks(img, ListStart(ch.at), ch.size))
    ensures var t := FillChunk(img, ch.at, ch.id, ch.size); t.at == ch.at + t.read <= |img|
  {
    hide FillTop, ListFrom, SmallChunks;
    if IsList(ch.id) {
      ListFits(img, ListStart(ch.at), ListStart(ch.at), ch.size);
    }
  }

  lemma TakeIs(img: seq<byte>, p: nat)
    requires p + 8 <= |img|
    ensures var ch := ChunkAt(img, p);
            var t := FillChunk(img, ch.at, ch.id, ch.size);
            var left := To64(ch.size + ch.size % 2 - t.read);
            left >= 0 && TakeTurn(img, p) == if t.at + left > |img| then NoWay else Fills(t.items, t.at + left)
  {
    hide FillChunk, GetU32, To64;
  }

  lemma ItemsOfIs(img: seq<byte>, ch: Chunk)
    requires ch.at <= |img|
    ensures ItemsOf(img, ch) == FillChunk(img, ch.at, ch.id, ch.size).items
    ensures CountOf(img, ch) == CountChunk(img, ch.at, ch.id, ch.size)
  {
    hide FillChunk, CountChunk;
  }

  /** What is left of a chunk leads to its end; if more was read than that, nowhere. */
  lemma LeftOver(at: nat, read: nat, size: nat, end: nat)
    requires at + read <= end < 0x1_0000_0000_0000_0000 && size < 0x1_0000_0000
    ensures var left := To64(size + size % 2 - read);
            left >= 0 && (at + read + left <= end ==> at + read + left == at + size + size % 2)
  {
  }

  /** The second pass ends, and if it is not refused it adds the items of the same chunks. */
  lemma {:induction false} SecondPass(img: seq<byte>, p: nat, c: Container, items: seq<Metadata>)
    requires |img| < 0x1_0000_0000_0000_0000 && AllRegular(img, c, p)
    ensures var r := FillFrom(img, p, items);
            !r.FillHangs? && (r.Filled? ==> r.items == items + ItemsAll(img, Meets(img, p)))
    decreases |img| - p
  {
    hide *;
    MeetsStep(img, c, p);
    FillStepIs(img, p, items);
    NoChunks(img);
    NothingAdded(items);
    if p + 8 <= |img| {
      var q, ch := Behind(img, p), ChunkAt(img, p);
      SecondTurn(img, p, c);
      AllStep(img, ch, Meets(img, q));
      AddedBefore(items, ItemsOf(img, ch), ItemsAll(img, Meets(img, q)));
      if TakeTurn(img, p).Fills? {
        SecondPass(img, q, c, items + ItemsOf(img, ch));
      }
    }
  }

  lemma NothingAdded(a: seq<Metadata>)
    ensures a + [] == a
  {
  }

  lemma AddedBefore(a: seq<Metadata>, b: seq<Metadata>, c: seq<Metadata>)
    ensures a + (b + c) == (a + b) + c
  {
  }

  // ---- Both ----

  /** Not the chunk that is filled in without having been counted. */
  predicate Counts(img: seq<byte>, ch: Chunk) {
    !(ch.id == SMPL && ch.size == 36 && ch.at + 36 <= |img| && GetU32(img, ch.at + 28) != 0)
  }

  lemma ChunkFits(img: seq<byte>, c: Container, ch: Chunk)
    requires Regular(img, c, ch) && Counts(img, ch)
    ensures |ItemsOf(img, ch)| <= CountOf(img, ch)
  {
    hide FillTop, CountTop, ListFrom, SmallChunks, GetU32;
    if IsList(ch.id) {
      ListFits(img, ListStart(ch.at), ListStart(ch.at), ch.size);
    } else {
      FilledIsCountedIff(img, ch.at, ch.id, ch.size);
    }
  }

  lemma {:induction false} AllFit(img: seq<byte>, c: Container, p: nat)
    requires AllRegular(img, c, p) && forall ch :: ch in Meets(img, p) ==> Counts(img, ch)
    ensures |ItemsAll(img, Meets(img, p))| <= CountAll(img, Meets(img, p))
    decreases |img| - p
  {
    hide *;
    MeetsStep(img, c, p);
    NoChunks(img);
    if p + 8 <= |img| {
      var q, ch := Behind(img, p), ChunkAt(img, p);
      var cs := [ch] + Meets(img, q);
      assert cs[0] == ch && cs[1..] == Meets(img, q);
      assert forall x :: x in Meets(img, q) ==> x in cs;
      AllStep(img, ch, Meets(img, q));
      ChunkFits(img, c, ch);
      AllFit(img, c, q);
    }
  }

  // ---- The same chunks ----

  /** Where the `k`-th chunk of those one behind the other begins. */
  function Place(img: seq<byte>, p: nat, k: nat): nat
    decreases k
  {
    if k == 0 || p + 8 > |img| then p else Place(img, Behind(img, p), k - 1)
  }

  /** However far the two walks get, after as many turns they are at the same chunk. */
  lemma {:induction false} SamePlaces(img: seq<byte>, p: nat, c: Container, k: nat)
    requires (c.Riff? || c.Rf64?) && |img| < 0x1_0000_0000_0000_0000 && AllRegular(img, c, p)
    ensures var a, b := After(ScanMove(img, c, true), Spot(p, 0), k), After(FillMove(img), p, k);
            && (a.To? ==> a.next == Spot(Place(img, p, k), 0))
            && (b.To? ==> b.next == Place(img, p, k))
    decreases k
  {
    hide *;
    PlaceIs(img, p, k);
    AfterNone(ScanMove(img, c, true), Spot(p, 0));
    AfterNone(FillMove(img), p);
    if k > 0 {
      MeetsStep(img, c, p);
      FirstMove(ScanMove(img, c, true), Spot(p, 0), k);
      FirstMove(FillMove(img), p, k);
      MovesOn(img, p, c);
      if p + 8 <= |img| {
        SamePlaces(img, Behind(img, p), c, k - 1);
      }
    }
  }

  lemma PlaceIs(img: seq<byte>, p: nat, k: nat)
    ensures Place(img, p, k) == if k == 0 || p + 8 > |img| then p else Place(img, Behind(img, p), k - 1)
  {
  }

  lemma AfterNone<S>(move: S -> Move<S>, x: S)
    ensures After(move, x, 0) == To(x)
  {
  }

  lemma MovesOn(img: seq<byte>, p: nat, c: Container)
    requires (c.Riff? || c.Rf64?) && |img| < 0x1_0000_0000_0000_0000 && AllRegular(img, c, p)
    ensures var a, b := ScanMove(img, c, true)(Spot(p, 0)), FillMove(img)(p);
            && (p + 8 > |img| ==> a.Stop? && b.Stop?)
            && (p + 8 <= |img| && a.To? ==> a.next == Spot(Behind(img, p), 0))
            && (p + 8 <= |img| && b.To? ==> b.next == Behind(img, p))
  {
    hide AllRegular, ReadHeader, ScanTurn, TakeTurn, Behind, Regular, CountOf, ItemsOf, ChunkAt;
    MoveIs(img, c, true, p, BLANK);
    if p + 8 > |img| {
      NoHeaderAt(img, p, c);
    } else {
      MeetsStep(img, c, p);
      FirstTurn(img, p, c, BLANK);
      SecondTurn(img, p, c);
    }
  }

  // ---- What this means for opening a file ----

  lemma RegularAfterScan(img: seq<byte>, at: nat, c: Container, s: Scan)
    requires (c.Riff? || c.Rf64?) && |img| < 0x1_0000_0000_0000_0000 && AllRegular(img, c, at)
    requires s.drift == 0 && s.metadataCount == 0
    ensures var r := AfterScan(img, at, c, ScanFrom(img, at, c, true, s));
            && !r.Hangs?
            && (r.Opened? && r.wav.metadataCount > 0 ==>
                  && r.wav.metadataCount == CountAll(img, Meets(img, at))
                  && r.wav.metadata == ItemsAll(img, Meets(img, at)))
            && (r.Opened? && (forall ch :: ch in Meets(img, at) ==> Counts(img, ch)) ==>
                  |r.wav.metadata| <= r.wav.metadataCount)
  {
    hide *;
    FirstPass(img, at, c, s);
    SecondPass(img, at, c, []);
    assert [] + ItemsAll(img, Meets(img, at)) == ItemsAll(img, Meets(img, at));
    OpenedBy(img, at, c, ScanFrom(img, at, c, true, s));
    if forall ch :: ch in Meets(img, at) ==> Counts(img, ch) {
      AllFit(img, c, at);
    }
  }

  /**
   A regular file opened with metadata: both passes end, the items that are handed out are those of the chunks
   one behind the other, and no more than were counted.
   */
  lemma RegularOpens(img: seq<byte>)
    requires ReadLead(img).Lead? && |img| < 0x1_0000_0000_0000_0000
    requires ReadLead(img).container.Riff? || ReadLead(img).container.Rf64?
    requires AllRegular(img, ReadLead(img).container, ReadLead(img).at)
    ensures var r, cs := Init(img, true), Meets(img, ReadLead(img).at);
            && !r.Hangs?
            && (r.Opened? && r.wav.metadataCount > 0 ==>
                  r.wav.metadataCount == CountAll(img, cs) && r.wav.metadata == ItemsAll(img, cs))
            && (r.Opened? && (forall ch :: ch in cs ==> Counts(img, ch)) ==> |r.wav.metadata| <= r.wav.metadataCount)
  {
    hide *;
    var lead := ReadLead(img);
    InitBy(img, true);
    StartsTogether(lead.dataSize, lead.sampleCount);
    NotW64(lead.container);
    RegularAfterScan(img, lead.at, lead.container, StartScan(lead.dataSize, lead.sampleCount));
  }

  lemma NotW64(c: Container)
    ensures c.Riff? || c.Rf64? ==> !c.W64?
  {
  }

  lemma OpenedBy(img: seq<byte>, at: nat, c: Container, r: ScanResult)
    ensures AfterScan(img, at, c, r).Hangs? ==> r.ScanHangs? || FillFrom(img, at, []).FillHangs?
    ensures var o := AfterScan(img, at, c, r);
            o.Opened? ==>
              && r.Done? && o.wav.metadataCount == r.scan.metadataCount
              && (r.scan.metadataCount == 0 ==> o.wav.metadata == [])
              && (r.scan.metadataCount > 0 ==> FillFrom(img, at, []) == Filled(o.wav.metadata))
  {
    hide FillFrom, Playable, InRange, FrameCount;
  }

  lemma {:induction false} RegularIsOrdinary(img: seq<byte>, c: Container, cs: seq<Chunk>)
    requires forall ch :: ch in cs ==> Regular(img, c, ch)
    ensures AllOrdinary(img, cs)
  {
    hide SmallChunks;
  }

  lemma OrdinaryInside(img: seq<byte>, ch: Chunk)
    requires Ordinary(img, ch)
    ensures ch.at <= |img|
  {
    hide SmallChunks;
  }

  /** A pass over fewer chunks asks for no more. */
  lemma {:induction false} FewerAsk(img: seq<byte>, cs: seq<Chunk>, k: nat)
    requires AllOrdinary(img, cs) && k <= |cs|
    ensures AllOrdinary(img, cs[..k])
    ensures Costs(AllAsks(img, cs[..k], false)) <= Costs(AllAsks(img, cs, false))
    ensures OverfullOnes(img, cs[..k]) <= OverfullOnes(img, cs)
    decreases |cs|
  {
    hide Costs, ChunkAsks, Overfull, Ordinary;
    if k == |cs| {
      assert cs[..k] == cs;
    } else {
      var before := cs[..|cs| - 1];
      FewerAsk(img, before, k);
      assert before[..k] == cs[..k] && cs[|cs| - 1] in cs;
      OrdinaryInside(img, cs[|cs| - 1]);
      CostsJoin(AllAsks(img, before, false), ChunkAsks(img, cs[|cs| - 1], false));
    }
  }

  /**
   And the memory is enough: wherever it lies, and however many of the chunks the second pass gets to, what it has
   taken by then fits into what the first pass asked for, but for the byte of an overfull bext.
   */
  lemma RegularFits(img: seq<byte>, p: nat, c: Container, k: nat, start: nat)
    requires AllRegular(img, c, p) && k <= |Meets(img, p)|
    ensures var cs := Meets(img, p);
            && AllOrdinary(img, cs) && AllOrdinary(img, cs[..k])
            && CursorAfter(start, AllAsks(img, cs[..k], true))
               <= start + Costs(AllAsks(img, cs, false)) + OverfullOnes(img, cs)
  {
    hide *;
    RegularAll(img, c, p);
    RegularIsOrdinary(img, c, Meets(img, p));
    FewerAsk(img, Meets(img, p), k);
    MemoryIsEnough(img, Meets(img, p)[..k], start);
  }

  lemma RegularAll(img: seq<byte>, c: Container, p: nat)
    requires AllRegular(img, c, p)
    ensures forall ch :: ch in Meets(img, p) ==> Regular(img, c, ch)
  {
    hide Meets, Regular;
  }

  // ---- When both passes end ----

  /** No list, wherever one may start, meets a chunk of 2^31 bytes or more. */
  ghost predicate SmallLists(img: seq<byte>) {
    forall p: nat :: p + 8 <= |img| && IsList(ChunkAt(img, p).id) ==>
                       SmallChunks(img, ListStart(p + 8), ChunkAt(img, p).size)
  }

  lemma TakesForwardAt(img: seq<byte>, p: nat)
    requires |img| < 0x1_0000_0000_0000_0000 && SmallLists(img) && FillMove(img)(p).To?
    ensures p < FillMove(img)(p).next <= |img|
  {
    hide TakeTurn, SmallChunks, ItemsOf, Behind;
    TakesForward(img, p);
    BehindIs(img, p);
  }

  lemma BehindIs(img: seq<byte>, p: nat)
    requires p + 8 <= |img|
    ensures p < Behind(img, p)
  {
  }

  /** The second pass ends on every image whose lists have no chunk of 2^31 bytes or more. */
  lemma SmallListsEnd(img: seq<byte>, p: nat, items: seq<Metadata>)
    requires |img| < 0x1_0000_0000_0000_0000 && SmallLists(img) && p <= |img|
    ensures !FillFrom(img, p, items).FillHangs?
  {
    hide *;
    forall q: nat | FillMove(img)(q).To? ensures q < FillMove(img)(q).next <= |img| {
      TakesForwardAt(img, q);
    }
    GrowthEnds(FillMove(img), p, (q: nat) => q, |img|, (q: nat) => q <= |img|);
    FillHangsIs(img, p, items);
  }

  /** And opening a file returns on every image in which besides no fmt chunk has 2^31 bytes or more. */
  lemma SmallChunksEnd(img: seq<byte>, flag: bool)
    requires |img| < 0x1_0000_0000_0000_0000 && SmallLists(img)
    requires ReadLead(img).Lead? ==> SmallFmts(img, ReadLead(img).container)
    ensures !Init(img, flag).Hangs?
  {
    hide *;
    InitBy(img, flag);
    var lead := ReadLead(img);
    if lead.Lead? {
      LeadInside(img);
      StartsTogether(lead.dataSize, lead.sampleCount);
      SmallFmtsEnd(img, lead.at, lead.container, flag && !lead.container.W64?, StartScan(lead.dataSize, lead.sampleCount));
      SmallListsEnd(img, lead.at, []);
      OpenedBy(img, lead.at, lead.container,
               ScanFrom(img, lead.at, lead.container, flag && !lead.container.W64?,
                        StartScan(lead.dataSize, lead.sampleCount)));
    }
  }

  lemma InitBy(img: seq<byte>, flag: bool)
    ensures var lead := ReadLead(img);
            Init(img, flag)
            == if lead.NoLead? then Rejected
               else AfterScan(img, lead.at, lead.container,
                              ScanFrom(img, lead.at, lead.container, flag && !lead.container.W64?,
                                       StartScan(lead.dataSize, lead.sampleCount)))
  {
    hide ReadLead, ScanFrom, AfterScan, StartScan;
  }

  lemma StartsTogether(dataSize: nat, sampleCount: nat)
    ensures StartScan(dataSize, sampleCount).drift == 0 && StartScan(dataSize, sampleCount).metadataCount == 0
  {
  }

  // ---- Where they part ----

  lemma ShortFmtTurn(img: seq<byte>, p: nat, size: nat, padding: nat, s: Scan)
    requires p + 16 <= |img| && size <= 16 && s.drift == 0
    ensures var to := s.(foundFmt := true, fmt := BasicFmt(img, p));
            FmtTurn(img, Header(FMT, size, padding, p), s)
            == if p + 16 + padding > |img| then Ends(to) else GoesOn(to, p + 16 + padding)
  {
    hide BasicFmt;
  }

  /** The second pass takes nothing from a fmt chunk. */
  lemma FmtTaken(img: seq<byte>, p: nat, size: nat)
    requires p <= |img|
    ensures FillChunk(img, p, FMT, size) == Took(0, [], p)
  {
    Ids();
  }

  lemma FillMoveIs(img: seq<byte>, p: nat)
    requires p + 8 <= |img|
    ensures FillMove(img)(p) == if TakeTurn(img, p).NoWay? then Stop else To(TakeTurn(img, p).at)
  {
    hide TakeTurn;
  }

  lemma Padded(size: nat)
    ensures size < 16 ==> To64(size + size % 2 - 0) == size + size % 2 <= 16
  {
  }

  /** A fmt chunk that says less than its sixteen bytes: the first pass goes on behind those, the second before. */
  lemma ShortFmtParts(img: seq<byte>, p: nat, c: Container)
    requires (c.Riff? || c.Rf64?) && p + 24 <= |img| && ChunkAt(img, p).id == FMT && ChunkAt(img, p).size < 16
    ensures var size := ChunkAt(img, p).size;
            && ScanMove(img, c, true)(Spot(p, 0))
               == (if p + 24 + size % 2 <= |img| then To(Spot(p + 24 + size % 2, 0)) else Stop)
            && FillMove(img)(p) == To(p + 8 + size + size % 2)
            && p + 8 + size + size % 2 < p + 24 + size % 2
  {
    hide *;
    var size := ChunkAt(img, p).size;
    StartIs();
    HeaderIs(img, p, c);
    MoveIs(img, c, true, p, BLANK);
    TurnIs(img, c, Header(FMT, size, size % 2, p + 8), BLANK);
    ShortFmtTurn(img, p + 8, size, size % 2, BLANK);
    FmtTaken(img, p + 8, size);
    TakeIs(img, p);
    FillMoveIs(img, p);
    Padded(size);
  }

  const FIELDS: seq<byte> := [1, 0, 1, 0, 8, 0, 0, 0, 16, 0, 0, 0, 2, 0, 16, 0]
  const JUNK: Id := [0x6A, 0x75, 0x6E, 0x6B]
  const NONE: seq<byte> := [0, 0, 0, 0]

  /** The format in those sixteen bytes, wherever they are. */
  lemma FieldsPlayable(img: seq<byte>, p: nat)
    requires p + 16 <= |img| && img[p..p + 16] == FIELDS
    ensures Playable(BasicFmt(img, p)) && InRange(BasicFmt(img, p))
  {
    FieldsRead(img, p);
    hide GetU16, GetU32;
  }

  lemma FieldsRead(img: seq<byte>, p: nat)
    requires p + 16 <= |img| && img[p..p + 16] == FIELDS
    ensures GetU16(img, p) == 1 && GetU16(img, p + 2) == 1 && GetU32(img, p + 4) == 8 && GetU32(img, p + 8) == 16
    ensures GetU16(img, p + 12) == 2 && GetU16(img, p + 14) == 16
  {
    forall i | 0 <= i < 16 ensures img[p + i] == FIELDS[i] {
      assert img[p..p + 16][i] == FIELDS[i];
    }
    assert img[p + 0] == 1 && img[p + 1] == 0 && img[p + 2] == 1 && img[p + 3] == 0;
  }

  // ---- Bytes of files ----

  function SizeOf(b: seq<byte>): nat
    requires |b| == 4
  {
    b[0] as int + 256 * (b[1] as int) + 0x1_0000 * (b[2] as int) + 0x100_0000 * (b[3] as int)
  }

  lemma Sizes()
    ensures SizeOf(NONE) == 0 && SizeOf([16, 0, 0, 0]) == 16
    ensures SizeOf([0xF8, 0xFF, 0xFF, 0xFF]) == 0xFFFF_FFF8 && SizeOf([0xF0, 0xFF, 0xFF, 0xFF]) == 0xFFFF_FFF0
  {
  }

  lemma FileStarts(img: seq<byte>, size: seq<byte>)
    requires Holds(img, 0, RIFF_ID + size + WAVE_ID) && |size| == 4
    ensures ReadLead(img) == Lead(Riff, 12, 0, 0)
  {
    hide GetU32, GetU64, Holds;
    HoldsSplit(img, 0, RIFF_ID + size, WAVE_ID);
    HoldsSplit(img, 0, RIFF_ID, size);
    HoldsIs(img, 0, RIFF_ID);
    HoldsIs(img, 8, WAVE_ID);
  }

  lemma ChunkHeld(img: seq<byte>, p: nat, id: Id, size: seq<byte>)
    requires Holds(img, p, id + size) && |size| == 4
    ensures p + 8 <= |img| && img[p..p + 4] == id
    ensures var n := SizeOf(size);
            GetU32(img, p + 4) == n && ChunkAt(img, p) == Chunk(p + 8, id, n)
  {
    hide Holds;
    HoldsSplit(img, p, id, size);
    HoldsIs(img, p, id);
    HoldsIs(img, p + 4, size);
    assert img[p + 4] == img[p + 4..p + 8][0] && img[p + 5] == img[p + 4..p + 8][1];
    assert img[p + 6] == img[p + 4..p + 8][2] && img[p + 7] == img[p + 4..p + 8][3];
  }

  // ---- A file that fills in more than it counts ----

  /** A fmt chunk of size 0, an empty data chunk and an unknown chunk; any size in the header. */
  function ShortFmtFile(size: seq<byte>): seq<byte> {
    RIFF_ID + size + WAVE_ID + FMT + NONE + FIELDS + DATA + NONE + JUNK + NONE
  }

  lemma ShortFmtFileParts(size: seq<byte>)
    requires |size| == 4
    ensures var img := ShortFmtFile(size);
            && |img| == 52 && ReadLead(img) == Lead(Riff, 12, 0, 0) && img[20..36] == FIELDS
            && ChunkAt(img, 12) == Chunk(20, FMT, 0) && ChunkAt(img, 20) == Chunk(28, [1, 0, 1, 0], 8)
            && ChunkAt(img, 36) == Chunk(44, DATA, 0) && ChunkAt(img, 44) == Chunk(52, JUNK, 0)
  {
    hide *;
    var img := ShortFmtFile(size);
    ShortFmtFileIs(img, size);
    FileStarts(img, size);
    ChunkHeld(img, 12, FMT, NONE);
    ChunkHeld(img, 36, DATA, NONE);
    ChunkHeld(img, 44, JUNK, NONE);
    HoldsIs(img, 20, FIELDS);
    Sizes();
    FieldsAsChunk(img, 20);
  }

  lemma ShortFmtFileIs(img: seq<byte>, size: seq<byte>)
    requires |size| == 4 && img == ShortFmtFile(size)
    ensures |img| == 52 && Holds(img, 0, RIFF_ID + size + WAVE_ID) && Holds(img, 12, FMT + NONE)
    ensures Holds(img, 20, FIELDS) && Holds(img, 36, DATA + NONE) && Holds(img, 44, JUNK + NONE)
    ensures |NONE| == 4 && |FIELDS| == 16
  {
    hide Holds;
    var a, b, c, d, e := RIFF_ID + size + WAVE_ID, FMT + NONE, FIELDS, DATA + NONE, JUNK + NONE;
    assert img == a + b + c + d + e;
    HoldsAll(img);
    HoldsSplit(img, 0, a + b + c + d, e);
    HoldsSplit(img, 0, a + b + c, d);
    HoldsSplit(img, 0, a + b, c);
    HoldsSplit(img, 0, a, b);
  }

  /** The format, taken for a chunk: its id are the tag and the channels, its size is the sample rate. */
  lemma FieldsAsChunk(img: seq<byte>, p: nat)
    requires p + 16 <= |img| && img[p..p + 16] == FIELDS
    ensures ChunkAt(img, p) == Chunk(p + 8, [1, 0, 1, 0], 8)
  {
    FieldsRead(img, p);
    assert img[p..p + 4] == img[p..p + 16][..4];
  }

  /** The first pass over a fmt chunk that says nothing but its sixteen bytes, or not even those. */
  lemma ScansFmt(img: seq<byte>, p: nat, size: nat, s: Scan)
    requires p + 24 <= |img| && ChunkAt(img, p) == Chunk(p + 8, FMT, size) && (size == 0 || size == 16)
    ensures ScanFrom(img, p, Riff, true, s)
            == ScanFrom(img, p + 24, Riff, true, s.(foundFmt := true, fmt := BasicFmt(img, p + 8), drift := To64(s.drift + 0)))
  {
    hide ScanFrom, BasicFmt, GetU32, ScanTurn;
    HeaderIs(img, p, Riff);
    ScanStepIs(img, p, Riff, true, s);
    TurnIs(img, Riff, Header(FMT, size, size % 2, p + 8), s);
  }

  /** An empty data chunk, and an empty unknown one. */
  lemma ScansEmpty(img: seq<byte>, p: nat, s: Scan)
    requires p + 8 <= |img| && s.drift == 0
    ensures ChunkAt(img, p) == Chunk(p + 8, DATA, 0) ==>
              ScanFrom(img, p, Riff, true, s)
              == ScanFrom(img, p + 8, Riff, true, s.(foundData := true, dataPos := p + 8, dataSize := 0))
    ensures ChunkAt(img, p) == Chunk(p + 8, JUNK, 0) ==>
              ScanFrom(img, p, Riff, true, s)
              == ScanFrom(img, p + 8, Riff, true, s.(metadataCount := s.metadataCount + 1))
  {
    hide ScanFrom, GetU32, ScanTurn;
    HeaderIs(img, p, Riff);
    ScanStepIs(img, p, Riff, true, s);
    TurnIs(img, Riff, Header(ChunkAt(img, p).id, 0, 0, p + 8), s);
  }

  /** The second pass over a chunk that is no list and in the image. */
  lemma FillsPlain(img: seq<byte>, p: nat, items: seq<Metadata>, n: nat)
    requires p + 8 <= |img| && ChunkAt(img, p).id in [FMT, DATA, JUNK, [1, 0, 1, 0]]
    requires Behind(img, p) <= |img| && n == if NotMetadata(ChunkAt(img, p).id) then 0 else 1
    ensures FillFrom(img, p, items) == FillFrom(img, Behind(img, p), items + ItemsOf(img, ChunkAt(img, p)))
    ensures |items + ItemsOf(img, ChunkAt(img, p))| == |items| + n
  {
    hide FillFrom, WholeItem, GetU32;
    FillStepIs(img, p, items);
    TakeIs(img, p);
  }

  /** What both passes know at the end of such a file. */
  lemma FoundInFile(img: seq<byte>, s: Scan)
    requires |img| >= 36 && img[20..36] == FIELDS
    requires s.foundFmt && s.foundData && s.dataPos <= |img| && s.fmt == BasicFmt(img, 20) && s.metadataCount > 0
    ensures var o := AfterScan(img, 12, Riff, Done(s));
            && (FillFrom(img, 12, []).FillHangs? ==> o == Hangs)
            && (FillFrom(img, 12, []).Filled? ==>
                  o.Opened? && o.wav.metadata == FillFrom(img, 12, []).items && o.wav.metadataCount == s.metadataCount)
  {
    hide FillFrom, BasicFmt, Playable, InRange, FrameCount;
    FieldsPlayable(img, 20);
  }

  /** Two items are filled in where one was counted: the format is taken for the header of a chunk. */
  lemma ShortFmtFillsMore(size: seq<byte>)
    requires |size| == 4
    ensures var r := Init(ShortFmtFile(size), true);
            r.Opened? && r.wav.metadataCount == 1 && |r.wav.metadata| == 2
  {
    hide *;
    var img := ShortFmtFile(size);
    ShortFmtFileParts(size);
    StartIs();
    InitBy(img, true);
    var s0 := BLANK;
    ScansFmt(img, 12, 0, s0);
    var s1 := s0.(foundFmt := true, fmt := BasicFmt(img, 20));
    ScansEmpty(img, 36, s1);
    var s2 := s1.(foundData := true, dataPos := 44, dataSize := 0);
    ScansEmpty(img, 44, s2);
    var s3 := s2.(metadataCount := s2.metadataCount + 1);
    AtEnd(img, s3);
    HeaderIs(img, 12, Riff);
    HeaderIs(img, 20, Riff);
    HeaderIs(img, 36, Riff);
    HeaderIs(img, 44, Riff);
    Ids();
    FillsPlain(img, 12, [], 0);
    var i1 := [] + ItemsOf(img, ChunkAt(img, 12));
    FillsPlain(img, 20, i1, 1);
    var i2 := i1 + ItemsOf(img, ChunkAt(img, 20));
    FillsPlain(img, 36, i2, 0);
    var i3 := i2 + ItemsOf(img, ChunkAt(img, 36));
    FillsPlain(img, 44, i3, 1);
    AtFillEnd(img, i3 + ItemsOf(img, ChunkAt(img, 44)));
    FoundInFile(img, s3);
  }

  lemma StartIs()
    ensures StartScan(0, 0) == BLANK && BLANK.drift == 0 && BLANK.metadataCount == 0 && To64(0 + 0) == 0
    ensures Riff.Riff? && !Riff.W64?
  {
  }

  lemma Ids()
    ensures NotMetadata(FMT) && NotMetadata(DATA) && !NotMetadata(JUNK) && !NotMetadata([1, 0, 1, 0])
  {
  }

  lemma AtEnd(img: seq<byte>, s: Scan)
    ensures ScanFrom(img, |img|, Riff, true, s) == Done(s)
  {
    hide ScanFrom, GetU32;
    ScanStepIs(img, |img|, Riff, true, s);
  }

  lemma AtFillEnd(img: seq<byte>, items: seq<Metadata>)
    ensures FillFrom(img, |img|, items) == Filled(items)
  {
    hide FillFrom;
    FillStepIs(img, |img|, items);
  }

  // ---- A file whose second pass does not end ----

  /**
   A list of 2^32 - 8 bytes whose first chunk has 2^32 - 16: that chunk is skipped by an int, back to the header of
   the list, and all of the list counts as read.
   */
  predicate LoopingList(img: seq<byte>, p: nat) {
    && p + 16 <= |img| && ChunkAt(img, p) == Chunk(p + 8, LIST, 0xFFFF_FFF8)
    && GetU32(img, p + 12) == 0xFFFF_FFF0
    && img[p + 8..p + 12] != ADTL && img[p + 8..p + 12] != INFO && !Kept(img[p + 8..p + 12], Untyped)
  }

  lemma LoopingListStep(img: seq<byte>, p: nat)
    requires LoopingList(img, p)
    ensures FillMove(img)(p) == To(p)
  {
    hide Kept, ListFrom, GetU32;
    LoopingRead(img, p);
    TakeIs(img, p);
  }

  lemma LoopingRead(img: seq<byte>, p: nat)
    requires LoopingList(img, p)
    ensures ListFrom(img, ListStart(p + 8), 0xFFFF_FFF8, true) == ListState(p, 0xFFFF_FFF8, Untyped, 0, [])
  {
    hide Kept, GetU32;
    var s := ListStart(p + 8);
    var r := ListStep(img, s, true);
    assert r == (ListState(p, 0xFFFF_FFF8, Untyped, 0, []), true);
  }

  lemma LoopingListHangs(img: seq<byte>, p: nat, items: seq<Metadata>)
    requires LoopingList(img, p)
    ensures FillFrom(img, p, items).FillHangs?
  {
    hide *;
    LoopingListStep(img, p);
    forall n: nat ensures After(FillMove(img), p, n).To? {
      Circles(FillMove(img), p, n);
    }
    NeverEnds(FillMove(img), p);
    FillHangsIs(img, p, items);
  }

  lemma {:induction false} Circles<S>(move: S -> Move<S>, x: S, n: nat)
    requires move(x) == To(x)
    ensures After(move, x, n) == To(x)
  {
    if n > 0 {
      Circles(move, x, n - 1);
    }
  }

  function LoopingListFile(size: seq<byte>): seq<byte> {
    RIFF_ID + size + WAVE_ID + FMT + [16, 0, 0, 0] + FIELDS + DATA + NONE + JUNK + NONE
    + LIST + [0xF8, 0xFF, 0xFF, 0xFF] + JUNK + [0xF0, 0xFF, 0xFF, 0xFF]
  }

  lemma LoopingListFileParts(size: seq<byte>)
    requires |size| == 4
    ensures var img := LoopingListFile(size);
            && |img| == 68 && ReadLead(img) == Lead(Riff, 12, 0, 0) && img[20..36] == FIELDS
            && ChunkAt(img, 12) == Chunk(20, FMT, 16) && ChunkAt(img, 36) == Chunk(44, DATA, 0)
            && ChunkAt(img, 44) == Chunk(52, JUNK, 0) && LoopingList(img, 52)
  {
    hide *;
    var img := LoopingListFile(size);
    LoopingListFileIs(img, size);
    FileStarts(img, size);
    ChunkHeld(img, 12, FMT, [16, 0, 0, 0]);
    ChunkHeld(img, 36, DATA, NONE);
    ChunkHeld(img, 44, JUNK, NONE);
    ChunkHeld(img, 52, LIST, [0xF8, 0xFF, 0xFF, 0xFF]);
    ChunkHeld(img, 60, JUNK, [0xF0, 0xFF, 0xFF, 0xFF]);
    HoldsIs(img, 20, FIELDS);
    Sizes();
    LoopingListIs(img, 52);
  }

  lemma LoopingListFileIs(img: seq<byte>, size: seq<byte>)
    requires |size| == 4 && img == LoopingListFile(size)
    ensures |img| == 68 && Holds(img, 0, RIFF_ID + size + WAVE_ID) && Holds(img, 12, FMT + [16, 0, 0, 0])
    ensures Holds(img, 20, FIELDS) && Holds(img, 36, DATA + NONE) && Holds(img, 44, JUNK + NONE)
    ensures Holds(img, 52, LIST + [0xF8, 0xFF, 0xFF, 0xFF]) && Holds(img, 60, JUNK + [0xF0, 0xFF, 0xFF, 0xFF])
    ensures |RIFF_ID| == |WAVE_ID| == |FMT| == |DATA| == |JUNK| == |LIST| == |NONE| == 4 && |FIELDS| == 16
  {
    hide Holds;
    var a, b, c := RIFF_ID + size + WAVE_ID, FMT + [16, 0, 0, 0], FIELDS;
    var d, e, f, g := DATA + NONE, JUNK + NONE, LIST + [0xF8, 0xFF, 0xFF, 0xFF], JUNK + [0xF0, 0xFF, 0xFF, 0xFF];
    assert img == a + b + c + d + e + f + g;
    HoldsAll(img);
    HoldsSplit(img, 0, a + b + c + d + e + f, g);
    HoldsSplit(img, 0, a + b + c + d + e, f);
    HoldsSplit(img, 0, a + b + c + d, e);
    HoldsSplit(img, 0, a + b + c, d);
    HoldsSplit(img, 0, a + b, c);
    HoldsSplit(img, 0, a, b);
  }

  lemma LoopingListIs(img: seq<byte>, p: nat)
    requires p + 16 <= |img| && ChunkAt(img, p) == Chunk(p + 8, LIST, 0xFFFF_FFF8)
    requires GetU32(img, p + 12) == 0xFFFF_FFF0 && img[p + 8..p + 12] == JUNK
    ensures LoopingList(img, p)
  {
    hide ChunkAt, GetU32;
    assert JUNK[0] == 0x6A && ADTL[0] == 0x61 && INFO[0] == 0x49;
  }

  /** The first pass over the list: it is the last chunk, and whatever it counts is added. */
  lemma ScansLast(img: seq<byte>, p: nat, s: Scan)
    requires LoopingList(img, p) && |img| == p + 16 && s.drift == 0
    ensures var r := ScanFrom(img, p, Riff, true, s);
            r.Done? && s.metadataCount <= r.scan.metadataCount
            && r.scan == s.(metadataCount := r.scan.metadataCount)
  {
    hide ScanFrom, CountChunk, GetU32, ScanTurn, Kept;
    HeaderIs(img, p, Riff);
    ScanStepIs(img, p, Riff, true, s);
    TurnIs(img, Riff, Header(LIST, 0xFFFF_FFF8, 0, p + 8), s);
  }

  /** Opened with metadata, the file of 68 bytes is never done: its first pass ends, its second does not. */
  lemma LoopingListFileHangs(size: seq<byte>)
    requires |size| == 4
    ensures |LoopingListFile(size)| == 68 && Init(LoopingListFile(size), true) == Hangs
  {
    hide *;
    var img := LoopingListFile(size);
    LoopingListFileParts(size);
    StartIs();
    InitBy(img, true);
    var s0 := BLANK;
    ScansFmt(img, 12, 16, s0);
    var s1 := s0.(foundFmt := true, fmt := BasicFmt(img, 20));
    ScansEmpty(img, 36, s1);
    var s2 := s1.(foundData := true, dataPos := 44, dataSize := 0);
    ScansEmpty(img, 44, s2);
    var s3 := s2.(metadataCount := s2.metadataCount + 1);
    ScansLast(img, 52, s3);
    HeaderIs(img, 12, Riff);
    HeaderIs(img, 36, Riff);
    HeaderIs(img, 44, Riff);
    Ids();
    FillsPlain(img, 12, [], 0);
    var i1 := [] + ItemsOf(img, ChunkAt(img, 12));
    FillsPlain(img, 36, i1, 0);
    var i2 := i1 + ItemsOf(img, ChunkAt(img, 36));
    FillsPlain(img, 44, i2, 1);
    LoopingListHangs(img, 52, i2 + ItemsOf(img, ChunkAt(img, 44)));
    FoundInFile(img, ScanFrom(img, 52, Riff, true, s3).scan);
  }
}
