/**
 What dr_wav's metadata parser asks for in the counting pass and takes in the fill pass, chunk by chunk.
 The fill pass never takes more than was asked for, but for one kind of chunk: a bext chunk with three
 texts and a coding history takes one byte more.
 */
module MetadataMemory {
  import opened BroadcastWave
  import opened BumpAllocator
  import opened ByteImages
  import opened Bytes
  import opened WavMetadata
  import opened WavMetadataParser

  const METADATA_ALIGNMENT := 8

  // ---- Chunks outside any list ----

  /** A copy of a text takes its terminator too; an empty one takes nothing. */
  function CopyOf(length: nat): seq<Request> {
    if length > 0 then [Request(length + 1, 1)] else []
  }

  /** The lengths of the three texts of a bext chunk. */
  function Lengths(img: seq<byte>, pos: nat): (nat, nat, nat)
    requires pos + 320 <= |img|
  {
    (|UpToNul(img[pos..pos + 256])|, |UpToNul(img[pos + 256..pos + 288])|, |UpToNul(img[pos + 288..pos + 320])|)
  }

  predicate LoopsCounted(img: seq<byte>, pos: nat, size: nat)
    requires size >= 36
  {
    pos + 36 <= |img| && GetU32(img, pos + 28) == (size - 36) / 24
  }

  /** The counting pass. */
  function Asked(img: seq<byte>, pos: nat, id: Id, size: nat): seq<Request>
    requires pos <= |img|
  {
    if !WellSized(id, size) || NotMetadata(id) || id == INST || id == ACID then []
    else if id == SMPL then
      if LoopsCounted(img, pos, size)
      then [Request(24 * GetU32(img, pos + 28), METADATA_ALIGNMENT), Request(GetU32(img, pos + 32), 1)] else []
    else if id == CUE then [Request(24 * ((size - 4) / 24), METADATA_ALIGNMENT)]
    else if id == BEXT then
      if pos + 320 <= |img| then
        var (a, b, c) := Lengths(img, pos);
        [Request(64 + (a + 1) + (b + 1) + (c + 1) + (size - 602), 1)]
      else []
    else [Request(size, 1)]
  }

  /** The fill pass. */
  function Taken(img: seq<byte>, pos: nat, id: Id, size: nat): seq<Request>
    requires pos <= |img|
  {
    if !WellSized(id, size) || NotMetadata(id) || id == INST || id == ACID then []
    else if id == SMPL then
      if LoopsCounted(img, pos, size) then
        [Request(24 * GetU32(img, pos + 28), METADATA_ALIGNMENT)]
        + if GetU32(img, pos + 32) > 0 then [Request(GetU32(img, pos + 32), 1)] else []
      else []
    else if id == CUE then
      if pos + 4 <= |img| && GetU32(img, pos) == (size - 4) / 24
      then [Request(24 * GetU32(img, pos), METADATA_ALIGNMENT)] else []
    else if id == BEXT then
      if pos + 602 <= |img| then
        var (a, b, c) := Lengths(img, pos);
        CopyOf(a) + CopyOf(b) + CopyOf(c) + [Request(64, 1)] + CopyOf(size - 602)
      else []
    else [Request(size, 1)]
  }

  /** A bext chunk whose texts are all there, with something after the fixed part. */
  predicate Overfull(img: seq<byte>, pos: nat, id: Id, size: nat) {
    && id == BEXT && size > 602 && pos + 602 <= |img|
    && var (a, b, c) := Lengths(img, pos); a > 0 && b > 0 && c > 0
  }

  lemma {:induction false} CostsJoin(a: seq<Request>, b: seq<Request>)
    ensures Costs(a + b) == Costs(a) + Costs(b)
    decreases |b|
  {
    if b == [] {
      assert a + b == a;
    } else {
      assert (a + b)[..|a + b| - 1] == a + b[..|b| - 1];
      CostsJoin(a, b[..|b| - 1]);
    }
  }

  lemma CostsOfOne(r: Request)
    ensures Costs([r]) == Cost(r) && Costs([]) == 0
    ensures r.align == 1 ==> Costs([r]) == r.size
  {
    CostsStep([], r);
    assert [] + [r] == [r];
  }

  lemma CopyCost(length: nat)
    ensures Costs(CopyOf(length)) == if length > 0 then length + 1 else 0
  {
    CostsOfOne(Request(length + 1, 1));
  }

  /** The five blocks of a bext chunk, in the order in which they are taken. */
  lemma BextCost(a: nat, b: nat, c: nat, rest: nat)
    ensures Costs(CopyOf(a) + CopyOf(b) + CopyOf(c) + [Request(64, 1)] + CopyOf(rest))
            == Costs(CopyOf(a)) + Costs(CopyOf(b)) + Costs(CopyOf(c)) + 64 + Costs(CopyOf(rest))
  {
    hide *;
    var r := [Request(64, 1)];
    CostsOfOne(Request(64, 1));
    CostsJoin(CopyOf(a), CopyOf(b));
    CostsJoin(CopyOf(a) + CopyOf(b), CopyOf(c));
    CostsJoin(CopyOf(a) + CopyOf(b) + CopyOf(c), r);
    CostsJoin(CopyOf(a) + CopyOf(b) + CopyOf(c) + r, CopyOf(rest));
  }

  /** What is taken for a chunk is at most what was asked for, except for an overfull bext: one byte more. */
  lemma TakenIff(img: seq<byte>, pos: nat, id: Id, size: nat)
    requires pos <= |img|
    ensures Costs(Taken(img, pos, id, size)) <= Costs(Asked(img, pos, id, size)) <==> !Overfull(img, pos, id, size)
    ensures Overfull(img, pos, id, size)
            ==> Costs(Taken(img, pos, id, size)) == Costs(Asked(img, pos, id, size)) + 1
  {
    hide Costs, CopyOf, UpToNul, GetU32;
    CostsOfOne(Request(0, 1));
    if !WellSized(id, size) || NotMetadata(id) || id == INST || id == ACID {
    } else if id == SMPL {
      if LoopsCounted(img, pos, size) {
        var loops, extra := Request(24 * GetU32(img, pos + 28), METADATA_ALIGNMENT), Request(GetU32(img, pos + 32), 1);
        assert [loops, extra] == [loops] + [extra] && [loops] + [] == [loops];
        CostsJoin([loops], [extra]);
        CostsOfOne(extra);
      }
    } else if id == CUE {
      CostsOfOne(Request(24 * ((size - 4) / 24), METADATA_ALIGNMENT));
    } else if id == BEXT {
      if pos + 320 <= |img| {
        var (a, b, c) := Lengths(img, pos);
        CostsOfOne(Request(64 + (a + 1) + (b + 1) + (c + 1) + (size - 602), 1));
        if pos + 602 <= |img| {
          BextCost(a, b, c, size - 602);
          CopyCost(a);
          CopyCost(b);
          CopyCost(c);
          CopyCost(size - 602);
        }
      }
    }
  }

  /**
   No more items are filled in for a chunk than were counted for it, except for a smpl chunk of 36 bytes whose
   loop count is not 0: it is not counted, but its 36 bytes are read whole, so it is filled in.
   */
  lemma FilledIsCountedIff(img: seq<byte>, pos: nat, id: Id, size: nat)
    requires pos <= |img|
    ensures |FillTop(img, pos, id, size).items| <= CountTop(img, pos, id, size)
            <==> !(id == SMPL && size == 36 && pos + 36 <= |img| && GetU32(img, pos + 28) != 0)
  {
    hide WholeItem, ReadLoops, ReadPoints, GetU32;
  }

  // ---- What the memory is for ----

  function Sizes(rs: seq<Request>): nat {
    if rs == [] then 0 else rs[0].size + Sizes(rs[1..])
  }

  lemma {:induction false} SizesJoin(a: seq<Request>, b: seq<Request>)
    ensures Sizes(a + b) == Sizes(a) + Sizes(b)
  {
    if a == [] {
      assert a + b == b;
    } else {
      assert (a + b)[1..] == a[1..] + b;
      SizesJoin(a[1..], b);
    }
  }

  lemma SizesOfOne(r: Request)
    ensures Sizes([r]) == r.size && Sizes([]) == 0
  {
    assert [r][1..] == [];
  }

  /** A copied text has its terminator; one that is empty has nothing. */
  function CopyBytes(text: seq<byte>): nat { if text == [] then 0 else |text| + 1 }

  /** The bytes that the item of a chunk refers to. */
  function Room(m: Metadata, size: nat): nat {
    match m
    case Smpl(_, _, extraSize, loops, _) => 24 * |loops| + extraSize
    case Cue(_, points) => 24 * |points|
    case Bext(b) =>
      CopyBytes(b.description) + CopyBytes(b.originatorName) + CopyBytes(b.originatorReference) + 64
      + (if size > 602 then size - 601 else 0)
    case Unknown(_, _, data) => |data|
    case _ => 0
  }

  /** What is taken for a chunk whose item is kept is what the item needs, no more and no less. */
  lemma TakenIsRoom(img: seq<byte>, pos: nat, id: Id, size: nat)
    requires pos <= |img| && FillTop(img, pos, id, size).items != [] && (id == SMPL ==> size >= 36 && LoopsCounted(img, pos, size))
    ensures |FillTop(img, pos, id, size).items| == 1
    ensures Sizes(Taken(img, pos, id, size)) == Room(FillTop(img, pos, id, size).items[0], size)
  {
    hide Sizes, CopyOf, UpToNul, GetU32, GetU16, GetU64, ReadLoop, ReadPoint;
    SizesOfOne(Request(0, 1));
    if id == SMPL {
      var loops, extra := Request(24 * GetU32(img, pos + 28), METADATA_ALIGNMENT), Request(GetU32(img, pos + 32), 1);
      SizesJoin([loops], if extra.size > 0 then [extra] else []);
      SizesOfOne(loops);
      SizesOfOne(extra);
    } else if id == CUE {
      SizesOfOne(Request(24 * GetU32(img, pos), METADATA_ALIGNMENT));
    } else if id == BEXT {
      var (a, b, c) := Lengths(img, pos);
      BextSizes(a, b, c, size - 602);
      BextTexts(img, pos, size);
    } else {
      SizesOfOne(Request(size, 1));
    }
  }

  /** Loops and points are aligned to eight bytes, all else to any. */
  lemma TakenAligned(img: seq<byte>, pos: nat, id: Id, size: nat, r: Request)
    requires pos <= |img| && r in Taken(img, pos, id, size)
    ensures r.align == 8 || r.align == 1
    ensures r.align == 8 ==> id == SMPL || id == CUE
    ensures id == CUE ==> r.align == 8
    ensures id == SMPL ==> Taken(img, pos, id, size)[0].align == 8
  {
    hide UpToNul, GetU32;
  }

  lemma BextSizes(a: nat, b: nat, c: nat, rest: nat)
    ensures Sizes(CopyOf(a) + CopyOf(b) + CopyOf(c) + [Request(64, 1)] + CopyOf(rest))
            == (if a > 0 then a + 1 else 0) + (if b > 0 then b + 1 else 0) + (if c > 0 then c + 1 else 0) + 64
               + (if rest > 0 then rest + 1 else 0)
  {
    hide *;
    var r := [Request(64, 1)];
    SizesOfOne(Request(64, 1));
    CopySize(a);
    CopySize(b);
    CopySize(c);
    CopySize(rest);
    SizesJoin(CopyOf(a), CopyOf(b));
    SizesJoin(CopyOf(a) + CopyOf(b), CopyOf(c));
    SizesJoin(CopyOf(a) + CopyOf(b) + CopyOf(c), r);
    SizesJoin(CopyOf(a) + CopyOf(b) + CopyOf(c) + r, CopyOf(rest));
  }

  lemma CopySize(length: nat)
    ensures Sizes(CopyOf(length)) == if length > 0 then length + 1 else 0
  {
    SizesOfOne(Request(length + 1, 1));
  }

  lemma BextTexts(img: seq<byte>, pos: nat, size: nat)
    requires size >= 602 && pos + size <= |img|
    ensures var r := img[pos..pos + size];
            && r[..256] == img[pos..pos + 256] && r[256..288] == img[pos + 256..pos + 288]
            && r[288..320] == img[pos + 288..pos + 320]
  {
    var r := img[pos..pos + size];
    assert r[..288] == img[pos..pos + 288] && r[..320] == img[pos..pos + 320];
  }

  // ---- Chunks inside a list ----

  /** How much of a chunk is read before its text. */
  function Lead(id: Id): nat {
    if id == LABL || id == NOTE then 4 else if id == LTXT then 20 else 0
  }

  function AskedInList(id: Id, size: nat, kind: ListType): seq<Request> {
    if SubSized(id, size) && Kept(id, kind) then [Request(size - Lead(id), 1)] else []
  }

  function TakenInList(img: seq<byte>, pos: nat, id: Id, size: nat, kind: ListType): seq<Request>
    requires pos <= |img|
  {
    if !SubSized(id, size) || !Kept(id, kind) || pos + Lead(id) > |img| then []
    else if (Lead(id) > 0 || KindOf(id).Some?) && size == Lead(id) then []
    else [Request(size - Lead(id), 1)]
  }

  lemma TakenInListFits(img: seq<byte>, pos: nat, id: Id, size: nat, kind: ListType)
    requires pos <= |img|
    ensures Costs(TakenInList(img, pos, id, size, kind)) <= Costs(AskedInList(id, size, kind))
  {
    hide Costs, Kept, KindOf;
    if SubSized(id, size) {
      CostsOfOne(Request(size - Lead(id), 1));
    }
  }

  /** For a chunk of a list that is kept: its text with the byte that ends it, or all of an unknown one. */
  lemma TakenInListIsRoom(img: seq<byte>, pos: nat, id: Id, size: nat, kind: ListType)
    requires pos + size <= |img| && SubSized(id, size) && Kept(id, kind) && (kind.Typed? ==> !kind.place.Top?)
    ensures var g := FillSub(img, pos, id, size, kind);
            && |g.items| == 1
            && Sizes(TakenInList(img, pos, id, size, kind))
               == match g.items[0]
                  case Label(_, text) => (if size > 4 then |text| + 1 else 0)
                  case Note(_, text) => (if size > 4 then |text| + 1 else 0)
                  case LabelledRegion(_, _, _, _, _, _, _, text) => (if size > 20 then |text| + 1 else 0)
                  case Info(_, text) => (if size > 0 then |text| + 1 else 0)
                  case Unknown(_, _, data) => |data|
                  case _ => 0
  {
    hide Sizes, GetU32, GetU16, KindOf, NotMetadata;
    SizesOfOne(Request(size - Lead(id), 1));
  }

  /** The requests of a turn of the loop over a list. */
  function StepAsks(img: seq<byte>, s: ListState, fill: bool): seq<Request>
    requires SaneList(img, s)
  {
    var p := s.at;
    if p + 8 > |img| || img[p..p + 4] == ADTL || img[p..p + 4] == INFO then []
    else
      var id, size := img[p..p + 4], GetU32(img, p + 4);
      if fill then TakenInList(img, p + 8, id, size, s.kind) else AskedInList(id, size, s.kind)
  }

  function ListAsks(img: seq<byte>, s: ListState, size: nat, fill: bool): seq<Request>
    requires SaneList(img, s)
    decreases size - s.read
  {
    if s.read >= size then []
    else
      var (s', more) := ListStep(img, s, fill);
      StepAsks(img, s, fill) + if more then ListAsks(img, s', size, fill) else []
  }

  /** The chunk of this turn, if any, is smaller than 2^31 bytes. */
  predicate SmallTurn(img: seq<byte>, s: ListState)
    requires SaneList(img, s)
  {
    var p := s.at;
    p + 8 <= |img| && img[p..p + 4] != ADTL && img[p..p + 4] != INFO ==> GetU32(img, p + 4) < 0x8000_0000
  }

  /** And so are those of all turns, as the counting pass meets them. */
  predicate SmallChunks(img: seq<byte>, s: ListState, size: nat)
    requires SaneList(img, s)
    decreases size - s.read
  {
    s.read >= size
    || (SmallTurn(img, s)
        && var (s', more) := ListStep(img, s, false);
           more ==> SmallChunks(img, s', size))
  }

  /** The same place in the list. */
  predicate SamePlace(s: ListState, t: ListState) {
    s.at == t.at && s.read == t.read && s.kind == t.kind
  }

  lemma SkipSame(img: seq<byte>, s: ListState, t: ListState, left: nat, more: nat)
    requires SaneList(img, s) && SaneList(img, t) && left + more < 0x8000_0000
    requires t.at == s.at + more && t.read == s.read + more && s.kind == t.kind
    ensures SkipLeft(img, s, left + more).1 == SkipLeft(img, t, left).1
    ensures SkipLeft(img, t, left).1 ==> SamePlace(SkipLeft(img, s, left + more).0, SkipLeft(img, t, left).0)
  {
  }

  /** Below 2^31 bytes, both passes get from one place to the same next one. */
  lemma StepSame(img: seq<byte>, s: ListState, t: ListState)
    requires SaneList(img, s) && SaneList(img, t) && SamePlace(s, t) && SmallTurn(img, s)
    ensures var a, b := ListStep(img, s, false), ListStep(img, t, true);
            a.1 == b.1 && (a.1 ==> SamePlace(a.0, b.0))
  {
    hide FillSub, CountSub, GetU32, SkipLeft;
    var p := s.at;
    if p + 8 <= |img| && img[p..p + 4] != ADTL && img[p..p + 4] != INFO {
      var id, size := img[p..p + 4], GetU32(img, p + 4);
      var g := FillSub(img, p + 8, id, size, s.kind);
      var s' := Past(s, 8).(items := s.items, count := s.count + CountSub(id, size, s.kind));
      var t' := Past(t, 8 + g.read).(items := t.items + g.items, count := t.count + CountSub(id, size, s.kind));
      assert s.items + [] == s.items;
      SkipSame(img, s', t', size - g.read, g.read);
    }
  }

  lemma StepAsksFit(img: seq<byte>, s: ListState, t: ListState)
    requires SaneList(img, s) && SaneList(img, t) && SamePlace(s, t)
    ensures Costs(StepAsks(img, t, true)) <= Costs(StepAsks(img, s, false))
  {
    hide Costs, TakenInList, AskedInList, GetU32;
    var p := s.at;
    if p + 8 <= |img| && img[p..p + 4] != ADTL && img[p..p + 4] != INFO {
      TakenInListFits(img, p + 8, img[p..p + 4], GetU32(img, p + 4), s.kind);
    }
  }

  /** So for a whole list no more is taken than was asked for. */
  lemma {:induction false} ListAsksFit(img: seq<byte>, s: ListState, t: ListState, size: nat)
    requires SaneList(img, s) && SaneList(img, t) && SamePlace(s, t) && SmallChunks(img, s, size)
    ensures Costs(ListAsks(img, t, size, true)) <= Costs(ListAsks(img, s, size, false))
    decreases size - s.read
  {
    hide Costs, ListStep, StepAsks, SmallTurn;
    if s.read < size {
      StepSame(img, s, t);
      StepAsksFit(img, s, t);
      var a, b := ListStep(img, s, false), ListStep(img, t, true);
      CostsOfOne(Request(0, 1));
      if a.1 {
        ListAsksFit(img, a.0, b.0, size);
        CostsJoin(StepAsks(img, s, false), ListAsks(img, a.0, size, false));
        CostsJoin(StepAsks(img, t, true), ListAsks(img, b.0, size, true));
      } else {
        CostsJoin(StepAsks(img, s, false), []);
        CostsJoin(StepAsks(img, t, true), []);
      }
    }
  }

  // ---- All chunks ----

  /** A chunk that both passes meet: where its body is, its id and its size. */
  datatype Chunk = Chunk(at: nat, id: Id, size: nat)

  function ChunkAsks(img: seq<byte>, c: Chunk, fill: bool): seq<Request>
    requires c.at <= |img|
  {
    if IsList(c.id) then ListAsks(img, ListStart(c.at), c.size, fill)
    else if fill then Taken(img, c.at, c.id, c.size)
    else Asked(img, c.at, c.id, c.size)
  }

  /** In the image, and no list in it holds a chunk of 2^31 bytes or more. */
  predicate Ordinary(img: seq<byte>, c: Chunk) {
    c.at <= |img| && (IsList(c.id) ==> SmallChunks(img, ListStart(c.at), c.size))
  }

  lemma ChunkIff(img: seq<byte>, c: Chunk)
    requires Ordinary(img, c)
    ensures var asked, taken := Costs(ChunkAsks(img, c, false)), Costs(ChunkAsks(img, c, true));
            if Overfull(img, c.at, c.id, c.size) then taken == asked + 1 else taken <= asked
  {
    hide Asked, Taken, ListAsks, SmallChunks, Costs;
    if IsList(c.id) {
      ListAsksFit(img, ListStart(c.at), ListStart(c.at), c.size);
    } else {
      TakenIff(img, c.at, c.id, c.size);
    }
  }

  predicate AllOrdinary(img: seq<byte>, cs: seq<Chunk>) {
    forall c :: c in cs ==> Ordinary(img, c)
  }

  /** All requests of a pass, in order. */
  function AllAsks(img: seq<byte>, cs: seq<Chunk>, fill: bool): seq<Request>
    requires AllOrdinary(img, cs)
  {
    if cs == [] then []
    else
      assert cs[|cs| - 1] in cs;
      AllAsks(img, cs[..|cs| - 1], fill) + ChunkAsks(img, cs[|cs| - 1], fill)
  }

  function OverfullOnes(img: seq<byte>, cs: seq<Chunk>): nat {
    if cs == [] then 0
    else
      var c := cs[|cs| - 1];
      OverfullOnes(img, cs[..|cs| - 1]) + if Overfull(img, c.at, c.id, c.size) then 1 else 0
  }

  lemma {:induction false} AllAsksFit(img: seq<byte>, cs: seq<Chunk>)
    requires AllOrdinary(img, cs)
    ensures Costs(AllAsks(img, cs, true)) <= Costs(AllAsks(img, cs, false)) + OverfullOnes(img, cs)
  {
    if cs != [] {
      var before, c := cs[..|cs| - 1], cs[|cs| - 1];
      AllAsksFit(img, before);
      hide Costs, ChunkAsks, Overfull, Ordinary;
      ChunkIff(img, c);
      CostsJoin(AllAsks(img, before, false), ChunkAsks(img, c, false));
      CostsJoin(AllAsks(img, before, true), ChunkAsks(img, c, true));
    }
  }

  /**
   The memory is enough for any chunks without an overfull bext, wherever it lies and however the blocks are
   aligned; each overfull bext takes at most one byte more.
   */
  lemma MemoryIsEnough(img: seq<byte>, cs: seq<Chunk>, start: nat)
    requires AllOrdinary(img, cs)
    ensures CursorAfter(start, AllAsks(img, cs, true))
            <= start + Costs(AllAsks(img, cs, false)) + OverfullOnes(img, cs)
  {
    hide *;
    AllAsksFit(img, cs);
    CursorWithinCosts(start, AllAsks(img, cs, true));
  }

  /** Blocks that need no alignment lie back to back. */
  lemma {:induction false} Unaligned(start: nat, rs: seq<Request>)
    requires forall r :: r in rs ==> r.align == 1
    ensures CursorAfter(start, rs) == start + Costs(rs)
  {
    if rs != [] {
      Unaligned(start, rs[..|rs| - 1]);
    }
  }

  /** A file whose only chunk with metadata is an overfull bext: the last block ends one byte behind the memory. */
  lemma OneByteMore(img: seq<byte>, c: Chunk, start: nat)
    requires Ordinary(img, c) && Overfull(img, c.at, c.id, c.size)
    ensures CursorAfter(start, AllAsks(img, [c], true)) == start + Costs(AllAsks(img, [c], false)) + 1
  {
    hide *;
    OneChunk(img, c);
    TakenIff(img, c.at, c.id, c.size);
    BackToBack(img, c);
    Unaligned(start, Taken(img, c.at, c.id, c.size));
  }

  lemma OneChunk(img: seq<byte>, c: Chunk)
    requires Ordinary(img, c) && Overfull(img, c.at, c.id, c.size)
    ensures c.at <= |img| && AllOrdinary(img, [c])
    ensures AllAsks(img, [c], true) == Taken(img, c.at, c.id, c.size)
    ensures AllAsks(img, [c], false) == Asked(img, c.at, c.id, c.size)
  {
    hide Taken, Asked, Lengths, SmallChunks;
    var cs := [c];
    assert cs[..0] == [];
    Alone(Taken(img, c.at, c.id, c.size));
    Alone(Asked(img, c.at, c.id, c.size));
  }

  lemma Alone(rs: seq<Request>)
    ensures [] + rs == rs
  {
  }

  lemma BackToBack(img: seq<byte>, c: Chunk)
    requires c.at <= |img| && Overfull(img, c.at, c.id, c.size)
    ensures forall r :: r in Taken(img, c.at, c.id, c.size) ==> r.align == 1
  {
    hide UpToNul;
  }

  /** The bext items whose chunk is overfull: no text is empty, and there is a coding history. */
  lemma OverfullIff(img: seq<byte>, pos: nat, b: Broadcast)
    requires Holds(img, pos, BextBytes(b))
    ensures Overfull(img, pos, BEXT, |BextBytes(b)|)
            <==> b.description != [] && b.originatorName != [] && b.originatorReference != [] && b.codingHistory != []
  {
    hide *;
    HoldsIs(img, pos, BextBytes(b));
    BextHeld(img, pos, b);
    PartsOf(b);
    BytesAre(b);
    TextsBack(b, BextBytes(b));
    OverfullIs(img, pos, |BextBytes(b)|);
    NotEmpty(b);
  }

  lemma BextHeld(img: seq<byte>, pos: nat, b: Broadcast)
    requires pos + |BextBytes(b)| <= |img| && img[pos..pos + |BextBytes(b)|] == BextBytes(b)
    ensures |BextBytes(b)| == 602 + |b.codingHistory|
    ensures img[pos..pos + 256] == BextBytes(b)[..256] && img[pos + 256..pos + 288] == BextBytes(b)[256..288]
    ensures img[pos + 288..pos + 320] == BextBytes(b)[288..320]
  {
    hide Texts, Numbers, Zeros;
    StretchHeld(img, pos, BextBytes(b), 0, 256);
    StretchHeld(img, pos, BextBytes(b), 256, 288);
    StretchHeld(img, pos, BextBytes(b), 288, 320);
  }

  lemma StretchHeld(img: seq<byte>, pos: nat, r: seq<byte>, i: nat, j: nat)
    requires i <= j <= |r| && pos + |r| <= |img| && img[pos..pos + |r|] == r
    ensures img[pos + i..pos + j] == r[i..j]
  {
    forall k | i <= k < j ensures img[pos + k] == r[k] {
      assert img[pos..pos + |r|][k] == r[k];
    }
  }

  lemma OverfullIs(img: seq<byte>, pos: nat, size: nat)
    ensures Overfull(img, pos, BEXT, size)
            <==> size > 602 && pos + 602 <= |img|
                 && |UpToNul(img[pos..pos + 256])| > 0 && |UpToNul(img[pos + 256..pos + 288])| > 0
                 && |UpToNul(img[pos + 288..pos + 320])| > 0
  {
    hide UpToNul;
  }

  lemma NotEmpty(b: Broadcast)
    ensures Clipped(b.description, 256) == [] <==> b.description == []
    ensures Clipped(b.originatorName, 32) == [] <==> b.originatorName == []
    ensures Clipped(b.originatorReference, 32) == [] <==> b.originatorReference == []
  {
  }
}
