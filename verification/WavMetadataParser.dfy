/**
 Reading metadata back: dr_wav's parser. One pass counts the items, a second one fills them in; both
 walk the same chunks through `drwav__metadata_process_chunk`. What is written by WavMetadata is read
 back item for item.
 */
module WavMetadataParser {
  import opened BroadcastWave
  import opened ByteImages
  import opened Bytes
  import opened WavMetadata

  // ---- Reading and seeking in a memory image ----

  /** How many of `n` bytes there are at `pos`. */
  function Avail(img: seq<byte>, pos: nat, n: nat): (r: nat)
    requires pos <= |img|
    ensures r <= n && pos + r <= |img| && (r == n <==> pos + n <= |img|)
  {
    if pos + n <= |img| then n else |img| - pos
  }

  // ---- The fill pass, item by item: what is read, and the item when all of it was there ----

  datatype Got = Got(read: nat, items: seq<Metadata>)

  function ReadPoint(img: seq<byte>, p: nat): CuePoint
    requires p + 24 <= |img|
  {
    CuePoint(GetU32(img, p), GetU32(img, p + 4), img[p + 8..p + 12], GetU32(img, p + 12), GetU32(img, p + 16),
             GetU32(img, p + 20))
  }

  function ReadPoints(img: seq<byte>, p: nat, n: nat): (ps: seq<CuePoint>)
    requires p + 24 * n <= |img|
    ensures |ps| == n
  {
    if n == 0 then [] else ReadPoints(img, p, n - 1) + [ReadPoint(img, p + 24 * (n - 1))]
  }

  function ReadLoop(img: seq<byte>, p: nat): SampleLoop
    requires p + 24 <= |img|
  {
    SampleLoop(GetU32(img, p), GetU32(img, p + 4), GetU32(img, p + 8), GetU32(img, p + 12), GetU32(img, p + 16),
               GetU32(img, p + 20))
  }

  function ReadLoops(img: seq<byte>, p: nat, n: nat): (ls: seq<SampleLoop>)
    requires p + 24 * n <= |img|
    ensures |ls| == n
  {
    if n == 0 then [] else ReadLoops(img, p, n - 1) + [ReadLoop(img, p + 24 * (n - 1))]
  }

  /** All that is left of the image, and no item. */
  function Short(img: seq<byte>, pos: nat): Got
    requires pos <= |img|
  {
    Got(|img| - pos, [])
  }

  function FillCue(img: seq<byte>, pos: nat, size: nat): (g: Got)
    requires pos <= |img| && size >= 4
    ensures pos + g.read <= |img|
  {
    if pos + 4 > |img| then Short(img, pos)
    else
      var count := GetU32(img, pos);
      if count == (size - 4) / 24 then
        var read := 4 + Avail(img, pos + 4, 24 * count);
        Got(read, if read == size then [Cue(count, ReadPoints(img, pos + 4, count))] else [])
      else Got(4, if size == 4 then [Cue(count, [])] else [])
  }

  function FillSmpl(img: seq<byte>, pos: nat, size: nat): (g: Got)
    requires pos <= |img| && size >= 36
    ensures pos + g.read <= |img|
  {
    if pos + 36 > |img| then Short(img, pos)
    else
      var loopCount, extraSize := GetU32(img, pos + 28), GetU32(img, pos + 32);
      if loopCount == (size - 36) / 24 then
        var inLoops := Avail(img, pos + 36, 24 * loopCount);
        var inExtra := Avail(img, pos + 36 + inLoops, extraSize);
        Got(36 + inLoops + inExtra,
            if 36 + inLoops + inExtra == size then
              [Smpl(img[pos..pos + 28], loopCount, extraSize, ReadLoops(img, pos + 36, loopCount),
                    img[pos + 36 + inLoops..pos + size])]
            else [])
      else Got(36, if size == 36 then [Smpl(img[pos..pos + 28], loopCount, extraSize, [], [])] else [])
  }

  /** A text without its last byte, the terminator. */
  function TextOf(b: seq<byte>): seq<byte> {
    if |b| > 0 then b[..|b| - 1] else []
  }

  /** The items whose chunk has a body that is read as a whole. */
  function WholeItem(id: Id, place: Place, b: seq<byte>): Metadata
    requires (id == INST && place.Top? ==> |b| == 7) && (id == ACID && place.Top? ==> |b| == 24)
    requires id == BEXT && place.Top? ==> |b| >= 602
    requires (id == LABL || id == NOTE) && !place.Top? ==> |b| >= 4
    requires id == LTXT && !place.Top? ==> |b| >= 20
  {
    if place.Top? then
      if id == INST then Inst(b) else if id == ACID then Acid(b) else if id == BEXT then Bext(ReadBext(b))
      else Unknown(TopLevel, id, b)
    else if id == LABL then Label(GetU32(b, 0), TextOf(b[4..]))
    else if id == NOTE then Note(GetU32(b, 0), TextOf(b[4..]))
    else if id == LTXT then
      LabelledRegion(GetU32(b, 0), GetU32(b, 4), b[8..12], GetU16(b, 12), GetU16(b, 14), GetU16(b, 16),
                     GetU16(b, 18), TextOf(b[20..]))
    else if KindOf(id).Some? then Info(KindOf(id).kind, TextOf(b))
    else Unknown(if place.InInfo? then InsideInfo else InsideAdtl, id, b)
  }

  datatype SomeKind = None | Some(kind: InfoKind)

  function KindOf(id: Id): SomeKind {
    if id == InfoId(Software) then Some(Software)
    else if id == InfoId(Copyright) then Some(Copyright)
    else if id == InfoId(Title) then Some(Title)
    else if id == InfoId(Artist) then Some(Artist)
    else if id == InfoId(Comment) then Some(Comment)
    else if id == InfoId(Date) then Some(Date)
    else if id == InfoId(Genre) then Some(Genre)
    else if id == InfoId(Album) then Some(Album)
    else if id == InfoId(TrackNumber) then Some(TrackNumber)
    else None
  }

  /** Chunks that are never metadata. */
  predicate NotMetadata(id: Id) { id == DATA || id == FMT || id == FACT }

  /** A chunk outside any list, lists excepted, has the size that its id requires. */
  predicate WellSized(id: Id, size: nat) {
    && (id == SMPL ==> size >= 36) && (id == INST ==> size == 7) && (id == ACID ==> size == 24)
    && (id == CUE ==> size >= 4) && (id == BEXT ==> size >= 602)
  }

  function FillTop(img: seq<byte>, pos: nat, id: Id, size: nat): (g: Got)
    requires pos <= |img|
    ensures pos + g.read <= |img|
  {
    if !WellSized(id, size) || NotMetadata(id) then Got(0, [])
    else if id == SMPL then FillSmpl(img, pos, size)
    else if id == CUE then FillCue(img, pos, size)
    else if pos + size <= |img| then Got(size, [WholeItem(id, Top, img[pos..pos + size])])
    else Short(img, pos)
  }

  /** Whether the counting pass counts a chunk outside any list. */
  function CountTop(img: seq<byte>, pos: nat, id: Id, size: nat): nat
    requires pos <= |img|
  {
    if !WellSized(id, size) || NotMetadata(id) then 0
    else if id == SMPL then
      if pos + 36 <= |img| && GetU32(img, pos + 28) == (size - 36) / 24 then 1 else 0
    else if id == BEXT then
      if pos + 320 <= |img| then 1 else 0
    else 1
  }

  // ---- Lists ----

  /** The size that a chunk inside a list must have, by its id. */
  predicate SubSized(id: Id, size: nat) {
    && ((id == LABL || id == NOTE) ==> size >= 4) && (id == LTXT ==> size >= 20)
  }

  datatype ListType = Untyped | Typed(place: Place)

  /** A chunk inside a list that is not one of the known ones is kept only where the list has a type. */
  predicate Kept(id: Id, kind: ListType) {
    id == LABL || id == NOTE || id == LTXT || KindOf(id).Some? || (kind.Typed? && !NotMetadata(id))
  }

  function FillSub(img: seq<byte>, pos: nat, id: Id, size: nat, kind: ListType): (g: Got)
    requires pos <= |img| && (kind.Typed? ==> !kind.place.Top?)
    ensures pos + g.read <= |img| && g.read <= size
  {
    if !SubSized(id, size) || !Kept(id, kind) then Got(0, [])
    else if pos + size <= |img| then
      Got(size, [WholeItem(id, if kind.Typed? then kind.place else InInfo, img[pos..pos + size])])
    else Short(img, pos)
  }

  function CountSub(id: Id, size: nat, kind: ListType): nat {
    if SubSized(id, size) && Kept(id, kind) then 1 else 0
  }

  /** Where the parser is in a list: the position, how much it takes to have been read, and what was found. */
  datatype ListState = ListState(at: nat, read: nat, kind: ListType, count: nat, items: seq<Metadata>)

  predicate SaneList(img: seq<byte>, s: ListState) {
    s.at <= |img| && (s.kind.Typed? ==> !s.kind.place.Top?)
  }

  /** `n` bytes further on. */
  function Past(s: ListState, n: nat): ListState {
    s.(at := s.at + n, read := s.read + n)
  }

  /**
   Past the `left` bytes of a chunk that were not read; `ok` when that is in the image. The seek goes by an
   int: from 2^31 bytes on it goes back, while the bytes still count as read.
   */
  function SkipLeft(img: seq<byte>, s: ListState, left: nat): (r: (ListState, bool))
    requires SaneList(img, s)
    ensures SaneList(img, r.0) && r.0.read >= s.read
  {
    if left == 0 then (s, true)
    else
      var to := s.at + Int32(left);
      if 0 <= to <= |img| then (s.(at := to, read := s.read + left), true) else (s, false)
  }

  /** The byte that makes a chunk even. */
  function SkipPad(img: seq<byte>, s: ListState, size: nat): (r: (ListState, bool))
    requires SaneList(img, s)
    ensures SaneList(img, r.0) && r.0.read >= s.read
  {
    if size % 2 != 1 then (s, true) else if s.at + 1 <= |img| then (Past(s, 1), true) else (s, false)
  }

  /** One turn of the loop over a list; `more` when it goes on. */
  function ListStep(img: seq<byte>, s: ListState, fill: bool): (r: (ListState, bool))
    requires SaneList(img, s)
    ensures SaneList(img, r.0) && (r.1 ==> r.0.read > s.read)
  {
    var p := s.at;
    if p + 4 > |img| then (Past(s, |img| - p), false)
    else
      var id := img[p..p + 4];
      if id == ADTL then (Past(s, 4).(kind := Typed(InAdtl)), true)
      else if id == INFO then (Past(s, 4).(kind := Typed(InInfo)), true)
      else if p + 8 > |img| then (Past(s, |img| - p), false)
      else
        var size := GetU32(img, p + 4);
        var g := if fill then FillSub(img, p + 8, id, size, s.kind) else Got(0, []);
        var s' := Past(s, 8 + g.read).(items := s.items + g.items, count := s.count + CountSub(id, size, s.kind));
        var (s'', ok) := SkipLeft(img, s', size - g.read);
        if ok then SkipPad(img, s'', size) else (s'', false)
  }

  function ListFrom(img: seq<byte>, s: ListState, size: nat, fill: bool): (r: ListState)
    requires SaneList(img, s)
    ensures SaneList(img, r)
    decreases size - s.read
  {
    if s.read >= size then s
    else
      var (s', more) := ListStep(img, s, fill);
      if more then ListFrom(img, s', size, fill) else s'
  }

  function ListStart(pos: nat): ListState { ListState(pos, 0, Untyped, 0, []) }

  predicate IsList(id: Id) { id == LIST || id == LIST_LOWER }

  /** A chunk taken in the fill pass: how much counts as read, the items, and the position afterwards. */
  datatype Took = Took(read: nat, items: seq<Metadata>, at: nat)

  /** drwav__metadata_process_chunk in the fill pass. */
  function FillChunk(img: seq<byte>, pos: nat, id: Id, size: nat): (t: Took)
    requires pos <= |img|
    ensures t.at <= |img|
  {
    if IsList(id) then
      var s := ListFrom(img, ListStart(pos), size, true);
      Took(s.read, s.items, s.at)
    else
      var g := FillTop(img, pos, id, size);
      Took(g.read, g.items, pos + g.read)
  }

  /** drwav__metadata_process_chunk in the counting pass, for the number of items that it adds. */
  function CountChunk(img: seq<byte>, pos: nat, id: Id, size: nat): nat
    requires pos <= |img|
  {
    if IsList(id) then ListFrom(img, ListStart(pos), size, false).count else CountTop(img, pos, id, size)
  }

  // ---- Records in an image ----

  /** Six fields of four bytes each. */
  lemma SixParts(img: seq<byte>, p: nat, a: seq<byte>, b: seq<byte>, c: seq<byte>, d: seq<byte>, e: seq<byte>, f: seq<byte>)
    requires |a| == |b| == |c| == |d| == |e| == |f| == 4 && Holds(img, p, a + b + c + d + e + f)
    ensures Holds(img, p, a) && Holds(img, p + 4, b) && Holds(img, p + 8, c) && Holds(img, p + 12, d)
    ensures Holds(img, p + 16, e) && Holds(img, p + 20, f)
  {
    hide Holds;
    HoldsSplit(img, p, a + b + c + d + e, f);
    HoldsSplit(img, p, a + b + c + d, e);
    HoldsSplit(img, p, a + b + c, d);
    HoldsSplit(img, p, a + b, c);
    HoldsSplit(img, p, a, b);
  }

  lemma PointBack(img: seq<byte>, p: nat, q: CuePoint)
    requires Holds(img, p, PointBytes(q))
    ensures p + 24 <= |img| && ReadPoint(img, p) == q
  {
    hide U32, GetU32, U16, GetU16;
    HoldsIs(img, p, PointBytes(q));
    SixParts(img, p, U32(q.id), U32(q.playOrderPosition), q.dataChunkId, U32(q.chunkStart), U32(q.blockStart),
             U32(q.sampleByteOffset));
    U32At(img, p, q.id);
    U32At(img, p + 4, q.playOrderPosition);
    HoldsIs(img, p + 8, q.dataChunkId);
    U32At(img, p + 12, q.chunkStart);
    U32At(img, p + 16, q.blockStart);
    U32At(img, p + 20, q.sampleByteOffset);
  }

  lemma LoopBack(img: seq<byte>, p: nat, l: SampleLoop)
    requires Holds(img, p, LoopBytes(l))
    ensures p + 24 <= |img| && ReadLoop(img, p) == l
  {
    hide U32, GetU32, U16, GetU16;
    HoldsIs(img, p, LoopBytes(l));
    SixParts(img, p, U32(l.cuePointId), U32(l.kind), U32(l.firstSampleByteOffset), U32(l.lastSampleByteOffset),
             U32(l.sampleFraction), U32(l.playCount));
    U32At(img, p, l.cuePointId);
    U32At(img, p + 4, l.kind);
    U32At(img, p + 8, l.firstSampleByteOffset);
    U32At(img, p + 12, l.lastSampleByteOffset);
    U32At(img, p + 16, l.sampleFraction);
    U32At(img, p + 20, l.playCount);
  }

  lemma {:induction false} PointsBack(img: seq<byte>, p: nat, ps: seq<CuePoint>)
    requires Holds(img, p, PointsBytes(ps))
    ensures p + 24 * |ps| <= |img| && ReadPoints(img, p, |ps|) == ps
  {
    hide PointBytes, ReadPoint, Holds;
    HoldsIs(img, p, PointsBytes(ps));
    if ps != [] {
      var n := |ps| - 1;
      HoldsSplit(img, p, PointsBytes(ps[..n]), PointBytes(ps[n]));
      PointsBack(img, p, ps[..n]);
      PointBack(img, p + 24 * n, ps[n]);
      assert ps == ps[..n] + [ps[n]];
    }
  }

  lemma {:induction false} LoopsBack(img: seq<byte>, p: nat, ls: seq<SampleLoop>)
    requires Holds(img, p, LoopsBytes(ls))
    ensures p + 24 * |ls| <= |img| && ReadLoops(img, p, |ls|) == ls
  {
    hide LoopBytes, ReadLoop, Holds;
    HoldsIs(img, p, LoopsBytes(ls));
    if ls != [] {
      var n := |ls| - 1;
      HoldsSplit(img, p, LoopsBytes(ls[..n]), LoopBytes(ls[n]));
      LoopsBack(img, p, ls[..n]);
      LoopBack(img, p + 24 * n, ls[n]);
      assert ls == ls[..n] + [ls[n]];
    }
  }

  // ---- Items that can be read back ----

  /** An id for a chunk of one's own that the parser does not take for something else. */
  predicate Free(location: Location, id: Id) {
    && !NotMetadata(id)
    && if location.TopLevel? then
         id != SMPL && id != INST && id != ACID && id != CUE && id != BEXT && !IsList(id)
       else id != ADTL && id != INFO && id != LABL && id != NOTE && id != LTXT && KindOf(id).None?
  }

  /** Well-formed: counts agree, the size fits its field, there is something to write, no id clash. */
  predicate WellFormed(m: Metadata) {
    && Countable(m) && |BodyOf(m)| < 0x1_0000_0000 && !Dropped(m)
    && (m.Unknown? ==> Free(m.location, m.id))
  }

  /** No sampler-specific data as large as a loop, and broadcast fields that fit. */
  predicate ReadsBack(m: Metadata) {
    (m.Smpl? ==> |m.extra| < 24) && (m.Bext? ==> Fits(m.bext))
  }

  lemma CueBack(img: seq<byte>, p: nat, m: Metadata)
    requires m.Cue? && WellFormed(m) && Holds(img, p, BodyOf(m))
    ensures p <= |img| && FillTop(img, p, CUE, |BodyOf(m)|) == Got(|BodyOf(m)|, [m])
  {
    hide U32, GetU32, PointsBytes, ReadPoints;
    HoldsSplit(img, p, U32(m.cuePointCount), PointsBytes(m.points));
    U32At(img, p, m.cuePointCount);
    PointsBack(img, p + 4, m.points);
  }

  lemma SmplParts(img: seq<byte>, p: nat, m: Metadata)
    requires m.Smpl? && WellFormed(m) && Holds(img, p, BodyOf(m))
    ensures p + |BodyOf(m)| <= |img| && |BodyOf(m)| == 36 + 24 * |m.loops| + |m.extra|
    ensures img[p..p + 28] == m.head && GetU32(img, p + 28) == m.loopCount && GetU32(img, p + 32) == m.extraSize
    ensures ReadLoops(img, p + 36, |m.loops|) == m.loops
    ensures img[p + 36 + 24 * |m.loops|..p + |BodyOf(m)|] == m.extra
  {
    hide U32, GetU32, LoopsBytes, ReadLoops;
    var h, c, e, l := m.head, U32(m.loopCount), U32(m.extraSize), LoopsBytes(m.loops);
    HoldsSplit(img, p, h + c + e + l, m.extra);
    HoldsSplit(img, p, h + c + e, l);
    HoldsSplit(img, p, h + c, e);
    HoldsSplit(img, p, h, c);
    U32At(img, p + 28, m.loopCount);
    U32At(img, p + 32, m.extraSize);
    LoopsBack(img, p + 36, m.loops);
  }

  lemma TopIsSmpl(img: seq<byte>, p: nat, size: nat)
    requires p <= |img| && size >= 36
    ensures FillTop(img, p, SMPL, size) == FillSmpl(img, p, size)
    ensures CountTop(img, p, SMPL, size)
            == if p + 36 <= |img| && GetU32(img, p + 28) == (size - 36) / 24 then 1 else 0
  {
    hide FillSmpl, FillCue, GetU32;
  }

  /** A whole smpl chunk, by what its two counts say. */
  lemma SmplIs(img: seq<byte>, p: nat, size: nat, loopCount: u32, extraSize: u32)
    requires size == 36 + 24 * loopCount + extraSize && p + size <= |img|
    requires GetU32(img, p + 28) == loopCount && GetU32(img, p + 32) == extraSize
    ensures FillSmpl(img, p, size)
            == if loopCount == (size - 36) / 24 then
                 Got(size, [Smpl(img[p..p + 28], loopCount, extraSize, ReadLoops(img, p + 36, loopCount),
                                 img[p + 36 + 24 * loopCount..p + size])])
               else Got(36, [])
  {
    hide GetU32, ReadLoops;
  }

  lemma SmplBack(img: seq<byte>, p: nat, m: Metadata)
    requires m.Smpl? && WellFormed(m) && Holds(img, p, BodyOf(m))
    ensures p <= |img|
    ensures FillTop(img, p, SMPL, |BodyOf(m)|)
            == if |m.extra| < 24 then Got(|BodyOf(m)|, [m]) else Got(36, [])
    ensures CountTop(img, p, SMPL, |BodyOf(m)|) == if |m.extra| < 24 then 1 else 0
  {
    hide *;
    SmplCount(m);
    SmplParts(img, p, m);
    var size := |BodyOf(m)|;
    TopIsSmpl(img, p, size);
    SmplIs(img, p, size, m.loopCount, m.extraSize);
    LoopCountBack(|m.loops|, |m.extra|);
  }

  lemma SmplCount(m: Metadata)
    requires m.Smpl? && WellFormed(m)
    ensures m.loopCount == |m.loops| && m.extraSize == |m.extra|
  {
  }

  /** The reader derives the number of loops from the size; extra bytes for a whole loop break that. */
  lemma LoopCountBack(loops: nat, extra: nat)
    ensures (36 + 24 * loops + extra - 36) / 24 == loops <==> extra < 24
  {
  }

  lemma TextBack(text: seq<byte>)
    ensures TextOf(Terminated(text)) == text
  {
  }

  lemma LabelBack(b: seq<byte>, id: u32, text: seq<byte>)
    requires b == U32(id) + Terminated(text)
    ensures |b| >= 4 && GetU32(b, 0) == id && TextOf(b[4..]) == text
  {
    hide U32, GetU32;
    assert b[0..4] == U32(id) && b[4..] == Terminated(text);
    GetU32Back(b, 0, id);
    TextBack(text);
  }

  lemma RegionBack(b: seq<byte>, m: Metadata)
    requires m.LabelledRegion? && b == LtxtHead(m) + Terminated(m.text)
    ensures |b| >= 20 && LTXT != LABL && LTXT != NOTE
    ensures WholeItem(LTXT, InAdtl, b) == m
  {
    hide U32, GetU32, U16, GetU16, TextOf, Terminated;
    TextBack(m.text);
    assert b[20..] == Terminated(m.text);
    assert b[0..4] == U32(m.cuePointId) && b[4..8] == U32(m.sampleLength) && b[8..12] == m.purposeId;
    assert b[12..14] == U16(m.country) && b[14..16] == U16(m.language);
    assert b[16..18] == U16(m.dialect) && b[18..20] == U16(m.codePage);
    GetU32Back(b, 0, m.cuePointId);
    GetU32Back(b, 4, m.sampleLength);
    GetU16Back(b, 12, m.country);
    GetU16Back(b, 14, m.language);
    GetU16Back(b, 16, m.dialect);
    GetU16Back(b, 18, m.codePage);
  }

  lemma KindBack(kind: InfoKind)
    ensures KindOf(InfoId(kind)) == Some(kind)
    ensures Free0(InfoId(kind))
  {
  }

  /** Not one of the ids that mean something in every list. */
  predicate Free0(id: Id) {
    id != ADTL && id != INFO && id != LABL && id != NOTE && id != LTXT && !NotMetadata(id)
  }

  lemma KnownIds()
    ensures KindOf(LABL).None? && KindOf(NOTE).None? && KindOf(LTXT).None?
    ensures LABL != ADTL && LABL != INFO && NOTE != ADTL && NOTE != INFO && LTXT != ADTL && LTXT != INFO
    ensures LABL != NOTE && LABL != LTXT && NOTE != LTXT
  {
  }

  /** The kind of list in which an item is read back. */
  function TypeOf(m: Metadata): ListType { Typed(PlaceOf(m)) }

  /** A chunk in a list that is kept, and is in the image, is read as a whole. */
  lemma KeptWhole(img: seq<byte>, p: nat, id: Id, b: seq<byte>, place: Place)
    requires !place.Top? && SubSized(id, |b|) && Kept(id, Typed(place)) && p + |b| <= |img| && img[p..p + |b|] == b
    ensures FillSub(img, p, id, |b|, Typed(place)) == Got(|b|, [WholeItem(id, place, b)])
    ensures CountSub(id, |b|, Typed(place)) == 1
  {
    hide WholeItem, Kept;
  }

  /** The body of an item of a list has the size that its id requires, and is the item again. */
  lemma ItemBack(m: Metadata)
    requires WellFormed(m) && PlaceOf(m) != Top
    ensures !PlaceOf(m).Top? && IdOf(m) != ADTL && IdOf(m) != INFO
    ensures SubSized(IdOf(m), |BodyOf(m)|) && Kept(IdOf(m), TypeOf(m))
    ensures WholeItem(IdOf(m), PlaceOf(m), BodyOf(m)) == m
  {
    hide U32, GetU32, U16, GetU16, TextOf, Terminated, LtxtHead, KindOf, InfoId;
    KnownIds();
    match m {
      case Label(id, text) => LabelBack(BodyOf(m), id, text);
      case Note(id, text) => LabelBack(BodyOf(m), id, text);
      case LabelledRegion(_, _, _, _, _, _, _, text) => RegionBack(BodyOf(m), m);
      case Info(kind, text) =>
        KindBack(kind);
        TextBack(text);
      case Unknown(_, _, _) =>
    }
  }

  /** An item in a list is read back from its chunk, in either pass. */
  lemma SubBack(img: seq<byte>, p: nat, m: Metadata)
    requires WellFormed(m) && PlaceOf(m) != Top && Holds(img, p, BodyOf(m))
    ensures p <= |img| && IdOf(m) != ADTL && IdOf(m) != INFO
    ensures FillSub(img, p, IdOf(m), |BodyOf(m)|, TypeOf(m)) == Got(|BodyOf(m)|, [m])
    ensures CountSub(IdOf(m), |BodyOf(m)|, TypeOf(m)) == 1
  {
    hide *;
    HoldsIs(img, p, BodyOf(m));
    ItemBack(m);
    TypeIs(m);
    KeptWhole(img, p, IdOf(m), BodyOf(m), PlaceOf(m));
  }

  /** A bext chunk comes back with its strings clipped, and counted as one. */
  lemma BextChunkBack(img: seq<byte>, p: nat, m: Metadata)
    requires m.Bext? && WellFormed(m) && Holds(img, p, BodyOf(m))
    ensures p <= |img|
    ensures FillTop(img, p, BEXT, |BodyOf(m)|) == Got(|BodyOf(m)|, [Bext(AsRead(m.bext))])
    ensures CountTop(img, p, BEXT, |BodyOf(m)|) == 1
    ensures AsRead(m.bext) == m.bext <==> Fits(m.bext)
  {
    HoldsIs(img, p, BodyOf(m));
    BextBack(m.bext);
    BextBackIff(m.bext);
    hide ReadBext, AsRead, Fits, BextBytes, Holds, FillSmpl, FillCue;
  }

  /**
   An item of its own is read back from its chunk, and counted, if and only if it has no sampler-specific
   data as large as a loop and its broadcast fields fit.
   */
  lemma TopBack(img: seq<byte>, p: nat, m: Metadata)
    requires WellFormed(m) && PlaceOf(m) == Top && Holds(img, p, BodyOf(m))
    ensures p <= |img| && !IsList(IdOf(m))
    ensures FillTop(img, p, IdOf(m), |BodyOf(m)|) == Got(|BodyOf(m)|, [m]) <==> ReadsBack(m)
    ensures CountTop(img, p, IdOf(m), |BodyOf(m)|) == 1 <==> (m.Smpl? ==> |m.extra| < 24)
  {
    TopIds();
    HoldsIs(img, p, BodyOf(m));
    hide U32, GetU32, U16, GetU16, PointsBytes, LoopsBytes, Holds, FillSmpl, FillCue, KindOf, Fits, AsRead, ReadBext,
         BextBytes;
    match m {
      case Smpl(_, _, _, _, _) => SmplBack(img, p, m);
      case Cue(_, _) => CueBack(img, p, m);
      case Inst(_) =>
      case Acid(_) =>
      case Bext(_) => BextChunkBack(img, p, m);
      case Unknown(_, _, _) =>
    }
  }

  lemma TopIds()
    ensures !IsList(SMPL) && !IsList(INST) && !IsList(CUE) && !IsList(ACID) && !IsList(BEXT)
  {
  }

  // ---- Lists that can be read back ----

  ghost predicate AllWellFormed(ms: seq<Metadata>) {
    forall m :: m in ms ==> WellFormed(m)
  }

  /** The items of one place, in their order. */
  function Picked(ms: seq<Metadata>, place: Place): seq<Metadata> {
    if ms == [] then []
    else
      var m := ms[|ms| - 1];
      Picked(ms[..|ms| - 1], place) + if PlaceOf(m) == place then [m] else []
  }

  lemma PickedStep(ms: seq<Metadata>, place: Place)
    ensures Picked([], place) == []
    ensures ms != [] ==> var m := ms[|ms| - 1];
                         Picked(ms, place) == Picked(ms[..|ms| - 1], place) + if PlaceOf(m) == place then [m] else []
  {
  }

  /** The header of a chunk. */
  lemma ChunkBack(img: seq<byte>, p: nat, id: Id, body: seq<byte>)
    requires Holds(img, p, Padded(id, body)) && |body| < 0x1_0000_0000
    ensures p + 8 + |body| + |body| % 2 <= |img|
    ensures img[p..p + 4] == id && GetU32(img, p + 4) == |body| && Holds(img, p + 8, body)
  {
    hide Holds, U32, GetU32;
    HoldsIs(img, p, Padded(id, body));
    HoldsSplit(img, p, Chunk(id, body), PadOf(|body|));
    HoldsSplit(img, p, id + Size32(|body|), body);
    HoldsSplit(img, p, id, Size32(|body|));
    HoldsIs(img, p, id);
    U32At(img, p + 4, |body|);
  }

  /** One turn of the loop over a list consumes one item. */
  lemma StepBack(img: seq<byte>, s: ListState, m: Metadata, fill: bool)
    requires SaneList(img, s) && WellFormed(m) && PlaceOf(m) != Top && s.kind == TypeOf(m)
    requires Holds(img, s.at, ItemBytes(m)) && |ItemBytes(m)| < 0x8000_0000
    ensures |ItemBytes(m)| > 0
    ensures ListStep(img, s, fill)
            == (ListState(s.at + |ItemBytes(m)|, s.read + |ItemBytes(m)|, s.kind, s.count + 1,
                          s.items + if fill then [m] else []), true)
  {
    hide *;
    WellFormedIs(m);
    ItemBytesIs(m);
    ChunkBack(img, s.at, IdOf(m), BodyOf(m));
    SubBack(img, s.at + 8, m);
    ListStepIs(img, s, fill, IdOf(m), |BodyOf(m)|);
  }

  lemma WellFormedIs(m: Metadata)
    requires WellFormed(m)
    ensures |BodyOf(m)| < 0x1_0000_0000 && !Dropped(m)
  {
  }

  lemma ItemBytesIs(m: Metadata)
    requires !Dropped(m)
    ensures ItemBytes(m) == Padded(IdOf(m), BodyOf(m)) && |ItemBytes(m)| == 8 + |BodyOf(m)| + |BodyOf(m)| % 2
  {
  }

  /** Below 2^31 bytes the rest of a chunk is skipped. */
  lemma Skips(img: seq<byte>, s: ListState, left: nat)
    requires SaneList(img, s) && left < 0x8000_0000 && s.at + left <= |img|
    ensures SkipLeft(img, s, left) == (s.(at := s.at + left, read := s.read + left), true)
  {
  }

  lemma Pads(img: seq<byte>, s: ListState, size: nat)
    requires SaneList(img, s) && s.at + size % 2 <= |img|
    ensures SkipPad(img, s, size) == (s.(at := s.at + size % 2, read := s.read + size % 2), true)
  {
  }

  lemma ListStepIs(img: seq<byte>, s: ListState, fill: bool, id: Id, size: nat)
    requires SaneList(img, s)
    requires s.at + 8 + size + size % 2 <= |img| && size < 0x8000_0000 && id != ADTL && id != INFO
    requires img[s.at..s.at + 4] == id && GetU32(img, s.at + 4) == size
    ensures s.at + 8 <= |img| && (s.kind.Typed? ==> !s.kind.place.Top?)
    ensures var g := FillSub(img, s.at + 8, id, size, s.kind);
            ListStep(img, s, fill)
            == (ListState(s.at + (8 + size + size % 2), s.read + (8 + size + size % 2), s.kind,
                          s.count + CountSub(id, size, s.kind), s.items + if fill then g.items else []), true)
  {
    hide FillSub, CountSub, GetU32, SkipLeft, SkipPad;
    var g := if fill then FillSub(img, s.at + 8, id, size, s.kind) else Got(0, []);
    var s1 := Past(s, 8 + g.read).(items := s.items + g.items, count := s.count + CountSub(id, size, s.kind));
    Skips(img, s1, size - g.read);
    Pads(img, s1.(at := s1.at + (size - g.read), read := s1.read + (size - g.read)), size);
  }

  /** The id of a list's kind. */
  lemma KindStep(img: seq<byte>, s: ListState, place: Place, fill: bool)
    requires SaneList(img, s) && place != Top && s.at + 4 <= |img| && img[s.at..s.at + 4] == ListKind(place)
    ensures ListStep(img, s, fill) == (ListState(s.at + 4, s.read + 4, Typed(place), s.count, s.items), true)
  {
    hide FillSub, CountSub, GetU32, SkipLeft, SkipPad;
  }

  /** The parser's state after the items of `ms` that belong in the list. */
  function StateAfter(start: nat, ms: seq<Metadata>, place: Place, fill: bool): ListState {
    var n := 4 + |ItemsIn(ms, place)|;
    ListState(start + n, n, Typed(place), |Picked(ms, place)|, if fill then Picked(ms, place) else [])
  }

  function ListBody(ms: seq<Metadata>, place: Place): (b: seq<byte>)
    ensures |b| == 4 + |ItemsIn(ms, place)|
  {
    ListKind(place) + ItemsIn(ms, place)
  }

  lemma {:induction false} ListPrefix(img: seq<byte>, start: nat, ms: seq<Metadata>, place: Place, size: nat, fill: bool)
    requires AllWellFormed(ms) && place != Top && Holds(img, start, ListBody(ms, place))
    requires 4 + |ItemsIn(ms, place)| <= size && |ListBody(ms, place)| < 0x8000_0000
    ensures SaneList(img, ListStart(start)) && SaneList(img, StateAfter(start, ms, place, fill))
    ensures ListFrom(img, ListStart(start), size, fill) == ListFrom(img, StateAfter(start, ms, place, fill), size, fill)
  {
    hide *;
    StateSane(img, start, ms, place, fill);
    if ms == [] {
      FirstIdBack(img, start, place, size, fill);
    } else {
      var m, before := ms[|ms| - 1], ms[..|ms| - 1];
      LastWellFormed(ms);
      ItemsStep(ms, place);
      PickedStep(ms, place);
      BodyStep(ms, place);
      PartOfBody(img, start, before, place, if PlaceOf(m) == place then ItemBytes(m) else []);
      ListPrefix(img, start, before, place, size, fill);
      StateSane(img, start, before, place, fill);
      var s := StateAfter(start, before, place, fill);
      StateIs(start, before, place, fill);
      StateIs(start, ms, place, fill);
      if PlaceOf(m) == place {
        TypeIs(m);
        StepBack(img, s, m, fill);
        assert s.items + (if fill then [m] else []) == if fill then Picked(ms, place) else [];
        ListFromIs(img, s, size, fill);
      } else {
        assert Picked(ms, place) == Picked(before, place) && ItemsIn(ms, place) == ItemsIn(before, place);
      }
    }
  }

  lemma StateIs(start: nat, ms: seq<Metadata>, place: Place, fill: bool)
    ensures StateAfter(start, ms, place, fill)
            == ListState(start + (4 + |ItemsIn(ms, place)|), 4 + |ItemsIn(ms, place)|, Typed(place), |Picked(ms, place)|,
                         if fill then Picked(ms, place) else [])
  {
  }

  lemma TypeIs(m: Metadata)
    ensures TypeOf(m) == Typed(PlaceOf(m))
  {
  }

  lemma StateSane(img: seq<byte>, start: nat, ms: seq<Metadata>, place: Place, fill: bool)
    requires place != Top && Holds(img, start, ListBody(ms, place))
    ensures SaneList(img, StateAfter(start, ms, place, fill)) && SaneList(img, ListStart(start))
  {
    hide ItemsIn;
  }

  lemma LastWellFormed(ms: seq<Metadata>)
    requires AllWellFormed(ms) && ms != []
    ensures WellFormed(ms[|ms| - 1]) && AllWellFormed(ms[..|ms| - 1])
  {
  }

  lemma BodyStep(ms: seq<Metadata>, place: Place)
    requires ms != []
    ensures var m := ms[|ms| - 1];
            ListBody(ms, place) == ListBody(ms[..|ms| - 1], place) + if PlaceOf(m) == place then ItemBytes(m) else []
  {
    hide ItemBytes, PlaceOf;
    var m := ms[|ms| - 1];
    assert ItemsIn(ms, place) == ItemsIn(ms[..|ms| - 1], place) + if PlaceOf(m) == place then ItemBytes(m) else [];
  }

  lemma PartOfBody(img: seq<byte>, start: nat, ms: seq<Metadata>, place: Place, item: seq<byte>)
    requires Holds(img, start, ListBody(ms, place) + item)
    ensures Holds(img, start, ListBody(ms, place)) && Holds(img, start + 4 + |ItemsIn(ms, place)|, item)
  {
    hide ItemsIn, Holds;
    HoldsSplit(img, start, ListBody(ms, place), item);
  }

  lemma ListFromIs(img: seq<byte>, s: ListState, size: nat, fill: bool)
    requires SaneList(img, s)
    ensures s.read >= size ==> ListFrom(img, s, size, fill) == s
    ensures s.read < size && ListStep(img, s, fill).1
            ==> SaneList(img, ListStep(img, s, fill).0)
                && ListFrom(img, s, size, fill) == ListFrom(img, ListStep(img, s, fill).0, size, fill)
  {
    hide ListStep;
  }

  lemma FirstIdBack(img: seq<byte>, start: nat, place: Place, size: nat, fill: bool)
    requires place != Top && Holds(img, start, ListBody([], place)) && size >= 4
    ensures SaneList(img, ListStart(start)) && SaneList(img, StateAfter(start, [], place, fill))
    ensures ListFrom(img, ListStart(start), size, fill) == ListFrom(img, StateAfter(start, [], place, fill), size, fill)
  {
    hide *;
    EmptyBody(place);
    HoldsIs(img, start, ListKind(place));
    ListStartAt(img, start);
    KindStep(img, ListStart(start), place, fill);
    ListFromIs(img, ListStart(start), size, fill);
    StateIs(start, [], place, fill);
    PickedStep([], place);
    NoItems(place);
  }

  lemma EmptyBody(place: Place)
    ensures ListBody([], place) == ListKind(place) && |ListKind(place)| == 4
  {
  }

  lemma ListStartAt(img: seq<byte>, start: nat)
    requires start <= |img|
    ensures SaneList(img, ListStart(start)) && ListStart(start) == ListState(start, 0, Untyped, 0, [])
  {
  }

  /** A list that was written is read back in full, in either pass. */
  lemma ListBack(img: seq<byte>, start: nat, ms: seq<Metadata>, place: Place)
    requires AllWellFormed(ms) && place != Top && Holds(img, start, ListBody(ms, place))
    requires |ListBody(ms, place)| < 0x8000_0000
    ensures start <= |img|
    ensures var n := |ListBody(ms, place)|; FillChunk(img, start, LIST, n) == Took(n, Picked(ms, place), start + n)
    ensures CountChunk(img, start, LIST, |ListBody(ms, place)|) == |Picked(ms, place)|
  {
    hide *;
    HoldsIs(img, start, ListBody(ms, place));
    ListBodyLength(ms, place);
    var size := |ListBody(ms, place)|;
    ListPrefix(img, start, ms, place, size, true);
    ListPrefix(img, start, ms, place, size, false);
    StateIs(start, ms, place, true);
    StateIs(start, ms, place, false);
    ListFromIs(img, StateAfter(start, ms, place, true), size, true);
    ListFromIs(img, StateAfter(start, ms, place, false), size, false);
    ListChunkIs(img, start, size);
  }

  lemma ListBodyLength(ms: seq<Metadata>, place: Place)
    ensures |ListBody(ms, place)| == 4 + |ItemsIn(ms, place)|
  {
  }

  lemma ListChunkIs(img: seq<byte>, start: nat, size: nat)
    requires start <= |img|
    ensures SaneList(img, ListStart(start))
    ensures var s := ListFrom(img, ListStart(start), size, true);
            FillChunk(img, start, LIST, size) == Took(s.read, s.items, s.at)
    ensures CountChunk(img, start, LIST, size) == ListFrom(img, ListStart(start), size, false).count
  {
  }

  // ---- Everything that is written, chunk by chunk ----

  /** A chunk that was written, and the items that it holds. */
  datatype Piece = Piece(id: Id, body: seq<byte>, items: seq<Metadata>)

  function PieceBytes(piece: Piece): seq<byte> {
    Padded(piece.id, piece.body)
  }

  function PiecesBytes(pieces: seq<Piece>): seq<byte> {
    if pieces == [] then [] else PiecesBytes(pieces[..|pieces| - 1]) + PieceBytes(pieces[|pieces| - 1])
  }

  function PiecesItems(pieces: seq<Piece>): seq<Metadata> {
    if pieces == [] then [] else PiecesItems(pieces[..|pieces| - 1]) + pieces[|pieces| - 1].items
  }

  function TopPieces(ms: seq<Metadata>): seq<Piece> {
    if ms == [] then []
    else
      var m := ms[|ms| - 1];
      TopPieces(ms[..|ms| - 1]) + if PlaceOf(m) == Top then [Piece(IdOf(m), BodyOf(m), [m])] else []
  }

  function ListPieces(ms: seq<Metadata>, place: Place): seq<Piece> {
    if HasAny(ms, place) then [Piece(LIST, ListBody(ms, place), Picked(ms, place))] else []
  }

  function Pieces(ms: seq<Metadata>): seq<Piece> {
    TopPieces(ms) + ListPieces(ms, InInfo) + ListPieces(ms, InAdtl)
  }

  /** The order in which items come back: those of their own, the texts, the labels. */
  function Regrouped(ms: seq<Metadata>): seq<Metadata> {
    Picked(ms, Top) + Picked(ms, InInfo) + Picked(ms, InAdtl)
  }

  /** Both passes find the items of a piece, wherever it lies in an image. */
  ghost predicate Readable(piece: Piece) {
    && |piece.body| < 0x1_0000_0000 && !NotMetadata(piece.id)
    && forall img: seq<byte>, p: nat :: Holds(img, p, piece.body) ==>
         && p <= |img|
         && FillChunk(img, p, piece.id, |piece.body|) == Took(|piece.body|, piece.items, p + |piece.body|)
         && CountChunk(img, p, piece.id, |piece.body|) == |piece.items|
  }

  ghost predicate AllReadable(pieces: seq<Piece>) {
    forall i :: 0 <= i < |pieces| ==> Readable(pieces[i])
  }

  /** The items can be read back. */
  ghost predicate RoundTrips(ms: seq<Metadata>) {
    && AllWellFormed(ms) && |Written(ms)| + 80 < 0x8000_0000
    && forall m :: m in ms ==> ReadsBack(m)
  }

  lemma TopReadable(m: Metadata)
    requires WellFormed(m) && PlaceOf(m) == Top && ReadsBack(m)
    ensures Readable(Piece(IdOf(m), BodyOf(m), [m]))
  {
    hide BodyOf, FillTop, CountTop, IdOf, Fits;
    TopIdIs(m);
    forall img: seq<byte>, p: nat | Holds(img, p, BodyOf(m))
      ensures p <= |img| && FillChunk(img, p, IdOf(m), |BodyOf(m)|) == Took(|BodyOf(m)|, [m], p + |BodyOf(m)|)
              && CountChunk(img, p, IdOf(m), |BodyOf(m)|) == 1
    {
      TopBack(img, p, m);
    }
  }

  lemma TopIdIs(m: Metadata)
    requires WellFormed(m) && PlaceOf(m) == Top
    ensures !NotMetadata(IdOf(m)) && !IsList(IdOf(m))
  {
    hide BodyOf;
  }

  lemma ListReadable(ms: seq<Metadata>, place: Place)
    requires AllWellFormed(ms) && place != Top && |ListBody(ms, place)| < 0x8000_0000
    ensures Readable(Piece(LIST, ListBody(ms, place), Picked(ms, place)))
  {
    hide ListBody, FillChunk, CountChunk, Picked;
    forall img: seq<byte>, p: nat | Holds(img, p, ListBody(ms, place))
      ensures p <= |img|
              && FillChunk(img, p, LIST, |ListBody(ms, place)|)
                 == Took(|ListBody(ms, place)|, Picked(ms, place), p + |ListBody(ms, place)|)
              && CountChunk(img, p, LIST, |ListBody(ms, place)|) == |Picked(ms, place)|
    {
      ListBack(img, p, ms, place);
    }
  }

  /** The pieces of their own: their bytes are what is written, their items the ones picked. */
  lemma {:induction false} TopPiecesAre(ms: seq<Metadata>)
    requires AllWellFormed(ms) && forall m :: m in ms ==> ReadsBack(m)
    ensures AllReadable(TopPieces(ms))
    ensures PiecesBytes(TopPieces(ms)) == ItemsIn(ms, Top) && PiecesItems(TopPieces(ms)) == Picked(ms, Top)
  {
    if ms != [] {
      var m, before := ms[|ms| - 1], ms[..|ms| - 1];
      TopPiecesAre(before);
      hide *;
      LastWellFormed(ms);
      WellFormedIs(m);
      TopPiecesStep(ms);
      ItemsStep(ms, Top);
      PickedStep(ms, Top);
      if PlaceOf(m) == Top {
        var piece := Piece(IdOf(m), BodyOf(m), [m]);
        TopReadable(m);
        ReadableJoin(TopPieces(before), piece);
        PiecesStep(TopPieces(before), piece);
        ItemBytesIs(m);
      } else {
        assert TopPieces(before) + [] == TopPieces(before);
        assert ItemsIn(before, Top) + [] == ItemsIn(before, Top);
        assert Picked(before, Top) + [] == Picked(before, Top);
      }
    }
  }

  lemma TopPiecesStep(ms: seq<Metadata>)
    requires ms != []
    ensures var m := ms[|ms| - 1];
            TopPieces(ms)
            == TopPieces(ms[..|ms| - 1]) + if PlaceOf(m) == Top then [Piece(IdOf(m), BodyOf(m), [m])] else []
  {
  }

  lemma ReadableJoin(pieces: seq<Piece>, piece: Piece)
    requires AllReadable(pieces) && Readable(piece)
    ensures AllReadable(pieces + [piece])
  {
    hide Readable;
  }

  lemma PiecesStep(pieces: seq<Piece>, piece: Piece)
    ensures PiecesBytes(pieces + [piece]) == PiecesBytes(pieces) + Padded(piece.id, piece.body)
    ensures PiecesItems(pieces + [piece]) == PiecesItems(pieces) + piece.items
  {
    hide Padded;
    assert (pieces + [piece])[..|pieces|] == pieces;
  }

  /** A list whose items are all written has the size that its size field says, and is even. */
  lemma ListPieceIs(ms: seq<Metadata>, place: Place)
    requires AllWellFormed(ms) && place != Top
    ensures LIST + Size32(ListSize(ms, place)) + ListKind(place) + ItemsIn(ms, place)
            == Padded(LIST, ListBody(ms, place))
  {
    hide ItemsIn, ListSize, U32;
    forall m | m in ms ensures !Dropped(m) {
      WellFormedDropped(ms, m);
    }
    ListSizeIsBody(ms, place);
    ItemsEven(ms, place);
    var size, kind, items := Size32(ListSize(ms, place)), ListKind(place), ItemsIn(ms, place);
    assert PadOf(|ListBody(ms, place)|) == [];
    Joins(LIST + size, kind, items);
  }

  lemma WellFormedDropped(ms: seq<Metadata>, m: Metadata)
    requires AllWellFormed(ms) && m in ms
    ensures !Dropped(m)
  {
  }

  /** One list more. */
  lemma AddList(ms: seq<Metadata>, place: Place, pieces: seq<Piece>)
    requires AllWellFormed(ms) && place != Top && AllReadable(pieces) && |ListBytes(ms, place)| < 0x8000_0000
    ensures AllReadable(pieces + ListPieces(ms, place))
    ensures PiecesBytes(pieces + ListPieces(ms, place)) == PiecesBytes(pieces) + ListBytes(ms, place)
    ensures PiecesItems(pieces + ListPieces(ms, place)) == PiecesItems(pieces) + Picked(ms, place)
  {
    hide *;
    ListBytesIs(ms, place);
    ListPiecesIs(ms, place);
    if HasAny(ms, place) {
      ListPieceIs(ms, place);
      ListBodyFits(ms, place);
      ListReadable(ms, place);
      var piece := Piece(LIST, ListBody(ms, place), Picked(ms, place));
      ReadableJoin(pieces, piece);
      PiecesStep(pieces, piece);
    } else {
      PickedNone(ms, place);
      assert pieces + [] == pieces && PiecesBytes(pieces) + [] == PiecesBytes(pieces);
      assert PiecesItems(pieces) + [] == PiecesItems(pieces);
    }
  }

  lemma ListPiecesIs(ms: seq<Metadata>, place: Place)
    ensures ListPieces(ms, place)
            == if HasAny(ms, place) then [Piece(LIST, ListBody(ms, place), Picked(ms, place))] else []
  {
  }

  lemma ListBodyFits(ms: seq<Metadata>, place: Place)
    ensures |Padded(LIST, ListBody(ms, place))| > |ListBody(ms, place)|
  {
  }

  lemma {:induction false} PickedNone(ms: seq<Metadata>, place: Place)
    requires !HasAny(ms, place)
    ensures Picked(ms, place) == []
  {
    if ms != [] {
      assert ms[|ms| - 1] in ms;
      PickedNone(ms[..|ms| - 1], place);
    }
  }

  /** What is written is made of readable pieces that hold the items, regrouped. */
  lemma WrittenIsPieces(ms: seq<Metadata>)
    requires RoundTrips(ms)
    ensures AllReadable(Pieces(ms))
    ensures PiecesBytes(Pieces(ms)) == Written(ms) && PiecesItems(Pieces(ms)) == Regrouped(ms)
  {
    hide *;
    RoundTripsIs(ms);
    WrittenIs(ms);
    PiecesAre(ms);
    TopPiecesAre(ms);
    AddList(ms, InInfo, TopPieces(ms));
    AddList(ms, InAdtl, TopPieces(ms) + ListPieces(ms, InInfo));
  }

  lemma RoundTripsIs(ms: seq<Metadata>)
    requires RoundTrips(ms)
    ensures AllWellFormed(ms) && |Written(ms)| + 80 < 0x8000_0000
    ensures forall m :: m in ms ==> ReadsBack(m)
  {
  }

  lemma PiecesAre(ms: seq<Metadata>)
    ensures Pieces(ms) == TopPieces(ms) + ListPieces(ms, InInfo) + ListPieces(ms, InAdtl)
    ensures Regrouped(ms) == Picked(ms, Top) + Picked(ms, InInfo) + Picked(ms, InAdtl)
  {
  }
}
