/**
 The metadata of a WAV file as dr_wav writes it: `drwav__write_or_count_metadata`. Items of their own
 come first, then one INFO list with all text items, then one adtl list with all labels.
 */
module WavMetadata {
  import opened BroadcastWave
  import opened Bytes

  // ---- Chunk ids ----

  type Id = b: seq<byte> | |b| == 4 witness [0, 0, 0, 0]

  const SMPL: Id := [0x73, 0x6D, 0x70, 0x6C]
  const INST: Id := [0x69, 0x6E, 0x73, 0x74]
  const ACID: Id := [0x61, 0x63, 0x69, 0x64]
  const CUE: Id := [0x63, 0x75, 0x65, 0x20]
  const BEXT: Id := [0x62, 0x65, 0x78, 0x74]
  const LIST: Id := [0x4C, 0x49, 0x53, 0x54]
  const LIST_LOWER: Id := [0x6C, 0x69, 0x73, 0x74]
  const ADTL: Id := [0x61, 0x64, 0x74, 0x6C]
  const INFO: Id := [0x49, 0x4E, 0x46, 0x4F]
  const LABL: Id := [0x6C, 0x61, 0x62, 0x6C]
  const NOTE: Id := [0x6E, 0x6F, 0x74, 0x65]
  const LTXT: Id := [0x6C, 0x74, 0x78, 0x74]
  const DATA: Id := [0x64, 0x61, 0x74, 0x61]
  const FMT: Id := [0x66, 0x6D, 0x74, 0x20]
  const FACT: Id := [0x66, 0x61, 0x63, 0x74]

  datatype InfoKind =
    Software | Copyright | Title | Artist | Comment | Date | Genre | Album | TrackNumber

  function InfoId(kind: InfoKind): Id {
    match kind
    case Software => [0x49, 0x53, 0x46, 0x54]
    case Copyright => [0x49, 0x43, 0x4F, 0x50]
    case Title => [0x49, 0x4E, 0x41, 0x4D]
    case Artist => [0x49, 0x41, 0x52, 0x54]
    case Comment => [0x49, 0x43, 0x4D, 0x54]
    case Date => [0x49, 0x43, 0x52, 0x44]
    case Genre => [0x49, 0x47, 0x4E, 0x52]
    case Album => [0x49, 0x50, 0x52, 0x44]
    case TrackNumber => [0x49, 0x54, 0x52, 0x4B]
  }

  // ---- Metadata items ----

  datatype Location = TopLevel | InsideInfo | InsideAdtl

  datatype CuePoint = CuePoint(id: u32, playOrderPosition: u32, dataChunkId: Id, chunkStart: u32,
                               blockStart: u32, sampleByteOffset: u32)

  datatype SampleLoop = SampleLoop(cuePointId: u32, kind: u32, firstSampleByteOffset: u32,
                                   lastSampleByteOffset: u32, sampleFraction: u32, playCount: u32)

  type SmplHead = b: seq<byte> | |b| == 28 witness seq(28, _ => 0)
  type InstFields = b: seq<byte> | |b| == 7 witness seq(7, _ => 0)
  type AcidFields = b: seq<byte> | |b| == 24 witness seq(24, _ => 0)

  /**
   The counts of cue points and loops are fields of their own, as in the source. Fixed-size records
   that are copied field by field (the start of smpl, inst, acid) are kept as bytes. A text is kept
   without its terminator.
   */
  datatype Metadata =
    | Smpl(head: SmplHead, loopCount: u32, extraSize: u32, loops: seq<SampleLoop>, extra: seq<byte>)
    | Inst(inst: InstFields)
    | Cue(cuePointCount: u32, points: seq<CuePoint>)
    | Acid(acid: AcidFields)
    | Bext(bext: Broadcast)
    | Label(cuePointId: u32, text: seq<byte>)
    | Note(cuePointId: u32, text: seq<byte>)
    | LabelledRegion(cuePointId: u32, sampleLength: u32, purposeId: Id, country: u16, language: u16,
                     dialect: u16, codePage: u16, text: seq<byte>)
    | Info(kind: InfoKind, text: seq<byte>)
    | Unknown(location: Location, id: Id, data: seq<byte>)

  // ---- What is written for one item ----

  /** A 32-bit size field. */
  function Size32(n: nat): (b: seq<byte>)
    ensures |b| == 4
  {
    U32(n % 0x1_0000_0000)
  }

  function Chunk(id: Id, body: seq<byte>): (c: seq<byte>)
    ensures |c| == 8 + |body|
  {
    id + Size32(|body|) + body
  }

  function PadOf(n: nat): (p: seq<byte>)
    ensures |p| == n % 2
  {
    if n % 2 != 0 then [0] else []
  }

  /** A chunk with the byte that makes it even. */
  function Padded(id: Id, body: seq<byte>): (c: seq<byte>)
    ensures |c| == 8 + |body| + |body| % 2
  {
    Chunk(id, body) + PadOf(|body|)
  }

  function PointBytes(p: CuePoint): (b: seq<byte>)
    ensures |b| == 24
  {
    U32(p.id) + U32(p.playOrderPosition) + p.dataChunkId + U32(p.chunkStart) + U32(p.blockStart)
    + U32(p.sampleByteOffset)
  }

  function PointsBytes(ps: seq<CuePoint>): (b: seq<byte>)
    ensures |b| == 24 * |ps|
  {
    if ps == [] then [] else PointsBytes(ps[..|ps| - 1]) + PointBytes(ps[|ps| - 1])
  }

  function LoopBytes(l: SampleLoop): (b: seq<byte>)
    ensures |b| == 24
  {
    U32(l.cuePointId) + U32(l.kind) + U32(l.firstSampleByteOffset) + U32(l.lastSampleByteOffset)
    + U32(l.sampleFraction) + U32(l.playCount)
  }

  function LoopsBytes(ls: seq<SampleLoop>): (b: seq<byte>)
    ensures |b| == 24 * |ls|
  {
    if ls == [] then [] else LoopsBytes(ls[..|ls| - 1]) + LoopBytes(ls[|ls| - 1])
  }

  /** A text with its terminator; nothing for no text. */
  function Terminated(text: seq<byte>): (b: seq<byte>)
    ensures |b| == if text == [] then 0 else |text| + 1
  {
    if text == [] then [] else text + [0]
  }

  function LtxtHead(m: Metadata): (b: seq<byte>)
    requires m.LabelledRegion?
    ensures |b| == 20
  {
    U32(m.cuePointId) + U32(m.sampleLength) + m.purposeId + U16(m.country) + U16(m.language)
    + U16(m.dialect) + U16(m.codePage)
  }

  /** The writer follows the counts, so these must say how much there is. */
  predicate Countable(m: Metadata) {
    && (m.Cue? ==> m.cuePointCount == |m.points|)
    && (m.Smpl? ==> m.loopCount == |m.loops| && m.extraSize == |m.extra|)
    && (m.Bext? ==> m.bext.codingHistorySize == |m.bext.codingHistory|)
  }

  predicate AllCountable(ms: seq<Metadata>) {
    forall m :: m in ms ==> Countable(m)
  }

  datatype Place = Top | InInfo | InAdtl

  /** Where an item is written. */
  function PlaceOf(m: Metadata): Place {
    match m
    case Info(_, _) => InInfo
    case Label(_, _) => InAdtl
    case Note(_, _) => InAdtl
    case LabelledRegion(_, _, _, _, _, _, _, _) => InAdtl
    case Unknown(location, _, _) => if location.TopLevel? then Top else if location.InsideInfo? then InInfo else InAdtl
    case _ => Top
  }

  function IdOf(m: Metadata): Id {
    match m
    case Smpl(_, _, _, _, _) => SMPL
    case Inst(_) => INST
    case Cue(_, _) => CUE
    case Acid(_) => ACID
    case Bext(_) => BEXT
    case Label(_, _) => LABL
    case Note(_, _) => NOTE
    case LabelledRegion(_, _, _, _, _, _, _, _) => LTXT
    case Info(kind, _) => InfoId(kind)
    case Unknown(_, id, _) => id
  }

  /** The body of an item's chunk. */
  function BodyOf(m: Metadata): seq<byte> {
    match m
    case Smpl(head, loopCount, extraSize, loops, extra) =>
      head + U32(loopCount) + U32(extraSize) + LoopsBytes(loops) + extra
    case Inst(inst) => inst
    case Cue(cuePointCount, points) => U32(cuePointCount) + PointsBytes(points)
    case Acid(acid) => acid
    case Bext(bext) => BextBytes(bext)
    case Label(cuePointId, text) => U32(cuePointId) + Terminated(text)
    case Note(cuePointId, text) => U32(cuePointId) + Terminated(text)
    case LabelledRegion(_, _, _, _, _, _, _, text) => LtxtHead(m) + Terminated(text)
    case Info(_, text) => Terminated(text)
    case Unknown(_, _, data) => data
  }

  /** An item for which nothing is written, although the size of its list allows for it. */
  predicate Dropped(m: Metadata) {
    match m
    case Label(_, text) => text == []
    case Note(_, text) => text == []
    case Info(_, text) => text == []
    case Unknown(location, _, data) => location.InsideInfo? && data == []
    case _ => false
  }

  function ItemBytes(m: Metadata): seq<byte> {
    if Dropped(m) then [] else Padded(IdOf(m), BodyOf(m))
  }

  /** The chunks of the items that belong in a place. */
  function ItemsIn(ms: seq<Metadata>, place: Place): seq<byte> {
    if ms == [] then []
    else
      var m := ms[|ms| - 1];
      ItemsIn(ms[..|ms| - 1], place) + if PlaceOf(m) == place then ItemBytes(m) else []
  }

  /** What an item adds to the size of its list; even, and counted although nothing may be written. */
  function ListShare(m: Metadata): (n: nat)
    ensures n % 2 == 0
  {
    var n := match m
      case Info(_, text) => 8 + |text| + 1
      case _ => 8 + |BodyOf(m)|;
    n + n % 2
  }

  /** The size field of a list. */
  function ListSize(ms: seq<Metadata>, place: Place): (n: nat)
    ensures n % 2 == 0
  {
    if ms == [] then 4
    else
      var m := ms[|ms| - 1];
      ListSize(ms[..|ms| - 1], place) + if PlaceOf(m) == place then ListShare(m) else 0
  }

  predicate HasAny(ms: seq<Metadata>, place: Place) {
    exists m :: m in ms && PlaceOf(m) == place
  }

  function ListKind(place: Place): Id {
    if place.InInfo? then INFO else ADTL
  }

  function ListBytes(ms: seq<Metadata>, place: Place): seq<byte> {
    if HasAny(ms, place) then LIST + Size32(ListSize(ms, place)) + ListKind(place) + ItemsIn(ms, place) else []
  }

  /** All that is written for a list of items. */
  function Written(ms: seq<Metadata>): seq<byte> {
    ItemsIn(ms, Top) + ListBytes(ms, InInfo) + ListBytes(ms, InAdtl)
  }

  // ---- Sizes ----

  lemma ItemBytesLength(m: Metadata)
    ensures |ItemBytes(m)| == if Dropped(m) then 0 else 8 + |BodyOf(m)| + |BodyOf(m)| % 2
    ensures |ItemBytes(m)| % 2 == 0
  {
    hide BodyOf, IdOf, Padded;
  }

  /** An item's share of the list size is what is written for it exactly when it is not dropped. */
  lemma ShareIsWritten(m: Metadata)
    ensures |ItemBytes(m)| <= ListShare(m)
    ensures PlaceOf(m) != Top ==> (|ItemBytes(m)| == ListShare(m) <==> !Dropped(m))
  {
    ItemBytesLength(m);
    hide PointsBytes, LoopsBytes, LtxtHead, InfoId, Padded;
  }

  lemma ItemsStep(ms: seq<Metadata>, place: Place)
    requires ms != []
    ensures var m, before := ms[|ms| - 1], ms[..|ms| - 1];
            && ItemsIn(ms, place) == ItemsIn(before, place) + (if PlaceOf(m) == place then ItemBytes(m) else [])
            && ListSize(ms, place) == ListSize(before, place) + (if PlaceOf(m) == place then ListShare(m) else 0)
  {
  }

  lemma {:induction false} ItemsEven(ms: seq<Metadata>, place: Place)
    ensures |ItemsIn(ms, place)| % 2 == 0
  {
    hide *;
    NoItems(place);
    if ms != [] {
      ItemsStep(ms, place);
      ItemsEven(ms[..|ms| - 1], place);
      ItemBytesLength(ms[|ms| - 1]);
    }
  }

  lemma NoItems(place: Place)
    ensures ItemsIn([], place) == [] && ListSize([], place) == 4 && !HasAny([], place)
  {
  }

  /** The total is always even. */
  lemma WrittenEven(ms: seq<Metadata>)
    ensures |Written(ms)| % 2 == 0
  {
    hide ItemsIn;
    ItemsEven(ms, Top);
    ItemsEven(ms, InInfo);
    ItemsEven(ms, InAdtl);
  }

  ghost predicate NoneDropped(ms: seq<Metadata>, place: Place) {
    forall m :: m in ms && PlaceOf(m) == place ==> !Dropped(m)
  }

  /** The size field of a list is the size of its body exactly when no item in it is dropped. */
  lemma {:induction false} ListSizeIsBody(ms: seq<Metadata>, place: Place)
    requires place != Top
    ensures 4 + |ItemsIn(ms, place)| <= ListSize(ms, place)
    ensures ListSize(ms, place) == 4 + |ItemsIn(ms, place)| <==> NoneDropped(ms, place)
  {
    hide ItemsIn, ListSize, ItemBytes, ListShare, Dropped, PlaceOf;
    NoItems(place);
    if ms != [] {
      var m, before := ms[|ms| - 1], ms[..|ms| - 1];
      ListSizeIsBody(before, place);
      ItemsStep(ms, place);
      ShareIsWritten(m);
      assert forall x :: x in ms <==> x in before || x == m;
    }
  }

  // ---- The writer ----

  /** So far `w` has been written, or counted. */
  predicate Wrote(counting: bool, n: nat, out: seq<byte>, w: seq<byte>) {
    n == |w| && out == if counting then [] else w
  }

  /** drwav__write_or_count: without a file the bytes are only counted. */
  method Put(counting: bool, b: seq<byte>, n0: nat, out0: seq<byte>, ghost w: seq<byte>)
    returns (n: nat, out: seq<byte>)
    requires Wrote(counting, n0, out0, w)
    ensures Wrote(counting, n, out, w + b)
  {
    n := n0 + |b|;
    out := if counting then out0 else out0 + b;
  }

  /** The id and the size field of a chunk. */
  method PutHeader(counting: bool, id: Id, chunkSize: nat, n0: nat, out0: seq<byte>, ghost w: seq<byte>)
    returns (n: nat, out: seq<byte>)
    requires Wrote(counting, n0, out0, w)
    ensures Wrote(counting, n, out, w + (id + Size32(chunkSize)))
  {
    hide Wrote, Size32;
    n, out := Put(counting, id, n0, out0, w);
    n, out := Put(counting, Size32(chunkSize), n, out, w + id);
    assert (w + id) + Size32(chunkSize) == w + (id + Size32(chunkSize));
  }

  method PutPoints(counting: bool, count: nat, points: seq<CuePoint>, n0: nat, out0: seq<byte>, ghost w: seq<byte>)
    returns (n: nat, out: seq<byte>)
    requires Wrote(counting, n0, out0, w) && count == |points|
    ensures Wrote(counting, n, out, w + PointsBytes(points))
  {
    hide Wrote, PointBytes, PointsBytes;
    n, out := n0, out0;
    PointsStep(points, 0);
    assert w + [] == w;
    var i: nat := 0;
    while i < count
      invariant 0 <= i <= count && Wrote(counting, n, out, w + PointsBytes(points[..i]))
    {
      PointsStep(points, i);
      n, out := Put(counting, PointBytes(points[i]), n, out, w + PointsBytes(points[..i]));
      Joins(w, PointsBytes(points[..i]), PointBytes(points[i]));
      i := i + 1;
    }
    assert points[..i] == points;
  }

  lemma PointsStep(points: seq<CuePoint>, i: nat)
    ensures PointsBytes(points[..0]) == []
    ensures i < |points| ==> PointsBytes(points[..i + 1]) == PointsBytes(points[..i]) + PointBytes(points[i])
  {
    if i < |points| {
      assert points[..i + 1][..i] == points[..i];
    }
  }

  method PutLoops(counting: bool, count: nat, loops: seq<SampleLoop>, n0: nat, out0: seq<byte>, ghost w: seq<byte>)
    returns (n: nat, out: seq<byte>)
    requires Wrote(counting, n0, out0, w) && count == |loops|
    ensures Wrote(counting, n, out, w + LoopsBytes(loops))
  {
    hide Wrote, LoopBytes, LoopsBytes;
    n, out := n0, out0;
    LoopsStep(loops, 0);
    assert w + [] == w;
    var i: nat := 0;
    while i < count
      invariant 0 <= i <= count && Wrote(counting, n, out, w + LoopsBytes(loops[..i]))
    {
      LoopsStep(loops, i);
      n, out := Put(counting, LoopBytes(loops[i]), n, out, w + LoopsBytes(loops[..i]));
      Joins(w, LoopsBytes(loops[..i]), LoopBytes(loops[i]));
      i := i + 1;
    }
    assert loops[..i] == loops;
  }

  lemma LoopsStep(loops: seq<SampleLoop>, i: nat)
    ensures LoopsBytes(loops[..0]) == []
    ensures i < |loops| ==> LoopsBytes(loops[..i + 1]) == LoopsBytes(loops[..i]) + LoopBytes(loops[i])
  {
    if i < |loops| {
      assert loops[..i + 1][..i] == loops[..i];
    }
  }

  method PutCue(counting: bool, m: Metadata, n0: nat, out0: seq<byte>, ghost w: seq<byte>)
    returns (n: nat, out: seq<byte>, chunkSize: nat)
    requires Wrote(counting, n0, out0, w) && m.Cue? && Countable(m)
    ensures chunkSize == |BodyOf(m)| && Wrote(counting, n, out, w + Chunk(CUE, BodyOf(m)))
  {
    hide Wrote, PointsBytes, Size32;
    chunkSize := 4 + 24 * m.cuePointCount;
    n, out := PutHeader(counting, CUE, chunkSize, n0, out0, w);
    ghost var w1 := w + (CUE + Size32(chunkSize));
    n, out := Put(counting, U32(m.cuePointCount), n, out, w1);
    n, out := PutPoints(counting, m.cuePointCount, m.points, n, out, w1 + U32(m.cuePointCount));
    Joins(w1, U32(m.cuePointCount), PointsBytes(m.points));
    Joins(w, CUE + Size32(chunkSize), BodyOf(m));
  }

  method PutSmpl(counting: bool, m: Metadata, n0: nat, out0: seq<byte>, ghost w: seq<byte>)
    returns (n: nat, out: seq<byte>, chunkSize: nat)
    requires Wrote(counting, n0, out0, w) && m.Smpl? && Countable(m)
    ensures chunkSize == |BodyOf(m)| && Wrote(counting, n, out, w + Chunk(SMPL, BodyOf(m)))
  {
    hide Wrote, LoopsBytes, Size32;
    chunkSize := 36 + 24 * m.loopCount + m.extraSize;
    n, out := PutHeader(counting, SMPL, chunkSize, n0, out0, w);
    ghost var w1 := w + (SMPL + Size32(chunkSize));
    ghost var head := m.head + U32(m.loopCount) + U32(m.extraSize);
    n, out := Put(counting, m.head + U32(m.loopCount) + U32(m.extraSize), n, out, w1);
    n, out := PutLoops(counting, m.loopCount, m.loops, n, out, w1 + head);
    Joins(w1, head, LoopsBytes(m.loops));
    if m.extraSize > 0 {
      n, out := Put(counting, m.extra, n, out, w1 + (head + LoopsBytes(m.loops)));
      Joins(w1, head + LoopsBytes(m.loops), m.extra);
    } else {
      assert head + LoopsBytes(m.loops) == BodyOf(m);
    }
    Joins(w, SMPL + Size32(chunkSize), BodyOf(m));
  }

  /** drwav__write_or_count_string_to_fixed_size_buf: the string, and zeros up to the size of its field. */
  method PutText(counting: bool, s: CString, size: nat, n0: nat, out0: seq<byte>, ghost w: seq<byte>)
    returns (n: nat, out: seq<byte>)
    requires Wrote(counting, n0, out0, w)
    ensures Wrote(counting, n, out, w + FixedText(s, size))
  {
    hide Clipped;
    if counting {
      return n0 + size, out0;
    }
    var len := |Clipped(s, size)|;
    n, out := Put(counting, Clipped(s, size), n0, out0, w);
    var i := 0;
    while i < size - len
      invariant 0 <= i <= size - len && Wrote(counting, n, out, w + (Clipped(s, size) + Zeros(i)))
    {
      n, out := Put(counting, [0], n, out, w + (Clipped(s, size) + Zeros(i)));
      assert w + (Clipped(s, size) + Zeros(i)) + [0] == w + (Clipped(s, size) + Zeros(i + 1));
      i := i + 1;
    }
  }

  method PutBext(counting: bool, m: Metadata, n0: nat, out0: seq<byte>, ghost w: seq<byte>)
    returns (n: nat, out: seq<byte>, chunkSize: nat)
    requires Wrote(counting, n0, out0, w) && m.Bext? && Countable(m)
    ensures chunkSize == |BodyOf(m)| && Wrote(counting, n, out, w + Chunk(BEXT, BodyOf(m)))
  {
    hide *;
    var b := m.bext;
    BextIs(m);
    chunkSize := 602 + b.codingHistorySize;
    n, out := PutHeader(counting, BEXT, chunkSize, n0, out0, w);
    ghost var w1 := w + (BEXT + Size32(chunkSize));
    ghost var d, o := FixedText(b.description, 256), FixedText(b.originatorName, 32);
    n, out := PutText(counting, b.description, 256, n, out, w1);
    n, out := PutText(counting, b.originatorName, 32, n, out, w1 + d);
    Joins(w1, d, o);
    n, out := PutText(counting, b.originatorReference, 32, n, out, w1 + (d + o));
    Joins(w1, d + o, FixedText(b.originatorReference, 32));
    ghost var texts := d + o + FixedText(b.originatorReference, 32);
    n, out := Put(counting, b.originationDate, n, out, w1 + texts);
    Joins(w1, texts, b.originationDate);
    n, out := Put(counting, b.originationTime, n, out, w1 + (texts + b.originationDate));
    Joins(w1, texts + b.originationDate, b.originationTime);
    n, out := Put(counting, Numbers(b), n, out, w1 + Texts(b));
    Joins(w1, Texts(b), Numbers(b));
    n, out := Put(counting, Zeros(180), n, out, w1 + (Texts(b) + Numbers(b)));
    Joins(w1, Texts(b) + Numbers(b), Zeros(180));
    ghost var fixed := Texts(b) + Numbers(b) + Zeros(180);
    AppendNone(fixed);
    if b.codingHistorySize > 0 {
      n, out := Put(counting, b.codingHistory, n, out, w1 + fixed);
      Joins(w1, fixed, b.codingHistory);
    }
    Joins(w, BEXT + Size32(chunkSize), BodyOf(m));
    ChunkIs(BEXT, BodyOf(m));
  }

  lemma BextIs(m: Metadata)
    requires m.Bext? && Countable(m)
    ensures var b := m.bext;
            && b.codingHistorySize == |b.codingHistory| && |BodyOf(m)| == 602 + |b.codingHistory|
            && Texts(b) == FixedText(b.description, 256) + FixedText(b.originatorName, 32)
                           + FixedText(b.originatorReference, 32) + b.originationDate + b.originationTime
            && BodyOf(m) == Texts(b) + Numbers(b) + Zeros(180) + b.codingHistory
            && (|b.codingHistory| == 0 ==> b.codingHistory == [])
  {
    hide FixedText, Numbers, Zeros;
  }

  lemma ChunkIs(id: Id, body: seq<byte>)
    ensures Chunk(id, body) == id + Size32(|body|) + body
  {
  }

  method PutChunk(counting: bool, id: Id, body: seq<byte>, n0: nat, out0: seq<byte>, ghost w: seq<byte>)
    returns (n: nat, out: seq<byte>, chunkSize: nat)
    requires Wrote(counting, n0, out0, w)
    ensures chunkSize == |body| && Wrote(counting, n, out, w + Chunk(id, body))
  {
    hide Wrote, Size32;
    chunkSize := |body|;
    n, out := PutHeader(counting, id, chunkSize, n0, out0, w);
    n, out := Put(counting, body, n, out, w + (id + Size32(chunkSize)));
    Joins(w, id + Size32(chunkSize), body);
  }

  /** The byte after a chunk of odd size. */
  method PutPad(counting: bool, chunkSize: nat, n0: nat, out0: seq<byte>, ghost w: seq<byte>)
    returns (n: nat, out: seq<byte>)
    requires Wrote(counting, n0, out0, w)
    ensures Wrote(counting, n, out, w + PadOf(chunkSize))
  {
    n, out := n0, out0;
    if chunkSize % 2 != 0 {
      n, out := Put(counting, [0], n, out, w);
    } else {
      assert w + [] == w;
    }
  }

  /** One turn of the first loop: an item that has a chunk of its own. */
  method WriteTopItem(counting: bool, m: Metadata, n0: nat, out0: seq<byte>, ghost w: seq<byte>)
    returns (n: nat, out: seq<byte>)
    requires Wrote(counting, n0, out0, w) && Countable(m)
    ensures Wrote(counting, n, out, w + if PlaceOf(m) == Top then ItemBytes(m) else [])
  {
    hide Wrote, BodyOf, Chunk, PadOf, Countable;
    var chunkSize: nat := 0;
    n, out := n0, out0;
    ghost var chunk := [];
    assert w + [] == w;
    PadNone();
    match m {
      case Smpl(_, _, _, _, _) =>
        n, out, chunkSize := PutSmpl(counting, m, n, out, w);
        chunk := Chunk(SMPL, BodyOf(m));
      case Cue(_, _) =>
        n, out, chunkSize := PutCue(counting, m, n, out, w);
        chunk := Chunk(CUE, BodyOf(m));
      case Inst(_) =>
        n, out, chunkSize := PutChunk(counting, INST, BodyOf(m), n, out, w);
        chunk := Chunk(INST, BodyOf(m));
      case Acid(_) =>
        n, out, chunkSize := PutChunk(counting, ACID, BodyOf(m), n, out, w);
        chunk := Chunk(ACID, BodyOf(m));
      case Bext(_) =>
        n, out, chunkSize := PutBext(counting, m, n, out, w);
        chunk := Chunk(BEXT, BodyOf(m));
      case Unknown(location, id, _) =>
        if location.TopLevel? {
          n, out, chunkSize := PutChunk(counting, id, BodyOf(m), n, out, w);
          chunk := Chunk(id, BodyOf(m));
        }
      case _ =>
    }
    n, out := PutPad(counting, chunkSize, n, out, w + chunk);
    Joins(w, chunk, PadOf(chunkSize));
  }

  lemma PadNone()
    ensures PadOf(0) == []
  {
  }

  /** One turn of the loop over the text items. */
  method WriteInfoItem(counting: bool, m: Metadata, n0: nat, out0: seq<byte>, ghost w: seq<byte>)
    returns (n: nat, out: seq<byte>)
    requires Wrote(counting, n0, out0, w)
    ensures Wrote(counting, n, out, w + if PlaceOf(m) == InInfo then ItemBytes(m) else [])
  {
    hide Wrote, Chunk, PadOf, InfoId;
    var chunkSize: nat := 0;
    n, out := n0, out0;
    ghost var chunk := [];
    assert w + [] == w;
    PadNone();
    match m {
      case Info(kind, text) =>
        if |text| > 0 {
          n, out, chunkSize := PutChunk(counting, InfoId(kind), Terminated(text), n, out, w);
          chunk := Chunk(InfoId(kind), Terminated(text));
        }
      case Unknown(location, id, data) =>
        if location.InsideInfo? && |data| > 0 {
          n, out, chunkSize := PutChunk(counting, id, data, n, out, w);
          chunk := Chunk(id, data);
        }
      case _ =>
    }
    n, out := PutPad(counting, chunkSize, n, out, w + chunk);
    Joins(w, chunk, PadOf(chunkSize));
  }

  /** One turn of the loop over the labels. */
  method WriteAdtlItem(counting: bool, m: Metadata, n0: nat, out0: seq<byte>, ghost w: seq<byte>)
    returns (n: nat, out: seq<byte>)
    requires Wrote(counting, n0, out0, w)
    ensures Wrote(counting, n, out, w + if PlaceOf(m) == InAdtl then ItemBytes(m) else [])
  {
    hide Wrote, Chunk, PadOf, BodyOf;
    var chunkSize: nat := 0;
    n, out := n0, out0;
    ghost var chunk := [];
    assert w + [] == w;
    PadNone();
    match m {
      case Label(_, text) =>
        if |text| > 0 {
          n, out, chunkSize := PutChunk(counting, LABL, BodyOf(m), n, out, w);
          chunk := Chunk(LABL, BodyOf(m));
        }
      case Note(_, text) =>
        if |text| > 0 {
          n, out, chunkSize := PutChunk(counting, NOTE, BodyOf(m), n, out, w);
          chunk := Chunk(NOTE, BodyOf(m));
        }
      case LabelledRegion(_, _, _, _, _, _, _, _) =>
        n, out, chunkSize := PutChunk(counting, LTXT, BodyOf(m), n, out, w);
        chunk := Chunk(LTXT, BodyOf(m));
      case Unknown(location, id, _) =>
        if location.InsideAdtl? {
          n, out, chunkSize := PutChunk(counting, id, BodyOf(m), n, out, w);
          chunk := Chunk(id, BodyOf(m));
        }
      case _ =>
    }
    n, out := PutPad(counting, chunkSize, n, out, w + chunk);
    Joins(w, chunk, PadOf(chunkSize));
  }

  /** One turn of the loop that adds up the size of the INFO list. */
  method AddInfoSize(m: Metadata, size0: nat) returns (size: nat)
    requires size0 % 2 == 0
    ensures size == size0 + if PlaceOf(m) == InInfo then ListShare(m) else 0
  {
    size := size0;
    match m {
      case Info(_, text) =>
        size := size + 8;
        size := size + |text| + 1;
      case Unknown(location, _, data) =>
        if location.InsideInfo? {
          size := size + 8;
          size := size + |data|;
        }
      case _ =>
    }
    if size % 2 != 0 {
      size := size + 1;
    }
  }

  /** One turn of the loop that adds up the size of the adtl list. */
  method AddAdtlSize(m: Metadata, size0: nat) returns (size: nat)
    requires size0 % 2 == 0
    ensures size == size0 + if PlaceOf(m) == InAdtl then ListShare(m) else 0
  {
    hide *;
    AdtlShare(m);
    RoundsUp(size0, |BodyOf(m)|);
    size := size0;
    match m {
      case Label(_, text) =>
        size := size + 8 + 4;
        if |text| > 0 {
          size := size + |text| + 1;
        }
      case Note(_, text) =>
        size := size + 8 + 4;
        if |text| > 0 {
          size := size + |text| + 1;
        }
      case LabelledRegion(_, _, _, _, _, _, _, text) =>
        size := size + 8 + 20;
        if |text| > 0 {
          size := size + |text| + 1;
        }
      case Unknown(location, _, data) =>
        if location.InsideAdtl? {
          size := size + 8;
          size := size + |data|;
        }
      case _ =>
    }
    if size % 2 != 0 {
      size := size + 1;
    }
  }

  lemma AdtlShare(m: Metadata)
    ensures PlaceOf(m) == InAdtl ==> ListShare(m) == 8 + |BodyOf(m)| + |BodyOf(m)| % 2
    ensures match m
            case Label(_, text) => PlaceOf(m) == InAdtl && |BodyOf(m)| == if |text| > 0 then 4 + |text| + 1 else 4
            case Note(_, text) => PlaceOf(m) == InAdtl && |BodyOf(m)| == if |text| > 0 then 4 + |text| + 1 else 4
            case LabelledRegion(_, _, _, _, _, _, _, text) =>
              PlaceOf(m) == InAdtl && |BodyOf(m)| == if |text| > 0 then 20 + |text| + 1 else 20
            case Unknown(location, _, data) => (PlaceOf(m) == InAdtl <==> location.InsideAdtl?) && |BodyOf(m)| == |data|
            case _ => PlaceOf(m) != InAdtl
  {
  }

  lemma RoundsUp(size: nat, n: nat)
    requires size % 2 == 0
    ensures n % 2 == 0 ==> (size + 8 + n) % 2 == 0
    ensures n % 2 != 0 ==> (size + 8 + n) % 2 == 1 && n % 2 == 1
  {
  }

  /** The size of a list, summed before the list is written. */
  method SumList(ms: seq<Metadata>, place: Place) returns (chunkSize: nat)
    requires place != Top
    ensures chunkSize == ListSize(ms, place)
  {
    hide *;
    NoItems(place);
    FirstNone(ms);
    chunkSize := 4;
    var i: nat := 0;
    assert 4 % 2 == 0;
    while i < |ms|
      invariant i <= |ms| && 0 <= chunkSize && chunkSize % 2 == 0 && chunkSize == ListSize(First(ms, i), place)
    {
      FirstStep(ms, i);
      ItemsStep(First(ms, i + 1), place);
      ShareEven(ms[i]);
      if place == InInfo {
        chunkSize := AddInfoSize(ms[i], chunkSize);
      } else {
        chunkSize := AddAdtlSize(ms[i], chunkSize);
      }
      i := i + 1;
    }
    FirstAll(ms);
  }

  /** The items of a list, one after the other. */
  method WriteItems(counting: bool, ms: seq<Metadata>, place: Place, n0: nat, out0: seq<byte>, ghost w: seq<byte>)
    returns (n: nat, out: seq<byte>)
    requires Wrote(counting, n0, out0, w) && place != Top
    ensures Wrote(counting, n, out, w + ItemsIn(ms, place))
  {
    hide *;
    NoItems(place);
    FirstNone(ms);
    FirstAll(ms);
    AppendNone(w);
    n, out := n0, out0;
    var i: nat := 0;
    while i < |ms|
      invariant i <= |ms| && Wrote(counting, n, out, w + ItemsIn(First(ms, i), place))
    {
      n, out := WriteItem(counting, ms[i], place, n, out, w + ItemsIn(First(ms, i), place));
      ItemsJoin(ms, i, place, w);
      i := i + 1;
    }
  }

  method WriteItem(counting: bool, m: Metadata, place: Place, n0: nat, out0: seq<byte>, ghost w: seq<byte>)
    returns (n: nat, out: seq<byte>)
    requires Wrote(counting, n0, out0, w) && place != Top
    ensures Wrote(counting, n, out, w + if PlaceOf(m) == place then ItemBytes(m) else [])
  {
    hide *;
    if place == InInfo {
      n, out := WriteInfoItem(counting, m, n0, out0, w);
    } else {
      n, out := WriteAdtlItem(counting, m, n0, out0, w);
    }
  }

  lemma ItemsJoin(ms: seq<Metadata>, i: nat, place: Place, w: seq<byte>)
    requires i < |ms|
    ensures w + ItemsIn(First(ms, i), place) + (if PlaceOf(ms[i]) == place then ItemBytes(ms[i]) else [])
            == w + ItemsIn(First(ms, i + 1), place)
  {
    hide *;
    FirstStep(ms, i);
    ItemsStep(First(ms, i + 1), place);
    Joins(w, ItemsIn(First(ms, i), place), if PlaceOf(ms[i]) == place then ItemBytes(ms[i]) else []);
  }

  /** One list: its size is added up first, then its items are written. */
  method WriteList(counting: bool, ms: seq<Metadata>, place: Place, n0: nat, out0: seq<byte>, ghost w: seq<byte>)
    returns (n: nat, out: seq<byte>)
    requires Wrote(counting, n0, out0, w) && place != Top
    ensures Wrote(counting, n, out, w + (LIST + Size32(ListSize(ms, place)) + ListKind(place) + ItemsIn(ms, place)))
  {
    hide *;
    var chunkSize := SumList(ms, place);
    n, out := PutHeader(counting, LIST, chunkSize, n0, out0, w);
    n, out := Put(counting, ListKind(place), n, out, w + (LIST + Size32(chunkSize)));
    Joins(w, LIST + Size32(chunkSize), ListKind(place));
    n, out := WriteItems(counting, ms, place, n, out, w + (LIST + Size32(chunkSize) + ListKind(place)));
    Joins(w, LIST + Size32(chunkSize) + ListKind(place), ItemsIn(ms, place));
  }

  function First(ms: seq<Metadata>, i: nat): seq<Metadata>
    requires i <= |ms|
  {
    ms[..i]
  }

  lemma FirstNone(ms: seq<Metadata>)
    ensures First(ms, 0) == []
  {
  }

  lemma FirstAll(ms: seq<Metadata>)
    ensures First(ms, |ms|) == ms
  {
  }

  lemma FirstStep(ms: seq<Metadata>, i: nat)
    requires i < |ms|
    ensures First(ms, i + 1) != [] && |First(ms, i + 1)| == i + 1
    ensures First(ms, i + 1)[..i] == First(ms, i) && First(ms, i + 1)[i] == ms[i]
    ensures First(ms, i + 1) == First(ms, i) + [ms[i]]
  {
  }

  lemma ShareEven(m: Metadata)
    ensures 0 <= ListShare(m) && ListShare(m) % 2 == 0
    ensures forall n: nat :: n % 2 == 0 ==> (n + ListShare(m)) % 2 == 0
  {
  }

  /** drwav__write_or_count_metadata: what is counted without a file is what is written with one. */
  method WriteOrCountMetadata(counting: bool, ms: seq<Metadata>) returns (bytesWritten: nat, out: seq<byte>)
    requires AllCountable(ms)
    ensures bytesWritten == |Written(ms)| && out == if counting then [] else Written(ms)
  {
    hide *;
    WroteNone(counting);
    bytesWritten, out := 0, [];
    var hasListInfo, hasListAdtl := false, false;
    var i: nat := 0;
    FirstNone(ms);
    NoItems(Top);
    NoItems(InInfo);
    NoItems(InAdtl);
    while i < |ms|
      invariant i <= |ms|
      invariant hasListInfo == HasAny(First(ms, i), InInfo) && hasListAdtl == HasAny(First(ms, i), InAdtl)
      invariant Wrote(counting, bytesWritten, out, ItemsIn(First(ms, i), Top))
    {
      FirstStep(ms, i);
      ItemsStep(First(ms, i + 1), Top);
      HasAnyStep(First(ms, i), ms[i], InInfo);
      HasAnyStep(First(ms, i), ms[i], InAdtl);
      CountableAt(ms, i);
      if PlaceOf(ms[i]) == InInfo {
        hasListInfo := true;
      }
      if PlaceOf(ms[i]) == InAdtl {
        hasListAdtl := true;
      }
      bytesWritten, out := WriteTopItem(counting, ms[i], bytesWritten, out, ItemsIn(First(ms, i), Top));
      i := i + 1;
    }
    FirstAll(ms);
    ghost var w := ItemsIn(ms, Top);
    ListBytesIs(ms, InInfo);
    ListBytesIs(ms, InAdtl);
    assert w + [] == w;
    if hasListInfo {
      bytesWritten, out := WriteList(counting, ms, InInfo, bytesWritten, out, w);
    }
    w := w + ListBytes(ms, InInfo);
    assert w + [] == w;
    if hasListAdtl {
      bytesWritten, out := WriteList(counting, ms, InAdtl, bytesWritten, out, w);
    }
    WrittenIs(ms);
    WroteIs(counting, bytesWritten, out, Written(ms));
  }

  lemma WroteNone(counting: bool)
    ensures Wrote(counting, 0, [], [])
  {
  }

  lemma WroteIs(counting: bool, n: nat, out: seq<byte>, w: seq<byte>)
    ensures Wrote(counting, n, out, w) <==> n == |w| && out == if counting then [] else w
  {
  }

  lemma HasAnyStep(ms: seq<Metadata>, m: Metadata, place: Place)
    ensures HasAny(ms + [m], place) <==> HasAny(ms, place) || PlaceOf(m) == place
  {
    if HasAny(ms, place) {
      var x :| x in ms && PlaceOf(x) == place;
      assert x in ms + [m];
    } else if PlaceOf(m) == place {
      assert m in ms + [m];
    }
  }

  lemma CountableAt(ms: seq<Metadata>, i: nat)
    requires AllCountable(ms) && i < |ms|
    ensures Countable(ms[i])
  {
  }

  lemma ListBytesIs(ms: seq<Metadata>, place: Place)
    ensures ListBytes(ms, place)
            == if HasAny(ms, place) then LIST + Size32(ListSize(ms, place)) + ListKind(place) + ItemsIn(ms, place) else []
  {
  }

  lemma WrittenIs(ms: seq<Metadata>)
    ensures Written(ms) == ItemsIn(ms, Top) + ListBytes(ms, InInfo) + ListBytes(ms, InAdtl)
  {
  }
}
