/**
 Reading back what was written: a finished file of the dr_wav writer, opened by the dr_wav reader, has
 the same format, audio data and metadata.
 */
module WavRoundTrip {
  import opened ByteImages
  import opened Bytes
  import opened WavMetadata
  import opened WavMetadataParser
  import opened WavFormat
  import opened WavScan
  import opened Walks

  // ---- The fmt chunk ----

  lemma FmtBack(img: seq<byte>, p: nat, f: DataFormat)
    requires Holds(img, p, FmtBytes(FmtOf(f)))
    ensures p + 16 <= |img| && BasicFmt(img, p) == FmtOf(f)
  {
    hide U32, GetU32, U16, GetU16, To32, To16;
    var fmt := FmtOf(f);
    var a, b, c, d, e, g := U16(fmt.formatTag), U16(fmt.channels), U32(fmt.sampleRate), U32(fmt.avgBytesPerSec),
                            U16(fmt.blockAlign), U16(fmt.bitsPerSample);
    HoldsIs(img, p, FmtBytes(fmt));
    HoldsSplit(img, p, a + b + c + d + e, g);
    HoldsSplit(img, p, a + b + c + d, e);
    HoldsSplit(img, p, a + b + c, d);
    HoldsSplit(img, p, a + b, c);
    HoldsSplit(img, p, a, b);
    U16At(img, p, fmt.formatTag);
    U16At(img, p + 2, fmt.channels);
    U32At(img, p + 4, fmt.sampleRate);
    U32At(img, p + 8, fmt.avgBytesPerSec);
    U16At(img, p + 12, fmt.blockAlign);
    U16At(img, p + 14, fmt.bitsPerSample);
  }

  /** A header with a 32-bit size. */
  lemma HeaderBack(img: seq<byte>, p: nat, c: Container, id: Id, size: u32)
    requires !c.W64? && Holds(img, p, id + U32(size))
    ensures p + 8 <= |img| && img[p..p + 4] == id && GetU32(img, p + 4) == size
    ensures ReadHeader(img, p, c) == Header(id, size, size % 2, p + 8)
  {
    hide U32, GetU32, Holds;
    HoldsSplit(img, p, id, U32(size));
    HoldsIs(img, p, id);
    U32At(img, p + 4, size);
  }

  /** Both passes over the fmt chunk of RIFF and RF64. */
  lemma FmtChunkBack(img: seq<byte>, p: nat, c: Container, withMetadata: bool, s: Scan, f: DataFormat,
                     items: seq<Metadata>)
    requires (c.Riff? || c.Rf64?) && Holds(img, p, FmtChunk(FmtOf(f)))
    ensures ScanFrom(img, p, c, withMetadata, s)
            == ScanFrom(img, p + 24, c, withMetadata, s.(foundFmt := true, fmt := FmtOf(f)))
    ensures FillFrom(img, p, items) == FillFrom(img, p + 24, items)
  {
    hide *;
    FmtChunkIs(FmtOf(f));
    HoldsSplit(img, p, FMT + U32(16), FmtBytes(FmtOf(f)));
    HeaderBack(img, p, c, FMT, 16);
    FmtBack(img, p + 8, f);
    ScanStepIs(img, p, c, withMetadata, s);
    FmtTurnIs(img, c, withMetadata, p + 8, s);
    FmtSkipped(img, p + 8);
    TakenBack(img, p, FMT, 16, [], 0, items);
    assert items + [] == items;
  }

  lemma FmtChunkIs(fmt: Fmt)
    ensures FmtChunk(fmt) == (FMT + U32(16)) + FmtBytes(fmt) && |FMT + U32(16)| == 8
  {
  }

  lemma FmtTurnIs(img: seq<byte>, c: Container, withMetadata: bool, p: nat, s: Scan)
    requires (c.Riff? || c.Rf64?) && p + 16 <= |img|
    ensures ScanTurn(img, c, withMetadata, Header(FMT, 16, 16 % 2, p), s)
            == GoesOn(s.(foundFmt := true, fmt := BasicFmt(img, p)), p + 16)
  {
    hide BasicFmt;
  }

  lemma FmtSkipped(img: seq<byte>, p: nat)
    requires p <= |img|
    ensures FillChunk(img, p, FMT, 16) == Took(0, [], p)
  {
  }

  /** A turn of the second pass over a chunk that is in the image: past it, with its items. */
  lemma TakenBack(img: seq<byte>, p: nat, id: Id, size: nat, found: seq<Metadata>, read: nat, items: seq<Metadata>)
    requires p + 8 <= |img| && img[p..p + 4] == id && GetU32(img, p + 4) == size && read <= size
    requires FillChunk(img, p + 8, id, size) == Took(read, found, p + 8 + read)
    ensures FillFrom(img, p, items)
            == if p + 8 + size + size % 2 > |img| then Refused
               else FillFrom(img, p + 8 + size + size % 2, items + found)
  {
    hide FillFrom, FillChunk, GetU32;
    FillStepIs(img, p, items);
  }

  // ---- Metadata ----

  function Counted(pieces: seq<Piece>): nat { |PiecesItems(pieces)| }

  /** Both passes over one readable chunk. */
  lemma PieceBack(img: seq<byte>, p: nat, c: Container, withMetadata: bool, s: Scan, piece: Piece, items: seq<Metadata>)
    requires (c.Riff? || c.Rf64?) && Readable(piece) && Holds(img, p, PieceBytes(piece)) && s.drift == 0
    ensures ScanFrom(img, p, c, withMetadata, s)
            == ScanFrom(img, p + |PieceBytes(piece)|, c, withMetadata,
                        s.(metadataCount := s.metadataCount + if withMetadata then |piece.items| else 0))
    ensures FillFrom(img, p, items) == FillFrom(img, p + |PieceBytes(piece)|, items + piece.items)
  {
    hide *;
    PieceIs(piece);
    ReadableIs(img, p + 8, piece);
    ChunkBack(img, p, piece.id, piece.body);
    ReadableAt(img, p + 8, piece);
    Header4(img, p, c, piece.id, |piece.body|);
    ScanStepIs(img, p, c, withMetadata, s);
    TakenBack(img, p, piece.id, |piece.body|, piece.items, |piece.body|, items);
    OtherTurnIs(img, c, withMetadata, piece.id, |piece.body|, p + 8, s);
  }

  lemma PieceIs(piece: Piece)
    ensures PieceBytes(piece) == Padded(piece.id, piece.body)
    ensures |PieceBytes(piece)| == 8 + |piece.body| + |piece.body| % 2
  {
  }

  lemma ReadableIs(img: seq<byte>, p: nat, piece: Piece)
    requires Readable(piece)
    ensures |piece.body| < 0x1_0000_0000 && piece.id != DATA && piece.id != FMT && piece.id != FACT
  {
    hide FillChunk, CountChunk;
  }

  lemma ReadableAt(img: seq<byte>, p: nat, piece: Piece)
    requires Readable(piece) && Holds(img, p, piece.body)
    ensures p <= |img|
    ensures FillChunk(img, p, piece.id, |piece.body|) == Took(|piece.body|, piece.items, p + |piece.body|)
    ensures CountChunk(img, p, piece.id, |piece.body|) == |piece.items|
  {
    hide FillChunk, CountChunk;
  }

  lemma Header4(img: seq<byte>, p: nat, c: Container, id: Id, size: nat)
    requires !c.W64? && p + 8 <= |img| && img[p..p + 4] == id && GetU32(img, p + 4) == size
    ensures ReadHeader(img, p, c) == Header(id, size, size % 2, p + 8)
  {
    hide GetU32;
  }

  lemma OtherTurnIs(img: seq<byte>, c: Container, withMetadata: bool, id: Id, size: u32, p: nat, s: Scan)
    requires (c.Riff? || c.Rf64?) && id != FMT && id != DATA && id != FACT && p + size + size % 2 <= |img|
    requires s.drift == 0
    ensures ScanTurn(img, c, withMetadata, Header(id, size, size % 2, p), s)
            == GoesOn(s.(metadataCount := s.metadataCount + if withMetadata then CountChunk(img, p, id, size) else 0),
                      p + size + size % 2)
  {
    hide CountChunk;
  }

  /** Both passes over all the metadata. */
  lemma {:induction false} PiecesBack(img: seq<byte>, p: nat, c: Container, withMetadata: bool, s: Scan,
                                      pieces: seq<Piece>, items: seq<Metadata>)
    requires (c.Riff? || c.Rf64?) && AllReadable(pieces) && Holds(img, p, PiecesBytes(pieces)) && s.drift == 0
    ensures ScanFrom(img, p, c, withMetadata, s)
            == ScanFrom(img, p + |PiecesBytes(pieces)|, c, withMetadata,
                        s.(metadataCount := s.metadataCount + if withMetadata then Counted(pieces) else 0))
    ensures FillFrom(img, p, items) == FillFrom(img, p + |PiecesBytes(pieces)|, items + PiecesItems(pieces))
    decreases |pieces|
  {
    hide *;
    NoPieces(s);
    if pieces == [] {
      assert items + [] == items;
    } else {
      var before, piece := pieces[..|pieces| - 1], pieces[|pieces| - 1];
      LastReadable(pieces);
      PieceIs(piece);
      HoldsSplit(img, p, PiecesBytes(before), PieceBytes(piece));
      PiecesBack(img, p, c, withMetadata, s, before, items);
      var s' := s.(metadataCount := s.metadataCount + if withMetadata then Counted(before) else 0);
      PieceBack(img, p + |PiecesBytes(before)|, c, withMetadata, s', piece, items + PiecesItems(before));
      assert items + PiecesItems(before) + piece.items == items + (PiecesItems(before) + piece.items);
    }
  }

  lemma NoPieces(s: Scan)
    ensures PiecesBytes([]) == [] && PiecesItems([]) == [] && Counted([]) == 0
    ensures s.(metadataCount := s.metadataCount + 0) == s
  {
  }

  lemma LastReadable(pieces: seq<Piece>)
    requires AllReadable(pieces) && pieces != []
    ensures var before, piece := pieces[..|pieces| - 1], pieces[|pieces| - 1];
            && AllReadable(before) && Readable(piece)
            && PiecesBytes(pieces) == PiecesBytes(before) + PieceBytes(piece)
            && PiecesItems(pieces) == PiecesItems(before) + piece.items
            && Counted(pieces) == Counted(before) + |piece.items|
  {
    hide Readable, PieceBytes;
  }

  // ---- Whole files ----

  /** The number of items does not change when they are regrouped. */
  lemma {:induction false} RegroupedCount(ms: seq<Metadata>)
    ensures |Picked(ms, Top)| + |Picked(ms, InInfo)| + |Picked(ms, InAdtl)| == |ms|
    ensures multiset(Picked(ms, Top)) + multiset(Picked(ms, InInfo)) + multiset(Picked(ms, InAdtl)) == multiset(ms)
  {
    if ms != [] {
      var m, before := ms[|ms| - 1], ms[..|ms| - 1];
      RegroupedCount(before);
      hide *;
      PickedStep(ms, Top);
      PickedStep(ms, InInfo);
      PickedStep(ms, InAdtl);
      assert ms == before + [m];
      Pushed(before, m);
      Pushed(Picked(before, Top), m);
      Pushed(Picked(before, InInfo), m);
      Pushed(Picked(before, InAdtl), m);
      Added(multiset(Picked(before, Top)), multiset(Picked(before, InInfo)), multiset(Picked(before, InAdtl)), multiset{m});
      NotPushed(Picked(before, Top));
      NotPushed(Picked(before, InInfo));
      NotPushed(Picked(before, InAdtl));
      Places(PlaceOf(m));
    } else {
      PickedStep(ms, Top);
      PickedStep(ms, InInfo);
      PickedStep(ms, InAdtl);
    }
  }

  lemma Pushed(s: seq<Metadata>, m: Metadata)
    ensures multiset(s + [m]) == multiset(s) + multiset{m}
  {
  }

  lemma NotPushed(s: seq<Metadata>)
    ensures s + [] == s
  {
  }

  lemma Added(a: multiset<Metadata>, b: multiset<Metadata>, c: multiset<Metadata>, x: multiset<Metadata>)
    ensures (a + x) + b + c == (a + b + c) + x && a + (b + x) + c == (a + b + c) + x && a + b + (c + x) == (a + b + c) + x
  {
  }

  lemma Places(p: Place)
    ensures p == Top || p == InInfo || p == InAdtl
    ensures Top != InInfo && Top != InAdtl && InInfo != InAdtl
  {
  }

  /** Regrouping loses no item and adds none; within a place the order stays. */
  lemma RegroupedIsPermutation(ms: seq<Metadata>)
    ensures |Regrouped(ms)| == |ms| && multiset(Regrouped(ms)) == multiset(ms)
  {
    hide Picked;
    RegroupedCount(ms);
  }

  /** Where the chunks begin in RIFF and RF64. */
  function ChunksAt(c: Container): nat { if c.Riff? then 12 else 48 }

  /** The size that the data chunk's header gives. */
  function DataHeader(c: Container, n: nat): (size: u32) {
    if c.Riff? then Clamp32(n) else MAX32
  }

  /** The parts of a finished RIFF or RF64 file from its first chunk on. */
  lemma ChunksOf(c: Container, f: DataFormat, meta: seq<byte>, audio: seq<byte>)
    requires c.Riff? || c.Rf64?
    ensures var img := Finished(c, FmtOf(f), meta, audio);
            var at := ChunksAt(c);
            && |img| == at + 32 + |meta| + |audio| + |audio| % 2
            && Holds(img, at, FmtChunk(FmtOf(f))) && Holds(img, at + 24, meta)
            && Holds(img, at + 24 + |meta|, DATA + U32(DataHeader(c, |audio|)))
            && Holds(img, at + 32 + |meta|, audio)
  {
    hide FmtOf, FmtChunk, U64, U32, Holds, To64, Clamp32;
    var img := Finished(c, FmtOf(f), meta, audio);
    var fmt := FmtOf(f);
    var n := |audio|;
    var head := Head(c, fmt, meta, RiffField(c, n, |meta|), DataField(c, n));
    var pad := Zeros(PaddingSize(c, n));
    HoldsAll(img);
    HoldsSplit(img, 0, head + audio, pad);
    HoldsSplit(img, 0, head, audio);
    HeadLength(c, fmt, meta, RiffField(c, n, |meta|), DataField(c, n));
    if c.Riff? {
      RiffChunks(img, fmt, meta, n);
    } else {
      Rf64Chunks(img, fmt, meta, n);
    }
  }

  lemma RiffChunks(img: seq<byte>, fmt: Fmt, meta: seq<byte>, n: nat)
    requires Holds(img, 0, Head(Riff, fmt, meta, RiffField(Riff, n, |meta|), DataField(Riff, n)))
    ensures Holds(img, 0, RIFF_ID) && Holds(img, 8, WAVE_ID) && Holds(img, 12, FmtChunk(fmt)) && Holds(img, 36, meta)
    ensures Holds(img, 36 + |meta|, DATA + U32(DataHeader(Riff, n)))
  {
    hide FmtChunk, U64, U32, Holds;
    var a := SizeField(Riff, RiffField(Riff, n, |meta|));
    var d := SizeField(Riff, DataField(Riff, n));
    var mid := (WAVE_ID + FmtChunk(fmt)) + meta + DATA;
    RiffSize(n);
    assert Head(Riff, fmt, meta, RiffField(Riff, n, |meta|), DataField(Riff, n)) == RIFF_ID + a + mid + d;
    HoldsSplit(img, 0, RIFF_ID + a + mid, d);
    HoldsSplit(img, 0, RIFF_ID + a, mid);
    HoldsSplit(img, 0, RIFF_ID, a);
    HoldsSplit(img, 8, (WAVE_ID + FmtChunk(fmt)) + meta, DATA);
    HoldsSplit(img, 8, WAVE_ID + FmtChunk(fmt), meta);
    HoldsSplit(img, 8, WAVE_ID, FmtChunk(fmt));
    HoldsSplit(img, 36 + |meta|, DATA, d);
  }

  lemma RiffSize(n: nat)
    ensures SizeField(Riff, DataField(Riff, n)) == U32(DataHeader(Riff, n))
  {
    hide U32;
  }

  lemma Rf64Chunks(img: seq<byte>, fmt: Fmt, meta: seq<byte>, n: nat)
    requires Holds(img, 0, Head(Rf64, fmt, meta, RiffField(Rf64, n, |meta|), DataField(Rf64, n)))
    ensures Holds(img, 0, RF64_ID) && Holds(img, 4, U32(MAX32)) && Holds(img, 8, WAVE_ID)
    ensures Holds(img, 12, DS64_ID) && Holds(img, 16, U32(28)) && Holds(img, 28, U64(To64(n))) && Holds(img, 36, U64(0))
    ensures Holds(img, 48, FmtChunk(fmt)) && Holds(img, 72, meta)
    ensures Holds(img, 72 + |meta|, DATA + U32(MAX32))
  {
    hide FmtChunk, U64, U32, Holds;
    var a := SizeField(Rf64, RiffField(Rf64, n, |meta|));
    var d := U64(To64(n));
    var st := RF64_ID + U32(MAX32) + WAVE_ID + DS64_ID + U32(28);
    var end := (U64(0) + U32(0) + FmtChunk(fmt)) + meta + (DATA + U32(MAX32));
    assert Head(Rf64, fmt, meta, RiffField(Rf64, n, |meta|), DataField(Rf64, n)) == st + a + d + end;
    HoldsSplit(img, 0, st + a + d, end);
    HoldsSplit(img, 0, st + a, d);
    HoldsSplit(img, 0, st, a);
    HoldsSplit(img, 0, RF64_ID + U32(MAX32) + WAVE_ID + DS64_ID, U32(28));
    HoldsSplit(img, 0, RF64_ID + U32(MAX32) + WAVE_ID, DS64_ID);
    HoldsSplit(img, 0, RF64_ID + U32(MAX32), WAVE_ID);
    HoldsSplit(img, 0, RF64_ID, U32(MAX32));
    HoldsSplit(img, 36, (U64(0) + U32(0) + FmtChunk(fmt)) + meta, DATA + U32(MAX32));
    HoldsSplit(img, 36, U64(0) + U32(0) + FmtChunk(fmt), meta);
    HoldsSplit(img, 36, U64(0) + U32(0), FmtChunk(fmt));
    HoldsSplit(img, 36, U64(0), U32(0));
  }

  /** The reader recognises the start of the file. */
  lemma LeadBack(c: Container, f: DataFormat, meta: seq<byte>, audio: seq<byte>)
    requires (c.Riff? || c.Rf64?) && |audio| < 0x1_0000_0000_0000_0000
    ensures ReadLead(Finished(c, FmtOf(f), meta, audio))
            == Lead(c, ChunksAt(c), if c.Rf64? then |audio| else 0, 0)
  {
    hide FmtOf, FmtChunk, U64, U32, GetU64, GetU32, Holds, Clamp32;
    var img := Finished(c, FmtOf(f), meta, audio);
    var fmt := FmtOf(f);
    var n := |audio|;
    var head := Head(c, fmt, meta, RiffField(c, n, |meta|), DataField(c, n));
    HoldsAll(img);
    HoldsSplit(img, 0, head + audio, Zeros(PaddingSize(c, n)));
    HoldsSplit(img, 0, head, audio);
    HeadLength(c, fmt, meta, RiffField(c, n, |meta|), DataField(c, n));
    HoldsIs(img, 0, head);
    if c.Riff? {
      RiffChunks(img, fmt, meta, n);
      RiffLead(img);
    } else {
      Rf64Chunks(img, fmt, meta, n);
      Rf64Lead(img, n);
    }
  }

  lemma RiffLead(img: seq<byte>)
    requires Holds(img, 0, RIFF_ID) && Holds(img, 8, WAVE_ID)
    ensures ReadLead(img) == Lead(Riff, 12, 0, 0)
  {
  }

  lemma Rf64Lead(img: seq<byte>, n: u64)
    requires Holds(img, 0, RF64_ID) && Holds(img, 4, U32(MAX32)) && Holds(img, 8, WAVE_ID)
    requires Holds(img, 12, DS64_ID) && Holds(img, 16, U32(28)) && Holds(img, 28, U64(n)) && Holds(img, 36, U64(0))
    requires |img| >= 48
    ensures ReadLead(img) == Lead(Rf64, 48, n, 0)
  {
    hide U64, U32, GetU64, GetU32;
    U32At(img, 4, MAX32);
    U32At(img, 16, 28);
    GetU64Back(img, 28, n);
    GetU64Back(img, 36, 0);
    Ids(img);
  }

  lemma Ids(img: seq<byte>)
    ensures RF64_ID != RIFF_ID && RF64_ID != GUID_RIFF[..4]
  {
  }

  /** Where the data chunk begins. */
  function DataAt(c: Container, meta: nat): nat { ChunksAt(c) + 24 + meta }

  /** Both passes, up to the data chunk. */
  lemma ChunksBack(c: Container, f: DataFormat, ms: seq<Metadata>, audio: seq<byte>, withMetadata: bool, s: Scan)
    requires (c.Riff? || c.Rf64?) && RoundTrips(ms) && s.drift == 0
    ensures var img, at := Finished(c, FmtOf(f), Written(ms), audio), DataAt(c, |Written(ms)|);
            && ScanFrom(img, ChunksAt(c), c, withMetadata, s)
               == ScanFrom(img, at, c, withMetadata,
                           Scan(true, FmtOf(f), s.foundData, s.dataPos, s.dataSize, s.factCount,
                                s.metadataCount + if withMetadata then |ms| else 0, 0))
            && FillFrom(img, ChunksAt(c), []) == FillFrom(img, at, Regrouped(ms))
  {
    hide *;
    var img := Finished(c, FmtOf(f), Written(ms), audio);
    ChunksOf(c, f, Written(ms), audio);
    WrittenIsPieces(ms);
    FmtChunkBack(img, ChunksAt(c), c, withMetadata, s, f, []);
    var s' := s.(foundFmt := true, fmt := FmtOf(f));
    PiecesBack(img, ChunksAt(c) + 24, c, withMetadata, s', Pieces(ms), []);
    CountedIs(ms);
    DataAtIs(c, |Written(ms)|);
    assert [] + Regrouped(ms) == Regrouped(ms);
  }

  lemma CountedIs(ms: seq<Metadata>)
    requires PiecesItems(Pieces(ms)) == Regrouped(ms)
    ensures Counted(Pieces(ms)) == |ms|
  {
    RegroupedIsPermutation(ms);
  }

  lemma DataAtIs(c: Container, meta: nat)
    ensures DataAt(c, meta) == ChunksAt(c) + 24 + meta
  {
  }

  /** What is known after the data chunk's header. */
  function WithData(s: Scan, c: Container, at: nat, size: nat): Scan {
    s.(foundData := true, dataPos := at, dataSize := if c.Rf64? then s.dataSize else size)
  }

  /** Without metadata the data chunk ends the first pass; with metadata only when the image ends before it does. */
  lemma DataBack(img: seq<byte>, p: nat, c: Container, withMetadata: bool, s: Scan, size: u32)
    requires (c.Riff? || c.Rf64?) && Holds(img, p, DATA + U32(size)) && s.drift == 0
    ensures ScanFrom(img, p, c, withMetadata, s)
            == if withMetadata && p + 8 + size + size % 2 <= |img|
               then ScanFrom(img, p + 8 + size + size % 2, c, withMetadata, WithData(s, c, p + 8, size))
               else Done(WithData(s, c, p + 8, size))
  {
    hide *;
    HeaderBack(img, p, c, DATA, size);
    ScanStepIs(img, p, c, withMetadata, s);
    DataTurnIs(img, c, withMetadata, size, p + 8, s);
  }

  lemma DataTurnIs(img: seq<byte>, c: Container, withMetadata: bool, size: u32, p: nat, s: Scan)
    requires (c.Riff? || c.Rf64?) && p <= |img| && s.drift == 0
    ensures ScanTurn(img, c, withMetadata, Header(DATA, size, size % 2, p), s)
            == if !withMetadata || p + size + size % 2 > |img| then Ends(WithData(s, c, p, size))
               else GoesOn(WithData(s, c, p, size), p + size + size % 2)
  {
  }

  /** At the end of the image both passes are done. */
  lemma AtTheEnd(img: seq<byte>, c: Container, withMetadata: bool, s: Scan, items: seq<Metadata>)
    ensures ScanFrom(img, |img|, c, withMetadata, s) == Done(s)
    ensures FillFrom(img, |img|, items) == Filled(items)
  {
    hide ScanFrom, FillFrom, GetU32, GetU64;
    ScanStepIs(img, |img|, c, withMetadata, s);
    FillStepIs(img, |img|, items);
  }

  /** The second pass at the data chunk: past it, or refused when the image does not reach that far. */
  lemma DataFillBack(img: seq<byte>, p: nat, size: u32, items: seq<Metadata>)
    requires Holds(img, p, DATA + U32(size))
    ensures FillFrom(img, p, items)
            == if |img| < p + 8 + size + size % 2 then Refused else FillFrom(img, p + 8 + size + size % 2, items)
  {
    hide *;
    HeaderBack(img, p, Riff, DATA, size);
    DataSkipped(img, p + 8, size);
    TakenBack(img, p, DATA, size, [], 0, items);
    assert items + [] == items;
  }

  lemma DataSkipped(img: seq<byte>, p: nat, size: nat)
    requires p <= |img|
    ensures FillChunk(img, p, DATA, size) == Took(0, [], p)
    ensures Riff != W64
  {
  }

  lemma InitIs(img: seq<byte>, flag: bool, c: Container, at: nat, dataSize: nat)
    requires ReadLead(img) == Lead(c, at, dataSize, 0)
    ensures Init(img, flag)
            == AfterScan(img, at, c, ScanFrom(img, at, c, flag && !c.W64?, StartScan(dataSize, 0)))
  {
    hide ScanFrom, AfterScan, ReadLead, StartScan;
  }

  lemma StartScanIs(dataSize: nat)
    ensures StartScan(dataSize, 0) == Scan(false, NO_FMT, false, 0, dataSize, 0, 0, 0)
  {
  }

  lemma AfterIs(img: seq<byte>, at: nat, c: Container, s: Scan)
    ensures AfterScan(img, at, c, Done(s))
            == if !s.foundFmt || !s.foundData || !InRange(s.fmt) || s.dataPos > |img| then Rejected
               else if s.metadataCount > 0 then
                 match FillFrom(img, at, [])
                 case Refused => Rejected
                 case FillHangs => Hangs
                 case Filled(items) => Accept(c, s, items, s.metadataCount, 0)
               else Accept(c, s, [], 0, |img| - s.dataPos)
  {
    hide FillFrom, Accept, InRange;
  }

  lemma AcceptIs(c: Container, s: Scan, metadata: seq<Metadata>, count: nat, left: nat)
    ensures Accept(c, s, metadata, count, left)
            == if Playable(s.fmt) then
                 var size := if s.dataSize == MAX32 && c.Riff? then left else s.dataSize;
                 Opened(Wav(c, s.fmt, s.dataPos, size, FrameCount(s.fmt, s.factCount, size), metadata, count))
               else Rejected
    ensures Playable(s.fmt) ==> InRange(s.fmt)
  {
    hide InRange, FrameCount;
  }

  /** What the reader reports about a file with this content, when it takes the data to have this size. */
  function Expected(c: Container, f: DataFormat, meta: nat, size: nat, items: seq<Metadata>): InitResult {
    if Playable(FmtOf(f)) then
      Opened(Wav(c, FmtOf(f), HeadSize(c, meta), size, FrameCount(FmtOf(f), 0, size), items, |items|))
    else Rejected
  }

  /** The data size when no metadata have been read: all that is left, for a clamped one. */
  function SizeLeft(c: Container, n: nat): nat {
    if c.Riff? && n >= MAX32 then n + n % 2 else n
  }

  /** And when some have: the second pass has left nothing. */
  function SizeAfterFill(c: Container, n: nat): nat {
    if c.Riff? && n >= MAX32 then 0 else n
  }

  /** How far the data chunk reaches by its header. */
  function Span(c: Container, n: nat): nat { DataHeader(c, n) + DataHeader(c, n) % 2 }

  /** What the first pass knows after the data chunk. */
  function Found(c: Container, f: DataFormat, meta: nat, n: nat, count: nat): Scan {
    Scan(true, FmtOf(f), true, HeadSize(c, meta), if c.Rf64? then n else DataHeader(c, n), 0, count, 0)
  }

  lemma FoundIs(c: Container, f: DataFormat, meta: nat, n: nat, count: nat)
    requires c.Riff? || c.Rf64?
    ensures var s := Scan(true, FmtOf(f), false, 0, if c.Rf64? then n else 0, 0, count, 0);
            WithData(s, c, DataAt(c, meta) + 8, DataHeader(c, n)) == Found(c, f, meta, n, count)
    ensures var s := Found(c, f, meta, n, count);
            && s.foundFmt && s.foundData && s.fmt == FmtOf(f) && s.dataPos == HeadSize(c, meta) == DataAt(c, meta) + 8
            && s.dataSize == (if c.Rf64? then n else DataHeader(c, n)) && s.factCount == 0 && s.metadataCount == count
            && s.drift == 0
    ensures Span(c, n) == DataHeader(c, n) + DataHeader(c, n) % 2
    ensures c.Riff? ==> !c.Rf64? && (DataHeader(c, n) == MAX32 <==> n >= MAX32) && (n < MAX32 ==> DataHeader(c, n) == n)
    ensures SizeLeft(c, n) == if c.Riff? && n >= MAX32 then n + n % 2 else n
    ensures SizeAfterFill(c, n) == if c.Riff? && n >= MAX32 then 0 else n
  {
    hide FmtOf;
  }

  lemma ExpectedIs(c: Container, f: DataFormat, meta: nat, size: nat, items: seq<Metadata>)
    ensures Expected(c, f, meta, size, items)
            == if Playable(FmtOf(f)) then
                 Opened(Wav(c, FmtOf(f), HeadSize(c, meta), size, FrameCount(FmtOf(f), 0, size), items, |items|))
               else Rejected
  {
    hide Playable, FrameCount;
  }

  /** Both passes up to and past the data chunk. */
  lemma PassesBack(c: Container, f: DataFormat, ms: seq<Metadata>, audio: seq<byte>, flag: bool)
    requires (c.Riff? || c.Rf64?) && RoundTrips(ms) && |audio| < 0x1_0000_0000_0000_0000
    ensures var img, n := Finished(c, FmtOf(f), Written(ms), audio), |audio|;
            var at := HeadSize(c, |Written(ms)|);
            var s := Found(c, f, |Written(ms)|, n, if flag then |ms| else 0);
            && |img| == at + n + n % 2
            && Init(img, flag)
               == AfterScan(img, ChunksAt(c), c,
                            if flag && Span(c, n) <= n + n % 2 then ScanFrom(img, at + Span(c, n), c, flag, s) else Done(s))
            && FillFrom(img, ChunksAt(c), [])
               == if n + n % 2 < Span(c, n) then Refused else FillFrom(img, at + Span(c, n), Regrouped(ms))
  {
    hide *;
    var img, n, meta := Finished(c, FmtOf(f), Written(ms), audio), |audio|, |Written(ms)|;
    var at, count := DataAt(c, meta), if flag then |ms| else 0;
    NotW64(c);
    LeadBack(c, f, Written(ms), audio);
    InitIs(img, flag, c, ChunksAt(c), if c.Rf64? then n else 0);
    StartScanIs(if c.Rf64? then n else 0);
    var start := Scan(false, NO_FMT, false, 0, if c.Rf64? then n else 0, 0, 0, 0);
    ChunksBack(c, f, ms, audio, flag, start);
    ChunksOf(c, f, Written(ms), audio);
    DataAtIs(c, meta);
    var s := Scan(true, FmtOf(f), false, 0, start.dataSize, 0, count, 0);
    DataBack(img, at, c, flag, s, DataHeader(c, n));
    DataFillBack(img, at, DataHeader(c, n), Regrouped(ms));
    FoundIs(c, f, meta, n, count);
  }

  lemma NotW64(c: Container)
    ensures c.Riff? || c.Rf64? ==> !c.W64?
  {
  }

  /**
   Opened without metadata, a RIFF or RF64 file is accepted exactly when its format is one the reader
   supports; the data chunk is found where the writer put it, behind any metadata.
   */
  lemma RoundTrip(c: Container, f: DataFormat, ms: seq<Metadata>, audio: seq<byte>)
    requires (c.Riff? || c.Rf64?) && RoundTrips(ms) && |audio| < 0x1_0000_0000_0000_0000
    ensures Init(Finished(c, FmtOf(f), Written(ms), audio), false)
            == Expected(c, f, |Written(ms)|, SizeLeft(c, |audio|), [])
  {
    hide *;
    var img, n, meta := Finished(c, FmtOf(f), Written(ms), audio), |audio|, |Written(ms)|;
    PassesBack(c, f, ms, audio, false);
    FoundIs(c, f, meta, n, 0);
    AfterIs(img, ChunksAt(c), c, Found(c, f, meta, n, 0));
    AcceptIs(c, Found(c, f, meta, n, 0), [], 0, |img| - HeadSize(c, meta));
    ExpectedIs(c, f, meta, SizeLeft(c, n), []);
  }

  /**
   Opened with metadata. Where the data chunk's header says that it ends after the image, the file opens
   exactly when it has no items; where it says that it ends with the image, all items come back, regrouped,
   and as many as were counted; where it says that it ends before, the passes go on inside the audio data.
   */
  lemma OpenedWithMetadata(c: Container, f: DataFormat, ms: seq<Metadata>, audio: seq<byte>)
    requires (c.Riff? || c.Rf64?) && RoundTrips(ms) && |audio| < 0x1_0000_0000_0000_0000
    ensures var img, n, meta := Finished(c, FmtOf(f), Written(ms), audio), |audio|, |Written(ms)|;
            var size := if ms == [] then SizeLeft(c, n) else SizeAfterFill(c, n);
            && (n + n % 2 < Span(c, n) ==>
                  Init(img, true) == if ms == [] then Expected(c, f, meta, size, []) else Rejected)
            && (n + n % 2 == Span(c, n) ==> Init(img, true) == Expected(c, f, meta, size, Regrouped(ms)))
            && (n + n % 2 > Span(c, n) ==>
                  Init(img, true)
                  == AfterScan(img, ChunksAt(c), c,
                               ScanFrom(img, HeadSize(c, meta) + Span(c, n), c, true, Found(c, f, meta, n, |ms|))))
    ensures |Regrouped(ms)| == |ms|
  {
    hide *;
    var img, n, meta := Finished(c, FmtOf(f), Written(ms), audio), |audio|, |Written(ms)|;
    PassesBack(c, f, ms, audio, true);
    RegroupedIsPermutation(ms);
    var s := Found(c, f, meta, n, |ms|);
    FoundIs(c, f, meta, n, |ms|);
    AtTheEnd(img, c, true, s, Regrouped(ms));
    AfterIs(img, ChunksAt(c), c, s);
    AcceptIs(c, s, Regrouped(ms), |ms|, 0);
    AcceptIs(c, s, [], 0, |img| - HeadSize(c, meta));
    ExpectedIs(c, f, meta, SizeLeft(c, n), []);
    ExpectedIs(c, f, meta, SizeLeft(c, n), Regrouped(ms));
    ExpectedIs(c, f, meta, SizeAfterFill(c, n), Regrouped(ms));
  }

  /**
   A RIFF file of up to 2^32 bytes of audio gives back its items; from 2^32 - 1 bytes on, where the size field
   is clamped, the data size of a file with items is read as 0.
   */
  lemma MetadataRoundTrip(f: DataFormat, ms: seq<Metadata>, audio: seq<byte>)
    requires RoundTrips(ms) && |audio| <= 0x1_0000_0000
    ensures Init(Finished(Riff, FmtOf(f), Written(ms), audio), true)
            == Expected(Riff, f, |Written(ms)|,
                        if |audio| < MAX32 then |audio| else if ms == [] then 0x1_0000_0000 else 0, Regrouped(ms))
    ensures |Regrouped(ms)| == |ms|
  {
    hide *;
    RiffSpan(|audio|);
    OpenedWithMetadata(Riff, f, ms, audio);
  }

  lemma RiffSpan(n: nat)
    ensures Riff.Riff? && !Riff.Rf64? && Rf64.Rf64? && !Rf64.Riff?
    ensures Span(Riff, n) == if n < MAX32 then n + n % 2 else 0x1_0000_0000
    ensures Span(Rf64, n) == 0x1_0000_0000
    ensures SizeLeft(Riff, n) == if n < MAX32 then n else n + n % 2
    ensures SizeAfterFill(Riff, n) == if n < MAX32 then n else 0
    ensures SizeLeft(Rf64, n) == SizeAfterFill(Rf64, n) == n
    ensures MAX32 == 0xFFFF_FFFF && MAX32 % 2 == 1
  {
  }

  /**
   In RF64 the data chunk's header says 2^32 - 1 bytes. With metadata asked for, a shorter file opens exactly
   when it has no items; one that is as long gives back all of them; in a longer one the passes go on inside
   the audio data, 2^32 bytes after its start.
   */
  lemma Rf64WithMetadata(f: DataFormat, ms: seq<Metadata>, audio: seq<byte>)
    requires RoundTrips(ms) && |audio| < 0x1_0000_0000_0000_0000
    ensures var img, n, meta := Finished(Rf64, FmtOf(f), Written(ms), audio), |audio|, |Written(ms)|;
            Init(img, true)
            == if n + n % 2 < 0x1_0000_0000 then if ms == [] then Expected(Rf64, f, meta, n, []) else Rejected
               else if n + n % 2 == 0x1_0000_0000 then Expected(Rf64, f, meta, n, Regrouped(ms))
               else
                 AfterScan(img, 48, Rf64,
                           ScanFrom(img, HeadSize(Rf64, meta) + 0x1_0000_0000, Rf64, true, Found(Rf64, f, meta, n, |ms|)))
  {
    hide *;
    RiffSpan(|audio|);
    OpenedWithMetadata(Rf64, f, ms, audio);
    Chunks48();
  }

  lemma Chunks48()
    ensures ChunksAt(Rf64) == 48
  {
  }

  // ---- The data that are read back ----

  /** The audio data lie where a reader finds them. */
  lemma DataReadBack(c: Container, f: DataFormat, ms: seq<Metadata>, audio: seq<byte>)
    requires c.Riff? || c.Rf64?
    ensures var img, at := Finished(c, FmtOf(f), Written(ms), audio), HeadSize(c, |Written(ms)|);
            at + |audio| <= |img| && img[at..at + |audio|] == audio
  {
    hide Finished, Written, FmtChunk;
    ChunksOf(c, f, Written(ms), audio);
  }

  /** A turn never changes the data size of RF64; in RIFF it is a 32-bit number. Items are only ever added. */
  lemma SizeStep(img: seq<byte>, p: nat, c: Container, withMetadata: bool, s: Scan)
    requires c.Riff? || c.Rf64?
    ensures var h := ReadHeader(img, p, c);
            h.Header? ==>
              && h.body <= |img|
              && var t := ScanTurn(img, c, withMetadata, h, s);
                 (t.Ends? || t.GoesOn? ==>
                    && (c.Rf64? ==> t.scan.dataSize == s.dataSize)
                    && (c.Riff? && s.dataSize <= MAX32 ==> t.scan.dataSize <= MAX32)
                    && s.metadataCount <= t.scan.metadataCount)
  {
    hide *;
    HeaderInside(img, p, c);
    RiffHeader(img, p, c);
    if ReadHeader(img, p, c).Header? {
      TurnSize(img, c, withMetadata, ReadHeader(img, p, c), s);
    }
  }

  lemma RiffHeader(img: seq<byte>, p: nat, c: Container)
    requires c.Riff? || c.Rf64?
    ensures var h := ReadHeader(img, p, c); h.Header? ==> h.size <= MAX32
  {
    hide GetU32, GetU64, To64;
  }

  lemma TurnSize(img: seq<byte>, c: Container, withMetadata: bool, h: Header, s: Scan)
    requires (c.Riff? || c.Rf64?) && h.Header? && h.body <= |img| && h.size <= MAX32
    ensures var t := ScanTurn(img, c, withMetadata, h, s);
            t.Ends? || t.GoesOn? ==>
              && (c.Rf64? ==> t.scan.dataSize == s.dataSize)
              && (c.Riff? && s.dataSize <= MAX32 ==> t.scan.dataSize <= MAX32)
              && s.metadataCount <= t.scan.metadataCount
  {
    hide FmtTurn, DataTurn, FactTurn, OtherTurn;
    KeptByTurns(img, c, withMetadata, h, s);
  }

  lemma KeptByTurns(img: seq<byte>, c: Container, withMetadata: bool, h: Header, s: Scan)
    requires h.Header? && h.body <= |img|
    ensures Keeps(FmtTurn(img, h, s), s, s.dataSize)
    ensures Keeps(DataTurn(img, c, withMetadata, h, s), s, if c.Rf64? then s.dataSize else h.size)
    ensures Keeps(FactTurn(img, c, h, s), s, s.dataSize) && Keeps(OtherTurn(img, withMetadata, h, s), s, s.dataSize)
  {
    hide ReadFmt, CountChunk, To64, CursorAt, GetU64;
  }

  /** What a turn does to the data size and the count of items. */
  predicate Keeps(t: Turn, s: Scan, dataSize: nat) {
    t.Ends? || t.GoesOn? ==> t.scan.dataSize == dataSize && s.metadataCount <= t.scan.metadataCount
  }

  lemma {:induction false} SizeOver(img: seq<byte>, p: nat, c: Container, withMetadata: bool, s: Scan)
    requires c.Riff? || c.Rf64?
    ensures var r := ScanFrom(img, p, c, withMetadata, s);
            r.Done? ==>
              && (c.Rf64? ==> r.scan.dataSize == s.dataSize)
              && (c.Riff? && s.dataSize <= MAX32 ==> r.scan.dataSize <= MAX32)
              && s.metadataCount <= r.scan.metadataCount
    decreases TurnsLeft(ScanMove(img, c, withMetadata), Spot(p, s.drift))
  {
    hide *;
    SizeStep(img, p, c, withMetadata, s);
    ScanStepIs(img, p, c, withMetadata, s);
    ScanHangsIs(img, p, c, withMetadata, s);
    MoveIs(img, c, withMetadata, p, s);
    EndsStep(ScanMove(img, c, withMetadata), Spot(p, s.drift));
    var h := ReadHeader(img, p, c);
    if h.Header? && !ScanFrom(img, p, c, withMetadata, s).ScanHangs? {
      var t := ScanTurn(img, c, withMetadata, h, s);
      if t.GoesOn? {
        SizeOver(img, t.at, c, withMetadata, t.scan);
      }
    }
  }

  /** The data size of an opened file, by what the first pass has found. */
  lemma SizeAccepted(img: seq<byte>, at: nat, c: Container, s: Scan)
    ensures var r := AfterScan(img, at, c, Done(s));
            r.Opened? ==>
              s.dataPos <= |img|
              && r.wav.dataSize == if !(s.dataSize == MAX32 && c.Riff?) then s.dataSize
                                   else if s.metadataCount > 0 then 0 else |img| - s.dataPos
  {
    hide *;
    AfterIs(img, at, c, s);
    if s.metadataCount > 0 {
      if FillFrom(img, at, []).Filled? {
        AcceptIs(c, s, FillFrom(img, at, []).items, s.metadataCount, 0);
      }
    } else if s.dataPos <= |img| {
      AcceptIs(c, s, [], 0, |img| - s.dataPos);
    }
  }

  /**
   When the data size that an opened file reports is the number of bytes that were written. In RF64 always. In
   RIFF without metadata, unless it was clamped and is odd. In RIFF with metadata, for a clamped size only if
   nothing was found but the data, and it measures as many bytes to the end of the file.
   */
  lemma DataSizeIff(c: Container, f: DataFormat, ms: seq<Metadata>, audio: seq<byte>, flag: bool)
    requires (c.Riff? || c.Rf64?) && RoundTrips(ms) && |audio| < 0x1_0000_0000_0000_0000
    requires Init(Finished(c, FmtOf(f), Written(ms), audio), flag).Opened?
    ensures var img, n, meta := Finished(c, FmtOf(f), Written(ms), audio), |audio|, |Written(ms)|;
            var right := Init(img, flag).wav.dataSize == n;
            && (c.Rf64? ==> right)
            && (c.Riff? && !flag ==> (right <==> n < MAX32 || n % 2 == 0))
            && (c.Riff? && flag && n <= 0x1_0000_0000 ==> (right <==> n < MAX32 || (n == 0x1_0000_0000 && ms == [])))
            && (c.Riff? && flag && n > 0x1_0000_0000 ==>
                  var r := ScanFrom(img, HeadSize(c, meta) + 0x1_0000_0000, c, true, Found(c, f, meta, n, |ms|));
                  && r.Done?
                  && (right <==> r.scan.metadataCount == 0 && r.scan.dataSize == MAX32 && r.scan.dataPos + n == |img|)
                  && (right ==> ms == []))
  {
    hide *;
    var img, n, meta := Finished(c, FmtOf(f), Written(ms), audio), |audio|, |Written(ms)|;
    PassesBack(c, f, ms, audio, flag);
    RiffSpan(n);
    ContainerIs(c);
    var s := Found(c, f, meta, n, if flag then |ms| else 0);
    FoundIs(c, f, meta, n, if flag then |ms| else 0);
    AtTheEnd(img, c, true, s, []);
    if flag && Span(c, n) <= n + n % 2 {
      var r := ScanFrom(img, HeadSize(c, meta) + Span(c, n), c, true, s);
      SizeOver(img, HeadSize(c, meta) + Span(c, n), c, true, s);
      OnlyDoneOpens(img, ChunksAt(c), c, r);
      SizeAccepted(img, ChunksAt(c), c, r.scan);
    } else {
      SizeAccepted(img, ChunksAt(c), c, s);
    }
  }

  lemma OnlyDoneOpens(img: seq<byte>, at: nat, c: Container, r: ScanResult)
    requires AfterScan(img, at, c, r).Opened?
    ensures r.Done? && r == Done(r.scan)
  {
  }

  lemma ContainerIs(c: Container)
    ensures c.Riff? <==> c == Riff
    ensures c.Rf64? <==> c == Rf64
  {
  }

  // ---- Wave64 ----

  /** Where the parts of a finished Wave64 file are. */
  lemma W64Parts(f: DataFormat, audio: seq<byte>)
    ensures var img, n := Finished(W64, FmtOf(f), [], audio), |audio|;
            && |img| == 104 + n + n % 8
            && Holds(img, 0, GUID_RIFF) && Holds(img, 16, U64(To64(80 + 24 + n + n % 8))) && Holds(img, 24, GUID_WAVE)
            && Holds(img, 40, GUID_FMT) && Holds(img, 56, U64(40)) && Holds(img, 64, FmtBytes(FmtOf(f)))
            && Holds(img, 80, GUID_DATA) && Holds(img, 96, U64(To64(24 + n))) && Holds(img, 104, audio)
  {
    hide FmtOf, FmtBytes, U64, U32, Holds, To64;
    var img, n, fmt := Finished(W64, FmtOf(f), [], audio), |audio|, FmtOf(f);
    var head := Head(W64, fmt, [], RiffField(W64, n, 0), DataField(W64, n));
    HoldsAll(img);
    HoldsSplit(img, 0, head + audio, Zeros(PaddingSize(W64, n)));
    HoldsSplit(img, 0, head, audio);
    HeadLength(W64, fmt, [], RiffField(W64, n, 0), DataField(W64, n));
    W64HeadParts(img, fmt, n);
  }

  lemma W64HeadParts(img: seq<byte>, fmt: Fmt, n: nat)
    requires Holds(img, 0, Head(W64, fmt, [], RiffField(W64, n, 0), DataField(W64, n)))
    ensures Holds(img, 0, GUID_RIFF) && Holds(img, 16, U64(To64(80 + 24 + n + n % 8))) && Holds(img, 24, GUID_WAVE)
    ensures Holds(img, 40, GUID_FMT) && Holds(img, 56, U64(40)) && Holds(img, 64, FmtBytes(fmt))
    ensures Holds(img, 80, GUID_DATA) && Holds(img, 96, U64(To64(24 + n)))
  {
    hide U64, FmtBytes, Holds, To64;
    var a, d := U64(To64(80 + 24 + n + n % 8)), U64(To64(24 + n));
    var fmtChunk := GUID_FMT + U64(40) + FmtBytes(fmt);
    var mid := GUID_WAVE + fmtChunk + GUID_DATA;
    assert Head(W64, fmt, [], RiffField(W64, n, 0), DataField(W64, n)) == GUID_RIFF + a + mid + d;
    HoldsSplit(img, 0, GUID_RIFF + a + mid, d);
    HoldsSplit(img, 0, GUID_RIFF + a, mid);
    HoldsSplit(img, 0, GUID_RIFF, a);
    HoldsSplit(img, 24, GUID_WAVE + fmtChunk, GUID_DATA);
    HoldsSplit(img, 24, GUID_WAVE, fmtChunk);
    HoldsSplit(img, 40, GUID_FMT + U64(40), FmtBytes(fmt));
    HoldsSplit(img, 40, GUID_FMT, U64(40));
  }

  lemma W64Lead(img: seq<byte>, size: u64)
    requires Holds(img, 0, GUID_RIFF) && Holds(img, 16, U64(size)) && Holds(img, 24, GUID_WAVE) && size >= 80
    ensures ReadLead(img) == Lead(W64, 40, 0, 0)
  {
    hide U64, GetU64, U32, GetU32;
    GetU64Back(img, 16, size);
    assert img[0..4] == img[0..16][..4] && img[4..16] == img[0..16][4..];
    assert GUID_RIFF[..4][0] == 0x72 && RIFF_ID[0] == 0x52;
  }

  lemma W64Header(img: seq<byte>, p: nat, id: Guid, size: u64)
    requires Holds(img, p, id) && Holds(img, p + 16, U64(size)) && size >= 24
    ensures ReadHeader(img, p, W64) == Header(id, size - 24, (size - 24) % 8, p + 24)
  {
    hide U64, GetU64;
    GetU64Back(img, p + 16, size);
  }

  lemma W64Turns(img: seq<byte>, withMetadata: bool, s: Scan, n: nat)
    requires |img| >= 104 && s.drift == 0
    ensures ScanTurn(img, W64, withMetadata, Header(GUID_FMT, 16, 16 % 8, 64), s)
            == GoesOn(s.(foundFmt := true, fmt := BasicFmt(img, 64)), 80)
    ensures ScanTurn(img, W64, false, Header(GUID_DATA, n, n % 8, 104), s)
            == Ends(s.(foundData := true, dataPos := 104, dataSize := n))
  {
    hide BasicFmt;
    assert FMT[0] == 0x66 && DATA[0] == 0x64;
    assert GUID_FMT[0] == FMT[0] && GUID_DATA[0] == DATA[0];
  }

  /** A Wave64 file: the same, with or without metadata asked for, whatever the size of the audio. */
  lemma W64RoundTrip(f: DataFormat, audio: seq<byte>, flag: bool)
    requires |audio| + 120 < 0x1_0000_0000_0000_0000
    ensures var img := Finished(W64, FmtOf(f), [], audio);
            && Init(img, flag)
               == (if Playable(FmtOf(f))
                   then Opened(Wav(W64, FmtOf(f), 104, |audio|, FrameCount(FmtOf(f), 0, |audio|), [], 0)) else Rejected)
            && 104 + |audio| <= |img| && img[104..104 + |audio|] == audio
  {
    hide *;
    var img, n := Finished(W64, FmtOf(f), [], audio), |audio|;
    W64Parts(f, audio);
    W64Sizes(n);
    W64Lead(img, To64(80 + 24 + n + n % 8));
    W64Header(img, 40, GUID_FMT, 40);
    W64Header(img, 80, GUID_DATA, To64(24 + n));
    FmtBack(img, 64, f);
    HoldsIs(img, 104, audio);
    InitIs(img, flag, W64, 40, 0);
    var start := Scan(false, NO_FMT, false, 0, 0, 0, 0, 0);
    StartScanIs(0);
    W64Turns(img, false, start, n);
    var s := start.(foundFmt := true, fmt := FmtOf(f));
    W64Turns(img, false, s, n);
    ScanStepIs(img, 40, W64, false, start);
    ScanStepIs(img, 80, W64, false, s);
    AfterIs(img, 40, W64, s.(foundData := true, dataPos := 104, dataSize := n));
    AcceptIs(W64, s.(foundData := true, dataPos := 104, dataSize := n), [], 0, |img| - 104);
  }

  lemma W64Sizes(n: nat)
    requires n + 120 < 0x1_0000_0000_0000_0000
    ensures To64(80 + 24 + n + n % 8) == 80 + 24 + n + n % 8 && To64(24 + n) == 24 + n
    ensures W64.W64? && !W64.Riff?
  {
  }
}
