/**
 Opening a WAV file in memory with dr_wav: `drwav_init__internal`, proved to find what WavScan says of every
 image on which it does not hang.
 */
module WavReader {
  import opened Bytes
  import P = PcmFrames
  import opened Walks
  import opened WavMetadata
  import opened WavMetadataParser
  import opened WavFormat
  import opened WavScan
  import opened WavStream
  import opened WavMetadataReader

  class WavReader {
    const stream: MemoryStream
    var container: Container
    var fmt: Fmt
    var dataChunkDataPos: nat
    var dataChunkDataSize: nat
    var totalPCMFrameCount: nat
    var metadata: seq<Metadata>
    var metadataCount: nat

    constructor (data: seq<byte>)
      ensures fresh(stream) && stream.data == data && stream.pos == 0
    {
      stream := new MemoryStream(data);
      container, fmt, dataChunkDataPos, dataChunkDataSize, totalPCMFrameCount := Riff, NO_FMT, 0, 0, 0;
      metadata, metadataCount := [], 0;
    }

    /** drwav__read_chunk_header. */
    method ReadChunkHeader(c: Container) returns (h: Header)
      requires stream.pos <= |stream.data|
      modifies stream`pos
      ensures h == ReadHeader(stream.data, old(stream.pos), c)
      ensures stream.pos == if h.Header? then h.body else |stream.data|
    {
      hide GetU32, GetU64;
      ghost var p := stream.pos;
      if c.W64? {
        var id := stream.Read(16);
        if |id| != 16 {
          return NoHeader;
        }
        var sizeBytes := stream.Read(8);
        if |sizeBytes| != 8 {
          return NoHeader;
        }
        U64Of(stream.data, p + 16, sizeBytes);
        var size := To64(GetU64(sizeBytes, 0) - 24);
        h := Header(id, size, size % 8, stream.pos);
      } else {
        var id := stream.Read(4);
        if |id| != 4 {
          return NoHeader;
        }
        var sizeBytes := stream.Read(4);
        if |sizeBytes| != 4 {
          return NoHeader;
        }
        U32Of(stream.data, p + 4, sizeBytes);
        var size := GetU32(sizeBytes, 0);
        h := Header(id, size, size % 2, stream.pos);
      }
    }

    /** The body of a fmt chunk. */
    method ReadFmtChunk(size: nat) returns (r: FmtRead)
      requires stream.pos <= |stream.data|
      modifies stream`pos
      ensures r == ReadFmt(stream.data, old(stream.pos), size) && stream.pos <= |stream.data|
      ensures r.FmtRead? ==> stream.pos == r.after
    {
      hide GetU16, GetU32, BasicFmt, Int32, To64;
      ghost var img, p := stream.data, stream.pos;
      var fmtData := stream.Read(16);
      if |fmtData| != 16 {
        return BadFmt;
      }
      BasicOf(img, p, fmtData);
      var fmt := BasicFmt(fmtData, 0);
      if size > 16 {
        var cbSize := stream.Read(2);
        if |cbSize| != 2 {
          return BadFmt;
        }
        U16Of(img, p + 16, cbSize);
        fmt := fmt.(extendedSize := GetU16(cbSize, 0));
        var soFar: nat := 18;
        var extended: nat := fmt.extendedSize;
        if extended > 0 {
          if fmt.formatTag == FORMAT_EXTENSIBLE {
            if extended != 22 {
              return BadFmt;
            }
            var ext := stream.Read(extended);
            if |ext| != extended {
              return BadFmt;
            }
            ExtOf(img, p + 18, ext);
            fmt := fmt.(validBitsPerSample := GetU16(ext, 0), channelMask := GetU32(ext, 2), subFormat := ext[6..22]);
          } else {
            var ok := stream.SeekOn(extended);
            if !ok {
              return BadFmt;
            }
          }
          soFar := soFar + extended;
        }
        // Past what is left over: by an int, so that it can go back; the cursor moves by 64 bits.
        var ok := stream.SeekBy(Int32(size - soFar));
        if !ok {
          return BadFmt;
        }
        return FmtRead(fmt, stream.pos, To64(size - soFar - Int32(size - soFar)));
      }
      r := FmtRead(fmt, stream.pos, 0);
    }

    /** The identification of the file, up to the first chunk. */
    method ReadStart() returns (lead: Lead)
      requires stream.pos == 0
      modifies stream`pos
      ensures lead == ReadLead(stream.data) && stream.pos <= |stream.data|
      ensures lead.Lead? ==> stream.pos == lead.at
    {
      hide GetU32, GetU64, ReadDs64, RIFF_ID, RF64_ID, WAVE_ID, GUID_RIFF, GUID_WAVE;
      Distinct();
      ghost var img := stream.data;
      var riff := stream.Read(4);
      if |riff| != 4 {
        return NoLead;
      }
      if riff == RIFF_ID {
        var sizeBytes := stream.Read(4);
        if |sizeBytes| != 4 {
          return NoLead;
        }
        var wave := stream.Read(4);
        if |wave| != 4 || wave != WAVE_ID {
          return NoLead;
        }
        return Lead(Riff, stream.pos, 0, 0);
      } else if riff == GUID_RIFF[..4] {
        var riff2 := stream.Read(12);
        if |riff2| != 12 || riff2 != GUID_RIFF[4..] {
          return NoLead;
        }
        var sizeBytes := stream.Read(8);
        if |sizeBytes| != 8 {
          return NoLead;
        }
        U64Of(img, 16, sizeBytes);
        if GetU64(sizeBytes, 0) < 80 {
          return NoLead;
        }
        var wave := stream.Read(16);
        if |wave| != 16 || wave != GUID_WAVE {
          return NoLead;
        }
        return Lead(W64, stream.pos, 0, 0);
      } else if riff == RF64_ID {
        var sizeBytes := stream.Read(4);
        if |sizeBytes| != 4 {
          return NoLead;
        }
        U32Of(img, 4, sizeBytes);
        if GetU32(sizeBytes, 0) != 0xFFFF_FFFF {
          return NoLead;
        }
        var wave := stream.Read(4);
        if |wave| != 4 || wave != WAVE_ID {
          return NoLead;
        }
        lead := ReadDs64Chunk();
        return;
      }
      lead := NoLead;
    }

    /** The ds64 chunk that comes first in RF64. */
    method ReadDs64Chunk() returns (lead: Lead)
      requires stream.pos == 12 && 12 <= |stream.data|
      modifies stream`pos
      ensures lead == ReadDs64(stream.data) && stream.pos <= |stream.data|
      ensures lead.Lead? ==> stream.pos == lead.at
    {
      hide GetU32, GetU64, DS64_ID;
      ghost var img := stream.data;
      var h := ReadChunkHeader(Rf64);
      if h.NoHeader? {
        return NoLead;
      }
      if h.id != DS64_ID {
        return NoLead;
      }
      var left: int := h.size + h.padding;
      var ok := stream.SeekForward(8);
      if !ok {
        return NoLead;
      }
      left := left - 8;
      var sizeBytes := stream.Read(8);
      if |sizeBytes| != 8 {
        return NoLead;
      }
      U64Of(img, 28, sizeBytes);
      left := left - 8;
      var dataSize := GetU64(sizeBytes, 0);
      var countBytes := stream.Read(8);
      if |countBytes| != 8 {
        return NoLead;
      }
      U64Of(img, 36, countBytes);
      left := left - 8;
      if left < 0 {
        // Wraps to a size that no image has.
        return NoLead;
      }
      ok := stream.SeekForward(left);
      if !ok {
        return NoLead;
      }
      lead := Lead(Rf64, stream.pos, dataSize, GetU64(countBytes, 0));
    }

    /** Forward past the rest of a chunk. */
    method SkipOn(n: nat, s: Scan) returns (t: Turn)
      requires stream.pos <= |stream.data|
      modifies stream`pos
      ensures t == Skip(stream.data, old(stream.pos), n, s) && stream.pos <= |stream.data|
      ensures t.GoesOn? ==> stream.pos == t.at && t.scan == s
      ensures t.Ends? ==> t.scan == s
      ensures !t.Fails?
    {
      var ok := stream.SeekForward(n);
      t := if ok then GoesOn(s, stream.pos) else Ends(s);
    }

    /** One turn of the loop over the chunks, after the header. */
    method TakeChunk(c: Container, withMetadata: bool, parser: MetadataParser, h: Header, s: Scan) returns (t: Turn)
      requires h.Header? && stream.pos == h.body <= |stream.data| && Supported(c) && (withMetadata ==> !c.W64?)
      requires |h.id| == if c.W64? then 16 else 4
      requires parser.stream == stream && !parser.filling && parser.metadataCount == s.metadataCount
      modifies stream`pos, parser`metadataCount, parser`metadata
      ensures t == ScanTurn(stream.data, c, withMetadata, h, s) && stream.pos <= |stream.data|
      ensures t.GoesOn? ==> stream.pos == t.at && parser.metadataCount == t.scan.metadataCount
      ensures t.Ends? && withMetadata ==> parser.metadataCount == t.scan.metadataCount
    {
      hide *;
      ghost var img := stream.data;
      ScanTurnIs(img, c, withMetadata, h, s);
      if h.id == FmtId(c) {
        var r := ReadFmtChunk(h.size);
        if r.BadFmt? {
          return Fails;
        }
        t := SkipOn(h.padding, s.(foundFmt := true, fmt := r.fmt, drift := To64(s.drift + r.slip)));
        return;
      }
      if h.id == DataId(c) {
        var s' := s.(foundData := true, dataPos := CursorAt(stream.pos, s.drift));
        if c != Rf64 {
          s' := s'.(dataSize := h.size);
        }
        if !withMetadata {
          return Ends(s');
        }
        t := SkipOn(To64(h.size + h.padding), s');
        return;
      }
      if h.id == FactId(c) {
        t := TakeFact(c, h, s);
        return;
      }
      var s' := s;
      if withMetadata {
        var bytesRead := parser.ProcessChunk(h.id, h.size);
        s' := s.(metadataCount := parser.metadataCount);
        var back := stream.SeekFromStart(CursorAt(h.body, s.drift));
        if !back {
          return Ends(s');
        }
        s' := s'.(drift := 0);
      }
      t := SkipOn(To64(h.size + h.padding), s');
    }

    /** The fact chunk. */
    method TakeFact(c: Container, h: Header, s: Scan) returns (t: Turn)
      requires h.Header? && stream.pos == h.body <= |stream.data| && Supported(c)
      modifies stream`pos
      ensures t == FactTurn(stream.data, c, h, s) && stream.pos <= |stream.data|
      ensures t.GoesOn? ==> stream.pos == t.at && t.scan.metadataCount == s.metadataCount
      ensures t.Ends? ==> t.scan.metadataCount == s.metadataCount
    {
      hide GetU64, GetU32, To64, Skip;
      var s', left: int := s, h.size;
      if c == Riff {
        var b := stream.Read(4);
        if |b| != 4 {
          return Fails;
        }
        left := left - 4;
        s' := s.(factCount := 0);
      } else if c == W64 {
        var b := stream.Read(8);
        if |b| != 8 {
          return Fails;
        }
        U64Of(stream.data, h.body, b);
        s' := s.(factCount := GetU64(b, 0));
        left := left - 8;
      }
      t := SkipOn(To64(left + h.padding), s');
    }

    /** The loop over the chunks, on an image on which it ends. */
    method ScanChunks(c: Container, withMetadata: bool, parser: MetadataParser, s0: Scan) returns (r: ScanResult)
      requires stream.pos <= |stream.data| && Supported(c) && (withMetadata ==> !c.W64?)
      requires parser.stream == stream && !parser.filling && parser.metadataCount == s0.metadataCount
      requires !ScanFrom(stream.data, stream.pos, c, withMetadata, s0).ScanHangs?
      modifies stream`pos, parser`metadataCount, parser`metadata
      ensures r == ScanFrom(stream.data, old(stream.pos), c, withMetadata, s0) && stream.pos <= |stream.data|
    {
      hide *;
      var s := s0;
      ghost var img, p0 := stream.data, stream.pos;
      while true
        invariant stream.pos <= |img| && !parser.filling && parser.metadataCount == s.metadataCount
        invariant ScanFrom(img, p0, c, withMetadata, s0) == ScanFrom(img, stream.pos, c, withMetadata, s)
        decreases TurnsLeft(ScanMove(img, c, withMetadata), Spot(stream.pos, s.drift))
      {
        ScanStepIs(img, stream.pos, c, withMetadata, s);
        ScanTurnsLeft(img, stream.pos, c, withMetadata, s);
        var h := ReadChunkHeader(c);
        if h.NoHeader? {
          return Done(s);
        }
        var t := TakeChunk(c, withMetadata, parser, h, s);
        match t {
          case Fails => return Failed;
          case Ends(s') => return Done(s');
          case GoesOn(s', at) => s := s';
        }
      }
    }

    /** The second pass, on an image on which it ends. */
    method FillMetadata(parser: MetadataParser) returns (r: FillResult)
      requires stream.pos <= |stream.data| && parser.stream == stream && parser.filling && parser.metadata == []
      requires !FillFrom(stream.data, stream.pos, []).FillHangs?
      modifies stream`pos, parser`metadataCount, parser`metadata
      ensures r == FillFrom(stream.data, old(stream.pos), [])
      ensures r.Filled? ==> stream.pos == |stream.data|
      ensures parser.metadataCount == old(parser.metadataCount) && stream.pos <= |stream.data|
    {
      hide *;
      ghost var img, p0 := stream.data, stream.pos;
      while true
        invariant stream.pos <= |img| && parser.filling && parser.metadataCount == old(parser.metadataCount)
        invariant FillFrom(img, p0, []) == FillFrom(img, stream.pos, parser.metadata)
        decreases TurnsLeft(FillMove(img), stream.pos)
      {
        FillStepIs(img, stream.pos, parser.metadata);
        FillTurnsLeft(img, stream.pos, parser.metadata);
        HeaderIs(img, stream.pos);
        var h := ReadChunkHeader(Riff);
        if h.NoHeader? {
          return Filled(parser.metadata);
        }
        var bytesRead := parser.ProcessChunk(h.id, h.size);
        var ok := stream.SeekForward(To64(h.size + h.padding - bytesRead));
        if !ok {
          return Refused;
        }
      }
    }

    /** Reading and counting what is left, in blocks. */
    method MeasureRest() returns (size: nat)
      requires stream.pos <= |stream.data|
      modifies stream`pos
      ensures size == |stream.data| - old(stream.pos) && stream.pos <= |stream.data|
    {
      size := 0;
      while true
        invariant stream.pos <= |stream.data| && size == stream.pos - old(stream.pos)
        decreases |stream.data| - stream.pos
      {
        var temp := stream.Read(4096);
        size := size + |temp|;
        if |temp| < 4096 {
          break;
        }
      }
    }

    /** This object holds an opened file. */
    predicate Shows(wav: Wav)
      reads this
    {
      && container == wav.container && fmt == wav.fmt && dataChunkDataPos == wav.dataPos
      && dataChunkDataSize == wav.dataSize && totalPCMFrameCount == wav.totalPCMFrameCount
      && metadata == wav.metadata && metadataCount == wav.metadataCount
    }

    /**
     drwav_init__internal on a memory image, not sequential; `flag` is DRWAV_WITH_METADATA. WavScan.HangsIff
     says on which images it does not return.
     */
    method Initialise(flag: bool) returns (ok: bool)
      requires stream.pos == 0 && !Init(stream.data, flag).Hangs?
      modifies this, stream`pos
      ensures ok == Init(stream.data, flag).Opened?
      ensures ok ==> Shows(Init(stream.data, flag).wav) && stream.pos == dataChunkDataPos
    {
      hide *;
      ghost var img := stream.data;
      InitCases(img, flag);
      var lead := ReadStart();
      if lead.NoLead? {
        return false;
      }
      container := lead.container;
      var withMetadata := flag && container != W64;
      var parser := new MetadataParser(stream);
      NotW64(container);
      StartIs(lead.dataSize, lead.sampleCount);
      var r := ScanChunks(container, withMetadata, parser, StartScan(lead.dataSize, lead.sampleCount));
      if r.Failed? {
        return false;
      }
      var s := r.scan;
      if !s.foundFmt || !s.foundData || !InRange(s.fmt) {
        return false;
      }
      var there := stream.SeekFromStart(s.dataPos);
      if !there {
        return false;
      }
      metadata, metadataCount := [], 0;
      if s.metadataCount > 0 {
        there := stream.SeekFromStart(lead.at);
        parser.filling, parser.metadata := true, [];
        var filled := FillMetadata(parser);
        if filled.Refused? {
          return false;
        }
        metadata, metadataCount := filled.items, s.metadataCount;
      }
      ok := Finish(s);
    }

    /** The data size, the frame count, and the checks at the end. */
    method Finish(s: Scan) returns (ok: bool)
      requires stream.pos <= |stream.data| && s.dataPos <= |stream.data| && InRange(s.fmt)
      modifies this`fmt, this`dataChunkDataPos, this`dataChunkDataSize, this`totalPCMFrameCount, stream`pos
      ensures var r := Accept(container, s, metadata, metadataCount, |stream.data| - old(stream.pos));
              ok == r.Opened? && (ok ==> Shows(r.wav) && stream.pos == dataChunkDataPos)
    {
      hide *;
      AcceptIs(container, s, metadata, metadataCount, |stream.data| - stream.pos);
      var dataSize := s.dataSize;
      ghost var left := |stream.data| - stream.pos;
      if dataSize == 0xFFFF_FFFF && container == Riff {
        dataSize := MeasureRest();
      }
      var there := stream.SeekFromStart(s.dataPos);
      fmt, dataChunkDataPos, dataChunkDataSize := s.fmt, s.dataPos, dataSize;
      FrameCases(fmt, s.factCount, dataSize);
      if s.factCount != 0 {
        totalPCMFrameCount := s.factCount;
      } else if BytesPerFrame(fmt) == 0 {
        return false;
      } else {
        totalPCMFrameCount := P.Quotient(dataSize, BytesPerFrame(fmt));
        var blockCount := P.BlockCount(dataSize, fmt.blockAlign);
        if TranslatedTag(fmt) == FORMAT_ADPCM {
          totalPCMFrameCount := AdpcmFrames(dataSize, blockCount, 6 * fmt.channels, fmt.channels);
        }
        if TranslatedTag(fmt) == FORMAT_DVI_ADPCM {
          totalPCMFrameCount := AdpcmFrames(dataSize, blockCount, 4 * fmt.channels, fmt.channels);
          totalPCMFrameCount := To64(totalPCMFrameCount + blockCount);
        }
      }
      ok := Playable(fmt);
      ShowsIs();
    }

    lemma ShowsIs()
      ensures forall wav :: Shows(wav) <==> 
                && container == wav.container && fmt == wav.fmt && dataChunkDataPos == wav.dataPos
                && dataChunkDataSize == wav.dataSize && totalPCMFrameCount == wav.totalPCMFrameCount
                && metadata == wav.metadata && metadataCount == wav.metadataCount
    {
    }
  }

  lemma FrameCases(fmt: Fmt, factCount: nat, dataSize: nat)
    requires InRange(fmt)
    ensures fmt.channels > 0 && fmt.blockAlign > 0 && BytesPerFrame(fmt) >= 0
    ensures P.BlockCount(dataSize, fmt.blockAlign) >= 0
    ensures FORMAT_ADPCM != FORMAT_DVI_ADPCM
    ensures Playable(fmt) ==>
              && BytesPerFrame(fmt) > 0
              && var blocks := P.BlockCount(dataSize, fmt.blockAlign);
                 FrameCount(fmt, factCount, dataSize)
                 == if factCount != 0 then factCount
                    else if TranslatedTag(fmt) == FORMAT_ADPCM then
                      AdpcmFrames(dataSize, blocks, 6 * fmt.channels, fmt.channels)
                    else if TranslatedTag(fmt) == FORMAT_DVI_ADPCM then
                      To64(AdpcmFrames(dataSize, blocks, 4 * fmt.channels, fmt.channels) + blocks)
                    else P.Quotient(dataSize, BytesPerFrame(fmt))
  {
    hide BytesPerFrame, TranslatedTag, P.BlockCount, AdpcmFrames, To64, P.Quotient;
  }

  lemma AcceptIs(c: Container, s: Scan, metadata: seq<Metadata>, count: nat, left: nat)
    ensures Riff.Riff? && (c == Riff <==> c.Riff?)
    ensures s.dataSize >= 0
    ensures Accept(c, s, metadata, count, left)
            == if Playable(s.fmt) then
                 var size := if s.dataSize == 0xFFFF_FFFF && c == Riff then left else s.dataSize;
                 Opened(Wav(c, s.fmt, s.dataPos, size, FrameCount(s.fmt, s.factCount, size), metadata, count))
               else Rejected
  {
    hide Playable, FrameCount;
  }

  lemma StartIs(dataSize: nat, sampleCount: nat)
    ensures StartScan(dataSize, sampleCount) == Scan(false, NO_FMT, false, 0, dataSize, sampleCount, 0, 0)
  {
  }

  /** A turn of the loop over the chunks leaves fewer turns. */
  lemma ScanTurnsLeft(img: seq<byte>, p: nat, c: Container, withMetadata: bool, s: Scan)
    requires !ScanFrom(img, p, c, withMetadata, s).ScanHangs?
    ensures var h := ReadHeader(img, p, c);
            h.Header? ==>
              && h.body <= |img|
              && var t := ScanTurn(img, c, withMetadata, h, s);
                 t.GoesOn? ==> TurnsLeft(ScanMove(img, c, withMetadata), Spot(t.at, t.scan.drift))
                               < TurnsLeft(ScanMove(img, c, withMetadata), Spot(p, s.drift))
  {
    hide *;
    HeaderInside(img, p, c);
    MoveIs(img, c, withMetadata, p, s);
    ScanHangsIs(img, p, c, withMetadata, s);
    EndsStep(ScanMove(img, c, withMetadata), Spot(p, s.drift));
  }

  lemma FillTurnsLeft(img: seq<byte>, p: nat, items: seq<Metadata>)
    requires !FillFrom(img, p, items).FillHangs?
    ensures p + 8 <= |img|
            ==> var size := GetU32(img, p + 4);
                var t := FillChunk(img, p + 8, img[p..p + 4], size);
                var at := t.at + To64(size + size % 2 - t.read);
                && TakeTurn(img, p) == (if at > |img| then NoWay else Fills(t.items, at))
                && (at <= |img| ==> TurnsLeft(FillMove(img), at) < TurnsLeft(FillMove(img), p))
  {
    hide FillChunk, GetU32, To64, FillFrom, Walks.Ends;
    FillHangsIs(img, p, items);
    EndsStep(FillMove(img), p);
  }

  lemma NotW64(c: Container)
    ensures c == W64 <==> c.W64?
  {
  }

  /** Init, by the cases that the method goes through. */
  lemma InitCases(img: seq<byte>, flag: bool)
    requires !Init(img, flag).Hangs?
    ensures var lead := ReadLead(img);
            if lead.NoLead? then Init(img, flag) == Rejected
            else
              && lead.at <= |img| && Supported(lead.container)
              && lead.at >= 0 && lead.dataSize >= 0 && lead.sampleCount >= 0
              && var c := lead.container;
                 match ScanFrom(img, lead.at, c, flag && !c.W64?, StartScan(lead.dataSize, lead.sampleCount))
                 case Failed => Init(img, flag) == Rejected
                 case ScanHangs => false
                 case Done(s) =>
                   s.dataPos >= 0 &&
                   if !s.foundFmt || !s.foundData || !InRange(s.fmt) || s.dataPos > |img| then Init(img, flag) == Rejected
                   else if s.metadataCount > 0 then
                     match FillFrom(img, lead.at, [])
                     case Refused => Init(img, flag) == Rejected
                     case FillHangs => false
                     case Filled(items) => Init(img, flag) == Accept(c, s, items, s.metadataCount, 0)
                   else Init(img, flag) == Accept(c, s, [], 0, |img| - s.dataPos)
  {
    hide ReadLead, ScanFrom, FillFrom, InRange, Accept, StartScan;
    LeadInside(img);
  }

  lemma Distinct()
    ensures RIFF_ID != GUID_RIFF[..4] && RIFF_ID != RF64_ID && GUID_RIFF[..4] != RF64_ID
    ensures |GUID_RIFF| == 16 && |GUID_WAVE| == 16 && |RIFF_ID| == |RF64_ID| == |WAVE_ID| == 4
  {
    assert GUID_RIFF[..4][0] == 0x72 && RIFF_ID[0] == 0x52 && RF64_ID[0] == 0x52 && RIFF_ID[1] == 0x49 && RF64_ID[1] == 0x46;
  }

  /** ScanTurn, by the cases that the method goes through. */
  lemma ScanTurnIs(img: seq<byte>, c: Container, withMetadata: bool, h: Header, s: Scan)
    requires h.Header? && h.body <= |img| && Supported(c) && |h.id| == if c.W64? then 16 else 4
    requires withMetadata ==> !c.W64?
    ensures Rf64.Rf64? && (c == Rf64 <==> c.Rf64?) && h.padding >= 0 && h.size >= 0
    ensures 0 <= CursorAt(h.body, s.drift) && 0 <= To64(h.size + h.padding)
    ensures var t := ScanTurn(img, c, withMetadata, h, s);
            var n := To64(h.size + h.padding);
            if h.id == FmtId(c) then
              var r := ReadFmt(img, h.body, h.size);
              if r.BadFmt? then t == Fails
              else
                && 0 <= r.after <= |img|
                && t == Skip(img, r.after, h.padding,
                             s.(foundFmt := true, fmt := r.fmt, drift := To64(s.drift + r.slip)))
            else if h.id == DataId(c) then
              var s' := s.(foundData := true, dataPos := CursorAt(h.body, s.drift),
                           dataSize := if c == Rf64 then s.dataSize else h.size);
              t == if withMetadata then Skip(img, h.body, n, s') else Ends(s')
            else if h.id == FactId(c) then t == FactTurn(img, c, h, s)
            else if !withMetadata then t == Skip(img, h.body, n, s)
            else
              var s' := s.(metadataCount := s.metadataCount + CountChunk(img, h.body, h.id, h.size));
              var p := CursorAt(h.body, s.drift);
              t == if p > |img| then Ends(s') else Skip(img, p, n, s'.(drift := 0))
  {
    hide ReadFmt, FactTurn, CountChunk, CursorAt, To64, Skip;
  }

  lemma HeaderIs(img: seq<byte>, p: nat)
    ensures ReadHeader(img, p, Riff)
            == if p + 8 > |img| then NoHeader
               else Header(img[p..p + 4], GetU32(img, p + 4), GetU32(img, p + 4) % 2, p + 8)
    ensures p + 8 <= |img| ==> |img[p..p + 4]| == 4
  {
    hide GetU32;
  }

  lemma U16Of(img: seq<byte>, p: nat, b: seq<byte>)
    requires p + 2 <= |img| && b == img[p..p + 2]
    ensures GetU16(b, 0) == GetU16(img, p)
  {
  }

  lemma U64Of(img: seq<byte>, p: nat, b: seq<byte>)
    requires p + 8 <= |img| && b == img[p..p + 8]
    ensures GetU64(b, 0) == GetU64(img, p)
  {
  }

  lemma BasicOf(img: seq<byte>, p: nat, b: seq<byte>)
    requires p + 16 <= |img| && b == img[p..p + 16]
    ensures BasicFmt(b, 0) == BasicFmt(img, p)
  {
  }

  lemma ExtOf(img: seq<byte>, p: nat, b: seq<byte>)
    requires p + 22 <= |img| && b == img[p..p + 22]
    ensures GetU16(b, 0) == GetU16(img, p) && GetU32(b, 2) == GetU32(img, p + 2) && b[6..22] == img[p + 6..p + 22]
  {
  }
}
