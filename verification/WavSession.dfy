/**
 A whole session: a file written in memory by the dr_wav writer, and opened by the dr_wav reader.
 */
module WavSession {
  import opened Bytes
  import opened WavMetadata
  import opened WavMetadataParser
  import opened WavFormat
  import opened WavFrames
  import opened WavScan
  import opened WavRoundTrip
  import opened WavStream
  import W = WavWriter
  import R = WavReader

  /** What the reader of a file makes of what was written to it. */
  datatype Session = Session(written: bool, writerDataPos: nat, accepted: bool, fmt: Fmt, dataPos: nat, dataSize: nat,
                             frames: nat, audio: seq<byte>, metadata: seq<Metadata>)

  /**
   Files whose opening does not depend on the audio bytes: without metadata all of them, with metadata up to
   2^32 bytes of audio. The sizes are kept in 64 bits.
   */
  predicate SizeKept(c: Container, n: nat, flag: bool) {
    n + 120 < 0x1_0000_0000_0000_0000 && (flag && !c.W64? ==> n <= 0x1_0000_0000)
  }

  /** The data size that is read. */
  function SizeSeen(c: Container, ms: seq<Metadata>, n: nat, flag: bool): nat {
    if flag && ms != [] then SizeAfterFill(c, n) else SizeLeft(c, n)
  }

  /** RF64 files with metadata open only if they are as long as the data chunk's header says. */
  predicate Opens(c: Container, ms: seq<Metadata>, n: nat, flag: bool) {
    c.Rf64? && flag && n < MAX32 ==> ms == []
  }

  /** The audio data that a data size of `size` gives: cut off, or with padding. */
  function Heard(audio: seq<byte>, size: nat): seq<byte> {
    if size <= |audio| then audio[..size] else audio + Zeros(size - |audio|)
  }

  /** The items that the reader hands out. */
  function ItemsRead(c: Container, ms: seq<Metadata>, flag: bool): seq<Metadata> {
    if flag && !c.W64? then Regrouped(ms) else []
  }

  /**
   Any format, any metadata that survive, any sequence of writes: the file opens exactly when its format is one
   the reader supports and, in RF64 with metadata asked for, it has no items or is as long as its header says;
   and the data chunk is where the writer counted it to be. With metadata asked for, all items come back.
   The audio data are those that were written, if the data size is, and then `n` whole frames are `n` frames.
   */
  method WriteThenRead(f: DataFormat, ms: seq<Metadata>, blocks: seq<seq<byte>>, flag: bool, ghost n: nat)
    returns (s: Session)
    requires RoundTrips(ms) && SizeKept(f.container, |W.Joined(blocks)|, flag)
    ensures s.written == Writable(f)
    ensures s.written ==> s.accepted == (Playable(FmtOf(f)) && Opens(f.container, ms, |W.Joined(blocks)|, flag))
    ensures s.written && InFields(f) ==> s.accepted == (Opening(f) && Opens(f.container, ms, |W.Joined(blocks)|, flag))
    ensures s.written && s.accepted ==> Describes(s.fmt, f)
    ensures s.written && s.accepted && InFields(f) && f.channels * f.bitsPerSample % 8 == 0 ==>
              && HoldsFrames(s.frames, f.channels * f.bitsPerSample, s.dataSize)
              && (s.dataSize == |W.Joined(blocks)| && 8 * s.dataSize == n * (f.channels * f.bitsPerSample) ==> s.frames == n)
    ensures s.written && s.accepted ==>
              && s.fmt == FmtOf(f) && s.dataPos == s.writerDataPos
              && s.dataSize == SizeSeen(f.container, ms, |W.Joined(blocks)|, flag)
              && s.audio == Heard(W.Joined(blocks), s.dataSize)
              && s.metadata == ItemsRead(f.container, ms, flag)
  {
    hide *;
    s := Session(false, 0, false, NO_FMT, 0, 0, 0, [], []);
    CountableAll(ms);
    var writer := new W.WavWriter();
    var ok := writer.InitWrite(f, ms);
    if !ok {
      return;
    }
    writer.WriteAll(blocks, []);
    ghost var audio := W.Joined(blocks);
    assert [] + audio == audio;
    HeadIs(f.container, FmtOf(f), ms);
    writer.OpenIs(audio);
    var c := writer.container;
    writer.Uninit(audio);
    s := s.(written := true, writerDataPos := writer.dataChunkDataPos);
    var reader := new R.WavReader(writer.data);
    Reads(f, ms, audio, flag);
    if InFields(f) {
      OpeningIff(f);
    }
    var accepted := reader.Initialise(flag);
    s := s.(accepted := accepted);
    if accepted {
      ShowsIs(reader, Init(writer.data, flag).wav);
      var data := reader.stream.Read(reader.dataChunkDataSize);
      s := s.(fmt := reader.fmt, dataPos := reader.dataChunkDataPos, dataSize := reader.dataChunkDataSize,
              frames := reader.totalPCMFrameCount, audio := data, metadata := reader.metadata);
      FmtDescribes(f);
      FramesRead(f, reader.dataChunkDataSize, n);
    }
  }

  lemma CountableAll(ms: seq<Metadata>)
    requires RoundTrips(ms)
    ensures AllCountable(ms)
  {
    hide Written;
    forall m | m in ms ensures Countable(m) {
      assert WellFormed(m);
    }
  }

  lemma HeadIs(c: Container, fmt: Fmt, ms: seq<Metadata>)
    requires RoundTrips(ms)
    ensures Supported(c) ==> |W.FirstHead(c, fmt, ms)| == HeadSize(c, |W.MetaOf(c, ms)|) < 0x8000_0000
  {
  }

  lemma ShowsIs(reader: R.WavReader, wav: Wav)
    requires reader.Shows(wav)
    ensures reader.fmt == wav.fmt && reader.dataChunkDataPos == wav.dataPos
    ensures reader.dataChunkDataSize == wav.dataSize && reader.metadata == wav.metadata
    ensures reader.totalPCMFrameCount == wav.totalPCMFrameCount
  {
  }

  lemma FramesRead(f: DataFormat, size: nat, n: nat)
    requires Writable(f) && Playable(FmtOf(f))
    ensures InFields(f) && f.channels * f.bitsPerSample % 8 == 0 ==>
              var frames := FrameCount(FmtOf(f), 0, size);
              && HoldsFrames(frames, f.channels * f.bitsPerSample, size)
              && (8 * size == n * (f.channels * f.bitsPerSample) ==> frames == n)
  {
    hide *;
    if InFields(f) && f.channels * f.bitsPerSample % 8 == 0 {
      FramesAsked(f, size);
      if 8 * size == n * (f.channels * f.bitsPerSample) {
        FramesBack(f, size, n);
      }
    }
  }

  lemma Reads(f: DataFormat, ms: seq<Metadata>, audio: seq<byte>, flag: bool)
    requires Writable(f) && RoundTrips(ms) && SizeKept(f.container, |audio|, flag)
    ensures var c, n := f.container, |audio|;
            var img := Finished(c, FmtOf(f), W.MetaOf(c, ms), audio);
            var at, size := HeadSize(c, |W.MetaOf(c, ms)|), SizeSeen(c, ms, n, flag);
            && 0 <= at <= |img| && BytesAt(img, at, size) == Heard(audio, size)
            && !Init(img, flag).Hangs?
            && Init(img, flag).Opened? == (Playable(FmtOf(f)) && Opens(c, ms, n, flag))
            && (Init(img, flag).Opened? ==>
                  var wav := Init(img, flag).wav;
                  && wav.fmt == FmtOf(f) && wav.dataPos == at && wav.dataSize == size
                  && wav.totalPCMFrameCount == FrameCount(FmtOf(f), 0, size)
                  && wav.metadata == ItemsRead(c, ms, flag))
  {
    hide *;
    var c, n := f.container, |audio|;
    WritableIs(f);
    Cases(c, ms, n, flag);
    RiffSpan(n);
    DataLies(c, f, W.MetaOf(c, ms), audio, SizeSeen(c, ms, n, flag));
    if c.W64? {
      W64RoundTrip(f, audio, flag);
    } else if flag {
      if c.Riff? {
        MetadataRoundTrip(f, ms, audio);
      } else {
        Rf64WithMetadata(f, ms, audio);
      }
      ShownIs(c, f, |Written(ms)|, SizeSeen(c, ms, n, flag), Regrouped(ms));
      ShownIs(c, f, |Written(ms)|, SizeSeen(c, ms, n, flag), []);
      NoneRegrouped();
    } else {
      RoundTrip(c, f, ms, audio);
      ShownIs(c, f, |Written(ms)|, SizeSeen(c, ms, n, flag), []);
    }
  }

  lemma WritableIs(f: DataFormat)
    ensures Writable(f) ==> Supported(f.container)
    ensures Writable(f) ==> f.container.Riff? || f.container.W64? || f.container.Rf64?
    ensures f.container.Riff? ==> f.container == Riff
    ensures f.container.Rf64? ==> f.container == Rf64
    ensures f.container.W64? ==> f.container == W64
  {
    hide Playable;
  }

  lemma Cases(c: Container, ms: seq<Metadata>, n: nat, flag: bool)
    ensures W.MetaOf(c, ms) == if c.W64? then [] else Written(ms)
    ensures SizeKept(c, n, flag) ==> n + 120 < 0x1_0000_0000_0000_0000 && (flag && !c.W64? ==> n <= 0x1_0000_0000)
    ensures SizeSeen(c, ms, n, flag) == if flag && ms != [] then SizeAfterFill(c, n) else SizeLeft(c, n)
    ensures c.W64? ==> SizeSeen(c, ms, n, flag) == n && Opens(c, ms, n, flag)
    ensures Opens(c, ms, n, flag) <==> (c.Rf64? && flag && n < MAX32 ==> ms == [])
    ensures ItemsRead(c, ms, flag) == if flag && !c.W64? then Regrouped(ms) else []
    ensures c.W64? ==> HeadSize(c, 0) == 104
    ensures var size := SizeSeen(c, ms, n, flag); size <= n || (!c.W64? && size == n + n % 2)
  {
    hide Written, Regrouped;
  }

  lemma ShownIs(c: Container, f: DataFormat, meta: nat, size: nat, items: seq<Metadata>)
    ensures var r := Expected(c, f, meta, size, items);
            && !r.Hangs? && r.Opened? == Playable(FmtOf(f))
            && (r.Opened? ==> r.wav.fmt == FmtOf(f) && r.wav.dataPos == HeadSize(c, meta) && r.wav.dataSize == size
                              && r.wav.totalPCMFrameCount == FrameCount(FmtOf(f), 0, size)
                              && r.wav.metadata == items)
  {
    hide *;
    ExpectedIs(c, f, meta, size, items);
  }

  lemma NoneRegrouped()
    ensures Regrouped([]) == []
  {
  }

  /** The audio data in a finished file, and the padding behind them. */
  lemma DataLies(c: Container, f: DataFormat, meta: seq<byte>, audio: seq<byte>, size: nat)
    requires Supported(c) && (size <= |audio| || (!c.W64? && size == |audio| + |audio| % 2))
    ensures var img, at := Finished(c, FmtOf(f), meta, audio), HeadSize(c, |meta|);
            at <= |img| && BytesAt(img, at, size) == Heard(audio, size)
  {
    hide Head, HeadSize, FmtOf;
    HeadLength(c, FmtOf(f), meta, RiffField(c, |audio|, |meta|), DataField(c, |audio|));
  }
}
