/**
 Writing a WAV file to memory with dr_wav: the head, any number of data writes, and at the end the
 padding and the sizes, which are patched in with backward seeks.
 */
module WavWriter {
  import opened Bytes
  import opened WavMetadata
  import opened WavFormat

  /** `b` written into `data` at `pos`, over what is there or at the end. */
  function Patched(data: seq<byte>, pos: nat, b: seq<byte>): seq<byte>
    requires pos <= |data|
  {
    data[..pos] + b + if pos + |b| <= |data| then data[pos + |b|..] else []
  }

  lemma PatchedEnd(data: seq<byte>, b: seq<byte>)
    ensures Patched(data, |data|, b) == data + b
  {
  }

  /** Replacing a stretch by one of the same length. */
  lemma PatchedMiddle(a: seq<byte>, b: seq<byte>, c: seq<byte>, b': seq<byte>)
    requires |b| == |b'|
    ensures |a| <= |a + b + c| && Patched(a + b + c, |a|, b') == a + b' + c
  {
    assert (a + b + c)[..|a|] == a && (a + b + c)[|a| + |b|..] == c;
  }

  /** Two writes, one behind the other, are one write of both. */
  lemma PatchedTwice(data: seq<byte>, pos: nat, a: seq<byte>, b: seq<byte>)
    requires pos <= |data|
    ensures pos + |a| <= |Patched(data, pos, a)|
    ensures Patched(Patched(data, pos, a), pos + |a|, b) == Patched(data, pos, a + b)
  {
    var once := Patched(data, pos, a);
    assert once[..pos + |a|] == data[..pos] + a;
    if pos + |a| + |b| <= |once| {
      assert once[pos + |a| + |b|..] == if pos + |a| <= |data| then data[pos + |a| + |b|..] else [];
    }
  }

  /** What the writer writes for metadata; Wave64 files have none. */
  function MetaOf(c: Container, ms: seq<Metadata>): seq<byte> {
    if c.W64? then [] else Written(ms)
  }

  /** The head that a file starts out with. */
  function FirstHead(c: Container, fmt: Fmt, ms: seq<Metadata>): seq<byte> {
    Head(c, fmt, MetaOf(c, ms), InitialRiffField(c), DataField(c, 0))
  }

  class WavWriter {
    /** The memory stream: its content and the write position. */
    var data: seq<byte>
    var pos: nat
    var container: Container
    var fmt: Fmt
    var metadata: seq<Metadata>
    var dataChunkDataSize: nat
    var dataChunkDataPos: nat

    constructor ()
      ensures data == [] && pos == 0
    {
      data, pos, container, fmt, metadata := [], 0, Riff, NO_FMT, [];
      dataChunkDataSize, dataChunkDataPos := 0, 0;
    }

    /** The file is open and `audio` has been written to it. */
    ghost predicate Open(audio: seq<byte>)
      reads this
    {
      && Supported(container) && AllCountable(metadata)
      && data == FirstHead(container, fmt, metadata) + audio && pos == |data|
      && dataChunkDataSize == |audio| && dataChunkDataPos == |FirstHead(container, fmt, metadata)|
    }

    /** drwav__on_write_memory. */
    method OnWrite(b: seq<byte>) returns (n: nat)
      requires pos <= |data|
      modifies this`data, this`pos
      ensures n == |b| && data == Patched(old(data), old(pos), b) && pos == old(pos) + |b| <= |data|
      ensures |data| == if old(pos) + |b| < |old(data)| then |old(data)| else old(pos) + |b|
      ensures forall i :: 0 <= i < |data| ==>
                data[i] == if old(pos) <= i < old(pos) + |b| then b[i - old(pos)] else old(data)[i]
    {
      data := Patched(data, pos, b);
      pos := pos + |b|;
      n := |b|;
    }

    /** Writing at the end. */
    method Append(b: seq<byte>) returns (n: nat)
      requires pos == |data|
      modifies this`data, this`pos
      ensures n == |b| && data == old(data) + b && pos == |data|
    {
      hide Patched;
      PatchedEnd(data, b);
      n := OnWrite(b);
    }

    /** drwav__on_seek_memory_write from the start. */
    method OnSeek(offset: nat)
      modifies this`pos
      ensures pos == if offset <= |data| then offset else |data|
    {
      pos := if offset <= |data| then offset else |data|;
    }

    /** The fmt chunk and the metadata, as RIFF and RF64 have them. */
    method AppendFmtAndMetadata(before: seq<byte>) returns (n: nat)
      requires pos == |data| && AllCountable(metadata)
      modifies this`data, this`pos
      ensures data == old(data) + ((before + FmtChunk(fmt)) + Written(metadata)) && pos == |data|
      ensures n == |before| + 24 + |Written(metadata)|
    {
      hide *;
      FmtChunkLength(fmt);
      n := Append(before + FmtChunk(fmt));
      var counted, b := WriteOrCountMetadata(false, metadata);
      var m := Append(b);
      n := n + m;
      Joins(old(data), before + FmtChunk(fmt), b);
    }

    lemma FmtChunkLength(fmt: Fmt)
      ensures |FmtChunk(fmt)| == 24
    {
    }

    /** drwav_init_write_with_metadata, in memory and not sequential; drwav_init_write is `ms == []`. */
    method InitWrite(f: DataFormat, ms: seq<Metadata>) returns (ok: bool)
      requires data == [] && pos == 0 && AllCountable(ms)
      modifies this
      ensures ok == Writable(f)
      ensures ok <==> f.format !in {2, 0x11, 0xFFFE} && f.container in {Riff, W64, Rf64}
      ensures ok ==> Describes(fmt, f)
      ensures ok ==> Open([]) && container == f.container && fmt == FmtOf(f) && metadata == ms
      ensures !ok ==> data == []
    {
      hide Written, Size32, U64, U32, U16, FmtBytes, FmtOf, AllCountable, Describes;
      if f.format == FORMAT_EXTENSIBLE || f.format == FORMAT_ADPCM || f.format == FORMAT_DVI_ADPCM {
        return false;
      }
      FmtDescribes(f);
      fmt := FmtOf(f);
      container := f.container;
      metadata := ms;
      if f.container != Riff && f.container != W64 && f.container != Rf64 {
        return false;
      }
      var runningPos := WriteHead();
      dataChunkDataPos := runningPos;
      dataChunkDataSize := 0;
      assert FirstHead(container, fmt, metadata) + [] == FirstHead(container, fmt, metadata);
      ok := true;
    }

    /** drwav_init_write__internal. */
    method WriteHead() returns (runningPos: nat)
      requires data == [] && pos == 0 && AllCountable(metadata) && Supported(container)
      modifies this`data, this`pos
      ensures data == FirstHead(container, fmt, metadata) && pos == |data| == runningPos
    {
      hide *;
      HeadParts(container, fmt, metadata);
      var n;
      runningPos := Append(Start(container));
      n := Append(SizeField(container, InitialRiffField(container)));
      runningPos := runningPos + n;
      ghost var soFar := data;
      assert [] + Start(container) == Start(container);
      if container == Riff {
        n := AppendFmtAndMetadata(WAVE_ID);
        runningPos := runningPos + n;
        n := Append(DATA);
        runningPos := runningPos + n;
        Joins(soFar, WAVE_ID + FmtChunk(fmt) + Written(metadata), DATA);
      } else if container == W64 {
        n := Append(GUID_WAVE + (GUID_FMT + U64(40) + FmtBytes(fmt)) + GUID_DATA);
        runningPos := runningPos + n;
      }
      AppendNone(soFar);
      n := Append(SizeField(container, DataField(container, 0)));
      runningPos := runningPos + n;
      soFar := data;
      AppendNone(soFar);
      if container == Rf64 {
        n := AppendFmtAndMetadata(U64(0) + U32(0));
        runningPos := runningPos + n;
        n := Append(DATA + U32(0xFFFF_FFFF));
        runningPos := runningPos + n;
        Joins(soFar, U64(0) + U32(0) + FmtChunk(fmt) + Written(metadata), DATA + U32(0xFFFF_FFFF));
      }
    }

    /** drwav_write_raw. */
    method WriteRaw(b: seq<byte>, ghost audio: seq<byte>) returns (bytesWritten: nat)
      requires Open(audio)
      modifies this`data, this`pos, this`dataChunkDataSize
      ensures Open(audio + b) && bytesWritten == |b|
    {
      hide *;
      OpenIs(audio);
      assert b == [] ==> audio + b == audio;
      if |b| == 0 {
        return 0;
      }
      bytesWritten := Append(b);
      dataChunkDataSize := dataChunkDataSize + bytesWritten;
      Joins(FirstHead(container, fmt, metadata), audio, b);
      OpenIs(audio + b);
    }

    /** One write after the other. */
    method WriteAll(blocks: seq<seq<byte>>, ghost audio: seq<byte>)
      requires Open(audio)
      modifies this`data, this`pos, this`dataChunkDataSize
      ensures Open(audio + Joined(blocks))
    {
      hide *;
      var i: nat := 0;
      ghost var soFar := audio;
      JoinedStep(blocks, 0);
      AppendNone(audio);
      while i < |blocks|
        invariant 0 <= i <= |blocks| && Open(soFar) && soFar == audio + Joined(blocks[..i])
      {
        JoinedStep(blocks, i);
        Joins(audio, Joined(blocks[..i]), blocks[i]);
        var n := WriteRaw(blocks[i], soFar);
        soFar := soFar + blocks[i];
        i := i + 1;
      }
      assert blocks[..i] == blocks;
    }

    lemma OpenIs(audio: seq<byte>)
      ensures Open(audio)
              <==> Supported(container) && AllCountable(metadata)
                   && data == FirstHead(container, fmt, metadata) + audio && pos == |data|
                   && dataChunkDataSize == |audio| && dataChunkDataPos == |FirstHead(container, fmt, metadata)|
    {
    }

    /** Seeking to a size field and writing it. */
    method PatchSize(at: nat, b: seq<byte>, ghost before: seq<byte>, ghost old0: seq<byte>, ghost after: seq<byte>)
      requires data == before + old0 + after && at == |before| && |b| == |old0|
      modifies this`data, this`pos
      ensures data == before + b + after && pos <= |data|
    {
      hide Patched;
      OnSeek(at);
      PatchedMiddle(before, old0, after, b);
      var n := OnWrite(b);
    }

    /** drwav_uninit of a writer: afterwards the file is complete. */
    method Uninit(ghost audio: seq<byte>)
      requires Open(audio) && dataChunkDataPos < 0x8000_0000
      modifies this`data, this`pos
      ensures data == Finished(container, fmt, MetaOf(container, metadata), audio)
    {
      hide *;
      OpenIs(audio);
      var padding := PaddingSize(container, dataChunkDataSize);
      if padding > 0 {
        var n := Append(Zeros(padding));
      }
      ZerosNone(padding);
      AppendNone(data);
      var metaSize := 0;
      if container == Riff || container == Rf64 {
        var none;
        metaSize, none := WriteOrCountMetadata(true, metadata);
      }
      MetaSizeIs(container, metadata);
      ghost var meta := MetaOf(container, metadata);
      ghost var tail := audio + Zeros(padding);
      var riffField := SizeField(container, RiffField(container, dataChunkDataSize, metaSize));
      var dataField := SizeField(container, DataField(container, dataChunkDataSize));
      var riffAt := if container == Riff then 4 else if container == W64 then 16 else 12 + 8;
      var dataAt := if container == Riff then dataChunkDataPos - 4
                    else if container == W64 then dataChunkDataPos - 8 else 12 + 8 + 8;
      UninitParts(container, fmt, metadata, audio, Zeros(padding), riffField);
      PatchSize(riffAt, riffField, Start(container), SizeField(container, InitialRiffField(container)),
                AfterRiff(container, fmt, meta, SizeField(container, DataField(container, 0)), tail));
      PatchSize(dataAt, dataField, BeforeData(container, fmt, meta, riffField),
                SizeField(container, DataField(container, 0)), End(container, fmt, meta) + tail);
      FinishedParts(container, fmt, metadata, audio);
    }
  }

  /** All blocks, one after the other. */
  function Joined(blocks: seq<seq<byte>>): seq<byte> {
    if blocks == [] then [] else Joined(blocks[..|blocks| - 1]) + blocks[|blocks| - 1]
  }

  lemma JoinedStep(blocks: seq<seq<byte>>, i: nat)
    ensures Joined(blocks[..0]) == []
    ensures i < |blocks| ==> Joined(blocks[..i + 1]) == Joined(blocks[..i]) + blocks[i]
  {
    if i < |blocks| {
      assert blocks[..i + 1][..i] == blocks[..i];
    }
  }

  lemma ZerosNone(n: nat)
    ensures n == 0 ==> Zeros(n) == []
  {
  }

  lemma MetaSizeIs(c: Container, ms: seq<Metadata>)
    requires Supported(c)
    ensures |MetaOf(c, ms)| == if c == Riff || c == Rf64 then |Written(ms)| else 0
  {
    hide Written;
  }

  /** The file from behind its first size field. */
  function AfterRiff(c: Container, fmt: Fmt, meta: seq<byte>, dataField: seq<byte>, tail: seq<byte>): seq<byte> {
    Middle(c, fmt, meta) + dataField + (End(c, fmt, meta) + tail)
  }

  /** The file up to its second size field. */
  function BeforeData(c: Container, fmt: Fmt, meta: seq<byte>, riffField: seq<byte>): seq<byte> {
    Start(c) + riffField + Middle(c, fmt, meta)
  }

  /** The parts of a head and what follows it, taken together from the other side. */
  lemma Regroup(a: seq<byte>, b: seq<byte>, c: seq<byte>, d: seq<byte>, e: seq<byte>, t: seq<byte>)
    ensures (a + b + c + d + e) + t == a + b + (c + d + (e + t))
    ensures a + b + (c + d + (e + t)) == (a + b + c) + d + (e + t)
  {
    hide *;
    Joins(a + b + c + d, e, t);
    Joins(a + b + c, d, e + t);
    Joins(a + b, c, d + (e + t));
    Joins(c, d, e + t);
  }

  lemma UninitParts(c: Container, fmt: Fmt, ms: seq<Metadata>, audio: seq<byte>, pad: seq<byte>, riffField: seq<byte>)
    requires Supported(c) && |riffField| == |SizeField(c, InitialRiffField(c))|
    ensures var meta, tail := MetaOf(c, ms), audio + pad;
            var first, second := SizeField(c, InitialRiffField(c)), SizeField(c, DataField(c, 0));
            && FirstHead(c, fmt, ms) + audio + pad == Start(c) + first + AfterRiff(c, fmt, meta, second, tail)
            && Start(c) + riffField + AfterRiff(c, fmt, meta, second, tail)
               == BeforeData(c, fmt, meta, riffField) + second + (End(c, fmt, meta) + tail)
            && |Start(c)| == (if c == Riff then 4 else if c == W64 then 16 else 12 + 8)
            && |BeforeData(c, fmt, meta, riffField)|
               == if c == Riff then |FirstHead(c, fmt, ms)| - 4
                  else if c == W64 then |FirstHead(c, fmt, ms)| - 8 else 28
  {
    hide Written, U64, U32, FmtChunk, FmtBytes;
    var meta, tail := MetaOf(c, ms), audio + pad;
    var first, second := SizeField(c, InitialRiffField(c)), SizeField(c, DataField(c, 0));
    Joins(FirstHead(c, fmt, ms), audio, pad);
    Regroup(Start(c), first, Middle(c, fmt, meta), second, End(c, fmt, meta), tail);
    Regroup(Start(c), riffField, Middle(c, fmt, meta), second, End(c, fmt, meta), tail);
  }

  lemma FinishedParts(c: Container, fmt: Fmt, ms: seq<Metadata>, audio: seq<byte>)
    requires Supported(c)
    ensures var meta := MetaOf(c, ms);
            var n := |audio|;
            var riffField := SizeField(c, RiffField(c, n, |meta|));
            Finished(c, fmt, meta, audio)
            == BeforeData(c, fmt, meta, riffField) + SizeField(c, DataField(c, n))
               + (End(c, fmt, meta) + (audio + Zeros(PaddingSize(c, n))))
    ensures |SizeField(c, RiffField(c, |audio|, |MetaOf(c, ms)|))| == |SizeField(c, InitialRiffField(c))|
    ensures |SizeField(c, DataField(c, |audio|))| == |SizeField(c, DataField(c, 0))|
  {
    var meta := MetaOf(c, ms);
    var n := |audio|;
    hide Written, U64, U32, Middle, End, Start, SizeField, RiffField, DataField;
    var a, d := SizeField(c, RiffField(c, n, |meta|)), SizeField(c, DataField(c, n));
    Joins(Head(c, fmt, meta, RiffField(c, n, |meta|), DataField(c, n)), audio, Zeros(PaddingSize(c, n)));
    Regroup(Start(c), a, Middle(c, fmt, meta), d, End(c, fmt, meta), audio + Zeros(PaddingSize(c, n)));
  }

  lemma HeadParts(c: Container, fmt: Fmt, ms: seq<Metadata>)
    requires Supported(c)
    ensures c == Riff || c == W64 || c == Rf64
    ensures FirstHead(c, fmt, ms)
            == Start(c) + SizeField(c, InitialRiffField(c)) + Middle(c, fmt, MetaOf(c, ms))
               + SizeField(c, DataField(c, 0)) + End(c, fmt, MetaOf(c, ms))
    ensures c == Riff ==> Middle(c, fmt, MetaOf(c, ms)) == (WAVE_ID + FmtChunk(fmt)) + Written(ms) + DATA
    ensures c == W64 ==> Middle(c, fmt, MetaOf(c, ms)) == GUID_WAVE + (GUID_FMT + U64(40) + FmtBytes(fmt)) + GUID_DATA
    ensures c == Rf64 ==> Middle(c, fmt, MetaOf(c, ms)) == []
    ensures c == Rf64
            ==> End(c, fmt, MetaOf(c, ms)) == (U64(0) + U32(0) + FmtChunk(fmt)) + Written(ms) + (DATA + U32(0xFFFF_FFFF))
    ensures c != Rf64 ==> End(c, fmt, MetaOf(c, ms)) == []
  {
    hide Written, U64, U32, FmtChunk, FmtBytes;
  }
}
