/**
 The object that walks metadata chunks, `drwav__metadata_parser` of dr_wav, and its methods; each is
 proved against the function of the image in WavMetadataParser.
 */
module WavMetadataReader {
  import opened BroadcastWave
  import opened Bytes
  import opened WavMetadata
  import opened WavMetadataParser
  import opened WavStream

  class MetadataParser {
    const stream: MemoryStream
    /** drwav__metadata_parser_stage_read, as opposed to _count. */
    var filling: bool
    var metadataCount: nat
    /** The items that are complete; their number is metadataCursor. */
    var metadata: seq<Metadata>

    constructor (stream: MemoryStream)
      ensures this.stream == stream && !filling && metadataCount == 0 && metadata == []
    {
      this.stream, filling, metadataCount, metadata := stream, false, 0, [];
    }

    /** A chunk whose body is copied as a whole; it is kept when all of it was there. */
    method FillWhole(id: Id, place: Place, size: nat) returns (bytesRead: nat)
      requires stream.pos <= |stream.data|
      requires place.Top? ==> (id == INST ==> size == 7) && (id == ACID ==> size == 24)
      requires place.Top? && id == BEXT ==> size >= 602
      requires !place.Top? ==> ((id == LABL || id == NOTE) ==> size >= 4) && (id == LTXT ==> size >= 20)
      modifies this`metadata, stream`pos
      ensures stream.pos == old(stream.pos) + bytesRead <= |stream.data| && bytesRead <= size
      ensures bytesRead == if old(stream.pos) + size <= |stream.data| then size else |stream.data| - old(stream.pos)
      ensures metadata == old(metadata)
                          + if old(stream.pos) + size <= |stream.data|
                            then [WholeItem(id, place, stream.data[old(stream.pos)..old(stream.pos) + size])] else []
    {
      hide WholeItem;
      var b := stream.Read(size);
      bytesRead := |b|;
      if bytesRead == size {
        metadata := metadata + [WholeItem(id, place, b)];
      }
    }

    /** drwav__read_cue_to_metadata_obj, and keeping the item. */
    method FillCueChunk(size: nat) returns (bytesRead: nat)
      requires stream.pos <= |stream.data| && size >= 4
      modifies this`metadata, stream`pos
      ensures Got(bytesRead, metadata) == Got(FillCue(stream.data, old(stream.pos), size).read,
                                              old(metadata) + FillCue(stream.data, old(stream.pos), size).items)
      ensures stream.pos == old(stream.pos) + bytesRead <= |stream.data|
    {
      hide GetU32, ReadPoint;
      var head := stream.Read(4);
      bytesRead := |head|;
      if bytesRead != 4 {
        return;
      }
      ghost var p := old(stream.pos) + 4;
      var count: nat := GetU32(head, 0);
      U32Of(stream.data, old(stream.pos), head);
      var points := [];
      if count == (size - 4) / 24 {
        var i := 0;
        while i < count
          invariant 0 <= i <= count && stream.pos == p + 24 * i <= |stream.data| && bytesRead == 4 + 24 * i
          invariant points == ReadPoints(stream.data, p, i)
          invariant metadata == old(metadata)
        {
          var b := stream.Read(24);
          bytesRead := bytesRead + |b|;
          if |b| != 24 {
            break;
          }
          PointOf(stream.data, p + 24 * i, b);
          points := points + [ReadPoint(b, 0)];
          i := i + 1;
        }
      }
      if bytesRead == size {
        metadata := metadata + [Cue(count, points)];
      }
    }

    /** drwav__read_smpl_to_metadata_obj, and keeping the item. */
    method FillSmplChunk(size: nat) returns (bytesRead: nat)
      requires stream.pos <= |stream.data| && size >= 36
      modifies this`metadata, stream`pos
      ensures Got(bytesRead, metadata) == Got(FillSmpl(stream.data, old(stream.pos), size).read,
                                              old(metadata) + FillSmpl(stream.data, old(stream.pos), size).items)
      ensures stream.pos == old(stream.pos) + bytesRead <= |stream.data|
    {
      hide *;
      ghost var start := stream.pos;
      AvailIs(stream.data, start, 36);
      SmplChunkIs(stream.data, start, size);
      ghost var m0 := metadata;
      assert m0 + [] == m0;
      var head := stream.Read(36);
      BytesAtIs(stream.data, start, 36);
      bytesRead := |head|;
      if bytesRead != 36 {
        return;
      }
      HeadOf(stream.data, start, head);
      var loopCount: nat, extraSize: nat := GetU32(head, 28), GetU32(head, 32);
      var loops, extra := [], [];
      if loopCount == (size - 36) / 24 {
        AvailIs(stream.data, stream.pos, 24 * loopCount);
        loops, bytesRead := ReadLoopChunks(loopCount);
        bytesRead := 36 + bytesRead;
        AvailIs(stream.data, stream.pos, extraSize);
        BytesAtIs(stream.data, stream.pos, extraSize);
        if extraSize > 0 {
          extra := stream.Read(extraSize);
          bytesRead := bytesRead + |extra|;
        }
        LoopsFit(loopCount, size);
      }
      if bytesRead == size {
        metadata := metadata + [Smpl(head[..28], loopCount, extraSize, loops, extra)];
      }
    }

    /** The loop over the sample loops. */
    method ReadLoopChunks(count: nat) returns (loops: seq<SampleLoop>, bytesRead: nat)
      requires stream.pos <= |stream.data|
      modifies stream`pos
      ensures bytesRead == Avail(stream.data, old(stream.pos), 24 * count)
      ensures stream.pos == old(stream.pos) + bytesRead <= |stream.data|
      ensures bytesRead == 24 * count ==> loops == ReadLoops(stream.data, old(stream.pos), count)
    {
      hide ReadLoop;
      ghost var p := stream.pos;
      loops, bytesRead := [], 0;
      var i: nat := 0;
      while i < count
        invariant 0 <= i <= count && stream.pos == p + 24 * i <= |stream.data| && bytesRead == 24 * i
        invariant loops == ReadLoops(stream.data, p, i)
      {
        var b := stream.Read(24);
        bytesRead := bytesRead + |b|;
        if |b| != 24 {
          return;
        }
        LoopOf(stream.data, p + 24 * i, b);
        loops := loops + [ReadLoop(b, 0)];
        i := i + 1;
      }
    }

    /** drwav__read_bext_to_metadata_obj, and keeping the item. */
    method FillBextChunk(size: nat) returns (bytesRead: nat)
      requires stream.pos <= |stream.data| && size >= 602
      modifies this`metadata, stream`pos
      ensures bytesRead == Avail(stream.data, old(stream.pos), size)
      ensures stream.pos == old(stream.pos) + bytesRead <= |stream.data|
      ensures metadata == old(metadata)
                          + if bytesRead == size
                            then [Bext(ReadBext(stream.data[old(stream.pos)..old(stream.pos) + size]))] else []
    {
      hide UpToNul, GetU64, GetU16;
      ghost var img, p := stream.data, stream.pos;
      var fields := stream.Read(602);
      bytesRead := |fields|;
      if bytesRead != 602 {
        return;
      }
      var description := StrlenClamped(fields[..256], 256);
      var name := StrlenClamped(fields[256..288], 32);
      var reference := StrlenClamped(fields[288..320], 32);
      var history := [];
      if size - 602 > 0 {
        history := stream.Read(size - 602);
        bytesRead := bytesRead + |history|;
      }
      // The buffer for the history is one byte longer; that byte is taken to be a NUL.
      var historySize := StrlenClamped(history, |history|);
      if bytesRead == size {
        WholeBext(img, p, size, fields, history);
        metadata := metadata + [Bext(Broadcast(
          UpToNul(fields[..256]), UpToNul(fields[256..288]), UpToNul(fields[288..320]), fields[320..330],
          fields[330..338], GetU64(fields, 338), GetU16(fields, 346), fields[348..412], GetU16(fields, 412),
          GetU16(fields, 414), GetU16(fields, 416), GetU16(fields, 418), GetU16(fields, 420),
          historySize % 0x1_0000_0000, UpToNul(history)))];
      }
    }

    /** The fill pass for a chunk outside any list. */
    method FillTopChunk(id: Id, size: nat) returns (bytesRead: nat)
      requires stream.pos <= |stream.data|
      modifies this`metadata, stream`pos
      ensures Got(bytesRead, metadata) == Got(FillTop(stream.data, old(stream.pos), id, size).read,
                                              old(metadata) + FillTop(stream.data, old(stream.pos), id, size).items)
      ensures stream.pos == old(stream.pos) + bytesRead <= |stream.data|
    {
      hide *;
      TopChunkIs(stream.data, stream.pos, id, size);
      bytesRead := 0;
      ghost var m0 := metadata;
      assert m0 + [] == m0;
      if id == SMPL {
        if size >= 36 {
          bytesRead := FillSmplChunk(size);
        }
      } else if id == INST {
        if size == 7 {
          bytesRead := FillWhole(id, Top, size);
        }
      } else if id == ACID {
        if size == 24 {
          bytesRead := FillWhole(id, Top, size);
        }
      } else if id == CUE {
        if size >= 4 {
          bytesRead := FillCueChunk(size);
        }
      } else if id == BEXT {
        if size >= 602 {
          AvailIs(stream.data, stream.pos, size);
          bytesRead := FillBextChunk(size);
        }
      } else if id == DATA || id == FMT || id == FACT {
      } else {
        bytesRead := FillWhole(id, Top, size);
      }
    }

    /** The counting pass for a chunk outside any list. */
    method CountTopChunk(id: Id, size: nat)
      requires stream.pos <= |stream.data|
      modifies this`metadataCount, stream`pos
      ensures stream.pos <= |stream.data|
      ensures metadataCount == old(metadataCount) + CountTop(stream.data, old(stream.pos), id, size)
    {
      hide *;
      CountTopIs(stream.data, stream.pos, id, size);
      if id == SMPL {
        if size >= 36 {
          CountSmplChunk(size);
        }
      } else if id == INST {
        if size == 7 {
          metadataCount := metadataCount + 1;
        }
      } else if id == ACID {
        if size == 24 {
          metadataCount := metadataCount + 1;
        }
      } else if id == CUE {
        if size >= 4 {
          metadataCount := metadataCount + 1;
        }
      } else if id == BEXT {
        if size >= 602 {
          CountBextChunk();
        }
      } else if id == DATA || id == FMT || id == FACT {
      } else {
        metadataCount := metadataCount + 1;
      }
    }

    method CountSmplChunk(size: nat)
      requires stream.pos <= |stream.data| && size >= 36
      modifies this`metadataCount, stream`pos
      ensures stream.pos <= |stream.data|
      ensures metadataCount == old(metadataCount)
                               + if old(stream.pos) + 36 <= |stream.data|
                                    && GetU32(stream.data, old(stream.pos) + 28) == (size - 36) / 24 then 1 else 0
    {
      hide GetU32;
      var ok := stream.SeekOn(28);
      if !ok {
        return;
      }
      ghost var p := stream.pos;
      var b := stream.Read(4);
      if |b| == 4 {
        U32Of(stream.data, p, b);
        if (size - 36) / 24 == GetU32(b, 0) {
          b := stream.Read(4);
          if |b| == 4 {
            metadataCount := metadataCount + 1;
          }
        }
      }
    }

    method CountBextChunk()
      requires stream.pos <= |stream.data|
      modifies this`metadataCount, stream`pos
      ensures stream.pos <= |stream.data|
      ensures metadataCount == old(metadataCount) + if old(stream.pos) + 320 <= |stream.data| then 1 else 0
    {
      var b := stream.Read(256);
      if |b| != 256 {
        return;
      }
      b := stream.Read(32);
      if |b| != 32 {
        return;
      }
      b := stream.Read(32);
      if |b| != 32 {
        return;
      }
      metadataCount := metadataCount + 1;
    }

    /** A chunk inside a list, in either pass. */
    method ProcessSub(id: Id, size: nat, kind: ListType) returns (bytesRead: nat)
      requires stream.pos <= |stream.data| && (kind.Typed? ==> !kind.place.Top?)
      modifies this`metadataCount, this`metadata, stream`pos
      ensures stream.pos == old(stream.pos) + bytesRead <= |stream.data| && bytesRead <= size
      ensures filling ==> Got(bytesRead, metadata)
                          == Got(FillSub(stream.data, old(stream.pos), id, size, kind).read,
                                 old(metadata) + FillSub(stream.data, old(stream.pos), id, size, kind).items)
      ensures filling ==> metadataCount == old(metadataCount)
      ensures !filling ==> bytesRead == 0 && metadata == old(metadata)
      ensures !filling ==> metadataCount == old(metadataCount) + CountSub(id, size, kind)
    {
      hide *;
      SubIs(stream.data, stream.pos, id, size, kind);
      var place := if kind.Typed? then kind.place else InInfo;
      bytesRead := 0;
      ghost var m0 := metadata;
      assert m0 + [] == m0;
      if id == LABL || id == NOTE {
        if size >= 4 {
          if !filling {
            metadataCount := metadataCount + 1;
          } else {
            bytesRead := FillWhole(id, place, size);
          }
        }
      } else if id == LTXT {
        if size >= 20 {
          if !filling {
            metadataCount := metadataCount + 1;
          } else {
            bytesRead := FillWhole(id, place, size);
          }
        }
      } else if KindOf(id).Some? {
        if !filling {
          metadataCount := metadataCount + 1;
        } else {
          bytesRead := FillWhole(id, place, size);
        }
      } else if kind.Typed? && id != DATA && id != FMT && id != FACT {
        if !filling {
          metadataCount := metadataCount + 1;
        } else {
          bytesRead := FillWhole(id, place, size);
        }
      }
    }

    /** One turn of the loop over a list. */
    method ListTurn(kind0: ListType, bytesRead0: nat, ghost s: ListState, ghost m0: seq<Metadata>, ghost c0: nat)
      returns (more: bool, kind: ListType, bytesRead: nat)
      requires SaneList(stream.data, s) && s.kind == kind0 && s.read == bytesRead0
      requires stream.pos == s.at <= |stream.data|
      requires if filling then metadata == m0 + s.items else metadataCount == c0 + s.count && metadata == m0
      modifies this`metadataCount, this`metadata, stream`pos
      ensures filling ==> metadataCount == old(metadataCount)
      ensures var r := ListStep(stream.data, s, filling);
              && more == r.1 && kind == r.0.kind && bytesRead == r.0.read
              && stream.pos == r.0.at <= |stream.data|
              && if filling then metadata == m0 + r.0.items else metadataCount == c0 + r.0.count && metadata == m0
    {
      hide *;
      ghost var img, p := stream.data, stream.pos;
      TurnIs(img, s, filling);
      kind, bytesRead, more := kind0, bytesRead0, false;
      BytesAtIs(img, p, 4);
      AvailIs(img, p, 4);
      var id := stream.Read(4);
      bytesRead := bytesRead + |id|;
      if |id| != 4 {
        return;
      }
      if id == ADTL {
        return true, Typed(InAdtl), bytesRead;
      }
      if id == INFO {
        return true, Typed(InInfo), bytesRead;
      }
      BytesAtIs(img, p + 4, 4);
      AvailIs(img, p + 4, 4);
      var sizeBytes := stream.Read(4);
      bytesRead := bytesRead + |sizeBytes|;
      if |sizeBytes| != 4 {
        return;
      }
      U32Of(img, p + 4, sizeBytes);
      var size: nat := GetU32(sizeBytes, 0);
      var subRead := ProcessSub(id, size, kind);
      bytesRead := bytesRead + subRead;
      Appends(m0, s.items, if filling then FillSub(img, p + 8, id, size, kind).items else []);
      ghost var items := if filling then FillSub(img, p + 8, id, size, kind).items else [];
      ghost var count: nat := s.count + CountSub(id, size, kind);
      var read;
      more, read := SkipRest(size, subRead, s, s.items + items, count);
      bytesRead := bytesRead + read;
    }

    /** The end of a turn: past what was not read of the chunk, and past its padding. */
    method SkipRest(size: nat, got: nat, ghost s: ListState, ghost items: seq<Metadata>, ghost count: nat)
      returns (ok: bool, read: nat)
      requires stream.pos <= |stream.data| && got <= size
      modifies stream`pos
      ensures var r := Skipped(stream.data, s, old(stream.pos), size, got, items, count);
              && ok == r.1 && s.read + 8 + got + read == r.0.read && stream.pos == r.0.at <= |stream.data|
              && r.0.kind == s.kind && r.0.items == items && r.0.count == count
    {
      hide *;
      SkippedIs(stream.data, s, stream.pos, size, got, items, count);
      read := 0;
      if got < size {
        ok := stream.SeekBy(Int32(size - got));
        if !ok {
          return;
        }
        read := size - got;
      }
      if size % 2 == 1 {
        ok := stream.SeekOn(1);
        if !ok {
          return;
        }
        read := read + 1;
      }
      ok := true;
    }

    /** The list branch of drwav__metadata_process_chunk. */
    method ProcessList(size: nat) returns (bytesRead: nat)
      requires stream.pos <= |stream.data|
      modifies this`metadataCount, this`metadata, stream`pos
      ensures filling ==> metadataCount == old(metadataCount)
      ensures SaneList(stream.data, ListStart(old(stream.pos)))
      ensures var s := ListFrom(stream.data, ListStart(old(stream.pos)), size, filling);
              && bytesRead == s.read && stream.pos == s.at <= |stream.data|
              && if filling then metadata == old(metadata) + s.items
                 else metadata == old(metadata) && metadataCount == old(metadataCount) + s.count
    {
      hide *;
      ghost var img, start: nat := stream.data, stream.pos;
      ListStartAt(img, start);
      ghost var m0, c0 := metadata, metadataCount;
      assert m0 + [] == m0;
      var kind := Untyped;
      ghost var s := ListStart(start);
      bytesRead := 0;
      while bytesRead < size
        invariant SaneList(img, s) && s.kind == kind && s.read == bytesRead
        invariant stream.pos == s.at <= |img|
        invariant filling ==> metadataCount == c0
        invariant if filling then metadata == m0 + s.items else metadataCount == c0 + s.count && metadata == m0
        invariant ListFrom(img, ListStart(start), size, filling) == ListFrom(img, s, size, filling)
        decreases size - bytesRead
      {
        ListFromCases(img, s, size, filling);
        var more;
        more, kind, bytesRead := ListTurn(kind, bytesRead, s, m0, c0);
        s := ListStep(img, s, filling).0;
        if !more {
          return;
        }
      }
      ListFromCases(img, s, size, filling);
    }

    /** drwav__metadata_process_chunk. */
    method ProcessChunk(id: Id, size: nat) returns (bytesRead: nat)
      requires stream.pos <= |stream.data|
      modifies this`metadataCount, this`metadata, stream`pos
      ensures stream.pos <= |stream.data|
      ensures filling ==> var t := FillChunk(stream.data, old(stream.pos), id, size);
                          && Took(bytesRead, metadata, stream.pos) == Took(t.read, old(metadata) + t.items, t.at)
                          && metadataCount == old(metadataCount)
      ensures !filling ==> metadata == old(metadata)
                           && metadataCount == old(metadataCount) + CountChunk(stream.data, old(stream.pos), id, size)
    {
      hide *;
      ChunkCases(stream.data, stream.pos, id, size);
      if id == LIST || id == LIST_LOWER {
        bytesRead := ProcessList(size);
      } else if filling {
        bytesRead := FillTopChunk(id, size);
      } else {
        CountTopChunk(id, size);
        bytesRead := 0;
      }
    }
  }

  lemma WholeBext(img: seq<byte>, p: nat, size: nat, fields: seq<byte>, history: seq<byte>)
    requires size >= 602 && p + size <= |img| && fields == img[p..p + 602] && history == img[p + 602..p + size]
    ensures var r := img[p..p + size]; var h := UpToNul(history);
            ReadBext(r) == Broadcast(
              UpToNul(fields[..256]), UpToNul(fields[256..288]), UpToNul(fields[288..320]), fields[320..330],
              fields[330..338], GetU64(fields, 338), GetU16(fields, 346), fields[348..412], GetU16(fields, 412),
              GetU16(fields, 414), GetU16(fields, 416), GetU16(fields, 418), GetU16(fields, 420),
              |h| % 0x1_0000_0000, h)
  {
    hide UpToNul;
    var r := img[p..p + size];
    assert r[..602] == fields && r[602..] == history;
    SameSlices(r, fields, 256, 288, 320);
    SameSlices(r, fields, 320, 330, 338);
    SameSlices(r, fields, 348, 348, 412);
    assert forall k :: 0 <= k < 602 ==> r[k] == fields[k];
  }

  lemma SameSlices(r: seq<byte>, f: seq<byte>, i: nat, j: nat, k: nat)
    requires i <= j <= k <= |f| <= |r| && r[..|f|] == f
    ensures r[..i] == f[..i] && r[i..j] == f[i..j] && r[j..k] == f[j..k]
  {
    assert forall q :: 0 <= q < |f| ==> r[q] == r[..|f|][q] == f[q];
  }

  lemma ListFromCases(img: seq<byte>, s: ListState, size: nat, fill: bool)
    requires SaneList(img, s)
    ensures s.read >= size ==> ListFrom(img, s, size, fill) == s
    ensures var r := ListStep(img, s, fill);
            && SaneList(img, r.0) && r.0.at <= |img|
            && (r.1 ==> r.0.read > s.read)
            && (s.read < size ==> ListFrom(img, s, size, fill) == if r.1 then ListFrom(img, r.0, size, fill) else r.0)
  {
    hide ListStep;
  }

  lemma ChunkCases(img: seq<byte>, pos: nat, id: Id, size: nat)
    requires pos <= |img|
    ensures SaneList(img, ListStart(pos))
    ensures id == LIST || id == LIST_LOWER
            ==> var s := ListFrom(img, ListStart(pos), size, true);
                && FillChunk(img, pos, id, size) == Took(s.read, s.items, s.at)
                && CountChunk(img, pos, id, size) == ListFrom(img, ListStart(pos), size, false).count
    ensures id != LIST && id != LIST_LOWER
            ==> var g := FillTop(img, pos, id, size);
                && FillChunk(img, pos, id, size) == Took(g.read, g.items, pos + g.read)
                && CountChunk(img, pos, id, size) == CountTop(img, pos, id, size)
  {
    hide ListFrom, FillTop, CountTop;
  }

  lemma CountTopIs(img: seq<byte>, pos: nat, id: Id, size: nat)
    requires pos <= |img|
    ensures var c := CountTop(img, pos, id, size);
            if id == SMPL then c == if size >= 36 && pos + 36 <= |img| && GetU32(img, pos + 28) == (size - 36) / 24 then 1 else 0
            else if id == INST then c == if size == 7 then 1 else 0
            else if id == ACID then c == if size == 24 then 1 else 0
            else if id == CUE then c == if size >= 4 then 1 else 0
            else if id == BEXT then c == if size >= 602 && pos + 320 <= |img| then 1 else 0
            else c == if id == DATA || id == FMT || id == FACT then 0 else 1
  {
    hide GetU32;
  }

  lemma SubIs(img: seq<byte>, pos: nat, id: Id, size: nat, kind: ListType)
    requires pos <= |img| && (kind.Typed? ==> !kind.place.Top?)
    ensures InInfo != Top
    ensures var keep := if id == LABL || id == NOTE then size >= 4
                        else if id == LTXT then size >= 20
                        else KindOf(id).Some? || (kind.Typed? && id != DATA && id != FMT && id != FACT);
            var place := if kind.Typed? then kind.place else InInfo;
            && CountSub(id, size, kind) == (if keep then 1 else 0)
            && if !keep then FillSub(img, pos, id, size, kind) == Got(0, [])
               else if pos + size <= |img| then
                 FillSub(img, pos, id, size, kind) == Got(size, [WholeItem(id, place, img[pos..pos + size])])
               else FillSub(img, pos, id, size, kind) == Got(|img| - pos, [])
    ensures LABL != LTXT && NOTE != LTXT
  {
    hide WholeItem, InfoId;
    KnownIds();
    NotKinds();
  }

  lemma NotKinds()
    ensures KindOf(DATA).None? && KindOf(FMT).None? && KindOf(FACT).None?
    ensures !NotMetadata(LABL) && !NotMetadata(NOTE) && !NotMetadata(LTXT)
  {
  }

  /** ListStep, by the cases that the method goes through. */
  lemma TurnIs(img: seq<byte>, s: ListState, fill: bool)
    requires SaneList(img, s)
    ensures s.at <= |img| && s.read >= 0 && s.count >= 0 && s.at >= 0 && (s.kind.Typed? ==> !s.kind.place.Top?)
    ensures var p := s.at;
            var r := ListStep(img, s, fill);
            && (p + 4 > |img| ==> r == (s.(at := |img|, read := s.read + (|img| - p)), false))
            && (p + 4 <= |img| ==>
                  var id := img[p..p + 4];
                  && (id == ADTL ==> r == (s.(at := p + 4, read := s.read + 4, kind := Typed(InAdtl)), true))
                  && (id != ADTL && id == INFO ==> r == (s.(at := p + 4, read := s.read + 4, kind := Typed(InInfo)), true))
                  && (id != ADTL && id != INFO ==>
                        && (p + 8 > |img| ==> r == (s.(at := |img|, read := s.read + (|img| - p)), false))
                        && (p + 8 <= |img| ==>
                              var size := GetU32(img, p + 4);
                              var g := if fill then FillSub(img, p + 8, id, size, s.kind) else Got(0, []);
                              r == Skipped(img, s, p + 8 + g.read, size, g.read, s.items + g.items,
                                           s.count + CountSub(id, size, s.kind)))))
  {
    hide GetU32, FillSub, CountSub, Int32;
  }

  /** The end of a turn: past what was not read of the chunk, and past its padding. */
  ghost function Skipped(img: seq<byte>, s: ListState, at: int, size: int, got: int, items: seq<Metadata>, count: int):
    (ListState, bool)
    requires 0 <= at <= |img| && 0 <= got <= size && count >= 0
  {
    var to := if got < size then at + Int32(size - got) else at;
    if to < 0 || to > |img| then (ListState(at, s.read + 8 + got, s.kind, count, items), false)
    else if size % 2 == 1 && to + 1 > |img| then (ListState(to, s.read + 8 + size, s.kind, count, items), false)
    else if size % 2 == 1 then (ListState(to + 1, s.read + 8 + size + 1, s.kind, count, items), true)
    else (ListState(to, s.read + 8 + size, s.kind, count, items), true)
  }

  lemma SkippedIs(img: seq<byte>, s: ListState, at: int, size: int, got: int, items: seq<Metadata>, count: int)
    requires 0 <= at <= |img| && 0 <= got <= size && count >= 0
    ensures var to := if got < size then at + Int32(size - got) else at;
            var r := Skipped(img, s, at, size, got, items, count);
            && r.0.kind == s.kind && r.0.items == items && r.0.count == count
            && (to < 0 || to > |img| ==> r.0.at == at && r.0.read == s.read + 8 + got && !r.1)
            && (0 <= to <= |img| && size % 2 == 1 ==>
                  && r.1 == (to + 1 <= |img|)
                  && r.0.at == (if r.1 then to + 1 else to) && r.0.read == s.read + 8 + size + if r.1 then 1 else 0)
            && (0 <= to <= |img| && size % 2 != 1 ==> r.1 && r.0.at == to && r.0.read == s.read + 8 + size)
  {
    hide Int32;
  }

  lemma Appends(a: seq<Metadata>, b: seq<Metadata>, c: seq<Metadata>)
    ensures (a + b) + c == a + (b + c)
    ensures c == [] ==> a + (b + c) == a + b && b + c == b
  {
  }

  lemma AvailIs(img: seq<byte>, pos: nat, n: nat)
    requires pos <= |img|
    ensures Avail(img, pos, n) == if pos + n <= |img| then n else |img| - pos
    ensures 0 <= Avail(img, pos, n)
  {
  }

  /** FillTop, by the cases that the method goes through. */
  lemma TopChunkIs(img: seq<byte>, pos: nat, id: Id, size: nat)
    requires pos <= |img|
    ensures var g := FillTop(img, pos, id, size);
            && Top.Top?
            && (id == SMPL ==> if size >= 36 then g == FillSmpl(img, pos, size) else g == Got(0, []))
            && (id == CUE && id != SMPL && id != INST && id != ACID
                ==> if size >= 4 then g == FillCue(img, pos, size) else g == Got(0, []))
            && (id != SMPL && id != CUE ==>
                  if (id == INST && size != 7) || (id == ACID && size != 24) || (id == BEXT && size < 602)
                     || id == DATA || id == FMT || id == FACT
                  then g == Got(0, [])
                  else g == if pos + size <= |img| then Got(size, [WholeItem(id, Top, img[pos..pos + size])])
                            else Got(|img| - pos, []))
            && (id == BEXT && size >= 602 && pos + size <= |img|
                ==> WholeItem(id, Top, img[pos..pos + size]) == Bext(ReadBext(img[pos..pos + size])))
    ensures SMPL != INST && SMPL != ACID && SMPL != CUE && SMPL != BEXT && INST != ACID && INST != CUE && INST != BEXT
    ensures ACID != CUE && ACID != BEXT && CUE != BEXT
    ensures DATA !in {SMPL, INST, ACID, CUE, BEXT} && FMT !in {SMPL, INST, ACID, CUE, BEXT}
    ensures FACT !in {SMPL, INST, ACID, CUE, BEXT}
  {
    hide FillSmpl, FillCue, GetU32, ReadBext;
  }

  lemma LoopsFit(count: nat, size: nat)
    requires size >= 36 && count == (size - 36) / 24
    ensures 24 * count <= size - 36
  {
  }

  lemma BytesAtIs(img: seq<byte>, pos: nat, n: nat)
    requires pos <= |img|
    ensures var b := BytesAt(img, pos, n);
            |b| == Avail(img, pos, n) && pos + |b| <= |img| && b == img[pos..pos + |b|]
    ensures n == 0 ==> BytesAt(img, pos, n) == []
  {
  }

  lemma SmplChunkIs(img: seq<byte>, pos: nat, size: nat)
    requires pos <= |img| && size >= 36
    ensures var g := FillSmpl(img, pos, size);
            && (pos + 36 > |img| ==> g == Got(|img| - pos, []))
            && (pos + 36 <= |img| ==>
                  var n: nat, e: nat := GetU32(img, pos + 28), GetU32(img, pos + 32);
                  if n == (size - 36) / 24 then
                    var l: nat := Avail(img, pos + 36, 24 * n);
                    var x: nat := Avail(img, pos + 36 + l, e);
                    && pos + 36 + l + x <= |img|
                    && g.read == 36 + l + x
                    && (36 + l + x == size ==>
                          && l == 24 * n
                          && g.items == [Smpl(img[pos..pos + 28], n, e, ReadLoops(img, pos + 36, n),
                                              img[pos + 36 + l..pos + size])])
                    && (36 + l + x != size ==> g.items == [])
                  else g == Got(36, if size == 36 then [Smpl(img[pos..pos + 28], n, e, [], [])] else []))
  {
    hide GetU32, ReadLoops;
    AvailIs(img, pos, 36);
  }

  lemma HeadOf(img: seq<byte>, p: nat, b: seq<byte>)
    requires p + 36 <= |img| && b == img[p..p + 36]
    ensures GetU32(b, 28) == GetU32(img, p + 28) && GetU32(b, 32) == GetU32(img, p + 32)
    ensures b[..28] == img[p..p + 28]
  {
  }

  lemma U32Of(img: seq<byte>, p: nat, b: seq<byte>)
    requires p + 4 <= |img| && b == img[p..p + 4]
    ensures GetU32(b, 0) == GetU32(img, p)
  {
  }

  lemma PointOf(img: seq<byte>, p: nat, b: seq<byte>)
    requires p + 24 <= |img| && b == img[p..p + 24]
    ensures ReadPoint(b, 0) == ReadPoint(img, p)
  {
    hide GetU32;
    assert forall k :: 0 <= k < 24 ==> b[k] == img[p + k];
    assert b[8..12] == img[p + 8..p + 12];
    SixFields(img, p, b);
  }

  lemma LoopOf(img: seq<byte>, p: nat, b: seq<byte>)
    requires p + 24 <= |img| && b == img[p..p + 24]
    ensures ReadLoop(b, 0) == ReadLoop(img, p)
  {
    hide GetU32;
    SixFields(img, p, b);
  }

  lemma SixFields(img: seq<byte>, p: nat, b: seq<byte>)
    requires p + 24 <= |img| && b == img[p..p + 24]
    ensures GetU32(b, 0) == GetU32(img, p) && GetU32(b, 4) == GetU32(img, p + 4) && GetU32(b, 8) == GetU32(img, p + 8)
    ensures GetU32(b, 12) == GetU32(img, p + 12) && GetU32(b, 16) == GetU32(img, p + 16)
    ensures GetU32(b, 20) == GetU32(img, p + 20)
  {
  }
}
