/**
 A memory image that is read and sought in: dr_wav's `drwav__on_read_memory`, `drwav__on_seek_memory`,
 and the helpers that seek further than an int reaches.
 */
module WavStream {
  import opened Bytes
  import opened WavMetadataParser

  /** The bytes there are, of the `n` at `pos`. */
  function BytesAt(img: seq<byte>, pos: nat, n: nat): (b: seq<byte>)
    requires pos <= |img|
    ensures |b| == Avail(img, pos, n)
  {
    img[pos..pos + Avail(img, pos, n)]
  }

  class MemoryStream {
    const data: seq<byte>
    var pos: nat

    constructor (data: seq<byte>)
      ensures this.data == data && pos == 0
    {
      this.data, this.pos := data, 0;
    }

    /** drwav__on_read_memory. */
    method Read(n: nat) returns (b: seq<byte>)
      requires pos <= |data|
      modifies this`pos
      ensures b == BytesAt(data, old(pos), n) && pos == old(pos) + |b| <= |data|
    {
      var bytesToRead := n;
      var bytesRemaining := |data| - pos;
      if bytesToRead > bytesRemaining {
        bytesToRead := bytesRemaining;
      }
      b := data[pos..pos + bytesToRead];
      pos := pos + bytesToRead;
    }

    /** drwav__on_seek_memory, forward from the current position. */
    method SeekOn(n: nat) returns (ok: bool)
      requires pos <= |data|
      modifies this`pos
      ensures ok == (old(pos) + n <= |data|) && pos == old(pos) + if ok then n else 0
    {
      ok := pos + n <= |data|;
      if ok {
        pos := pos + n;
      }
    }

    /** drwav__on_seek_memory from the current position, either way. */
    method SeekBy(offset: int) returns (ok: bool)
      requires pos <= |data|
      modifies this`pos
      ensures ok == (0 <= old(pos) + offset <= |data|) && pos == old(pos) + if ok then offset else 0
    {
      ok := if offset > 0 then pos + offset <= |data| else pos >= -offset;
      if ok {
        pos := pos + offset;
      }
    }

    /** drwav__on_seek_memory from the start. */
    method SeekTo(n: nat) returns (ok: bool)
      modifies this`pos
      ensures ok == (n <= |data|) && pos == if ok then n else old(pos)
    {
      ok := n <= |data|;
      if ok {
        pos := n;
      }
    }

    /** drwav__seek_forward. */
    method SeekForward(offset: nat) returns (ok: bool)
      requires pos <= |data|
      modifies this`pos
      ensures ok == (old(pos) + offset <= |data|) && pos <= |data|
      ensures ok ==> pos == old(pos) + offset
    {
      var left := offset;
      while left > 0
        invariant pos <= |data| && pos + left == old(pos) + offset
      {
        if left > 0x7FFF_FFFF {
          ok := SeekOn(0x7FFF_FFFF);
          if !ok {
            return;
          }
          left := left - 0x7FFF_FFFF;
        } else {
          ok := SeekOn(left);
          if !ok {
            return;
          }
          left := 0;
        }
      }
      ok := true;
    }

    /** drwav__seek_from_start. */
    method SeekFromStart(offset0: nat) returns (ok: bool)
      requires pos <= |data|
      modifies this`pos
      ensures ok == (offset0 <= |data|) && pos <= |data|
      ensures ok ==> pos == offset0
    {
      var offset := offset0;
      if offset <= 0x7FFF_FFFF {
        ok := SeekTo(offset);
        return;
      }
      ok := SeekTo(0x7FFF_FFFF);
      if !ok {
        return;
      }
      offset := offset - 0x7FFF_FFFF;
      while offset > 0x7FFF_FFFF
        invariant pos <= |data| && pos + offset == offset0
      {
        ok := SeekOn(0x7FFF_FFFF);
        if !ok {
          return;
        }
        offset := offset - 0x7FFF_FFFF;
      }
      ok := SeekOn(offset);
    }
  }
}
