/**
 CVRingBuffer: a fixed-size array used as a wrapping FIFO with an optional overwrite mode.
 The class keeps the source's fields and loops; every method is proved against a function of
 the buffer's contents, oldest entry first.
 */
module RingBuffer {
  import opened Arith

  const INVALID_PARAM := -1
  const INVALID_BLOCK_SIZE := -2
  const INVALID_WRITE_SIZE := -3
  const OVERFLOW := -5

  /** Index `i` of a buffer of `n` entries, for an index that has passed the end at most once. */
  function Wrap(i: nat, n: nat): nat
    requires i < 2 * n
  {
    if i < n then i else i - n
  }

  /** The newest `n` entries of `s`, in order. */
  function LastN<T>(s: seq<T>, n: nat): seq<T> {
    if |s| <= n then s else s[|s| - n..]
  }

  /** `s` without its oldest `n` entries. */
  function Drop<T>(s: seq<T>, n: nat): seq<T> {
    if n <= |s| then s[n..] else []
  }

  /** What a capacity-`n` buffer holding `c` holds after `erase(count)`. */
  function Erased<T>(c: seq<T>, n: nat, count: nat): seq<T> {
    if count == 1 && |c| == n then [] else Drop(c, count)
  }

  /** How many entries a read of `count` entries delivers: a full buffer looks empty to it. */
  function ReadCount<T>(c: seq<T>, n: nat, count: nat): nat {
    if |c| == n then 0 else Min(count, |c|)
  }

  /** What the buffer holds after a write of `src` that does not overwrite. */
  function Appended<T>(c: seq<T>, n: nat, src: seq<T>): seq<T>
    requires |c| <= n
  {
    c + src[..Min(|src|, n - |c|)]
  }

  /** The `n` entries of the array `d` that start at index `r` and may wrap past its end. */
  ghost function View<T>(d: seq<T>, r: nat, n: nat): (v: seq<T>)
    requires n <= |d| && (r < |d| || n == 0)
    ensures |v| == n
  {
    seq(n, i requires 0 <= i < n && r < |d| && n <= |d| => d[Wrap(r + i, |d|)])
  }

  lemma ViewDrop<T>(d: seq<T>, r: nat, n: nat, k: nat)
    requires k <= n <= |d| && r < |d|
    ensures View(d, r, n)[k..] == View(d, Wrap(r + k, |d|), n - k)
  {
    forall i | 0 <= i < n - k ensures View(d, r, n)[k..][i] == View(d, Wrap(r + k, |d|), n - k)[i] {
      assert View(d, r, n)[k..][i] == View(d, r, n)[k + i];
      assert Wrap(r + (k + i), |d|) == Wrap(Wrap(r + k, |d|) + i, |d|);
    }
  }

  lemma ViewPush<T>(d: seq<T>, r: nat, n: nat, x: T)
    requires n < |d| && r < |d|
    ensures View(d[Wrap(r + n, |d|) := x], r, n + 1) == View(d, r, n) + [x]
  {
    var d' := d[Wrap(r + n, |d|) := x];
    forall i | 0 <= i < n ensures View(d', r, n + 1)[i] == View(d, r, n)[i] {
      assert Wrap(r + i, |d|) != Wrap(r + n, |d|);
    }
  }

  /** The write index the class maintains is (readIdx + currentDataSize) mod N. */
  lemma WrapIsModulo(i: nat, n: nat)
    requires i < 2 * n
    ensures Wrap(i, n) == i % n
  {
    if i >= n {
      assert i == 1 * n + (i - n);
    }
  }

  /** A reader's buffer `t` after the first `k` entries of `c` were copied to its front. */
  function Handed<T>(t: seq<T>, c: seq<T>, k: nat): seq<T>
    requires k <= |c| && k <= |t|
  {
    c[..k] + t[k..]
  }

  /** What is left of `c` once `k` entries were read, with or without deleting them. */
  function Left<T>(c: seq<T>, k: nat, deleted: bool): seq<T>
    requires k <= |c|
  {
    if deleted then c[k..] else c
  }

  lemma ReadNothing<T>(t: seq<T>, c: seq<T>, deleted: bool)
    ensures Handed(t, c, 0) == t && Left(c, 0, deleted) == c
  {
  }

  lemma ReadNext<T>(t: seq<T>, c: seq<T>, k: nat, x: T, deleted: bool)
    requires k < |c| && k < |t| && x == c[k]
    ensures |Handed(t, c, k)| == |t| && Handed(t, c, k)[k := x] == Handed(t, c, k + 1)
    ensures 0 < |Left(c, k, deleted)| <= |c| && Left(Left(c, k, deleted), 1, deleted) == Left(c, k + 1, deleted)
  {
  }

  lemma ErasedIs<T>(c: seq<T>, n: nat, count: nat)
    ensures Erased(c, n, count) == if (count == 1 && |c| == n) || count > |c| then [] else c[count..]
  {
  }

  lemma ViewNone<T>(d: seq<T>)
    ensures View(d, 0, 0) == []
  {
  }

  /** An index that has just been advanced, moved back to the start if it left the buffer. */
  function Restart(i: nat, n: nat): nat {
    if i >= n then 0 else i
  }

  lemma RestartIsWrap(r: nat, k: nat, n: nat)
    requires r < n && k < n
    ensures Restart(r, n) == Wrap(r, n) == r && Wrap(r + k, n) < n
    ensures Restart(Wrap(r + k, n) + 1, n) == Wrap(r + (k + 1), n)
  {
  }

  lemma ReadLimit<T>(c: seq<T>, n: nat, count: nat, k: nat)
    requires |c| <= n && k <= count && k <= |c|
    requires k == count || k == |c| || (k == 0 && |c| == n)
    requires k > 0 ==> |c| < n
    ensures k == ReadCount(c, n, count)
  {
  }

  /** Where a reader stands after `k` entries: on the write index exactly when it has seen them all. */
  lemma ViewAt<T>(d: seq<T>, r: nat, n: nat, k: nat)
    requires k <= n <= |d| && r < |d|
    ensures k < n ==> View(d, r, n)[k] == d[Wrap(r + k, |d|)]
    ensures Wrap(r + k, |d|) == Wrap(r + n, |d|) <==> k == n || (k == 0 && n == |d|)
  {
  }

  /** What the buffer holds after the first `k` entries of `src` were written over the oldest ones. */
  function Written<T>(c: seq<T>, n: nat, src: seq<T>, k: nat): seq<T>
    requires k <= |src|
  {
    LastN(c + src[..k], n)
  }

  lemma WrittenNothing<T>(c: seq<T>, n: nat, src: seq<T>)
    requires |c| <= n
    ensures Written(c, n, src, 0) == c
  {
    assert c + src[..0] == c;
  }

  lemma WrittenNext<T>(c: seq<T>, n: nat, src: seq<T>, k: nat)
    requires k < |src|
    ensures Written(c, n, src, k + 1) == LastN(Written(c, n, src, k) + [src[k]], n)
    ensures |Written(c, n, src, k)| == if |c| + k <= n then |c| + k else n
  {
    LastNOfLastN(c + src[..k], [src[k]], n);
    assert c + src[..k] + [src[k]] == c + src[..k + 1];
  }

  lemma WrittenSoFar<T>(c: seq<T>, n: nat, src: seq<T>, k: nat)
    requires |c| <= n && k <= |src|
    ensures k <= n - |c| ==> Written(c, n, src, k) == c + src[..k]
    ensures k == n - |c| || k == |src| <= n - |c| ==> Written(c, n, src, k) == Appended(c, n, src)
    ensures k == |src| ==> Written(c, n, src, k) == LastN(c + src, n)
  {
    assert src[..|src|] == src;
  }

  lemma LastNAtMost<T>(s: seq<T>, n: nat)
    ensures |LastN(s, n)| <= n && (|s| <= n ==> LastN(s, n) == s)
  {
  }

  lemma LastNPush<T>(s: seq<T>, x: T, n: nat)
    requires |s| <= n && n > 0
    ensures LastN(s + [x], n) == if |s| < n then s + [x] else s[1..] + [x]
  {
  }

  lemma LastNOfLastN<T>(s: seq<T>, t: seq<T>, n: nat)
    ensures LastN(LastN(s, n) + t, n) == LastN(s + t, n)
  {
  }

  class VRingBuffer<T> {
    var data: array<T>
    var bufferSize: nat
    var currentDataSize: nat
    var writeIdx: nat
    var readIdx: nat

    ghost predicate Valid()
      reads this, data
    {
      && bufferSize == data.Length
      && currentDataSize <= bufferSize
      && (bufferSize == 0 ==> readIdx == writeIdx == 0)
      && (bufferSize > 0 ==>
            readIdx < bufferSize && writeIdx == Wrap(readIdx + currentDataSize, bufferSize))
    }

    /** The stored entries, oldest first. */
    ghost function Contents(): (c: seq<T>)
      requires Valid()
      reads this, data
      ensures |c| == currentDataSize
    {
      View(data[..], readIdx, currentDataSize)
    }

    lemma ContentsView()
      requires Valid() && bufferSize > 0
      ensures |Contents()| == currentDataSize <= bufferSize == data.Length && readIdx < bufferSize
      ensures Contents() == View(data[..], readIdx, |Contents()|)
      ensures writeIdx == Wrap(readIdx + |Contents()|, bufferSize)
    {
    }

    constructor (numEntries: nat, zero: T)
      ensures Valid() && fresh(data)
      ensures bufferSize == numEntries && Contents() == []
    {
      data := new T[numEntries](_ => zero);
      bufferSize := numEntries;
      currentDataSize, writeIdx, readIdx := 0, 0, 0;
    }

    method Flush(zeroOutBuffer: bool, zero: T) returns (ok: bool)
      requires Valid()
      modifies this`currentDataSize, this`writeIdx, this`readIdx, data
      ensures Valid() && Contents() == []
      ensures zeroOutBuffer && bufferSize > 0 ==> forall i :: 0 <= i < data.Length ==> data[i] == zero
      ensures !zeroOutBuffer ==> data[..] == old(data[..])
      ensures ok  // the source returns -1 as a bool when the buffer has no entries
    {
      currentDataSize, writeIdx, readIdx := 0, 0, 0;
      if !zeroOutBuffer {
        return true;
      }
      if bufferSize < 1 {
        return true;
      }
      forall i | 0 <= i < data.Length {
        data[i] := zero;
      }
      ok := true;
    }

    method Erase(numEntries: nat) returns (ok: bool)
      requires Valid()
      modifies this`currentDataSize, this`writeIdx, this`readIdx
      ensures Valid()
      ensures old(Contents()) == [] ==> !ok && Contents() == []
      ensures old(Contents()) != [] ==>
                && Contents() == Erased(old(Contents()), bufferSize, numEntries)
                && ok == (numEntries == 1 || numEntries <= bufferSize)
      ensures old(0 < currentDataSize < bufferSize) && numEntries == 1 ==>
                writeIdx == old(writeIdx) && readIdx == Wrap(old(readIdx) + 1, bufferSize)
    {
      if data.Length < 1 || currentDataSize < 1 {
        return false;
      }
      hide View, Erased, Drop;
      ghost var c := Contents();
      ErasedIs(c, bufferSize, numEntries);
      ViewNone(data[..]);
      if numEntries <= currentDataSize {
        ViewDrop(data[..], readIdx, currentDataSize, numEntries);
      }
      if numEntries == 1 {
        if readIdx == writeIdx {
          readIdx, writeIdx, currentDataSize := 0, 0, 0;
          return true;
        }
        readIdx := Restart(readIdx + 1, data.Length);
        if currentDataSize > 0 {
          currentDataSize := currentDataSize - 1;
        }
      } else {
        if numEntries > data.Length {
          readIdx, writeIdx, currentDataSize := 0, 0, 0;
          return false;
        }
        if numEntries > currentDataSize {
          readIdx, writeIdx, currentDataSize := 0, 0, 0;
        } else {
          readIdx := Wrap(readIdx + numEntries, data.Length);
          currentDataSize := if currentDataSize > numEntries then currentDataSize - numEntries else 0;
        }
      }
      ok := true;
    }

    method DeleteEntry() returns (ok: bool)
      requires Valid()
      modifies this`currentDataSize, this`writeIdx, this`readIdx
      ensures Valid()
      ensures old(Contents()) == [] ==> !ok && Contents() == []
      ensures old(Contents()) != [] ==> ok && Contents() == Erased(old(Contents()), bufferSize, 1)
    {
      ok := Erase(1);
    }

    method DeleteBlock(numEntries: nat) returns (ok: bool)
      requires Valid()
      modifies this`currentDataSize, this`writeIdx, this`readIdx
      ensures Valid()
      ensures old(Contents()) == [] ==> !ok && Contents() == []
      ensures old(Contents()) != [] ==>
                Contents() == Erased(old(Contents()), bufferSize, numEntries) && ok == (numEntries <= bufferSize)
    {
      ok := Erase(numEntries);
    }

    /** The body of readBlock's copy loop: hand out one entry and, on request, delete the oldest one. */
    method CopyEntry(target: array<T>, k: nat, idx: nat, deleteEntry: bool)
      requires Valid() && idx < data.Length
      requires target != data && k < target.Length
      requires 0 < currentDataSize && (deleteEntry ==> currentDataSize < bufferSize)
      modifies this`currentDataSize, this`writeIdx, this`readIdx, target
      ensures Valid() && writeIdx == old(writeIdx)
      ensures target[..] == old(target[..])[k := data[idx]]
      ensures Contents() == Left(old(Contents()), 1, deleteEntry)
    {
      target[k] := data[idx];
      if deleteEntry {
        var _ := Erase(1);
      }
    }

    /** The copy loop shared by both overloads of readBlock. */
    method ReadEntries(target: array<T>, numEntriesToRead: nat, deleteEntries: bool) returns (entriesRead: nat)
      requires Valid() && bufferSize > 0
      requires target != data && numEntriesToRead <= target.Length
      modifies this`currentDataSize, this`writeIdx, this`readIdx, target
      ensures Valid()
      ensures entriesRead == ReadCount(old(Contents()), bufferSize, numEntriesToRead)
      ensures entriesRead <= |old(Contents())|
      ensures target[..] == Handed(old(target[..]), old(Contents()), entriesRead)
      ensures Contents() == Left(old(Contents()), entriesRead, deleteEntries)
      ensures data[..] == old(data[..])
    {
      hide *;
      ContentsView();
      ghost var c, r0, d, t0 := Contents(), readIdx, data[..], target[..];
      var currentReadIdx: nat := readIdx;
      ReadNothing(t0, c, deleteEntries);
      RestartIsWrap(r0, 0, bufferSize);
      entriesRead := 0;
      while entriesRead < numEntriesToRead
        invariant Valid() && data[..] == d && target.Length == |t0|
        invariant entriesRead <= numEntriesToRead && entriesRead <= |c| && (entriesRead > 0 ==> |c| < bufferSize)
        invariant 0 <= currentReadIdx && Restart(currentReadIdx, bufferSize) == Wrap(r0 + entriesRead, bufferSize)
        invariant Contents() == Left(c, entriesRead, deleteEntries)
        invariant target[..] == Handed(t0, c, entriesRead)
        invariant writeIdx == Wrap(r0 + |c|, bufferSize)
      {
        currentReadIdx := Restart(currentReadIdx, bufferSize);
        ViewAt(d, r0, |c|, entriesRead);
        if currentReadIdx == writeIdx {
          break;
        }
        RestartIsWrap(r0, entriesRead, bufferSize);
        ReadNext(t0, c, entriesRead, d[currentReadIdx], deleteEntries);
        CopyEntry(target, entriesRead, currentReadIdx, deleteEntries);
        currentReadIdx := currentReadIdx + 1;
        entriesRead := entriesRead + 1;
      }
      ReadLimit(c, bufferSize, numEntriesToRead, entriesRead);
    }

    /** readBlock(pTargetBuff, blockSize, deleteEntries). */
    method ReadBlock(target: array?<T>, blockSize: nat, deleteEntries: bool) returns (r: int)
      requires Valid()
      requires target != null ==> target != data && blockSize <= target.Length
      modifies this`currentDataSize, this`writeIdx, this`readIdx, if target == null then {} else {target}
      ensures Valid() && data[..] == old(data[..])
      ensures target == null || bufferSize < 1 || blockSize > bufferSize ==>
                r == -1 && Contents() == old(Contents())
      ensures target != null && 1 <= bufferSize && blockSize <= bufferSize ==>
                && r == ReadCount(old(Contents()), bufferSize, blockSize)
                && target[..] == Handed(old(target[..]), old(Contents()), r)
                && Contents() == Left(old(Contents()), r, deleteEntries)
    {
      if target == null {
        return INVALID_PARAM;
      }
      if bufferSize < 1 || blockSize > bufferSize {
        return INVALID_PARAM;
      }
      if currentDataSize < 1 {
        return 0;
      }
      r := ReadEntries(target, blockSize, deleteEntries);
    }

    /** readBlock(pTargetBuff, entriesPerBlock, blockSize, deleteEntries). */
    method ReadFrames(target: array?<T>, entriesPerBlock: nat, blockSize: nat, deleteEntries: bool) returns (r: int)
      requires Valid()
      requires target != null ==> target != data && entriesPerBlock * blockSize <= target.Length
      modifies this`currentDataSize, this`writeIdx, this`readIdx, if target == null then {} else {target}
      ensures Valid() && data[..] == old(data[..])
      ensures target == null || bufferSize < 1 || blockSize > bufferSize ==>
                r == -1 && Contents() == old(Contents())
      ensures target != null && 1 <= bufferSize && blockSize <= bufferSize ==>
                && r == ReadCount(old(Contents()), bufferSize, entriesPerBlock * blockSize)
                && target[..] == Handed(old(target[..]), old(Contents()), r)
                && Contents() == Left(old(Contents()), r, deleteEntries)
    {
      if target == null {
        return INVALID_PARAM;
      }
      if bufferSize < 1 || blockSize > bufferSize {
        return INVALID_PARAM;
      }
      if currentDataSize < 1 {
        return 0;
      }
      r := ReadEntries(target, entriesPerBlock * blockSize, deleteEntries);
    }

    /** One pass through the copy loop of writeBlock; `ok` is false when the loop must stop. */
    method WriteEntry(x: T, overwrite: bool) returns (ok: bool)
      requires Valid() && bufferSize > 0
      modifies this`currentDataSize, this`writeIdx, this`readIdx, data
      ensures Valid()
      ensures ok == (overwrite || old(currentDataSize) < bufferSize)
      ensures Contents() == if ok then LastN(old(Contents()) + [x], bufferSize) else old(Contents())
    {
      hide View, LastN;
      LastNPush(Contents(), x, bufferSize);
      if writeIdx == readIdx && currentDataSize > 0 {
        if !overwrite {
          return false;
        }
        ViewDrop(data[..], readIdx, currentDataSize, 1);
        readIdx := Restart(readIdx + 1, bufferSize);
      }
      ViewPush(data[..], readIdx, if currentDataSize < bufferSize then currentDataSize else bufferSize - 1, x);
      data[writeIdx] := x;
      if currentDataSize < bufferSize {
        currentDataSize := currentDataSize + 1;
      } else if !overwrite {
        assert false;
      }
      writeIdx := Restart(writeIdx + 1, bufferSize);
      ok := true;
    }

    /** The copy loop shared by both overloads of writeBlock. */
    method WriteEntries(source: array<T>, writeSize: nat, overwrite: bool) returns (r: int)
      requires Valid() && bufferSize > 0
      requires source != data && writeSize <= source.Length
      modifies this`currentDataSize, this`writeIdx, this`readIdx, data
      ensures Valid()
      ensures overwrite ==>
                r == writeSize && Contents() == LastN(old(Contents()) + source[..writeSize], bufferSize)
      ensures !overwrite ==>
                && r == (if writeSize <= bufferSize - old(currentDataSize) then writeSize else OVERFLOW)
                && Contents() == Appended(old(Contents()), bufferSize, source[..writeSize])
    {
      hide *;
      ContentsView();
      ghost var c, src := Contents(), source[..writeSize];
      WrittenNothing(c, bufferSize, src);
      var entriesWritten := 0;
      while entriesWritten < writeSize
        invariant Valid() && entriesWritten <= writeSize
        invariant overwrite || entriesWritten <= bufferSize - |c|
        invariant source[..writeSize] == src
        invariant Contents() == Written(c, bufferSize, src, entriesWritten)
      {
        WrittenNext(c, bufferSize, src, entriesWritten);
        var ok := WriteEntry(source[entriesWritten], overwrite);
        if !ok {
          WrittenSoFar(c, bufferSize, src, entriesWritten);
          return OVERFLOW;
        }
        entriesWritten := entriesWritten + 1;
      }
      WrittenSoFar(c, bufferSize, src, writeSize);
      r := entriesWritten;
    }

    /** writeBlock(pSourceBuff, blockSize, bOverwrite). */
    method WriteBlock(source: array?<T>, blockSize: nat, overwrite: bool) returns (r: int)
      requires Valid()
      requires source != null ==> source != data && blockSize <= source.Length
      modifies this`currentDataSize, this`writeIdx, this`readIdx, data
      ensures Valid()
      ensures source == null ==> r == -1 && Contents() == old(Contents())
      ensures source != null && (bufferSize < 1 || blockSize > bufferSize) ==>
                r == -2 && Contents() == old(Contents())
      ensures source != null && 1 <= bufferSize && blockSize <= bufferSize ==>
                if overwrite then
                  r == blockSize && Contents() == LastN(old(Contents()) + source[..blockSize], bufferSize)
                else
                  && r == (if blockSize <= bufferSize - old(currentDataSize) then blockSize else -5)
                  && Contents() == Appended(old(Contents()), bufferSize, source[..blockSize])
    {
      if source == null {
        return INVALID_PARAM;
      }
      if bufferSize < 1 || blockSize > bufferSize {
        return INVALID_BLOCK_SIZE;
      }
      r := WriteEntries(source, blockSize, overwrite);
    }

    /** writeBlock(pSourceBuff, entriesPerBlock, blockSize, bOverwrite). */
    method WriteFrames(source: array?<T>, entriesPerBlock: nat, blockSize: nat, overwrite: bool) returns (r: int)
      requires Valid()
      requires source != null ==> source != data && entriesPerBlock * blockSize <= source.Length
      modifies this`currentDataSize, this`writeIdx, this`readIdx, data
      ensures Valid()
      ensures source == null ==> r == -1 && Contents() == old(Contents())
      ensures source != null && (bufferSize < 1 || blockSize > bufferSize) ==>
                r == -2 && Contents() == old(Contents())
      ensures source != null && 1 <= bufferSize && blockSize <= bufferSize ==>
                var n := entriesPerBlock * blockSize;
                if n < 1 || n >= bufferSize then r == -3 && Contents() == old(Contents())
                else if overwrite then
                  r == n && Contents() == LastN(old(Contents()) + source[..n], bufferSize)
                else
                  && r == (if n <= bufferSize - old(currentDataSize) then n else -5)
                  && Contents() == Appended(old(Contents()), bufferSize, source[..n])
    {
      if source == null {
        return INVALID_PARAM;
      }
      if bufferSize < 1 || blockSize > bufferSize {
        return INVALID_BLOCK_SIZE;
      }
      var writeSize := entriesPerBlock * blockSize;
      if writeSize < 1 || writeSize >= bufferSize {
        return INVALID_WRITE_SIZE;
      }
      r := WriteEntries(source, writeSize, overwrite);
    }
  }

  function Concat<T>(blocks: seq<seq<T>>): seq<T> {
    if blocks == [] then [] else blocks[0] + Concat(blocks[1..])
  }

  /** The contents after a run of overwriting writes, one block after the other. */
  function AfterOverwrites<T>(c: seq<T>, n: nat, blocks: seq<seq<T>>): seq<T>
    decreases |blocks|
  {
    if blocks == [] then c else AfterOverwrites(LastN(c + blocks[0], n), n, blocks[1..])
  }

  lemma ConcatStep<T>(c: seq<T>, n: nat, blocks: seq<seq<T>>)
    ensures blocks == [] ==> AfterOverwrites(c, n, blocks) == c && c + Concat(blocks) == c
    ensures blocks != [] ==>
              && AfterOverwrites(c, n, blocks) == AfterOverwrites(LastN(c + blocks[0], n), n, blocks[1..])
              && c + Concat(blocks) == c + blocks[0] + Concat(blocks[1..])
  {
    hide LastN;
  }

  /** Over a whole run, overwriting keeps exactly the newest `n` entries of everything written. */
  lemma {:induction false} OverwritesKeepNewest<T>(c: seq<T>, n: nat, blocks: seq<seq<T>>)
    requires |c| <= n
    ensures AfterOverwrites(c, n, blocks) == LastN(c + Concat(blocks), n)
    decreases |blocks|
  {
    hide *;
    LastNAtMost(c, n);
    ConcatStep(c, n, blocks);
    if blocks != [] {
      LastNAtMost(c + blocks[0], n);
      OverwritesKeepNewest(LastN(c + blocks[0], n), n, blocks[1..]);
      LastNOfLastN(c + blocks[0], Concat(blocks[1..]), n);
    }
  }

  /**
   `erase` removes exactly the oldest `count` entries, except that deleting a single entry of a
   full buffer of two or more entries empties it.
   */
  lemma EraseDropsOldestIff<T>(c: seq<T>, n: nat, count: nat)
    requires |c| <= n
    ensures Erased(c, n, count) == Drop(c, count) <==> !(count == 1 && |c| == n && n > 1)
  {
    if count == 1 && |c| == n && n > 1 {
      assert |Drop(c, 1)| == n - 1;
    }
  }
}
