/**
 Whole runs of a CVRingBuffer: any sequence of writes, reads and deletions, against a bounded queue. The
 buffer behaves like one exactly as long as it is not full when it is read, or when one entry is deleted.
 */
module RingBufferRuns {
  import opened Arith
  import opened RingBuffer

  /** writeBlock, readBlock and deleteBlock, with buffers that are there. */
  datatype Op<T> = Write(src: seq<T>, overwrite: bool) | Read(count: nat, delete: bool) | Delete(count: nat)

  /** What is in the buffer after an operation, and what the operation has handed out. */
  datatype Step<T> = Step(contents: seq<T>, out: seq<T>)

  /** Blocks larger than the buffer are refused. */
  function Wrote<T>(c: seq<T>, n: nat, src: seq<T>, overwrite: bool): (c': seq<T>)
    requires |c| <= n
    ensures |c'| <= n
  {
    if n < 1 || |src| > n then c else if overwrite then LastN(c + src, n) else Appended(c, n, src)
  }

  /** An operation of the buffer. */
  function OfBuffer<T>(c: seq<T>, n: nat, op: Op<T>): (s: Step<T>)
    requires |c| <= n
    ensures |s.contents| <= n
  {
    match op
    case Write(src, overwrite) => Step(Wrote(c, n, src, overwrite), [])
    case Read(count, delete) =>
      if count > n then Step(c, [])
      else var r := ReadCount(c, n, count); Step(Left(c, r, delete), c[..r])
    case Delete(count) => Step(if c == [] then [] else Erased(c, n, count), [])
  }

  /** The operation of a queue that holds up to `n` entries: whatever is read or deleted is the oldest there is. */
  function OfQueue<T>(c: seq<T>, n: nat, op: Op<T>): (s: Step<T>)
    requires |c| <= n
    ensures |s.contents| <= n
  {
    match op
    case Write(src, overwrite) => Step(Wrote(c, n, src, overwrite), [])
    case Read(count, delete) =>
      if count > n then Step(c, [])
      else var r := Min(count, |c|); Step(if delete then c[r..] else c, c[..r])
    case Delete(count) => Step(Drop(c, count), [])
  }

  /** Not a read of a full buffer, nor the deletion of one entry of it. */
  predicate InRoom<T>(c: seq<T>, n: nat, op: Op<T>) {
    |c| == n ==>
      && (op.Read? ==> op.count == 0 || op.count > n)
      && (op.Delete? ==> op.count != 1 || n <= 1)
  }

  lemma SameStepIff<T>(c: seq<T>, n: nat, op: Op<T>)
    requires |c| <= n
    ensures OfBuffer(c, n, op) == OfQueue(c, n, op) <==> InRoom(c, n, op)
  {
    hide Wrote;
    if op.Delete? && |c| == n {
      EraseDropsOldestIff(c, n, op.count);
    }
  }

  // ---- Runs ----

  function Run<T>(c: seq<T>, n: nat, ops: seq<Op<T>>, queue: bool): (steps: seq<Step<T>>)
    requires |c| <= n
    ensures |steps| == |ops|
    decreases |ops|
  {
    if ops == [] then []
    else
      var s := if queue then OfQueue(c, n, ops[0]) else OfBuffer(c, n, ops[0]);
      [s] + Run(s.contents, n, ops[1..], queue)
  }

  /** Never full at the wrong moment, by what a queue would hold. */
  predicate AlwaysInRoom<T>(c: seq<T>, n: nat, ops: seq<Op<T>>)
    requires |c| <= n
    decreases |ops|
  {
    ops == [] || (InRoom(c, n, ops[0]) && AlwaysInRoom(OfQueue(c, n, ops[0]).contents, n, ops[1..]))
  }

  /** A run of the buffer is a run of the queue if and only if there is always room when it matters. */
  lemma {:induction false} BufferIsQueueIff<T>(c: seq<T>, n: nat, ops: seq<Op<T>>)
    requires |c| <= n
    ensures Run(c, n, ops, false) == Run(c, n, ops, true) <==> AlwaysInRoom(c, n, ops)
    decreases |ops|
  {
    hide OfQueue, OfBuffer, InRoom;
    if ops != [] {
      SameStepIff(c, n, ops[0]);
      var s, t := OfBuffer(c, n, ops[0]), OfQueue(c, n, ops[0]);
      var a, b := [s] + Run(s.contents, n, ops[1..], false), [t] + Run(t.contents, n, ops[1..], true);
      assert a[0] == s && b[0] == t;
      if s == t {
        BufferIsQueueIff(s.contents, n, ops[1..]);
        assert a[1..] == Run(s.contents, n, ops[1..], false) && b[1..] == Run(s.contents, n, ops[1..], true);
      }
    }
  }

  // ---- Nothing is lost, doubled or out of order ----

  function Added<T>(c: seq<T>, n: nat, op: Op<T>): seq<T>
    requires |c| <= n
  {
    if !op.Write? || n < 1 || |op.src| > n then []
    else if op.overwrite then op.src
    else op.src[..Min(|op.src|, n - |c|)]
  }

  /** What goes: the oldest entries that are read with deletion, deleted, or overwritten. */
  function Removed<T>(c: seq<T>, n: nat, op: Op<T>): seq<T>
    requires |c| <= n
  {
    match op
    case Write(src, overwrite) =>
      if overwrite && 1 <= n && |src| <= n then c[..if |c| + |src| > n then |c| + |src| - n else 0] else []
    case Read(count, delete) => if delete && count <= n then c[..Min(count, |c|)] else []
    case Delete(count) => c[..Min(count, |c|)]
  }

  lemma StepConserves<T>(c: seq<T>, n: nat, op: Op<T>)
    requires |c| <= n
    ensures c + Added(c, n, op) == Removed(c, n, op) + OfQueue(c, n, op).contents
    ensures op.Read? && op.delete ==> OfQueue(c, n, op).out == Removed(c, n, op)
  {
    match op
    case Write(src, overwrite) => WriteConserves(c, n, src, overwrite);
    case Read(count, delete) => Cut(c, Min(count, |c|));
    case Delete(count) => Cut(c, Min(count, |c|));
  }

  lemma Cut<T>(c: seq<T>, k: nat)
    requires k <= |c|
    ensures c[..k] + c[k..] == c && c + [] == c && [] + c == c && c[..k] + [] == c[..k]
  {
  }

  lemma WriteConserves<T>(c: seq<T>, n: nat, src: seq<T>, overwrite: bool)
    requires |c| <= n
    ensures c + Added(c, n, Write(src, overwrite)) == Removed(c, n, Write(src, overwrite)) + Wrote(c, n, src, overwrite)
  {
    hide LastN;
    if n < 1 || |src| > n {
      Cut(c, 0);
    } else if !overwrite {
      NothingRemoved(c + src[..Min(|src|, n - |c|)]);
    } else {
      LastNCut(c, src, n);
    }
  }

  lemma NothingRemoved<T>(c: seq<T>)
    ensures [] + c == c
  {
  }

  lemma LastNCut<T>(c: seq<T>, src: seq<T>, n: nat)
    requires |c| <= n && |src| <= n
    ensures var k := if |c| + |src| > n then |c| + |src| - n else 0;
            k <= |c| && c[..k] + LastN(c + src, n) == c + src
  {
    var k := if |c| + |src| > n then |c| + |src| - n else 0;
    Cut(c + src, k);
    assert (c + src)[..k] == c[..k];
  }

  function AllAdded<T>(c: seq<T>, n: nat, ops: seq<Op<T>>): seq<T>
    requires |c| <= n
    decreases |ops|
  {
    if ops == [] then [] else Added(c, n, ops[0]) + AllAdded(OfQueue(c, n, ops[0]).contents, n, ops[1..])
  }

  function AllRemoved<T>(c: seq<T>, n: nat, ops: seq<Op<T>>): seq<T>
    requires |c| <= n
    decreases |ops|
  {
    if ops == [] then [] else Removed(c, n, ops[0]) + AllRemoved(OfQueue(c, n, ops[0]).contents, n, ops[1..])
  }

  /** What is left after a run. */
  function Final<T>(c: seq<T>, steps: seq<Step<T>>): seq<T> {
    if steps == [] then c else steps[|steps| - 1].contents
  }

  lemma FinalStep<T>(c: seq<T>, n: nat, ops: seq<Op<T>>)
    requires |c| <= n && ops != []
    ensures var t := OfQueue(c, n, ops[0]);
            Final(c, Run(c, n, ops, true)) == Final(t.contents, Run(t.contents, n, ops[1..], true))
  {
    hide OfQueue, OfBuffer;
    var t := OfQueue(c, n, ops[0]);
    assert Run(c, n, ops, true) == [t] + Run(t.contents, n, ops[1..], true);
  }

  /** Over any run, what was there and what came is, in order, what went and what is left. */
  lemma {:induction false} RunConserves<T>(c: seq<T>, n: nat, ops: seq<Op<T>>)
    requires |c| <= n
    ensures c + AllAdded(c, n, ops) == AllRemoved(c, n, ops) + Final(c, Run(c, n, ops, true))
    decreases |ops|
  {
    hide OfQueue, OfBuffer, Added, Removed;
    if ops == [] {
      assert c + [] == [] + c;
    } else {
      var t, rest := OfQueue(c, n, ops[0]), ops[1..];
      StepConserves(c, n, ops[0]);
      RunConserves(t.contents, n, rest);
      FinalStep(c, n, ops);
      Regrouped(c, Added(c, n, ops[0]), AllAdded(t.contents, n, rest), Removed(c, n, ops[0]), t.contents,
                AllRemoved(t.contents, n, rest), Final(t.contents, Run(t.contents, n, rest, true)));
    }
  }

  lemma Regrouped<T>(c: seq<T>, a: seq<T>, as': seq<T>, r: seq<T>, d: seq<T>, rs: seq<T>, end: seq<T>)
    requires c + a == r + d && d + as' == rs + end
    ensures c + (a + as') == (r + rs) + end
  {
    calc {
      c + (a + as');
      (c + a) + as';
      (r + d) + as';
      r + (d + as');
      r + (rs + end);
      (r + rs) + end;
    }
  }

  // ---- The class ----

  method Perform<T>(buffer: VRingBuffer<T>, op: Op<T>, zero: T) returns (out: seq<T>)
    requires buffer.Valid()
    modifies buffer, buffer.data
    ensures buffer.Valid() && buffer.data == old(buffer.data) && buffer.bufferSize == old(buffer.bufferSize)
    ensures Step(buffer.Contents(), out) == OfBuffer(old(buffer.Contents()), buffer.bufferSize, op)
  {
    out := [];
    match op
    case Write(src, overwrite) =>
      var source := new T[|src|](i requires 0 <= i < |src| => src[i]);
      assert source[..|src|] == src;
      var r := buffer.WriteBlock(source, |src|, overwrite);
    case Read(count, delete) =>
      var target := new T[count](_ => zero);
      var r := buffer.ReadBlock(target, count, delete);
      if r >= 0 {
        out := target[..r];
      }
    case Delete(count) =>
      var ok := buffer.DeleteBlock(count);
  }

  /** What each step has handed out. */
  function Outs<T>(steps: seq<Step<T>>): (outs: seq<seq<T>>)
    ensures |outs| == |steps|
  {
    if steps == [] then [] else [steps[0].out] + Outs(steps[1..])
  }

  lemma OutsStep<T>(c: seq<T>, n: nat, ops: seq<Op<T>>)
    requires |c| <= n
    ensures ops == [] ==> Outs(Run(c, n, ops, false)) == []
    ensures ops != [] ==> var s := OfBuffer(c, n, ops[0]);
                          Outs(Run(c, n, ops, false)) == [s.out] + Outs(Run(s.contents, n, ops[1..], false))
  {
    hide OfBuffer, OfQueue;
    if ops != [] {
      var s := OfBuffer(c, n, ops[0]);
      var steps := [s] + Run(s.contents, n, ops[1..], false);
      assert steps[0] == s && steps[1..] == Run(s.contents, n, ops[1..], false);
    }
  }

  lemma Shifted<T>(ops: seq<Op<T>>, i: nat)
    requires i < |ops|
    ensures ops[i..] != [] && ops[i..][0] == ops[i] && ops[i..][1..] == ops[i + 1..]
  {
  }

  lemma Chained<T>(a: seq<seq<T>>, x: seq<T>, b: seq<seq<T>>)
    ensures a + ([x] + b) == (a + [x]) + b && a + [] == a
  {
  }

  /** Any number of operations on a buffer that starts out empty hand out what a queue would, in room. */
  method PerformAll<T>(numEntries: nat, ops: seq<Op<T>>, zero: T) returns (outs: seq<seq<T>>)
    ensures outs == Outs(Run([], numEntries, ops, false))
    ensures AlwaysInRoom([], numEntries, ops) ==> outs == Outs(Run([], numEntries, ops, true))
  {
    hide *;
    BufferIsQueueIff([], numEntries, ops);
    var buffer := new VRingBuffer<T>(numEntries, zero);
    outs := [];
    var i := 0;
    while i < |ops|
      invariant i <= |ops| && buffer.Valid() && fresh(buffer) && fresh(buffer.data) && buffer.bufferSize == numEntries
      invariant |buffer.Contents()| <= numEntries
      invariant Outs(Run([], numEntries, ops, false)) == outs + Outs(Run(buffer.Contents(), numEntries, ops[i..], false))
    {
      ghost var c := buffer.Contents();
      Shifted(ops, i);
      OutsStep(c, numEntries, ops[i..]);
      var out := Perform(buffer, ops[i], zero);
      ghost var s := OfBuffer(c, numEntries, ops[i]);
      Chained(outs, s.out, Outs(Run(s.contents, numEntries, ops[i + 1..], false)));
      outs := outs + [out];
      i := i + 1;
    }
    OutsStep(buffer.Contents(), numEntries, ops[i..]);
  }
}
