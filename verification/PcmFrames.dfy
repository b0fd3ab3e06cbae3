/**
 PCM frames as the block decoders of dr_wav deliver them: one sample per channel, and buffers in
 which the samples of a frame follow those of the frame before.
 */
module PcmFrames {

  type Frame = seq<int>

  function Clamp(x: int, lo: int, hi: int): int {
    if x < lo then lo else if x > hi then hi else x
  }

  function Times(a: nat, b: nat): nat { a * b }

  lemma TimesStep(k: nat, n: nat)
    ensures Times(0, n) == 0 && Times(k + 1, n) == Times(k, n) + n && Times(k, n) >= 0
  {
  }

  function Quotient(a: nat, b: nat): nat
    requires b > 0
  {
    a / b
  }

  /** The number of blocks in a chunk, counting a trailing partial block. */
  function BlockCount(size: nat, blockAlign: nat): nat
    requires blockAlign > 0
  {
    var n := size / blockAlign;
    if n * blockAlign < size then n + 1 else n
  }

  type Count = n: nat | n > 0 witness 1

  function Sum(sizes: seq<Count>): nat {
    if sizes == [] then 0 else sizes[0] + Sum(sizes[1..])
  }

  lemma SumStep(sizes: seq<Count>)
    ensures Sum(sizes) == if sizes == [] then 0 else sizes[0] + Sum(sizes[1..])
  {
  }

  /** Frames as the caller's buffer holds them: the samples of one frame after those of the last. */
  function Flatten(f: seq<Frame>): seq<int> {
    if f == [] then [] else Flatten(f[..|f| - 1]) + f[|f| - 1]
  }

  lemma {:induction false} FlattenConcat(f: seq<Frame>, g: seq<Frame>)
    ensures Flatten(f + g) == Flatten(f) + Flatten(g)
    decreases |g|
  {
    if g == [] {
      assert f + g == f;
    } else {
      var g' := g[..|g| - 1];
      FlattenConcat(f, g');
      assert (f + g)[..|f + g| - 1] == f + g';
      assert Flatten(f + g) == Flatten(f + g') + g[|g| - 1];
    }
  }

  /** The first `n` of the frames, or all of them when there are fewer. */
  function Prefix(f: seq<Frame>, n: nat): seq<Frame> {
    if n < |f| then f[..n] else f
  }

  /** The frames after those. */
  function Rest(f: seq<Frame>, n: nat): seq<Frame> {
    if n < |f| then f[n..] else []
  }

  lemma PrefixAndRest(f: seq<Frame>, n: nat, k: nat)
    requires k == n <= |f| || k == |f| <= n
    ensures f[..k] == Prefix(f, n) && f[k..] == Rest(f, n) && |Prefix(f, n)| + |Rest(f, n)| == |f|
  {
  }

  lemma PrefixSplit(f: seq<Frame>, m: nat, n: nat)
    ensures Flatten(Prefix(f, m + n)) == Flatten(Prefix(f, m)) + Flatten(Prefix(Rest(f, m), n))
  {
    hide Flatten;
    assert Prefix(f, m + n) == Prefix(f, m) + Prefix(Rest(f, m), n);
    FlattenConcat(Prefix(f, m), Prefix(Rest(f, m), n));
  }

  lemma PrefixNone(f: seq<Frame>)
    ensures Flatten(Prefix(f, 0)) == []
  {
  }

  lemma FlattenEmpty(f: seq<Frame>)
    ensures Flatten(f[..0]) == []
  {
  }

  lemma FlattenSplit(f: seq<Frame>, m: nat, n: nat)
    requires m + n <= |f|
    ensures Flatten(f[..m + n]) == Flatten(f[..m]) + Flatten(f[m..][..n])
  {
    assert f[..m + n] == f[..m] + f[m..][..n];
    FlattenConcat(f[..m], f[m..][..n]);
  }

  lemma FlattenPush(f: seq<Frame>, n: nat)
    requires n < |f|
    ensures Flatten(f[..n + 1]) == Flatten(f[..n]) + f[n]
  {
    assert f[..n + 1][..n] == f[..n];
  }
}
