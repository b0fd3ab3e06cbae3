/**
 The reordering of short blocks, `drmp3_L3_reorder` of dr_mp3: within each scale factor band the
 three windows, stored one after the other, are interleaved line by line.
 */
module Reorder {

  // ---- The bands ----

  /** A table of triples that ends with a zero where a triple would start. */
  predicate Terminated(sfb: seq<nat>) {
    |sfb| > 0 && (sfb[0] == 0 || (|sfb| >= 4 && Terminated(sfb[3..])))
  }

  /** The band widths: the first entry of each triple. */
  function Widths(sfb: seq<nat>): (w: seq<nat>)
    requires Terminated(sfb)
    ensures forall i :: 0 <= i < |w| ==> w[i] > 0
  {
    if sfb[0] == 0 then [] else [sfb[0]] + Widths(sfb[3..])
  }

  /** There is a band for each triple before the first that starts with zero; its width is the triple's first entry. */
  lemma {:induction false} WidthsAt(sfb: seq<nat>)
    requires Terminated(sfb)
    ensures 3 * |Widths(sfb)| < |sfb| && sfb[3 * |Widths(sfb)|] == 0
    ensures forall i :: 0 <= i < |Widths(sfb)| ==> Widths(sfb)[i] == sfb[3 * i] > 0
  {
    if sfb[0] != 0 {
      WidthsAt(sfb[3..]);
    }
  }

  /** The samples that bands of these widths span. */
  function Span(widths: seq<nat>): nat {
    if widths == [] then 0 else 3 * widths[0] + Span(widths[1..])
  }

  // ---- Interleaving three windows ----

  function Weave<T>(a: seq<T>, b: seq<T>, c: seq<T>): seq<T>
    requires |a| == |b| == |c|
  {
    if a == [] then []
    else Weave(a[..|a| - 1], b[..|a| - 1], c[..|a| - 1]) + [a[|a| - 1], b[|a| - 1], c[|a| - 1]]
  }

  lemma {:induction false} WeaveLength<T>(a: seq<T>, b: seq<T>, c: seq<T>)
    requires |a| == |b| == |c|
    ensures |Weave(a, b, c)| == 3 * |a|
  {
    if a != [] {
      WeaveLength(a[..|a| - 1], b[..|a| - 1], c[..|a| - 1]);
    }
  }

  /** Line `i` of the three windows becomes the samples 3i, 3i + 1 and 3i + 2. */
  lemma {:induction false} WeaveAt<T>(a: seq<T>, b: seq<T>, c: seq<T>, i: nat)
    requires |a| == |b| == |c| && i < |a|
    ensures |Weave(a, b, c)| == 3 * |a|
    ensures var r := Weave(a, b, c); r[3 * i] == a[i] && r[3 * i + 1] == b[i] && r[3 * i + 2] == c[i]
  {
    WeaveLength(a, b, c);
    WeaveLength(a[..|a| - 1], b[..|a| - 1], c[..|a| - 1]);
    if i < |a| - 1 {
      WeaveAt(a[..|a| - 1], b[..|a| - 1], c[..|a| - 1], i);
    }
  }

  lemma {:induction false} WeaveMultiset<T>(a: seq<T>, b: seq<T>, c: seq<T>)
    requires |a| == |b| == |c|
    ensures multiset(Weave(a, b, c)) == multiset(a) + multiset(b) + multiset(c)
  {
    if a != [] {
      var n := |a| - 1;
      WeaveMultiset(a[..n], b[..n], c[..n]);
      hide *;
      var w := Weave(a[..n], b[..n], c[..n]);
      WeaveStep(a, b, c);
      Joined(w, [a[n], b[n], c[n]]);
      Triple(a[n], b[n], c[n]);
      LastApart(a);
      LastApart(b);
      LastApart(c);
      Regroup(multiset(a[..n]), multiset(b[..n]), multiset(c[..n]), multiset{a[n]}, multiset{b[n]}, multiset{c[n]});
    }
  }

  lemma WeaveStep<T>(a: seq<T>, b: seq<T>, c: seq<T>)
    requires |a| == |b| == |c| && a != []
    ensures var n := |a| - 1; Weave(a, b, c) == Weave(a[..n], b[..n], c[..n]) + [a[n], b[n], c[n]]
  {
  }

  lemma Joined<T>(s: seq<T>, t: seq<T>)
    ensures multiset(s + t) == multiset(s) + multiset(t)
  {
  }

  lemma Triple<T>(x: T, y: T, z: T)
    ensures multiset([x, y, z]) == multiset{x} + multiset{y} + multiset{z}
  {
    assert [x, y, z] == [x] + [y] + [z];
  }

  lemma LastApart<T>(s: seq<T>)
    requires s != []
    ensures multiset(s) == multiset(s[..|s| - 1]) + multiset{s[|s| - 1]}
  {
    assert s == s[..|s| - 1] + [s[|s| - 1]];
  }

  lemma Regroup<T>(a: multiset<T>, b: multiset<T>, c: multiset<T>, x: multiset<T>, y: multiset<T>, z: multiset<T>)
    ensures (a + b + c) + (x + y + z) == (a + x) + (b + y) + (c + z)
  {
  }

  /** Every third sample, starting at `w`: window `w` of a band that has been interleaved. */
  function Window<T>(s: seq<T>, n: nat, w: nat): (r: seq<T>)
    requires |s| == 3 * n && w < 3
    ensures |r| == n
  {
    seq(n, i requires 0 <= i < n => s[3 * i + w])
  }

  lemma WindowsOfWeave<T>(a: seq<T>, b: seq<T>, c: seq<T>)
    requires |a| == |b| == |c|
    ensures |Weave(a, b, c)| == 3 * |a|
    ensures var r := Weave(a, b, c); Window(r, |a|, 0) == a && Window(r, |a|, 1) == b && Window(r, |a|, 2) == c
  {
    WeaveLength(a, b, c);
    forall i | 0 <= i < |a|
      ensures Weave(a, b, c)[3 * i] == a[i] && Weave(a, b, c)[3 * i + 1] == b[i] && Weave(a, b, c)[3 * i + 2] == c[i]
    {
      WeaveAt(a, b, c, i);
    }
  }

  lemma WeaveOfWindows<T>(s: seq<T>, n: nat)
    requires |s| == 3 * n
    ensures Weave(Window(s, n, 0), Window(s, n, 1), Window(s, n, 2)) == s
  {
    var a, b, c := Window(s, n, 0), Window(s, n, 1), Window(s, n, 2);
    WeaveLength(a, b, c);
    forall k | 0 <= k < |s| ensures Weave(a, b, c)[k] == s[k] {
      WeaveAt(a, b, c, k / 3);
      assert k == 3 * (k / 3) + k % 3;
    }
  }

  // ---- The whole transformation, and its inverse ----

  function Band<T>(s: seq<T>, n: nat): seq<T>
    requires 3 * n <= |s|
  {
    Weave(s[..n], s[n..2 * n], s[2 * n..3 * n])
  }

  function Reordered<T>(s: seq<T>, widths: seq<nat>): seq<T>
    requires Span(widths) <= |s|
    decreases |widths|
  {
    if widths == [] then s
    else Band(s, widths[0]) + Reordered(s[3 * widths[0]..], widths[1..])
  }

  function Restored<T>(s: seq<T>, widths: seq<nat>): seq<T>
    requires Span(widths) <= |s|
    decreases |widths|
  {
    if widths == [] then s
    else
      var n := widths[0];
      Window(s[..3 * n], n, 0) + Window(s[..3 * n], n, 1) + Window(s[..3 * n], n, 2)
      + Restored(s[3 * n..], widths[1..])
  }

  lemma {:induction false} SameLength<T>(s: seq<T>, widths: seq<nat>)
    requires Span(widths) <= |s|
    ensures |Reordered(s, widths)| == |s| == |Restored(s, widths)|
    decreases |widths|
  {
    if widths != [] {
      var n := widths[0];
      WeaveLength(s[..n], s[n..2 * n], s[2 * n..3 * n]);
      SameLength(s[3 * n..], widths[1..]);
    }
  }

  lemma BandStep<T>(s: seq<T>, from: nat, widths: seq<nat>)
    requires from <= |s| && Span(widths) <= |s| - from
    ensures widths == [] ==> Span(widths) == 0 && Reordered(s[from..], widths) == s[from..]
    ensures widths != []
            ==> var n := widths[0];
                && 0 <= Span(widths[1..]) == Span(widths) - 3 * n && from + 3 * n <= |s|
                && Reordered(s[from..], widths) == Band(s[from..], n) + Reordered(s[from + 3 * n..], widths[1..])
                && Band(s[from..], n) == Weave(s[from..][..n], s[from..][n..2 * n], s[from..][2 * n..3 * n])
  {
    assert widths != [] ==> s[from..][3 * widths[0]..] == s[from + 3 * widths[0]..];
  }

  /** Nothing is lost and nothing is added. */
  lemma {:induction false} ReorderedMultiset<T>(s: seq<T>, widths: seq<nat>)
    requires Span(widths) <= |s|
    ensures multiset(Reordered(s, widths)) == multiset(s)
    decreases |widths|
  {
    hide *;
    BandStep(s, 0, widths);
    if widths != [] {
      var n := widths[0];
      var a, b, c, t := s[..n], s[n..2 * n], s[2 * n..3 * n], s[3 * n..];
      assert s[0..] == s;
      WeaveMultiset(a, b, c);
      ReorderedMultiset(t, widths[1..]);
      Joined(Band(s, n), Reordered(t, widths[1..]));
      Joined(a + b + c, t);
      Joined(a + b, c);
      Joined(a, b);
      assert s == a + b + c + t;
    }
  }

  /** The first band, and what it is made into. */
  lemma FirstBand<T>(s: seq<T>, widths: seq<nat>)
    requires Span(widths) <= |s| && widths != []
    ensures var n := widths[0];
            && 3 * n <= |s| && 0 <= Span(widths[1..]) <= |s| - 3 * n
            && Reordered(s, widths)
               == Weave(s[..n], s[n..2 * n], s[2 * n..3 * n]) + Reordered(s[3 * n..], widths[1..])
            && |Window(s[..3 * n], n, 0)| == |Window(s[..3 * n], n, 1)| == |Window(s[..3 * n], n, 2)| == n
            && Restored(s, widths)
               == Window(s[..3 * n], n, 0) + Window(s[..3 * n], n, 1) + Window(s[..3 * n], n, 2)
                  + Restored(s[3 * n..], widths[1..])
  {
    hide Weave;
  }

  lemma NoBand<T>(s: seq<T>)
    ensures Reordered(s, []) == s && Restored(s, []) == s
  {
  }

  lemma FourParts<T>(a: seq<T>, b: seq<T>, c: seq<T>, t: seq<T>, n: nat)
    requires |a| == |b| == |c| == n
    ensures var r := a + b + c + t;
            && |r| == 3 * n + |t|
            && r[..n] == a && r[n..2 * n] == b && r[2 * n..3 * n] == c && r[3 * n..] == t
  {
  }

  lemma FourSlices<T>(s: seq<T>, n: nat)
    requires 3 * n <= |s|
    ensures s[..n] + s[n..2 * n] + s[2 * n..3 * n] + s[3 * n..] == s && s[..3 * n] + s[3 * n..] == s
  {
  }

  lemma TwoParts<T>(a: seq<T>, t: seq<T>)
    ensures (a + t)[..|a|] == a && (a + t)[|a|..] == t
  {
  }

  /** The transformation is a bijection: `Restored` undoes it on either side. */
  lemma {:induction false} RestoredReordered<T>(s: seq<T>, widths: seq<nat>)
    requires Span(widths) <= |s|
    ensures |Reordered(s, widths)| == |s|
    ensures Restored(Reordered(s, widths), widths) == s
    decreases |widths|
  {
    hide *;
    SameLength(s, widths);
    if widths == [] {
      NoBand(s);
    } else {
      var n := widths[0];
      FirstBand(s, widths);
      var a, b, c, t := s[..n], s[n..2 * n], s[2 * n..3 * n], s[3 * n..];
      WeaveLength(a, b, c);
      WindowsOfWeave(a, b, c);
      TwoParts(Weave(a, b, c), Reordered(t, widths[1..]));
      FirstBand(Reordered(s, widths), widths);
      RestoredReordered(t, widths[1..]);
      FourSlices(s, n);
    }
  }

  lemma {:induction false} ReorderedRestored<T>(s: seq<T>, widths: seq<nat>)
    requires Span(widths) <= |s|
    ensures |Restored(s, widths)| == |s|
    ensures Reordered(Restored(s, widths), widths) == s
    decreases |widths|
  {
    hide *;
    SameLength(s, widths);
    if widths == [] {
      NoBand(s);
    } else {
      var n := widths[0];
      FirstBand(s, widths);
      var head, t := s[..3 * n], s[3 * n..];
      WeaveOfWindows(head, n);
      FourParts(Window(head, n, 0), Window(head, n, 1), Window(head, n, 2), Restored(t, widths[1..]), n);
      FirstBand(Restored(s, widths), widths);
      ReorderedRestored(t, widths[1..]);
      FourSlices(s, n);
    }
  }

  lemma BandAt<T>(s: seq<T>, n: nat, i: nat, w: nat)
    requires 3 * n <= |s| && i < n && w < 3
    ensures |Band(s, n)| == 3 * n && WindowIndex(n, i, w) < 3 * n
    ensures Band(s, n)[3 * i + w] == s[WindowIndex(n, i, w)]
  {
    hide WindowIndex, Weave;
    WindowIs(n, i, w);
    WeaveLength(s[..n], s[n..2 * n], s[2 * n..3 * n]);
    WeaveAt(s[..n], s[n..2 * n], s[2 * n..3 * n], i);
  }

  lemma WindowIs(n: nat, i: nat, w: nat)
    requires w < 3
    ensures WindowIndex(n, i, w) == if w == 0 then i else if w == 1 then n + i else 2 * n + i
  {
  }

  /** Where each sample goes: line `i` of window `w` in band `k`. */
  lemma {:induction false} ReorderedAt<T>(s: seq<T>, widths: seq<nat>, k: nat, i: nat, w: nat)
    requires Span(widths) <= |s| && k < |widths| && i < widths[k] && w < 3
    ensures |Reordered(s, widths)| == |s| && Span(widths[..k]) + 3 * widths[k] <= |s|
    ensures WindowIndex(widths[k], i, w) < 3 * widths[k]
    ensures Reordered(s, widths)[Span(widths[..k]) + 3 * i + w]
            == s[Span(widths[..k]) + WindowIndex(widths[k], i, w)]
    decreases k
  {
    hide *;
    SameLength(s, widths);
    BandStep(s, 0, widths);
    assert s[0..] == s;
    var n := widths[0];
    var t := s[3 * n..];
    if k == 0 {
      BandAt(s, n, i, w);
      assert widths[..0] == [];
      SpanNone();
    } else {
      ReorderedAt(t, widths[1..], k - 1, i, w);
      SpanFirst(widths, k);
      WeaveLength(s[..n], s[n..2 * n], s[2 * n..3 * n]);
    }
  }

  lemma SpanNone()
    ensures Span([]) == 0
  {
  }

  lemma SpanFirst(widths: seq<nat>, k: nat)
    requires 0 < k <= |widths|
    ensures 0 <= Span(widths[1..][..k - 1]) && Span(widths[..k]) == 3 * widths[0] + Span(widths[1..][..k - 1])
  {
    assert widths[..k][1..] == widths[1..][..k - 1];
  }

  /** Position of line `i` of window `w` in a band of width `n` before reordering. */
  function WindowIndex(n: nat, i: nat, w: nat): nat {
    w * n + i
  }

  /** What is past the bands stays as it is. */
  lemma {:induction false} TailUntouched<T>(s: seq<T>, widths: seq<nat>)
    requires Span(widths) <= |s|
    ensures |Reordered(s, widths)| == |s|
    ensures Reordered(s, widths)[Span(widths)..] == s[Span(widths)..]
    decreases |widths|
  {
    SameLength(s, widths);
    if widths != [] {
      var n := widths[0];
      WeaveLength(s[..n], s[n..2 * n], s[2 * n..3 * n]);
      TailUntouched(s[3 * n..], widths[1..]);
      var r := Reordered(s[3 * n..], widths[1..]);
      assert Reordered(s, widths)[3 * n..] == r;
      assert Reordered(s, widths)[Span(widths)..] == r[Span(widths[1..])..];
    }
  }

  // ---- In place, through a scratch buffer ----

  /** The samples of a band of width `n` at `from`, interleaved up to line `i`. */
  function Part<T>(s: seq<T>, from: nat, n: nat, i: nat): seq<T>
    requires from + 3 * n <= |s| && i <= n
  {
    Weave(s[from..from + i], s[from + n..from + n + i], s[from + 2 * n..from + 2 * n + i])
  }

  lemma PartNext<T>(s: seq<T>, from: nat, n: nat, i: nat)
    requires from + 3 * n <= |s| && i < n
    ensures Part(s, from, n, i + 1) == Part(s, from, n, i) + [s[from + i], s[from + n + i], s[from + 2 * n + i]]
  {
    var a, b, c := s[from..from + i + 1], s[from + n..from + n + i + 1], s[from + 2 * n..from + 2 * n + i + 1];
    assert a[..i] == s[from..from + i] && b[..i] == s[from + n..from + n + i];
    assert c[..i] == s[from + 2 * n..from + 2 * n + i];
  }

  lemma PartEnds<T>(s: seq<T>, from: nat, n: nat)
    requires from + 3 * n <= |s|
    ensures Part(s, from, n, 0) == []
    ensures Part(s, from, n, n) == Band(s[from..], n)
    ensures |Band(s[from..], n)| == 3 * n
  {
    assert s[from..from + n] == s[from..][..n];
    assert s[from + n..from + n + n] == s[from..][n..2 * n];
    assert s[from + 2 * n..from + 2 * n + n] == s[from..][2 * n..3 * n];
    WeaveLength(s[from..][..n], s[from..][n..2 * n], s[from..][2 * n..3 * n]);
  }

  /** The inner loop: one band from `src` to `scratch[dst..]`. */
  method WeaveBand<T>(grbuf: array<T>, src0: nat, n: nat, scratch: array<T>, dst0: nat) returns (src: nat, dst: nat)
    requires grbuf != scratch && src0 + 3 * n <= grbuf.Length && dst0 + 3 * n <= scratch.Length
    modifies scratch
    ensures src == src0 + n && dst == dst0 + 3 * n
    ensures scratch[..dst] == old(scratch[..dst0]) + Band(grbuf[..][src0..], n)
  {
    hide Band, Weave, Part;
    src, dst := src0, dst0;
    PartEnds(grbuf[..], src0, n);
    assert scratch[..dst] == old(scratch[..dst0]) + [];
    ghost var s := grbuf[..];
    for i := 0 to n
      invariant src == src0 + i && dst == dst0 + 3 * i && grbuf[..] == s
      invariant scratch[..dst] == old(scratch[..dst0]) + Part(s, src0, n, i)
    {
      PartNext(s, src0, n, i);
      dst := PutThree(scratch, dst, grbuf[src], grbuf[src + n], grbuf[src + 2 * n]);
      src := src + 1;
    }
  }

  method PutThree<T>(scratch: array<T>, dst0: nat, x: T, y: T, z: T) returns (dst: nat)
    requires dst0 + 3 <= scratch.Length
    modifies scratch
    ensures dst == dst0 + 3 && scratch[..dst] == old(scratch[..dst0]) + [x, y, z]
  {
    dst := dst0;
    scratch[dst] := x;
    dst := dst + 1;
    scratch[dst] := y;
    dst := dst + 1;
    scratch[dst] := z;
    dst := dst + 1;
  }

  /** What the table pointer, moved on by `k` entries, still says. */
  lemma TableStep(sfb: seq<nat>, k: nat)
    requires k <= |sfb| && Terminated(sfb[k..])
    ensures k < |sfb|
    ensures sfb[k] == 0 ==> Widths(sfb[k..]) == []
    ensures sfb[k] != 0 ==> k + 3 <= |sfb| && Terminated(sfb[k + 3..])
                            && Widths(sfb[k..]) == [sfb[k]] + Widths(sfb[k + 3..])
  {
    if sfb[k] != 0 {
      assert sfb[k..][3..] == sfb[k + 3..];
    }
  }

  /** Half way: `done` is what the bands before `src` have become, `rest` are the bands from there. */
  ghost predicate Woven<T(!new)>(s: seq<T>, base: nat, widths: seq<nat>, dst: nat, done: seq<T>, rest: seq<nat>) {
    && dst + Span(rest) == Span(widths) && base + Span(widths) <= |s| && |done| == dst
    && done + Reordered(s[base + dst..], rest) == Reordered(s[base..], widths)
  }

  lemma WovenNone<T(!new)>(s: seq<T>, base: nat, widths: seq<nat>)
    requires base + Span(widths) <= |s|
    ensures Woven(s, base, widths, 0, [], widths)
  {
  }

  lemma WovenNext<T(!new)>(s: seq<T>, base: nat, widths: seq<nat>, dst: nat, done: seq<T>, n: nat, rest: seq<nat>)
    requires Woven(s, base, widths, dst, done, [n] + rest)
    ensures base + dst + 3 * n <= |s| && dst + 3 * n <= Span(widths)
    ensures Woven(s, base, widths, dst + 3 * n, done + Band(s[base + dst..], n), rest)
  {
    hide *;
    WovenIs(s, base, widths, dst, done, [n] + rest);
    var t := s[base + dst..];
    NextBand(s, base + dst, n, rest);
    Associates(done, Band(t, n), Reordered(s[base + dst + 3 * n..], rest));
    WovenIs(s, base, widths, dst + 3 * n, done + Band(t, n), rest);
  }

  lemma NextBand<T>(s: seq<T>, from: nat, n: nat, rest: seq<nat>)
    requires from <= |s| && Span([n] + rest) <= |s| - from
    ensures from + 3 * n <= |s| && Span([n] + rest) == 3 * n + Span(rest) && Span(rest) >= 0
    ensures |Band(s[from..], n)| == 3 * n
    ensures Reordered(s[from..], [n] + rest) == Band(s[from..], n) + Reordered(s[from + 3 * n..], rest)
  {
    BandStep(s, from, [n] + rest);
    assert ([n] + rest)[1..] == rest;
    WeaveLength(s[from..][..n], s[from..][n..2 * n], s[from..][2 * n..3 * n]);
  }

  lemma WovenIs<T(!new)>(s: seq<T>, base: nat, widths: seq<nat>, dst: nat, done: seq<T>, rest: seq<nat>)
    ensures Woven(s, base, widths, dst, done, rest)
            <==> dst + Span(rest) == Span(widths) && base + Span(widths) <= |s| && |done| == dst
                 && done + Reordered(s[base + dst..], rest) == Reordered(s[base..], widths)
    ensures Span(rest) >= 0
    ensures Woven(s, base, widths, dst, done, rest) ==> dst <= Span(widths)
  {
  }

  lemma WovenAll<T(!new)>(s: seq<T>, base: nat, widths: seq<nat>, dst: nat, done: seq<T>)
    requires Woven(s, base, widths, dst, done, [])
    ensures dst == Span(widths) && base + dst <= |s|
    ensures s[..base] + (done + s[base + dst..]) == s[..base] + Reordered(s[base..], widths)
  {
  }

  /** The table from entry `k` on. */
  predicate TableAt(sfb: seq<nat>, k: nat, rest: seq<nat>) {
    k < |sfb| && Terminated(sfb[k..]) && rest == Widths(sfb[k..])
  }

  lemma TableNext(sfb: seq<nat>, k: nat, rest: seq<nat>)
    requires TableAt(sfb, k, rest)
    ensures k < |sfb|
    ensures sfb[k] == 0 ==> rest == []
    ensures sfb[k] != 0 ==> rest != [] && rest == [sfb[k]] + rest[1..] && TableAt(sfb, k + 3, rest[1..])
  {
    TableStep(sfb, k);
    if sfb[k] != 0 {
      TableStep(sfb, k + 3);
    }
  }

  /** drmp3_L3_reorder on the samples from `base`. */
  method ReorderBands<T(!new)>(grbuf: array<T>, base: nat, scratch: array<T>, sfb: seq<nat>)
    requires grbuf != scratch && Terminated(sfb)
    requires base + Span(Widths(sfb)) <= grbuf.Length && Span(Widths(sfb)) <= scratch.Length
    modifies grbuf, scratch
    ensures grbuf[..] == old(grbuf[..])[..base] + Reordered(old(grbuf[..])[base..], Widths(sfb))
  {
    hide *;
    ghost var s, widths := grbuf[..], Widths(sfb);
    var src: nat, dst: nat, k: nat := base, 0, 0;
    ghost var done, rest := [], widths;
    TableFirst(sfb);
    TableNext(sfb, 0, rest);
    WovenNone(s, base, widths);
    while sfb[k] != 0
      invariant k < |sfb| && TableAt(sfb, k, rest)
      invariant 0 <= dst <= scratch.Length && src == base + dst
      invariant grbuf[..] == s && scratch[..dst] == done
      invariant Woven(s, base, widths, dst, done, rest)
      decreases |sfb| - k
    {
      var len := sfb[k];
      TableNext(sfb, k, rest);
      WovenNext(s, base, widths, dst, done, len, rest[1..]);
      done := done + Band(s[src..], len);
      src, dst := WeaveBand(grbuf, src, len, scratch, dst);
      src := src + 2 * len;
      k := k + 3;
      rest := rest[1..];
      TableNext(sfb, k, rest);
    }
    TableNext(sfb, k, rest);
    WovenAll(s, base, widths, dst, done);
    CopyBack(grbuf, base, scratch, dst);
  }

  lemma TableFirst(sfb: seq<nat>)
    requires Terminated(sfb)
    ensures TableAt(sfb, 0, Widths(sfb))
  {
    assert sfb[0..] == sfb;
  }

  /** The copy from the scratch buffer back to the samples. */
  method CopyBack<T>(grbuf: array<T>, base: nat, scratch: array<T>, n: nat)
    requires grbuf != scratch && base + n <= grbuf.Length && n <= scratch.Length
    modifies grbuf
    ensures grbuf[..] == old(grbuf[..])[..base] + (scratch[..n] + old(grbuf[..])[base + n..])
  {
    ghost var s := grbuf[..];
    forall i | 0 <= i < n {
      grbuf[base + i] := scratch[i];
    }
    Replaced(grbuf[..], s, base, scratch[..n]);
  }

  lemma Associates<T>(a: seq<T>, b: seq<T>, c: seq<T>)
    ensures (a + b) + c == a + (b + c)
  {
  }

  lemma Replaced<T>(r: seq<T>, s: seq<T>, base: nat, mid: seq<T>)
    requires |r| == |s| && base + |mid| <= |s|
    requires forall i :: 0 <= i < base ==> r[i] == s[i]
    requires forall i :: 0 <= i < |mid| ==> r[base + i] == mid[i]
    requires forall i :: base + |mid| <= i < |s| ==> r[i] == s[i]
    ensures r == s[..base] + (mid + s[base + |mid|..])
  {
    forall i | 0 <= i < |s| ensures r[i] == (s[..base] + (mid + s[base + |mid|..]))[i] {
      if base <= i < base + |mid| {
        assert r[base + (i - base)] == mid[i - base];
      }
    }
  }
}
