/**
 Deterministic walks: from each place there is at most one move. A loop that seeks in a file is such a
 walk, and ends unless it comes back to where it has been.
 */
module Walks {

  datatype Move<S> = Stop | To(next: S)

  /** Where a walk from `x` is after `n` moves, if it gets that far. */
  function After<S>(move: S -> Move<S>, x: S, n: nat): Move<S> {
    if n == 0 then To(x)
    else match After(move, x, n - 1)
      case Stop => Stop
      case To(y) => move(y)
  }

  ghost predicate Ends<S(!new)>(move: S -> Move<S>, x: S) {
    exists n: nat :: After(move, x, n).Stop?
  }

  lemma NeverEnds<S(!new)>(move: S -> Move<S>, x: S)
    requires forall n: nat :: After(move, x, n).To?
    ensures !Ends(move, x)
  {
  }

  /** The number of moves until the walk has stopped. */
  ghost function TurnsLeft<S(!new)>(move: S -> Move<S>, x: S): (n: nat)
    ensures Ends(move, x) ==> After(move, x, n).Stop? && forall k: nat :: k < n ==> After(move, x, k).To?
  {
    if Ends(move, x) then
      var n: nat :| After(move, x, n).Stop?;
      LeastStop(move, x, n)
    else 0
  }

  ghost function LeastStop<S>(move: S -> Move<S>, x: S, n: nat): (m: nat)
    requires After(move, x, n).Stop?
    ensures m <= n && After(move, x, m).Stop? && forall k: nat :: k < m ==> After(move, x, k).To?
  {
    if n > 0 && After(move, x, n - 1).Stop? then LeastStop(move, x, n - 1)
    else
      StopsStay(move, x, if n > 0 then n - 1 else 0);
      n
  }

  /** Once stopped, always stopped. */
  lemma {:induction false} StopsStay<S>(move: S -> Move<S>, x: S, n: nat)
    ensures After(move, x, n).To? ==> forall k: nat :: k <= n ==> After(move, x, k).To?
  {
    if n > 0 {
      StopsStay(move, x, n - 1);
    }
  }

  /** The first move, and then the others. */
  lemma {:induction false} FirstMove<S>(move: S -> Move<S>, x: S, n: nat)
    requires n > 0
    ensures After(move, x, n) == match move(x) case Stop => Stop case To(y) => After(move, y, n - 1)
  {
    if n > 1 {
      FirstMove(move, x, n - 1);
    } else {
      assert After(move, x, 0) == To(x);
    }
  }

  /** A walk ends exactly when its rest does, and that is shorter. */
  lemma EndsStep<S(!new)>(move: S -> Move<S>, x: S)
    ensures move(x).Stop? ==> Ends(move, x)
    ensures move(x).To? ==> (Ends(move, x) <==> Ends(move, move(x).next))
    ensures move(x).To? && Ends(move, x) ==> TurnsLeft(move, move(x).next) < TurnsLeft(move, x)
  {
    if move(x).Stop? {
      FirstMove(move, x, 1);
    } else {
      var y := move(x).next;
      if Ends(move, x) {
        var n := TurnsLeft(move, x);
        FirstMove(move, x, n);
        assert After(move, y, n - 1).Stop?;
      }
      if Ends(move, y) {
        FirstMove(move, x, TurnsLeft(move, y) + 1);
      }
    }
  }

  /** The walk goes on from a place as it did before from the same place. */
  lemma {:induction false} SameFrom<S>(move: S -> Move<S>, x: S, i: nat, j: nat, k: nat)
    requires After(move, x, i) == After(move, x, j)
    ensures After(move, x, i + k) == After(move, x, j + k)
  {
    if k > 0 {
      SameFrom(move, x, i, j, k - 1);
    }
  }

  ghost predicate Returns<S(!new)>(move: S -> Move<S>, x: S) {
    exists i: nat, j: nat :: ComesBack(move, x, i, j)
  }

  ghost predicate ComesBack<S>(move: S -> Move<S>, x: S, i: nat, j: nat) {
    i < j && After(move, x, i).To? && After(move, x, i) == After(move, x, j)
  }

  /** A walk that comes back to a place never ends. */
  lemma {:induction false} NeverAfterReturn<S>(move: S -> Move<S>, x: S, i: nat, j: nat, n: nat)
    requires ComesBack(move, x, i, j)
    ensures After(move, x, n).To?
  {
    if n <= j {
      StopsStay(move, x, j);
    } else {
      NeverAfterReturn(move, x, i, j, n - (j - i));
      SameFrom(move, x, i, j, n - j);
    }
  }

  /** The places of the first `n` moves. */
  ghost function Visited<S>(move: S -> Move<S>, x: S, n: nat): set<S>
    requires forall k: nat :: k < n ==> After(move, x, k).To?
  {
    if n == 0 then {} else Visited(move, x, n - 1) + {After(move, x, n - 1).next}
  }

  ghost predicate Reached<S>(move: S -> Move<S>, x: S, n: nat, y: S) {
    exists k: nat :: k < n && After(move, x, k) == To(y)
  }

  lemma {:induction false} VisitedAre<S>(move: S -> Move<S>, x: S, n: nat, space: set<S>)
    requires forall k: nat :: k < n ==> After(move, x, k).To?
    requires x in space && forall y :: y in space && move(y).To? ==> move(y).next in space
    ensures Visited(move, x, n) <= space
    ensures forall y :: y in Visited(move, x, n) ==> Reached(move, x, n, y)
    ensures n > 0 ==> After(move, x, n - 1).next in space
  {
    if n > 0 {
      VisitedAre(move, x, n - 1, space);
      var last := After(move, x, n - 1).next;
      assert n - 1 < n && After(move, x, n - 1) == To(last);
      forall y | y in Visited(move, x, n) ensures Reached(move, x, n, y) {
        if y != last {
          var k: nat :| k < n - 1 && After(move, x, k) == To(y);
          assert k < n && After(move, x, k) == To(y);
        }
      }
    }
  }

  lemma NotTwice<S(!new)>(move: S -> Move<S>, x: S, k: nat, m: nat)
    requires !Returns(move, x) && k < m && After(move, x, m).To?
    ensures After(move, x, k) != After(move, x, m)
  {
    assert !ComesBack(move, x, k, m);
  }

  /** Without coming back, every move is to a new place. */
  lemma {:induction false} VisitedCount<S(!new)>(move: S -> Move<S>, x: S, n: nat, space: set<S>)
    requires forall k: nat :: k < n ==> After(move, x, k).To?
    requires x in space && forall y :: y in space && move(y).To? ==> move(y).next in space
    requires !Returns(move, x)
    ensures |Visited(move, x, n)| == n
  {
    if n > 0 {
      VisitedCount(move, x, n - 1, space);
      VisitedAre(move, x, n - 1, space);
      var y := After(move, x, n - 1).next;
      forall k: nat | k < n - 1 ensures After(move, x, k) != To(y) {
        NotTwice(move, x, k, n - 1);
      }
    }
  }

  lemma SubsetSize<S>(a: set<S>, b: set<S>)
    requires a <= b
    ensures |a| <= |b|
  {
    assert b == a + (b - a);
  }

  /** Among finitely many places, a walk ends if and only if it never comes back to one. */
  lemma EndsIff<S(!new)>(move: S -> Move<S>, x: S, space: set<S>)
    requires x in space && forall y :: y in space && move(y).To? ==> move(y).next in space
    ensures Ends(move, x) <==> !Returns(move, x)
  {
    if Returns(move, x) {
      var i: nat, j: nat :| ComesBack(move, x, i, j);
      if Ends(move, x) {
        NeverAfterReturn(move, x, i, j, TurnsLeft(move, x));
      }
    } else if !Ends(move, x) {
      var n := |space| + 1;
      VisitedCount(move, x, n, space);
      VisitedAre(move, x, n, space);
      SubsetSize(Visited(move, x, n), space);
    }
  }

  /** A walk along which a bounded number grows ends. */
  lemma {:induction false} GrowthEnds<S(!new)>(move: S -> Move<S>, x: S, at: S -> nat, bound: nat, good: S -> bool)
    requires good(x)
    requires forall y :: good(y) ==> at(y) <= bound
    requires forall y :: good(y) && move(y).To? ==> good(move(y).next) && at(y) < at(move(y).next)
    ensures Ends(move, x)
    decreases bound - at(x)
  {
    EndsStep(move, x);
    if move(x).To? {
      GrowthEnds(move, move(x).next, at, bound, good);
    }
  }
}
