/**
 * Consequences of constructLP's contract: the bounds do not depend on which
 * optimal assignment the engine picks, they move with the threshold, and they
 * take the expected values on small weight vectors.
 */
module ThresholdFacts {
  import opened Vectors
  import opened LpEngine
  import opened Threshold

  /** An honest engine can only succeed when a bound exists, so the bound modes'
      requirement of success excludes the thresholds no subset sum satisfies. */
  lemma SuccessNeedsBound(e: Engine, w: seq<int>, thre: int, upper: int, lower: int)
    requires Honest(e) && SolverSucceeds(e, w, thre, upper, lower)
    ensures Achievable(w, thre, upper, lower)
  {
    HonestAnswer(e, w, thre, upper, lower);
    assert Admissible(thre, upper, lower, Dot(w, Assignment(e, w, thre, upper, lower)));
  }

  /** The upper bound is determined by w and thre alone. */
  lemma MaxBelowUnique(w: seq<int>, thre: int, r1: int, r2: int)
    requires IsMaxBelow(w, thre, r1) && IsMaxBelow(w, thre, r2)
    ensures r1 == r2
  {
    var x1 :| |x1| == |w| && IsBinary(x1) && Dot(w, x1) == r1;
    var x2 :| |x2| == |w| && IsBinary(x2) && Dot(w, x2) == r2;
    assert Dot(w, x1) <= r2 && Dot(w, x2) <= r1;
  }

  /** The lower bound is determined by w and thre alone. */
  lemma MinAtLeastUnique(w: seq<int>, thre: int, r1: int, r2: int)
    requires IsMinAtLeast(w, thre, r1) && IsMinAtLeast(w, thre, r2)
    ensures r1 == r2
  {
    var x1 :| |x1| == |w| && IsBinary(x1) && Dot(w, x1) == r1;
    var x2 :| |x2| == |w| && IsBinary(x2) && Dot(w, x2) == r2;
    assert r2 <= Dot(w, x1) && r1 <= Dot(w, x2);
  }

  /** A larger threshold never lowers the upper bound. */
  lemma MaxBelowMonotone(w: seq<int>, t1: int, t2: int, r1: int, r2: int)
    requires t1 <= t2 && IsMaxBelow(w, t1, r1) && IsMaxBelow(w, t2, r2)
    ensures r1 <= r2
  {
    var x1 :| |x1| == |w| && IsBinary(x1) && Dot(w, x1) == r1;
    assert Dot(w, x1) <= t2 - 1;
  }

  /** A larger threshold never lowers the lower bound. */
  lemma MinAtLeastMonotone(w: seq<int>, t1: int, t2: int, r1: int, r2: int)
    requires t1 <= t2 && IsMinAtLeast(w, t1, r1) && IsMinAtLeast(w, t2, r2)
    ensures r1 <= r2
  {
    var x2 :| |x2| == |w| && IsBinary(x2) && Dot(w, x2) == r2;
    assert t1 <= Dot(w, x2);
  }

  /** The four 0/1 points of length two. */
  lemma BinaryPair(x: seq<int>)
    requires |x| == 2 && IsBinary(x)
    ensures x == [0, 0] || x == [0, 1] || x == [1, 0] || x == [1, 1]
  {
    assert x == [x[0], x[1]];
  }

  /** Weights [1, 2, 3], threshold 4: the largest sum below 4 is 3. */
  lemma UpperExample()
    ensures IsMaxBelow([1, 2, 3], 4, 3)
  {
    var x := [0, 0, 1];
    assert [1, 2, 3][..2] == [1, 2] && x[..2] == [0, 0];
    assert [1, 2][..1] == [1] && [0, 0][..1] == [0];
    assert IsBinary(x) && Dot([1, 2, 3], x) == 3;
  }

  /** Weights [1, 2, 3], threshold 4: the smallest sum at or above 4 is 4 (inputs 1 and 3). */
  lemma LowerExample()
    ensures IsMinAtLeast([1, 2, 3], 4, 4)
  {
    var x := [1, 0, 1];
    assert [1, 2, 3][..2] == [1, 2] && x[..2] == [1, 0];
    assert [1, 2][..1] == [1] && [1, 0][..1] == [1];
    assert IsBinary(x) && Dot([1, 2, 3], x) == 4;
  }

  /** Weights [3, 5]: the sums are 0, 3, 5 and 8, so the largest below 7 is 5. */
  lemma UpperGapExample()
    ensures IsMaxBelow([3, 5], 7, 5)
  {
    var w := [3, 5];
    assert IsBinary([0, 1]) && Dot(w, [0, 1]) == 5;
    forall x | |x| == 2 && IsBinary(x) && Dot(w, x) <= 6
      ensures Dot(w, x) <= 5
    {
      BinaryPair(x);
    }
  }

  /** Weights [3, 5]: the smallest sum at or above 4 is 5. */
  lemma LowerGapExample()
    ensures IsMinAtLeast([3, 5], 4, 5)
  {
    var w := [3, 5];
    assert IsBinary([0, 1]) && Dot(w, [0, 1]) == 5;
    forall x | |x| == 2 && IsBinary(x) && 4 <= Dot(w, x)
      ensures 5 <= Dot(w, x)
    {
      BinaryPair(x);
    }
  }

  /** Weights [5] with upper 5 and lower 5: no sum is both below 5 and at least 5. */
  lemma FeasibilityExample(thre: int)
    ensures ModeOf(5, 5) == Feasibility && !Achievable([5], thre, 5, 5)
  {
    forall x | |x| == 1 && IsBinary(x)
      ensures !Admissible(thre, 5, 5, Dot([5], x))
    {
      assert x == [x[0]];
    }
  }

  /** No weights, threshold 1: the only sum is 0. */
  lemma EmptyUpperExample()
    ensures IsMaxBelow([], 1, 0)
  {
    assert IsBinary([]) && Dot([], []) == 0;
  }
}
