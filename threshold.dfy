/**
 * constructLP: the 0/1 integer program behind the threshold-gate weight bounds.
 * For a weight vector w it bounds every variable to {0, 1} and adds one or two
 * rows on the weighted sum w . x, chosen by the -1 sentinels in upper and lower:
 *   upper == -1  : maximise w . x subject to w . x <= thre - 1
 *   lower == -1  : minimise w . x subject to w . x >= thre
 *   otherwise    : any x with lower <= w . x <= upper - 1.
 */
module Threshold {
  import opened Vectors
  import opened LpEngine
  import opened LpSolve

  datatype Mode = UpperBound | LowerBound | Feasibility

  /** The sentinel test; upper is looked at first, so lower is ignored when upper == -1. */
  function ModeOf(upper: int, lower: int): Mode
  {
    if upper == -1 then UpperBound
    else if lower == -1 then LowerBound
    else Feasibility
  }

  /** The rows x_k >= 0 and then -x_k >= -1 for each of the first i of n variables. */
  function DomainRows(n: nat, i: nat): seq<seq<int>>
    decreases i
  {
    if i == 0 then [] else DomainRows(n, i - 1) + [Unit(n, i - 1, 1), Unit(n, i - 1, -1)]
  }

  /** The right-hand sides of DomainRows: 0 and then -1 for each variable. */
  function DomainRhs(i: nat): seq<int>
    decreases i
  {
    if i == 0 then [] else DomainRhs(i - 1) + [0, -1]
  }

  /** Row 2k bounds variable k from below by 0, row 2k + 1 from above by 1. */
  lemma {:induction false} DomainRowsAt(n: nat, i: nat)
    ensures |DomainRows(n, i)| == |DomainRhs(i)| == 2 * i
    ensures forall k :: 0 <= k < 2 * i ==>
      DomainRows(n, i)[k] == Unit(n, k / 2, if k % 2 == 0 then 1 else -1) &&
      DomainRhs(i)[k] == if k % 2 == 0 then 0 else -1
    decreases i
  {
    if i > 0 {
      DomainRowsAt(n, i - 1);
    }
  }

  /** The dense system A . x >= B that constructLP hands to solveLp. */
  datatype System = System(A: seq<seq<int>>, B: seq<int>)

  /** The system for w and the mode's thresholds, laid out row by row. */
  function Formulation(w: seq<int>, thre: int, upper: int, lower: int): (s: System)
    ensures |s.A| == |s.B| == 2 * |w| + (if ModeOf(upper, lower) == Feasibility then 2 else 1)
    ensures Rectangular(s.A) && |s.A[0]| == |w|
    ensures forall k :: 0 <= k < 2 * |w| ==>
      s.A[k] == Unit(|w|, k / 2, if k % 2 == 0 then 1 else -1) &&
      s.B[k] == if k % 2 == 0 then 0 else -1
    ensures ModeOf(upper, lower) == UpperBound ==>
      s.A[2 * |w|] == Scaled(w, -1) && s.B[2 * |w|] == 1 - thre
    ensures ModeOf(upper, lower) == LowerBound ==>
      s.A[2 * |w|] == w && s.B[2 * |w|] == thre
    ensures ModeOf(upper, lower) == Feasibility ==>
      s.A[2 * |w|] == Scaled(w, -1) && s.B[2 * |w|] == 1 - upper &&
      s.A[2 * |w| + 1] == w && s.B[2 * |w| + 1] == lower
  {
    var n := |w|;
    DomainRowsAt(n, n);
    var A, B := DomainRows(n, n), DomainRhs(n);
    match ModeOf(upper, lower)
    case UpperBound => System(A + [Scaled(w, -1)], B + [-1 * thre + 1])
    case LowerBound => System(A + [w], B + [thre])
    case Feasibility => System(A + [Scaled(w, -1), w], B + [-1 * upper + 1, lower])
  }

  /** The side of the threshold a weighted sum s must fall on in each mode. */
  predicate Admissible(thre: int, upper: int, lower: int, s: int)
  {
    match ModeOf(upper, lower)
    case UpperBound => s <= thre - 1
    case LowerBound => thre <= s
    case Feasibility => lower <= s <= upper - 1
  }

  /** Some choice of inputs has an admissible weighted sum. */
  ghost predicate Achievable(w: seq<int>, thre: int, upper: int, lower: int)
  {
    exists x :: |x| == |w| && IsBinary(x) && Admissible(thre, upper, lower, Dot(w, x))
  }

  /** The first 2n rows hold exactly at the 0/1 points. */
  lemma DomainMeaning(w: seq<int>, thre: int, upper: int, lower: int, x: seq<int>)
    requires |x| == |w|
    ensures var s := Formulation(w, thre, upper, lower);
      (forall k :: 0 <= k < 2 * |w| ==> Dot(s.A[k], x) >= s.B[k]) <==> IsBinary(x)
  {
    var s := Formulation(w, thre, upper, lower);
    var n := |w|;
    forall k | 0 <= k < 2 * n
      ensures Dot(s.A[k], x) == if k % 2 == 0 then x[k / 2] else -x[k / 2]
    {
      DotUnit(n, k / 2, if k % 2 == 0 then 1 else -1, x);
    }
    if forall k :: 0 <= k < 2 * n ==> Dot(s.A[k], x) >= s.B[k] {
      forall i | 0 <= i < n
        ensures x[i] == 0 || x[i] == 1
      {
        assert Dot(s.A[2 * i], x) >= s.B[2 * i];
        assert Dot(s.A[2 * i + 1], x) >= s.B[2 * i + 1];
      }
    }
  }

  /** The rows after the first 2n hold exactly when the weighted sum is admissible. */
  lemma ModeRowsMeaning(w: seq<int>, thre: int, upper: int, lower: int, x: seq<int>)
    requires |x| == |w|
    ensures var s := Formulation(w, thre, upper, lower);
      (forall k :: 2 * |w| <= k < |s.A| ==> Dot(s.A[k], x) >= s.B[k]) <==>
      Admissible(thre, upper, lower, Dot(w, x))
  {
    var s := Formulation(w, thre, upper, lower);
    var n := |w|;
    DotScaled(w, -1, x);
    if forall k :: 2 * n <= k < |s.A| ==> Dot(s.A[k], x) >= s.B[k] {
      assert Dot(s.A[2 * n], x) >= s.B[2 * n];
      if ModeOf(upper, lower) == Feasibility {
        assert Dot(s.A[2 * n + 1], x) >= s.B[2 * n + 1];
      }
    }
  }

  /** The rows of the formulation hold exactly at the 0/1 points with an admissible sum. */
  lemma FormulationMeaning(w: seq<int>, thre: int, upper: int, lower: int, x: seq<int>)
    requires |x| == |w|
    ensures var s := Formulation(w, thre, upper, lower);
      (forall k :: 0 <= k < |s.A| ==> Dot(s.A[k], x) >= s.B[k]) <==>
      IsBinary(x) && Admissible(thre, upper, lower, Dot(w, x))
  {
    DomainMeaning(w, thre, upper, lower, x);
    ModeRowsMeaning(w, thre, upper, lower, x);
  }

  /** The model the engine holds for this formulation: solveLp is called with
      max set in upper-bound mode and min set in lower-bound mode. */
  function FormulationModel(w: seq<int>, thre: int, upper: int, lower: int): (m: Model)
    ensures WellFormed(m) && m.ncol == |w|
  {
    var s := Formulation(w, thre, upper, lower);
    var mode := ModeOf(upper, lower);
    BuildModelWellFormed(s.A, s.B, mode == UpperBound, mode == LowerBound);
    BuildModel(s.A, s.B, mode == UpperBound, mode == LowerBound)
  }

  /** The engine accepts the formulation and reports OPTIMAL. */
  predicate SolverSucceeds(e: Engine, w: seq<int>, thre: int, upper: int, lower: int)
  {
    var s := Formulation(w, thre, upper, lower);
    var mode := ModeOf(upper, lower);
    Succeeds(e, s.A, s.B, mode == UpperBound, mode == LowerBound)
  }

  /** The column values the engine returns for the formulation. */
  function Assignment(e: Engine, w: seq<int>, thre: int, upper: int, lower: int): seq<int>
  {
    e.solve(FormulationModel(w, thre, upper, lower)).values
  }

  /**
   * What the engine is asked: its feasible points are the 0/1 choices with an
   * admissible sum, it maximises w . x in upper-bound mode, minimises w . x in
   * lower-bound mode and has the zero objective otherwise.
   */
  lemma {:induction false} ModelPoints(w: seq<int>, thre: int, upper: int, lower: int, x: seq<int>)
    requires |x| == |w|
    ensures var m := FormulationModel(w, thre, upper, lower);
      (Satisfies(m, x) <==> IsBinary(x) && Admissible(thre, upper, lower, Dot(w, x))) &&
      ObjectiveValue(m, x) == (if ModeOf(upper, lower) == Feasibility then 0 else Dot(w, x)) &&
      m.maximize == (ModeOf(upper, lower) == UpperBound)
  {
    var s := Formulation(w, thre, upper, lower);
    var mode := ModeOf(upper, lower);
    ModelMeaning(s.A, s.B, mode == UpperBound, mode == LowerBound, x);
    FormulationMeaning(w, thre, upper, lower, x);
    DotScaled(w, -1, x);
  }

  /** The objective set_obj_fnex receives lists every column: the weights
      themselves in both bound modes (the negated row -w negated back when
      maximising), and zeros in feasibility mode. */
  lemma ObjectiveOfMode(w: seq<int>, thre: int, upper: int, lower: int)
    ensures var o := FormulationModel(w, thre, upper, lower).objective;
      o.colno == Columns(|w|) &&
      o.coeffs == if ModeOf(upper, lower) == Feasibility then seq(|w|, k => 0) else w
  {
    var s := Formulation(w, thre, upper, lower);
    match ModeOf(upper, lower)
    case UpperBound =>
      ScaledTwice(w);
    case LowerBound =>
      assert Scaled(w, 1) == w;
    case Feasibility =>
      assert s.A[|s.A| - 1] == w;
  }

  /** The largest subset sum strictly below thre. */
  ghost predicate IsMaxBelow(w: seq<int>, thre: int, r: int)
  {
    IsSubsetSum(w, r) && r <= thre - 1 &&
    forall x :: |x| == |w| && IsBinary(x) && Dot(w, x) <= thre - 1 ==> Dot(w, x) <= r
  }

  /** The smallest subset sum at or above thre. */
  ghost predicate IsMinAtLeast(w: seq<int>, thre: int, r: int)
  {
    IsSubsetSum(w, r) && thre <= r &&
    forall x :: |x| == |w| && IsBinary(x) && thre <= Dot(w, x) ==> r <= Dot(w, x)
  }

  /**
   * Whatever assignment an honest engine returns for the formulation is a 0/1
   * choice of inputs whose sum is admissible; in upper-bound mode that sum is the
   * largest subset sum below thre, in lower-bound mode the smallest at or above it.
   */
  lemma HonestAnswer(e: Engine, w: seq<int>, thre: int, upper: int, lower: int)
    requires Honest(e) && SolverSucceeds(e, w, thre, upper, lower)
    ensures var v := Assignment(e, w, thre, upper, lower);
      |v| == |w| && IsBinary(v) && Admissible(thre, upper, lower, Dot(w, v)) &&
      (ModeOf(upper, lower) == UpperBound ==> IsMaxBelow(w, thre, Dot(w, v))) &&
      (ModeOf(upper, lower) == LowerBound ==> IsMinAtLeast(w, thre, Dot(w, v)))
  {
    var m := FormulationModel(w, thre, upper, lower);
    var v := Assignment(e, w, thre, upper, lower);
    assert IsOptimum(m, v);
    ModelPoints(w, thre, upper, lower, v);
    assert IsSubsetSum(w, Dot(w, v));
    forall x | |x| == |w| && IsBinary(x) && Admissible(thre, upper, lower, Dot(w, x))
      ensures ModeOf(upper, lower) == UpperBound ==> Dot(w, x) <= Dot(w, v)
      ensures ModeOf(upper, lower) == LowerBound ==> Dot(w, v) <= Dot(w, x)
    {
      ModelPoints(w, thre, upper, lower, x);
    }
  }

  /** A complete engine reports OPTIMAL whenever some 0/1 choice is admissible. */
  lemma CompleteSucceeds(e: Engine, w: seq<int>, thre: int, upper: int, lower: int)
    requires Complete(e) && Achievable(w, thre, upper, lower)
    ensures SolverSucceeds(e, w, thre, upper, lower)
  {
    var m := FormulationModel(w, thre, upper, lower);
    var x :| |x| == |w| && IsBinary(x) && Admissible(thre, upper, lower, Dot(w, x));
    ModelPoints(w, thre, upper, lower, x);
    assert Feasible(m);
    forall y | |y| == m.ncol && Satisfies(m, y)
      ensures IsBinary(y)
    {
      ModelPoints(w, thre, upper, lower, y);
    }
    assert Bounded(m);
  }

  /** With an engine that is honest and complete, the solve succeeds exactly when
      an admissible choice exists. */
  lemma SucceedsIffAchievable(e: Engine, w: seq<int>, thre: int, upper: int, lower: int)
    requires Honest(e) && Complete(e)
    ensures SolverSucceeds(e, w, thre, upper, lower) <==> Achievable(w, thre, upper, lower)
  {
    if SolverSucceeds(e, w, thre, upper, lower) {
      HonestAnswer(e, w, thre, upper, lower);
      assert Admissible(thre, upper, lower, Dot(w, Assignment(e, w, thre, upper, lower)));
    }
    if Achievable(w, thre, upper, lower) {
      CompleteSucceeds(e, w, thre, upper, lower);
    }
  }

  /** The two rows per variable of constructLP's outer loop. */
  method DomainConstraints(n: nat) returns (A: seq<seq<int>>, B: seq<int>)
    ensures A == DomainRows(n, n) && B == DomainRhs(n)
  {
    A, B := [], [];
    for i := 0 to n
      invariant A == DomainRows(n, i) && B == DomainRhs(i)
    {
      var temp: seq<int> := [];
      for j := 0 to n
        invariant temp == Unit(n, i, 1)[..j]
      {
        if i == j { temp := temp + [1]; } else { temp := temp + [0]; }
      }
      assert temp == Unit(n, i, 1);
      A := A + [temp];
      B := B + [0];

      temp := [];
      for j := 0 to n
        invariant temp == Unit(n, i, -1)[..j]
      {
        if i == j { temp := temp + [-1]; } else { temp := temp + [0]; }
      }
      assert temp == Unit(n, i, -1);
      A := A + [temp];
      B := B + [-1];
    }
  }

  /** The loop that pushes c * weight for every weight. */
  method ScaledRow(w: seq<int>, c: int) returns (row: seq<int>)
    ensures row == Scaled(w, c)
  {
    row := [];
    for k := 0 to |w|
      invariant row == Scaled(w[..k], c)
    {
      row := row + [c * w[k]];
    }
    assert w[..|w|] == w;
  }

  /** The loop that recomputes the bound as the sum of weight * ans[k]. */
  method WeightedSum(w: seq<int>, ans: seq<int>) returns (ret: int)
    requires |ans| == |w|
    ensures ret == Dot(w, ans)
  {
    ret := 0;
    for k := 0 to |w|
      invariant ret == Dot(w[..k], ans[..k])
    {
      assert w[..k + 1][..k] == w[..k] && ans[..k + 1][..k] == ans[..k];
      ret := ret + w[k] * ans[k];
    }
    assert w[..|w|] == w && ans[..|ans|] == ans;
  }

  /** Upper-bound mode: appends -w with right-hand side 1 - thre, maximises, and
      sums weight * ans[k] over the returned assignment. With no weights the sum
      is empty and the result is 0 whatever the engine did; otherwise the engine
      must succeed, as the source reads ans[k] unchecked. aborted is set when
      solveLp's assert on the returned values fails, which never happens. */
  method UpperBoundLp(e: Engine, w: seq<int>, thre: int, upper: int, lower: int,
                      A0: seq<seq<int>>, B0: seq<int>) returns (r: int, aborted: bool)
    requires A0 == DomainRows(|w|, |w|) && B0 == DomainRhs(|w|)
    requires ModeOf(upper, lower) == UpperBound
    requires Honest(e) && (|w| > 0 ==> SolverSucceeds(e, w, thre, upper, lower))
    ensures !aborted
    ensures SolverSucceeds(e, w, thre, upper, lower) ==>
      r == Dot(w, Assignment(e, w, thre, upper, lower)) && IsMaxBelow(w, thre, r)
    ensures |w| == 0 ==> r == 0
  {
    var objective := ScaledRow(w, -1);
    var A := A0 + [objective];
    var B := B0 + [-1 * thre + 1];
    assert System(A, B) == Formulation(w, thre, upper, lower);
    assert FormulationModel(w, thre, upper, lower) == BuildModel(A, B, true, false);
    if SolverSucceeds(e, w, thre, upper, lower) {
      HonestAnswer(e, w, thre, upper, lower);
    }
    var result, ans;
    result, ans, aborted := SolveLp(e, A, B, [], true, false);
    if SolverSucceeds(e, w, thre, upper, lower) {
      assert ans == [] + Assignment(e, w, thre, upper, lower) == Assignment(e, w, thre, upper, lower);
    }
    r := WeightedSum(w, ans);
  }

  /** Lower-bound mode: appends w with right-hand side thre, minimises, and sums
      weight * ans[k] over the returned assignment; the empty weight vector and
      aborted are as in UpperBoundLp. */
  method LowerBoundLp(e: Engine, w: seq<int>, thre: int, upper: int, lower: int,
                      A0: seq<seq<int>>, B0: seq<int>) returns (r: int, aborted: bool)
    requires A0 == DomainRows(|w|, |w|) && B0 == DomainRhs(|w|)
    requires ModeOf(upper, lower) == LowerBound
    requires Honest(e) && (|w| > 0 ==> SolverSucceeds(e, w, thre, upper, lower))
    ensures !aborted
    ensures SolverSucceeds(e, w, thre, upper, lower) ==>
      r == Dot(w, Assignment(e, w, thre, upper, lower)) && IsMinAtLeast(w, thre, r)
    ensures |w| == 0 ==> r == 0
  {
    var objective := ScaledRow(w, 1);
    assert objective == w;
    var A := A0 + [objective];
    var B := B0 + [thre];
    assert System(A, B) == Formulation(w, thre, upper, lower);
    assert FormulationModel(w, thre, upper, lower) == BuildModel(A, B, false, true);
    if SolverSucceeds(e, w, thre, upper, lower) {
      HonestAnswer(e, w, thre, upper, lower);
    }
    var result, ans;
    result, ans, aborted := SolveLp(e, A, B, [], false, true);
    if SolverSucceeds(e, w, thre, upper, lower) {
      assert ans == [] + Assignment(e, w, thre, upper, lower) == Assignment(e, w, thre, upper, lower);
    }
    r := WeightedSum(w, ans);
  }

  /** Feasibility mode: appends -w with right-hand side 1 - upper and w with
      right-hand side lower, and returns solveLp's result. */
  method FeasibilityLp(e: Engine, w: seq<int>, thre: int, upper: int, lower: int,
                       A0: seq<seq<int>>, B0: seq<int>) returns (r: int, aborted: bool)
    requires A0 == DomainRows(|w|, |w|) && B0 == DomainRhs(|w|)
    requires ModeOf(upper, lower) == Feasibility
    requires Honest(e)
    ensures !aborted
    ensures r == (if SolverSucceeds(e, w, thre, upper, lower) then |w| else 0)
    ensures r != 0 ==> Achievable(w, thre, upper, lower)
    ensures Complete(e) ==> (r != 0 <==> |w| > 0 && Achievable(w, thre, upper, lower))
  {
    var objective := ScaledRow(w, -1);
    var A := A0 + [objective];
    var B := B0 + [-1 * upper + 1];
    objective := ScaledRow(w, 1);
    assert objective == w;
    A := A + [objective];
    B := B + [lower];
    assert System(A, B) == Formulation(w, thre, upper, lower);
    if SolverSucceeds(e, w, thre, upper, lower) {
      HonestAnswer(e, w, thre, upper, lower);
    }
    if Complete(e) {
      SucceedsIffAchievable(e, w, thre, upper, lower);
    }
    var ans;
    r, ans, aborted := SolveLp(e, A, B, [], false, false);
  }

  /**
   * constructLP. In the two bound modes the result is w . ans: the largest subset
   * sum below thre, or the smallest at or above it. The engine must succeed there
   * when there are weights (the source reads ans[k] without checking); with no
   * weights the result is 0. In feasibility mode the result is solveLp's: |w|
   * when the engine finds a point, 0 otherwise. aborted reports a failure of
   * solveLp's assert that the returned values are not negative; it never fails.
   */
  method ConstructLp(e: Engine, w: seq<int>, thre: int, upper: int, lower: int)
    returns (r: int, aborted: bool)
    requires Honest(e)
    requires ModeOf(upper, lower) != Feasibility && |w| > 0 ==> SolverSucceeds(e, w, thre, upper, lower)
    ensures !aborted
    ensures ModeOf(upper, lower) == UpperBound && SolverSucceeds(e, w, thre, upper, lower) ==>
      r == Dot(w, Assignment(e, w, thre, upper, lower)) && IsMaxBelow(w, thre, r)
    ensures ModeOf(upper, lower) == LowerBound && SolverSucceeds(e, w, thre, upper, lower) ==>
      r == Dot(w, Assignment(e, w, thre, upper, lower)) && IsMinAtLeast(w, thre, r)
    ensures ModeOf(upper, lower) != Feasibility && |w| == 0 ==> r == 0
    ensures ModeOf(upper, lower) == Feasibility ==>
      r == (if SolverSucceeds(e, w, thre, upper, lower) then |w| else 0) &&
      (r != 0 ==> Achievable(w, thre, upper, lower))
    ensures ModeOf(upper, lower) == Feasibility && Complete(e) ==>
      (r != 0 <==> |w| > 0 && Achievable(w, thre, upper, lower))
  {
    var A, B := DomainConstraints(|w|);
    if upper == -1 {
      r, aborted := UpperBoundLp(e, w, thre, upper, lower, A, B);
    } else if lower == -1 {
      r, aborted := LowerBoundLp(e, w, thre, upper, lower, A, B);
    } else {
      r, aborted := FeasibilityLp(e, w, thre, upper, lower, A, B);
    }
  }
}
