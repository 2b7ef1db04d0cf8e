/**
 * solveLp: hands a dense system A . x >= B over |A[0]| integer columns to the
 * engine row by row in sparse form, sets the objective from the last row, solves,
 * and appends the optimal column values to the caller's vector.
 */
module LpSolve {
  import opened Vectors
  import opened LpEngine

  /** Every row has as many entries as the first; the first row gives the column count. */
  predicate Rectangular(A: seq<seq<int>>)
  {
    |A| > 0 && forall k :: 0 <= k < |A| ==> |A[k]| == |A[0]|
  }

  /** The sparse form of a dense row: the 1-based columns of its non-zero entries
      in increasing order, with those entries. */
  function Pack(a: seq<int>): Sparse
    decreases |a|
  {
    if |a| == 0 then Sparse([], [])
    else
      var p := Pack(a[..|a| - 1]);
      if a[|a| - 1] == 0 then p
      else Sparse(p.colno + [|a|], p.coeffs + [a[|a| - 1]])
  }

  /** The number of non-zero entries of a. */
  function NonZeros(a: seq<int>): nat
    decreases |a|
  {
    if |a| == 0 then 0
    else NonZeros(a[..|a| - 1]) + (if a[|a| - 1] == 0 then 0 else 1)
  }

  /** The packed row has one entry per non-zero entry of a. */
  lemma {:induction false} PackLength(a: seq<int>)
    ensures |Pack(a).colno| == |Pack(a).coeffs| == NonZeros(a) <= |a|
    decreases |a|
  {
    if |a| > 0 {
      PackLength(a[..|a| - 1]);
    }
  }

  /** Each packed entry names a column of a (1-based) and carries that column's
      non-zero coefficient. */
  lemma {:induction false} PackEntries(a: seq<int>)
    ensures |Pack(a).colno| == |Pack(a).coeffs|
    ensures forall t :: 0 <= t < |Pack(a).colno| ==>
      1 <= Pack(a).colno[t] <= |a| && Pack(a).coeffs[t] == a[Pack(a).colno[t] - 1] && Pack(a).coeffs[t] != 0
    decreases |a|
  {
    PackLength(a);
    if |a| > 0 {
      var a' := a[..|a| - 1];
      PackEntries(a');
      var p, s := Pack(a'), Pack(a);
      forall t | 0 <= t < |s.colno|
        ensures 1 <= s.colno[t] <= |a| && s.coeffs[t] == a[s.colno[t] - 1] && s.coeffs[t] != 0
      {
        if t < |p.colno| {
          assert s.colno[t] == p.colno[t] && s.coeffs[t] == p.coeffs[t];
          assert a'[p.colno[t] - 1] == a[p.colno[t] - 1];
        }
      }
    }
  }

  /** The packed column numbers increase strictly. */
  lemma {:induction false} PackIncreasing(a: seq<int>)
    ensures forall t, u :: 0 <= t < u < |Pack(a).colno| ==> Pack(a).colno[t] < Pack(a).colno[u]
    decreases |a|
  {
    if |a| > 0 {
      var a' := a[..|a| - 1];
      PackIncreasing(a');
      PackEntries(a');
    }
  }

  /** Every non-zero entry of a is packed. */
  lemma {:induction false} PackCovers(a: seq<int>)
    ensures forall i :: 0 <= i < |a| && a[i] != 0 ==> i + 1 in Pack(a).colno
    decreases |a|
  {
    if |a| > 0 {
      var n := |a|;
      var a' := a[..n - 1];
      PackCovers(a');
      forall i | 0 <= i < n - 1 && a[i] != 0
        ensures i + 1 in Pack(a').colno
      {
        assert a'[i] != 0;
      }
    }
  }

  /** Packing keeps the row's value at every point. */
  lemma {:induction false} PackValue(a: seq<int>, x: seq<int>)
    requires |a| == |x|
    ensures SparseWellFormed(Pack(a), |x|)
    ensures SparseValue(Pack(a), x) == Dot(a, x)
    decreases |a|
  {
    PackEntries(a);
    var n := |a|;
    if n > 0 {
      var a', x' := a[..n - 1], x[..n - 1];
      var p := Pack(a');
      PackValue(a', x');
      PackLength(a');
      SparseValueExtend(p, x', x[n - 1]);
      assert x' + [x[n - 1]] == x;
      if a[n - 1] != 0 {
        var s := Pack(a);
        assert Sparse(s.colno[..|p.colno|], s.coeffs[..|p.colno|]) == p;
      }
    }
  }

  /** The column numbers 1, ..., n. */
  function Columns(n: nat): seq<int>
  {
    seq(n, i => i + 1)
  }

  /** A row over all n columns, zero coefficients included, has the dense value. */
  lemma {:induction false} ColumnsValue(c: seq<int>, x: seq<int>)
    requires |c| == |x|
    ensures SparseWellFormed(Sparse(Columns(|c|), c), |x|)
    ensures SparseValue(Sparse(Columns(|c|), c), x) == Dot(c, x)
    decreases |c|
  {
    var n := |c|;
    if n > 0 {
      var c', x' := c[..n - 1], x[..n - 1];
      ColumnsValue(c', x');
      SparseValueExtend(Sparse(Columns(n - 1), c'), x', x[n - 1]);
      assert x' + [x[n - 1]] == x;
      assert Columns(n)[..n - 1] == Columns(n - 1);
    }
  }

  /** The multiplier the objective applies to the last row: -1 to maximise, 1 to
      minimise, 0 when neither flag is set. */
  function ObjectiveSign(max: bool, min: bool): int
  {
    if max then -1 else if min then 1 else 0
  }

  /** The objective handed to set_obj_fnex: every column, with the last row's
      entries scaled by ObjectiveSign. */
  function Objective(A: seq<seq<int>>, max: bool, min: bool): Sparse
    requires Rectangular(A)
  {
    Sparse(Columns(|A[0]|), Scaled(A[|A| - 1], ObjectiveSign(max, min)))
  }

  /** The rows handed to add_constraintex, in order. */
  function Rows(A: seq<seq<int>>, B: seq<int>): seq<Constraint>
    requires |A| == |B|
  {
    seq(|A|, k requires 0 <= k < |A| => Constraint(Pack(A[k]), B[k]))
  }

  /** The model the engine holds when solve is called. */
  function BuildModel(A: seq<seq<int>>, B: seq<int>, max: bool, min: bool): Model
    requires Rectangular(A) && |A| == |B|
  {
    Model(|A[0]|, Rows(A, B), Objective(A, max, min), max)
  }

  /** Every step before solve succeeds: the model and the buffers are created and
      every row and the objective are accepted. */
  predicate Accepted(e: Engine, A: seq<seq<int>>, B: seq<int>, max: bool, min: bool)
    requires Rectangular(A) && |A| == |B|
  {
    e.makeLp(|A[0]|) && e.allocate(|A[0]|) &&
    (forall k :: 0 <= k < |A| ==> e.addConstraint(Constraint(Pack(A[k]), B[k]))) &&
    e.setObjective(Objective(A, max, min))
  }

  /** Every step succeeds and solve reports OPTIMAL. */
  predicate Succeeds(e: Engine, A: seq<seq<int>>, B: seq<int>, max: bool, min: bool)
    requires Rectangular(A) && |A| == |B|
  {
    Accepted(e, A, B, max, min) && e.solve(BuildModel(A, B, max, min)).status == Optimal
  }

  /** Every packed row and the objective name only columns 1..|A[0]|. */
  lemma BuildModelWellFormed(A: seq<seq<int>>, B: seq<int>, max: bool, min: bool)
    requires Rectangular(A) && |A| == |B|
    ensures WellFormed(BuildModel(A, B, max, min))
  {
    var m := BuildModel(A, B, max, min);
    forall k | 0 <= k < |A|
      ensures SparseWellFormed(m.rows[k].lhs, m.ncol)
    {
      PackEntries(A[k]);
    }
  }

  /** The engine is asked the question the dense system poses: its rows say
      A[k] . x >= B[k], its objective is the last row scaled by ObjectiveSign,
      and it maximises exactly when max is set. */
  lemma ModelMeaning(A: seq<seq<int>>, B: seq<int>, max: bool, min: bool, x: seq<int>)
    requires Rectangular(A) && |A| == |B| && |x| == |A[0]|
    ensures WellFormed(BuildModel(A, B, max, min))
    ensures Satisfies(BuildModel(A, B, max, min), x) <==> forall k :: 0 <= k < |A| ==> Dot(A[k], x) >= B[k]
    ensures ObjectiveValue(BuildModel(A, B, max, min), x) == ObjectiveSign(max, min) * Dot(A[|A| - 1], x)
    ensures BuildModel(A, B, max, min).maximize == max
  {
    var m := BuildModel(A, B, max, min);
    forall k | 0 <= k < |A|
      ensures SparseWellFormed(m.rows[k].lhs, m.ncol)
      ensures SparseValue(m.rows[k].lhs, x) == Dot(A[k], x)
    {
      PackValue(A[k], x);
    }
    var c := Scaled(A[|A| - 1], ObjectiveSign(max, min));
    ColumnsValue(c, x);
    DotScaled(A[|A| - 1], ObjectiveSign(max, min), x);
  }

  /**
   * Packs the dense row a into the buffers colno and row as the source's inner
   * loop does, and returns the number of entries written.
   */
  method PackRow(a: seq<int>, colno: array<int>, row: array<int>) returns (j: nat)
    requires colno != row
    requires |a| <= colno.Length && |a| <= row.Length
    modifies colno, row
    ensures j == NonZeros(a) <= |a|
    ensures Sparse(colno[..j], row[..j]) == Pack(a)
  {
    j := 0;
    for i := 0 to |a|
      invariant j <= i
      invariant Sparse(colno[..j], row[..j]) == Pack(a[..i])
    {
      assert a[..i + 1][..i] == a[..i];
      if a[i] == 0 {
        continue;
      }
      PackLength(a[..i]);
      colno[j] := i + 1;
      row[j] := a[i];
      j := j + 1;
    }
    assert a[..|a|] == a;
    PackLength(a);
  }

  /**
   * The row loop of solveLp: packs each row of A into the buffers and adds it
   * with its right-hand side, stopping at the first row the engine refuses.
   */
  method AddRows(e: Engine, A: seq<seq<int>>, B: seq<int>, colno: array<int>, row: array<int>)
    returns (added: bool, rows: seq<Constraint>)
    requires Rectangular(A) && |A| == |B|
    requires colno != row && colno.Length == |A[0]| && row.Length == |A[0]|
    modifies colno, row
    ensures added <==> forall k :: 0 <= k < |A| ==> e.addConstraint(Constraint(Pack(A[k]), B[k]))
    ensures added ==> rows == Rows(A, B)
  {
    added, rows := true, [];
    var k := 0;
    while added && k < |A|
      invariant 0 <= k <= |A|
      invariant added ==> rows == Rows(A, B)[..k]
      invariant added <==> forall i :: 0 <= i < k ==> e.addConstraint(Constraint(Pack(A[i]), B[i]))
    {
      var j := PackRow(A[k], colno, row);
      var c := Constraint(Sparse(colno[..j], row[..j]), B[k]);
      if !e.addConstraint(c) {
        added := false;
      } else {
        assert Rows(A, B)[..k + 1] == Rows(A, B)[..k] + [c];
        rows := rows + [c];
      }
      k := k + 1;
    }
    if added {
      assert Rows(A, B)[..|A|] == Rows(A, B);
    }
  }

  /** The objective loop of solveLp: every column of the last row, negated to
      maximise, as it is to minimise, zero otherwise. */
  method ObjectiveRow(A: seq<seq<int>>, max: bool, min: bool, colno: array<int>, row: array<int>)
    returns (j: nat)
    requires Rectangular(A)
    requires colno != row && colno.Length == |A[0]| && row.Length == |A[0]|
    modifies colno, row
    ensures j == |A[0]|
    ensures Sparse(colno[..j], row[..j]) == Objective(A, max, min)
  {
    j := 0;
    for i := 0 to |A[0]|
      invariant j == i
      invariant colno[..i] == Columns(|A[0]|)[..i]
      invariant row[..i] == Objective(A, max, min).coeffs[..i]
    {
      colno[j] := i + 1;
      if max {
        row[j] := -1 * A[|A| - 1][i];
      } else if min {
        row[j] := A[|A| - 1][i];
      } else {
        row[j] := 0;
      }
      j := j + 1;
    }
    assert colno[..j] == Columns(|A[0]|);
    assert row[..j] == Objective(A, max, min).coeffs;
  }

  /** The read-back loop of solveLp: appends the column values to ans one by one;
      a negative value stops the program at the source's assert. */
  method CollectValues(values: seq<int>, ansIn: seq<int>) returns (ans: seq<int>, aborted: bool)
    ensures aborted <==> exists t :: 0 <= t < |values| && values[t] < 0
    ensures !aborted ==> ans == ansIn + values
  {
    ans, aborted := ansIn, false;
    var j := 0;
    while j < |values|
      invariant 0 <= j <= |values|
      invariant ans == ansIn + values[..j]
      invariant forall t :: 0 <= t < j ==> values[t] >= 0
    {
      ans := ans + [values[j]];
      if ans[|ans| - 1] < 0 {
        aborted := true;
        return;
      }
      j := j + 1;
    }
    assert values[..j] == values;
  }

  /**
   * solveLp. Returns 0 when any step fails (the model, the buffers, a row, the
   * objective) or solve does not report OPTIMAL, and leaves ans as it was; on
   * success appends the |A[0]| column values to ans and returns the new size of
   * ans. A negative column value stops the program at the source's assert,
   * which `aborted` reports.
   */
  method SolveLp(e: Engine, A: seq<seq<int>>, B: seq<int>, ansIn: seq<int>, max: bool, min: bool)
    returns (result: int, ans: seq<int>, aborted: bool)
    requires Rectangular(A) && |A| == |B|
    requires Honest(e)
    ensures !aborted
    ensures !Succeeds(e, A, B, max, min) ==> result == 0 && ans == ansIn
    ensures Succeeds(e, A, B, max, min) ==>
      var v := e.solve(BuildModel(A, B, max, min)).values;
      |v| == |A[0]| &&
      (aborted <==> exists t :: 0 <= t < |v| && v[t] < 0) &&
      (!aborted ==> ans == ansIn + v && result == |ans|)
  {
    var ncol := |A[0]|;
    var ret := 0;
    result, ans, aborted := 0, ansIn, false;
    var colno: array?<int> := null;
    var row: array?<int> := null;
    if !e.makeLp(ncol) {
      ret := 1;  // no model
    }
    var lp := Model(ncol, [], Sparse([], []), false);
    if ret == 0 {
      if e.allocate(ncol) {
        colno := new int[ncol];
        row := new int[ncol];
      }
      if colno == null || row == null {
        ret := 2;  // no buffers
      }
    }

    if ret == 0 {
      var added, rows := AddRows(e, A, B, colno, row);
      if !added {
        ret := 3;  // a row refused
      } else {
        lp := lp.(rows := rows);
      }
    }

    if ret == 0 {
      var j := ObjectiveRow(A, max, min, colno, row);
      var objective := Sparse(colno[..j], row[..j]);
      if !e.setObjective(objective) {
        ret := 4;  // objective refused
      } else {
        lp := lp.(objective := objective);
      }
    }

    if ret == 0 {
      lp := lp.(maximize := max);
      assert lp == BuildModel(A, B, max, min);
      var reply := e.solve(lp);
      ret := if reply.status == Optimal then 0 else 5;
      if ret == 0 {
        BuildModelWellFormed(A, B, max, min);
        ans, aborted := CollectValues(reply.values, ans);
        if aborted {
          return;
        }
      }
    }

    if ret != 0 {
      return 0, ans, aborted;
    }
    result := |ans|;
  }
}
