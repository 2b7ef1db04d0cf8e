/**
 * The lp_solve library as the solver core sees it: a model of `>=` rows given in
 * sparse form, an objective and a direction, and an engine whose entry points
 * (make_lp, the row buffers, add_constraintex, set_obj_fnex, solve with
 * get_variables) are values supplied by the caller. The engine's internals are
 * not modelled; what the core relies on is stated as the predicates Honest and
 * Complete.
 */
module LpEngine {
  import opened Vectors

  /** A row in the form add_constraintex and set_obj_fnex take: 1-based column
      numbers and, position by position, their coefficients. */
  datatype Sparse = Sparse(colno: seq<int>, coeffs: seq<int>)

  /** The row constraint lhs . x >= rhs (every row here is of type GE). */
  datatype Constraint = Constraint(lhs: Sparse, rhs: int)

  /** What the engine has been given once the model is built: ncol integer
      columns, the rows in the order they were added, the objective and
      whether it is maximised (set_maxim) or minimised (set_minim). */
  datatype Model = Model(ncol: nat, rows: seq<Constraint>, objective: Sparse, maximize: bool)

  /** The result of solve(); only OPTIMAL is told apart by the core. */
  datatype Status = Optimal | Infeasible | NotSolved(code: int)

  /** solve()'s status and the column values get_variables then reads. */
  datatype Reply = Reply(status: Status, values: seq<int>)

  /**
   * The external engine. makeLp(n) is false when make_lp(0, n) returns NULL;
   * allocate(n) is false when the two n-entry row buffers cannot be allocated;
   * addConstraint and setObjective are the success results of add_constraintex
   * and set_obj_fnex; solve answers a finished model.
   */
  datatype Engine = Engine(
    makeLp: nat -> bool,
    allocate: nat -> bool,
    addConstraint: Constraint -> bool,
    setObjective: Sparse -> bool,
    solve: Model -> Reply)

  predicate SparseWellFormed(s: Sparse, ncol: nat)
  {
    |s.colno| == |s.coeffs| &&
    forall t :: 0 <= t < |s.colno| ==> 1 <= s.colno[t] <= ncol
  }

  predicate WellFormed(m: Model)
  {
    SparseWellFormed(m.objective, m.ncol) &&
    forall k :: 0 <= k < |m.rows| ==> SparseWellFormed(m.rows[k].lhs, m.ncol)
  }

  /** The value of a sparse row at the column values x (column c is x[c - 1]). */
  function SparseValue(s: Sparse, x: seq<int>): int
    requires SparseWellFormed(s, |x|)
    decreases |s.colno|
  {
    var n := |s.colno|;
    if n == 0 then 0
    else SparseValue(Sparse(s.colno[..n - 1], s.coeffs[..n - 1]), x) + s.coeffs[n - 1] * x[s.colno[n - 1] - 1]
  }

  /** x meets every row of m. */
  ghost predicate Satisfies(m: Model, x: seq<int>)
    requires WellFormed(m) && |x| == m.ncol
  {
    forall k :: 0 <= k < |m.rows| ==> SparseValue(m.rows[k].lhs, x) >= m.rows[k].rhs
  }

  function ObjectiveValue(m: Model, x: seq<int>): int
    requires WellFormed(m) && |x| == m.ncol
  {
    SparseValue(m.objective, x)
  }

  /** x is feasible for m and no feasible integer point does better in m's
      direction. Every column carries lp_solve's default bounds [0, +inf), so
      only non-negative points are feasible. */
  ghost predicate IsOptimum(m: Model, x: seq<int>)
    requires WellFormed(m)
  {
    |x| == m.ncol && NonNegative(x) && Satisfies(m, x) &&
    forall y :: |y| == m.ncol && NonNegative(y) && Satisfies(m, y) ==>
      if m.maximize then ObjectiveValue(m, y) <= ObjectiveValue(m, x)
      else ObjectiveValue(m, x) <= ObjectiveValue(m, y)
  }

  /** The engine's contract: an OPTIMAL answer is an optimal integer point. */
  ghost predicate Honest(e: Engine)
  {
    forall m :: WellFormed(m) && e.solve(m).status == Optimal ==> IsOptimum(m, e.solve(m).values)
  }

  /** With no rows, minimising the single column x gives 0: the default lower
      bound 0 is what makes that answer optimal. */
  lemma DefaultBoundOptimum()
    ensures IsOptimum(Model(1, [], Sparse([1], [1]), false), [0])
  {
    var m := Model(1, [], Sparse([1], [1]), false);
    forall y | |y| == 1 && NonNegative(y) && Satisfies(m, y)
      ensures ObjectiveValue(m, [0]) <= ObjectiveValue(m, y)
    {
      assert ObjectiveValue(m, y) == y[0];
    }
  }

  /** Every non-negative integer point that meets the rows of m is a 0/1 point. */
  ghost predicate Bounded(m: Model)
    requires WellFormed(m)
  {
    forall x :: |x| == m.ncol && NonNegative(x) && Satisfies(m, x) ==> IsBinary(x)
  }

  ghost predicate Feasible(m: Model)
    requires WellFormed(m)
  {
    exists x :: |x| == m.ncol && NonNegative(x) && Satisfies(m, x)
  }

  /** An engine that never fails for lack of resources and that finds an optimum
      of every feasible model confined to 0/1 points (one exists: there are
      finitely many such points). */
  ghost predicate Complete(e: Engine)
  {
    (forall n :: e.makeLp(n)) &&
    (forall n :: e.allocate(n)) &&
    (forall c :: e.addConstraint(c)) &&
    (forall s :: e.setObjective(s)) &&
    (forall m :: WellFormed(m) && Bounded(m) && Feasible(m) ==> e.solve(m).status == Optimal)
  }

  /** Extending the column values past every referenced column does not change a row's value. */
  lemma {:induction false} SparseValueExtend(s: Sparse, x: seq<int>, v: int)
    requires SparseWellFormed(s, |x|)
    ensures SparseWellFormed(s, |x + [v]|)
    ensures SparseValue(s, x + [v]) == SparseValue(s, x)
    decreases |s.colno|
  {
    var n := |s.colno|;
    if n > 0 {
      SparseValueExtend(Sparse(s.colno[..n - 1], s.coeffs[..n - 1]), x, v);
      assert (x + [v])[s.colno[n - 1] - 1] == x[s.colno[n - 1] - 1];
    }
  }
}
