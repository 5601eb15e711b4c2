/** The constrained solve of Body::calculate_state_derivatives and the reaction of Body::get_delta_F.

    One vector of unknowns holds the accelerations of the free axes, packed from the front, and the
    intensities of the forcing patterns, packed from the back. The kinematic matrices A and B and the
    linear solver are parameters; the results hold for whatever vector the solver returns. */
module ForcedMotion {
  import opened LinearAlgebra
  import opened BlockedDofs

  // ----- Packing of the unknowns -----

  /** Free axes among the first i; an axis is free when the largest entry of its forcing row is zero. */
  function FreeBefore(rowMax: Vector, i: nat): (count: nat)
    requires i <= |rowMax|
    ensures count <= i
  {
    if i == 0 then 0 else FreeBefore(rowMax, i - 1) + if rowMax[i - 1] == 0.0 then 1 else 0
  }

  function ForcedBefore(rowMax: Vector, i: nat): (count: nat)
    requires i <= |rowMax|
    ensures count <= i
  {
    if i == 0 then 0 else ForcedBefore(rowMax, i - 1) + if rowMax[i - 1] > 0.0 then 1 else 0
  }

  /** Unknown that belongs to axis i: counted up from the front when free, down from the back if not. */
  function UnknownOf(rowMax: Vector, i: nat): (c: nat)
    requires i < |rowMax|
    ensures c < |rowMax|
  {
    if rowMax[i] == 0.0 then FreeBefore(rowMax, i) else |rowMax| - 1 - ForcedBefore(rowMax, i)
  }

  predicate NoNegative(rowMax: Vector) {
    forall i :: 0 <= i < |rowMax| ==> rowMax[i] >= 0.0
  }

  lemma {:induction false} CountsAddUp(rowMax: Vector, i: nat)
    requires NoNegative(rowMax) && i <= |rowMax|
    ensures FreeBefore(rowMax, i) + ForcedBefore(rowMax, i) == i
  {
    if i > 0 {
      CountsAddUp(rowMax, i - 1);
    }
  }

  lemma {:induction false} CountsGrow(rowMax: Vector, i: nat, j: nat)
    requires i < j <= |rowMax|
    ensures FreeBefore(rowMax, i) + (if rowMax[i] == 0.0 then 1 else 0) <= FreeBefore(rowMax, j)
    ensures ForcedBefore(rowMax, i) + (if rowMax[i] > 0.0 then 1 else 0) <= ForcedBefore(rowMax, j)
  {
    if i < j - 1 {
      CountsGrow(rowMax, i, j - 1);
    }
  }

  /** Free and forced axes share out the unknowns: each axis has its own, those of free axes come first and in
      order, and those of forced axes in reverse order. */
  lemma UnknownsArePartitioned(rowMax: Vector, i: nat, j: nat)
    requires NoNegative(rowMax) && i < |rowMax| && j < |rowMax|
    ensures i != j ==> UnknownOf(rowMax, i) != UnknownOf(rowMax, j)
    ensures UnknownOf(rowMax, i) < FreeBefore(rowMax, |rowMax|) <==> rowMax[i] == 0.0
    ensures i < j && rowMax[i] == rowMax[j] == 0.0 ==> UnknownOf(rowMax, i) < UnknownOf(rowMax, j)
    ensures i < j && rowMax[i] > 0.0 && rowMax[j] > 0.0 ==> UnknownOf(rowMax, i) > UnknownOf(rowMax, j)
  {
    var n := |rowMax|;
    CountsAddUp(rowMax, n);
    CountsGrow(rowMax, i, n);
    CountsGrow(rowMax, j, n);
    if i < j {
      CountsGrow(rowMax, i, j);
    } else if j < i {
      CountsGrow(rowMax, j, i);
    }
  }

  lemma {:induction false} OwnerAmong(rowMax: Vector, m: nat, c: nat) returns (i: nat)
    requires NoNegative(rowMax) && m <= |rowMax|
    requires c < FreeBefore(rowMax, m) || |rowMax| - ForcedBefore(rowMax, m) <= c < |rowMax|
    ensures i < m && UnknownOf(rowMax, i) == c
  {
    if c < FreeBefore(rowMax, m - 1) || |rowMax| - ForcedBefore(rowMax, m - 1) <= c {
      i := OwnerAmong(rowMax, m - 1, c);
    } else {
      i := m - 1;
    }
  }

  lemma EveryUnknownIsOwned(rowMax: Vector, c: nat) returns (i: nat)
    requires NoNegative(rowMax) && c < |rowMax|
    ensures i < |rowMax| && UnknownOf(rowMax, i) == c
  {
    CountsAddUp(rowMax, |rowMax|);
    i := OwnerAmong(rowMax, |rowMax|, c);
  }

  /** With a single forced axis i, that axis has the last unknown and the others keep their order. */
  lemma {:induction false} SingleForced(rowMax: Vector, i: nat, k: nat)
    requires i < |rowMax| && k <= |rowMax|
    requires forall j :: 0 <= j < |rowMax| ==> rowMax[j] == (if j == i then 1.0 else 0.0)
    ensures FreeBefore(rowMax, k) == (if k <= i then k else k - 1)
    ensures ForcedBefore(rowMax, k) == (if k <= i then 0 else 1)
  {
    if k > 0 {
      SingleForced(rowMax, i, k - 1);
    }
  }

  // ----- The two packing matrices -----

  /** T_Xi_Y: row i picks the unknown of axis i if it is free. */
  function Selection(rowMax: Vector): (m: Matrix)
    ensures IsMatrix(m, |rowMax|, |rowMax|)
  {
    seq(|rowMax|, i requires 0 <= i < |rowMax| =>
      if rowMax[i] == 0.0 then Unit(|rowMax|, FreeBefore(rowMax, i)) else Zero(|rowMax|))
  }

  method FillSelection(rowMax: Vector) returns (m: Matrix)
    ensures m == Selection(rowMax)
  {
    var n := |rowMax|;
    m := ZeroMatrix(n, n);
    var j := 0;
    for i := 0 to n
      invariant IsMatrix(m, n, n) && j == FreeBefore(rowMax, i)
      invariant forall k :: 0 <= k < i ==> m[k] == Selection(rowMax)[k]
      invariant forall k :: i <= k < n ==> m[k] == Zero(n)
    {
      if rowMax[i] == 0.0 {
        m := m[i := m[i][j := 1.0]];
        j := j + 1;
      }
    }
  }

  /** T_tau_Y after the first i axes: the pattern of each forced one is in the column of its unknown. */
  function Patterns(rowMax: Vector, tx: Matrix, i: nat): (m: Matrix)
    requires IsMatrix(tx, |rowMax|, |rowMax|) && i <= |rowMax|
    ensures IsMatrix(m, |rowMax|, |rowMax|)
  {
    if i == 0 then ZeroMatrix(|rowMax|, |rowMax|)
    else if rowMax[i - 1] > 0.0 then
      SetColumn(Patterns(rowMax, tx, i - 1), |rowMax|, UnknownOf(rowMax, i - 1), Column(tx, i - 1))
    else Patterns(rowMax, tx, i - 1)
  }

  method FillColumn(before: Matrix, n: nat, j: nat, tx: Matrix, i: nat) returns (m: Matrix)
    requires IsMatrix(before, n, n) && IsMatrix(tx, n, n) && j < n && i < n
    ensures m == SetColumn(before, n, j, Column(tx, i))
  {
    m := before;
    for k := 0 to n
      invariant IsMatrix(m, n, n)
      invariant forall l :: 0 <= l < k ==> m[l] == before[l][j := tx[l][i]]
      invariant forall l :: k <= l < n ==> m[l] == before[l]
    {
      m := m[k := m[k][j := tx[k][i]]];
    }
  }

  method FillPatterns(rowMax: Vector, tx: Matrix) returns (m: Matrix)
    requires IsMatrix(tx, |rowMax|, |rowMax|)
    ensures m == Patterns(rowMax, tx, |rowMax|)
  {
    var n := |rowMax|;
    m := ZeroMatrix(n, n);
    var j := n - 1;
    for i := 0 to n
      invariant j == n - 1 - ForcedBefore(rowMax, i)
      invariant m == Patterns(rowMax, tx, i)
    {
      if rowMax[i] > 0.0 {
        m := FillColumn(m, n, j, tx, i);
        j := j - 1;
      }
    }
  }

  lemma SelectionTimes(rowMax: Vector, y: Vector, i: nat)
    requires |y| == |rowMax| && i < |rowMax|
    ensures Dot(Selection(rowMax)[i], y) == if rowMax[i] == 0.0 then y[UnknownOf(rowMax, i)] else 0.0
  {
    if rowMax[i] == 0.0 {
      UnitSelects(|y|, FreeBefore(rowMax, i), y);
    } else {
      DotZero(y, |y|);
    }
  }

  lemma {:induction false} UnusedColumns(rowMax: Vector, tx: Matrix, i: nat, k: nat, c: nat)
    requires IsMatrix(tx, |rowMax|, |rowMax|) && i <= |rowMax| && k < |rowMax|
    requires c < |rowMax| - ForcedBefore(rowMax, i)
    ensures Patterns(rowMax, tx, i)[k][c] == 0.0
  {
    if i > 0 {
      UnusedColumns(rowMax, tx, i - 1, k, c);
    }
  }

  /** Component k of the combination of the patterns of the forced axes among the first i, each with
      the intensity of its unknown. */
  function Combination(rowMax: Vector, tx: Matrix, y: Vector, k: nat, i: nat): real
    requires IsMatrix(tx, |rowMax|, |rowMax|) && |y| == |rowMax| && i <= |rowMax| && k < |rowMax|
  {
    if i == 0 then 0.0
    else Combination(rowMax, tx, y, k, i - 1) +
         if rowMax[i - 1] > 0.0 then Mul(tx[k][i - 1], y[UnknownOf(rowMax, i - 1)]) else 0.0
  }

  lemma {:induction false} PatternsTimes(rowMax: Vector, tx: Matrix, y: Vector, k: nat, i: nat)
    requires IsMatrix(tx, |rowMax|, |rowMax|) && |y| == |rowMax| && i <= |rowMax| && k < |rowMax|
    ensures Dot(Patterns(rowMax, tx, i)[k], y) == Combination(rowMax, tx, y, k, i)
  {
    if i == 0 {
      DotZero(y, |y|);
    } else {
      PatternsTimes(rowMax, tx, y, k, i - 1);
      if rowMax[i - 1] > 0.0 {
        var c := UnknownOf(rowMax, i - 1);
        UnusedColumns(rowMax, tx, i - 1, k, c);
        DotUpdate(Patterns(rowMax, tx, i - 1)[k], y, c, tx[k][i - 1]);
      }
    }
  }

  /** With a single forced axis, the combination is its pattern with the intensity of the last unknown. */
  lemma {:induction false} SingleCombination(rowMax: Vector, tx: Matrix, y: Vector, i: nat, k: nat, n: nat)
    requires IsMatrix(tx, |rowMax|, |rowMax|) && |y| == |rowMax| && i < |rowMax| && k < |rowMax| && n <= |rowMax|
    requires forall j :: 0 <= j < |rowMax| ==> rowMax[j] == (if j == i then 1.0 else 0.0)
    ensures Combination(rowMax, tx, y, k, n) == (if n > i then Mul(tx[k][i], y[|y| - 1]) else 0.0)
  {
    if n > 0 {
      SingleCombination(rowMax, tx, y, i, k, n - 1);
      SingleForced(rowMax, i, i);
    }
  }

  // ----- The solve -----

  /** Inputs of the solve: A, B, the inverse inertia, cos(theta), the prescribed second derivatives,
      the forcing rows, the forcing patterns and the accelerations without forcing. */
  datatype Problem = Problem(
    a: Matrix, b: Vector, minv: Matrix, cosTheta: real, ddXi: Vector, rowMax: Vector, tx: Matrix, free: Vector)

  datatype Solution = Solution(y: Vector, accelerations: Vector)

  type Solver = (Matrix, Vector) -> Vector

  predicate ValidProblem(p: Problem) {
    var n := |p.rowMax|;
    && IsMatrix(p.a, n, n) && IsMatrix(p.minv, n, n) && IsMatrix(p.tx, n, n)
    && |p.b| == |p.ddXi| == |p.free| == n
  }

  function Lhs(p: Problem): (m: Matrix)
    requires ValidProblem(p)
    ensures IsMatrix(m, |p.rowMax|, |p.rowMax|)
  {
    var n := |p.rowMax|;
    MatrixMinus(Product(Product(p.a, p.minv, n), Patterns(p.rowMax, p.tx, n), n),
                MatrixScale(p.cosTheta, Selection(p.rowMax)))
  }

  function Rhs(p: Problem): (v: Vector)
    requires ValidProblem(p)
    ensures |v| == |p.rowMax|
  {
    Minus(Minus(Scale(p.cosTheta, p.ddXi), Times(p.a, p.free)), p.b)
  }

  /** Accelerations due to the reaction. */
  function Push(p: Problem, y: Vector): (v: Vector)
    requires ValidProblem(p) && |y| == |p.rowMax|
    ensures |v| == |p.rowMax|
  {
    Times(Product(p.minv, Patterns(p.rowMax, p.tx, |y|), |y|), y)
  }

  function Updated(p: Problem, y: Vector): (v: Vector)
    requires ValidProblem(p) && |y| == |p.rowMax|
    ensures |v| == |p.rowMax|
  {
    Plus(p.free, Push(p, y))
  }

  method Solve(solver: Solver, p: Problem) returns (s: Solution)
    requires ValidProblem(p) && |solver(Lhs(p), Rhs(p))| == |p.rowMax|
    ensures s.y == solver(Lhs(p), Rhs(p)) && s.accelerations == Updated(p, s.y)
  {
    var n := |p.rowMax|;
    var rhs := Minus(Minus(Scale(p.cosTheta, p.ddXi), Times(p.a, p.free)), p.b);
    var selection := FillSelection(p.rowMax);
    var patterns := FillPatterns(p.rowMax, p.tx);
    var lhs := MatrixMinus(Product(Product(p.a, p.minv, n), patterns, n), MatrixScale(p.cosTheta, selection));
    var y := solver(lhs, rhs);
    s := Solution(y, Plus(p.free, Times(Product(p.minv, patterns, n), y)));
  }

  /** (A v + B) on axis i: cos(theta) times the second derivative of position i. */
  function Acceleration(p: Problem, v: Vector, i: nat): real
    requires ValidProblem(p) && |v| == |p.rowMax| && i < |v|
  {
    Dot(p.a[i], v) + p.b[i]
  }

  /** What the solve prescribes on axis i, given the unknowns. */
  function Prescribed(p: Problem, y: Vector, i: nat): real
    requires ValidProblem(p) && |y| == |p.rowMax| && i < |y|
  {
    Mul(p.cosTheta, p.ddXi[i]) + if p.rowMax[i] == 0.0 then Mul(p.cosTheta, y[UnknownOf(p.rowMax, i)]) else 0.0
  }

  lemma LhsTimes(p: Problem, y: Vector, i: nat)
    requires ValidProblem(p) && |y| == |p.rowMax| && i < |y|
    ensures Dot(Lhs(p)[i], y) == Dot(p.a[i], Push(p, y)) - Mul(p.cosTheta, Dot(Selection(p.rowMax)[i], y))
  {
    var n := |y|;
    var patterns := Patterns(p.rowMax, p.tx, n);
    var left := Product(Product(p.a, p.minv, n), patterns, n);
    DotMinus(left[i], Scale(p.cosTheta, Selection(p.rowMax)[i]), y);
    DotScale(p.cosTheta, Selection(p.rowMax)[i], y);
    Associative(Product(p.a, p.minv, n), patterns, y);
    Associative(p.a, p.minv, Times(patterns, y));
    Associative(p.minv, patterns, y);
    assert Dot(left[i], y) == Times(left, y)[i];
  }

  lemma RhsRow(p: Problem, i: nat)
    requires ValidProblem(p) && i < |p.rowMax|
    ensures Rhs(p)[i] == Mul(p.cosTheta, p.ddXi[i]) - Dot(p.a[i], p.free) - p.b[i]
  {
  }

  lemma UpdatedRow(p: Problem, y: Vector, i: nat)
    requires ValidProblem(p) && |y| == |p.rowMax| && i < |y|
    ensures Acceleration(p, Updated(p, y), i) == Dot(p.a[i], p.free) + Dot(p.a[i], Push(p, y)) + p.b[i]
  {
    DotPlusRight(p.a[i], p.free, Push(p, y));
  }

  lemma PrescribedRow(p: Problem, y: Vector, i: nat)
    requires ValidProblem(p) && |y| == |p.rowMax| && i < |y|
    ensures Prescribed(p, y, i) == Mul(p.cosTheta, p.ddXi[i]) + Mul(p.cosTheta, Dot(Selection(p.rowMax)[i], y))
  {
    SelectionTimes(p.rowMax, y, i);
    MulTerm(0.0, 0.0, 0.0, p.cosTheta);
  }

  /** The residual of row i of the linear system is the error on the acceleration of axis i. */
  lemma RowResidual(p: Problem, y: Vector, i: nat)
    requires ValidProblem(p) && |y| == |p.rowMax| && i < |y|
    ensures Dot(Lhs(p)[i], y) - Rhs(p)[i] == Acceleration(p, Updated(p, y), i) - Prescribed(p, y, i)
  {
    LhsTimes(p, y, i);
    RhsRow(p, i);
    UpdatedRow(p, y, i);
    PrescribedRow(p, y, i);
  }

  /** The system is solved if and only if every forced axis has exactly the prescribed acceleration and
      every free axis the one that its unknown stands for. */
  lemma SolvedIffPrescribed(p: Problem, y: Vector)
    requires ValidProblem(p) && |y| == |p.rowMax|
    ensures Times(Lhs(p), y) == Rhs(p) <==>
            forall i :: 0 <= i < |y| ==> Acceleration(p, Updated(p, y), i) == Prescribed(p, y, i)
  {
    forall i | 0 <= i < |y|
      ensures Times(Lhs(p), y)[i] == Rhs(p)[i] <==> Acceleration(p, Updated(p, y), i) == Prescribed(p, y, i)
    {
      RowResidual(p, y, i);
    }
  }

  // ----- The reaction -----

  /** get_delta_F: the force that the accelerations need beyond the other forces. */
  function Reaction(inertia: Matrix, accelerations: Vector, force: Vector): (tau: Vector)
    requires IsMatrix(inertia, |force|, |force|) && |accelerations| == |force|
    ensures |tau| == |force|
  {
    Minus(Times(inertia, accelerations), force)
  }

  lemma InertiaUndoesInverse(inertia: Matrix, minv: Matrix, u: Vector)
    requires IsMatrix(inertia, |u|, |u|) && IsMatrix(minv, |u|, |u|)
    requires Product(inertia, minv, |u|) == Identity(|u|)
    ensures Times(inertia, Times(minv, u)) == u
  {
    Associative(inertia, minv, u);
    IdentityTimes(u);
  }

  lemma PlusMinus(u: Vector, v: Vector)
    requires |u| == |v|
    ensures Minus(Plus(u, v), u) == v
  {
  }

  lemma ReactionVector(inertia: Matrix, minv: Matrix, tau: Vector, force: Vector)
    requires |tau| == |force| && IsMatrix(inertia, |tau|, |tau|) && IsMatrix(minv, |tau|, |tau|)
    requires Product(inertia, minv, |tau|) == Identity(|tau|)
    ensures Reaction(inertia, Plus(Times(minv, force), Times(minv, tau)), force) == tau
  {
    TimesPlus(inertia, Times(minv, force), Times(minv, tau));
    InertiaUndoesInverse(inertia, minv, force);
    InertiaUndoesInverse(inertia, minv, tau);
    PlusMinus(force, tau);
  }

  /** When the accelerations without forcing are those of the other forces, the reaction is the
      combination of the patterns of the forced axes with the intensities found by the solve. */
  lemma ReactionCombinesPatterns(p: Problem, y: Vector, inertia: Matrix, force: Vector, k: nat)
    requires ValidProblem(p) && |y| == |p.rowMax| == |force| && k < |y|
    requires IsMatrix(inertia, |y|, |y|) && Product(inertia, p.minv, |y|) == Identity(|y|)
    requires p.free == Times(p.minv, force)
    ensures Reaction(inertia, Updated(p, y), force)[k] == Combination(p.rowMax, p.tx, y, k, |y|)
  {
    var patterns := Patterns(p.rowMax, p.tx, |y|);
    Associative(p.minv, patterns, y);
    ReactionVector(inertia, p.minv, Times(patterns, y), force);
    PatternsTimes(p.rowMax, p.tx, y, k, |y|);
  }
}
