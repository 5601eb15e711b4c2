/** Accelerations of a body with forced degrees of freedom: the part of
    Body::calculate_state_derivatives that writes the six acceleration slots of the derivative vector. */
module BodyAccelerations {
  import opened LinearAlgebra
  import opened BlockedDofs
  import opened ForcedMotion

  /** Slot of the first of the six velocity components, whose derivatives are the accelerations. */
  const FIRST_VELOCITY := 3

  /** maxCoeff of a row. */
  function MaxCoeff(v: Vector): (m: real)
    requires v != []
    ensures m in v && forall i :: 0 <= i < |v| ==> v[i] <= m
  {
    if |v| == 1 then v[0]
    else
      var m := MaxCoeff(v[1..]);
      if v[0] < m then m else v[0]
  }

  function RowMaxima(m: Matrix): (v: Vector)
    requires forall i :: 0 <= i < |m| ==> m[i] != []
    ensures |v| == |m|
  {
    seq(|m|, i requires 0 <= i < |m| => MaxCoeff(m[i]))
  }

  predicate SomeForced(dof: BlockedDof, positions: bool, t: real) {
    exists i: nat :: i < AXES && ForcedAxis(dof, positions, i, t)
  }

  lemma RowMaximaOfDelta(dof: BlockedDof, positions: bool, t: real)
    ensures forall i :: 0 <= i < AXES ==>
              RowMaxima(Delta(dof, positions, t))[i] == if ForcedAxis(dof, positions, i, t) then 1.0 else 0.0
    ensures MaxCoeff(RowMaxima(Delta(dof, positions, t))) > 0.0 <==> SomeForced(dof, positions, t)
  {
    var delta := Delta(dof, positions, t);
    forall i | 0 <= i < AXES
      ensures RowMaxima(delta)[i] == if ForcedAxis(dof, positions, i, t) then 1.0 else 0.0
    {
      RowOfDelta(dof, positions, t, i);
    }
    var maxima := RowMaxima(delta);
    if SomeForced(dof, positions, t) {
      var i: nat :| i < AXES && ForcedAxis(dof, positions, i, t);
      assert maxima[i] == 1.0;
    }
  }

  lemma RowOfDelta(dof: BlockedDof, positions: bool, t: real, i: nat)
    requires i < AXES
    ensures MaxCoeff(Delta(dof, positions, t)[i]) == if ForcedAxis(dof, positions, i, t) then 1.0 else 0.0
  {
    var row := Delta(dof, positions, t)[i];
    assert ForcedAxis(dof, positions, i, t) ==> row[i] == 1.0;
    assert forall j :: 0 <= j < AXES ==> row[j] <= if ForcedAxis(dof, positions, i, t) then 1.0 else 0.0;
  }

  /** What the kinematics of the body supply: A, B and cos(theta). */
  datatype Kinematics = Kinematics(a: Matrix, b: Vector, cosTheta: real)

  predicate ValidInputs(dof: BlockedDof, kin: Kinematics, minv: Matrix, force: Vector) {
    && Valid(dof) && IsMatrix(kin.a, AXES, AXES) && |kin.b| == AXES
    && IsMatrix(minv, AXES, AXES) && |force| == AXES
  }

  ghost predicate KeepsDimension(solver: Solver) {
    forall m, v :: |solver(m, v)| == |v|
  }

  function ProblemAt(dof: BlockedDof, t: real, kin: Kinematics, minv: Matrix, force: Vector): (p: Problem)
    requires ValidInputs(dof, kin, minv, force)
    ensures ValidProblem(p) && |p.rowMax| == AXES
  {
    Problem(kin.a, kin.b, minv, kin.cosTheta, Overridden(dof, true, t, 2, Zero(AXES)),
            RowMaxima(Delta(dof, true, t)), dof.tx, Times(minv, force))
  }

  /** The accelerations at time t: those of the forces, corrected by the reaction when positions are
      forced, and overridden by the derivatives of the forced velocities. */
  ghost function AccelerationsAt(
    solver: Solver, dof: BlockedDof, t: real, kin: Kinematics, minv: Matrix, force: Vector): (v: Vector)
    requires KeepsDimension(solver) && ValidInputs(dof, kin, minv, force)
    ensures |v| == AXES
  {
    var p := ProblemAt(dof, t, kin, minv, force);
    var moved := if SomeForced(dof, true, t) then Updated(p, solver(Lhs(p), Rhs(p))) else p.free;
    if SomeForced(dof, false, t) then Overridden(dof, false, t, 1, moved) else moved
  }

  method ForceMotion(
    solver: Solver, dof: BlockedDof, t: real, kin: Kinematics, minv: Matrix, force: Vector, deltaX: Matrix)
    returns (accelerations: Vector)
    requires KeepsDimension(solver) && ValidInputs(dof, kin, minv, force) && deltaX == Delta(dof, true, t)
    ensures var p := ProblemAt(dof, t, kin, minv, force);
            accelerations == Updated(p, solver(Lhs(p), Rhs(p)))
  {
    var ddXi := GetForced(dof, true, t, Zero(AXES), 2);
    var p := Problem(kin.a, kin.b, minv, kin.cosTheta, ddXi, RowMaxima(deltaX), dof.tx, Times(minv, force));
    assert p == ProblemAt(dof, t, kin, minv, force);
    var solution := Solve(solver, p);
    accelerations := solution.accelerations;
  }

  method ComputeAccelerations(
    solver: Solver, dof: BlockedDof, t: real, kin: Kinematics, minv: Matrix, force: Vector)
    returns (accelerations: Vector)
    requires KeepsDimension(solver) && ValidInputs(dof, kin, minv, force)
    ensures accelerations == AccelerationsAt(solver, dof, t, kin, minv, force)
  {
    accelerations := Times(minv, force);
    var deltaX := GetDelta(dof, true, t);
    var deltaV := GetDelta(dof, false, t);
    RowMaximaOfDelta(dof, true, t);
    RowMaximaOfDelta(dof, false, t);
    if MaxCoeff(RowMaxima(deltaX)) > 0.0 {
      accelerations := ForceMotion(solver, dof, t, kin, minv, force, deltaX);
    }
    if MaxCoeff(RowMaxima(deltaV)) > 0.0 {
      accelerations := GetForced(dof, false, t, accelerations, 1);
    }
  }

  method CalculateAccelerations(
    solver: Solver, dof: BlockedDof, t: real, kin: Kinematics, minv: Matrix, force: Vector, dxdt: array<real>)
    requires KeepsDimension(solver) && ValidInputs(dof, kin, minv, force)
    requires dxdt.Length >= (dof.bodyIdx + 1) * STATES_PER_BODY
    modifies dxdt
    ensures var first := dof.bodyIdx * STATES_PER_BODY + FIRST_VELOCITY;
            && dxdt[first..first + AXES] == AccelerationsAt(solver, dof, t, kin, minv, force)
            && dxdt[..first] == old(dxdt[..first]) && dxdt[first + AXES..] == old(dxdt[first + AXES..])
  {
    var accelerations := ComputeAccelerations(solver, dof, t, kin, minv, force);
    WriteSlots(dxdt, dof.bodyIdx * STATES_PER_BODY + FIRST_VELOCITY, accelerations);
  }

  method WriteSlots(dxdt: array<real>, first: nat, values: Vector)
    requires first + |values| <= dxdt.Length
    modifies dxdt
    ensures dxdt[first..first + |values|] == values
    ensures dxdt[..first] == old(dxdt[..first]) && dxdt[first + |values|..] == old(dxdt[first + |values|..])
  {
    for i := 0 to |values|
      invariant dxdt[first..first + i] == values[..i]
      invariant dxdt[..first] == old(dxdt[..first]) && dxdt[first + |values|..] == old(dxdt[first + |values|..])
    {
      dxdt[first + i] := values[i];
    }
  }

  /** Second derivative that the motion of a position prescribes; zero at the very end of its window. */
  function ForcedSecondDerivative(dof: BlockedDof, t: real, axis: nat): real
    requires axis < AXES && Valid(dof) && ForcedAxis(dof, true, axis, t)
  {
    var s := PositionOf(axis);
    if t == dof.tmax[s] then 0.0 else dof.blocked[s].df(t, 2)
  }

  /** What the forced motion prescribes on an axis, times cos(theta): its second derivative if the position
      is forced, else the value of its unknown. */
  function Target(dof: BlockedDof, t: real, kin: Kinematics, rowMax: Vector, y: Vector, i: nat): real
    requires Valid(dof) && |y| == |rowMax| == AXES && i < AXES
  {
    Mul(kin.cosTheta, if ForcedAxis(dof, true, i, t) then ForcedSecondDerivative(dof, t, i) else y[UnknownOf(rowMax, i)])
  }

  lemma PositionsExcludeVelocities(dof: BlockedDof, t: real)
    requires Valid(dof) && SomeForced(dof, true, t)
    ensures !SomeForced(dof, false, t)
  {
  }

  lemma PrescribedOnAxis(
    dof: BlockedDof, t: real, kin: Kinematics, minv: Matrix, force: Vector, y: Vector, i: nat)
    requires ValidInputs(dof, kin, minv, force) && |y| == AXES && i < AXES
    ensures var p := ProblemAt(dof, t, kin, minv, force);
            Prescribed(p, y, i) == Target(dof, t, kin, p.rowMax, y, i)
  {
    RowMaximaOfDelta(dof, true, t);
    SecondDerivatives(dof, t, i);
    MulTerm(0.0, 0.0, 0.0, kin.cosTheta);
  }

  /** The solver's answer solves the system if and only if every forced position gets exactly its
      second derivative, and every free one the value of its own unknown. */
  lemma ForcedMotionIsMet(
    solver: Solver, dof: BlockedDof, t: real, kin: Kinematics, minv: Matrix, force: Vector)
    requires KeepsDimension(solver) && ValidInputs(dof, kin, minv, force) && SomeForced(dof, true, t)
    ensures var p := ProblemAt(dof, t, kin, minv, force);
            var y := solver(Lhs(p), Rhs(p));
            var v := AccelerationsAt(solver, dof, t, kin, minv, force);
            Times(Lhs(p), y) == Rhs(p) <==>
            forall i :: 0 <= i < AXES ==> Acceleration(p, v, i) == Target(dof, t, kin, p.rowMax, y, i)
  {
    var p := ProblemAt(dof, t, kin, minv, force);
    var y := solver(Lhs(p), Rhs(p));
    PositionsExcludeVelocities(dof, t);
    SolvedIffPrescribed(p, y);
    forall i | 0 <= i < AXES
      ensures Prescribed(p, y, i) == Target(dof, t, kin, p.rowMax, y, i)
    {
      PrescribedOnAxis(dof, t, kin, minv, force, y, i);
    }
  }

  /** The reaction reported afterwards combines only the patterns of the positions forced at t. */
  lemma ReactionOfForcedPositions(
    solver: Solver, dof: BlockedDof, t: real, kin: Kinematics, minv: Matrix, force: Vector, inertia: Matrix, k: nat)
    requires KeepsDimension(solver) && ValidInputs(dof, kin, minv, force) && k < AXES
    requires SomeForced(dof, true, t)
    requires IsMatrix(inertia, AXES, AXES) && Product(inertia, minv, AXES) == Identity(AXES)
    ensures var p := ProblemAt(dof, t, kin, minv, force);
            Reaction(inertia, AccelerationsAt(solver, dof, t, kin, minv, force), force)[k]
            == Combination(p.rowMax, dof.tx, solver(Lhs(p), Rhs(p)), k, AXES)
  {
    var p := ProblemAt(dof, t, kin, minv, force);
    PositionsExcludeVelocities(dof, t);
    ReactionCombinesPatterns(p, solver(Lhs(p), Rhs(p)), inertia, force, k);
  }

  lemma OneTableForces(dof: BlockedDof, table: Table, t: real, i: nat, j: nat)
    requires ReflectsAll(dof, [table]) && IsPosition(table.state) && IsBlocked(dof, table.state, t)
    requires i == Axis(table.state) && j < AXES
    ensures ForcedAxis(dof, true, j, t) <==> j == i
  {
    assert Reflects(dof, [table][0]);
    AxisIsInjective(table.state, PositionOf(i));
    if PositionOf(j) in dof.blocked {
      assert States([table], PositionOf(j));
    }
  }

  lemma PatternOfOneTable(dof: BlockedDof, table: Table, i: nat, k: nat)
    requires ReflectsAll(dof, [table]) && IsPosition(table.state) && i == Axis(table.state) && k < AXES
    ensures |table.howApplied| == AXES && dof.tx[k][i] == table.howApplied[k]
  {
    assert Reflects(dof, [table][0]);
    assert Column(dof.tx, i)[k] == dof.tx[k][i];
  }

  lemma ReactionOfOneAxis(
    solver: Solver, dof: BlockedDof, t: real, kin: Kinematics, minv: Matrix, force: Vector, inertia: Matrix, i: nat,
    k: nat)
    requires KeepsDimension(solver) && ValidInputs(dof, kin, minv, force) && i < AXES && k < AXES
    requires forall j: nat :: j < AXES ==> (ForcedAxis(dof, true, j, t) <==> j == i)
    requires IsMatrix(inertia, AXES, AXES) && Product(inertia, minv, AXES) == Identity(AXES)
    ensures var p := ProblemAt(dof, t, kin, minv, force);
            Reaction(inertia, AccelerationsAt(solver, dof, t, kin, minv, force), force)[k]
            == Mul(dof.tx[k][i], solver(Lhs(p), Rhs(p))[5])
  {
    var p := ProblemAt(dof, t, kin, minv, force);
    var y := solver(Lhs(p), Rhs(p));
    assert ForcedAxis(dof, true, i, t);
    ReactionOfForcedPositions(solver, dof, t, kin, minv, force, inertia, k);
    RowMaximaOfDelta(dof, true, t);
    assert forall j :: 0 <= j < AXES ==> p.rowMax[j] == (if j == i then 1.0 else 0.0);
    SingleCombination(p.rowMax, p.tx, y, i, k, AXES);
  }

  /** With a single table of a position, the reaction is the forcing pattern of that table times the intensity
      found, in the last unknown. */
  lemma ReactionOfOneTable(
    solver: Solver, dof: BlockedDof, table: Table, t: real, kin: Kinematics, minv: Matrix, force: Vector,
    inertia: Matrix, k: nat)
    requires KeepsDimension(solver) && ValidInputs(dof, kin, minv, force) && k < AXES
    requires ReflectsAll(dof, [table]) && IsPosition(table.state) && IsBlocked(dof, table.state, t)
    requires IsMatrix(inertia, AXES, AXES) && Product(inertia, minv, AXES) == Identity(AXES)
    ensures |table.howApplied| == AXES
    ensures var p := ProblemAt(dof, t, kin, minv, force);
            Reaction(inertia, AccelerationsAt(solver, dof, t, kin, minv, force), force)[k]
            == Mul(table.howApplied[k], solver(Lhs(p), Rhs(p))[5])
  {
    var i := Axis(table.state);
    PatternOfOneTable(dof, table, i, k);
    forall j: nat | j < AXES ensures ForcedAxis(dof, true, j, t) <==> j == i {
      OneTableForces(dof, table, t, i, j);
    }
    ReactionOfOneAxis(solver, dof, t, kin, minv, force, inertia, i, k);
  }

  /** A forced velocity has the derivative of its forced motion, but at the very end of its window; there, and
      on the other axes, the acceleration is that of the forces. */
  lemma ForcedVelocityIsMet(
    solver: Solver, dof: BlockedDof, t: real, kin: Kinematics, minv: Matrix, force: Vector, i: nat)
    requires KeepsDimension(solver) && ValidInputs(dof, kin, minv, force) && i < AXES
    requires SomeForced(dof, false, t)
    ensures var s := VelocityOf(i);
            AccelerationsAt(solver, dof, t, kin, minv, force)[i] ==
            if ForcedAxis(dof, false, i, t) && t != dof.tmax[s] then dof.blocked[s].df(t, 1)
            else Times(minv, force)[i]
  {
    assert !SomeForced(dof, true, t) by {
      if SomeForced(dof, true, t) {
        PositionsExcludeVelocities(dof, t);
      }
    }
  }

  /** Without any forced state there is no reaction. */
  lemma NoForcingNoReaction(
    solver: Solver, dof: BlockedDof, t: real, kin: Kinematics, minv: Matrix, force: Vector, inertia: Matrix)
    requires KeepsDimension(solver) && ValidInputs(dof, kin, minv, force)
    requires !SomeForced(dof, true, t) && !SomeForced(dof, false, t)
    requires IsMatrix(inertia, AXES, AXES) && Product(inertia, minv, AXES) == Identity(AXES)
    ensures AccelerationsAt(solver, dof, t, kin, minv, force) == Times(minv, force)
    ensures Reaction(inertia, AccelerationsAt(solver, dof, t, kin, minv, force), force) == Zero(AXES)
  {
    InertiaUndoesInverse(inertia, minv, force);
  }
}
