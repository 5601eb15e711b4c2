/** The position rows of the equation cos(theta) ddXi = A dV + B of Body::calculate_state_derivatives, and
    what they make of the second derivative of a forced position. The second derivative is that of the
    position whose derivative R uvw the same function writes, in still water. */
module ForcedPositions {
  import opened Rotations
  import opened QuaternionKinematics
  import LA = LinearAlgebra
  import BD = BlockedDofs
  import FM = ForcedMotion
  import BA = BodyAccelerations

  // ----- The operators, as matrices -----

  function Coordinate(v: Vec, i: nat): real
    requires i < 3
  {
    if i == 0 then v.x else if i == 1 then v.y else v.z
  }

  function ListOf(v: Vec): LA.Vector {
    [v.x, v.y, v.z]
  }

  function Rows(m: Matrix3): (rows: LA.Matrix)
    ensures LA.IsMatrix(rows, 3, 3)
  {
    [[m.c0.x, m.c1.x, m.c2.x], [m.c0.y, m.c1.y, m.c2.y], [m.c0.z, m.c1.z, m.c2.z]]
  }

  /** Six components: a velocity or acceleration, then a rotation rate or its derivative. */
  function Six(v: Vec, omega: Vec): (s: LA.Vector)
    ensures |s| == 6
  {
    [v.x, v.y, v.z, omega.x, omega.y, omega.z]
  }

  /** The operator T_pg of the source. */
  function Tpg(g: Vec): (m: LA.Matrix)
    ensures LA.IsMatrix(m, 3, 6)
  {
    [[1.0, 0.0, 0.0, 0.0, -g.z, g.y],
     [0.0, 1.0, 0.0, g.z, 0.0, -g.x],
     [0.0, 0.0, 1.0, -g.y, g.x, 0.0]]
  }

  /** Rows 0 to 2 of A. */
  function PositionA(r: Matrix3, g: Vec, cosTheta: real): (a: LA.Matrix)
    ensures LA.IsMatrix(a, 3, 6)
  {
    LA.MatrixScale(cosTheta, LA.Product(Rows(r), Tpg(g), 6))
  }

  /** Rows 0 to 2 of B. */
  function PositionB(rate: Matrix3, g: Vec, cosTheta: real, v: Vec, omega: Vec): (b: LA.Vector)
    ensures |b| == 3
  {
    LA.Scale(cosTheta, LA.Times(LA.Product(Rows(rate), Tpg(g), 6), Six(v, omega)))
  }

  // ----- What they compute -----

  lemma Dot3(a: LA.Vector, x: LA.Vector)
    requires |a| == |x| == 3
    ensures LA.Dot(a, x) == a[0] * x[0] + a[1] * x[1] + a[2] * x[2]
  {
    assert a[..2][..1] == a[..1] && x[..2][..1] == x[..1];
    assert a[..1][..0] == [] && x[..1][..0] == [];
    assert LA.Dot(a[..1], x[..1]) == a[0] * x[0];
    assert LA.Dot(a[..2], x[..2]) == a[0] * x[0] + a[1] * x[1];
  }

  lemma Dot6(a: LA.Vector, x: LA.Vector)
    requires |a| == |x| == 6
    ensures LA.Dot(a, x) == a[0] * x[0] + a[1] * x[1] + a[2] * x[2] + a[3] * x[3] + a[4] * x[4] + a[5] * x[5]
  {
    Dot3(a[..3], x[..3]);
    assert a[..4][..3] == a[..3] && x[..4][..3] == x[..3];
    assert a[..5][..4] == a[..4] && x[..5][..4] == x[..4];
    assert LA.Dot(a[..4], x[..4]) == LA.Dot(a[..3], x[..3]) + a[3] * x[3];
    assert LA.Dot(a[..5], x[..5]) == LA.Dot(a[..4], x[..4]) + a[4] * x[4];
  }

  lemma ThreeRows(m: LA.Matrix, x: LA.Vector, v: Vec)
    requires LA.IsMatrix(m, 3, |x|)
    requires LA.Dot(m[0], x) == v.x && LA.Dot(m[1], x) == v.y && LA.Dot(m[2], x) == v.z
    ensures LA.Times(m, x) == ListOf(v)
  {
  }

  lemma TpgRows(g: Vec, v: Vec, omega: Vec)
    ensures var (m, x) := (Tpg(g), Six(v, omega));
            && LA.Dot(m[0], x) == v.x + Det(g.y, g.z, omega.y, omega.z)
            && LA.Dot(m[1], x) == v.y + Det(g.z, g.x, omega.z, omega.x)
            && LA.Dot(m[2], x) == v.z + Det(g.x, g.y, omega.x, omega.y)
  {
    Dot6(Tpg(g)[0], Six(v, omega));
    Dot6(Tpg(g)[1], Six(v, omega));
    Dot6(Tpg(g)[2], Six(v, omega));
  }

  /** T_pg (v, omega) = v + g x omega. */
  lemma TpgTransports(g: Vec, v: Vec, omega: Vec)
    ensures LA.Times(Tpg(g), Six(v, omega)) == ListOf(Add(v, Cross(g, omega)))
  {
    TpgRows(g, v, omega);
    ThreeRows(Tpg(g), Six(v, omega), Add(v, Cross(g, omega)));
  }

  lemma RowsApply(m: Matrix3, v: Vec)
    ensures LA.Times(Rows(m), ListOf(v)) == ListOf(Apply(m, v))
  {
    Dot3(Rows(m)[0], ListOf(v));
    Dot3(Rows(m)[1], ListOf(v));
    Dot3(Rows(m)[2], ListOf(v));
    ThreeRows(Rows(m), ListOf(v), Apply(m, v));
  }

  lemma RotatedTransport(m: Matrix3, g: Vec, v: Vec, omega: Vec)
    ensures LA.Times(LA.Product(Rows(m), Tpg(g), 6), Six(v, omega)) == ListOf(Apply(m, Add(v, Cross(g, omega))))
  {
    LA.Associative(Rows(m), Tpg(g), Six(v, omega));
    TpgTransports(g, v, omega);
    RowsApply(m, Add(v, Cross(g, omega)));
  }

  lemma RowOfA(r: Matrix3, g: Vec, cosTheta: real, dv: Vec, domega: Vec, i: nat)
    requires i < 3
    ensures LA.Dot(PositionA(r, g, cosTheta)[i], Six(dv, domega))
         == LA.Mul(cosTheta, Coordinate(Apply(r, Add(dv, Cross(g, domega))), i))
  {
    RotatedTransport(r, g, dv, domega);
    LA.DotScale(cosTheta, LA.Product(Rows(r), Tpg(g), 6)[i], Six(dv, domega));
    assert LA.Times(LA.Product(Rows(r), Tpg(g), 6), Six(dv, domega))[i]
        == Coordinate(Apply(r, Add(dv, Cross(g, domega))), i);
  }

  /** Row i of A dV + B, for any rotation matrix and any rate of it. */
  lemma PositionRow(r: Matrix3, rate: Matrix3, g: Vec, cosTheta: real, v: Vec, omega: Vec, dv: Vec, domega: Vec, i: nat)
    requires i < 3
    ensures LA.Dot(PositionA(r, g, cosTheta)[i], Six(dv, domega)) + PositionB(rate, g, cosTheta, v, omega)[i]
         == LA.Mul(cosTheta, Coordinate(Apply(r, Add(dv, Cross(g, domega))), i))
            + LA.Mul(cosTheta, Coordinate(Apply(rate, Add(v, Cross(g, omega))), i))
  {
    RowOfA(r, g, cosTheta, dv, domega, i);
    RotatedTransport(rate, g, v, omega);
  }

  // ----- Against the second derivative of the position -----

  /** Rate of R v, where R turns at dR and v changes at dv. */
  function VelocityRate(r: Matrix3, rate: Matrix3, v: Vec, dv: Vec): Vec {
    Add(Apply(r, dv), Apply(rate, v))
  }

  lemma CombOfExpansions(h: real, w0: real, w1: real, w2: real, a0: real, a1: real, a2: real,
                         b0: real, b1: real, b2: real, c0: real, c1: real, c2: real)
    ensures Comb(w0, w1, w2, Expansion(h, a0, b0, c0), Expansion(h, a1, b1, c1), Expansion(h, a2, b2, c2))
         == Expansion(h, Comb(w0, w1, w2, a0, a1, a2), Comb(w0, w1, w2, b0, b1, b2), Comb(w0, w1, w2, c0, c1, c2))
  {
    CombScaled(h, w0, w1, w2, b0, b1, b2);
    CombScaled(h * h, w0, w1, w2, c0, c1, c2);
    CombSum4(w0, w1, w2, a0, a1, a2, h * b0, h * b1, h * b2, h * h * c0, h * h * c1, h * h * c2, 0.0, 0.0, 0.0);
    NoCombination(w0, w1, w2);
  }

  lemma ApplyExpansion(h: real, a: Matrix3, b: Matrix3, c: Matrix3, w: Vec)
    ensures Apply(ExpansionMatrix(h, a, b, c), w)
         == ExpansionVec(h, Apply(a, w), Apply(b, w), Apply(c, w))
  {
    CombOfExpansions(h, w.x, w.y, w.z, a.c0.x, a.c1.x, a.c2.x, b.c0.x, b.c1.x, b.c2.x, c.c0.x, c.c1.x, c.c2.x);
    CombOfExpansions(h, w.x, w.y, w.z, a.c0.y, a.c1.y, a.c2.y, b.c0.y, b.c1.y, b.c2.y, c.c0.y, c.c1.y, c.c2.y);
    CombOfExpansions(h, w.x, w.y, w.z, a.c0.z, a.c1.z, a.c2.z, b.c0.z, b.c1.z, b.c2.z, c.c0.z, c.c1.z, c.c2.z);
  }

  lemma CombStepped(h: real, v0: real, v1: real, v2: real, d0: real, d1: real, d2: real, p0: real, p1: real, p2: real)
    ensures Comb(Along(v0, h, d0), Along(v1, h, d1), Along(v2, h, d2), p0, p1, p2)
         == Along(Comb(v0, v1, v2, p0, p1, p2), h, Comb(d0, d1, d2, p0, p1, p2))
  {
  }

  lemma ApplyStepped(m: Matrix3, v: Vec, h: real, dv: Vec)
    ensures Apply(m, Stepped(v, h, dv)) == Stepped(Apply(m, v), h, Apply(m, dv))
  {
    CombStepped(h, v.x, v.y, v.z, dv.x, dv.y, dv.z, m.c0.x, m.c1.x, m.c2.x);
    CombStepped(h, v.x, v.y, v.z, dv.x, dv.y, dv.z, m.c0.y, m.c1.y, m.c2.y);
    CombStepped(h, v.x, v.y, v.z, dv.x, dv.y, dv.z, m.c0.z, m.c1.z, m.c2.z);
  }

  lemma Regroup(h: real, a: real, b: real, c: real, e: real, f: real)
    ensures Expansion(h, Along(a, h, b), Along(c, h, e), f) == Expansion(h, a, b + c, e + f)
  {
  }

  lemma RegroupVec(h: real, a: Vec, b: Vec, c: Vec, e: Vec, f: Vec)
    ensures ExpansionVec(h, Stepped(a, h, b), Stepped(c, h, e), f) == ExpansionVec(h, a, Add(b, c), Add(e, f))
  {
    Regroup(h, a.x, b.x, c.x, e.x, f.x);
    Regroup(h, a.y, b.y, c.y, e.y, f.y);
    Regroup(h, a.z, b.z, c.z, e.z, f.z);
  }

  /** VelocityRate is the first-order change of R v when q follows the state and v steps along dv. */
  lemma VelocityRateIsExact(q: Quaternion, h: real, omega: Vec, v: Vec, dv: Vec)
    ensures var (d, w) := (Derivative(q, omega), Stepped(v, h, dv));
            var (r, rate) := (RotationOf(q), DerivativeOfRotation(q, d));
            Apply(RotationOf(Step(q, h, d)), w)
            == ExpansionVec(h, Apply(r, v), VelocityRate(r, rate, v, dv), Add(Apply(rate, dv), Apply(SecondOrder(d), w)))
  {
    var d, w := Derivative(q, omega), Stepped(v, h, dv);
    var r, rate, r2 := RotationOf(q), DerivativeOfRotation(q, d), SecondOrder(d);
    StateIsOrthogonal(q, omega);
    OrthogonalExpands(q, h, d);
    ApplyExpansion(h, r, rate, r2, w);
    ApplyStepped(r, v, h, dv);
    ApplyStepped(rate, v, h, dv);
    RegroupVec(h, Apply(r, v), Apply(r, dv), Apply(rate, v), Apply(rate, dv), Apply(r2, w));
  }

  /** What T_pg adds to the second derivative, through the lever arm g. */
  function Lever(r: Matrix3, rate: Matrix3, g: Vec, omega: Vec, domega: Vec): Vec {
    Add(Apply(r, Cross(g, domega)), Apply(rate, Cross(g, omega)))
  }

  lemma AddRows(a: Vec, b: Vec, c: Vec, e: Vec, i: nat)
    requires i < 3
    ensures Coordinate(Add(a, b), i) + Coordinate(Add(c, e), i) == Coordinate(Add(a, c), i) + Coordinate(Add(b, e), i)
  {
  }

  /** The accelerations of the row, with and without the lever arm. */
  lemma LeverSplits(r: Matrix3, rate: Matrix3, g: Vec, v: Vec, omega: Vec, dv: Vec, domega: Vec, i: nat)
    requires i < 3
    ensures Coordinate(Apply(r, Add(dv, Cross(g, domega))), i) + Coordinate(Apply(rate, Add(v, Cross(g, omega))), i)
         == Coordinate(VelocityRate(r, rate, v, dv), i) + Coordinate(Lever(r, rate, g, omega, domega), i)
  {
    ApplyIsLinear(r, dv, Cross(g, domega));
    ApplyIsLinear(rate, v, Cross(g, omega));
    AddRows(Apply(r, dv), Apply(r, Cross(g, domega)), Apply(rate, v), Apply(rate, Cross(g, omega)), i);
  }

  /** Row i of A dV + B is cos(theta) times the rate of R v plus the lever. */
  lemma PositionRowAgainstRate(r: Matrix3, rate: Matrix3, g: Vec, cosTheta: real, v: Vec, omega: Vec,
                               dv: Vec, domega: Vec, i: nat)
    requires i < 3
    ensures LA.Dot(PositionA(r, g, cosTheta)[i], Six(dv, domega)) + PositionB(rate, g, cosTheta, v, omega)[i]
         == LA.Mul(cosTheta, Coordinate(VelocityRate(r, rate, v, dv), i)
                             + Coordinate(Lever(r, rate, g, omega, domega), i))
  {
    PositionRow(r, rate, g, cosTheta, v, omega, dv, domega, i);
    LeverSplits(r, rate, g, v, omega, dv, domega, i);
    LA.MulTerm(Coordinate(Apply(r, Add(dv, Cross(g, domega))), i), Coordinate(Apply(rate, Add(v, Cross(g, omega))), i),
               cosTheta, cosTheta);
  }

  // ----- Forced positions -----

  /** Attitude, velocity and rotation rate of the body, as the state holds them. */
  datatype Motion = Motion(q: Quaternion, v: Vec, omega: Vec)

  /** Everything that the accelerations of a body depend on, but for its centre of inertia. The angle rows
      of A and B are arbitrary. */
  datatype Situation = Situation(
    solver: FM.Solver, dof: BD.BlockedDof, t: real, motion: Motion, angleA: LA.Matrix, angleB: LA.Vector,
    cosTheta: real, minv: LA.Matrix, force: LA.Vector)

  function RotationIn(m: Motion): Matrix3 {
    RotationOf(m.q)
  }

  function RateIn(m: Motion): Matrix3 {
    DerivativeOfRotation(m.q, Derivative(m.q, m.omega))
  }

  /** A, B and cos(theta), with the position rows of the source for the centre of inertia g. */
  function KinematicsOf(s: Situation, g: Vec): (kin: BA.Kinematics)
    ensures kin.cosTheta == s.cosTheta
    ensures |kin.a| == 3 + |s.angleA| && |kin.b| == 3 + |s.angleB|
    ensures kin.a[..3] == PositionA(RotationIn(s.motion), g, s.cosTheta)
    ensures kin.b[..3] == PositionB(RateIn(s.motion), g, s.cosTheta, s.motion.v, s.motion.omega)
  {
    BA.Kinematics(PositionA(RotationIn(s.motion), g, s.cosTheta) + s.angleA,
                  PositionB(RateIn(s.motion), g, s.cosTheta, s.motion.v, s.motion.omega) + s.angleB,
                  s.cosTheta)
  }

  ghost predicate Solved(solver: FM.Solver, p: FM.Problem) {
    && FM.ValidProblem(p) && |solver(FM.Lhs(p), FM.Rhs(p))| == |p.rowMax|
    && LA.Times(FM.Lhs(p), solver(FM.Lhs(p), FM.Rhs(p))) == FM.Rhs(p)
  }

  /** Inputs that the source accepts, whose linear system the solver solves. */
  ghost predicate IsSolved(s: Situation, g: Vec) {
    && BA.KeepsDimension(s.solver) && BA.ValidInputs(s.dof, KinematicsOf(s, g), s.minv, s.force)
    && s.cosTheta != 0.0
    && Solved(s.solver, BA.ProblemAt(s.dof, s.t, KinematicsOf(s, g), s.minv, s.force))
  }

  ghost function AccelerationsIn(s: Situation, g: Vec): (a: LA.Vector)
    requires IsSolved(s, g)
    ensures |a| == 6
  {
    BA.AccelerationsAt(s.solver, s.dof, s.t, KinematicsOf(s, g), s.minv, s.force)
  }

  ghost function LinearIn(s: Situation, g: Vec): Vec
    requires IsSolved(s, g)
  {
    var a := AccelerationsIn(s, g);
    Vec(a[0], a[1], a[2])
  }

  ghost function AngularIn(s: Situation, g: Vec): Vec
    requires IsSolved(s, g)
  {
    var a := AccelerationsIn(s, g);
    Vec(a[3], a[4], a[5])
  }

  /** The second derivative of the position along axis i, with the accelerations computed. */
  ghost function SecondDerivative(s: Situation, g: Vec, i: nat): real
    requires IsSolved(s, g) && i < 3
  {
    Coordinate(VelocityRate(RotationIn(s.motion), RateIn(s.motion), s.motion.v, LinearIn(s, g)), i)
  }

  /** Position i is forced and has the second derivative of its forced motion. */
  ghost predicate IsMet(s: Situation, g: Vec, i: nat)
    requires IsSolved(s, g) && i < 3 && BD.ForcedAxis(s.dof, true, i, s.t)
  {
    SecondDerivative(s, g, i) == BA.ForcedSecondDerivative(s.dof, s.t, i)
  }

  ghost predicate AlwaysMet(g: Vec, i: nat)
    requires i < 3
  {
    forall s: Situation :: IsSolved(s, g) && BD.ForcedAxis(s.dof, true, i, s.t) ==> IsMet(s, g, i)
  }

  lemma SixOf(a: LA.Vector)
    requires |a| == 6
    ensures Six(Vec(a[0], a[1], a[2]), Vec(a[3], a[4], a[5])) == a
  {
  }

  /** When its system is solved, a forced axis has cos(theta) times the prescribed second derivative. */
  lemma ForcedRow(solver: FM.Solver, dof: BD.BlockedDof, t: real, kin: BA.Kinematics, minv: LA.Matrix,
                  force: LA.Vector, i: nat)
    requires BA.KeepsDimension(solver) && BA.ValidInputs(dof, kin, minv, force)
    requires Solved(solver, BA.ProblemAt(dof, t, kin, minv, force))
    requires i < 6 && BD.ForcedAxis(dof, true, i, t)
    ensures LA.Dot(kin.a[i], BA.AccelerationsAt(solver, dof, t, kin, minv, force)) + kin.b[i]
         == LA.Mul(kin.cosTheta, BA.ForcedSecondDerivative(dof, t, i))
  {
    var p := BA.ProblemAt(dof, t, kin, minv, force);
    assert BA.SomeForced(dof, true, t);
    BA.ForcedMotionIsMet(solver, dof, t, kin, minv, force);
    assert FM.Acceleration(p, BA.AccelerationsAt(solver, dof, t, kin, minv, force), i)
        == LA.Mul(kin.cosTheta, BA.ForcedSecondDerivative(dof, t, i));
  }

  /** The lever, with the accelerations computed, along axis i. */
  ghost function LeverIn(s: Situation, g: Vec, i: nat): real
    requires IsSolved(s, g) && i < 3
  {
    Coordinate(Lever(RotationIn(s.motion), RateIn(s.motion), g, s.motion.omega, AngularIn(s, g)), i)
  }

  lemma CancelFactor(c: real, row: real, a: real, b: real, lever: real)
    requires c != 0.0 && row == LA.Mul(c, a) && row == LA.Mul(c, b + lever)
    ensures a == b + lever
  {
  }

  lemma RowGivesPrescribed(r: Matrix3, rate: Matrix3, g: Vec, cosTheta: real, m: Motion, a: LA.Vector, dv: Vec,
                           domega: Vec, i: nat, prescribed: real)
    requires i < 3 && cosTheta != 0.0 && a == Six(dv, domega)
    requires LA.Dot(PositionA(r, g, cosTheta)[i], a) + PositionB(rate, g, cosTheta, m.v, m.omega)[i]
          == LA.Mul(cosTheta, prescribed)
    ensures prescribed == Coordinate(VelocityRate(r, rate, m.v, dv), i)
                          + Coordinate(Lever(r, rate, g, m.omega, domega), i)
  {
    PositionRowAgainstRate(r, rate, g, cosTheta, m.v, m.omega, dv, domega, i);
    CancelFactor(cosTheta, LA.Mul(cosTheta, prescribed), prescribed,
                 Coordinate(VelocityRate(r, rate, m.v, dv), i), Coordinate(Lever(r, rate, g, m.omega, domega), i));
  }

  /** A forced position misses the second derivative of its forced motion by exactly the lever. */
  lemma MissIsLever(s: Situation, g: Vec, i: nat)
    requires IsSolved(s, g) && i < 3 && BD.ForcedAxis(s.dof, true, i, s.t)
    ensures BA.ForcedSecondDerivative(s.dof, s.t, i) == SecondDerivative(s, g, i) + LeverIn(s, g, i)
  {
    var kin := KinematicsOf(s, g);
    ForcedRow(s.solver, s.dof, s.t, kin, s.minv, s.force, i);
    assert kin.a[i] == kin.a[..3][i] && kin.b[i] == kin.b[..3][i];
    SixOf(AccelerationsIn(s, g));
    RowGivesPrescribed(RotationIn(s.motion), RateIn(s.motion), g, s.cosTheta, s.motion, AccelerationsIn(s, g),
                       LinearIn(s, g), AngularIn(s, g), i, BA.ForcedSecondDerivative(s.dof, s.t, i));
  }

  lemma NoLever(r: Matrix3, rate: Matrix3, omega: Vec, domega: Vec)
    ensures Lever(r, rate, ZERO, omega, domega) == ZERO
  {
    CrossAdd(ZERO, ZERO, omega);
    CrossAdd(ZERO, ZERO, domega);
    ApplyIsLinear(r, ZERO, ZERO);
    ApplyIsLinear(rate, ZERO, ZERO);
  }

  lemma MetAtOrigin(s: Situation, i: nat)
    requires IsSolved(s, ZERO) && i < 3 && BD.ForcedAxis(s.dof, true, i, s.t)
    ensures IsMet(s, ZERO, i)
  {
    MissIsLever(s, ZERO, i);
    assert LeverIn(s, ZERO, i) == 0.0 by {
      NoLever(RotationIn(s.motion), RateIn(s.motion), s.motion.omega, AngularIn(s, ZERO));
    }
  }

  // ----- A forced position that is missed, for every other centre of inertia -----

  const ONE := Quaternion(1.0, 0.0, 0.0, 0.0)

  /** A rotation rate at which the centre of inertia g shows on axis i. */
  function TellingRate(g: Vec, i: nat): Vec
    requires i < 3
  {
    if i == 0 then (if g.x != 0.0 then E3 else if g.y != 0.0 then Vec(1.0, 1.0, 0.0) else Vec(1.0, 0.0, 1.0))
    else if i == 1 then (if g.y != 0.0 then E1 else if g.z != 0.0 then Vec(0.0, 1.0, 1.0) else Vec(1.0, 1.0, 0.0))
    else (if g.z != 0.0 then E2 else if g.x != 0.0 then Vec(1.0, 0.0, 1.0) else Vec(0.0, 1.0, 1.0))
  }

  lemma RateTells(g: Vec, i: nat, omega: Vec)
    requires g != ZERO && i < 3 && omega == TellingRate(g, i)
    ensures Coordinate(Cross(omega, Cross(g, omega)), i) != 0.0
  {
  }

  function StillInterpolator(): BD.Interpolator {
    BD.Interpolator(_ => 0.0, (_, _) => 0.0)
  }

  /** Position i held at zero from t = 0 to t = 1, by a force along its own axis. */
  function HoldingTable(i: nat): BD.Table
    requires i < 3
  {
    BD.Table(BD.PositionOf(i), [0.0, 1.0], true, StillInterpolator(), LA.Unit(6, i))
  }

  function Holding(i: nat): BD.BlockedDof
    requires i < 3
  {
    var s := BD.PositionOf(i);
    BD.BlockedDof(map[s := StillInterpolator()], 0, map[s := 0.0], map[s := 1.0],
                  LA.SetColumn(LA.ZeroMatrix(6, 6), 6, i, LA.Unit(6, i)))
  }

  /** It is what the constructor makes of the table. */
  lemma HoldingIsBuilt(i: nat)
    requires i < 3
    ensures BD.ReflectsAll(Holding(i), [HoldingTable(i)]) && BD.Valid(Holding(i))
  {
    var dof, table := Holding(i), HoldingTable(i);
    assert table.t[0] == 0.0 && table.t[1] == 1.0;
    forall k, j | 0 <= k < 6 && 0 <= j < 6 && BD.PositionOf(j) !in dof.blocked ensures dof.tx[k][j] == 0.0 {
      assert j != i;
    }
    assert BD.States([table], table.state) by {
      assert [table][0].state == table.state;
    }
  }

  lemma HoldingForces(i: nat, k: nat)
    requires i < 3 && k < 6
    ensures BD.ForcedAxis(Holding(i), true, k, 0.0) <==> k == i
  {
    assert BD.Axis(BD.PositionOf(k)) == k && BD.Axis(BD.PositionOf(i)) == i;
  }

  ghost predicate Solves(m: LA.Matrix, v: LA.Vector, y: LA.Vector) {
    |y| == |v| && LA.IsMatrix(m, |v|, |v|) && LA.Times(m, y) == v
  }

  /** Some solution, if there is one. */
  ghost function AnySolution(m: LA.Matrix, v: LA.Vector): (y: LA.Vector)
    ensures |y| == |v|
    ensures (exists x :: Solves(m, v, x)) ==> Solves(m, v, y)
  {
    if exists x :: Solves(m, v, x) then
      var x :| Solves(m, v, x);
      x
    else
      LA.Zero(|v|)
  }

  predicate IsSingle(p: FM.Problem, i: nat) {
    && FM.ValidProblem(p) && |p.rowMax| == 6 && i < 6
    && (forall j :: 0 <= j < 6 ==> p.rowMax[j] == if j == i then 1.0 else 0.0)
    && (forall k :: 0 <= k < 6 ==> p.tx[k][i] == if k == i then 1.0 else 0.0)
    && p.minv == LA.Identity(6) && p.free == LA.Zero(6)
  }

  lemma SingleCombination(p: FM.Problem, i: nat, y: LA.Vector, k: nat)
    requires IsSingle(p, i) && |y| == 6 && k < 6
    ensures FM.Combination(p.rowMax, p.tx, y, k, 6) == if k == i then y[5] else 0.0
  {
    FM.SingleCombination(p.rowMax, p.tx, y, i, k, 6);
    assert LA.Mul(0.0, y[5]) == 0.0 && LA.Mul(1.0, y[5]) == y[5];
  }

  /** With a single forced axis, pushed along itself, the others do not accelerate, whatever the solver says. */
  lemma SingleUpdate(p: FM.Problem, i: nat, y: LA.Vector)
    requires IsSingle(p, i) && |y| == 6
    ensures FM.Updated(p, y) == LA.Zero(6)[i := y[5]]
  {
    var patterns := FM.Patterns(p.rowMax, p.tx, 6);
    LA.Associative(p.minv, patterns, y);
    LA.IdentityTimes(LA.Times(patterns, y));
    forall k | 0 <= k < 6 ensures FM.Updated(p, y)[k] == LA.Zero(6)[i := y[5]][k] {
      FM.PatternsTimes(p.rowMax, p.tx, y, k, 6);
      SingleCombination(p, i, y, k);
    }
  }

  /** The unknowns that give axis i the acceleration c. */
  function SingleUnknowns(p: FM.Problem, i: nat, c: real): (y: LA.Vector)
    requires IsSingle(p, i)
    ensures |y| == 6
  {
    seq(6, u requires 0 <= u < 6 =>
      if u == 5 then c else FM.Acceleration(p, LA.Zero(6)[i := c], if u < i then u else u + 1))
  }

  lemma SinglePrescribed(p: FM.Problem, i: nat, c: real, k: nat)
    requires IsSingle(p, i) && p.cosTheta == 1.0 && p.ddXi == LA.Zero(6) && k < 6
    requires FM.Acceleration(p, LA.Zero(6)[i := c], i) == 0.0
    ensures FM.Acceleration(p, LA.Zero(6)[i := c], k) == FM.Prescribed(p, SingleUnknowns(p, i, c), k)
  {
    FM.SingleForced(p.rowMax, i, k);
    var y := SingleUnknowns(p, i, c);
    assert LA.Mul(1.0, 0.0) == 0.0;
    if k != i {
      var u := FM.UnknownOf(p.rowMax, k);
      assert u == if k < i then k else k - 1;
      assert LA.Mul(1.0, y[u]) == y[u];
    }
  }

  lemma SingleIsSolvable(p: FM.Problem, i: nat, c: real)
    requires IsSingle(p, i) && p.cosTheta == 1.0 && p.ddXi == LA.Zero(6)
    requires FM.Acceleration(p, LA.Zero(6)[i := c], i) == 0.0
    ensures Solves(FM.Lhs(p), FM.Rhs(p), SingleUnknowns(p, i, c))
  {
    var y := SingleUnknowns(p, i, c);
    SingleUpdate(p, i, y);
    forall k | 0 <= k < 6 ensures FM.Acceleration(p, FM.Updated(p, y), k) == FM.Prescribed(p, y, k) {
      SinglePrescribed(p, i, c, k);
    }
    FM.SolvedIffPrescribed(p, y);
  }

  /** A body at rest in its attitude that turns at a telling rate, held on axis i, with any angle rows. */
  ghost function Missing(g: Vec, i: nat, angleA: LA.Matrix, angleB: LA.Vector): Situation
    requires i < 3
  {
    Situation(AnySolution, Holding(i), 0.0, Motion(ONE, ZERO, TellingRate(g, i)), angleA, angleB, 1.0,
              LA.Identity(6), LA.Zero(6))
  }

  lemma MissingInputs(g: Vec, i: nat, angleA: LA.Matrix, angleB: LA.Vector)
    requires i < 3 && LA.IsMatrix(angleA, 3, 6) && |angleB| == 3
    ensures var s := Missing(g, i, angleA, angleB);
            BA.KeepsDimension(s.solver) && BA.ValidInputs(s.dof, KinematicsOf(s, g), s.minv, s.force)
  {
    HoldingIsBuilt(i);
  }

  lemma HoldingRows(i: nat, k: nat)
    requires i < 3 && k < 6
    ensures BA.RowMaxima(BD.Delta(Holding(i), true, 0.0))[k] == if k == i then 1.0 else 0.0
  {
    BA.RowMaximaOfDelta(Holding(i), true, 0.0);
    HoldingForces(i, k);
  }

  lemma HoldingIsStill(i: nat)
    requires i < 3
    ensures BD.Overridden(Holding(i), true, 0.0, 2, LA.Zero(6)) == LA.Zero(6)
  {
  }

  lemma HoldingPattern(i: nat, k: nat)
    requires i < 3 && k < 6
    ensures Holding(i).tx[k][i] == if k == i then 1.0 else 0.0
  {
    assert LA.Column(Holding(i).tx, i)[k] == Holding(i).tx[k][i];
  }

  lemma HoldingIsSingle(i: nat, kin: BA.Kinematics)
    requires i < 3 && BA.ValidInputs(Holding(i), kin, LA.Identity(6), LA.Zero(6))
    ensures var p := BA.ProblemAt(Holding(i), 0.0, kin, LA.Identity(6), LA.Zero(6));
            IsSingle(p, i) && p.ddXi == LA.Zero(6)
  {
    forall k | 0 <= k < 6
      ensures BA.RowMaxima(BD.Delta(Holding(i), true, 0.0))[k] == if k == i then 1.0 else 0.0
      ensures Holding(i).tx[k][i] == if k == i then 1.0 else 0.0
    {
      HoldingRows(i, k);
      HoldingPattern(i, k);
    }
    HoldingIsStill(i);
    LA.IdentityTimes(LA.Zero(6));
  }

  /** Held on axis i, a body accelerates along no other axis, whatever the solver says. */
  lemma HeldMovesAlongItsAxis(solver: FM.Solver, i: nat, kin: BA.Kinematics, k: nat)
    requires BA.KeepsDimension(solver) && i < 3 && k < 6 && k != i
    requires BA.ValidInputs(Holding(i), kin, LA.Identity(6), LA.Zero(6))
    ensures BA.AccelerationsAt(solver, Holding(i), 0.0, kin, LA.Identity(6), LA.Zero(6))[k] == 0.0
  {
    HoldingIsSingle(i, kin);
    var p := BA.ProblemAt(Holding(i), 0.0, kin, LA.Identity(6), LA.Zero(6));
    SingleUpdate(p, i, solver(FM.Lhs(p), FM.Rhs(p)));
    HoldingForces(i, i);
    assert BA.SomeForced(Holding(i), true, 0.0);
    BA.PositionsExcludeVelocities(Holding(i), 0.0);
  }

  /** The system of a body held on axis i has a solution when an acceleration c keeps it there. */
  lemma HeldIsSolved(i: nat, kin: BA.Kinematics, c: real)
    requires i < 3 && BA.ValidInputs(Holding(i), kin, LA.Identity(6), LA.Zero(6)) && kin.cosTheta == 1.0
    requires LA.Dot(kin.a[i], LA.Zero(6)[i := c]) + kin.b[i] == 0.0
    ensures Solved(AnySolution, BA.ProblemAt(Holding(i), 0.0, kin, LA.Identity(6), LA.Zero(6)))
  {
    HoldingIsSingle(i, kin);
    var p := BA.ProblemAt(Holding(i), 0.0, kin, LA.Identity(6), LA.Zero(6));
    SingleIsSolvable(p, i, c);
    assert Solves(FM.Lhs(p), FM.Rhs(p), AnySolution(FM.Lhs(p), FM.Rhs(p)));
  }

  lemma HeldAcceleration(g: Vec, i: nat, c: real, r: Matrix3)
    requires i < 3 && r == RotationOf(ONE)
    ensures LA.Dot(PositionA(r, g, 1.0)[i], LA.Zero(6)[i := c]) == c
  {
    var dv := Vec(if i == 0 then c else 0.0, if i == 1 then c else 0.0, if i == 2 then c else 0.0);
    assert LA.Zero(6)[i := c] == Six(dv, ZERO);
    RowOfA(r, g, 1.0, dv, ZERO, i);
    assert Cross(g, ZERO) == ZERO;
    assert Apply(r, dv) == dv;
  }

  lemma MissingIsSolved(g: Vec, i: nat, angleA: LA.Matrix, angleB: LA.Vector)
    requires i < 3 && LA.IsMatrix(angleA, 3, 6) && |angleB| == 3
    ensures IsSolved(Missing(g, i, angleA, angleB), g)
  {
    var s := Missing(g, i, angleA, angleB);
    var kin := KinematicsOf(s, g);
    MissingInputs(g, i, angleA, angleB);
    var c := -kin.b[i];
    assert kin.a[i] == kin.a[..3][i];
    HeldAcceleration(g, i, c, RotationIn(s.motion));
    HeldIsSolved(i, kin, c);
  }

  lemma LeverAtIdentity(g: Vec, omega: Vec)
    ensures Lever(RotationOf(ONE), DerivativeOfRotation(ONE, Derivative(ONE, omega)), g, omega, ZERO)
         == Cross(omega, Cross(g, omega))
  {
    UnitTurns(ONE, omega);
    assert Cross(g, ZERO) == ZERO;
  }

  lemma MissingLever(g: Vec, i: nat, angleA: LA.Matrix, angleB: LA.Vector)
    requires g != ZERO && i < 3
    requires IsSolved(Missing(g, i, angleA, angleB), g)
    ensures LeverIn(Missing(g, i, angleA, angleB), g, i) != 0.0
  {
    var s := Missing(g, i, angleA, angleB);
    assert AngularIn(s, g) == ZERO by {
      HeldMovesAlongItsAxis(AnySolution, i, KinematicsOf(s, g), 3);
      HeldMovesAlongItsAxis(AnySolution, i, KinematicsOf(s, g), 4);
      HeldMovesAlongItsAxis(AnySolution, i, KinematicsOf(s, g), 5);
    }
    LeverAtIdentity(g, s.motion.omega);
    RateTells(g, i, s.motion.omega);
  }

  /** For any other centre of inertia, any axis and any angle rows, the position held on that axis is missed. */
  lemma MissedPosition(g: Vec, i: nat, angleA: LA.Matrix, angleB: LA.Vector)
    requires g != ZERO && i < 3 && LA.IsMatrix(angleA, 3, 6) && |angleB| == 3
    ensures var s := Missing(g, i, angleA, angleB);
            IsSolved(s, g) && BD.ForcedAxis(s.dof, true, i, s.t) && !IsMet(s, g, i)
  {
    HoldingForces(i, i);
    MissingIsSolved(g, i, angleA, angleB);
    MissingLever(g, i, angleA, angleB);
    MissIsLever(Missing(g, i, angleA, angleB), g, i);
  }

  /** Position i is met in every situation if and only if the centre of inertia is the origin of the body. */
  lemma AlwaysMetIff(g: Vec, i: nat)
    requires i < 3
    ensures AlwaysMet(g, i) <==> g == ZERO
  {
    if g == ZERO {
      forall s: Situation | IsSolved(s, g) && BD.ForcedAxis(s.dof, true, i, s.t) ensures IsMet(s, g, i) {
        MetAtOrigin(s, i);
      }
    } else {
      MissedPosition(g, i, LA.ZeroMatrix(3, 6), LA.Zero(3));
      assert !IsMet(Missing(g, i, LA.ZeroMatrix(3, 6), LA.Zero(3)), g, i);
    }
  }
}
