/** Attitude quaternions (Body::calculate_state_derivatives): the derivative written to the state, and
    the derivative of the rotation matrix that the forced-motion equations use. */
module QuaternionKinematics {
  import opened Rotations

  datatype Quaternion = Quaternion(w: real, x: real, y: real, z: real)

  function Product(q: Quaternion, p: Quaternion): Quaternion {
    Quaternion(
      q.w * p.w - q.x * p.x - q.y * p.y - q.z * p.z,
      q.w * p.x + q.x * p.w + q.y * p.z - q.z * p.y,
      q.w * p.y + q.y * p.w + q.z * p.x - q.x * p.z,
      q.w * p.z + q.z * p.w + q.x * p.y - q.y * p.x)
  }

  /** dq/dt = q (0, p, q, r) / 2, as written to the derivative of the state. */
  function Derivative(q: Quaternion, omega: Vec): Quaternion {
    var d := Product(q, Quaternion(0.0, omega.x, omega.y, omega.z));
    Quaternion(0.5 * d.w, 0.5 * d.x, 0.5 * d.y, 0.5 * d.z)
  }

  /** The operator T_qw of the source applied to omega. */
  function Tqw(q: Quaternion, omega: Vec): Quaternion {
    Quaternion(
      -q.x * omega.x - q.y * omega.y - q.z * omega.z,
      q.w * omega.x - q.z * omega.y + q.y * omega.z,
      q.z * omega.x + q.w * omega.y - q.x * omega.z,
      -q.y * omega.x + q.x * omega.y + q.w * omega.z)
  }

  function Along(a: real, h: real, da: real): real {
    a + h * da
  }

  /** q + h p. */
  function Step(q: Quaternion, h: real, p: Quaternion): Quaternion {
    Quaternion(Along(q.w, h, p.w), Along(q.x, h, p.x), Along(q.y, h, p.y), Along(q.z, h, p.z))
  }

  function Norm2(q: Quaternion): real {
    q.w * q.w + q.x * q.x + q.y * q.y + q.z * q.z
  }

  // ----- Entries of the rotation matrix and their derivatives -----

  function Diag(a: real, b: real, c: real, d: real): real {
    a * a + b * b - c * c - d * d
  }

  function Off(a: real, b: real, c: real, d: real): real {
    2.0 * (a * b + c * d)
  }

  function OffMinus(a: real, b: real, c: real, d: real): real {
    2.0 * (a * b - c * d)
  }

  function DiagRate(a: real, b: real, c: real, d: real, da: real, db: real, dc: real, dd: real): real {
    2.0 * (a * da + b * db - c * dc - d * dd)
  }

  function OffRate(a: real, b: real, c: real, d: real, da: real, db: real, dc: real, dd: real): real {
    2.0 * (da * b + a * db + dc * d + c * dd)
  }

  function OffMinusRate(a: real, b: real, c: real, d: real, da: real, db: real, dc: real, dd: real): real {
    2.0 * (da * b + a * db - dc * d - c * dd)
  }

  /** An entry of the diagonal of Eigen's rotation matrix. */
  function UnitDiag(c: real, d: real): real {
    1.0 - 2.0 * (c * c + d * d)
  }

  /** Eigen's rotation matrix of q, by columns. It is not homogeneous in q. */
  function RotationOf(q: Quaternion): Matrix3 {
    Matrix3(
      Vec(UnitDiag(q.y, q.z), Off(q.x, q.y, q.w, q.z), OffMinus(q.x, q.z, q.w, q.y)),
      Vec(OffMinus(q.x, q.y, q.w, q.z), UnitDiag(q.x, q.z), Off(q.y, q.z, q.w, q.x)),
      Vec(Off(q.x, q.z, q.w, q.y), OffMinus(q.y, q.z, q.w, q.x), UnitDiag(q.x, q.y)))
  }

  /** The homogeneous matrix: |q|^2 times a rotation. The derivative in the source is that of this matrix. */
  function Homogeneous(q: Quaternion): Matrix3 {
    Matrix3(
      Vec(Diag(q.w, q.x, q.y, q.z), Off(q.x, q.y, q.w, q.z), OffMinus(q.x, q.z, q.w, q.y)),
      Vec(OffMinus(q.x, q.y, q.w, q.z), Diag(q.w, q.y, q.x, q.z), Off(q.y, q.z, q.w, q.x)),
      Vec(Off(q.x, q.z, q.w, q.y), OffMinus(q.y, q.z, q.w, q.x), Diag(q.w, q.z, q.x, q.y)))
  }

  /** The operator dR_NED of the source, by columns. */
  function DerivativeOfRotation(q: Quaternion, d: Quaternion): Matrix3 {
    Matrix3(
      Vec(DiagRate(q.w, q.x, q.y, q.z, d.w, d.x, d.y, d.z), OffRate(q.x, q.y, q.w, q.z, d.x, d.y, d.w, d.z),
          OffMinusRate(q.x, q.z, q.w, q.y, d.x, d.z, d.w, d.y)),
      Vec(OffMinusRate(q.x, q.y, q.w, q.z, d.x, d.y, d.w, d.z), DiagRate(q.w, q.y, q.x, q.z, d.w, d.y, d.x, d.z),
          OffRate(q.y, q.z, q.w, q.x, d.y, d.z, d.w, d.x)),
      Vec(OffRate(q.x, q.z, q.w, q.y, d.x, d.z, d.w, d.y), OffMinusRate(q.y, q.z, q.w, q.x, d.y, d.z, d.w, d.x),
          DiagRate(q.w, q.z, q.x, q.y, d.w, d.z, d.x, d.y)))
  }

  // ----- dR_NED is the derivative -----

  /** v0 + h v1 + h^2 v2. */
  function Expansion(h: real, v0: real, v1: real, v2: real): real {
    v0 + h * v1 + h * h * v2
  }

  function ExpansionVec(h: real, v0: Vec, v1: Vec, v2: Vec): Vec {
    Vec(Expansion(h, v0.x, v1.x, v2.x), Expansion(h, v0.y, v1.y, v2.y), Expansion(h, v0.z, v1.z, v2.z))
  }

  lemma StepDiag(h: real, a: real, b: real, c: real, d: real, da: real, db: real, dc: real, dd: real)
    ensures Diag(Along(a, h, da), Along(b, h, db), Along(c, h, dc), Along(d, h, dd))
         == Expansion(h, Diag(a, b, c, d), DiagRate(a, b, c, d, da, db, dc, dd), Diag(da, db, dc, dd))
  {
  }

  lemma StepOff(h: real, a: real, b: real, c: real, d: real, da: real, db: real, dc: real, dd: real)
    ensures Off(Along(a, h, da), Along(b, h, db), Along(c, h, dc), Along(d, h, dd))
         == Expansion(h, Off(a, b, c, d), OffRate(a, b, c, d, da, db, dc, dd), Off(da, db, dc, dd))
  {
  }

  lemma StepOffMinus(h: real, a: real, b: real, c: real, d: real, da: real, db: real, dc: real, dd: real)
    ensures OffMinus(Along(a, h, da), Along(b, h, db), Along(c, h, dc), Along(d, h, dd))
         == Expansion(h, OffMinus(a, b, c, d), OffMinusRate(a, b, c, d, da, db, dc, dd), OffMinus(da, db, dc, dd))
  {
  }

  lemma StepFirst(q: Quaternion, h: real, d: Quaternion)
    ensures Homogeneous(Step(q, h, d)).c0
         == ExpansionVec(h, Homogeneous(q).c0, DerivativeOfRotation(q, d).c0, Homogeneous(d).c0)
  {
    StepDiag(h, q.w, q.x, q.y, q.z, d.w, d.x, d.y, d.z);
    StepOff(h, q.x, q.y, q.w, q.z, d.x, d.y, d.w, d.z);
    StepOffMinus(h, q.x, q.z, q.w, q.y, d.x, d.z, d.w, d.y);
  }

  lemma StepSecond(q: Quaternion, h: real, d: Quaternion)
    ensures Homogeneous(Step(q, h, d)).c1
         == ExpansionVec(h, Homogeneous(q).c1, DerivativeOfRotation(q, d).c1, Homogeneous(d).c1)
  {
    StepOffMinus(h, q.x, q.y, q.w, q.z, d.x, d.y, d.w, d.z);
    StepDiag(h, q.w, q.y, q.x, q.z, d.w, d.y, d.x, d.z);
    StepOff(h, q.y, q.z, q.w, q.x, d.y, d.z, d.w, d.x);
  }

  lemma StepThird(q: Quaternion, h: real, d: Quaternion)
    ensures Homogeneous(Step(q, h, d)).c2
         == ExpansionVec(h, Homogeneous(q).c2, DerivativeOfRotation(q, d).c2, Homogeneous(d).c2)
  {
    StepOff(h, q.x, q.z, q.w, q.y, d.x, d.z, d.w, d.y);
    StepOffMinus(h, q.y, q.z, q.w, q.x, d.y, d.z, d.w, d.x);
    StepDiag(h, q.w, q.z, q.x, q.y, d.w, d.z, d.x, d.y);
  }

  function ExpansionMatrix(h: real, m0: Matrix3, m1: Matrix3, m2: Matrix3): Matrix3 {
    Matrix3(ExpansionVec(h, m0.c0, m1.c0, m2.c0), ExpansionVec(h, m0.c1, m1.c1, m2.c1),
            ExpansionVec(h, m0.c2, m1.c2, m2.c2))
  }

  lemma StepHomogeneous(q: Quaternion, h: real, d: Quaternion)
    ensures Homogeneous(Step(q, h, d))
         == ExpansionMatrix(h, Homogeneous(q), DerivativeOfRotation(q, d), Homogeneous(d))
  {
    StepFirst(q, h, d);
    StepSecond(q, h, d);
    StepThird(q, h, d);
  }

  /** m + e I. */
  function PlusIdentity(m: Matrix3, e: real): Matrix3 {
    Matrix3(Vec(m.c0.x + e, m.c0.y, m.c0.z), Vec(m.c1.x, m.c1.y + e, m.c1.z), Vec(m.c2.x, m.c2.y, m.c2.z + e))
  }

  lemma UnitDiagIs(a: real, b: real, c: real, d: real, norm: real)
    requires norm == a * a + b * b + c * c + d * d
    ensures UnitDiag(c, d) == Diag(a, b, c, d) + (1.0 - norm)
  {
  }

  /** The two matrices differ by 1 - |q|^2 on the diagonal. */
  lemma RotationFromHomogeneous(q: Quaternion)
    ensures RotationOf(q) == PlusIdentity(Homogeneous(q), 1.0 - Norm2(q))
  {
    UnitDiagIs(q.w, q.x, q.y, q.z, Norm2(q));
    UnitDiagIs(q.w, q.y, q.x, q.z, Norm2(q));
    UnitDiagIs(q.w, q.z, q.x, q.y, Norm2(q));
  }

  /** q . d */
  function DotQ(q: Quaternion, d: Quaternion): real {
    Dot4(q.w, q.x, q.y, q.z, d.w, d.x, d.y, d.z)
  }

  lemma DiagonalExpands(h: real, a0: real, a1: real, a2: real, e0: real, e1: real, e2: real)
    ensures Expansion(h, a0, a1, a2) + (1.0 - Expansion(h, 1.0 - e0, e1, e2))
         == Expansion(h, a0 + e0, a1 - e1, a2 - e2)
  {
  }

  lemma PlusIdentityExpands(h: real, m0: Matrix3, m1: Matrix3, m2: Matrix3, e0: real, e1: real, e2: real)
    ensures PlusIdentity(ExpansionMatrix(h, m0, m1, m2), 1.0 - Expansion(h, 1.0 - e0, e1, e2))
         == ExpansionMatrix(h, PlusIdentity(m0, e0), PlusIdentity(m1, -e1), PlusIdentity(m2, -e2))
  {
    DiagonalExpands(h, m0.c0.x, m1.c0.x, m2.c0.x, e0, e1, e2);
    DiagonalExpands(h, m0.c1.y, m1.c1.y, m2.c1.y, e0, e1, e2);
    DiagonalExpands(h, m0.c2.z, m1.c2.z, m2.c2.z, e0, e1, e2);
  }

  function SecondOrder(d: Quaternion): Matrix3 {
    PlusIdentity(Homogeneous(d), -Norm2(d))
  }

  /** The rotation matrix along any direction: its first-order term is dR_NED less 2 q . d on the diagonal. */
  lemma RotationAlong(q: Quaternion, h: real, d: Quaternion)
    ensures RotationOf(Step(q, h, d))
         == ExpansionMatrix(h, RotationOf(q), PlusIdentity(DerivativeOfRotation(q, d), -2.0 * DotQ(q, d)), SecondOrder(d))
  {
    RotationFromHomogeneous(Step(q, h, d));
    RotationFromHomogeneous(q);
    StepHomogeneous(q, h, d);
    NormOfStep(q, h, d);
    var n, e := Norm2(q), 2.0 * DotQ(q, d);
    assert Norm2(Step(q, h, d)) == Expansion(h, 1.0 - (1.0 - n), e, Norm2(d));
    PlusIdentityExpands(h, Homogeneous(q), DerivativeOfRotation(q, d), Homogeneous(d), 1.0 - n, e, Norm2(d));
  }

  ghost predicate ExpandsAs(q: Quaternion, d: Quaternion, m: Matrix3, second: Matrix3) {
    forall h :: RotationOf(Step(q, h, d)) == ExpansionMatrix(h, RotationOf(q), m, second)
  }

  /** m is the first-order term of the rotation matrix of q along d. */
  ghost predicate IsFirstOrderTerm(q: Quaternion, d: Quaternion, m: Matrix3) {
    exists second :: ExpandsAs(q, d, m, second)
  }

  lemma SameFirstOrder(a: real, b: real, c: real, b': real, c': real)
    requires Expansion(1.0, a, b, c) == Expansion(1.0, a, b', c')
    requires Expansion(-1.0, a, b, c) == Expansion(-1.0, a, b', c')
    ensures b == b'
  {
  }

  lemma FirstOrderNeedsOrthogonal(q: Quaternion, d: Quaternion, second: Matrix3)
    requires ExpandsAs(q, d, DerivativeOfRotation(q, d), second)
    ensures DotQ(q, d) == 0.0
  {
    var m, e := DerivativeOfRotation(q, d), -2.0 * DotQ(q, d);
    RotationAlong(q, 1.0, d);
    RotationAlong(q, -1.0, d);
    assert RotationOf(Step(q, 1.0, d)) == ExpansionMatrix(1.0, RotationOf(q), m, second);
    assert RotationOf(Step(q, -1.0, d)) == ExpansionMatrix(-1.0, RotationOf(q), m, second);
    SameFirstOrder(RotationOf(q).c0.x, m.c0.x, second.c0.x, m.c0.x + e, SecondOrder(d).c0.x);
  }

  lemma OrthogonalExpands(q: Quaternion, h: real, d: Quaternion)
    requires DotQ(q, d) == 0.0
    ensures RotationOf(Step(q, h, d)) == ExpansionMatrix(h, RotationOf(q), DerivativeOfRotation(q, d), SecondOrder(d))
  {
    RotationAlong(q, h, d);
    assert PlusIdentity(DerivativeOfRotation(q, d), -2.0 * DotQ(q, d)) == DerivativeOfRotation(q, d);
  }

  /** dR_NED is the first-order term of the rotation matrix along d if and only if d is orthogonal to q. */
  lemma FirstOrderIffOrthogonal(q: Quaternion, d: Quaternion)
    ensures IsFirstOrderTerm(q, d, DerivativeOfRotation(q, d)) <==> DotQ(q, d) == 0.0
  {
    if DotQ(q, d) == 0.0 {
      forall h ensures RotationOf(Step(q, h, d))
                    == ExpansionMatrix(h, RotationOf(q), DerivativeOfRotation(q, d), SecondOrder(d)) {
        OrthogonalExpands(q, h, d);
      }
      assert ExpandsAs(q, d, DerivativeOfRotation(q, d), SecondOrder(d));
    }
    if IsFirstOrderTerm(q, d, DerivativeOfRotation(q, d)) {
      var second :| ExpandsAs(q, d, DerivativeOfRotation(q, d), second);
      FirstOrderNeedsOrthogonal(q, d, second);
    }
  }

  // ----- Along the derivative of the state -----

  /** Twice the derivative of the state is T_qw omega. */
  lemma DerivativeIsTqw(q: Quaternion, omega: Vec)
    ensures var (d, t) := (Derivative(q, omega), Tqw(q, omega));
            t == Quaternion(2.0 * d.w, 2.0 * d.x, 2.0 * d.y, 2.0 * d.z)
  {
  }

  /** Column i is m applied to omega x e_i. */
  function Turned(m: Matrix3, omega: Vec): Matrix3 {
    Matrix3(
      Vec(Det(omega.z, omega.y, m.c2.x, m.c1.x), Det(omega.z, omega.y, m.c2.y, m.c1.y),
          Det(omega.z, omega.y, m.c2.z, m.c1.z)),
      Vec(Det(omega.x, omega.z, m.c0.x, m.c2.x), Det(omega.x, omega.z, m.c0.y, m.c2.y),
          Det(omega.x, omega.z, m.c0.z, m.c2.z)),
      Vec(Det(omega.y, omega.x, m.c1.x, m.c0.x), Det(omega.y, omega.x, m.c1.y, m.c0.y),
          Det(omega.y, omega.x, m.c1.z, m.c0.z)))
  }

  lemma TurnedRow(p: real, q: real, r: real, m0: real, m1: real, m2: real, v0: real, v1: real, v2: real)
    ensures Comb(v0, v1, v2, Det(r, q, m2, m1), Det(p, r, m0, m2), Det(q, p, m1, m0))
         == Comb(Det(q, r, v1, v2), Det(r, p, v2, v0), Det(p, q, v0, v1), m0, m1, m2)
  {
  }

  lemma TurnedApplies(m: Matrix3, omega: Vec, v: Vec)
    ensures Apply(Turned(m, omega), v) == Apply(m, Cross(omega, v))
  {
    TurnedRow(omega.x, omega.y, omega.z, m.c0.x, m.c1.x, m.c2.x, v.x, v.y, v.z);
    TurnedRow(omega.x, omega.y, omega.z, m.c0.y, m.c1.y, m.c2.y, v.x, v.y, v.z);
    TurnedRow(omega.x, omega.y, omega.z, m.c0.z, m.c1.z, m.c2.z, v.x, v.y, v.z);
  }

  /** Twice (dw, dx, dy, dz) is T_qw (p, q, r), row by row. */
  predicate FollowsState(w: real, x: real, y: real, z: real, p: real, q: real, r: real, dw: real, dx: real,
                         dy: real, dz: real)
  {
    && 2.0 * dw == Comb(p, q, r, -x, -y, -z)
    && 2.0 * dx == Comb(p, q, r, w, -z, y)
    && 2.0 * dy == Comb(p, q, r, z, w, -x)
    && 2.0 * dz == Comb(p, q, r, -y, x, w)
  }

  function Dot4(k0: real, k1: real, k2: real, k3: real, d0: real, d1: real, d2: real, d3: real): real {
    k0 * d0 + k1 * d1 + k2 * d2 + k3 * d3
  }

  lemma DoubleDot4(k0: real, k1: real, k2: real, k3: real, d0: real, d1: real, d2: real, d3: real)
    ensures Dot4(k0, k1, k2, k3, 2.0 * d0, 2.0 * d1, 2.0 * d2, 2.0 * d3) == 2.0 * Dot4(k0, k1, k2, k3, d0, d1, d2, d3)
  {
  }

  lemma CombScaled(k: real, p: real, q: real, r: real, a0: real, a1: real, a2: real)
    ensures k * Comb(p, q, r, a0, a1, a2) == Comb(p, q, r, k * a0, k * a1, k * a2)
  {
  }

  lemma CombSum4(p: real, q: real, r: real, a0: real, a1: real, a2: real, b0: real, b1: real, b2: real,
                 c0: real, c1: real, c2: real, d0: real, d1: real, d2: real)
    ensures Comb(p, q, r, a0, a1, a2) + Comb(p, q, r, b0, b1, b2)
            + Comb(p, q, r, c0, c1, c2) + Comb(p, q, r, d0, d1, d2)
         == Comb(p, q, r, a0 + b0 + c0 + d0, a1 + b1 + c1 + d1, a2 + b2 + c2 + d2)
  {
  }

  lemma Dot4OfCombs(k0: real, k1: real, k2: real, k3: real, p: real, q: real, r: real,
                    a0: real, a1: real, a2: real, b0: real, b1: real, b2: real,
                    c0: real, c1: real, c2: real, d0: real, d1: real, d2: real)
    ensures Dot4(k0, k1, k2, k3, Comb(p, q, r, a0, a1, a2), Comb(p, q, r, b0, b1, b2),
                 Comb(p, q, r, c0, c1, c2), Comb(p, q, r, d0, d1, d2))
         == Comb(p, q, r, Dot4(k0, k1, k2, k3, a0, b0, c0, d0), Dot4(k0, k1, k2, k3, a1, b1, c1, d1),
                 Dot4(k0, k1, k2, k3, a2, b2, c2, d2))
  {
    CombScaled(k0, p, q, r, a0, a1, a2);
    CombScaled(k1, p, q, r, b0, b1, b2);
    CombScaled(k2, p, q, r, c0, c1, c2);
    CombScaled(k3, p, q, r, d0, d1, d2);
    CombSum4(p, q, r, k0 * a0, k0 * a1, k0 * a2, k1 * b0, k1 * b1, k1 * b2,
             k2 * c0, k2 * c1, k2 * c2, k3 * d0, k3 * d1, k3 * d2);
  }

  /** A rate 2 k . d along the derivative of the state. */
  lemma RateAlongState(w: real, x: real, y: real, z: real, p: real, q: real, r: real, dw: real, dx: real,
                       dy: real, dz: real,
                       k0: real, k1: real, k2: real, k3: real)
    requires FollowsState(w, x, y, z, p, q, r, dw, dx, dy, dz)
    ensures 2.0 * Dot4(k0, k1, k2, k3, dw, dx, dy, dz)
         == Comb(p, q, r, Dot4(k0, k1, k2, k3, -x, w, z, -y), Dot4(k0, k1, k2, k3, -y, -z, w, x),
                 Dot4(k0, k1, k2, k3, -z, y, -x, w))
  {
    DoubleDot4(k0, k1, k2, k3, dw, dx, dy, dz);
    Dot4OfCombs(k0, k1, k2, k3, p, q, r, -x, -y, -z, w, -z, y, z, w, -x, -y, x, w);
  }

  lemma CombIsDet(p: real, q: real, r: real, a: real, b: real)
    ensures Comb(p, q, r, 0.0, -a, b) == Det(r, q, a, b)
  {
  }

  lemma TurnedDiag(w: real, x: real, y: real, z: real, p: real, q: real, r: real, dw: real, dx: real, dy: real,
                   dz: real)
    requires FollowsState(w, x, y, z, p, q, r, dw, dx, dy, dz)
    ensures DiagRate(w, x, y, z, dw, dx, dy, dz) == Det(r, q, Off(x, z, w, y), OffMinus(x, y, w, z))
  {
    RateAlongState(w, x, y, z, p, q, r, dw, dx, dy, dz, w, x, -y, -z);
    DiagDots(w, x, y, z);
    CombIsDet(p, q, r, Off(x, z, w, y), OffMinus(x, y, w, z));
    assert DiagRate(w, x, y, z, dw, dx, dy, dz) == 2.0 * Dot4(w, x, -y, -z, dw, dx, dy, dz);
  }

  lemma DiagDots(w: real, x: real, y: real, z: real)
    ensures Dot4(w, x, -y, -z, -x, w, z, -y) == 0.0
    ensures Dot4(w, x, -y, -z, -y, -z, w, x) == -Off(x, z, w, y)
    ensures Dot4(w, x, -y, -z, -z, y, -x, w) == OffMinus(x, y, w, z)
  {
  }

  lemma TurnedOff(w: real, x: real, y: real, z: real, p: real, q: real, r: real, dw: real, dx: real, dy: real, dz: real)
    requires FollowsState(w, x, y, z, p, q, r, dw, dx, dy, dz)
    ensures OffRate(x, y, w, z, dx, dy, dw, dz) == Det(r, q, OffMinus(y, z, w, x), Diag(w, y, x, z))
  {
    RateAlongState(w, x, y, z, p, q, r, dw, dx, dy, dz, z, y, x, w);
    OffDots(w, x, y, z);
    CombIsDet(p, q, r, OffMinus(y, z, w, x), Diag(w, y, x, z));
    assert OffRate(x, y, w, z, dx, dy, dw, dz) == 2.0 * Dot4(z, y, x, w, dw, dx, dy, dz);
  }

  lemma OffDots(w: real, x: real, y: real, z: real)
    ensures Dot4(z, y, x, w, -x, w, z, -y) == 0.0
    ensures Dot4(z, y, x, w, -y, -z, w, x) == -OffMinus(y, z, w, x)
    ensures Dot4(z, y, x, w, -z, y, -x, w) == Diag(w, y, x, z)
  {
  }

  lemma TurnedOffMinus(w: real, x: real, y: real, z: real, p: real, q: real, r: real, dw: real, dx: real,
                       dy: real, dz: real)
    requires FollowsState(w, x, y, z, p, q, r, dw, dx, dy, dz)
    ensures OffMinusRate(x, z, w, y, dx, dz, dw, dy) == Det(r, q, Diag(w, z, x, y), Off(y, z, w, x))
  {
    RateAlongState(w, x, y, z, p, q, r, dw, dx, dy, dz, -y, z, -w, x);
    OffMinusDots(w, x, y, z);
    CombIsDet(p, q, r, Diag(w, z, x, y), Off(y, z, w, x));
    assert OffMinusRate(x, z, w, y, dx, dz, dw, dy) == 2.0 * Dot4(-y, z, -w, x, dw, dx, dy, dz);
  }

  lemma OffMinusDots(w: real, x: real, y: real, z: real)
    ensures Dot4(-y, z, -w, x, -x, w, z, -y) == 0.0
    ensures Dot4(-y, z, -w, x, -y, -z, w, x) == -Diag(w, z, x, y)
    ensures Dot4(-y, z, -w, x, -z, y, -x, w) == Off(y, z, w, x)
  {
  }

  lemma Swap(a: real, b: real, c: real, d: real)
    ensures Diag(a, b, c, d) == Diag(a, b, d, c)
    ensures Off(a, b, c, d) == Off(b, a, c, d)
    ensures OffMinus(a, b, c, d) == OffMinus(b, a, c, d)
  {
  }

  lemma SwapRate(a: real, b: real, c: real, d: real, da: real, db: real, dc: real, dd: real)
    ensures DiagRate(a, b, c, d, da, db, dc, dd) == DiagRate(a, b, d, c, da, db, dd, dc)
    ensures OffRate(a, b, c, d, da, db, dc, dd) == OffRate(b, a, c, d, db, da, dc, dd)
    ensures OffMinusRate(a, b, c, d, da, db, dc, dd) == OffMinusRate(b, a, c, d, db, da, dc, dd)
  {
  }

  lemma TurnedFirst(w: real, x: real, y: real, z: real, p: real, q: real, r: real, dw: real, dx: real,
                    dy: real, dz: real)
    requires FollowsState(w, x, y, z, p, q, r, dw, dx, dy, dz)
    ensures DiagRate(w, x, y, z, dw, dx, dy, dz) == Det(r, q, Off(x, z, w, y), OffMinus(x, y, w, z))
    ensures OffRate(x, y, w, z, dx, dy, dw, dz) == Det(r, q, OffMinus(y, z, w, x), Diag(w, y, x, z))
    ensures OffMinusRate(x, z, w, y, dx, dz, dw, dy) == Det(r, q, Diag(w, z, x, y), Off(y, z, w, x))
  {
    TurnedDiag(w, x, y, z, p, q, r, dw, dx, dy, dz);
    TurnedOff(w, x, y, z, p, q, r, dw, dx, dy, dz);
    TurnedOffMinus(w, x, y, z, p, q, r, dw, dx, dy, dz);
  }

  /** The same after turning the axes: x, y, z become y, z, x. */
  lemma TurnedSecond(w: real, x: real, y: real, z: real, p: real, q: real, r: real, dw: real, dx: real,
                     dy: real, dz: real)
    requires FollowsState(w, x, y, z, p, q, r, dw, dx, dy, dz)
    ensures OffMinusRate(x, y, w, z, dx, dy, dw, dz) == Det(p, r, Diag(w, x, y, z), Off(x, z, w, y))
    ensures DiagRate(w, y, x, z, dw, dy, dx, dz) == Det(p, r, Off(x, y, w, z), OffMinus(y, z, w, x))
    ensures OffRate(y, z, w, x, dy, dz, dw, dx) == Det(p, r, OffMinus(x, z, w, y), Diag(w, z, x, y))
  {
    TurnedFirst(w, y, z, x, q, r, p, dw, dy, dz, dx);
    SwapRate(x, y, w, z, dx, dy, dw, dz);
    SwapRate(w, y, x, z, dw, dy, dx, dz);
    Swap(x, z, w, y);
    Swap(x, y, w, z);
    Swap(w, z, x, y);
  }

  lemma TurnedThird(w: real, x: real, y: real, z: real, p: real, q: real, r: real, dw: real, dx: real,
                    dy: real, dz: real)
    requires FollowsState(w, x, y, z, p, q, r, dw, dx, dy, dz)
    ensures OffRate(x, z, w, y, dx, dz, dw, dy) == Det(q, p, OffMinus(x, y, w, z), Diag(w, x, y, z))
    ensures OffMinusRate(y, z, w, x, dy, dz, dw, dx) == Det(q, p, Diag(w, y, x, z), Off(x, y, w, z))
    ensures DiagRate(w, z, x, y, dw, dz, dx, dy) == Det(q, p, Off(y, z, w, x), OffMinus(x, z, w, y))
  {
    TurnedFirst(w, z, x, y, r, p, q, dw, dz, dx, dy);
    SwapRate(x, z, w, y, dx, dz, dw, dy);
    SwapRate(y, z, w, x, dy, dz, dw, dx);
    Swap(x, z, w, y);
    Swap(y, z, w, x);
    Swap(w, y, x, z);
  }

  lemma StateFollows(q: Quaternion, omega: Vec)
    ensures var d := Derivative(q, omega);
            FollowsState(q.w, q.x, q.y, q.z, omega.x, omega.y, omega.z, d.w, d.x, d.y, d.z)
  {
  }

  /** Along the derivative of the state, the columns of dR_NED are those of the homogeneous matrix, turned. */
  lemma RateIsTurned(q: Quaternion, omega: Vec, d: Quaternion)
    requires d == Derivative(q, omega)
    ensures DerivativeOfRotation(q, d) == Turned(Homogeneous(q), omega)
  {
    StateFollows(q, omega);
    TurnedFirst(q.w, q.x, q.y, q.z, omega.x, omega.y, omega.z, d.w, d.x, d.y, d.z);
    TurnedSecond(q.w, q.x, q.y, q.z, omega.x, omega.y, omega.z, d.w, d.x, d.y, d.z);
    TurnedThird(q.w, q.x, q.y, q.z, omega.x, omega.y, omega.z, d.w, d.x, d.y, d.z);
  }

  lemma RateOfHomogeneous(q: Quaternion, omega: Vec, v: Vec)
    ensures Apply(DerivativeOfRotation(q, Derivative(q, omega)), v) == Apply(Homogeneous(q), Cross(omega, v))
  {
    RateIsTurned(q, omega, Derivative(q, omega));
    TurnedApplies(Homogeneous(q), omega, v);
  }

  /** `rate` is the rate of r in a frame that turns at omega. */
  ghost predicate TurnsAt(r: Matrix3, rate: Matrix3, omega: Vec) {
    forall v :: Apply(rate, v) == Apply(r, Cross(omega, v))
  }

  /** v + h dv. */
  function Stepped(v: Vec, h: real, dv: Vec): Vec {
    Vec(Along(v.x, h, dv.x), Along(v.y, h, dv.y), Along(v.z, h, dv.z))
  }

  lemma CombPlus(v0: real, v1: real, v2: real, a0: real, a1: real, a2: real, e: real)
    ensures Comb(v0, v1, v2, a0 + e, a1, a2) == Along(Comb(v0, v1, v2, a0, a1, a2), e, v0)
    ensures Comb(v0, v1, v2, a0, a1 + e, a2) == Along(Comb(v0, v1, v2, a0, a1, a2), e, v1)
    ensures Comb(v0, v1, v2, a0, a1, a2 + e) == Along(Comb(v0, v1, v2, a0, a1, a2), e, v2)
  {
  }

  lemma ApplyPlusIdentity(m: Matrix3, e: real, v: Vec)
    ensures Apply(PlusIdentity(m, e), v) == Stepped(Apply(m, v), e, v)
  {
    CombPlus(v.x, v.y, v.z, m.c0.x, m.c1.x, m.c2.x, e);
    CombPlus(v.x, v.y, v.z, m.c0.y, m.c1.y, m.c2.y, e);
    CombPlus(v.x, v.y, v.z, m.c0.z, m.c1.z, m.c2.z, e);
  }

  lemma UnitIsHomogeneous(q: Quaternion)
    requires Norm2(q) == 1.0
    ensures RotationOf(q) == Homogeneous(q)
  {
    RotationFromHomogeneous(q);
  }

  lemma UnitTurns(q: Quaternion, omega: Vec)
    requires Norm2(q) == 1.0
    ensures TurnsAt(RotationOf(q), DerivativeOfRotation(q, Derivative(q, omega)), omega)
  {
    UnitIsHomogeneous(q);
    forall v ensures Apply(DerivativeOfRotation(q, Derivative(q, omega)), v) == Apply(RotationOf(q), Cross(omega, v)) {
      RateOfHomogeneous(q, omega, v);
    }
  }

  const E1 := Vec(1.0, 0.0, 0.0)
  const E2 := Vec(0.0, 1.0, 0.0)
  const E3 := Vec(0.0, 0.0, 1.0)

  lemma TurningNeedsUnit(q: Quaternion)
    requires TurnsAt(RotationOf(q), DerivativeOfRotation(q, Derivative(q, E3)), E3)
    ensures Norm2(q) == 1.0
  {
    var e := 1.0 - Norm2(q);
    assert Cross(E3, E1) == E2;
    RateOfHomogeneous(q, E3, E1);
    RotationFromHomogeneous(q);
    ApplyPlusIdentity(Homogeneous(q), e, E2);
    assert Apply(DerivativeOfRotation(q, Derivative(q, E3)), E1) == Apply(RotationOf(q), E2);
    assert Apply(RotationOf(q), E2).y == Apply(Homogeneous(q), E2).y + e * 1.0;
  }

  /** dR_NED v = R (omega x v) for every rate omega and every v if and only if q has norm 1. */
  lemma TurnsIffUnit(q: Quaternion)
    ensures (forall omega :: TurnsAt(RotationOf(q), DerivativeOfRotation(q, Derivative(q, omega)), omega))
       <==> Norm2(q) == 1.0
  {
    if Norm2(q) == 1.0 {
      forall omega ensures TurnsAt(RotationOf(q), DerivativeOfRotation(q, Derivative(q, omega)), omega) {
        UnitTurns(q, omega);
      }
    } else if forall omega :: TurnsAt(RotationOf(q), DerivativeOfRotation(q, Derivative(q, omega)), omega) {
      TurningNeedsUnit(q);
    }
  }

  lemma NormOfStep(q: Quaternion, h: real, d: Quaternion)
    ensures Norm2(Step(q, h, d))
         == Expansion(h, Norm2(q), 2.0 * Dot4(q.w, q.x, q.y, q.z, d.w, d.x, d.y, d.z), Norm2(d))
  {
    SquareAlong(q.w, h, d.w);
    SquareAlong(q.x, h, d.x);
    SquareAlong(q.y, h, d.y);
    SquareAlong(q.z, h, d.z);
  }

  lemma SquareAlong(a: real, h: real, da: real)
    ensures Along(a, h, da) * Along(a, h, da) == a * a + h * (2.0 * (a * da)) + h * h * (da * da)
  {
  }

  lemma NormDots(w: real, x: real, y: real, z: real)
    ensures Dot4(w, x, y, z, -x, w, z, -y) == 0.0
    ensures Dot4(w, x, y, z, -y, -z, w, x) == 0.0
    ensures Dot4(w, x, y, z, -z, y, -x, w) == 0.0
  {
  }

  /** The derivative of the state is orthogonal to q. */
  lemma StateIsOrthogonal(q: Quaternion, omega: Vec)
    ensures DotQ(q, Derivative(q, omega)) == 0.0
  {
    var d := Derivative(q, omega);
    StateFollows(q, omega);
    NormDots(q.w, q.x, q.y, q.z);
    RateAlongState(q.w, q.x, q.y, q.z, omega.x, omega.y, omega.z, d.w, d.x, d.y, d.z, q.w, q.x, q.y, q.z);
    NoCombination(omega.x, omega.y, omega.z);
  }

  /** The norm of the quaternion has no first-order change. */
  lemma NormIsStationary(q: Quaternion, h: real, omega: Vec)
    ensures var d := Derivative(q, omega);
            Norm2(Step(q, h, d)) == Expansion(h, Norm2(q), 0.0, Norm2(d))
  {
    StateIsOrthogonal(q, omega);
    NormOfStep(q, h, Derivative(q, omega));
  }

  /** Along the derivative of the state dR_NED is the first-order term of the rotation matrix, whatever the
      norm of q. */
  lemma StateRateIsFirstOrder(q: Quaternion, omega: Vec)
    ensures var d := Derivative(q, omega); IsFirstOrderTerm(q, d, DerivativeOfRotation(q, d))
  {
    StateIsOrthogonal(q, omega);
    FirstOrderIffOrthogonal(q, Derivative(q, omega));
  }

  lemma NoCombination(p: real, q: real, r: real)
    ensures Comb(p, q, r, 0.0, 0.0, 0.0) == 0.0
  {
  }

  lemma RodriguesRow(w: real, x: real, y: real, z: real, v0: real, v1: real, v2: real)
    ensures Comb(v0, v1, v2, UnitDiag(y, z), OffMinus(x, y, w, z), Off(x, z, w, y))
         == v0 + 2.0 * (w * Det(y, z, v1, v2) + Det(y, z, Det(z, x, v2, v0), Det(x, y, v0, v1)))
  {
  }

  /** The rotation matrix of q = (w, u) takes v to v + 2 w (u x v) + 2 u x (u x v), whatever the norm of q. */
  lemma RotationOfVector(q: Quaternion, v: Vec)
    ensures var u := Vec(q.x, q.y, q.z);
            var (c, cc) := (Cross(u, v), Cross(u, Cross(u, v)));
            Apply(RotationOf(q), v)
            == Vec(v.x + 2.0 * (q.w * c.x + cc.x), v.y + 2.0 * (q.w * c.y + cc.y), v.z + 2.0 * (q.w * c.z + cc.z))
  {
    RodriguesRow(q.w, q.x, q.y, q.z, v.x, v.y, v.z);
    RodriguesRow(q.w, q.y, q.z, q.x, v.y, v.z, v.x);
    RodriguesRow(q.w, q.z, q.x, q.y, v.z, v.x, v.y);
    Swap(q.x, q.y, q.w, q.z);
    Swap(q.y, q.z, q.w, q.x);
    Swap(q.x, q.z, q.w, q.y);
  }
}
