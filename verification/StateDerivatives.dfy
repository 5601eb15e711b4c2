/** The thirteen derivatives that Body::calculate_state_derivatives writes for its body. */
module StateDerivatives {
  import opened Rotations
  import opened QuaternionKinematics
  import opened ForcedPositions
  import LA = LinearAlgebra
  import BD = BlockedDofs
  import BA = BodyAccelerations

  const FIRST_QUATERNION := 9

  /** The motion held by the slots of a body. */
  function MotionAt(x: seq<real>, bodyIdx: nat): Motion
    requires |x| >= (bodyIdx + 1) * BD.STATES_PER_BODY
  {
    var first := bodyIdx * BD.STATES_PER_BODY;
    Motion(Quaternion(x[first + 9], x[first + 10], x[first + 11], x[first + 12]),
           Vec(x[first + 3], x[first + 4], x[first + 5]), Vec(x[first + 6], x[first + 7], x[first + 8]))
  }

  /** R uvw, in a current. */
  function PositionRate(m: Motion, current: Vec): LA.Vector {
    ListOf(Add(Apply(RotationIn(m), m.v), current))
  }

  function QuaternionRate(m: Motion): LA.Vector {
    var d := Derivative(m.q, m.omega);
    [d.w, d.x, d.y, d.z]
  }

  ghost predicate Accepts(s: Situation, g: Vec) {
    BA.KeepsDimension(s.solver) && BA.ValidInputs(s.dof, KinematicsOf(s, g), s.minv, s.force)
  }

  /** The derivatives of positions, velocities and quaternion, in the order of the state. */
  ghost function DerivativesOf(s: Situation, g: Vec, current: Vec): (d: LA.Vector)
    requires Accepts(s, g)
    ensures |d| == BD.STATES_PER_BODY
  {
    PositionRate(s.motion, current)
    + BA.AccelerationsAt(s.solver, s.dof, s.t, KinematicsOf(s, g), s.minv, s.force)
    + QuaternionRate(s.motion)
  }

  /** The motion of the situation is that of the state x; no slot of another body changes. The accelerations
      without forcing, which the source writes first, are overwritten when there is forcing. */
  method CalculateStateDerivatives(s: Situation, g: Vec, current: Vec, x: seq<real>, dxdt: array<real>)
    requires Accepts(s, g)
    requires |x| == dxdt.Length >= (s.dof.bodyIdx + 1) * BD.STATES_PER_BODY
    requires s.motion == MotionAt(x, s.dof.bodyIdx)
    modifies dxdt
    ensures var first := s.dof.bodyIdx * BD.STATES_PER_BODY;
            && dxdt[first..first + BD.STATES_PER_BODY] == DerivativesOf(s, g, current)
            && dxdt[..first] == old(dxdt[..first])
            && dxdt[first + BD.STATES_PER_BODY..] == old(dxdt[first + BD.STATES_PER_BODY..])
  {
    var first := s.dof.bodyIdx * BD.STATES_PER_BODY;
    ghost var before := dxdt[..];
    BA.WriteSlots(dxdt, first, PositionRate(s.motion, current));
    ghost var between := dxdt[..];
    BA.CalculateAccelerations(s.solver, s.dof, s.t, KinematicsOf(s, g), s.minv, s.force, dxdt);
    ghost var almost := dxdt[..];
    BA.WriteSlots(dxdt, first + FIRST_QUATERNION, QuaternionRate(s.motion));
    ghost var p, a := PositionRate(s.motion, current), BA.AccelerationsAt(s.solver, s.dof, s.t, KinematicsOf(s, g), s.minv, s.force);
    SlotsJoin(before, between, first, 0, [], p);
    SlotsJoin(between, almost, first, 3, p, a);
    SlotsJoin(almost, dxdt[..], first, 9, p + a, QuaternionRate(s.motion));
  }

  /** Slots from first on hold `done`, and then also `more`. */
  lemma SlotsJoin(before: seq<real>, after: seq<real>, first: nat, k: nat, done: LA.Vector, more: LA.Vector)
    requires |done| == k && |before| == |after| >= first + k + |more|
    requires before[first..first + k] == done
    requires after[first + k..first + k + |more|] == more
    requires after[..first + k] == before[..first + k]
    requires after[first + k + |more|..] == before[first + k + |more|..]
    ensures after[first..first + k + |more|] == done + more
    ensures after[..first] == before[..first]
    ensures forall end :: first + k + |more| <= end <= |before| ==> after[end..] == before[end..]
  {
    assert after[..first] == after[..first + k][..first] == before[..first + k][..first];
    assert after[first..first + k] == after[..first + k][first..] == before[first..first + k];
    forall end | first + k + |more| <= end <= |before| ensures after[end..] == before[end..] {
      var base := first + k + |more|;
      assert after[end..] == after[base..][end - base..];
      assert before[end..] == before[base..][end - base..];
    }
  }

  // ----- What they mean for the state -----

  /** The derivatives of the state x are those of the situation s. */
  ghost predicate IsDerivative(s: Situation, g: Vec, current: Vec, x: seq<real>, dxdt: seq<real>) {
    && Accepts(s, g) && |x| == |dxdt| >= (s.dof.bodyIdx + 1) * BD.STATES_PER_BODY
    && s.motion == MotionAt(x, s.dof.bodyIdx)
    && dxdt[First(s)..First(s) + BD.STATES_PER_BODY] == DerivativesOf(s, g, current)
  }

  function First(s: Situation): nat {
    s.dof.bodyIdx * BD.STATES_PER_BODY
  }

  /** x + h dxdt. */
  function Advanced(x: seq<real>, h: real, dxdt: seq<real>): (next: seq<real>)
    requires |x| == |dxdt|
    ensures |next| == |x|
  {
    seq(|x|, i requires 0 <= i < |x| => Along(x[i], h, dxdt[i]))
  }

  lemma SlotsJoined(dxdt: seq<real>, f: nat, p: LA.Vector, a: LA.Vector, q: LA.Vector)
    requires |p| == 3 && |a| == 6 && |q| == 4 && f + 13 <= |dxdt| && dxdt[f..f + 13] == p + a + q
    ensures dxdt[f] == p[0] && dxdt[f + 1] == p[1] && dxdt[f + 2] == p[2]
    ensures forall i :: 0 <= i < 6 ==> dxdt[f + 3 + i] == a[i]
    ensures dxdt[f + 9] == q[0] && dxdt[f + 10] == q[1] && dxdt[f + 11] == q[2] && dxdt[f + 12] == q[3]
  {
    var d := p + a + q;
    forall i | 0 <= i < 13 ensures dxdt[f + i] == d[i] {
      assert dxdt[f + i] == dxdt[f..f + 13][i];
    }
    assert d[9] == q[0] && d[10] == q[1] && d[11] == q[2] && d[12] == q[3];
    forall i | 0 <= i < 6 ensures dxdt[f + 3 + i] == a[i] {
      assert dxdt[f + (3 + i)] == d[3 + i];
    }
    assert dxdt[f + 0] == d[0];
  }

  lemma DerivativeSlots(s: Situation, g: Vec, current: Vec, x: seq<real>, dxdt: seq<real>, f: nat, a: LA.Vector)
    requires IsDerivative(s, g, current, x, dxdt) && f == First(s)
    requires a == BA.AccelerationsAt(s.solver, s.dof, s.t, KinematicsOf(s, g), s.minv, s.force)
    ensures |a| == 6 && f + 13 <= |dxdt|
    ensures Vec(dxdt[f], dxdt[f + 1], dxdt[f + 2]) == Add(Apply(RotationOf(s.motion.q), s.motion.v), current)
    ensures forall i :: 0 <= i < 6 ==> dxdt[f + 3 + i] == a[i]
    ensures Quaternion(dxdt[f + 9], dxdt[f + 10], dxdt[f + 11], dxdt[f + 12])
         == Derivative(s.motion.q, s.motion.omega)
  {
    SlotsJoined(dxdt, f, PositionRate(s.motion, current), a, QuaternionRate(s.motion));
  }

  lemma AdvancedMotion(x: seq<real>, dxdt: seq<real>, h: real, body: nat, f: nat)
    requires |x| == |dxdt| >= (body + 1) * BD.STATES_PER_BODY && f == body * BD.STATES_PER_BODY
    ensures var m := MotionAt(x, body);
            MotionAt(Advanced(x, h, dxdt), body)
            == Motion(Step(m.q, h, Quaternion(dxdt[f + 9], dxdt[f + 10], dxdt[f + 11], dxdt[f + 12])),
                      Stepped(m.v, h, Vec(dxdt[f + 3], dxdt[f + 4], dxdt[f + 5])),
                      Stepped(m.omega, h, Vec(dxdt[f + 6], dxdt[f + 7], dxdt[f + 8])))
  {
  }

  /** A step along the derivatives moves the position at R v and the current, and turns the quaternion at its own
      derivative; velocities change at the accelerations of the forced motion. */
  lemma StepOfState(s: Situation, g: Vec, current: Vec, x: seq<real>, dxdt: seq<real>, h: real)
    requires IsDerivative(s, g, current, x, dxdt)
    ensures var (m, f, next) := (s.motion, 13 * s.dof.bodyIdx, Advanced(x, h, dxdt));
            var a := BA.AccelerationsAt(s.solver, s.dof, s.t, KinematicsOf(s, g), s.minv, s.force);
            && MotionAt(next, s.dof.bodyIdx)
               == Motion(Step(m.q, h, Derivative(m.q, m.omega)), Stepped(m.v, h, Vec(a[0], a[1], a[2])),
                         Stepped(m.omega, h, Vec(a[3], a[4], a[5])))
            && Vec(next[f], next[f + 1], next[f + 2])
               == Stepped(Vec(x[f], x[f + 1], x[f + 2]), h, Add(Apply(RotationOf(m.q), m.v), current))
  {
    var f, a := First(s), BA.AccelerationsAt(s.solver, s.dof, s.t, KinematicsOf(s, g), s.minv, s.force);
    DerivativeSlots(s, g, current, x, dxdt, f, a);
    assert dxdt[f + 3 + 0] == a[0] && dxdt[f + 3 + 1] == a[1] && dxdt[f + 3 + 2] == a[2];
    assert dxdt[f + 3 + 3] == a[3] && dxdt[f + 3 + 4] == a[4] && dxdt[f + 3 + 5] == a[5];
    AdvancedMotion(x, dxdt, h, s.dof.bodyIdx, f);
  }

  /** The slots of a quaternion, and twice their derivatives: the product with the rotation rate (p, q, r) in the
      slots before them. The derivative is orthogonal to the quaternion. */
  predicate TurnsQuaternion(x: seq<real>, d: seq<real>, f: nat)
    requires |x| == |d| >= f + 13
  {
    var (p, q, r) := (x[f + 6], x[f + 7], x[f + 8]);
    && 2.0 * d[f + 9] == -x[f + 10] * p - x[f + 11] * q - x[f + 12] * r
    && 2.0 * d[f + 10] == x[f + 9] * p - x[f + 12] * q + x[f + 11] * r
    && 2.0 * d[f + 11] == x[f + 12] * p + x[f + 9] * q - x[f + 10] * r
    && 2.0 * d[f + 12] == -x[f + 11] * p + x[f + 10] * q + x[f + 9] * r
    && x[f + 9] * d[f + 9] + x[f + 10] * d[f + 10] + x[f + 11] * d[f + 11] + x[f + 12] * d[f + 12] == 0.0
  }

  lemma QuaternionTurns(x: seq<real>, d: seq<real>, f: nat, q: Quaternion, omega: Vec)
    requires |x| == |d| >= f + 13
    requires q == Quaternion(x[f + 9], x[f + 10], x[f + 11], x[f + 12]) && omega == Vec(x[f + 6], x[f + 7], x[f + 8])
    requires Quaternion(d[f + 9], d[f + 10], d[f + 11], d[f + 12]) == Derivative(q, omega)
    ensures TurnsQuaternion(x, d, f)
  {
    DerivativeIsTqw(q, omega);
    StateIsOrthogonal(q, omega);
  }

  /** On the slots themselves: the quaternion turns at the rotation rate, and its squared norm is stationary. */
  lemma QuaternionSlots(s: Situation, g: Vec, current: Vec, x: seq<real>, dxdt: seq<real>)
    requires IsDerivative(s, g, current, x, dxdt)
    ensures |x| == |dxdt| >= 13 * s.dof.bodyIdx + 13 && TurnsQuaternion(x, dxdt, 13 * s.dof.bodyIdx)
  {
    DerivativeSlots(s, g, current, x, dxdt, First(s),
                    BA.AccelerationsAt(s.solver, s.dof, s.t, KinematicsOf(s, g), s.minv, s.force));
    QuaternionTurns(x, dxdt, First(s), s.motion.q, s.motion.omega);
  }

  /** A forced velocity within its window has the derivative of its table in its own slot. */
  lemma ForcedVelocitySlot(s: Situation, g: Vec, current: Vec, x: seq<real>, dxdt: seq<real>, state: BD.State)
    requires IsDerivative(s, g, current, x, dxdt)
    requires state in s.dof.blocked && !BD.IsPosition(state) && BD.IsBlockedAtOrder(s.dof, state, s.t, 1)
    ensures var slot := BD.StateIndex(state, s.dof.bodyIdx);
            slot < |dxdt| && dxdt[slot] == s.dof.blocked[state].df(s.t, 1)
  {
    var i := BD.Axis(state);
    BD.AxisIsInjective(state, BD.VelocityOf(i));
    assert BD.ForcedAxis(s.dof, false, i, s.t);
    assert BA.SomeForced(s.dof, false, s.t);
    DerivativeSlots(s, g, current, x, dxdt, First(s),
                    BA.AccelerationsAt(s.solver, s.dof, s.t, KinematicsOf(s, g), s.minv, s.force));
    BA.ForcedVelocityIsMet(s.solver, s.dof, s.t, KinematicsOf(s, g), s.minv, s.force, i);
    assert BD.StateIndex(state, s.dof.bodyIdx) == First(s) + 3 + i;
  }

  lemma ChosenAt(dof: BD.BlockedDof, t: real, before: seq<real>, after: seq<real>, first: nat,
                 states: seq<BD.State>, i: nat, slot: nat)
    requires BD.HoldsChosen(dof, t, before, after, first, states) && i < |states| && slot == first + i
    ensures slot < |after| == |before| && after[slot] == BD.Chosen(dof, states[i], t, before[slot])
  {
  }

  predicate HasForcedComponents(dof: BD.BlockedDof, t: real, m: Motion, n: Motion) {
    && n.v.x == BD.Chosen(dof, BD.U, t, m.v.x) && n.omega.x == BD.Chosen(dof, BD.P, t, m.omega.x)
    && n.v.y == BD.Chosen(dof, BD.V, t, m.v.y) && n.omega.y == BD.Chosen(dof, BD.Q, t, m.omega.y)
    && n.v.z == BD.Chosen(dof, BD.W, t, m.v.z) && n.omega.z == BD.Chosen(dof, BD.R, t, m.omega.z)
    && n.q.w == m.q.w && n.q.x == BD.Chosen(dof, BD.PHI, t, m.q.x)
    && n.q.y == BD.Chosen(dof, BD.THETA, t, m.q.y) && n.q.z == BD.Chosen(dof, BD.PSI, t, m.q.z)
  }

  lemma SlotsGiveMotion(dof: BD.BlockedDof, t: real, before: seq<real>, after: seq<real>, f: nat)
    requires f == dof.bodyIdx * BD.STATES_PER_BODY && |before| == |after| >= f + BD.STATES_PER_BODY
    requires BD.HoldsChosen(dof, t, before, after, f, [BD.X, BD.Y, BD.Z, BD.U, BD.V, BD.W, BD.P, BD.Q, BD.R])
    requires after[f + 9] == before[f + 9]
    requires BD.HoldsChosen(dof, t, before, after, f + 10, [BD.PHI, BD.THETA, BD.PSI])
    ensures HasForcedComponents(dof, t, MotionAt(before, dof.bodyIdx), MotionAt(after, dof.bodyIdx))
  {
    var states, turns := [BD.X, BD.Y, BD.Z, BD.U, BD.V, BD.W, BD.P, BD.Q, BD.R], [BD.PHI, BD.THETA, BD.PSI];
    ChosenAt(dof, t, before, after, f, states, 3, f + 3);
    ChosenAt(dof, t, before, after, f, states, 4, f + 4);
    ChosenAt(dof, t, before, after, f, states, 5, f + 5);
    ChosenAt(dof, t, before, after, f, states, 6, f + 6);
    ChosenAt(dof, t, before, after, f, states, 7, f + 7);
    ChosenAt(dof, t, before, after, f, states, 8, f + 8);
    ChosenAt(dof, t, before, after, f + 10, turns, 0, f + 10);
    ChosenAt(dof, t, before, after, f + 10, turns, 1, f + 11);
    ChosenAt(dof, t, before, after, f + 10, turns, 2, f + 12);
  }

  /** Forcing the state sets the components of the motion that are forced, and no other. */
  lemma ForcedMotionState(dof: BD.BlockedDof, t: real, before: seq<real>, after: seq<real>)
    requires BD.IsForced(dof, t, before, after)
    ensures HasForcedComponents(dof, t, MotionAt(before, dof.bodyIdx), MotionAt(after, dof.bodyIdx))
  {
    var f := dof.bodyIdx * BD.STATES_PER_BODY;
    BD.ForcedSlots(dof, t, before, after, f);
    SlotsGiveMotion(dof, t, before, after, f);
  }
}
