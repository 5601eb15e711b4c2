/** Wrenches and their changes of point and frame (Wrench.cpp).

    The kinematic tree is modelled by the pose of every frame in NED; k->get(A, B) then has rotation
    R_A^T R_B. Points compare exactly, where the source compares coordinates approximately. A frame
    that the tree does not know makes the source throw; the methods then return false. */
module Wrenches {
  import opened Rotations

  /** Coordinates v in a frame are Apply(rot, v) + origin in NED. */
  datatype Pose = Pose(rot: Matrix3, origin: Vec)

  type Kinematics = map<string, Pose>

  datatype Point = Point(frame: string, v: Vec)

  /** The value of a wrench object. */
  datatype Screw = Screw(force: Vec, torque: Vec, point: Point, frame: string)

  predicate ProperKinematics(k: Kinematics) {
    forall f :: f in k ==> IsRotation(k[f].rot)
  }

  /** The transform between two frames exists, or is not needed. */
  predicate Linked(k: Kinematics, a: string, b: string) {
    a == b || (a in k && b in k)
  }

  function Rotated(k: Kinematics, to: string, from: string, v: Vec): Vec
    requires to in k && from in k
  {
    Apply(Transpose(k[to].rot), Apply(k[from].rot, v))
  }

  /** Coordinates of P in a frame. */
  function Coordinates(k: Kinematics, frame: string, p: Point): Vec
    requires Linked(k, frame, p.frame)
  {
    if p.frame == frame then p.v
    else Apply(Transpose(k[frame].rot), Sub(Add(Apply(k[p.frame].rot, p.v), k[p.frame].origin), k[frame].origin))
  }

  // ----- The moves, on values -----

  predicate CanTransport(w: Screw, p: Point, k: Kinematics) {
    p == w.point || (Linked(k, w.frame, p.frame) && Linked(k, w.frame, w.point.frame))
  }

  /** get_BA: from the new point B to the current point A, in the frame of the wrench. */
  function LeverArm(w: Screw, b: Point, k: Kinematics): Vec
    requires Linked(k, w.frame, b.frame) && Linked(k, w.frame, w.point.frame)
  {
    Sub(Coordinates(k, w.frame, w.point), Coordinates(k, w.frame, b))
  }

  function Transported(w: Screw, p: Point, k: Kinematics): Screw
    requires CanTransport(w, p, k)
  {
    if p == w.point then w
    else w.(torque := Add(w.torque, Cross(LeverArm(w, p, k), w.force)), point := p)
  }

  function Reframed(w: Screw, frame: string, k: Kinematics): Screw
    requires Linked(k, frame, w.frame)
  {
    if frame == w.frame then w
    else w.(force := Rotated(k, frame, w.frame, w.force), torque := Rotated(k, frame, w.frame, w.torque), frame := frame)
  }

  predicate CanMove(w: Screw, p: Point, frame: string, k: Kinematics) {
    CanTransport(w, p, k) && Linked(k, frame, w.frame)
  }

  function Moved(w: Screw, p: Point, frame: string, k: Kinematics): Screw
    requires CanMove(w, p, frame, k)
  {
    Reframed(Transported(w, p, k), frame, k)
  }

  function Added(w: Screw, other: Screw, k: Kinematics): Screw
    requires CanMove(other, w.point, w.frame, k)
  {
    var o := Moved(other, w.point, w.frame, k);
    w.(force := Add(w.force, o.force), torque := Add(w.torque, o.torque))
  }

  // ----- The object -----

  class Wrench {
    var force: Vec
    var torque: Vec
    var point: Point
    var frame: string

    constructor (p: Point, frame: string, force: Vec, torque: Vec)
      ensures Value() == Screw(force, torque, p, frame)
    {
      this.force, this.torque, this.point, this.frame := force, torque, p, frame;
    }

    function Value(): Screw
      reads this
    {
      Screw(force, torque, point, frame)
    }

    method ChangeFrame(newFrame: string, k: Kinematics) returns (ok: bool)
      modifies this
      ensures ok <==> Linked(k, newFrame, old(frame))
      ensures Value() == if ok then Reframed(old(Value()), newFrame, k) else old(Value())
    {
      if newFrame != frame {
        if newFrame !in k || frame !in k {
          return false;
        }
        force := Rotated(k, newFrame, frame, force);
        torque := Rotated(k, newFrame, frame, torque);
        frame := newFrame;
      }
      return true;
    }

    method TransportTo(p: Point, k: Kinematics) returns (ok: bool)
      modifies this
      ensures ok <==> CanTransport(old(Value()), p, k)
      ensures Value() == if ok then Transported(old(Value()), p, k) else old(Value())
    {
      if p != point {
        if !Linked(k, frame, p.frame) || !Linked(k, frame, point.frame) {
          return false;
        }
        var ba := Sub(Coordinates(k, frame, point), Coordinates(k, frame, p));
        torque := Add(torque, Cross(ba, force));
        point := p;
      }
      return true;
    }

    /** When only the second step fails, the first one has been made. */
    method ChangePointAndFrame(p: Point, newFrame: string, k: Kinematics) returns (ok: bool)
      modifies this
      ensures ok <==> CanMove(old(Value()), p, newFrame, k)
      ensures ok ==> Value() == Moved(old(Value()), p, newFrame, k)
      ensures !ok ==>
                Value() == if CanTransport(old(Value()), p, k) then Transported(old(Value()), p, k) else old(Value())
    {
      ok := TransportTo(p, k);
      if ok {
        ok := ChangeFrame(newFrame, k);
      }
    }

    method AddWrench(other: Wrench, k: Kinematics) returns (ok: bool)
      modifies this
      ensures ok <==> CanMove(old(other.Value()), old(point), old(frame), k)
      ensures Value() == if ok then Added(old(Value()), old(other.Value()), k) else old(Value())
      ensures other != this ==> other.Value() == old(other.Value())
    {
      var copy := new Wrench(other.point, other.frame, other.force, other.torque);
      ok := copy.ChangePointAndFrame(point, frame, k);
      if ok {
        force := Add(force, copy.force);
        torque := Add(torque, copy.torque);
      }
    }
  }

  datatype Sum = Sum(wrench: Screw) | PointsDiffer | FramesDiffer

  /** operator+: refuses operands at different points or in different frames. */
  function Plus(l: Screw, r: Screw): Sum {
    if l.point != r.point then PointsDiffer
    else if l.frame != r.frame then FramesDiffer
    else Sum(Screw(Add(l.force, r.force), Add(l.torque, r.torque), l.point, l.frame))
  }

  // ----- The physical wrench behind a value -----

  /** Force and moment about the origin of NED, both in NED: independent of point and frame. */
  datatype Canonical = Canonical(force: Vec, moment: Vec)

  predicate Placed(w: Screw, k: Kinematics) {
    w.frame in k && w.point.frame in k
  }

  function InNed(p: Point, k: Kinematics): Vec
    requires p.frame in k
  {
    Add(Apply(k[p.frame].rot, p.v), k[p.frame].origin)
  }

  function CanonicalOf(w: Screw, k: Kinematics): Canonical
    requires Placed(w, k)
  {
    var force := Apply(k[w.frame].rot, w.force);
    Canonical(force, Add(Apply(k[w.frame].rot, w.torque), Cross(InNed(w.point, k), force)))
  }

  lemma CoordinatesInFrame(k: Kinematics, frame: string, p: Point)
    requires ProperKinematics(k) && frame in k && p.frame in k
    ensures Apply(k[frame].rot, Coordinates(k, frame, p)) == Sub(InNed(p, k), k[frame].origin)
  {
    var r := k[frame].rot;
    if p.frame == frame {
      SubOfAdd(Apply(r, p.v), k[frame].origin);
    } else {
      UndoesTranspose(r, Sub(InNed(p, k), k[frame].origin));
    }
  }

  lemma SubOfAdd(u: Vec, v: Vec)
    ensures Sub(Add(u, v), v) == u
  {
  }

  lemma LeverArmInNed(w: Screw, b: Point, k: Kinematics)
    requires ProperKinematics(k) && Placed(w, k) && b.frame in k
    ensures Apply(k[w.frame].rot, LeverArm(w, b, k)) == Sub(InNed(w.point, k), InNed(b, k))
  {
    CoordinatesInFrame(k, w.frame, w.point);
    CoordinatesInFrame(k, w.frame, b);
    ApplyIsLinear(k[w.frame].rot, Coordinates(k, w.frame, w.point), Coordinates(k, w.frame, b));
  }

  lemma MomentAboutOtherPoint(torque: Vec, a: Vec, b: Vec, force: Vec)
    ensures Add(Add(torque, Cross(Sub(a, b), force)), Cross(b, force)) == Add(torque, Cross(a, force))
  {
    CrossAdd(a, b, force);
  }

  lemma TorqueGained(w: Screw, p: Point, k: Kinematics, force: Vec)
    requires ProperKinematics(k) && Placed(w, k) && p.frame in k && force == Apply(k[w.frame].rot, w.force)
    ensures CanTransport(w, p, k)
    ensures Apply(k[w.frame].rot, Transported(w, p, k).torque)
         == Add(Apply(k[w.frame].rot, w.torque), Cross(Sub(InNed(w.point, k), InNed(p, k)), force))
  {
    var r := k[w.frame].rot;
    if p == w.point {
      CrossAdd(InNed(p, k), InNed(p, k), force);
    } else {
      var arm := LeverArm(w, p, k);
      LeverArmInNed(w, p, k);
      ApplyIsLinear(r, w.torque, Cross(arm, w.force));
      RotationKeepsCross(r, arm, w.force);
    }
  }

  /** In NED, where frame f has axes k[f].rot and origin k[f].origin, a transport from A to B leaves the force, and
      gains BA x F on the torque. */
  lemma TransportInNed(w: Screw, p: Point, k: Kinematics)
    requires ProperKinematics(k) && Placed(w, k) && p.frame in k
    ensures var (t, r) := (Transported(w, p, k), k[w.frame].rot);
            var a := Add(Apply(k[w.point.frame].rot, w.point.v), k[w.point.frame].origin);
            var b := Add(Apply(k[p.frame].rot, p.v), k[p.frame].origin);
            && t.force == w.force && t.frame == w.frame && t.point == p
            && Apply(r, t.torque) == Add(Apply(r, w.torque), Cross(Sub(a, b), Apply(r, w.force)))
  {
    TorqueGained(w, p, k, Apply(k[w.frame].rot, w.force));
  }

  /** Transport does not change the physical wrench. */
  lemma TransportKeepsCanonical(w: Screw, p: Point, k: Kinematics)
    requires ProperKinematics(k) && Placed(w, k) && p.frame in k
    ensures CanTransport(w, p, k) && CanonicalOf(Transported(w, p, k), k) == CanonicalOf(w, k)
  {
    var r := k[w.frame].rot;
    TorqueGained(w, p, k, Apply(r, w.force));
    MomentAboutOtherPoint(Apply(r, w.torque), InNed(w.point, k), InNed(p, k), Apply(r, w.force));
  }

  /** Nor does a change of frame: force and torque have the same coordinates in NED, and the point is kept. */
  lemma ReframeKeepsCanonical(w: Screw, frame: string, k: Kinematics)
    requires ProperKinematics(k) && Placed(w, k) && frame in k
    ensures var u := Reframed(w, frame, k);
            && u.frame == frame && u.point == w.point
            && Apply(k[frame].rot, u.force) == Apply(k[w.frame].rot, w.force)
            && Apply(k[frame].rot, u.torque) == Apply(k[w.frame].rot, w.torque)
    ensures CanonicalOf(Reframed(w, frame, k), k) == CanonicalOf(w, k)
  {
    if frame != w.frame {
      UndoesTranspose(k[frame].rot, Apply(k[w.frame].rot, w.force));
      UndoesTranspose(k[frame].rot, Apply(k[w.frame].rot, w.torque));
    }
  }

  lemma MoveKeepsCanonical(w: Screw, p: Point, frame: string, k: Kinematics)
    requires ProperKinematics(k) && Placed(w, k) && p.frame in k && frame in k
    ensures CanMove(w, p, frame, k) && CanonicalOf(Moved(w, p, frame, k), k) == CanonicalOf(w, k)
  {
    TransportKeepsCanonical(w, p, k);
    ReframeKeepsCanonical(Transported(w, p, k), frame, k);
  }

  lemma AddCancels(u: Vec, v: Vec, w: Vec)
    requires Add(u, w) == Add(v, w)
    ensures u == v
  {
  }

  lemma ApplyIsInjective(r: Matrix3, u: Vec, v: Vec)
    requires Orthonormal(r) && Apply(r, u) == Apply(r, v)
    ensures u == v
  {
    TransposeUndoes(r, u);
    TransposeUndoes(r, v);
  }

  /** At a given point and in a given frame, the physical wrench determines the value. */
  lemma CanonicalDetermines(w: Screw, u: Screw, k: Kinematics)
    requires ProperKinematics(k) && Placed(w, k) && w.point == u.point && w.frame == u.frame
    requires CanonicalOf(w, k) == CanonicalOf(u, k)
    ensures w == u
  {
    var r := k[w.frame].rot;
    ApplyIsInjective(r, w.force, u.force);
    AddCancels(Apply(r, w.torque), Apply(r, u.torque), Cross(InNed(w.point, k), Apply(r, w.force)));
    ApplyIsInjective(r, w.torque, u.torque);
  }

  // ----- Moves form an action -----

  /** Going to (p, f) and then to (q, g) is the same as going to (q, g) directly. */
  lemma MovesCompose(w: Screw, p: Point, f: string, q: Point, g: string, k: Kinematics)
    requires ProperKinematics(k) && Placed(w, k) && p.frame in k && f in k && q.frame in k && g in k
    ensures CanMove(w, p, f, k) && CanMove(Moved(w, p, f, k), q, g, k) && CanMove(w, q, g, k)
    ensures Moved(Moved(w, p, f, k), q, g, k) == Moved(w, q, g, k)
  {
    MoveKeepsCanonical(w, p, f, k);
    MoveKeepsCanonical(Moved(w, p, f, k), q, g, k);
    MoveKeepsCanonical(w, q, g, k);
    CanonicalDetermines(Moved(Moved(w, p, f, k), q, g, k), Moved(w, q, g, k), k);
  }

  /** Transport to A and back is the identity, and through B it is the same as directly. */
  lemma TransportsCompose(w: Screw, p: Point, q: Point, k: Kinematics)
    requires ProperKinematics(k) && Placed(w, k) && p.frame in k && q.frame in k
    ensures CanTransport(w, p, k) && CanTransport(Transported(w, p, k), q, k) && CanTransport(w, q, k)
    ensures Transported(Transported(w, p, k), q, k) == Transported(w, q, k)
    ensures q == w.point ==> Transported(Transported(w, p, k), q, k) == w
  {
    TransportKeepsCanonical(w, p, k);
    TransportKeepsCanonical(Transported(w, p, k), q, k);
    TransportKeepsCanonical(w, q, k);
    CanonicalDetermines(Transported(Transported(w, p, k), q, k), Transported(w, q, k), k);
  }

  /** Transport and change of frame commute. */
  lemma TransportCommutesWithReframe(w: Screw, p: Point, frame: string, k: Kinematics)
    requires ProperKinematics(k) && Placed(w, k) && p.frame in k && frame in k
    ensures CanTransport(w, p, k) && CanTransport(Reframed(w, frame, k), p, k)
    ensures Reframed(Transported(w, p, k), frame, k) == Transported(Reframed(w, frame, k), p, k)
  {
    MoveKeepsCanonical(w, p, frame, k);
    ReframeKeepsCanonical(w, frame, k);
    TransportKeepsCanonical(Reframed(w, frame, k), p, k);
    CanonicalDetermines(Reframed(Transported(w, p, k), frame, k), Transported(Reframed(w, frame, k), p, k), k);
  }

  lemma CanonicalOfSum(r: Matrix3, point: Vec, f: Vec, t: Vec, g: Vec, u: Vec)
    ensures Apply(r, Add(f, g)) == Add(Apply(r, f), Apply(r, g))
    ensures Add(Apply(r, Add(t, u)), Cross(point, Apply(r, Add(f, g))))
         == Add(Add(Apply(r, t), Cross(point, Apply(r, f))), Add(Apply(r, u), Cross(point, Apply(r, g))))
  {
    ApplyIsLinear(r, f, g);
    ApplyIsLinear(r, t, u);
    CrossAdd(Apply(r, f), Apply(r, g), point);
  }

  /** The physical wrench of a sum is the sum of the physical wrenches, whatever the points and frames. */
  lemma AddSumsCanonicals(w: Screw, other: Screw, k: Kinematics)
    requires ProperKinematics(k) && Placed(w, k) && Placed(other, k)
    ensures CanMove(other, w.point, w.frame, k)
    ensures var (c, d, sum) := (CanonicalOf(w, k), CanonicalOf(other, k), CanonicalOf(Added(w, other, k), k));
            sum.force == Add(c.force, d.force) && sum.moment == Add(c.moment, d.moment)
  {
    MoveKeepsCanonical(other, w.point, w.frame, k);
    var o := Moved(other, w.point, w.frame, k);
    CanonicalOfSum(k[w.frame].rot, InNed(w.point, k), w.force, w.torque, o.force, o.torque);
  }

  lemma AddIsSymmetric(u: Vec, v: Vec)
    ensures Add(u, v) == Add(v, u)
  {
  }

  /** Addition is commutative, once both sums are brought to the same point and frame. */
  lemma AddCommutes(w: Screw, other: Screw, k: Kinematics)
    requires ProperKinematics(k) && Placed(w, k) && Placed(other, k)
    ensures CanMove(other, w.point, w.frame, k) && CanMove(w, other.point, other.frame, k)
    ensures CanMove(Added(other, w, k), w.point, w.frame, k)
    ensures Moved(Added(other, w, k), w.point, w.frame, k) == Added(w, other, k)
  {
    AddSumsCanonicals(w, other, k);
    AddSumsCanonicals(other, w, k);
    MoveKeepsCanonical(Added(other, w, k), w.point, w.frame, k);
    var c, d := CanonicalOf(w, k), CanonicalOf(other, k);
    AddIsSymmetric(c.force, d.force);
    AddIsSymmetric(c.moment, d.moment);
    CanonicalDetermines(Moved(Added(other, w, k), w.point, w.frame, k), Added(w, other, k), k);
  }

  /** A rigid motion, by the velocity of the point at the origin of NED and the rotation rate, in NED. */
  datatype Twist = Twist(velocity: Vec, omega: Vec)

  /** Power of the wrench in the motion: force times the velocity of its point, torque times rate. */
  function Power(w: Screw, k: Kinematics, m: Twist): real
    requires Placed(w, k)
  {
    var r := k[w.frame].rot;
    Dot(Apply(r, w.force), Add(m.velocity, Cross(m.omega, InNed(w.point, k)))) + Dot(Apply(r, w.torque), m.omega)
  }

  lemma PowerIsCanonical(w: Screw, k: Kinematics, m: Twist)
    requires Placed(w, k)
    ensures var c := CanonicalOf(w, k); Power(w, k, m) == Dot(c.force, m.velocity) + Dot(c.moment, m.omega)
  {
    var r, p := k[w.frame].rot, InNed(w.point, k);
    var f, t := Apply(r, w.force), Apply(r, w.torque);
    DotAdd(m.velocity, Cross(m.omega, p), f);
    DotAdd(t, Cross(p, f), m.omega);
    TripleProduct(f, m.omega, p);
    DotCommutes(m.omega, Cross(p, f));
  }

  /** The power is unchanged by any move. */
  lemma MovesKeepPower(w: Screw, p: Point, frame: string, k: Kinematics, m: Twist)
    requires ProperKinematics(k) && Placed(w, k) && p.frame in k && frame in k
    ensures CanMove(w, p, frame, k) && Power(Moved(w, p, frame, k), k, m) == Power(w, k, m)
  {
    MoveKeepsCanonical(w, p, frame, k);
    PowerIsCanonical(w, k, m);
    PowerIsCanonical(Moved(w, p, frame, k), k, m);
  }

  /** operator+ accepts exactly operands at the same point and in the same frame, and then agrees with add. */
  lemma PlusAgreesWithAdd(l: Screw, r: Screw, k: Kinematics)
    ensures Plus(l, r).Sum? <==> l.point == r.point && l.frame == r.frame
    ensures Plus(l, r).Sum? ==> CanMove(r, l.point, l.frame, k) && Plus(l, r).wrench == Added(l, r, k)
  {
  }
}
