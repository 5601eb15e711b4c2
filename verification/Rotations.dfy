/** Three-dimensional vectors and rotation matrices. Products of coordinates go through `Comb` and
    `Det`, so that the vector identities follow from a few scalar ones. */
module Rotations {

  // ----- Scalar identities -----

  /** a . p, for three coordinates each. */
  function Comb(a0: real, a1: real, a2: real, p0: real, p1: real, p2: real): real {
    a0 * p0 + a1 * p1 + a2 * p2
  }

  function Det(p: real, q: real, r: real, s: real): real {
    p * s - q * r
  }

  lemma CombAdd(a0: real, a1: real, a2: real, b0: real, b1: real, b2: real, p0: real, p1: real, p2: real)
    ensures Comb(a0 + b0, a1 + b1, a2 + b2, p0, p1, p2) == Comb(a0, a1, a2, p0, p1, p2) + Comb(b0, b1, b2, p0, p1, p2)
    ensures Comb(a0 - b0, a1 - b1, a2 - b2, p0, p1, p2) == Comb(a0, a1, a2, p0, p1, p2) - Comb(b0, b1, b2, p0, p1, p2)
  {
  }

  lemma CombCommutes(a0: real, a1: real, a2: real, p0: real, p1: real, p2: real)
    ensures Comb(a0, a1, a2, p0, p1, p2) == Comb(p0, p1, p2, a0, a1, a2)
  {
  }

  lemma CombUnit(a0: real, a1: real, a2: real)
    ensures Comb(a0, a1, a2, 1.0, 0.0, 0.0) == a0
    ensures Comb(a0, a1, a2, 0.0, 1.0, 0.0) == a1
    ensures Comb(a0, a1, a2, 0.0, 0.0, 1.0) == a2
  {
  }

  lemma DetAdd(p: real, q: real, p': real, q': real, r: real, s: real)
    ensures Det(p + p', q + q', r, s) == Det(p, q, r, s) + Det(p', q', r, s)
    ensures Det(r, s, p + p', q + q') == Det(r, s, p, q) + Det(r, s, p', q')
    ensures Det(p - p', q - q', r, s) == Det(p, q, r, s) - Det(p', q', r, s)
    ensures Det(p, q, p, q) == 0.0
  {
  }

  lemma DetOfComb(a0: real, a1: real, a2: real, p0: real, p1: real, p2: real, q0: real, q1: real, q2: real,
                  r: real, s: real)
    ensures Det(Comb(a0, a1, a2, p0, p1, p2), Comb(a0, a1, a2, q0, q1, q2), r, s)
         == Comb(a0, a1, a2, Det(p0, q0, r, s), Det(p1, q1, r, s), Det(p2, q2, r, s))
  {
  }

  lemma DetSwap(p: real, q: real, r: real, s: real)
    ensures Det(p, q, r, s) == -Det(r, s, p, q) && Det(p, q, p, q) == 0.0
  {
  }

  lemma Antisymmetric(a0: real, a1: real, a2: real, b0: real, b1: real, b2: real, d12: real, d20: real, d01: real)
    ensures Comb(a0, a1, a2, Comb(b0, b1, b2, 0.0, d01, -d20), Comb(b0, b1, b2, -d01, 0.0, d12),
                 Comb(b0, b1, b2, d20, -d12, 0.0))
         == Comb(Det(a1, a2, b1, b2), Det(a2, a0, b2, b0), Det(a0, a1, b0, b1), d12, d20, d01)
  {
  }

  /** Determinant of (p, q) with a pair of combinations. */
  lemma DetWithComb(p: real, q: real, b0: real, b1: real, b2: real,
                    p0: real, p1: real, p2: real, q0: real, q1: real, q2: real)
    ensures Det(p, q, Comb(b0, b1, b2, p0, p1, p2), Comb(b0, b1, b2, q0, q1, q2))
         == Comb(b0, b1, b2, Det(p, q, p0, q0), Det(p, q, p1, q1), Det(p, q, p2, q2))
  {
  }

  /** The determinant of two pairs of combinations is a combination of determinants. */
  lemma CauchyBinet(a0: real, a1: real, a2: real, b0: real, b1: real, b2: real,
                    p0: real, p1: real, p2: real, q0: real, q1: real, q2: real)
    ensures Det(Comb(a0, a1, a2, p0, p1, p2), Comb(a0, a1, a2, q0, q1, q2),
                Comb(b0, b1, b2, p0, p1, p2), Comb(b0, b1, b2, q0, q1, q2))
         == Comb(Det(a1, a2, b1, b2), Det(a2, a0, b2, b0), Det(a0, a1, b0, b1),
                 Det(p1, q1, p2, q2), Det(p2, q2, p0, q0), Det(p0, q0, p1, q1))
  {
    DetOfComb(a0, a1, a2, p0, p1, p2, q0, q1, q2, Comb(b0, b1, b2, p0, p1, p2), Comb(b0, b1, b2, q0, q1, q2));
    DetWithComb(p0, q0, b0, b1, b2, p0, p1, p2, q0, q1, q2);
    DetWithComb(p1, q1, b0, b1, b2, p0, p1, p2, q0, q1, q2);
    DetWithComb(p2, q2, b0, b1, b2, p0, p1, p2, q0, q1, q2);
    DetSwap(p0, q0, p1, q1);
    DetSwap(p1, q1, p2, q2);
    DetSwap(p2, q2, p0, q0);
    Antisymmetric(a0, a1, a2, b0, b1, b2, Det(p1, q1, p2, q2), Det(p2, q2, p0, q0), Det(p0, q0, p1, q1));
  }

  /** A combination of combinations can be summed in either order. */
  lemma CombOfCombs(w0: real, w1: real, w2: real, v0: real, v1: real, v2: real,
                    x0: real, x1: real, x2: real, y0: real, y1: real, y2: real, z0: real, z1: real, z2: real)
    ensures Comb(w0, w1, w2, Comb(v0, v1, v2, x0, x1, x2), Comb(v0, v1, v2, y0, y1, y2), Comb(v0, v1, v2, z0, z1, z2))
         == Comb(v0, v1, v2, Comb(w0, w1, w2, x0, y0, z0), Comb(w0, w1, w2, x1, y1, z1), Comb(w0, w1, w2, x2, y2, z2))
  {
  }

  /** The triple product is unchanged when its factors rotate. */
  lemma TripleComb(a0: real, a1: real, a2: real, b0: real, b1: real, b2: real, c0: real, c1: real, c2: real)
    ensures Comb(a0, a1, a2, Det(b1, b2, c1, c2), Det(b2, b0, c2, c0), Det(b0, b1, c0, c1))
         == Comb(b0, b1, b2, Det(c1, c2, a1, a2), Det(c2, c0, a2, a0), Det(c0, c1, a0, a1))
  {
  }

  // ----- Vectors -----

  datatype Vec = Vec(x: real, y: real, z: real)

  const ZERO := Vec(0.0, 0.0, 0.0)

  function Add(u: Vec, v: Vec): Vec {
    Vec(u.x + v.x, u.y + v.y, u.z + v.z)
  }

  function Sub(u: Vec, v: Vec): Vec {
    Vec(u.x - v.x, u.y - v.y, u.z - v.z)
  }

  function Dot(u: Vec, v: Vec): real {
    Comb(u.x, u.y, u.z, v.x, v.y, v.z)
  }

  function Cross(u: Vec, v: Vec): Vec {
    Vec(Det(u.y, u.z, v.y, v.z), Det(u.z, u.x, v.z, v.x), Det(u.x, u.y, v.x, v.y))
  }

  lemma CrossAdd(u: Vec, v: Vec, w: Vec)
    ensures Cross(Add(u, v), w) == Add(Cross(u, w), Cross(v, w))
    ensures Cross(w, Add(u, v)) == Add(Cross(w, u), Cross(w, v))
    ensures Cross(Sub(u, v), w) == Sub(Cross(u, w), Cross(v, w))
    ensures Cross(u, u) == ZERO
  {
    DetAdd(u.y, u.z, v.y, v.z, w.y, w.z);
    DetAdd(u.z, u.x, v.z, v.x, w.z, w.x);
    DetAdd(u.x, u.y, v.x, v.y, w.x, w.y);
  }

  lemma DotAdd(u: Vec, v: Vec, w: Vec)
    ensures Dot(Add(u, v), w) == Dot(u, w) + Dot(v, w)
    ensures Dot(w, Add(u, v)) == Dot(w, u) + Dot(w, v)
  {
    CombAdd(u.x, u.y, u.z, v.x, v.y, v.z, w.x, w.y, w.z);
    CombCommutes(w.x, w.y, w.z, u.x + v.x, u.y + v.y, u.z + v.z);
    CombCommutes(w.x, w.y, w.z, u.x, u.y, u.z);
    CombCommutes(w.x, w.y, w.z, v.x, v.y, v.z);
  }

  lemma TripleProduct(u: Vec, v: Vec, w: Vec)
    ensures Dot(u, Cross(v, w)) == Dot(v, Cross(w, u))
  {
    TripleComb(u.x, u.y, u.z, v.x, v.y, v.z, w.x, w.y, w.z);
  }

  // ----- Rotations -----

  /** A matrix by its columns. */
  datatype Matrix3 = Matrix3(c0: Vec, c1: Vec, c2: Vec)

  function Apply(r: Matrix3, v: Vec): Vec {
    Vec(Comb(v.x, v.y, v.z, r.c0.x, r.c1.x, r.c2.x),
        Comb(v.x, v.y, v.z, r.c0.y, r.c1.y, r.c2.y),
        Comb(v.x, v.y, v.z, r.c0.z, r.c1.z, r.c2.z))
  }

  function Transpose(r: Matrix3): Matrix3 {
    Matrix3(Vec(r.c0.x, r.c1.x, r.c2.x), Vec(r.c0.y, r.c1.y, r.c2.y), Vec(r.c0.z, r.c1.z, r.c2.z))
  }

  predicate Orthonormal(r: Matrix3) {
    && Dot(r.c0, r.c0) == 1.0 && Dot(r.c1, r.c1) == 1.0 && Dot(r.c2, r.c2) == 1.0
    && Dot(r.c0, r.c1) == 0.0 && Dot(r.c1, r.c2) == 0.0 && Dot(r.c2, r.c0) == 0.0
  }

  /** Orthonormal rows and columns, right-handed. */
  predicate IsRotation(r: Matrix3) {
    && Orthonormal(r) && Orthonormal(Transpose(r))
    && Cross(r.c0, r.c1) == r.c2 && Cross(r.c1, r.c2) == r.c0 && Cross(r.c2, r.c0) == r.c1
  }

  lemma ApplyIsLinear(r: Matrix3, u: Vec, v: Vec)
    ensures Apply(r, Add(u, v)) == Add(Apply(r, u), Apply(r, v))
    ensures Apply(r, Sub(u, v)) == Sub(Apply(r, u), Apply(r, v))
  {
    CombAdd(u.x, u.y, u.z, v.x, v.y, v.z, r.c0.x, r.c1.x, r.c2.x);
    CombAdd(u.x, u.y, u.z, v.x, v.y, v.z, r.c0.y, r.c1.y, r.c2.y);
    CombAdd(u.x, u.y, u.z, v.x, v.y, v.z, r.c0.z, r.c1.z, r.c2.z);
  }

  lemma DotApply(u: Vec, r: Matrix3, v: Vec)
    ensures Dot(u, Apply(r, v)) == Comb(v.x, v.y, v.z, Dot(u, r.c0), Dot(u, r.c1), Dot(u, r.c2))
  {
    CombOfCombs(u.x, u.y, u.z, v.x, v.y, v.z,
                r.c0.x, r.c1.x, r.c2.x, r.c0.y, r.c1.y, r.c2.y, r.c0.z, r.c1.z, r.c2.z);
  }

  lemma ApplyTranspose(r: Matrix3, w: Vec)
    ensures Apply(Transpose(r), w) == Vec(Dot(r.c0, w), Dot(r.c1, w), Dot(r.c2, w))
  {
    CombCommutes(w.x, w.y, w.z, r.c0.x, r.c0.y, r.c0.z);
    CombCommutes(w.x, w.y, w.z, r.c1.x, r.c1.y, r.c1.z);
    CombCommutes(w.x, w.y, w.z, r.c2.x, r.c2.y, r.c2.z);
  }

  lemma DotCommutes(u: Vec, v: Vec)
    ensures Dot(u, v) == Dot(v, u)
  {
    CombCommutes(u.x, u.y, u.z, v.x, v.y, v.z);
  }

  lemma TransposeUndoes(r: Matrix3, v: Vec)
    requires Orthonormal(r)
    ensures Apply(Transpose(r), Apply(r, v)) == v
  {
    ApplyTranspose(r, Apply(r, v));
    DotApply(r.c0, r, v);
    DotApply(r.c1, r, v);
    DotApply(r.c2, r, v);
    DotCommutes(r.c0, r.c1);
    DotCommutes(r.c1, r.c2);
    DotCommutes(r.c2, r.c0);
    CombUnit(v.x, v.y, v.z);
  }

  lemma TransposeTwice(r: Matrix3)
    ensures Transpose(Transpose(r)) == r
  {
  }

  lemma UndoesTranspose(r: Matrix3, v: Vec)
    requires Orthonormal(Transpose(r))
    ensures Apply(r, Apply(Transpose(r), v)) == v
  {
    TransposeTwice(r);
    TransposeUndoes(Transpose(r), v);
  }

  lemma CrossOfApplied(r: Matrix3, u: Vec, v: Vec)
    ensures Cross(Apply(r, u), Apply(r, v))
         == Apply(Matrix3(Cross(r.c1, r.c2), Cross(r.c2, r.c0), Cross(r.c0, r.c1)), Cross(u, v))
  {
    CauchyBinet(u.x, u.y, u.z, v.x, v.y, v.z, r.c0.y, r.c1.y, r.c2.y, r.c0.z, r.c1.z, r.c2.z);
    CauchyBinet(u.x, u.y, u.z, v.x, v.y, v.z, r.c0.z, r.c1.z, r.c2.z, r.c0.x, r.c1.x, r.c2.x);
    CauchyBinet(u.x, u.y, u.z, v.x, v.y, v.z, r.c0.x, r.c1.x, r.c2.x, r.c0.y, r.c1.y, r.c2.y);
  }

  lemma RotationKeepsCross(r: Matrix3, u: Vec, v: Vec)
    requires IsRotation(r)
    ensures Apply(r, Cross(u, v)) == Cross(Apply(r, u), Apply(r, v))
  {
    CrossOfApplied(r, u, v);
  }
}
