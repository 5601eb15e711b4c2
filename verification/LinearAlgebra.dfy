/** Vectors and matrices of reals, as lists and lists of rows. */
module LinearAlgebra {

  type Vector = seq<real>
  type Matrix = seq<seq<real>>

  predicate IsMatrix(m: Matrix, rows: nat, columns: nat) {
    |m| == rows && forall i :: 0 <= i < rows ==> |m[i]| == columns
  }

  function Zero(n: nat): (v: Vector)
    ensures |v| == n && forall i :: 0 <= i < n ==> v[i] == 0.0
  {
    seq(n, _ => 0.0)
  }

  function ZeroMatrix(rows: nat, columns: nat): (m: Matrix)
    ensures IsMatrix(m, rows, columns)
    ensures forall i, j :: 0 <= i < rows && 0 <= j < columns ==> m[i][j] == 0.0
  {
    seq(rows, _ => Zero(columns))
  }

  function Plus(u: Vector, v: Vector): (w: Vector)
    requires |u| == |v|
    ensures |w| == |u| && forall i :: 0 <= i < |u| ==> w[i] == u[i] + v[i]
  {
    seq(|u|, i requires 0 <= i < |u| => u[i] + v[i])
  }

  function Mul(a: real, b: real): real {
    a * b
  }

  function Scale(c: real, v: Vector): (w: Vector)
    ensures |w| == |v| && forall i :: 0 <= i < |v| ==> w[i] == Mul(c, v[i])
  {
    seq(|v|, i requires 0 <= i < |v| => Mul(c, v[i]))
  }

  function Minus(u: Vector, v: Vector): (w: Vector)
    requires |u| == |v|
    ensures |w| == |u| && forall i :: 0 <= i < |u| ==> w[i] == u[i] - v[i]
  {
    seq(|u|, i requires 0 <= i < |u| => u[i] - v[i])
  }

  function Dot(u: Vector, v: Vector): real
    requires |u| == |v|
  {
    if u == [] then 0.0
    else
      var k := |u| - 1;
      Dot(u[..k], v[..k]) + Mul(u[k], v[k])
  }

  function Times(m: Matrix, v: Vector): (w: Vector)
    requires IsMatrix(m, |m|, |v|)
    ensures |w| == |m| && forall i :: 0 <= i < |m| ==> w[i] == Dot(m[i], v)
  {
    seq(|m|, i requires 0 <= i < |m| => Dot(m[i], v))
  }

  /** The combination of the rows of m with the coefficients a. */
  function RowTimes(a: Vector, m: Matrix, columns: nat): (row: Vector)
    requires IsMatrix(m, |a|, columns)
    ensures |row| == columns
  {
    if a == [] then Zero(columns)
    else
      var k := |a| - 1;
      Plus(RowTimes(a[..k], m[..k], columns), Scale(a[k], m[k]))
  }

  function Product(l: Matrix, m: Matrix, columns: nat): (p: Matrix)
    requires IsMatrix(l, |l|, |m|) && IsMatrix(m, |m|, columns)
    ensures IsMatrix(p, |l|, columns)
    ensures forall i :: 0 <= i < |l| ==> p[i] == RowTimes(l[i], m, columns)
  {
    seq(|l|, i requires 0 <= i < |l| => RowTimes(l[i], m, columns))
  }

  function MatrixMinus(l: Matrix, m: Matrix): (d: Matrix)
    requires |l| == |m| && forall i :: 0 <= i < |l| ==> |l[i]| == |m[i]|
    ensures |d| == |l| && forall i :: 0 <= i < |l| ==> d[i] == Minus(l[i], m[i])
  {
    seq(|l|, i requires 0 <= i < |l| => Minus(l[i], m[i]))
  }

  function MatrixScale(c: real, m: Matrix): (s: Matrix)
    ensures |s| == |m| && forall i :: 0 <= i < |m| ==> s[i] == Scale(c, m[i])
  {
    seq(|m|, i requires 0 <= i < |m| => Scale(c, m[i]))
  }

  function Column(m: Matrix, j: nat): (c: Vector)
    requires forall i :: 0 <= i < |m| ==> j < |m[i]|
    ensures |c| == |m| && forall i :: 0 <= i < |m| ==> c[i] == m[i][j]
  {
    seq(|m|, i requires 0 <= i < |m| => m[i][j])
  }

  /** m with column j replaced. */
  function SetColumn(m: Matrix, n: nat, j: nat, column: Vector): (m': Matrix)
    requires IsMatrix(m, n, n) && j < n && |column| == n
    ensures IsMatrix(m', n, n) && Column(m', j) == column
    ensures forall l :: 0 <= l < n && l != j ==> Column(m', l) == Column(m, l)
    ensures forall i :: 0 <= i < n ==> m'[i] == m[i][j := column[i]]
  {
    var m' := seq(n, i requires 0 <= i < n => m[i][j := column[i]]);
    assert forall l :: 0 <= l < n && l != j ==> Column(m', l) == Column(m, l);
    m'
  }

  // ----- Linearity -----

  lemma MulTerm(a: real, b: real, c: real, x: real)
    ensures Mul(a + b, x) == Mul(a, x) + Mul(b, x)
    ensures Mul(Mul(c, a), x) == Mul(c, Mul(a, x))
    ensures Mul(a - b, x) == Mul(a, x) - Mul(b, x)
    ensures Mul(c, a + b) == Mul(c, a) + Mul(c, b)
    ensures Mul(a, x) == Mul(x, a)
    ensures Mul(0.0, x) == 0.0
  {
  }

  lemma {:induction false} DotPlus(u: Vector, v: Vector, x: Vector)
    requires |u| == |v| == |x|
    ensures Dot(Plus(u, v), x) == Dot(u, x) + Dot(v, x)
  {
    if u != [] {
      var k := |u| - 1;
      DotPlus(u[..k], v[..k], x[..k]);
      assert Plus(u, v)[..k] == Plus(u[..k], v[..k]);
      MulTerm(u[k], v[k], 0.0, x[k]);
    }
  }

  lemma {:induction false} DotMinus(u: Vector, v: Vector, x: Vector)
    requires |u| == |v| == |x|
    ensures Dot(Minus(u, v), x) == Dot(u, x) - Dot(v, x)
  {
    if u != [] {
      var k := |u| - 1;
      DotMinus(u[..k], v[..k], x[..k]);
      assert Minus(u, v)[..k] == Minus(u[..k], v[..k]);
      MulTerm(u[k], v[k], 0.0, x[k]);
    }
  }

  lemma ScalePrefix(c: real, u: Vector, k: nat)
    requires k <= |u|
    ensures Scale(c, u)[..k] == Scale(c, u[..k])
  {
  }

  lemma {:induction false} DotScale(c: real, u: Vector, x: Vector)
    requires |u| == |x|
    ensures Dot(Scale(c, u), x) == Mul(c, Dot(u, x))
  {
    if u == [] {
      MulTerm(0.0, 0.0, 0.0, c);
    } else {
      var k := |u| - 1;
      DotScale(c, u[..k], x[..k]);
      ScalePrefix(c, u, k);
      MulTerm(u[k], 0.0, c, x[k]);
      MulTerm(Dot(u[..k], x[..k]), Mul(u[k], x[k]), c, 0.0);
    }
  }

  lemma {:induction false} DotCommutes(u: Vector, x: Vector)
    requires |u| == |x|
    ensures Dot(u, x) == Dot(x, u)
  {
    if u != [] {
      var k := |u| - 1;
      DotCommutes(u[..k], x[..k]);
      MulTerm(u[k], 0.0, 0.0, x[k]);
    }
  }

  lemma DotPlusRight(u: Vector, x: Vector, y: Vector)
    requires |u| == |x| == |y|
    ensures Dot(u, Plus(x, y)) == Dot(u, x) + Dot(u, y)
  {
    DotCommutes(u, Plus(x, y));
    DotPlus(x, y, u);
    DotCommutes(u, x);
    DotCommutes(u, y);
  }

  lemma {:induction false} DotZero(u: Vector, n: nat)
    requires |u| == n
    ensures Dot(Zero(n), u) == 0.0
  {
    if n > 0 {
      DotZero(u[..n - 1], n - 1);
      MulTerm(0.0, 0.0, 0.0, u[n - 1]);
      assert Zero(n)[..n - 1] == Zero(n - 1);
    }
  }

  /** Changing a zero coefficient c to value adds value * y[c]. */
  lemma {:induction false} DotUpdate(row: Vector, y: Vector, c: nat, value: real)
    requires |row| == |y| && c < |row| && row[c] == 0.0
    ensures Dot(row[c := value], y) == Dot(row, y) + Mul(value, y[c])
  {
    var k := |row| - 1;
    MulTerm(0.0, 0.0, 0.0, y[c]);
    if c < k {
      DotUpdate(row[..k], y[..k], c, value);
      assert row[c := value][..k] == row[..k][c := value];
    } else {
      assert row[c := value][..k] == row[..k];
    }
  }

  lemma TimesPrefix(m: Matrix, x: Vector, k: nat)
    requires k <= |m| && IsMatrix(m, |m|, |x|)
    ensures Times(m, x)[..k] == Times(m[..k], x)
  {
  }

  /** (a m) x = a (m x). */
  lemma {:induction false} RowAssociative(a: Vector, m: Matrix, x: Vector)
    requires IsMatrix(m, |a|, |x|)
    ensures Dot(RowTimes(a, m, |x|), x) == Dot(a, Times(m, x))
  {
    if a == [] {
      DotZero(x, |x|);
    } else {
      var k := |a| - 1;
      RowAssociative(a[..k], m[..k], x);
      DotPlus(RowTimes(a[..k], m[..k], |x|), Scale(a[k], m[k]), x);
      DotScale(a[k], m[k], x);
      TimesPrefix(m, x, k);
    }
  }

  /** (l m) x = l (m x). */
  lemma Associative(l: Matrix, m: Matrix, x: Vector)
    requires IsMatrix(l, |l|, |m|) && IsMatrix(m, |m|, |x|)
    ensures Times(Product(l, m, |x|), x) == Times(l, Times(m, x))
  {
    forall i | 0 <= i < |l|
      ensures Times(Product(l, m, |x|), x)[i] == Times(l, Times(m, x))[i]
    {
      RowAssociative(l[i], m, x);
    }
  }

  /** l (x + y) = l x + l y. */
  lemma TimesPlus(l: Matrix, x: Vector, y: Vector)
    requires |x| == |y| && IsMatrix(l, |l|, |x|)
    ensures Times(l, Plus(x, y)) == Plus(Times(l, x), Times(l, y))
  {
    forall i | 0 <= i < |l|
      ensures Times(l, Plus(x, y))[i] == Plus(Times(l, x), Times(l, y))[i]
    {
      DotPlusRight(l[i], x, y);
    }
  }

  /** The product is the usual one: entry (i, j) is row i of l times column j of m. */
  lemma {:induction false} ProductEntry(a: Vector, m: Matrix, columns: nat, j: nat)
    requires IsMatrix(m, |a|, columns) && j < columns
    ensures RowTimes(a, m, columns)[j] == Dot(a, Column(m, j))
  {
    if a != [] {
      var k := |a| - 1;
      ProductEntry(a[..k], m[..k], columns, j);
      assert Column(m, j)[..k] == Column(m[..k], j);
    }
  }

  function Unit(n: nat, i: nat): (v: Vector)
    requires i < n
    ensures |v| == n
  {
    Zero(n)[i := 1.0]
  }

  function Identity(n: nat): (m: Matrix)
    ensures IsMatrix(m, n, n)
  {
    seq(n, i requires 0 <= i < n => Unit(n, i))
  }

  lemma UnitSelects(n: nat, i: nat, x: Vector)
    requires i < n == |x|
    ensures Dot(Unit(n, i), x) == x[i]
  {
    DotUpdate(Zero(n), x, i, 1.0);
    DotZero(x, n);
    assert Mul(1.0, x[i]) == x[i];
  }

  lemma IdentityTimes(x: Vector)
    ensures Times(Identity(|x|), x) == x
  {
    forall i | 0 <= i < |x|
      ensures Times(Identity(|x|), x)[i] == x[i]
    {
      UnitSelects(|x|, i, x);
    }
  }
}
