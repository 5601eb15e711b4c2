/** Inversion of the area curve: equal_area_abscissae and its use by
    WaveSpectralDensity::get_angular_frequencies. */
module EqualAreaBins {
  import opened AreaCurves

  /** Abscissa of the segment (xa, ya)-(xb, yb) up to which the area from xa is `target`. */
  function BoundOnSegment(sqrt: real -> real, target: real, xa: real, xb: real, ya: real, yb: real): Double {
    if xb == xa then NotFinite
    else
      var alpha := Slope(xa, xb, ya, yb);
      var beta := Intercept(xa, ya, alpha);
      if alpha == 0.0 then
        if beta == 0.0 then NotFinite else Finite(xa + target / beta)
      else RootOfArea(sqrt, target, xa, alpha, beta)
  }

  function Intercept(xa: real, ya: real, alpha: real): real {
    ya - xa * alpha
  }

  /** Root of the quadratic equation for the area under alpha * x + beta from xa. */
  function RootOfArea(sqrt: real -> real, target: real, xa: real, alpha: real, beta: real): Double
    requires alpha != 0.0
  {
    var delta := beta * beta + alpha * (alpha * xa * xa + 2.0 * beta * xa + 2.0 * target);
    if delta < 0.0 then NotFinite else Finite((sqrt(delta) - beta) / alpha)
  }

  lemma FlatSegment(xa: real, xb: real, ya: real, target: real)
    requires xa < xb && ya >= 0.0
    requires 0.0 < target <= Trapezoid(xa, xb, ya, ya)
    ensures ya > 0.0
    ensures var x := xa + target / ya; xa < x <= xb && LineArea(xa, xb, ya, ya, x) == target
  {
    var w := target / ya;
    assert w * ya == target;
    assert w > 0.0;
    assert (xb - xa - w) * ya >= 0.0;
    assert w <= xb - xa;
    assert Slope(xa, xb, ya, ya) == 0.0;
  }

  /** The discriminant is the square of the ordinate to be reached, hence not negative. */
  lemma Discriminant(alpha: real, beta: real, xa: real, xb: real, ya: real, yb: real, target: real)
    requires xa < xb && ya >= 0.0 && yb >= 0.0
    requires alpha * (xb - xa) == yb - ya && beta == ya - xa * alpha
    requires 0.0 < target <= Trapezoid(xa, xb, ya, yb)
    ensures beta * beta + alpha * (alpha * xa * xa + 2.0 * beta * xa + 2.0 * target)
         == ya * ya + 2.0 * (alpha * target)
    ensures ya * ya + 2.0 * (alpha * target) >= 0.0
  {
    var k := alpha * xa;
    assert alpha * (alpha * xa * xa + 2.0 * beta * xa + 2.0 * target)
        == k * k + 2.0 * (beta * k) + 2.0 * (alpha * target);
    assert (beta + k) * (beta + k) == beta * beta + 2.0 * (beta * k) + k * k;
    if alpha < 0.0 {
      var area := Trapezoid(xa, xb, ya, yb);
      assert alpha * target >= alpha * area;
      assert 2.0 * (alpha * area) == (ya + yb) * (alpha * (xb - xa));
      assert (ya + yb) * (yb - ya) == yb * yb - ya * ya;
      assert yb * yb >= 0.0;
    } else {
      assert alpha * target >= 0.0 && ya * ya >= 0.0;
    }
  }

  lemma SlopedSegment(alpha: real, xa: real, xb: real, ya: real, yb: real, target: real, r: real, x: real)
    requires xa < xb && ya >= 0.0 && yb >= 0.0 && alpha != 0.0
    requires alpha * (xb - xa) == yb - ya
    requires 0.0 < target <= Trapezoid(xa, xb, ya, yb)
    requires r >= 0.0 && r * r == ya * ya + 2.0 * (alpha * target)
    requires alpha * (x - xa) == r - ya
    ensures Trapezoid(xa, x, ya, r) == target
    ensures xa < x <= xb
  {
    var t := Trapezoid(xa, x, ya, r);
    assert alpha * t == 0.5 * ((r + ya) * (alpha * (x - xa)));
    assert (r + ya) * (r - ya) == r * r - ya * ya;
    assert alpha * (t - target) == 0.0;
    assert t == target;
    SegmentReached(alpha, xa, xb, ya, yb, target, r, x);
  }

  lemma SegmentReached(alpha: real, xa: real, xb: real, ya: real, yb: real, target: real, r: real, x: real)
    requires xa < xb && ya >= 0.0 && yb >= 0.0 && r >= 0.0 && alpha != 0.0
    requires alpha * (xb - xa) == yb - ya && alpha * (x - xa) == r - ya
    requires 0.0 < target == Trapezoid(xa, x, ya, r) <= Trapezoid(xa, xb, ya, yb)
    ensures xa < x <= xb
  {
    if x <= xa {
      TrapezoidIsNonNegative(x, xa, r, ya);
      assert false;
    }
    if x > xb {
      assert alpha * (x - xb) == r - yb;
      var rest := Trapezoid(xb, x, yb, r);
      SlopedAreas(alpha, xa, ya, xb, x);
      assert rest == Trapezoid(xa, x, ya, r) - Trapezoid(xa, xb, ya, yb) <= 0.0;
      NoAreaNoOrdinate(xb, x, yb, r);
      PositiveSquare(alpha, x - xb);
      assert false;
    }
  }

  lemma PositiveProduct(a: real, b: real)
    requires a > 0.0 && b > 0.0
    ensures a * b > 0.0
  {
  }

  lemma NoAreaNoOrdinate(xa: real, xb: real, ya: real, yb: real)
    requires xa < xb && ya >= 0.0 && yb >= 0.0 && Trapezoid(xa, xb, ya, yb) <= 0.0
    ensures ya == 0.0 && yb == 0.0
  {
    if ya + yb > 0.0 {
      PositiveProduct(ya + yb, xb - xa);
    }
  }

  lemma PositiveSquare(a: real, b: real)
    requires a != 0.0 && b > 0.0
    ensures a * b != 0.0
  {
  }

  /** The bound lies in the segment and leaves exactly the target area between it and xa. */
  ghost predicate LeavesArea(bound: Double, xa: real, xb: real, ya: real, yb: real, target: real)
    requires xa < xb
  {
    bound.Finite? && xa < bound.value <= xb && LineArea(xa, xb, ya, yb, bound.value) == target
  }

  ghost predicate LeavesAreaUnderSlope(bound: Double, xa: real, xb: real, ya: real, alpha: real, target: real) {
    && bound.Finite? && xa < bound.value <= xb
    && Trapezoid(xa, bound.value, ya, ya + alpha * (bound.value - xa)) == target
  }

  lemma RootIsExact(sqrt: real -> real, alpha: real, beta: real, xa: real, xb: real, ya: real, yb: real, target: real)
    requires IsSqrt(sqrt)
    requires xa < xb && ya >= 0.0 && yb >= 0.0 && alpha != 0.0
    requires alpha * (xb - xa) == yb - ya && beta == ya - xa * alpha
    requires 0.0 < target <= Trapezoid(xa, xb, ya, yb)
    ensures LeavesAreaUnderSlope(RootOfArea(sqrt, target, xa, alpha, beta), xa, xb, ya, alpha, target)
  {
    var delta := beta * beta + alpha * (alpha * xa * xa + 2.0 * beta * xa + 2.0 * target);
    Discriminant(alpha, beta, xa, xb, ya, yb, target);
    var r := sqrt(delta);
    assert r >= 0.0 && r * r == delta;
    var x := (r - beta) / alpha;
    Quotient(r - beta, alpha, x);
    assert alpha * (x - xa) == r - ya;
    SlopedSegment(alpha, xa, xb, ya, yb, target, r, x);
  }

  lemma Quotient(a: real, b: real, q: real)
    requires b != 0.0 && q == a / b
    ensures b * q == a
  {
  }

  lemma BoundIsRoot(sqrt: real -> real, target: real, xa: real, xb: real, ya: real, yb: real, alpha: real, beta: real)
    requires xa < xb && alpha == Slope(xa, xb, ya, yb) != 0.0 && beta == Intercept(xa, ya, alpha)
    ensures BoundOnSegment(sqrt, target, xa, xb, ya, yb) == RootOfArea(sqrt, target, xa, alpha, beta)
  {
  }

  lemma SlopedBound(sqrt: real -> real, target: real, xa: real, xb: real, ya: real, yb: real, alpha: real, beta: real)
    requires IsSqrt(sqrt)
    requires xa < xb && ya >= 0.0 && yb >= 0.0
    requires alpha == Slope(xa, xb, ya, yb) != 0.0 && beta == Intercept(xa, ya, alpha)
    requires alpha * (xb - xa) == yb - ya
    requires 0.0 < target <= Trapezoid(xa, xb, ya, yb)
    ensures LeavesAreaUnderSlope(BoundOnSegment(sqrt, target, xa, xb, ya, yb), xa, xb, ya, alpha, target)
  {
    RootIsExact(sqrt, alpha, beta, xa, xb, ya, yb, target);
    BoundIsRoot(sqrt, target, xa, xb, ya, yb, alpha, beta);
  }

  lemma AreaUnderSlope(bound: Double, xa: real, xb: real, ya: real, yb: real, alpha: real, target: real)
    requires xa < xb && alpha == Slope(xa, xb, ya, yb)
    requires LeavesAreaUnderSlope(bound, xa, xb, ya, alpha, target)
    ensures LeavesArea(bound, xa, xb, ya, yb, target)
  {
  }

  /** On a segment of positive area that holds the target, every quotient and root is defined, and
      the abscissa returned leaves exactly the target area below it. */
  lemma BoundIsExact(sqrt: real -> real, target: real, xa: real, xb: real, ya: real, yb: real)
    requires IsSqrt(sqrt)
    requires xa < xb && ya >= 0.0 && yb >= 0.0
    requires 0.0 < target <= Trapezoid(xa, xb, ya, yb)
    ensures LeavesArea(BoundOnSegment(sqrt, target, xa, xb, ya, yb), xa, xb, ya, yb, target)
  {
    var alpha := Slope(xa, xb, ya, yb);
    SlopeRise(xa, xb, ya, yb);
    if alpha == 0.0 {
      FlatBound(sqrt, target, xa, xb, ya, yb);
    } else {
      SlopedBound(sqrt, target, xa, xb, ya, yb, alpha, Intercept(xa, ya, alpha));
      AreaUnderSlope(BoundOnSegment(sqrt, target, xa, xb, ya, yb), xa, xb, ya, yb, alpha, target);
    }
  }

  lemma FlatBound(sqrt: real -> real, target: real, xa: real, xb: real, ya: real, yb: real)
    requires xa < xb && ya >= 0.0 && yb >= 0.0 && Slope(xa, xb, ya, yb) == 0.0
    requires 0.0 < target <= Trapezoid(xa, xb, ya, yb)
    ensures LeavesArea(BoundOnSegment(sqrt, target, xa, xb, ya, yb), xa, xb, ya, yb, target)
  {
    SlopeRise(xa, xb, ya, yb);
    assert ya == yb;
    FlatSegment(xa, xb, ya, target);
  }

  // ----- Choice of the segment -----

  predicate Holds(areas: seq<real>, i: nat, target: real)
    requires 1 <= i < |areas|
  {
    areas[i - 1] <= target <= areas[i]
  }

  predicate FirstHolding(areas: seq<real>, i: nat, target: real) {
    1 <= i < |areas| && Holds(areas, i, target) && forall j :: 1 <= j < i ==> !Holds(areas, j, target)
  }

  /** The bound is taken on segment i, the first one that holds the target. */
  ghost predicate BoundOn(sqrt: real -> real, target: real, xs: seq<real>, ys: seq<real>, areas: seq<real>,
                          i: nat, bound: Double)
    requires |xs| == |ys| == |areas|
  {
    && FirstHolding(areas, i, target)
    && bound == BoundOnSegment(sqrt, target - areas[i - 1], xs[i - 1], xs[i], ys[i - 1], ys[i])
  }

  method FindBound(sqrt: real -> real, target: real, xs: seq<real>, ys: seq<real>, areas: seq<real>)
    returns (bound: Double)
    requires |xs| == |ys| == |areas| > 0
    ensures (exists i: nat :: BoundOn(sqrt, target, xs, ys, areas, i, bound))
         || (bound == Finite(areas[|areas| - 1]) && forall i :: 1 <= i < |areas| ==> !Holds(areas, i, target))
  {
    var i := 1;
    while i < |xs|
      invariant 1 <= i <= |xs|
      invariant forall j :: 1 <= j < i ==> !Holds(areas, j, target)
    {
      if target >= areas[i - 1] && target <= areas[i] {
        bound := BoundOnSegment(sqrt, target - areas[i - 1], xs[i - 1], xs[i], ys[i - 1], ys[i]);
        assert BoundOn(sqrt, target, xs, ys, areas, i, bound);
        return;
      }
      i := i + 1;
    }
    bound := Finite(areas[|areas| - 1]);
  }

  /** Below the total area some segment holds the target: the fall-through is never reached. */
  lemma SomeSegmentHolds(areas: seq<real>, target: real) returns (i: nat)
    requires |areas| >= 2 && areas[0] <= target <= areas[|areas| - 1]
    ensures FirstHolding(areas, i, target)
  {
    i := 1;
    while areas[i] < target
      invariant 1 <= i < |areas|
      invariant areas[i - 1] <= target
      invariant forall j :: 1 <= j < i ==> areas[j] < target
      decreases |areas| - i
    {
      i := i + 1;
    }
  }

  /** The segment chosen for a positive target has positive area. */
  lemma ChosenSegmentIsNotFlat(xs: seq<real>, ys: seq<real>, areas: seq<real>, i: nat, target: real)
    requires IsCurve(xs, ys) && IsAreaCurve(areas, xs, ys)
    requires target > 0.0 && FirstHolding(areas, i, target)
    ensures 0.0 < target - areas[i - 1] <= Trapezoid(xs[i - 1], xs[i], ys[i - 1], ys[i])
  {
    if i == 1 {
      assert areas[0] == Area(xs, ys, 0);
    } else {
      assert !Holds(areas, i - 1, target);
      AreaGrows(xs, ys, i - 2, i - 1);
      assert areas[i - 2] == Area(xs, ys, i - 2);
    }
    assert areas[i] == Area(xs, ys, i);
    assert areas[i - 1] == Area(xs, ys, i - 1);
  }

  // ----- Equal areas -----

  function Total(xs: seq<real>, ys: seq<real>): real
    requires |xs| == |ys| > 0
  {
    Area(xs, ys, |xs| - 1)
  }

  ghost predicate AllFinite(ret: seq<Double>) {
    forall i :: 0 <= i < |ret| ==> ret[i].Finite?
  }

  /** i times the step. */
  function Multiple(step: real, i: nat): real {
    if i == 0 then 0.0 else Multiple(step, i - 1) + step
  }

  lemma MultipleIsProduct(step: real, i: nat)
    ensures Multiple(step, i) == i as real * step
  {
  }

  lemma MultipleGrows(step: real, i: nat, j: nat)
    requires step > 0.0 && i < j
    ensures Multiple(step, i) < Multiple(step, j)
  {
    if i < j - 1 {
      MultipleGrows(step, i, j - 1);
    }
  }

  lemma MultipleOfQuotient(total: real, n: nat)
    requires n > 0
    ensures Multiple(total / n as real, n) == total
  {
    var step := total / n as real;
    Quotient(total, n as real, step);
    MultipleIsProduct(step, n);
  }

  /** The cut stops the integral at i steps. */
  ghost predicate CutsArea(xs: seq<real>, ys: seq<real>, step: real, i: nat, cut: Double)
    requires IsCurve(xs, ys) && 2 <= |xs|
  {
    var n := |xs| - 1;
    && cut.Finite?
    && xs[0] <= cut.value <= xs[n]
    && IntegralTo(xs, ys, n, cut.value) == Multiple(step, i)
  }

  function Step(xs: seq<real>, ys: seq<real>): real
    requires |xs| == |ys| > 1
  {
    Total(xs, ys) / (|xs| - 1) as real
  }

  /** Same end points, strictly increasing, and the same area between any two consecutive values. */
  ghost predicate IsEqualAreaPartition(xs: seq<real>, ys: seq<real>, ret: seq<Double>)
    requires IsCurve(xs, ys)
  {
    && |ret| == |xs| && AllFinite(ret)
    && (|xs| > 0 ==> ret[0].value == xs[0] && ret[|xs| - 1].value == xs[|xs| - 1])
    && (forall i, j :: 0 <= i < j < |ret| ==> ret[i].value < ret[j].value)
    && (|xs| >= 2 ==> forall i :: 0 < i < |ret| ==>
         IntegralTo(xs, ys, |xs| - 1, ret[i].value) - IntegralTo(xs, ys, |xs| - 1, ret[i - 1].value) == Step(xs, ys))
  }

  lemma TargetBelowTotal(total: real, n: nat, i: nat)
    requires total > 0.0 && 0 < i < n
    ensures 0.0 < Multiple(total / n as real, i) < total
  {
    var step := total / n as real;
    MultipleOfQuotient(total, n);
    MultipleIsProduct(step, n);
    assert step > 0.0;
    MultipleGrows(step, 0, i);
    MultipleGrows(step, i, n);
  }

  lemma BoundCutsArea(sqrt: real -> real, xs: seq<real>, ys: seq<real>, areas: seq<real>, step: real, i: nat, k: nat)
    requires IsSqrt(sqrt) && IsCurve(xs, ys) && IsAreaCurve(areas, xs, ys) && |xs| >= 2
    requires Multiple(step, i) > 0.0 && FirstHolding(areas, k, Multiple(step, i))
    ensures CutsArea(xs, ys, step, i,
                     BoundOnSegment(sqrt, Multiple(step, i) - areas[k - 1], xs[k - 1], xs[k], ys[k - 1], ys[k]))
  {
    var target := Multiple(step, i) - areas[k - 1];
    ChosenSegmentIsNotFlat(xs, ys, areas, k, Multiple(step, i));
    BoundIsExact(sqrt, target, xs[k - 1], xs[k], ys[k - 1], ys[k]);
    var cut := BoundOnSegment(sqrt, target, xs[k - 1], xs[k], ys[k - 1], ys[k]);
    AbscissaeOrdered(xs, 0, k - 1);
    AbscissaeOrdered(xs, k, |xs| - 1);
    IntegralOnSegment(xs, ys, |xs| - 1, k, cut.value);
  }

  lemma EndsCutArea(xs: seq<real>, ys: seq<real>)
    requires IsCurve(xs, ys) && |xs| >= 2
    ensures CutsArea(xs, ys, Step(xs, ys), 0, Finite(xs[0]))
    ensures CutsArea(xs, ys, Step(xs, ys), |xs| - 1, Finite(xs[|xs| - 1]))
  {
    var n := |xs| - 1;
    AbscissaeOrdered(xs, 0, n);
    AreaIsIntegral(xs, ys, n, 0);
    AreaIsIntegral(xs, ys, n, n);
    MultipleOfQuotient(Total(xs, ys), n);
  }

  lemma CutsAreOrdered(xs: seq<real>, ys: seq<real>, step: real, i: nat, j: nat, u: Double, v: Double)
    requires IsCurve(xs, ys) && |xs| >= 2 && step > 0.0 && i < j
    requires CutsArea(xs, ys, step, i, u) && CutsArea(xs, ys, step, j, v)
    ensures u.value < v.value
  {
    MultipleGrows(step, i, j);
    if v.value <= u.value {
      IntegralGrows(xs, ys, |xs| - 1, v.value, u.value);
    }
  }

  /** Cutting the area at increasing values orders the abscissae and equalises the pieces. */
  lemma CutsMakePartition(xs: seq<real>, ys: seq<real>, ret: seq<Double>, step: real)
    requires IsCurve(xs, ys) && |xs| >= 2 && |ret| == |xs|
    requires step == Step(xs, ys) > 0.0
    requires ret[0] == Finite(xs[0]) && ret[|xs| - 1] == Finite(xs[|xs| - 1])
    requires forall i :: 0 <= i < |ret| ==> CutsArea(xs, ys, step, i, ret[i])
    ensures IsEqualAreaPartition(xs, ys, ret)
  {
    forall i, j | 0 <= i < j < |ret|
      ensures ret[i].value < ret[j].value
    {
      CutsAreOrdered(xs, ys, step, i, j, ret[i], ret[j]);
    }
    forall i | 0 < i < |ret|
      ensures IntegralTo(xs, ys, |xs| - 1, ret[i].value) - IntegralTo(xs, ys, |xs| - 1, ret[i - 1].value) == step
    {
      assert CutsArea(xs, ys, step, i, ret[i]) && CutsArea(xs, ys, step, i - 1, ret[i - 1]);
    }
  }

  lemma TwoPointsArePartition(xs: seq<real>, ys: seq<real>, ret: seq<Double>)
    requires IsCurve(xs, ys) && |ret| == |xs| <= 2
    requires forall i :: 0 <= i < |xs| ==> ret[i] == Finite(xs[i])
    ensures IsEqualAreaPartition(xs, ys, ret)
  {
    if |xs| == 2 {
      AreaIsIntegral(xs, ys, 1, 0);
      AreaIsIntegral(xs, ys, 1, 1);
    }
  }

  /** With no area at all, every target is zero and the first segment divides zero by zero. */
  lemma NoAreaNoBound(sqrt: real -> real, xs: seq<real>, ys: seq<real>, areas: seq<real>, k: nat)
    requires IsCurve(xs, ys) && IsAreaCurve(areas, xs, ys) && |xs| >= 2 && Total(xs, ys) <= 0.0
    requires FirstHolding(areas, k, 0.0)
    ensures k == 1 && BoundOnSegment(sqrt, 0.0 - areas[0], xs[0], xs[1], ys[0], ys[1]) == NotFinite
  {
    assert areas[0] == Area(xs, ys, 0) && areas[1] == Area(xs, ys, 1);
    AreaGrows(xs, ys, 0, 1);
    AreaGrows(xs, ys, 1, |xs| - 1);
    assert Area(xs, ys, 1) == Trapezoid(xs[0], xs[1], ys[0], ys[1]);
    NoAreaNoOrdinate(xs[0], xs[1], ys[0], ys[1]);
    SlopeRise(xs[0], xs[1], ys[0], ys[1]);
    assert Slope(xs[0], xs[1], ys[0], ys[1]) == 0.0;
    assert Holds(areas, 1, 0.0);
  }

  /** A curve without area: the value between its ends is not a number. */
  lemma FlatCurve(sqrt: real -> real, areas: seq<real>, k: nat)
    requires IsAreaCurve(areas, [0.0, 1.0, 2.0], [0.0, 0.0, 0.0])
    requires FirstHolding(areas, k, Multiple(Step([0.0, 1.0, 2.0], [0.0, 0.0, 0.0]), 1))
    ensures IsCurve([0.0, 1.0, 2.0], [0.0, 0.0, 0.0])
    ensures k == 1 && BoundOnSegment(sqrt, 0.0 - areas[0], 0.0, 1.0, 0.0, 0.0) == NotFinite
  {
    var xs, ys := [0.0, 1.0, 2.0], [0.0, 0.0, 0.0];
    assert Area(xs, ys, 1) == 0.0;
    assert Area(xs, ys, 2) == 0.0;
    MultipleOfZero(Total(xs, ys), 2, 1);
    NoAreaNoBound(sqrt, xs, ys, areas, k);
  }

  /** The values are an equal-area partition of the curve, unless the curve has three or more points
      and no area, in which case the inner values are not numbers. */
  method EqualAreaAbscissae(sqrt: real -> real, xs: seq<real>, ys: seq<real>) returns (ret: Result<seq<Double>>)
    requires IsSqrt(sqrt)
    ensures ret.Ok? <==> IsCurve(xs, ys)
    ensures ret.Ok? ==> |ret.value| == |xs|
    ensures ret.Ok? ==> (IsEqualAreaPartition(xs, ys, ret.value) <==> |xs| <= 2 || Total(xs, ys) > 0.0)
    ensures ret.Ok? ==> forall i :: 0 <= i < |xs| ==>
              (ret.value[i].Finite? <==> i == 0 || i == |xs| - 1 || Total(xs, ys) > 0.0)
  {
    var n := |xs|;
    if |ys| != n {
      return Err(SizeMismatch);
    }
    var cuts := seq(n, i requires 0 <= i < n => Finite(xs[i]));
    if n > 0 {
      var curve := AreaCurve(xs, ys);
      if curve.Err? {
        return Err(curve.error);
      }
      var areas := curve.value;
      if n > 1 {
        var targetArea := areas[n - 1] / (n - 1) as real;
        var i := 1;
        while i < n - 1
          invariant 1 <= i <= n - 1 && |cuts| == n
          invariant cuts[0] == Finite(xs[0]) && cuts[n - 1] == Finite(xs[n - 1])
          invariant forall j :: 1 <= j < i ==> CutSettled(xs, ys, j, cuts[j])
        {
          MultipleIsProduct(targetArea, i);
          var bound := FindBound(sqrt, i as real * targetArea, xs, ys, areas);
          ghost var k := SomeSegmentIsFound(xs, ys, areas, i, targetArea);
          assert Holds(areas, k, Multiple(targetArea, i));
          ghost var segment: nat :| BoundOn(sqrt, Multiple(targetArea, i), xs, ys, areas, segment, bound);
          CutFound(sqrt, xs, ys, areas, i, targetArea, segment, bound);
          cuts := cuts[i := bound];
          i := i + 1;
        }
      }
    }
    PartitionVerdict(xs, ys, cuts);
    return Ok(cuts);
  }

  ghost predicate CutSettled(xs: seq<real>, ys: seq<real>, i: nat, cut: Double)
    requires IsCurve(xs, ys) && 2 <= |xs|
  {
    if Total(xs, ys) > 0.0 then CutsArea(xs, ys, Step(xs, ys), i, cut) else cut == NotFinite
  }

  /** What FindBound promises settles each inner value. */
  lemma CutFound(sqrt: real -> real, xs: seq<real>, ys: seq<real>, areas: seq<real>, i: nat, step: real, k: nat,
                 bound: Double)
    requires IsSqrt(sqrt) && IsCurve(xs, ys) && IsAreaCurve(areas, xs, ys) && 0 < i < |xs| - 1
    requires step == Step(xs, ys)
    requires BoundOn(sqrt, Multiple(step, i), xs, ys, areas, k, bound)
    ensures CutSettled(xs, ys, i, bound)
  {
    if Total(xs, ys) > 0.0 {
      TargetBelowTotal(Total(xs, ys), |xs| - 1, i);
      BoundCutsArea(sqrt, xs, ys, areas, step, i, k);
    } else {
      AreaGrows(xs, ys, 0, |xs| - 1);
      MultipleOfZero(Total(xs, ys), |xs| - 1, i);
      NoAreaNoBound(sqrt, xs, ys, areas, k);
    }
  }

  lemma SomeSegmentIsFound(xs: seq<real>, ys: seq<real>, areas: seq<real>, i: nat, step: real) returns (k: nat)
    requires IsCurve(xs, ys) && IsAreaCurve(areas, xs, ys) && 0 < i < |xs| - 1 && step == Step(xs, ys)
    ensures FirstHolding(areas, k, Multiple(step, i))
  {
    AreaGrows(xs, ys, 0, |xs| - 1);
    if Total(xs, ys) > 0.0 {
      TargetBelowTotal(Total(xs, ys), |xs| - 1, i);
    } else {
      MultipleOfZero(Total(xs, ys), |xs| - 1, i);
    }
    k := SomeSegmentHolds(areas, Multiple(step, i));
  }

  lemma MultipleOfZero(total: real, n: nat, i: nat)
    requires n > 0 && total == 0.0
    ensures Multiple(total / n as real, i) == 0.0
  {
    MultipleIsProduct(total / n as real, i);
  }

  lemma PositiveStep(total: real, n: nat)
    requires total > 0.0 && n > 0
    ensures total / n as real > 0.0
  {
  }

  lemma PartitionVerdict(xs: seq<real>, ys: seq<real>, cuts: seq<Double>)
    requires IsCurve(xs, ys) && |cuts| == |xs|
    requires |xs| > 0 ==> cuts[0] == Finite(xs[0]) && cuts[|xs| - 1] == Finite(xs[|xs| - 1])
    requires |xs| >= 2 ==> forall i :: 1 <= i < |xs| - 1 ==> CutSettled(xs, ys, i, cuts[i])
    ensures IsEqualAreaPartition(xs, ys, cuts) <==> |xs| <= 2 || Total(xs, ys) > 0.0
    ensures forall i :: 0 <= i < |xs| ==>
              (cuts[i].Finite? <==> i == 0 || i == |xs| - 1 || Total(xs, ys) > 0.0)
  {
    if |xs| <= 2 {
      TwoPointsArePartition(xs, ys, cuts);
    } else {
      EndsCutArea(xs, ys);
      if Total(xs, ys) > 0.0 {
        PositiveStep(Total(xs, ys), |xs| - 1);
        forall i | 0 <= i < |cuts|
          ensures CutsArea(xs, ys, Step(xs, ys), i, cuts[i])
        {
          assert 1 <= i < |xs| - 1 ==> CutSettled(xs, ys, i, cuts[i]);
        }
        CutsMakePartition(xs, ys, cuts, Step(xs, ys));
      } else {
        assert CutSettled(xs, ys, 1, cuts[1]);
      }
    }
  }
}
