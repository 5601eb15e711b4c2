/** Cumulated areas under a piecewise-linear curve, and their inversion (area_curve,
    find_integration_bound_yielding_target_area and equal_area_abscissae).

    `double` is modelled by `real`. A quotient by zero or the root of a negative number, where the
    source gets an infinity or a NaN, is `NotFinite`. The square root is a parameter of which only
    its defining property is used. */
module AreaCurves {

  datatype Double = Finite(value: real) | NotFinite

  datatype Error = SizeMismatch | NegativeOrdinate | AbscissaeNotIncreasing

  datatype Result<+T> = Ok(value: T) | Err(error: Error)

  ghost predicate IsSqrt(sqrt: real -> real) {
    forall x :: x >= 0.0 ==> sqrt(x) >= 0.0 && sqrt(x) * sqrt(x) == x
  }

  // ----- The area curve -----

  predicate Increasing(xs: seq<real>) {
    forall i :: 0 < i < |xs| ==> xs[i - 1] < xs[i]
  }

  predicate NonNegative(ys: seq<real>) {
    forall i :: 0 <= i < |ys| ==> ys[i] >= 0.0
  }

  /** The inputs that area_curve accepts. */
  predicate IsCurve(xs: seq<real>, ys: seq<real>) {
    |xs| == |ys| && Increasing(xs) && NonNegative(ys)
  }

  function Trapezoid(u: real, v: real, fu: real, fv: real): real {
    0.5 * (fv + fu) * (v - u)
  }

  /** Area under the curve from xs[0] to xs[n]. */
  function Area(xs: seq<real>, ys: seq<real>, n: nat): real
    requires n < |xs| == |ys|
  {
    if n == 0 then 0.0 else Area(xs, ys, n - 1) + Trapezoid(xs[n - 1], xs[n], ys[n - 1], ys[n])
  }

  ghost predicate IsAreaCurve(areas: seq<real>, xs: seq<real>, ys: seq<real>)
    requires |xs| == |ys|
  {
    |areas| == |xs| && forall i :: 0 <= i < |xs| ==> areas[i] == Area(xs, ys, i)
  }

  method AreaCurve(xs: seq<real>, ys: seq<real>) returns (areas: Result<seq<real>>)
    ensures areas.Ok? <==> IsCurve(xs, ys)
    ensures areas.Ok? ==> IsAreaCurve(areas.value, xs, ys)
    ensures areas == Err(SizeMismatch) <==> |xs| != |ys|
    ensures areas == Err(NegativeOrdinate) ==> !NonNegative(ys)
    ensures areas == Err(AbscissaeNotIncreasing) ==> !Increasing(xs)
  {
    var n := |xs|;
    if |ys| != n {
      return Err(SizeMismatch);
    }
    var ret := seq(n, _ => 0.0);
    var i := 0;
    while i < n
      invariant 0 <= i <= n && |ret| == n
      invariant forall j :: 0 <= j < i ==> ys[j] >= 0.0 && (j > 0 ==> xs[j - 1] < xs[j])
      invariant forall j :: 0 <= j < i ==> ret[j] == Area(xs, ys, j)
      invariant forall j :: i <= j < n ==> ret[j] == 0.0
    {
      if ys[i] < 0.0 {
        return Err(NegativeOrdinate);
      }
      if i > 0 {
        if xs[i - 1] >= xs[i] {
          return Err(AbscissaeNotIncreasing);
        }
        var step := Trapezoid(xs[i - 1], xs[i], ys[i - 1], ys[i]);
        ret := ret[i := ret[i - 1] + step];
      }
      i := i + 1;
    }
    return Ok(ret);
  }

  // ----- The integral that it tabulates -----

  function Slope(xa: real, xb: real, ya: real, yb: real): real
    requires xa != xb
  {
    (yb - ya) / (xb - xa)
  }

  lemma SlopeRise(xa: real, xb: real, ya: real, yb: real)
    requires xa != xb
    ensures Slope(xa, xb, ya, yb) * (xb - xa) == yb - ya
  {
  }

  /** Value at x of the straight line through (xa, ya) and (xb, yb). */
  function Line(xa: real, xb: real, ya: real, yb: real, x: real): real
    requires xa < xb
  {
    ya + Slope(xa, xb, ya, yb) * (x - xa)
  }

  /** Area under the line from xa to x. */
  function LineArea(xa: real, xb: real, ya: real, yb: real, x: real): real
    requires xa < xb
  {
    Trapezoid(xa, x, ya, Line(xa, xb, ya, yb, x))
  }

  /** Integral of the curve from xs[0] to x, for x up to xs[n]. */
  function IntegralTo(xs: seq<real>, ys: seq<real>, n: nat, x: real): real
    requires n < |xs| && IsCurve(xs, ys)
  {
    if n == 0 then 0.0
    else if x < xs[n - 1] then IntegralTo(xs, ys, n - 1, x)
    else Area(xs, ys, n - 1) + LineArea(xs[n - 1], xs[n], ys[n - 1], ys[n], x)
  }

  lemma LineThroughEnds(xa: real, xb: real, ya: real, yb: real)
    requires xa < xb
    ensures Line(xa, xb, ya, yb, xa) == ya && Line(xa, xb, ya, yb, xb) == yb
  {
  }

  /** Between u and v the integral of a line is the trapezoid below it. */
  lemma LineAreaBetween(xa: real, xb: real, ya: real, yb: real, u: real, v: real)
    requires xa < xb
    ensures LineArea(xa, xb, ya, yb, v) - LineArea(xa, xb, ya, yb, u)
         == Trapezoid(u, v, Line(xa, xb, ya, yb, u), Line(xa, xb, ya, yb, v))
  {
    var alpha := Slope(xa, xb, ya, yb);
    SlopedAreas(alpha, xa, ya, u, v);
  }

  lemma SlopedAreas(alpha: real, xa: real, ya: real, u: real, v: real)
    ensures Trapezoid(xa, v, ya, ya + alpha * (v - xa)) - Trapezoid(xa, u, ya, ya + alpha * (u - xa))
         == Trapezoid(u, v, ya + alpha * (u - xa), ya + alpha * (v - xa))
  {
  }

  lemma Fraction(a: real, b: real)
    requires 0.0 <= a <= b && b > 0.0
    ensures 0.0 <= a / b <= 1.0 && a / b * b == a
  {
  }

  lemma LineIsNonNegative(xa: real, xb: real, ya: real, yb: real, x: real)
    requires xa < xb && ya >= 0.0 && yb >= 0.0 && xa <= x <= xb
    ensures Line(xa, xb, ya, yb, x) >= 0.0
  {
    SlopeRise(xa, xb, ya, yb);
    Fraction(x - xa, xb - xa);
    Convex(Slope(xa, xb, ya, yb), xb - xa, x - xa, (x - xa) / (xb - xa), ya, yb);
  }

  lemma Convex(alpha: real, width: real, d: real, w: real, ya: real, yb: real)
    requires alpha * width == yb - ya && w * width == d && 0.0 <= w <= 1.0
    requires ya >= 0.0 && yb >= 0.0
    ensures ya + alpha * d >= 0.0
  {
    assert alpha * (w * width) == (alpha * width) * w;
    assert ya + (yb - ya) * w == ya * (1.0 - w) + yb * w;
    assert ya * (1.0 - w) >= 0.0 && yb * w >= 0.0;
  }

  lemma LineAreaGrows(xa: real, xb: real, ya: real, yb: real, u: real, v: real)
    requires xa < xb && ya >= 0.0 && yb >= 0.0 && xa <= u <= v <= xb
    ensures LineArea(xa, xb, ya, yb, u) <= LineArea(xa, xb, ya, yb, v)
  {
    LineAreaBetween(xa, xb, ya, yb, u, v);
    LineIsNonNegative(xa, xb, ya, yb, u);
    LineIsNonNegative(xa, xb, ya, yb, v);
    TrapezoidIsNonNegative(u, v, Line(xa, xb, ya, yb, u), Line(xa, xb, ya, yb, v));
  }

  lemma AbscissaeOrdered(xs: seq<real>, i: nat, j: nat)
    requires Increasing(xs) && i <= j < |xs|
    ensures xs[i] <= xs[j] && (i < j ==> xs[i] < xs[j])
  {
    if i < j {
      AbscissaeOrdered(xs, i, j - 1);
    }
  }

  /** On segment i the integral is the area up to xs[i - 1] plus the area under the line. */
  lemma {:induction false} IntegralOnSegment(xs: seq<real>, ys: seq<real>, n: nat, i: nat, x: real)
    requires 1 <= i <= n < |xs| && IsCurve(xs, ys)
    requires xs[i - 1] <= x <= xs[i]
    ensures IntegralTo(xs, ys, n, x)
         == Area(xs, ys, i - 1) + LineArea(xs[i - 1], xs[i], ys[i - 1], ys[i], x)
  {
    AbscissaeOrdered(xs, i, n);
    if i < n {
      AbscissaeOrdered(xs, i, n - 1);
      if x < xs[n - 1] {
        IntegralOnSegment(xs, ys, n - 1, i, x);
      } else {
        if i < n - 1 {
          AbscissaeOrdered(xs, i, n - 1);
        }
        LineThroughEnds(xs[n - 1], xs[n], ys[n - 1], ys[n]);
        LineThroughEnds(xs[i - 1], xs[i], ys[i - 1], ys[i]);
      }
    }
  }

  /** The area curve tabulates the integral. */
  lemma AreaIsIntegral(xs: seq<real>, ys: seq<real>, n: nat, i: nat)
    requires i <= n < |xs| && IsCurve(xs, ys)
    ensures IntegralTo(xs, ys, n, xs[i]) == Area(xs, ys, i) && Area(xs, ys, 0) == 0.0
  {
    if i > 0 {
      IntegralOnSegment(xs, ys, n, i, xs[i]);
      LineThroughEnds(xs[i - 1], xs[i], ys[i - 1], ys[i]);
    } else if n > 0 {
      IntegralOnSegment(xs, ys, n, 1, xs[0]);
      LineThroughEnds(xs[0], xs[1], ys[0], ys[1]);
    }
  }

  /** The line through (xa, ya) and (xb, yb) passes through (x, y) if and only if the slopes from xa agree. */
  lemma LineIsChord(xa: real, xb: real, ya: real, yb: real, x: real, y: real)
    requires xa < xb
    ensures Line(xa, xb, ya, yb, x) == y <==> (y - ya) * (xb - xa) == (yb - ya) * (x - xa)
  {
    var slope, width := Slope(xa, xb, ya, yb), xb - xa;
    SlopeRise(xa, xb, ya, yb);
    assert (slope * (x - xa)) * width == (slope * width) * (x - xa);
    assert (y - ya) * width - (yb - ya) * (x - xa) == (y - ya - slope * (x - xa)) * width;
  }

  /** The area between u and v under a chord from ordinate yu to ordinate yv. */
  predicate GrowsUnderChord(before: real, after: real, u: real, v: real, yu: real, yv: real) {
    after - before == 0.5 * (yv + yu) * (v - u)
  }

  lemma GrowthUnderLine(area: real, xa: real, xb: real, ya: real, yb: real, u: real, v: real)
    requires xa < xb
    ensures GrowsUnderChord(area + LineArea(xa, xb, ya, yb, u), area + LineArea(xa, xb, ya, yb, v), u, v,
                            Line(xa, xb, ya, yb, u), Line(xa, xb, ya, yb, v))
  {
    LineAreaBetween(xa, xb, ya, yb, u, v);
  }

  /** Within a segment the integral grows by the trapezoid under the line. */
  lemma IntegralWithinSegment(xs: seq<real>, ys: seq<real>, n: nat, i: nat, u: real, v: real)
    requires 1 <= i <= n < |xs| && IsCurve(xs, ys) && xs[i - 1] <= u <= xs[i] && xs[i - 1] <= v <= xs[i]
    ensures var (yu, yv) := (Line(xs[i - 1], xs[i], ys[i - 1], ys[i], u), Line(xs[i - 1], xs[i], ys[i - 1], ys[i], v));
            GrowsUnderChord(IntegralTo(xs, ys, n, u), IntegralTo(xs, ys, n, v), u, v, yu, yv)
  {
    IntegralOnSegment(xs, ys, n, i, u);
    IntegralOnSegment(xs, ys, n, i, v);
    GrowthUnderLine(Area(xs, ys, i - 1), xs[i - 1], xs[i], ys[i - 1], ys[i], u, v);
  }

  lemma TrapezoidIsNonNegative(u: real, v: real, fu: real, fv: real)
    requires u <= v && fu >= 0.0 && fv >= 0.0
    ensures Trapezoid(u, v, fu, fv) >= 0.0
  {
  }

  lemma {:induction false} AreaGrows(xs: seq<real>, ys: seq<real>, i: nat, j: nat)
    requires i <= j < |xs| && IsCurve(xs, ys)
    ensures Area(xs, ys, i) <= Area(xs, ys, j)
  {
    if i < j {
      AreaGrows(xs, ys, i, j - 1);
      TrapezoidIsNonNegative(xs[j - 1], xs[j], ys[j - 1], ys[j]);
    }
  }

  lemma {:induction false} IntegralGrows(xs: seq<real>, ys: seq<real>, n: nat, u: real, v: real)
    requires n < |xs| && IsCurve(xs, ys)
    requires xs[0] <= u <= v <= xs[n]
    ensures IntegralTo(xs, ys, n, u) <= IntegralTo(xs, ys, n, v)
  {
    if n > 0 {
      if v < xs[n - 1] {
        IntegralGrows(xs, ys, n - 1, u, v);
      } else if u < xs[n - 1] {
        AbscissaeOrdered(xs, 0, n - 1);
        IntegralGrows(xs, ys, n - 1, u, xs[n - 1]);
        AreaIsIntegral(xs, ys, n - 1, n - 1);
        LineAreaGrows(xs[n - 1], xs[n], ys[n - 1], ys[n], xs[n - 1], v);
        LineThroughEnds(xs[n - 1], xs[n], ys[n - 1], ys[n]);
      } else {
        LineAreaGrows(xs[n - 1], xs[n], ys[n - 1], ys[n], u, v);
      }
    }
  }
}
