/** Flattening of a directional wave spectrum into rays (DiscreteDirectionalWaveSpectrum::check_sizes
    and flatten). The square root, cosine and sine are parameters. */
module Spectra {
  import opened AreaCurves
  import RowMajor

  datatype Spectrum = Spectrum(
    si: seq<real>, dj: seq<real>, omega: seq<real>, psi: seq<real>, k: seq<real>, phase: seq<seq<real>>)

  datatype FlatSpectrum = FlatSpectrum(
    a: seq<real>, omega: seq<real>, psi: seq<real>, cosPsi: seq<real>, sinPsi: seq<real>, k: seq<real>,
    phase: seq<real>)

  datatype Ray = Ray(a: real, omega: real, psi: real, cosPsi: real, sinPsi: real, k: real, phase: real)

  datatype Flattened = Flat(rays: FlatSpectrum) | BadSizes

  const NO_RAYS := FlatSpectrum([], [], [], [], [], [], [])

  predicate SizesAgree(s: Spectrum) {
    && |s.si| == |s.omega| == |s.k| == |s.phase| > 0
    && |s.dj| == |s.psi| > 0
    && forall i :: 0 <= i < |s.phase| ==> |s.phase[i]| == |s.dj|
  }

  /** All columns have n entries. */
  predicate Aligned(f: FlatSpectrum, n: nat) {
    |f.a| == |f.omega| == |f.psi| == |f.cosPsi| == |f.sinPsi| == |f.k| == |f.phase| == n
  }

  function RayAt(f: FlatSpectrum, r: nat): Ray
    requires Aligned(f, |f.a|) && r < |f.a|
  {
    Ray(f.a[r], f.omega[r], f.psi[r], f.cosPsi[r], f.sinPsi[r], f.k[r], f.phase[r])
  }

  function PushRay(f: FlatSpectrum, ray: Ray): FlatSpectrum {
    FlatSpectrum(f.a + [ray.a], f.omega + [ray.omega], f.psi + [ray.psi], f.cosPsi + [ray.cosPsi],
                 f.sinPsi + [ray.sinPsi], f.k + [ray.k], f.phase + [ray.phase])
  }

  /** Width of the bin around xs[i], half of each neighbouring interval; 1 for a single point. */
  function Width(xs: seq<real>, i: nat): real
    requires i < |xs|
  {
    if |xs| == 1 then 1.0
    else if i == 0 then (xs[1] - xs[0]) / 2.0
    else if i == |xs| - 1 then (xs[i] - xs[i - 1]) / 2.0
    else (xs[i] - xs[i - 1]) / 2.0 + (xs[i + 1] - xs[i]) / 2.0
  }

  datatype Functions = Functions(sqrt: real -> real, cos: real -> real, sin: real -> real)

  function Amplitude(sqrt: real -> real, si: real, dj: real, domega: real, dpsi: real): real {
    var s := si * dj;
    sqrt(2.0 * s * domega * dpsi)
  }

  /** The ray of frequency i and direction j. */
  function RayOf(f: Functions, s: Spectrum, i: nat, j: nat): Ray
    requires SizesAgree(s) && i < |s.omega| && j < |s.psi|
  {
    Ray(Amplitude(f.sqrt, s.si[i], s.dj[j], Width(s.omega, i), Width(s.psi, j)),
        s.omega[i], s.psi[j], f.cos(s.psi[j]), f.sin(s.psi[j]), s.k[i], s.phase[i][j])
  }

  /** The rays of all frequencies below i, then those of frequency i for directions below j. */
  function FlatBelow(f: Functions, s: Spectrum, i: nat, j: nat): FlatSpectrum
    requires SizesAgree(s) && j <= |s.psi| && (i < |s.omega| || (i == |s.omega| && j == 0))
    decreases i, j
  {
    if j > 0 then PushRay(FlatBelow(f, s, i, j - 1), RayOf(f, s, i, j - 1))
    else if i > 0 then FlatBelow(f, s, i - 1, |s.psi|)
    else NO_RAYS
  }

  function Flattening(f: Functions, s: Spectrum): FlatSpectrum
    requires SizesAgree(s)
  {
    FlatBelow(f, s, |s.omega|, 0)
  }

  method BinWidth(xs: seq<real>, i: nat) returns (width: real)
    requires i < |xs|
    ensures width == Width(xs, i)
  {
    var n := |xs|;
    if n > 1 {
      if i == 0 {
        width := (xs[1] - xs[0]) / 2.0;
      } else if i == n - 1 {
        width := (xs[n - 1] - xs[n - 2]) / 2.0;
      } else {
        width := (xs[i] - xs[i - 1]) / 2.0 + (xs[i + 1] - xs[i]) / 2.0;
      }
    } else {
      width := 1.0;
    }
  }

  method Flatten(f: Functions, spectrum: Spectrum) returns (flat: Flattened)
    ensures flat == if SizesAgree(spectrum) then Flat(Flattening(f, spectrum)) else BadSizes
  {
    if !SizesAgree(spectrum) {
      return BadSizes;
    }
    var nOmega, nPsi := |spectrum.omega|, |spectrum.psi|;
    var ret := NO_RAYS;
    var i := 0;
    while i < nOmega
      invariant 0 <= i <= nOmega
      invariant ret == FlatBelow(f, spectrum, i, 0)
    {
      var domega := BinWidth(spectrum.omega, i);
      var j := 0;
      while j < nPsi
        invariant 0 <= j <= nPsi
        invariant ret == FlatBelow(f, spectrum, i, j)
      {
        var dpsi := BinWidth(spectrum.psi, j);
        var a := Amplitude(f.sqrt, spectrum.si[i], spectrum.dj[j], domega, dpsi);
        var ray := Ray(a, spectrum.omega[i], spectrum.psi[j], f.cos(spectrum.psi[j]), f.sin(spectrum.psi[j]),
                       spectrum.k[i], spectrum.phase[i][j]);
        assert ray == RayOf(f, spectrum, i, j);
        ret := PushRay(ret, ray);
        j := j + 1;
      }
      i := i + 1;
    }
    return Flat(ret);
  }

  lemma {:induction false} FlatBelowSize(f: Functions, s: Spectrum, i: nat, j: nat)
    requires SizesAgree(s) && j <= |s.psi| && (i < |s.omega| || (i == |s.omega| && j == 0))
    ensures Aligned(FlatBelow(f, s, i, j), i * |s.psi| + j)
    decreases i, j
  {
    if j > 0 {
      FlatBelowSize(f, s, i, j - 1);
    } else if i > 0 {
      FlatBelowSize(f, s, i - 1, |s.psi|);
      assert i * |s.psi| == (i - 1) * |s.psi| + |s.psi|;
    }
  }

  lemma {:induction false} RayBelow(f: Functions, s: Spectrum, i: nat, j: nat, p: nat, q: nat, r: nat)
    requires SizesAgree(s) && j <= |s.psi| && (i < |s.omega| || (i == |s.omega| && j == 0))
    requires p < |s.omega| && q < |s.psi| && (p < i || (p == i && q < j)) && r == p * |s.psi| + q
    requires Aligned(FlatBelow(f, s, i, j), |FlatBelow(f, s, i, j).a|)
    ensures r < |FlatBelow(f, s, i, j).a| && RayAt(FlatBelow(f, s, i, j), r) == RayOf(f, s, p, q)
    decreases i, j
  {
    if j > 0 {
      FlatBelowSize(f, s, i, j - 1);
      if p != i || q != j - 1 {
        RayBelow(f, s, i, j - 1, p, q, r);
      }
    } else {
      RayBelow(f, s, i - 1, |s.psi|, p, q, r);
    }
  }

  /** Ray p * nPsi + q carries frequency p and direction q in every column. */
  lemma RayIndex(f: Functions, s: Spectrum, rays: FlatSpectrum, p: nat, q: nat, r: nat)
    requires SizesAgree(s) && p < |s.omega| && q < |s.psi|
    requires rays == Flattening(f, s) && r == p * |s.psi| + q
    ensures Aligned(rays, |s.omega| * |s.psi|) && r < |s.omega| * |s.psi|
    ensures rays.omega[r] == s.omega[p] && rays.psi[r] == s.psi[q]
    ensures rays.cosPsi[r] == f.cos(s.psi[q]) && rays.sinPsi[r] == f.sin(s.psi[q])
    ensures rays.k[r] == s.k[p] && rays.phase[r] == s.phase[p][q]
    ensures rays.a[r] == Amplitude(f.sqrt, s.si[p], s.dj[q], Width(s.omega, p), Width(s.psi, q))
  {
    RowMajor.InRange(|s.psi|, |s.omega|, p, q);
    FlatBelowSize(f, s, |s.omega|, 0);
    RayBelow(f, s, |s.omega|, 0, p, q, r);
    assert RayAt(rays, r) == RayOf(f, s, p, q);
  }

  // ----- Energy -----

  function Square(x: real): real {
    x * x
  }

  function Twice(a: real, b: real): real {
    2.0 * (a * b)
  }

  function SumOfSquares(a: seq<real>): real {
    if a == [] then 0.0 else SumOfSquares(a[..|a| - 1]) + Square(a[|a| - 1])
  }

  /** Width times ordinate, for each bin. */
  function Shares(xs: seq<real>, ys: seq<real>): (shares: seq<real>)
    requires |xs| == |ys|
    ensures |shares| == |xs|
  {
    seq(|xs|, i requires 0 <= i < |xs| => Width(xs, i) * ys[i])
  }

  function SumTo(u: seq<real>, n: nat): real
    requires n <= |u|
  {
    if n == 0 then 0.0 else SumTo(u, n - 1) + u[n - 1]
  }

  /** Trapezoidal integral over the whole range; a single point stands for a unit interval. */
  function Integral(xs: seq<real>, ys: seq<real>): real
    requires |xs| == |ys| > 0
  {
    if |xs| == 1 then ys[0] else Area(xs, ys, |xs| - 1)
  }

  function HalfArea(u: real, v: real, y: real): real {
    (v - u) / 2.0 * y
  }

  lemma HalfIntervals(x0: real, x1: real, x2: real, y0: real, y1: real, width: real)
    requires width == (x1 - x0) / 2.0 + (x2 - x1) / 2.0
    ensures HalfArea(x0, x1, y0) + width * y1 == Trapezoid(x0, x1, y0, y1) + HalfArea(x1, x2, y1)
  {
  }

  /** The bins up to xs[m] cover the area up to xs[m] and half of the next interval. */
  lemma {:induction false} PartialShares(xs: seq<real>, ys: seq<real>, m: nat)
    requires m + 1 < |xs| == |ys|
    ensures SumTo(Shares(xs, ys), m + 1) == Area(xs, ys, m) + HalfArea(xs[m], xs[m + 1], ys[m])
  {
    assert SumTo(Shares(xs, ys), 0) == 0.0;
    if m > 0 {
      PartialShares(xs, ys, m - 1);
      HalfIntervals(xs[m - 1], xs[m], xs[m + 1], ys[m - 1], ys[m], Width(xs, m));
    }
  }

  lemma LastInterval(x0: real, x1: real, y0: real, y1: real, width: real)
    requires width == (x1 - x0) / 2.0
    ensures HalfArea(x0, x1, y0) + width * y1 == Trapezoid(x0, x1, y0, y1)
  {
  }

  lemma LastShare(xs: seq<real>, ys: seq<real>, shares: seq<real>, h: nat, half: real)
    requires |xs| == |ys| == h + 2 && shares == Shares(xs, ys)
    requires half == HalfArea(xs[h], xs[h + 1], ys[h])
    ensures half + shares[h + 1] == Trapezoid(xs[h], xs[h + 1], ys[h], ys[h + 1])
  {
    LastInterval(xs[h], xs[h + 1], ys[h], ys[h + 1], Width(xs, h + 1));
  }

  lemma AddLastShare(xs: seq<real>, ys: seq<real>, shares: seq<real>, h: nat, half: real)
    requires |xs| == |ys| == |shares| == h + 2
    requires SumTo(shares, h + 1) == Area(xs, ys, h) + half
    requires half + shares[h + 1] == Trapezoid(xs[h], xs[h + 1], ys[h], ys[h + 1])
    ensures SumTo(shares, h + 2) == Area(xs, ys, h + 1)
  {
  }

  /** The bin widths are the weights of the trapezoidal rule. */
  lemma SharesIntegrate(xs: seq<real>, ys: seq<real>, shares: seq<real>)
    requires |xs| == |ys| > 0 && shares == Shares(xs, ys)
    ensures SumTo(shares, |xs|) == Integral(xs, ys)
    ensures Integral(xs, ys) == if |xs| == 1 then ys[0] else Area(xs, ys, |xs| - 1)
  {
    if |xs| == 1 {
      assert SumTo(shares, 0) == 0.0;
    } else {
      var h := |xs| - 2;
      var half := HalfArea(xs[h], xs[h + 1], ys[h]);
      PartialShares(xs, ys, h);
      LastShare(xs, ys, shares, h, half);
      AddLastShare(xs, ys, shares, h, half);
    }
  }

  /** Sum of 2 * u[p] * v[q] over the first i rows and the first j columns of row i. */
  function PairSum(u: seq<real>, v: seq<real>, i: nat, j: nat): real
    requires j <= |v| && (i < |u| || (i == |u| && j == 0))
    decreases i, j
  {
    if j > 0 then PairSum(u, v, i, j - 1) + Twice(u[i], v[j - 1])
    else if i > 0 then PairSum(u, v, i - 1, |v|)
    else 0.0
  }

  lemma Distribute(a: real, b: real, c: real)
    ensures Twice(a, b + c) == Twice(a, b) + Twice(a, c)
    ensures Twice(b + c, a) == Twice(b, a) + Twice(c, a)
    ensures Twice(a, 0.0) == 0.0 && Twice(0.0, a) == 0.0
  {
  }

  lemma {:induction false} PairSumOfRow(u: seq<real>, v: seq<real>, i: nat, j: nat)
    requires i < |u| && j <= |v|
    ensures PairSum(u, v, i, j) == PairSum(u, v, i, 0) + Twice(u[i], SumTo(v, j))
  {
    if j > 0 {
      PairSumOfRow(u, v, i, j - 1);
      Distribute(u[i], SumTo(v, j - 1), v[j - 1]);
    } else {
      Distribute(u[i], 0.0, 0.0);
    }
  }

  lemma {:induction false} PairSumOfRows(u: seq<real>, v: seq<real>, i: nat)
    requires i <= |u|
    ensures PairSum(u, v, i, 0) == Twice(SumTo(u, i), SumTo(v, |v|))
  {
    if i > 0 {
      PairSumOfRows(u, v, i - 1);
      PairSumOfRow(u, v, i - 1, |v|);
      Distribute(SumTo(v, |v|), SumTo(u, i - 1), u[i - 1]);
    } else {
      Distribute(SumTo(v, |v|), 0.0, 0.0);
    }
  }

  lemma WidthIsNonNegative(xs: seq<real>, i: nat)
    requires Increasing(xs) && i < |xs|
    ensures Width(xs, i) >= 0.0
  {
    assert i > 0 ==> xs[i - 1] < xs[i];
    assert i + 1 < |xs| ==> xs[i] < xs[i + 1];
  }

  lemma NonNegativeProduct(a: real, b: real, c: real, d: real)
    requires a >= 0.0 && b >= 0.0 && c >= 0.0 && d >= 0.0
    ensures 2.0 * (a * b) * c * d >= 0.0
    ensures 2.0 * (a * b) * c * d == 2.0 * ((c * a) * (d * b))
  {
    assert a * b >= 0.0;
    assert 2.0 * (a * b) * c >= 0.0;
    assert (c * a) * (d * b) == (a * b) * c * d;
  }

  lemma AmplitudeSquared(sqrt: real -> real, si: real, dj: real, domega: real, dpsi: real)
    requires IsSqrt(sqrt) && si >= 0.0 && dj >= 0.0 && domega >= 0.0 && dpsi >= 0.0
    ensures Square(Amplitude(sqrt, si, dj, domega, dpsi)) == Twice(domega * si, dpsi * dj)
  {
    NonNegativeProduct(si, dj, domega, dpsi);
  }

  ghost predicate IsPhysical(s: Spectrum) {
    NonNegative(s.si) && NonNegative(s.dj) && Increasing(s.omega) && Increasing(s.psi)
  }

  /** The squared amplitude of ray (i, j) is twice the product of the two shares. */
  ghost predicate RaySquared(f: Functions, s: Spectrum, u: seq<real>, v: seq<real>, i: nat, j: nat)
    requires SizesAgree(s) && i < |s.omega| == |u| && j < |s.psi| == |v|
  {
    Square(RayOf(f, s, i, j).a) == Twice(u[i], v[j])
  }

  lemma PhysicalRaySquared(f: Functions, s: Spectrum, i: nat, j: nat)
    requires SizesAgree(s) && IsPhysical(s) && IsSqrt(f.sqrt) && i < |s.omega| && j < |s.psi|
    ensures RaySquared(f, s, Shares(s.omega, s.si), Shares(s.psi, s.dj), i, j)
  {
    WidthIsNonNegative(s.omega, i);
    WidthIsNonNegative(s.psi, j);
    AmplitudeSquared(f.sqrt, s.si[i], s.dj[j], Width(s.omega, i), Width(s.psi, j));
  }

  ghost predicate AllRaysSquared(f: Functions, s: Spectrum, u: seq<real>, v: seq<real>)
    requires SizesAgree(s)
  {
    && |u| == |s.omega| && |v| == |s.psi|
    && forall p, q :: 0 <= p < |u| && 0 <= q < |v| ==> RaySquared(f, s, u, v, p, q)
  }

  lemma AddSquare(a: seq<real>, x: real)
    ensures SumOfSquares(a + [x]) == SumOfSquares(a) + Square(x)
  {
    assert (a + [x])[..|a|] == a;
  }

  lemma RayAppended(f: Functions, s: Spectrum, i: nat, j: nat)
    requires SizesAgree(s) && i < |s.omega| && j < |s.psi|
    ensures FlatBelow(f, s, i, j + 1).a == FlatBelow(f, s, i, j).a + [RayOf(f, s, i, j).a]
  {
  }

  lemma OneMoreRay(f: Functions, s: Spectrum, u: seq<real>, v: seq<real>, i: nat, j: nat)
    requires SizesAgree(s) && i < |s.omega| == |u| && j < |s.psi| == |v| && RaySquared(f, s, u, v, i, j)
    requires SumOfSquares(FlatBelow(f, s, i, j).a) == PairSum(u, v, i, j)
    ensures SumOfSquares(FlatBelow(f, s, i, j + 1).a) == PairSum(u, v, i, j + 1)
  {
    RayAppended(f, s, i, j);
    AddSquare(FlatBelow(f, s, i, j).a, RayOf(f, s, i, j).a);
  }

  lemma NextRow(f: Functions, s: Spectrum, u: seq<real>, v: seq<real>, i: nat)
    requires SizesAgree(s) && i < |s.omega| == |u| && |s.psi| == |v|
    ensures FlatBelow(f, s, i + 1, 0) == FlatBelow(f, s, i, |v|)
    ensures PairSum(u, v, i + 1, 0) == PairSum(u, v, i, |v|)
  {
  }

  lemma {:induction false} EnergyUpTo(f: Functions, s: Spectrum, u: seq<real>, v: seq<real>, i: nat, j: nat)
    requires SizesAgree(s) && AllRaysSquared(f, s, u, v)
    requires j <= |v| && (i < |u| || (i == |u| && j == 0))
    ensures SumOfSquares(FlatBelow(f, s, i, j).a) == PairSum(u, v, i, j)
    decreases i, j
  {
    if j > 0 {
      EnergyUpTo(f, s, u, v, i, j - 1);
      assert RaySquared(f, s, u, v, i, j - 1);
      OneMoreRay(f, s, u, v, i, j - 1);
    } else if i > 0 {
      EnergyUpTo(f, s, u, v, i - 1, |v|);
      NextRow(f, s, u, v, i - 1);
    }
  }

  lemma PhysicalRaysSquared(f: Functions, s: Spectrum)
    requires SizesAgree(s) && IsPhysical(s) && IsSqrt(f.sqrt)
    ensures AllRaysSquared(f, s, Shares(s.omega, s.si), Shares(s.psi, s.dj))
  {
    var u, v := Shares(s.omega, s.si), Shares(s.psi, s.dj);
    forall i, j | 0 <= i < |u| && 0 <= j < |v|
      ensures RaySquared(f, s, u, v, i, j)
    {
      PhysicalRaySquared(f, s, i, j);
    }
  }

  lemma EnergyAsProduct(f: Functions, s: Spectrum, u: seq<real>, v: seq<real>)
    requires SizesAgree(s) && AllRaysSquared(f, s, u, v)
    requires u == Shares(s.omega, s.si) && v == Shares(s.psi, s.dj)
    ensures SumOfSquares(Flattening(f, s).a) == Twice(Integral(s.omega, s.si), Integral(s.psi, s.dj))
  {
    EnergyUpTo(f, s, u, v, |u|, 0);
    PairSumOfRows(u, v, |u|);
    SharesIntegrate(s.omega, s.si, u);
    SharesIntegrate(s.psi, s.dj, v);
  }

  /** Energy is conserved: the squared amplitudes add up to twice the product of the two integrals. */
  lemma FlattenConservesEnergy(f: Functions, s: Spectrum)
    requires SizesAgree(s) && IsPhysical(s) && IsSqrt(f.sqrt)
    ensures SumOfSquares(Flattening(f, s).a) == 2.0 * (Integral(s.omega, s.si) * Integral(s.psi, s.dj))
  {
    PhysicalRaysSquared(f, s);
    EnergyAsProduct(f, s, Shares(s.omega, s.si), Shares(s.psi, s.dj));
  }

  lemma BinsArePhysical(s: Spectrum, p: nat, q: nat)
    requires SizesAgree(s) && IsPhysical(s) && p < |s.omega| && q < |s.psi|
    ensures s.si[p] >= 0.0 && s.dj[q] >= 0.0 && Width(s.omega, p) >= 0.0 && Width(s.psi, q) >= 0.0
  {
    WidthIsNonNegative(s.omega, p);
    WidthIsNonNegative(s.psi, q);
  }

  /** What the amplitude a is, in terms of the energies of the two bins. */
  ghost predicate IsRootOfEnergies(a: real, si: real, dj: real, domega: real, dpsi: real) {
    a >= 0.0 && a * a == 2.0 * ((domega * si) * (dpsi * dj))
  }

  lemma AmplitudeIsRoot(sqrt: real -> real, si: real, dj: real, domega: real, dpsi: real)
    requires IsSqrt(sqrt) && si >= 0.0 && dj >= 0.0 && domega >= 0.0 && dpsi >= 0.0
    ensures IsRootOfEnergies(Amplitude(sqrt, si, dj, domega, dpsi), si, dj, domega, dpsi)
  {
    NonNegativeProduct(si, dj, domega, dpsi);
    AmplitudeSquared(sqrt, si, dj, domega, dpsi);
  }

  /** The amplitude of ray p * nPsi + q is the root of twice the product of the energies of its two bins. */
  lemma RayEnergy(f: Functions, s: Spectrum, rays: FlatSpectrum, p: nat, q: nat, r: nat)
    requires SizesAgree(s) && IsPhysical(s) && IsSqrt(f.sqrt) && p < |s.omega| && q < |s.psi|
    requires rays == Flattening(f, s) && r == p * |s.psi| + q
    ensures r < |rays.a| && IsRootOfEnergies(rays.a[r], s.si[p], s.dj[q], Width(s.omega, p), Width(s.psi, q))
  {
    RayIndex(f, s, rays, p, q, r);
    BinsArePhysical(s, p, q);
    AmplitudeIsRoot(f.sqrt, s.si[p], s.dj[q], Width(s.omega, p), Width(s.psi, q));
  }
}
