/** Angular frequencies at which a spectrum is sampled (WaveSpectralDensity::get_angular_frequencies). The
    number pi is a parameter. */
module AngularFrequencies {
  import opened AreaCurves
  import opened EqualAreaBins
  import RowMajor

  datatype FrequencyError =
    | MinNotPositive
    | MaxNotPositive
    | RangeReversed
    | NoFrequency
    | SingleFrequencyForRange
    | SeveralFrequenciesForPoint
    | NoRepetitionSize
    | BadSpectrum(error: Error)

  datatype Frequencies = Frequencies(omega: seq<Double>) | Rejected(reason: FrequencyError)

  /** i n-ths of the range above omegaMin. */
  function RegularAt(omegaMin: real, range: real, n: nat, i: nat): real
    requires n > 0
  {
    omegaMin + i as real / n as real * range
  }

  /** n equally spaced values from omegaMin to omegaMax. */
  function Regular(omegaMin: real, omegaMax: real, n: nat): (omega: seq<real>)
    requires n >= 2
    ensures |omega| == n
  {
    seq(n, i requires 0 <= i < n => RegularAt(omegaMin, omegaMax - omegaMin, n - 1, i))
  }

  /** The values of the spectrum at the frequencies. */
  ghost predicate AreSamples(density: seq<real>, spectrum: real -> real, omega: seq<real>) {
    |density| == |omega| && forall i :: 0 <= i < |omega| ==> density[i] == spectrum(omega[i])
  }

  lemma LargerFraction(i: nat, j: nat, n: nat, omegaMin: real, range: real)
    requires i < j && n > 0 && range > 0.0
    ensures RegularAt(omegaMin, range, n, i) < RegularAt(omegaMin, range, n, j)
  {
    var u, v := i as real / n as real, j as real / n as real;
    Quotient(i as real, n as real, u);
    Quotient(j as real, n as real, v);
    assert n as real * (v - u) > 0.0;
    PositiveProduct(v - u, range);
  }

  lemma EndFractions(n: nat, omegaMin: real, range: real)
    requires n > 0
    ensures RegularAt(omegaMin, range, n, 0) == omegaMin && RegularAt(omegaMin, range, n, n) == omegaMin + range
  {
    Quotient(n as real, n as real, 1.0);
  }

  /** Equally spaced frequencies pass the strict-increase check of the area curve. */
  lemma RegularIsIncreasing(omegaMin: real, omegaMax: real, n: nat)
    requires n >= 2 && omegaMin < omegaMax
    ensures Increasing(Regular(omegaMin, omegaMax, n))
    ensures Regular(omegaMin, omegaMax, n)[0] == omegaMin && Regular(omegaMin, omegaMax, n)[n - 1] == omegaMax
  {
    var omega := Regular(omegaMin, omegaMax, n);
    forall i | 0 < i < n
      ensures omega[i - 1] < omega[i]
    {
      LargerFraction(i - 1, i, n - 1, omegaMin, omegaMax - omegaMin);
    }
    EndFractions(n - 1, omegaMin, omegaMax - omegaMin);
  }

  /** From low to high in equal steps. */
  predicate EquallySpaced(xs: seq<real>, low: real, high: real) {
    && |xs| >= 2 && xs[0] == low && xs[|xs| - 1] == high
    && forall i :: 0 < i < |xs| ==> IsStep(xs[i - 1], xs[i], |xs| - 1, high - low)
  }

  /** The n-th part of a range lies between the two values. */
  predicate IsStep(from: real, to: real, n: nat, range: real) {
    (to - from) * n as real == range
  }

  lemma NextFraction(i: nat, n: nat, omegaMin: real, range: real)
    requires n > 0
    ensures IsStep(RegularAt(omegaMin, range, n, i), RegularAt(omegaMin, range, n, i + 1), n, range)
  {
    var u, v, m := i as real / n as real, (i + 1) as real / n as real, n as real;
    Quotient(i as real, m, u);
    Quotient((i + 1) as real, m, v);
    assert m * (v - u) == 1.0;
    assert ((v - u) * range) * m == (m * (v - u)) * range;
    assert v * range - u * range == (v - u) * range;
  }

  lemma SameStep(from: real, to: real, other: real, n: nat, range: real)
    requires n > 0 && IsStep(from, to, n, range) && IsStep(from, other, n, range)
    ensures to == other
  {
    var gap, m := to - other, n as real;
    assert gap * m == (to - from) * m - (other - from) * m == 0.0;
  }

  lemma RegularIsSpaced(omegaMin: real, omegaMax: real, n: nat)
    requires n >= 2
    ensures EquallySpaced(Regular(omegaMin, omegaMax, n), omegaMin, omegaMax)
  {
    var regular := Regular(omegaMin, omegaMax, n);
    EndFractions(n - 1, omegaMin, omegaMax - omegaMin);
    forall i | 0 < i < n ensures IsStep(regular[i - 1], regular[i], n - 1, omegaMax - omegaMin) {
      NextFraction(i - 1, n - 1, omegaMin, omegaMax - omegaMin);
    }
  }

  lemma {:induction false} SpacedIsRegular(omegaMin: real, omegaMax: real, xs: seq<real>, i: nat)
    requires EquallySpaced(xs, omegaMin, omegaMax) && i < |xs|
    ensures xs[i] == Regular(omegaMin, omegaMax, |xs|)[i]
  {
    var regular := Regular(omegaMin, omegaMax, |xs|);
    RegularIsSpaced(omegaMin, omegaMax, |xs|);
    if i > 0 {
      SpacedIsRegular(omegaMin, omegaMax, xs, i - 1);
      SameStep(xs[i - 1], xs[i], regular[i], |xs| - 1, omegaMax - omegaMin);
    }
  }

  /** The regular frequencies are the equally spaced ones, and there are no others. */
  lemma RegularIffEquallySpaced(omegaMin: real, omegaMax: real, xs: seq<real>)
    requires |xs| >= 2
    ensures xs == Regular(omegaMin, omegaMax, |xs|) <==> EquallySpaced(xs, omegaMin, omegaMax)
  {
    RegularIsSpaced(omegaMin, omegaMax, |xs|);
    if EquallySpaced(xs, omegaMin, omegaMax) {
      forall i | 0 <= i < |xs| ensures xs[i] == Regular(omegaMin, omegaMax, |xs|)[i] {
        SpacedIsRegular(omegaMin, omegaMax, xs, i);
      }
    }
  }

  // ----- Frequencies that repeat in space -----

  const GRAVITY := 9.81

  function PeriodicAt(sqrt: real -> real, pi: real, size: real, i: nat): Double {
    if size == 0.0 || 2.0 * i as real * pi * GRAVITY / size < 0.0 then NotFinite
    else Finite(sqrt(2.0 * i as real * pi * GRAVITY / size))
  }

  /** The first i frequencies of one repetition size. */
  function PeriodicOf(sqrt: real -> real, pi: real, size: real, i: nat): (omega: seq<Double>)
    ensures |omega| == i
  {
    if i == 0 then [] else PeriodicOf(sqrt, pi, size, i - 1) + [PeriodicAt(sqrt, pi, size, i)]
  }

  /** The frequencies of the first s repetition sizes. */
  function Periodic(sqrt: real -> real, pi: real, n: nat, sizes: seq<real>, s: nat): (omega: seq<Double>)
    requires s <= |sizes|
    ensures |omega| == s * n
  {
    if s == 0 then [] else Periodic(sqrt, pi, n, sizes, s - 1) + PeriodicOf(sqrt, pi, sizes[s - 1], n)
  }

  /** In deep water omega^2 = g k: the size holds exactly i wavelengths. */
  predicate HoldsWavelengths(pi: real, size: real, i: nat, omega: Double) {
    omega.Finite? && omega.value >= 0.0 && omega.value * omega.value * size == 2.0 * i as real * pi * 9.81
  }

  lemma PeriodicHoldsWavelengths(sqrt: real -> real, pi: real, size: real, i: nat)
    requires IsSqrt(sqrt) && pi > 0.0 && size > 0.0
    ensures HoldsWavelengths(pi, size, i, PeriodicAt(sqrt, pi, size, i))
  {
    var a := 2.0 * i as real * pi * GRAVITY;
    assert a >= 0.0 && a / size >= 0.0;
    Quotient(a, size, a / size);
  }

  lemma {:induction false} PeriodicEntry(sqrt: real -> real, pi: real, size: real, n: nat, i: nat)
    requires i < n
    ensures PeriodicOf(sqrt, pi, size, n)[i] == PeriodicAt(sqrt, pi, size, i + 1)
  {
    if i < n - 1 {
      PeriodicEntry(sqrt, pi, size, n - 1, i);
    }
  }

  lemma {:induction false} PeriodicBlock(sqrt: real -> real, pi: real, n: nat, sizes: seq<real>, s: nat, r: nat,
                                         i: nat, k: nat)
    requires r < s <= |sizes| && i < n && k == r * n + i
    ensures k < s * n && Periodic(sqrt, pi, n, sizes, s)[k] == PeriodicAt(sqrt, pi, sizes[r], i + 1)
  {
    RowMajor.InRange(n, s, r, i);
    if r < s - 1 {
      PeriodicBlock(sqrt, pi, n, sizes, s - 1, r, i, k);
    } else {
      PeriodicEntry(sqrt, pi, sizes[r], n, i);
    }
  }

  /** Frequency r * n + i fits i + 1 wavelengths in the size of rank r, when that size is positive. */
  lemma PeriodicFrequency(sqrt: real -> real, pi: real, n: nat, sizes: seq<real>, r: nat, i: nat)
    requires IsSqrt(sqrt) && pi > 0.0 && r < |sizes| && i < n && sizes[r] > 0.0
    ensures 0 <= r * n + i < |sizes| * n
    ensures HoldsWavelengths(pi, sizes[r], i + 1, Periodic(sqrt, pi, n, sizes, |sizes|)[r * n + i])
  {
    PeriodicBlock(sqrt, pi, n, sizes, |sizes|, r, i, r * n + i);
    PeriodicHoldsWavelengths(sqrt, pi, sizes[r], i + 1);
  }

  method PeriodicFrequencies(sqrt: real -> real, pi: real, n: nat, sizes: seq<real>) returns (omega: seq<Double>)
    ensures omega == Periodic(sqrt, pi, n, sizes, |sizes|)
  {
    omega := [];
    for s := 0 to |sizes|
      invariant omega == Periodic(sqrt, pi, n, sizes, s)
    {
      ghost var before := omega;
      assert before + PeriodicOf(sqrt, pi, sizes[s], 0) == before;
      for i := 1 to n + 1
        invariant omega == before + PeriodicOf(sqrt, pi, sizes[s], i - 1)
      {
        omega := omega + [PeriodicAt(sqrt, pi, sizes[s], i)];
      }
    }
  }

  // ----- The choice -----

  /** What the source demands of the range and the number of frequencies. */
  predicate ValidRange(omegaMin: real, omegaMax: real, n: nat) {
    0.0 < omegaMin <= omegaMax && n > 0 && (n == 1 <==> omegaMin == omegaMax)
  }

  /** The equal-energy bins of the spectrum sampled at these frequencies. */
  ghost predicate AreBins(spectrum: real -> real, omega: seq<real>, density: seq<real>, frequencies: Frequencies)
    requires |omega| >= 2
  {
    && AreSamples(density, spectrum, omega)
    && (frequencies.Frequencies? <==> NonNegative(density))
    && (frequencies.Frequencies? ==>
          IsCurve(omega, density) &&
          (IsEqualAreaPartition(omega, density, frequencies.omega) <==> |omega| == 2 || Total(omega, density) > 0.0))
  }

  method EqualEnergy(sqrt: real -> real, spectrum: real -> real, omega: seq<real>) returns (frequencies: Frequencies)
    requires IsSqrt(sqrt) && |omega| >= 2 && Increasing(omega)
    ensures exists density :: AreBins(spectrum, omega, density, frequencies)
    ensures frequencies.Frequencies? || frequencies.reason.BadSpectrum?
  {
    var n := |omega|;
    var density := seq(n, _ => 0.0);
    var i := 0;
    while i < n
      invariant 0 <= i <= n && |density| == n
      invariant forall j :: 0 <= j < i ==> density[j] == spectrum(omega[j])
    {
      density := density[i := spectrum(omega[i])];
      i := i + 1;
    }
    var bins := EqualAreaAbscissae(sqrt, omega, density);
    frequencies := match bins case Ok(values) => Frequencies(values) case Err(error) => Rejected(BadSpectrum(error));
    assert AreBins(spectrum, omega, density, frequencies);
  }

  /** Space-periodic frequencies, equally spaced ones or, with equal-energy bins, frequencies between which
      the sampled spectrum has equal areas whenever it has any area. */
  method GetAngularFrequencies(sqrt: real -> real, pi: real, spectrum: real -> real, omegaMin: real, omegaMax: real,
                               n: nat, equalEnergyBins: bool, periodic: bool, sizes: seq<real>)
    returns (frequencies: Frequencies)
    requires IsSqrt(sqrt)
    ensures frequencies.Rejected? && !frequencies.reason.BadSpectrum? && !frequencies.reason.NoRepetitionSize?
       <==> !ValidRange(omegaMin, omegaMax, n)
    ensures ValidRange(omegaMin, omegaMax, n) && n == 1 ==> frequencies == Frequencies([Finite(omegaMin)])
    ensures ValidRange(omegaMin, omegaMax, n) && n > 1 && periodic ==>
              frequencies == if sizes == [] then Rejected(NoRepetitionSize)
                             else Frequencies(Periodic(sqrt, pi, n, sizes, |sizes|))
    ensures ValidRange(omegaMin, omegaMax, n) && n > 1 && !periodic && !equalEnergyBins ==>
              frequencies.Frequencies? && |frequencies.omega| == n &&
              (forall i :: 0 <= i < n ==> frequencies.omega[i].Finite?) &&
              frequencies.omega[0].value == omegaMin && frequencies.omega[n - 1].value == omegaMax &&
              forall i :: 0 < i < n ==>
                IsStep(frequencies.omega[i - 1].value, frequencies.omega[i].value, n - 1, omegaMax - omegaMin)
    ensures ValidRange(omegaMin, omegaMax, n) && n > 1 && !periodic && equalEnergyBins ==>
              exists regular, density ::
                EquallySpaced(regular, omegaMin, omegaMax) && |regular| == n
                && AreBins(spectrum, regular, density, frequencies)
  {
    if omegaMin <= 0.0 {
      return Rejected(MinNotPositive);
    }
    if omegaMax <= 0.0 {
      return Rejected(MaxNotPositive);
    }
    if omegaMax < omegaMin {
      return Rejected(RangeReversed);
    }
    if n == 0 {
      return Rejected(NoFrequency);
    }
    if n == 1 {
      if omegaMin != omegaMax {
        return Rejected(SingleFrequencyForRange);
      }
      return Frequencies([Finite(omegaMin)]);
    }
    if omegaMin == omegaMax {
      return Rejected(SeveralFrequenciesForPoint);
    }
    if periodic {
      if sizes == [] {
        return Rejected(NoRepetitionSize);
      }
      var fitting := PeriodicFrequencies(sqrt, pi, n, sizes);
      return Frequencies(fitting);
    }
    var omega := seq(n, _ => 0.0);
    var domega := omegaMax - omegaMin;
    var i := 1;
    while i <= n
      invariant 1 <= i <= n + 1 && |omega| == n
      invariant forall j :: 0 <= j < i - 1 ==> omega[j] == Regular(omegaMin, omegaMax, n)[j]
    {
      omega := omega[i - 1 := omegaMin + (i - 1) as real / (n - 1) as real * domega];
      i := i + 1;
    }
    assert omega == Regular(omegaMin, omegaMax, n);
    RegularIsIncreasing(omegaMin, omegaMax, n);
    RegularIsSpaced(omegaMin, omegaMax, n);
    if equalEnergyBins {
      frequencies := EqualEnergy(sqrt, spectrum, omega);
      return;
    }
    return Frequencies(seq(n, j requires 0 <= j < n => Finite(omega[j])));
  }
}
