/** Selection of the most energetic rays (filter): rays are kept in descending order of energy until
    they hold the requested share of the total. */
module SpectrumFilter {
  import opened AreaCurves
  import opened Spectra
  import Insertion

  datatype ValIdx = ValIdx(val: real, idx: nat)

  // ----- Ranking -----

  /** Order of the stable descending sort: larger value first, earlier index first among equals. */
  predicate RanksBefore(a: ValIdx, b: ValIdx) {
    a.val > b.val || (a.val == b.val && a.idx < b.idx)
  }

  predicate Ranked(s: seq<ValIdx>) {
    forall i, j :: 0 <= i < j < |s| ==> RanksBefore(s[i], s[j])
  }

  function Indexed(energy: seq<real>): (s: seq<ValIdx>)
    ensures |s| == |energy|
  {
    seq(|energy|, i requires 0 <= i < |energy| => ValIdx(energy[i], i))
  }

  lemma InsertKeepsRank(r: seq<ValIdx>, k: nat, x: ValIdx)
    requires Ranked(r) && k <= |r|
    requires forall i :: 0 <= i < |r| ==> r[i].idx < x.idx
    requires forall i :: 0 <= i < k ==> r[i].val >= x.val
    requires k < |r| ==> x.val > r[k].val
    ensures Ranked(r[..k] + [x] + r[k..])
  {
    forall j | k <= j < |r|
      ensures RanksBefore(x, r[j])
    {
      assert j == k || RanksBefore(r[k], r[j]);
    }
  }

  lemma EarlierIndices(energy: seq<real>, n: nat, r: seq<ValIdx>)
    requires n <= |energy| && multiset(r) == multiset(Indexed(energy)[..n])
    ensures forall i :: 0 <= i < |r| ==> r[i].idx < n && r[i].val == energy[r[i].idx]
  {
    forall i | 0 <= i < |r|
      ensures r[i].idx < n && r[i].val == energy[r[i].idx]
    {
      assert r[i] in multiset(r);
      var l :| 0 <= l < n && Indexed(energy)[..n][l] == r[i];
      assert Indexed(energy)[l] == ValIdx(energy[l], l);
    }
  }

  /** Stands for std::list::sort with the descending comparator, which is stable. */
  method SortDescending(energy: seq<real>) returns (r: seq<ValIdx>)
    ensures Ranked(r) && |r| == |energy|
    ensures multiset(r) == multiset(Indexed(energy))
  {
    var s := Indexed(energy);
    r := [];
    for n := 0 to |s|
      invariant Ranked(r) && |r| == n
      invariant multiset(r) == multiset(s[..n])
    {
      EarlierIndices(energy, n, r);
      var k := 0;
      while k < |r| && !(s[n].val > r[k].val)
        invariant 0 <= k <= |r|
        invariant forall i :: 0 <= i < k ==> r[i].val >= s[n].val
      {
        k := k + 1;
      }
      InsertKeepsRank(r, k, s[n]);
      Insertion.InsertKeepsElements(r, k, s, n);
      r := r[..k] + [s[n]] + r[k..];
    }
    assert s[..|s|] == s;
  }

  // ----- The selection -----

  function Energies(a: seq<real>): (e: seq<real>)
    ensures |e| == |a|
  {
    seq(|a|, i requires 0 <= i < |a| => Square(a[i]))
  }

  function Sum(v: seq<real>): real {
    if v == [] then 0.0 else Sum(v[..|v| - 1]) + v[|v| - 1]
  }

  lemma SumPush(v: seq<real>, n: nat)
    requires n < |v|
    ensures Sum(v[..n + 1]) == Sum(v[..n]) + v[n]
  {
    assert v[..n + 1][..n] == v[..n];
  }

  predicate Indices(order: seq<nat>, n: nat) {
    forall i :: 0 <= i < |order| ==> order[i] < n
  }

  predicate Distinct(order: seq<nat>) {
    forall i, j :: 0 <= i < j < |order| ==> order[i] != order[j]
  }

  function Pick<T>(column: seq<T>, order: seq<nat>): (picked: seq<T>)
    requires Indices(order, |column|)
    ensures |picked| == |order|
  {
    seq(|order|, i requires 0 <= i < |order| => column[order[i]])
  }

  /** The selected rays, column by column; the phases are not copied. */
  function Selection(f: FlatSpectrum, n: nat, order: seq<nat>): FlatSpectrum
    requires ColumnsAligned(f, n) && Indices(order, n)
  {
    FlatSpectrum(Pick(f.a, order), Pick(f.omega, order), Pick(f.psi, order), Pick(f.cosPsi, order),
                 Pick(f.sinPsi, order), Pick(f.k, order), [])
  }

  /** All columns but the phases have n entries. */
  predicate ColumnsAligned(f: FlatSpectrum, n: nat) {
    |f.a| == |f.omega| == |f.psi| == |f.cosPsi| == |f.sinPsi| == |f.k| == n
  }

  /** All indices, once each, by descending energy and then by index. */
  predicate IsRanking(energy: seq<real>, order: seq<nat>) {
    && |order| == |energy| && Indices(order, |energy|)
    && forall i, j :: 0 <= i < j < |order| ==>
         RanksBefore(ValIdx(energy[order[i]], order[i]), ValIdx(energy[order[j]], order[j]))
  }

  function Share(ratio: real, whole: real): real {
    ratio * whole
  }

  function Requested(a: seq<real>, ratio: real): real {
    Share(ratio, Sum(Energies(a)))
  }

  /** `kept` is the shortest prefix of the ranking that holds `ratio` of the energy, or all of it. */
  ghost predicate IsGreedy(a: seq<real>, ratio: real, kept: seq<nat>) {
    exists order ::
      IsRanking(Energies(a), order) && IsShortestPrefix(Energies(a), Requested(a, ratio), order, kept)
  }

  /** Before its last ray was taken, the selection did not hold the target. */
  predicate StillBelow(energy: seq<real>, target: real, kept: seq<nat>) {
    && Indices(kept, |energy|)
    && (kept != [] ==> Sum(Pick(energy, kept[..|kept| - 1])) < target)
  }

  predicate IsShortestPrefix(energy: seq<real>, target: real, order: seq<nat>, kept: seq<nat>)
    requires IsRanking(energy, order)
  {
    && kept <= order
    && StillBelow(energy, target, kept)
    && (Sum(Pick(energy, kept)) >= target || kept == order)
  }

  lemma RankingOfSorted(energy: seq<real>, sorted: seq<ValIdx>, order: seq<nat>)
    requires Ranked(sorted) && |sorted| == |energy| == |order| && multiset(sorted) == multiset(Indexed(energy))
    requires forall i :: 0 <= i < |order| ==> order[i] == sorted[i].idx
    ensures IsRanking(energy, order)
    ensures forall i :: 0 <= i < |order| ==> sorted[i] == ValIdx(energy[order[i]], order[i])
  {
    assert Indexed(energy)[..|energy|] == Indexed(energy);
    EarlierIndices(energy, |energy|, sorted);
  }

  method CollectEnergies(a: seq<real>) returns (total: real, energy: seq<real>)
    ensures energy == Energies(a) && total == Sum(energy)
  {
    total := 0.0;
    energy := [];
    for i := 0 to |a|
      invariant energy == Energies(a)[..i] && total == Sum(energy)
    {
      var square := Square(a[i]);
      SumPush(Energies(a), i);
      total := total + square;
      energy := energy + [square];
    }
  }

  /** Takes rays from the front of the ranking until they hold the target. */
  method TakeRays(spectrum: FlatSpectrum, n: nat, sorted: seq<ValIdx>, target: real, ghost order: seq<nat>)
    returns (ret: FlatSpectrum, ghost kept: seq<nat>)
    requires ColumnsAligned(spectrum, n) && |sorted| == n && IsRanking(Energies(spectrum.a), order)
    requires forall i :: 0 <= i < n ==> sorted[i] == ValIdx(Energies(spectrum.a)[order[i]], order[i])
    ensures IsShortestPrefix(Energies(spectrum.a), target, order, kept)
    ensures ret == Selection(spectrum, n, kept)
  {
    ghost var energy := Energies(spectrum.a);
    var cumsum := 0.0;
    ret := NO_RAYS;
    kept := order[..0];
    var i := 0;
    while i < n
      invariant 0 <= i <= n
      invariant kept == order[..i] && StillBelow(energy, target, kept)
      invariant cumsum == Sum(Pick(energy, kept))
      invariant ret == Selection(spectrum, n, kept)
    {
      if cumsum >= target {
        return;
      }
      var sidj := sorted[i];
      PickPush(energy, order, i);
      SelectionPush(spectrum, n, order, i);
      cumsum := cumsum + sidj.val;
      ret := PushFrom(ret, spectrum, n, sidj.idx);
      kept := order[..i + 1];
      assert kept[..i] == order[..i];
      i := i + 1;
    }
    assert order[..n] == order;
  }

  /** `ret` is the greedy selection `kept`. */
  ghost predicate IsFiltered(spectrum: FlatSpectrum, ratio: real, ret: FlatSpectrum, kept: seq<nat>)
    requires ColumnsAligned(spectrum, |spectrum.omega|)
  {
    && IsGreedy(spectrum.a, ratio, kept)
    && Indices(kept, |spectrum.omega|) && ret == Selection(spectrum, |spectrum.omega|, kept)
  }

  method Filter(spectrum: FlatSpectrum, ratio: real) returns (ret: FlatSpectrum)
    requires ColumnsAligned(spectrum, |spectrum.omega|)
    ensures exists kept :: IsFiltered(spectrum, ratio, ret, kept)
  {
    var n := |spectrum.omega|;
    var total, energy := CollectEnergies(spectrum.a);
    var sorted := SortDescending(energy);
    ghost var order := RankingBehind(energy, sorted);
    var maxEnergy := ratio * total;
    assert maxEnergy == Requested(spectrum.a, ratio);
    ghost var kept;
    ret, kept := TakeRays(spectrum, n, sorted, maxEnergy, order);
    PrefixIsFiltered(spectrum, ratio, order, ret, kept);
  }

  lemma RankingBehind(energy: seq<real>, sorted: seq<ValIdx>) returns (order: seq<nat>)
    requires Ranked(sorted) && |sorted| == |energy| && multiset(sorted) == multiset(Indexed(energy))
    ensures IsRanking(energy, order) && |order| == |energy|
    ensures forall i :: 0 <= i < |order| ==> sorted[i] == ValIdx(energy[order[i]], order[i])
  {
    order := seq(|sorted|, j requires 0 <= j < |sorted| => sorted[j].idx);
    RankingOfSorted(energy, sorted, order);
  }

  lemma PrefixIsFiltered(spectrum: FlatSpectrum, ratio: real, order: seq<nat>, ret: FlatSpectrum, kept: seq<nat>)
    requires ColumnsAligned(spectrum, |spectrum.omega|) && IsRanking(Energies(spectrum.a), order)
    requires IsShortestPrefix(Energies(spectrum.a), Requested(spectrum.a, ratio), order, kept)
    requires ret == Selection(spectrum, |spectrum.omega|, kept)
    ensures IsFiltered(spectrum, ratio, ret, kept)
  {
  }

  function PushFrom(ret: FlatSpectrum, f: FlatSpectrum, n: nat, idx: nat): FlatSpectrum
    requires ColumnsAligned(f, n) && idx < n
  {
    FlatSpectrum(ret.a + [f.a[idx]], ret.omega + [f.omega[idx]], ret.psi + [f.psi[idx]], ret.cosPsi + [f.cosPsi[idx]],
                 ret.sinPsi + [f.sinPsi[idx]], ret.k + [f.k[idx]], ret.phase)
  }

  lemma PickOneMore<T>(column: seq<T>, order: seq<nat>, i: nat)
    requires Indices(order, |column|) && i < |order|
    ensures Pick(column, order[..i + 1]) == Pick(column, order[..i]) + [column[order[i]]]
  {
  }

  lemma SelectionPush(f: FlatSpectrum, n: nat, order: seq<nat>, i: nat)
    requires ColumnsAligned(f, n) && Indices(order, n) && i < |order|
    ensures Selection(f, n, order[..i + 1]) == PushFrom(Selection(f, n, order[..i]), f, n, order[i])
  {
    PickOneMore(f.a, order, i);
    PickOneMore(f.omega, order, i);
    PickOneMore(f.psi, order, i);
    PickOneMore(f.cosPsi, order, i);
    PickOneMore(f.sinPsi, order, i);
    PickOneMore(f.k, order, i);
  }

  lemma PickPush(energy: seq<real>, order: seq<nat>, i: nat)
    requires Indices(order, |energy|) && i < |order|
    ensures Sum(Pick(energy, order[..i + 1])) == Sum(Pick(energy, order[..i])) + energy[order[i]]
  {
    var all := Pick(energy, order[..i + 1]);
    SumPush(all, i);
    assert all[..i] == Pick(energy, order[..i]);
    assert all[..i + 1] == all;
  }

  // ----- Optimality -----

  lemma RankingIsDistinct(energy: seq<real>, order: seq<nat>)
    requires IsRanking(energy, order)
    ensures Distinct(order)
  {
    forall i, j | 0 <= i < j < |order|
      ensures order[i] != order[j]
    {
      assert RanksBefore(ValIdx(energy[order[i]], order[i]), ValIdx(energy[order[j]], order[j]));
    }
  }

  function Elements(order: seq<nat>): set<nat> {
    set x | x in order
  }

  function Below(n: nat): set<nat> {
    if n == 0 then {} else Below(n - 1) + {n - 1}
  }

  lemma {:induction false} BelowIsExact(n: nat, x: nat)
    ensures x in Below(n) <==> x < n
    ensures |Below(n)| == n
  {
    if n > 0 {
      BelowIsExact(n - 1, x);
      BelowIsExact(n - 1, n - 1);
    }
  }

  lemma {:induction false} DistinctCount(order: seq<nat>)
    requires Distinct(order)
    ensures |Elements(order)| == |order|
  {
    if order != [] {
      var k := |order| - 1;
      DistinctCount(order[..k]);
      assert Elements(order) == Elements(order[..k]) + {order[k]};
    }
  }

  /** A list of n distinct indices below n holds each of them. */
  lemma DistinctCoversAll(order: seq<nat>, n: nat, x: nat)
    requires Distinct(order) && Indices(order, n) && |order| == n && x < n
    ensures x in order
  {
    if x !in order {
      DistinctCount(order);
      BelowIsExact(n, x);
      forall y | y in Elements(order)
        ensures y in Below(n) - {x}
      {
        BelowIsExact(n, y);
      }
      SubsetCount(Elements(order), Below(n) - {x});
      assert false;
    }
  }

  lemma {:induction false} SubsetCount(a: set<nat>, b: set<nat>)
    requires a <= b
    ensures |a| <= |b|
  {
    if a != {} {
      var x :| x in a;
      SubsetCount(a - {x}, b - {x});
    }
  }

  /** Energy of the entries of `order` that are in `chosen`. */
  ghost function SumIn(energy: seq<real>, order: seq<nat>, chosen: set<nat>): real
    requires Indices(order, |energy|)
  {
    if order == [] then 0.0
    else
      var k := |order| - 1;
      SumIn(energy, order[..k], chosen) + if order[k] in chosen then energy[order[k]] else 0.0
  }

  ghost function CountIn(order: seq<nat>, chosen: set<nat>): (count: nat)
    ensures count <= |order|
  {
    if order == [] then 0
    else
      var k := |order| - 1;
      CountIn(order[..k], chosen) + if order[k] in chosen then 1 else 0
  }

  lemma {:induction false} ChooseOneMore(energy: seq<real>, order: seq<nat>, chosen: set<nat>, x: nat)
    requires Indices(order, |energy|) && Distinct(order) && x < |energy| && x !in chosen
    ensures SumIn(energy, order, chosen + {x})
         == SumIn(energy, order, chosen) + if x in order then energy[x] else 0.0
    ensures CountIn(order, chosen + {x}) == CountIn(order, chosen) + if x in order then 1 else 0
  {
    if order != [] {
      var k := |order| - 1;
      ChooseOneMore(energy, order[..k], chosen, x);
      assert x in order <==> x in order[..k] || x == order[k];
      assert x in order[..k] ==> x != order[k];
    }
  }

  lemma {:induction false} ChooseNone(energy: seq<real>, order: seq<nat>)
    requires Indices(order, |energy|)
    ensures SumIn(energy, order, {}) == 0.0 && CountIn(order, {}) == 0
  {
    if order != [] {
      ChooseNone(energy, order[..|order| - 1]);
    }
  }

  /** A sum over distinct indices does not depend on their order. */
  lemma {:induction false} SumByRank(energy: seq<real>, order: seq<nat>, other: seq<nat>)
    requires Indices(order, |energy|) && Distinct(order) && |order| == |energy|
    requires Indices(other, |energy|) && Distinct(other)
    ensures SumIn(energy, order, Elements(other)) == Sum(Pick(energy, other))
    ensures CountIn(order, Elements(other)) == |other|
  {
    if other == [] {
      ChooseNone(energy, order);
      assert Elements(other) == {};
    } else {
      var k := |other| - 1;
      var front := other[..k];
      SumByRank(energy, order, front);
      DistinctCoversAll(order, |energy|, other[k]);
      ChooseOneMore(energy, order, Elements(front), other[k]);
      assert Elements(other) == Elements(front) + {other[k]};
      PickPush(energy, other, k);
      assert other[..k + 1] == other;
    }
  }

  /** No c entries of a descending list add up to more than the first c. */
  lemma {:induction false} FirstAreLargest(energy: seq<real>, order: seq<nat>, chosen: set<nat>)
    requires Indices(order, |energy|)
    requires forall i, j :: 0 <= i < j < |order| ==> energy[order[i]] >= energy[order[j]]
    ensures SumIn(energy, order, chosen) <= Sum(Pick(energy, order[..CountIn(order, chosen)]))
  {
    if order != [] {
      var k := |order| - 1;
      var front := order[..k];
      FirstAreLargest(energy, front, chosen);
      var c := CountIn(front, chosen);
      assert front[..c] == order[..c];
      if order[k] in chosen {
        PickPush(energy, order, c);
        assert energy[order[c]] >= energy[order[k]];
      }
    }
  }

  lemma TopIsLargest(energy: seq<real>, order: seq<nat>, other: seq<nat>)
    requires IsRanking(energy, order)
    requires Indices(other, |energy|) && Distinct(other)
    ensures |other| <= |order| && Sum(Pick(energy, other)) <= Sum(Pick(energy, order[..|other|]))
  {
    RankingIsDistinct(energy, order);
    SumByRank(energy, order, other);
    forall i, j | 0 <= i < j < |order|
      ensures energy[order[i]] >= energy[order[j]]
    {
      assert RanksBefore(ValIdx(energy[order[i]], order[i]), ValIdx(energy[order[j]], order[j]));
    }
    FirstAreLargest(energy, order, Elements(other));
  }

  lemma {:induction false} NonNegativeSums(v: seq<real>, i: nat, j: nat)
    requires i <= j <= |v| && forall l :: 0 <= l < |v| ==> v[l] >= 0.0
    ensures Sum(v[..i]) <= Sum(v[..j])
  {
    if i < j {
      NonNegativeSums(v, i, j - 1);
      SumPush(v, j - 1);
    }
  }

  lemma SameElementsSameSum(energy: seq<real>, order: seq<nat>, other: seq<nat>)
    requires Indices(order, |energy|) && Distinct(order) && |order| == |energy|
    requires Indices(other, |energy|) && Distinct(other) && |other| == |energy|
    ensures Sum(Pick(energy, order)) == Sum(Pick(energy, other))
  {
    SumByRank(energy, order, order);
    SumByRank(energy, order, other);
    forall x: nat
      ensures x in order <==> x in other
    {
      if x < |energy| {
        DistinctCoversAll(order, |energy|, x);
        DistinctCoversAll(other, |energy|, x);
      }
    }
    assert Elements(order) == Elements(other);
  }

  /** The whole ranking carries the whole energy. */
  lemma RankingHoldsAll(energy: seq<real>, order: seq<nat>)
    requires IsRanking(energy, order)
    ensures Sum(Pick(energy, order)) == Sum(energy)
  {
    var n := |energy|;
    var identity := seq(n, i requires 0 <= i < n => i as nat);
    RankingIsDistinct(energy, order);
    SameElementsSameSum(energy, order, identity);
    assert Pick(energy, identity) == energy;
  }

  lemma PickPrefixGrows(a: seq<real>, order: seq<nat>, i: nat, j: nat)
    requires Indices(order, |a|) && i <= j <= |order|
    ensures Sum(Pick(Energies(a), order[..i])) <= Sum(Pick(Energies(a), order[..j]))
  {
    var ranked := Pick(Energies(a), order);
    NonNegativeSums(ranked, i, j);
    assert ranked[..i] == Pick(Energies(a), order[..i]);
    assert ranked[..j] == Pick(Energies(a), order[..j]);
  }

  lemma PrefixIsDescending(energy: seq<real>, target: real, order: seq<nat>, kept: seq<nat>)
    requires IsRanking(energy, order) && IsShortestPrefix(energy, target, order, kept)
    ensures Indices(kept, |energy|) && Distinct(kept)
    ensures forall i, j :: 0 <= i < j < |kept| ==> energy[kept[i]] >= energy[kept[j]]
  {
    RankingIsDistinct(energy, order);
    forall i, j | 0 <= i < j < |kept|
      ensures energy[kept[i]] >= energy[kept[j]]
    {
      assert RanksBefore(ValIdx(energy[order[i]], order[i]), ValIdx(energy[order[j]], order[j]));
    }
  }

  /** The rays kept are distinct and in descending order of energy. */
  lemma KeptIsDescending(a: seq<real>, ratio: real, kept: seq<nat>)
    requires IsGreedy(a, ratio, kept)
    ensures Indices(kept, |a|) && Distinct(kept)
    ensures forall i, j :: 0 <= i < j < |kept| ==> Energies(a)[kept[i]] >= Energies(a)[kept[j]]
  {
    var target := Requested(a, ratio);
    var order :| IsRanking(Energies(a), order) && IsShortestPrefix(Energies(a), target, order, kept);
    PrefixIsDescending(Energies(a), target, order, kept);
  }

  lemma ShorterThanPrefix(a: seq<real>, target: real, order: seq<nat>, kept: seq<nat>, other: seq<nat>)
    requires IsRanking(Energies(a), order) && IsShortestPrefix(Energies(a), target, order, kept)
    requires Indices(other, |a|) && Distinct(other) && |other| < |kept|
    ensures Sum(Pick(Energies(a), other)) < target
  {
    TopIsLargest(Energies(a), order, other);
    PickPrefixGrows(a, order, |other|, |kept| - 1);
    assert kept[..|kept| - 1] == order[..|kept| - 1];
  }

  /** No smaller set of rays holds the requested share of the energy. */
  lemma NoSmallerSelection(a: seq<real>, ratio: real, kept: seq<nat>, other: seq<nat>)
    requires IsGreedy(a, ratio, kept)
    requires Indices(other, |a|) && Distinct(other) && |other| < |kept|
    ensures Sum(Pick(Energies(a), other)) < ratio * Sum(Energies(a))
  {
    var target := Requested(a, ratio);
    var order :| IsRanking(Energies(a), order) && IsShortestPrefix(Energies(a), target, order, kept);
    ShorterThanPrefix(a, target, order, kept, other);
  }

  lemma PrefixBelowWhole(a: seq<real>, target: real, order: seq<nat>, kept: seq<nat>)
    requires IsRanking(Energies(a), order) && IsShortestPrefix(Energies(a), target, order, kept)
    ensures 0.0 <= Sum(Pick(Energies(a), kept)) <= Sum(Energies(a))
    ensures Sum(Pick(Energies(a), kept)) >= target <==> target <= Sum(Energies(a))
  {
    RankingHoldsAll(Energies(a), order);
    PickPrefixGrows(a, order, 0, |kept|);
    PickPrefixGrows(a, order, |kept|, |order|);
    assert order[..0] == [] && order[..|kept|] == kept && order[..|order|] == order;
  }

  lemma HoldsRequest(a: seq<real>, ratio: real, kept: seq<nat>)
    requires IsGreedy(a, ratio, kept)
    ensures Indices(kept, |a|)
    ensures Sum(Pick(Energies(a), kept)) >= Requested(a, ratio) <==> ratio <= 1.0 || Sum(Energies(a)) == 0.0
  {
    var target := Requested(a, ratio);
    var order :| IsRanking(Energies(a), order) && IsShortestPrefix(Energies(a), target, order, kept);
    PrefixBelowWhole(a, target, order, kept);
    RequestWithinWhole(a, ratio, Sum(Energies(a)));
  }

  /** The rays kept hold the requested share if and only if the share is at most the whole, or there is
      no energy at all. */
  lemma HoldsRequestedShare(a: seq<real>, ratio: real, kept: seq<nat>)
    requires IsGreedy(a, ratio, kept)
    ensures Indices(kept, |a|)
    ensures Sum(Pick(Energies(a), kept)) >= ratio * Sum(Energies(a)) <==> ratio <= 1.0 || Sum(Energies(a)) == 0.0
  {
    HoldsRequest(a, ratio, kept);
  }

  lemma RequestWithinWhole(a: seq<real>, ratio: real, total: real)
    requires total == Sum(Energies(a)) >= 0.0
    ensures Requested(a, ratio) <= total <==> ratio <= 1.0 || total == 0.0
  {
    if ratio > 1.0 && total > 0.0 {
      assert (ratio - 1.0) * total > 0.0;
    } else if ratio <= 1.0 {
      assert (1.0 - ratio) * total >= 0.0;
    }
  }

  // ----- Filtering a flattened spectrum -----

  lemma {:induction false} SumOfEnergies(a: seq<real>)
    ensures SumOfSquares(a) == Sum(Energies(a))
  {
    if a != [] {
      SumOfEnergies(a[..|a| - 1]);
      assert Energies(a[..|a| - 1]) == Energies(a)[..|a| - 1];
    }
  }

  lemma PickedEnergies(a: seq<real>, kept: seq<nat>)
    requires Indices(kept, |a|)
    ensures SumOfSquares(Pick(a, kept)) == Sum(Pick(Energies(a), kept))
  {
    SumOfEnergies(Pick(a, kept));
    assert Energies(Pick(a, kept)) == Pick(Energies(a), kept);
  }

  lemma FlatteningIsAligned(f: Functions, s: Spectrum)
    requires SizesAgree(s)
    ensures ColumnsAligned(Flattening(f, s), |s.omega| * |s.psi|)
  {
    RayIndex(f, s, Flattening(f, s), 0, 0, 0);
  }

  lemma KeptShare(a: seq<real>, ratio: real, kept: seq<nat>, whole: real)
    requires IsGreedy(a, ratio, kept) && SumOfSquares(a) == whole
    ensures Indices(kept, |a|)
    ensures SumOfSquares(Pick(a, kept)) >= Share(ratio, whole) <==> ratio <= 1.0 || whole == 0.0
  {
    HoldsRequest(a, ratio, kept);
    SumOfEnergies(a);
    PickedEnergies(a, kept);
  }

  /** A flattened spectrum can be filtered, and the rays kept hold the ratio of twice the product of its two
      integrals, if and only if the ratio is at most 1 or the product is zero. */
  lemma FilteredFlattening(f: Functions, s: Spectrum, ratio: real, kept: seq<nat>, whole: real)
    requires SizesAgree(s) && IsPhysical(s) && IsSqrt(f.sqrt)
    requires IsGreedy(Flattening(f, s).a, ratio, kept)
    requires whole == Twice(Integral(s.omega, s.si), Integral(s.psi, s.dj))
    ensures var (flat, n) := (Flattening(f, s), |s.omega| * |s.psi|);
            && ColumnsAligned(flat, n) && Indices(kept, n)
            && (SumOfSquares(Selection(flat, n, kept).a) >= Share(ratio, whole) <==> ratio <= 1.0 || whole == 0.0)
  {
    FlatteningIsAligned(f, s);
    FlattenConservesEnergy(f, s);
    KeptShare(Flattening(f, s).a, ratio, kept, whole);
  }

  /** Entry i of every column of the result is the entry at kept[i] of the same column of the input; there are no
      phases. */
  lemma FilteredColumns(spectrum: FlatSpectrum, ratio: real, ret: FlatSpectrum, kept: seq<nat>, i: nat)
    requires ColumnsAligned(spectrum, |spectrum.omega|) && IsFiltered(spectrum, ratio, ret, kept) && i < |kept|
    ensures ColumnsAligned(ret, |kept|) && ret.phase == [] && kept[i] < |spectrum.omega|
    ensures ret.a[i] == spectrum.a[kept[i]] && ret.omega[i] == spectrum.omega[kept[i]]
    ensures ret.psi[i] == spectrum.psi[kept[i]] && ret.k[i] == spectrum.k[kept[i]]
    ensures ret.cosPsi[i] == spectrum.cosPsi[kept[i]] && ret.sinPsi[i] == spectrum.sinPsi[kept[i]]
  {
  }

  lemma RowOfRay(n: nat, m: nat, p: nat, q: nat)
    requires p * m + q < n * m
    ensures p < n
  {
    assert (p - n) * m == p * m - n * m;
  }

  /** A ray kept of a flattened spectrum has the frequency p and the direction q of its place in all columns. */
  lemma FilteredRay(f: Functions, s: Spectrum, flat: FlatSpectrum, ratio: real, ret: FlatSpectrum, kept: seq<nat>,
                    i: nat, p: nat, q: nat)
    requires SizesAgree(s) && flat == Flattening(f, s) && ColumnsAligned(flat, |flat.omega|)
    requires IsFiltered(flat, ratio, ret, kept) && i < |kept|
    requires kept[i] == p * |s.psi| + q && q < |s.psi|
    ensures p < |s.omega| && ColumnsAligned(ret, |kept|)
    ensures ret.omega[i] == s.omega[p] && ret.k[i] == s.k[p]
    ensures ret.psi[i] == s.psi[q] && ret.cosPsi[i] == f.cos(s.psi[q]) && ret.sinPsi[i] == f.sin(s.psi[q])
  {
    FlatteningIsAligned(f, s);
    FilteredColumns(flat, ratio, ret, kept, i);
    RowOfRay(|s.omega|, |s.psi|, p, q);
    RayIndex(f, s, flat, p, q, kept[i]);
  }
}
