/** How long the `int` arithmetic of WaveDirectionalSpreading::build_coprimes stays in range. Of all values
    computed for a pair, 2m + p is the largest, and it grows fastest along the last child rule. */
module IntRange {
  import opened CoprimePairs

  const INT_MAX := 0x7fff_ffff

  predicate InRange(value: int) {
    -INT_MAX - 1 <= value <= INT_MAX
  }

  /** The values that the source computes, in `int`, from the pair it takes. */
  predicate FitsInt(x: Pair) {
    && InRange(2 * x.m) && InRange(2 * x.m - x.p) && InRange(2 * x.p) && InRange(x.m + 2 * x.p)
    && InRange(2 * x.m + x.p)
  }

  lemma LargestValue(x: Pair)
    requires Positive(x)
    ensures FitsInt(x) <==> 2 * x.m + x.p <= INT_MAX
  {
  }

  /** The largest value computed after `levels` steps along the last rule. */
  function Peak(x: Pair, levels: nat): int
    decreases levels
  {
    if levels == 0 then 2 * x.m + x.p else Peak(Child(x, 2), levels - 1)
  }

  predicate Positive(x: Pair) {
    x.m > x.p >= 1
  }

  lemma {:induction false} PeakGrows(x: Pair, y: Pair, levels: nat)
    requires x.m <= y.m && x.p <= y.p
    ensures Peak(x, levels) <= Peak(y, levels)
    decreases levels
  {
    if levels > 0 {
      PeakGrows(Child(x, 2), Child(y, 2), levels - 1);
    }
  }

  lemma LastRuleIsLargest(x: Pair, rule: nat, levels: nat)
    requires Positive(x) && rule < 3
    ensures Positive(Child(x, rule)) && Peak(Child(x, rule), levels) <= Peak(x, levels + 1)
  {
    PeakGrows(Child(x, rule), Child(x, 2), levels);
  }

  lemma {:induction false} NodeIsPositive(root: Pair, k: nat)
    requires Positive(root)
    ensures Positive(Node(root, k))
  {
    if k > 0 {
      NodeIsPositive(root, (k - 1) / 3);
      LastRuleIsLargest(Node(root, (k - 1) / 3), (k - 1) % 3, 0);
    }
  }

  /** Along the path to position k, everything to the left of the path peaks within range. */
  predicate LeftFits(root: Pair, k: nat, levels: nat) {
    k == 0 ||
    var parent := (k - 1) / 3;
    && Peak(root, levels) <= INT_MAX
    && LeftFits(root, parent, levels + 1)
    && ((k - 1) % 3 > 0 ==> Peak(Child(Node(root, parent), 0), levels) <= INT_MAX)
    && ((k - 1) % 3 > 1 ==> Peak(Child(Node(root, parent), 1), levels) <= INT_MAX)
  }

  /** So every earlier position does. */
  lemma {:induction false} EarlierPeaks(root: Pair, bound: nat, levels: nat, k: nat)
    requires Positive(root) && LeftFits(root, bound, levels) && k < bound
    ensures Peak(Node(root, k), levels) <= INT_MAX
    decreases k
  {
    if k > 0 {
      var parent, last := (k - 1) / 3, (bound - 1) / 3;
      if parent < last {
        EarlierPeaks(root, last, levels + 1, parent);
        NodeIsPositive(root, parent);
        LastRuleIsLargest(Node(root, parent), (k - 1) % 3, levels);
      }
    }
  }

  lemma {:induction false} PeakRises(x: Pair, levels: nat)
    requires Positive(x)
    ensures Peak(x, levels) <= Peak(x, levels + 1)
    decreases levels
  {
    if levels > 0 {
      PeakRises(Child(x, 2), levels - 1);
    }
  }

  // ----- Paths that end in the same rule over and over -----

  /** Position reached from k by n steps along the same rule. */
  function Tail(k: nat, rule: nat, n: nat): nat
    decreases n
  {
    if n == 0 then k else Tail(3 * k + 1 + rule, rule, n - 1)
  }

  lemma StepLeft(root: Pair, k: nat, rule: nat, levels: nat, child: nat)
    requires rule < 3 && child == 3 * k + 1 + rule
    requires LeftFits(root, k, levels + 1) && Peak(root, levels) <= INT_MAX
    requires rule > 0 ==> Peak(Child(Node(root, k), 0), levels) <= INT_MAX
    requires rule > 1 ==> Peak(Child(Node(root, k), 1), levels) <= INT_MAX
    ensures LeftFits(root, child, levels) && Node(root, child) == Child(Node(root, k), rule)
  {
    assert (child - 1) / 3 == k && (child - 1) % 3 == rule;
  }

  lemma {:induction false} FirstRuleTail(root: Pair, k: nat, n: nat)
    requires Positive(root) && LeftFits(root, k, n) && Peak(root, n) <= INT_MAX
    ensures LeftFits(root, Tail(k, 0, n), 0)
    decreases n
  {
    if n > 0 {
      PeakRises(root, n - 1);
      StepLeft(root, k, 0, n - 1, 3 * k + 1);
      FirstRuleTail(root, 3 * k + 1, n - 1);
    }
  }

  lemma {:induction false} PeakScales(x: Pair, y: Pair, levels: nat)
    requires 20 * x.m <= 19 * y.m && 20 * x.p <= 19 * y.p
    ensures 20 * Peak(x, levels) <= 19 * Peak(y, levels)
    decreases levels
  {
    if levels > 0 {
      PeakScales(Child(x, 2), Child(y, 2), levels - 1);
    }
  }

  predicate Middling(x: Pair) {
    Positive(x) && 3 * x.p <= 2 * x.m && x.m <= 3 * x.p
  }

  /** The other two rules peak at least one twentieth below the last one. */
  lemma OtherRulesPeakLower(x: Pair, levels: nat)
    requires Middling(x)
    ensures Middling(Child(x, 2))
    ensures 20 * Peak(Child(x, 0), levels) <= 19 * Peak(x, levels + 1)
    ensures 20 * Peak(Child(x, 1), levels) <= 19 * Peak(x, levels + 1)
  {
    PeakScales(Child(x, 1), Child(x, 2), levels);
    if levels > 0 {
      PeakScales(Child(Child(x, 0), 2), Child(Child(x, 2), 2), levels - 1);
    }
  }

  lemma {:induction false} LastRuleTail(root: Pair, k: nat, n: nat)
    requires Positive(root) && LeftFits(root, k, n) && Peak(root, n) <= INT_MAX
    requires Middling(Node(root, k)) && 19 * Peak(Node(root, k), n) <= 20 * INT_MAX
    ensures LeftFits(root, Tail(k, 2, n), 0)
    ensures Peak(Node(root, Tail(k, 2, n)), 0) == Peak(Node(root, k), n)
    decreases n
  {
    if n > 0 {
      var x := Node(root, k);
      PeakRises(root, n - 1);
      OtherRulesPeakLower(x, n - 1);
      StepLeft(root, k, 2, n - 1, 3 * k + 3);
      LastRuleTail(root, 3 * k + 3, n - 1);
    }
  }

  lemma {:induction false} FourLevels(x: Pair, levels: nat, y: Pair)
    requires y == Pair(29 * x.m + 12 * x.p, 12 * x.m + 5 * x.p)
    ensures Peak(x, levels + 4) == Peak(y, levels)
  {
    var x1 := Child(x, 2);
    var x2 := Child(x1, 2);
    var x3 := Child(x2, 2);
    assert Peak(x, levels + 4) == Peak(x1, levels + 3) == Peak(x2, levels + 2) == Peak(x3, levels + 1);
  }

  lemma EightLevels(x: Pair, levels: nat)
    ensures Peak(x, levels + 8) == Peak(Pair(985 * x.m + 408 * x.p, 408 * x.m + 169 * x.p), levels)
  {
    var y := Pair(29 * x.m + 12 * x.p, 12 * x.m + 5 * x.p);
    FourLevels(x, levels + 4, y);
    FourLevels(y, levels, Pair(985 * x.m + 408 * x.p, 408 * x.m + 169 * x.p));
  }

  lemma SixteenLevels(x: Pair, levels: nat)
    ensures Peak(x, levels + 16)
         == Peak(Pair(1_136_689 * x.m + 470_832 * x.p, 470_832 * x.m + 195_025 * x.p), levels)
  {
    var y := Pair(985 * x.m + 408 * x.p, 408 * x.m + 169 * x.p);
    EightLevels(x, levels + 8);
    EightLevels(y, levels);
  }

  lemma LastFour(x: Pair, levels: nat)
    requires levels == 4
    ensures Peak(x, levels) == 70 * x.m + 29 * x.p
  {
    FourLevels(x, levels - 4, Pair(29 * x.m + 12 * x.p, 12 * x.m + 5 * x.p));
  }

  /** Twenty levels multiply by Pell numbers. */
  lemma {:induction false} TwentyLevels(x: Pair, levels: nat)
    requires levels == 20
    ensures Peak(x, levels) == 93_222_358 * x.m + 38_613_965 * x.p
  {
    var y := Pair(1_136_689 * x.m + 470_832 * x.p, 470_832 * x.m + 195_025 * x.p);
    SixteenLevels(x, levels - 16);
    LastFour(y, levels - 16);
  }

  lemma FourTails(k: nat, rule: nat, n: nat)
    ensures Tail(k, rule, n + 4) == Tail(81 * k + 40 * (1 + rule), rule, n)
  {
    var k1 := 3 * k + 1 + rule;
    var k2 := 3 * k1 + 1 + rule;
    var k3 := 3 * k2 + 1 + rule;
    assert Tail(k, rule, n + 4) == Tail(k1, rule, n + 3) == Tail(k2, rule, n + 2) == Tail(k3, rule, n + 1);
  }

  lemma TwentyTails(k: nat, rule: nat)
    ensures Tail(k, rule, 20) == 3_486_784_401 * k + 1_743_392_200 * (1 + rule)
  {
    var k1 := 81 * k + 40 * (1 + rule);
    var k2 := 81 * k1 + 40 * (1 + rule);
    var k3 := 81 * k2 + 40 * (1 + rule);
    var k4 := 81 * k3 + 40 * (1 + rule);
    FourTails(k, rule, 16);
    FourTails(k1, rule, 12);
    FourTails(k2, rule, 8);
    FourTails(k3, rule, 4);
    FourTails(k4, rule, 0);
  }

  // ----- The first overflow -----

  const FIRST_OVERFLOW: nat := 61_018_727_016

  /** Rules 0, 1, 0 from (3, 1) lead to (19, 11), at position 16. */
  lemma OddStart(levels: nat)
    requires levels == 20
    ensures LeftFits(ODD_ROOT, 16, levels) && Node(ODD_ROOT, 16) == Pair(19, 11) && Peak(ODD_ROOT, levels) <= INT_MAX
  {
    TwentyLevels(Pair(17, 7), levels);
    assert Peak(ODD_ROOT, levels + 2) == Peak(Pair(7, 3), levels + 1) == Peak(Pair(17, 7), levels);
    PeakRises(ODD_ROOT, levels + 1);
    PeakRises(ODD_ROOT, levels);
    StepLeft(ODD_ROOT, 0, 0, levels + 2, 1);
    TwentyLevels(Pair(19, 7), levels);
    assert Peak(Pair(7, 5), levels + 1) == Peak(Pair(19, 7), levels);
    StepLeft(ODD_ROOT, 1, 1, levels + 1, 5);
    StepLeft(ODD_ROOT, 5, 0, levels, 16);
  }

  /** From there the last rule is followed twenty times. */
  lemma OddPath() returns (first: nat)
    ensures first == FIRST_OVERFLOW
    ensures LeftFits(ODD_ROOT, first, 0) && Peak(Node(ODD_ROOT, first), 0) > INT_MAX
  {
    var start, levels := 16, 20;
    OddStart(levels);
    TwentyLevels(Pair(19, 11), levels);
    LastRuleTail(ODD_ROOT, start, levels);
    first := Tail(start, 2, levels);
    TwentyTails(start, 2);
  }

  /** Rules 0 and 2 from (2, 1) lead to position 6. */
  lemma EvenStart(levels: nat)
    requires levels == 20
    ensures LeftFits(EVEN_ROOT, 6, levels + 1) && Peak(EVEN_ROOT, levels + 1) <= INT_MAX
  {
    TwentyLevels(Pair(12, 5), levels);
    assert Peak(EVEN_ROOT, levels + 2) == Peak(Pair(5, 2), levels + 1) == Peak(Pair(12, 5), levels);
    PeakRises(EVEN_ROOT, levels + 1);
    StepLeft(EVEN_ROOT, 0, 0, levels + 2, 1);
    TwentyLevels(Pair(11, 4), levels);
    assert Peak(Pair(4, 3), levels + 1) == Peak(Pair(11, 4), levels);
    TwentyLevels(Pair(16, 7), levels);
    assert Peak(Pair(7, 2), levels + 1) == Peak(Pair(16, 7), levels);
    StepLeft(EVEN_ROOT, 1, 2, levels + 1, 6);
  }

  /** The even queue is safe for longer. */
  lemma EvenPath() returns (bound: nat)
    ensures LeftFits(EVEN_ROOT, bound, 0) && bound > FIRST_OVERFLOW
  {
    var start, levels := 6, 20;
    EvenStart(levels);
    FirstRuleTail(EVEN_ROOT, start, levels + 1);
    bound := Tail(start, 0, levels + 1);
    TwentyTails(3 * start + 1, 0);
  }

  lemma SafeTurn(j: nat)
    requires j < 2 * FIRST_OVERFLOW + 1
    ensures FitsInt(Taken(j))
  {
    if j % 2 == 0 {
      var bound := EvenPath();
      EarlierPeaks(EVEN_ROOT, bound, 0, j / 2);
      NodeIsPositive(EVEN_ROOT, j / 2);
      LargestValue(Taken(j));
    } else {
      var first := OddPath();
      EarlierPeaks(ODD_ROOT, first, 0, j / 2);
      NodeIsPositive(ODD_ROOT, j / 2);
      LargestValue(Taken(j));
    }
  }

  lemma OddTurn(k: nat)
    ensures Taken(2 * k + 1) == Node(ODD_ROOT, k)
  {
    assert (2 * k + 1) / 2 == k && (2 * k + 1) % 2 == 1;
  }

  lemma UnsafeTurn() returns (j: nat)
    ensures j == 2 * FIRST_OVERFLOW + 1 && !FitsInt(Taken(j))
  {
    var first := OddPath();
    j := 2 * first + 1;
    OddTurn(first);
  }

  /** Largest n for which every value computed while building n entries fits an int. */
  const SAFE_COUNT: nat := 976_299_632_264

  /** No int overflows while n entries are built if and only if n is at most SAFE_COUNT. */
  lemma NoIntOverflowIff(n: nat)
    ensures (forall j: nat :: 8 * j < n ==> FitsInt(Taken(j))) <==> n <= SAFE_COUNT
  {
    if n <= SAFE_COUNT {
      forall j: nat | 8 * j < n ensures FitsInt(Taken(j)) {
        SafeTurn(j);
      }
    } else {
      var j := UnsafeTurn();
    }
  }
}
