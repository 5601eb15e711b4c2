/** The two ternary trees of coprime pairs that WaveDirectionalSpreading::build_coprimes walks.

    A queue that always appends the three children of the entry it reads lists a ternary tree in
    breadth-first order, so entry k > 0 is a child of entry (k - 1) / 3. `Node` is that view of a
    queue; `BuildCoprimes` is the loop over the two queues. */
module CoprimePairs {

  datatype Pair = Pair(m: int, p: int)

  const EVEN_ROOT := Pair(2, 1)
  const ODD_ROOT := Pair(3, 1)

  function Child(x: Pair, rule: nat): Pair
    requires rule < 3
  {
    match rule
    case 0 => Pair(2 * x.m - x.p, x.m)
    case 1 => Pair(x.m + 2 * x.p, x.p)
    case _ => Pair(2 * x.m + x.p, x.m)
  }

  function Children(x: Pair): seq<Pair> {
    [Child(x, 0), Child(x, 1), Child(x, 2)]
  }

  /** Entry k of the queue that starts with `root`. */
  function Node(root: Pair, k: nat): Pair {
    if k == 0 then root else Child(Node(root, (k - 1) / 3), (k - 1) % 3)
  }

  lemma NodeOfChild(root: Pair, k: nat, rule: nat, child: nat)
    requires rule < 3 && child == 3 * k + 1 + rule
    ensures Node(root, child) == Child(Node(root, k), rule)
  {
    assert (child - 1) / 3 == k && (child - 1) % 3 == rule;
  }

  /** The j-th pair taken: even turns read the even queue, odd turns the odd one. */
  function Taken(j: nat): Pair {
    if j % 2 == 0 then Node(EVEN_ROOT, j / 2) else Node(ODD_ROOT, j / 2)
  }

  predicate IsQueue(root: Pair, queue: seq<Pair>, index: nat) {
    |queue| == 1 + 3 * index && forall k :: 0 <= k < |queue| ==> queue[k] == Node(root, k)
  }

  lemma PushChildren(root: Pair, queue: seq<Pair>, index: nat)
    requires IsQueue(root, queue, index)
    ensures queue[index] == Node(root, index)
    ensures IsQueue(root, queue + Children(queue[index]), index + 1)
  {
    var longer := queue + Children(queue[index]);
    forall k | 0 <= k < |longer|
      ensures longer[k] == Node(root, k)
    {
      if k >= |queue| {
        assert (k - 1) / 3 == index;
      }
    }
  }

  /** Every pair appears eight times in a row. */
  predicate IsListing(coprimes: seq<Pair>) {
    forall i :: 0 <= i < |coprimes| ==> coprimes[i] == Taken(i / 8)
  }

  lemma PushTaken(coprimes: seq<Pair>, turn: nat)
    requires IsListing(coprimes) && 8 * turn <= |coprimes| < 8 * turn + 8
    ensures IsListing(coprimes + [Taken(turn)])
  {
    assert |coprimes| / 8 == turn;
  }

  lemma TakenFromQueue(root: Pair, queue: seq<Pair>, index: nat, turn: nat)
    requires IsQueue(root, queue, index)
    requires (root == EVEN_ROOT && turn == 2 * index) || (root == ODD_ROOT && turn == 2 * index + 1)
    ensures queue[index] == Taken(turn)
  {
    PushChildren(root, queue, index);
    assert turn / 2 == index;
  }

  method BuildCoprimes(n: nat) returns (coprimes: seq<Pair>)
    ensures |coprimes| == n && IsListing(coprimes)
  {
    coprimes := [];
    var evenCoprimes, oddCoprimes := [EVEN_ROOT], [ODD_ROOT];
    var evenIndex, oddIndex := 0, 0;
    var takeEven := true;
    while |coprimes| < n
      invariant evenIndex == oddIndex + (if takeEven then 0 else 1)
      invariant IsQueue(EVEN_ROOT, evenCoprimes, evenIndex) && IsQueue(ODD_ROOT, oddCoprimes, oddIndex)
      invariant |coprimes| <= n
      invariant |coprimes| < n ==> |coprimes| == 8 * (evenIndex + oddIndex)
      invariant IsListing(coprimes)
    {
      ghost var turn := evenIndex + oddIndex;
      var branch := if takeEven then evenCoprimes else oddCoprimes;
      var index := if takeEven then evenIndex else oddIndex;
      var current := branch[index];
      TakenFromQueue(if takeEven then EVEN_ROOT else ODD_ROOT, branch, index, turn);
      PushChildren(if takeEven then EVEN_ROOT else ODD_ROOT, branch, index);
      branch := branch + Children(current);
      index := index + 1;
      if takeEven {
        evenCoprimes, evenIndex := branch, index;
      } else {
        oddCoprimes, oddIndex := branch, index;
      }
      takeEven := !takeEven;
      var i := 0;
      while i < 8 && |coprimes| < n
        invariant 0 <= i <= 8 && |coprimes| == 8 * turn + i <= n
        invariant IsListing(coprimes)
      {
        PushTaken(coprimes, turn);
        coprimes := coprimes + [current];
        i := i + 1;
      }
    }
  }

  // ----- The list, entry by entry -----

  lemma TurnsOfChildren(j: nat, first: nat, x: Pair)
    requires x == Taken(j) && first == (if j % 2 == 0 then 3 * j + 2 else 3 * j)
    ensures Taken(first) == Child(x, 0) && Taken(first + 2) == Child(x, 1) && Taken(first + 4) == Child(x, 2)
  {
    var k, root := j / 2, if j % 2 == 0 then EVEN_ROOT else ODD_ROOT;
    assert first / 2 == 3 * k + 1 && first % 2 == j % 2;
    NodeOfChild(root, k, 0, 3 * k + 1);
    NodeOfChild(root, k, 1, 3 * k + 2);
    NodeOfChild(root, k, 2, 3 * k + 3);
  }

  /** It starts with (2, 1) and (3, 1), every pair fills eight entries, and the three children of the pair of turn
      j are taken at every second turn from `first` on. */
  lemma ListIsRecurrent(coprimes: seq<Pair>, j: nat, first: nat, x: Pair)
    requires IsListing(coprimes) && 8 * j < |coprimes| && x == coprimes[8 * j]
    requires first == (if j % 2 == 0 then 3 * j + 2 else 3 * j)
    ensures coprimes[0] == Pair(2, 1) && (8 < |coprimes| ==> coprimes[8] == Pair(3, 1))
    ensures forall i :: 8 * j <= i < 8 * j + 8 && i < |coprimes| ==> coprimes[i] == x
    ensures 8 * first < |coprimes| ==> coprimes[8 * first] == Pair(2 * x.m - x.p, x.m)
    ensures 8 * (first + 2) < |coprimes| ==> coprimes[8 * (first + 2)] == Pair(x.m + 2 * x.p, x.p)
    ensures 8 * (first + 4) < |coprimes| ==> coprimes[8 * (first + 4)] == Pair(2 * x.m + x.p, x.m)
  {
    assert 8 * j / 8 == j;
    TurnsOfChildren(j, first, x);
    assert 8 * first / 8 == first && 8 * (first + 2) / 8 == first + 2 && 8 * (first + 4) / 8 == first + 4;
  }

  // ----- Every pair taken is coprime -----

  predicate IsProduct(a: int, q: int, d: int) {
    a == q * d
  }

  ghost predicate Divides(d: int, a: int) {
    d > 0 && exists q :: IsProduct(a, q, d)
  }

  ghost predicate Coprime(a: int, b: int) {
    forall d :: Divides(d, a) && Divides(d, b) ==> d == 1
  }

  ghost predicate IsCoprimePair(x: Pair) {
    x.m > x.p >= 1 && Coprime(x.m, x.p)
  }

  predicate OppositeParity(x: Pair) {
    (x.m + x.p) % 2 == 1
  }

  lemma DividesCombination(d: int, a: int, b: int, x: int, y: int)
    requires Divides(d, a) && Divides(d, b)
    ensures Divides(d, x * a + y * b)
  {
    var q :| IsProduct(a, q, d);
    var r :| IsProduct(b, r, d);
    assert x * (q * d) == (x * q) * d && y * (r * d) == (y * r) * d;
    assert IsProduct(x * a + y * b, x * q + y * r, d);
  }

  /** If each of a and b is a combination of c and e, coprimality passes from (a, b) to (c, e). */
  lemma CoprimeCombination(a: int, b: int, c: int, e: int, x: int, y: int, u: int, v: int)
    requires Coprime(a, b)
    requires a == x * c + y * e && b == u * c + v * e
    ensures Coprime(c, e)
  {
    forall d | Divides(d, c) && Divides(d, e)
      ensures d == 1
    {
      DividesCombination(d, c, e, x, y);
      DividesCombination(d, c, e, u, v);
    }
  }

  lemma ChildIsCoprimePair(x: Pair, rule: nat)
    requires rule < 3 && IsCoprimePair(x)
    ensures IsCoprimePair(Child(x, rule))
  {
    var c := Child(x, rule);
    match rule
    case 0 => CoprimeCombination(x.m, x.p, c.m, c.p, 0, 1, -1, 2);
    case 1 => CoprimeCombination(x.m, x.p, c.m, c.p, 1, -2, 0, 1);
    case _ => CoprimeCombination(x.m, x.p, c.m, c.p, 0, 1, 1, -2);
  }

  lemma ChildParity(x: Pair, rule: nat)
    requires rule < 3
    ensures OppositeParity(Child(x, rule)) == OppositeParity(x)
  {
    var c := Child(x, rule);
    var half := match rule case 0 => x.m - x.p case 1 => x.p case _ => x.m;
    assert c.m + c.p == x.m + x.p + 2 * half;
  }

  lemma RootsAreCoprime()
    ensures IsCoprimePair(EVEN_ROOT) && OppositeParity(EVEN_ROOT)
    ensures IsCoprimePair(ODD_ROOT) && !OppositeParity(ODD_ROOT)
  {
    forall d | Divides(d, 1)
      ensures d == 1
    {
      var q :| IsProduct(1, q, d);
    }
  }

  lemma {:induction false} NodeIsCoprimePair(root: Pair, k: nat)
    requires IsCoprimePair(root)
    ensures IsCoprimePair(Node(root, k))
    ensures OppositeParity(Node(root, k)) == OppositeParity(root)
  {
    if k > 0 {
      NodeIsCoprimePair(root, (k - 1) / 3);
      ChildIsCoprimePair(Node(root, (k - 1) / 3), (k - 1) % 3);
      ChildParity(Node(root, (k - 1) / 3), (k - 1) % 3);
    }
  }

  lemma CoprimePairWithEvenSum(x: Pair)
    requires IsCoprimePair(x) && !OppositeParity(x)
    ensures x.m % 2 == 1 && x.p % 2 == 1
  {
    if x.m % 2 == 0 {
      EvenIsDivisible(x.m);
      EvenIsDivisible(x.p);
    }
  }

  lemma EvenIsDivisible(a: int)
    requires a % 2 == 0
    ensures Divides(2, a)
  {
    assert IsProduct(a, a / 2, 2);
  }

  /** Soundness: a coprime pair m > p >= 1 at every turn, of opposite parity on even turns and with
      two odd members on odd turns. */
  lemma TakenIsCoprimePair(j: nat)
    ensures IsCoprimePair(Taken(j))
    ensures OppositeParity(Taken(j)) == (j % 2 == 0)
    ensures j % 2 == 1 ==> Taken(j).m % 2 == 1 && Taken(j).p % 2 == 1
  {
    RootsAreCoprime();
    NodeIsCoprimePair(if j % 2 == 0 then EVEN_ROOT else ODD_ROOT, j / 2);
    var x := Taken(j);
    if j % 2 == 1 {
      CoprimePairWithEvenSum(x);
    }
  }

  lemma TakenIsOrdered(j: nat)
    ensures Taken(j).m > Taken(j).p >= 1
  {
    TakenIsCoprimePair(j);
  }

  // ----- Every coprime pair is taken, exactly once -----

  /** Which rule made x: the ratio m/p is in (1, 2), above 3, or in (2, 3). */
  function Rule(x: Pair): nat {
    if x.m < 2 * x.p then 0 else if x.m > 3 * x.p then 1 else 2
  }

  function Parent(x: Pair): Pair {
    match Rule(x)
    case 0 => Pair(x.p, 2 * x.p - x.m)
    case 1 => Pair(x.m - 2 * x.p, x.p)
    case _ => Pair(x.p, x.m - 2 * x.p)
  }

  function RootOf(x: Pair): Pair {
    if OppositeParity(x) then EVEN_ROOT else ODD_ROOT
  }

  predicate AtRoot(x: Pair) {
    x.m == 2 * x.p || x.m == 3 * x.p
  }

  /** Position of x in its queue, by descent to the root. */
  function Position(x: Pair): nat
    requires x.m > x.p >= 1
    decreases x.m
  {
    if AtRoot(x) then 0 else 3 * Position(Parent(x)) + 1 + Rule(x)
  }

  /** Turn at which x is taken: position k of the even queue is read at turn 2 * k, of the odd queue
      at turn 2 * k + 1. */
  function Turn(x: Pair): (turn: nat)
    requires x.m > x.p >= 1
    ensures turn / 2 == Position(x)
    ensures turn % 2 == 0 <==> OppositeParity(x)
  {
    var k := Position(x);
    if OppositeParity(x) then 2 * k else 2 * k + 1
  }

  lemma CoprimePairAtRoot(x: Pair)
    requires IsCoprimePair(x) && AtRoot(x)
    ensures x == RootOf(x)
  {
    assert IsProduct(x.p, 1, x.p) && IsProduct(x.m, if x.m == 2 * x.p then 2 else 3, x.p);
    assert Divides(x.p, x.p) && Divides(x.p, x.m);
  }

  lemma ParentIsCoprimePair(x: Pair)
    requires IsCoprimePair(x) && !AtRoot(x)
    ensures IsCoprimePair(Parent(x)) && Parent(x).m < x.m
    ensures Child(Parent(x), Rule(x)) == x
  {
    var y := Parent(x);
    match Rule(x)
    case 0 => CoprimeCombination(x.m, x.p, y.m, y.p, 2, -1, 1, 0);
    case 1 => CoprimeCombination(x.m, x.p, y.m, y.p, 1, 2, 0, 1);
    case _ => CoprimeCombination(x.m, x.p, y.m, y.p, 2, 1, 1, 0);
  }

  lemma ParentParity(x: Pair)
    requires IsCoprimePair(x) && !AtRoot(x)
    ensures RootOf(Parent(x)) == RootOf(x)
  {
    ParentIsCoprimePair(x);
    ChildParity(Parent(x), Rule(x));
  }

  lemma {:induction false} CoprimePairAtPosition(x: Pair)
    requires IsCoprimePair(x)
    ensures Node(RootOf(x), Position(x)) == x
    decreases x.m
  {
    if AtRoot(x) {
      CoprimePairAtRoot(x);
    } else {
      ParentIsCoprimePair(x);
      ParentParity(x);
      CoprimePairAtPosition(Parent(x));
      NodeOfChild(RootOf(x), Position(Parent(x)), Rule(x), Position(x));
    }
  }

  lemma {:induction false} PositionOfNode(root: Pair, k: nat)
    requires IsCoprimePair(root) && AtRoot(root)
    ensures Node(root, k).m > Node(root, k).p >= 1
    ensures Position(Node(root, k)) == k
  {
    if k > 0 {
      var parent, rule := (k - 1) / 3, (k - 1) % 3;
      PositionOfNode(root, parent);
      var y := Node(root, parent);
      var x := Child(y, rule);
      assert Rule(x) == rule && Parent(x) == y && !AtRoot(x);
    }
  }

  /** Completeness: every coprime pair m > p >= 1 is the one taken at turn `Turn(x)`. */
  lemma EveryCoprimePairIsTaken(x: Pair)
    requires IsCoprimePair(x)
    ensures Taken(Turn(x)) == x
  {
    CoprimePairAtPosition(x);
  }

  /** No repetition: a pair is taken at one turn only. */
  lemma TurnOfTaken(j: nat)
    ensures Taken(j).m > Taken(j).p >= 1
    ensures Turn(Taken(j)) == j
  {
    RootsAreCoprime();
    TakenIsCoprimePair(j);
    PositionOfNode(if j % 2 == 0 then EVEN_ROOT else ODD_ROOT, j / 2);
  }

  /** The list built for n holds x if and only if x is a coprime pair m > p >= 1 whose turn comes up. */
  lemma BuiltListMembership(n: nat, coprimes: seq<Pair>, x: Pair)
    requires |coprimes| == n && IsListing(coprimes)
    ensures x in coprimes <==> IsCoprimePair(x) && 8 * Turn(x) < n
  {
    if x in coprimes {
      var i :| 0 <= i < n && coprimes[i] == x;
      TakenWhenListed(i, i / 8, x);
    }
    if IsCoprimePair(x) && 8 * Turn(x) < n {
      EveryCoprimePairIsTaken(x);
      var i := 8 * Turn(x);
      assert i / 8 == Turn(x);
      assert coprimes[i] == x;
    }
  }

  lemma TakenWhenListed(i: nat, j: nat, x: Pair)
    requires j == i / 8 && x == Taken(j)
    ensures IsCoprimePair(x) && 8 * Turn(x) <= i
  {
    TakenIsCoprimePair(j);
    TurnOfTaken(j);
  }

  /** Coprime pairs with the same ratio are the same pair. */
  lemma {:induction false} RatioDeterminesPair(x: Pair, y: Pair)
    requires IsCoprimePair(x) && IsCoprimePair(y)
    requires x.m * y.p == y.m * x.p
    ensures x == y
  {
    SameRatioSamePosition(x, y);
    CoprimePairAtPosition(x);
    CoprimePairAtPosition(y);
    if OppositeParity(x) != OppositeParity(y) {
      ParityFromRatio(if OppositeParity(x) then x else y, if OppositeParity(x) then y else x);
    }
  }

  lemma {:induction false} SameRatioSamePosition(x: Pair, y: Pair)
    requires x.m > x.p >= 1 && y.m > y.p >= 1
    requires x.m * y.p == y.m * x.p
    ensures Position(x) == Position(y)
    decreases x.m
  {
    CompareRatio(x, y, 2);
    CompareRatio(x, y, 3);
    assert AtRoot(x) == AtRoot(y) && Rule(x) == Rule(y);
    if !AtRoot(x) {
      SameRatioSamePosition(Parent(x), Parent(y));
    }
  }

  lemma CompareRatio(x: Pair, y: Pair, c: int)
    requires x.p >= 1 && y.p >= 1
    requires x.m * y.p == y.m * x.p
    ensures x.m < c * x.p <==> y.m < c * y.p
    ensures x.m == c * x.p <==> y.m == c * y.p
  {
    var u, v := x.m - c * x.p, y.m - c * y.p;
    assert u * y.p == v * x.p;
    if u > 0 { assert u * y.p > 0; } else if u < 0 { assert u * y.p < 0; }
    if v > 0 { assert v * x.p > 0; } else if v < 0 { assert v * x.p < 0; }
  }

  /** A pair of odd numbers cannot have the ratio of a coprime pair of opposite parity. */
  lemma ParityFromRatio(x: Pair, y: Pair)
    requires IsCoprimePair(x) && IsCoprimePair(y)
    requires OppositeParity(x) && !OppositeParity(y)
    ensures x.m * y.p != y.m * x.p
  {
    CoprimePairWithEvenSum(y);
    DifferentParities(x.m, x.p, y.m, y.p);
  }

  lemma DifferentParities(a: int, b: int, c: int, d: int)
    requires (a + b) % 2 == 1 && c % 2 == 1 && d % 2 == 1
    ensures a * d != c * b
  {
    var u, v := a * d, b * c;
    ProductParity(a, d);
    ProductParity(b, c);
    assert u % 2 == a % 2 && v % 2 == b % 2 && a % 2 != b % 2;
    assert v == c * b;
  }

  lemma ProductParity(a: int, b: int)
    requires b % 2 == 1
    ensures (a * b) % 2 == a % 2
  {
    var h := b / 2;
    assert a * b == 2 * (a * h) + a;
  }

  // ----- Size of the numbers -----

  /** Entry k of a queue is at most root.m * (2 * k + 1): linear in its position. */
  lemma {:induction false} NodeIsLinearlyBounded(root: Pair, k: nat)
    requires IsCoprimePair(root)
    ensures Node(root, k).p < Node(root, k).m <= root.m * (2 * k + 1)
  {
    NodeIsCoprimePair(root, k);
    if k > 0 {
      var parent := (k - 1) / 3;
      NodeIsLinearlyBounded(root, parent);
      NodeIsCoprimePair(root, parent);
      assert Node(root, k).m <= 3 * Node(root, parent).m;
      TripleBound(root.m, parent, k);
    }
  }

  lemma TripleBound(a: int, parent: nat, k: nat)
    requires 0 <= a && 3 * parent + 1 <= k
    ensures 3 * (a * (2 * parent + 1)) <= a * (2 * k + 1)
  {
    var slack := 2 * k + 1 - 3 * (2 * parent + 1);
    assert a * (2 * k + 1) == 3 * (a * (2 * parent + 1)) + a * slack;
  }

  /** The pairs pushed at turn j are at most linear in j. */
  lemma PushedIsLinear(j: nat, rule: nat)
    requires rule < 3
    ensures 1 <= Child(Taken(j), rule).p < Child(Taken(j), rule).m <= 9 * (j + 1)
  {
    RootsAreCoprime();
    TakenIsCoprimePair(j);
    ChildIsCoprimePair(Taken(j), rule);
    NodeIsLinearlyBounded(if j % 2 == 0 then EVEN_ROOT else ODD_ROOT, j / 2);
  }
}
