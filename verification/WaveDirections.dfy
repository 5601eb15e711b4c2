/** Wave directions that close over a square domain (the periodic branch of
    WaveDirectionalSpreading::get_directions).

    A direction is kept as the integer vector (x, y) whose argument in [0, 2*pi) is the angle that
    the source computes: acos(p/h) is the argument of (p, m), and 2*pi - acos(p/h) that of (p, -m).
    Angles compare by half-plane, then by cross product, which is exact on integers. */
module WaveDirections {
  import opened CoprimePairs
  import Insertion

  datatype Direction = Direction(x: int, y: int)

  const AXES_AND_DIAGONALS := [
    Direction(1, 0), Direction(1, 1), Direction(0, 1), Direction(-1, 1),
    Direction(-1, 0), Direction(-1, -1), Direction(0, -1), Direction(1, -1)]

  function Octant(c: Pair): seq<Direction> {
    [Direction(c.p, c.m), Direction(c.m, c.p), Direction(-c.p, c.m), Direction(-c.m, c.p),
     Direction(-c.m, -c.p), Direction(-c.p, -c.m), Direction(c.m, -c.p), Direction(c.p, -c.m)]
  }

  /** The eight directions pushed together as block b. */
  function Block(b: nat): (block: seq<Direction>)
    ensures |block| == 8
  {
    if b == 0 then AXES_AND_DIAGONALS else Octant(Taken(b - 1))
  }

  /** The i-th direction pushed, before sorting. */
  function Pushed(i: nat): Direction {
    Block(i / 8)[i % 8]
  }

  function AllPushed(n: nat): (all: seq<Direction>)
    ensures |all| == n
  {
    seq(n, i requires 0 <= i < n => Pushed(i))
  }

  lemma PushedInBlock(b: nat, k: nat, i: nat)
    requires k < 8 && i == 8 * b + k
    ensures Pushed(i) == Block(b)[k]
  {
    assert i / 8 == b && i % 8 == k;
  }

  lemma PushNext(n: nat, next: Direction)
    requires next == Pushed(n)
    ensures AllPushed(n) + [next] == AllPushed(n + 1)
  {
  }

  lemma PushOne(psi: seq<Direction>, b: nat, k: nat)
    requires psi == AllPushed(|psi|) && |psi| == 8 * b + k && k < 8
    ensures psi + [Block(b)[k]] == AllPushed(|psi| + 1)
  {
    PushedInBlock(b, k, |psi|);
    PushNext(|psi|, Block(b)[k]);
  }

  /** The entry read for block index + 1 is the pair of that turn. */
  lemma EntryRead(coprimes: seq<Pair>, index: nat)
    requires IsListing(coprimes) && 8 * index < |coprimes|
    ensures Octant(coprimes[8 * index]) == Block(index + 1)
  {
    assert 8 * index / 8 == index;
  }

  /** n directions, except that the axes and diagonals are always there. */
  function Count(n: nat): nat {
    if n < 8 then 8 else n
  }

  // ----- Order by angle in [0, 2*pi) -----

  function Cross(u: Direction, v: Direction): int {
    u.x * v.y - u.y * v.x
  }

  function Dot(u: Direction, v: Direction): int {
    u.x * v.x + u.y * v.y
  }

  predicate NonZero(u: Direction) {
    u.x != 0 || u.y != 0
  }

  /** The angle is in [0, pi). */
  predicate Upper(u: Direction) {
    u.y > 0 || (u.y == 0 && u.x > 0)
  }

  /** The angle of u is strictly less than the angle of v. */
  predicate Before(u: Direction, v: Direction) {
    if Upper(u) == Upper(v) then Cross(u, v) > 0 else Upper(u)
  }

  /** Both vectors have the same angle. */
  predicate SameAngle(u: Direction, v: Direction) {
    Cross(u, v) == 0 && Dot(u, v) > 0
  }

  predicate SortedByAngle(s: seq<Direction>) {
    forall i, j :: 0 <= i < j < |s| ==> Before(s[i], s[j])
  }

  lemma UpperCrossTransitive(u: Direction, v: Direction, w: Direction)
    requires Upper(u) && Upper(v) && Upper(w)
    requires Cross(u, v) > 0 && Cross(v, w) > 0
    ensures Cross(u, w) > 0
  {
    var a, b := Cross(u, v), Cross(v, w);
    assert Cross(u, w) * v.y == a * w.y + b * u.y by {
      assert (u.x * v.y - u.y * v.x) * w.y == u.x * v.y * w.y - u.y * v.x * w.y;
      assert (v.x * w.y - v.y * w.x) * u.y == v.x * w.y * u.y - v.y * w.x * u.y;
      assert (u.x * w.y - u.y * w.x) * v.y == u.x * w.y * v.y - u.y * w.x * v.y;
    }
    assert w.y > 0 && v.y > 0;
    assert a * w.y > 0 && b * u.y >= 0;
  }

  function Opposite(u: Direction): Direction {
    Direction(-u.x, -u.y)
  }

  lemma BeforeTransitive(u: Direction, v: Direction, w: Direction)
    requires NonZero(u) && NonZero(v) && NonZero(w)
    requires Before(u, v) && Before(v, w)
    ensures Before(u, w)
  {
    if Upper(u) && Upper(w) {
      UpperCrossTransitive(u, v, w);
    } else if !Upper(u) && !Upper(w) {
      UpperCrossTransitive(Opposite(u), Opposite(v), Opposite(w));
    }
  }

  /** Any two vectors have the same angle or are ordered, one way only. */
  lemma BeforeTrichotomy(u: Direction, v: Direction)
    requires NonZero(u) && NonZero(v)
    ensures Before(u, v) || Before(v, u) || SameAngle(u, v)
    ensures !(Before(u, v) && Before(v, u))
    ensures SameAngle(u, v) ==> !Before(u, v) && !Before(v, u)
  {
    assert Cross(u, v) == -Cross(v, u);
    if Cross(u, v) == 0 {
      CollinearVectors(u, v);
    }
  }

  function SignedSquare(x: int): int {
    if x < 0 then -(x * x) else x * x
  }

  /** x / h is larger for u than for v, where h is the length: the source takes the arc cosine of that. */
  predicate CosineIsLarger(u: Direction, v: Direction) {
    SignedSquare(u.x) * (v.x * v.x + v.y * v.y) > SignedSquare(v.x) * (u.x * u.x + u.y * u.y)
  }

  lemma Factors(a: int, b: int)
    ensures a * a - b * b == (a - b) * (a + b)
    ensures a >= 0 && b >= 0 ==> (a * a > b * b <==> a > b)
    ensures a <= 0 && b <= 0 ==> (a * a > b * b <==> a < b)
  {
  }

  lemma SignOfProduct(a: int, b: int)
    requires b >= 0
    ensures a > 0 ==> a * b >= 0 && (a * b == 0 <==> b == 0)
    ensures a < 0 ==> a * b <= 0 && (a * b == 0 <==> b == 0)
  {
  }

  lemma CosineOrderOfSquares(u: Direction, v: Direction, a: int, b: int)
    requires a == u.x * v.y && b == v.x * u.y
    ensures u.x * u.x * (v.x * v.x + v.y * v.y) - v.x * v.x * (u.x * u.x + u.y * u.y) == a * a - b * b
  {
  }

  lemma SignOfCosine(x: int, n: int)
    requires n > 0
    ensures x >= 0 ==> SignedSquare(x) * n == x * x * n >= 0
    ensures x < 0 ==> SignedSquare(x) * n == -(x * x * n) < 0
  {
    if x != 0 {
      assert x * x > 0;
    }
  }

  lemma SquaredLength(u: Direction, n: int)
    requires NonZero(u) && n == u.x * u.x + u.y * u.y
    ensures n > 0
  {
  }

  lemma SameSideOrder(u: Direction, v: Direction, nu: int, nv: int, a: int, b: int)
    requires u.y >= 0 && v.y >= 0 && (u.x >= 0 <==> v.x >= 0)
    requires nu == u.x * u.x + u.y * u.y > 0 && nv == v.x * v.x + v.y * v.y > 0
    requires a == u.x * v.y && b == v.x * u.y
    ensures a > b <==> SignedSquare(u.x) * nv > SignedSquare(v.x) * nu
  {
    SignOfCosine(u.x, nv);
    SignOfCosine(v.x, nu);
    SignOfProduct(u.x, v.y);
    SignOfProduct(v.x, u.y);
    CosineOrderOfSquares(u, v, a, b);
    Factors(a, b);
  }

  lemma OtherSideOrder(u: Direction, v: Direction, nu: int, nv: int, a: int, b: int)
    requires u.y >= 0 && v.y >= 0 && u.x >= 0 && v.x < 0 && (u.x > 0 || u.y > 0) && (u.y > 0 || v.y > 0)
    requires nu > 0 && nv > 0
    requires a == u.x * v.y && b == v.x * u.y
    ensures a > b && SignedSquare(u.x) * nv > SignedSquare(v.x) * nu
  {
    SignOfCosine(u.x, nv);
    SignOfCosine(v.x, nu);
    SignOfProduct(u.x, v.y);
    SignOfProduct(v.x, u.y);
  }

  lemma CosineOrder(u: Direction, v: Direction)
    requires NonZero(u) && NonZero(v) && u.y >= 0 && v.y >= 0
    requires u.y == 0 && v.y == 0 ==> (u.x > 0 <==> v.x > 0)
    ensures Cross(u, v) > 0 <==> CosineIsLarger(u, v)
  {
    var nu, nv := u.x * u.x + u.y * u.y, v.x * v.x + v.y * v.y;
    var a, b := u.x * v.y, v.x * u.y;
    SquaredLength(u, nu);
    SquaredLength(v, nv);
    if u.x >= 0 && v.x < 0 {
      OtherSideOrder(u, v, nu, nv, a, b);
    } else if u.x < 0 && v.x >= 0 {
      OtherSideOrder(v, u, nv, nu, b, a);
    } else {
      SameSideOrder(u, v, nu, nv, a, b);
    }
  }

  /** The order is that of the angles: increasing arc cosine up to pi, and decreasing from there on. */
  lemma BeforeComparesCosines(u: Direction, v: Direction)
    requires NonZero(u) && NonZero(v)
    ensures var (upU, upV) := (u.y > 0 || (u.y == 0 && u.x > 0), v.y > 0 || (v.y == 0 && v.x > 0));
            Before(u, v) <==>
            if upU && upV then CosineIsLarger(u, v) else if !upU && !upV then CosineIsLarger(v, u) else upU
  {
    if Upper(u) && Upper(v) {
      CosineOrder(u, v);
    } else if !Upper(u) && !Upper(v) {
      CosineOrder(Direction(v.x, -v.y), Direction(u.x, -u.y));
    }
  }

  /** For collinear u and v, v is a multiple of u by a factor that has the sign of Dot(u, v). */
  lemma CollinearVectors(u: Direction, v: Direction)
    requires NonZero(u) && NonZero(v) && Cross(u, v) == 0
    ensures Dot(u, u) > 0 && Dot(u, v) != 0
    ensures Dot(u, v) * u.x == Dot(u, u) * v.x && Dot(u, v) * u.y == Dot(u, u) * v.y
    ensures Upper(u) == Upper(v) <==> Dot(u, v) > 0
  {
    var norm, r := Dot(u, u), Dot(u, v);
    Scaling(u, v);
    assert u.x * u.x >= 0 && u.y * u.y >= 0;
    assert norm > 0 by {
      if u.x != 0 { assert u.x * u.x > 0; } else { assert u.y * u.y > 0; }
    }
    SameSign(norm, r, u.x, v.x);
    SameSign(norm, r, u.y, v.y);
    if r == 0 {
      assert false by { Zero(norm, v.x); Zero(norm, v.y); }
    }
  }

  lemma Scaling(u: Direction, v: Direction)
    requires Cross(u, v) == 0
    ensures Dot(u, v) * u.x == Dot(u, u) * v.x && Dot(u, v) * u.y == Dot(u, u) * v.y
  {
    var k := u.x * v.y;
    assert u.y * v.x == k;
    assert (u.x * v.x + u.y * v.y) * u.x == u.x * u.x * v.x + u.y * k;
    assert (u.x * u.x + u.y * u.y) * v.x == u.x * u.x * v.x + u.y * k;
    assert (u.x * v.x + u.y * v.y) * u.y == u.x * k + u.y * u.y * v.y;
    assert (u.x * u.x + u.y * u.y) * v.y == u.x * k + u.y * u.y * v.y;
  }

  lemma Zero(norm: int, b: int)
    requires norm > 0 && norm * b == 0
    ensures b == 0
  {
  }

  lemma SameSign(norm: int, r: int, a: int, b: int)
    requires norm > 0 && r * a == norm * b
    ensures r > 0 ==> (a > 0 <==> b > 0) && (a < 0 <==> b < 0)
    ensures r < 0 ==> (a > 0 <==> b < 0) && (a < 0 <==> b > 0)
  {
    if b > 0 { assert norm * b > 0; } else if b < 0 { assert norm * b < 0; }
    if r > 0 {
      if a > 0 { assert r * a > 0; } else if a < 0 { assert r * a < 0; }
    } else if r < 0 {
      if a > 0 { assert r * a < 0; } else if a < 0 { assert r * a > 0; }
    }
  }

  // ----- No two directions pushed have the same angle -----

  /** Where u lies among the axes and diagonals (even) and the open octants between them (odd). */
  function Sector(u: Direction): nat {
    if u.y == 0 then (if u.x > 0 then 0 else 8)
    else if u.x == 0 then (if u.y > 0 then 4 else 12)
    else if u.x == u.y then (if u.x > 0 then 2 else 10)
    else if u.x == -u.y then (if u.y > 0 then 6 else 14)
    else if u.y > 0 then
      if u.x > 0 then (if u.x < u.y then 1 else 3) else (if -u.x < u.y then 5 else 7)
    else
      if u.x < 0 then (if u.x < u.y then 9 else 11) else (if u.x > -u.y then 13 else 15)
  }

  lemma SectorOfOctant(c: Pair, k: nat)
    requires k < 8 && c.m > c.p >= 1
    ensures NonZero(Octant(c)[k]) && Sector(Octant(c)[k]) == 2 * k + 1
  {
    if k == 0 {
      assert Octant(c)[k] == Direction(c.p, c.m);
    } else if k == 1 {
      assert Octant(c)[k] == Direction(c.m, c.p);
    } else if k == 2 {
      assert Octant(c)[k] == Direction(-c.p, c.m);
    } else if k == 3 {
      assert Octant(c)[k] == Direction(-c.m, c.p);
    } else if k == 4 {
      assert Octant(c)[k] == Direction(-c.m, -c.p);
    } else if k == 5 {
      assert Octant(c)[k] == Direction(-c.p, -c.m);
    } else if k == 6 {
      assert Octant(c)[k] == Direction(c.m, -c.p);
    } else {
      assert Octant(c)[k] == Direction(c.p, -c.m);
    }
  }

  lemma SectorOfAxis(k: nat)
    requires k < 8
    ensures NonZero(AXES_AND_DIAGONALS[k]) && Sector(AXES_AND_DIAGONALS[k]) == 2 * k
  {
  }

  lemma SectorOfBlock(b: nat, k: nat)
    requires k < 8
    ensures NonZero(Block(b)[k])
    ensures Sector(Block(b)[k]) == 2 * k + if b == 0 then 0 else 1
  {
    if b == 0 {
      SectorOfAxis(k);
    } else {
      TakenIsOrdered(b - 1);
      SectorOfOctant(Taken(b - 1), k);
    }
  }

  lemma SameAngleSameSector(u: Direction, v: Direction)
    requires NonZero(u) && NonZero(v) && SameAngle(u, v)
    ensures Sector(u) == Sector(v)
  {
    CollinearVectors(u, v);
    var norm, r := Dot(u, u), Dot(u, v);
    SameSign(norm, r, u.x, v.x);
    SameSign(norm, r, u.y, v.y);
    SameSign(norm, r, u.x - u.y, v.x - v.y);
    SameSign(norm, r, u.x + u.y, v.x + v.y);
  }

  lemma OctantCross(x: Pair, y: Pair, k: nat)
    requires k < 8 && Cross(Octant(x)[k], Octant(y)[k]) == 0
    ensures x.m * y.p == y.m * x.p
  {
    match k
    case 0 => SignsOfProducts(x.p, y.m, x.m, y.p);
    case 1 => SignsOfProducts(x.m, y.p, x.p, y.m);
    case 2 => SignsOfProducts(x.p, y.m, x.m, y.p);
    case 3 => SignsOfProducts(x.m, y.p, x.p, y.m);
    case 4 => SignsOfProducts(x.m, y.p, x.p, y.m);
    case 5 => SignsOfProducts(x.p, y.m, x.m, y.p);
    case 6 => SignsOfProducts(x.m, y.p, x.p, y.m);
    case _ => SignsOfProducts(x.p, y.m, x.m, y.p);
  }

  lemma SignsOfProducts(a: int, b: int, c: int, d: int)
    ensures (-a) * b == -(a * b) && (-a) * (-b) == a * b && a * (-b) == -(a * b)
    ensures (-c) * d == -(c * d) && (-c) * (-d) == c * d && c * (-d) == -(c * d)
    ensures a * b == b * a && c * d == d * c
  {
  }

  /** Two directions of the same angle are pushed at the same place of the same block. */
  lemma SameAngleSameBlock(b: nat, k: nat, c: nat, l: nat)
    requires k < 8 && l < 8
    requires SameAngle(Block(b)[k], Block(c)[l])
    ensures b == c && k == l
  {
    SameAngleSamePlace(b, k, c, l);
    if b > 0 {
      SameOctant(b - 1, c - 1, k);
    }
  }

  /** The entry read gives directions of angles that no earlier block b has. */
  lemma FreshPair(coprimes: seq<Pair>, index: nat, b: nat, k: nat, l: nat)
    requires IsListing(coprimes) && 8 * index < |coprimes|
    requires b <= index && k < 8 && l < 8
    ensures Octant(coprimes[8 * index]) == Block(index + 1)
    ensures !SameAngle(Block(b)[k], Octant(coprimes[8 * index])[l])
  {
    EntryRead(coprimes, index);
    if SameAngle(Block(b)[k], Block(index + 1)[l]) {
      SameAngleSameBlock(b, k, index + 1, l);
    }
  }

  lemma SameAngleSamePlace(b: nat, k: nat, c: nat, l: nat)
    requires k < 8 && l < 8
    requires SameAngle(Block(b)[k], Block(c)[l])
    ensures k == l && (b == 0 <==> c == 0)
  {
    SectorOfBlock(b, k);
    SectorOfBlock(c, l);
    SameAngleSameSector(Block(b)[k], Block(c)[l]);
  }

  lemma SameOctant(i: nat, j: nat, k: nat)
    requires k < 8 && Cross(Octant(Taken(i))[k], Octant(Taken(j))[k]) == 0
    ensures i == j
  {
    OctantCross(Taken(i), Taken(j), k);
    TakenIsCoprimePair(i);
    TakenIsCoprimePair(j);
    RatioDeterminesPair(Taken(i), Taken(j));
    TurnOfTaken(i);
    TurnOfTaken(j);
  }

  lemma PushedAnglesDiffer(i: nat, j: nat)
    ensures NonZero(Pushed(i))
    ensures i != j ==> !SameAngle(Pushed(i), Pushed(j))
  {
    SectorOfBlock(i / 8, i % 8);
    if SameAngle(Pushed(i), Pushed(j)) {
      SameAngleSameBlock(i / 8, i % 8, j / 8, j % 8);
    }
  }

  // ----- The generator -----

  predicate DistinctAngles(s: seq<Direction>) {
    && (forall i :: 0 <= i < |s| ==> NonZero(s[i]))
    && (forall i, j :: 0 <= i < j < |s| ==> !SameAngle(s[i], s[j]))
  }

  lemma AllPushedDiffer(n: nat)
    ensures DistinctAngles(AllPushed(n))
  {
    var all := AllPushed(n);
    forall i, j | 0 <= i < j < n
      ensures !SameAngle(all[i], all[j])
    {
      PushedAnglesDiffer(i, j);
    }
    forall i | 0 <= i < n
      ensures NonZero(all[i])
    {
      PushedAnglesDiffer(i, i);
    }
  }

  lemma InsertKeepsOrder(r: seq<Direction>, k: nat, x: Direction)
    requires SortedByAngle(r) && k <= |r|
    requires forall i :: 0 <= i < |r| ==> NonZero(r[i]) && !SameAngle(r[i], x)
    requires NonZero(x)
    requires forall i :: 0 <= i < k ==> Before(r[i], x)
    requires k < |r| ==> !Before(r[k], x)
    ensures SortedByAngle(r[..k] + [x] + r[k..])
  {
    forall j | k <= j < |r|
      ensures Before(x, r[j])
    {
      BeforeTrichotomy(r[k], x);
      if j > k {
        BeforeTransitive(x, r[k], r[j]);
      }
    }
  }

  lemma OthersDiffer(s: seq<Direction>, n: nat, r: seq<Direction>)
    requires DistinctAngles(s) && n < |s| && multiset(r) == multiset(s[..n])
    ensures forall i :: 0 <= i < |r| ==> NonZero(r[i]) && !SameAngle(r[i], s[n])
  {
    forall i | 0 <= i < |r|
      ensures NonZero(r[i]) && !SameAngle(r[i], s[n])
    {
      assert r[i] in multiset(r);
      var l :| 0 <= l < n && s[..n][l] == r[i];
      assert s[l] == r[i];
    }
  }

  /** Stands for std::sort: increasing angles, same elements. */
  method SortByAngle(s: seq<Direction>) returns (r: seq<Direction>)
    requires DistinctAngles(s)
    ensures SortedByAngle(r)
    ensures |r| == |s| && multiset(r) == multiset(s)
  {
    r := [];
    for n := 0 to |s|
      invariant SortedByAngle(r)
      invariant |r| == n && multiset(r) == multiset(s[..n])
    {
      var x := s[n];
      OthersDiffer(s, n, r);
      var k := 0;
      while k < |r| && Before(r[k], x)
        invariant 0 <= k <= |r|
        invariant forall i :: 0 <= i < k ==> Before(r[i], x)
      {
        k := k + 1;
      }
      InsertKeepsOrder(r, k, x);
      Insertion.InsertKeepsElements(r, k, s, n);
      r := r[..k] + [x] + r[k..];
    }
    assert s[..|s|] == s;
  }

  /** The periodic branch: max(n, 8) directions in strictly increasing order of angle, namely those
      of the first blocks. Reading `coprimes` at 8 * index never leaves the list. */
  method GetDirections(n: nat) returns (psi: seq<Direction>)
    ensures |psi| == (if n < 8 then 8 else n)
    ensures SortedByAngle(psi)
    ensures multiset(psi) == multiset(AllPushed(Count(n)))
  {
    psi := AXES_AND_DIAGONALS;
    var coprimes := BuildCoprimes(n);
    var index := 0;
    while |psi| < n
      invariant 8 <= |psi| <= Count(n)
      invariant |psi| < n ==> |psi| == 8 * (index + 1)
      invariant psi == AllPushed(|psi|)
    {
      EntryRead(coprimes, index);
      var current := coprimes[8 * index];
      var octant := Octant(current);
      var j := 0;
      while j < 8 && |psi| < n
        invariant 0 <= j <= 8 && |psi| == 8 * (index + 1) + j <= n
        invariant psi == AllPushed(|psi|)
      {
        PushOne(psi, index + 1, j);
        psi := psi + [octant[j]];
        j := j + 1;
      }
      index := index + 1;
    }
    AllPushedDiffer(|psi|);
    psi := SortByAngle(psi);
  }

  // ----- Symmetry -----

  function QuarterTurn(u: Direction): Direction {
    Direction(-u.y, u.x)
  }

  function Mirror(u: Direction): Direction {
    Direction(u.x, -u.y)
  }

  /** Closed under quarter turns and under reflection in an axis. */
  ghost predicate Symmetric(psi: seq<Direction>) {
    forall u :: u in psi ==> QuarterTurn(u) in psi && Mirror(u) in psi
  }

  function TurnedIndex(b: nat, k: nat): (l: nat)
    requires k < 8
    ensures l < 8
  {
    if b == 0 then [2, 3, 4, 5, 6, 7, 0, 1][k] else [3, 2, 4, 5, 7, 6, 0, 1][k]
  }

  function MirroredIndex(b: nat, k: nat): (l: nat)
    requires k < 8
    ensures l < 8
  {
    if b == 0 then [0, 7, 6, 5, 4, 3, 2, 1][k] else 7 - k
  }

  lemma BlockIsSymmetric(b: nat, k: nat)
    requires k < 8
    ensures QuarterTurn(Block(b)[k]) == Block(b)[TurnedIndex(b, k)]
    ensures Mirror(Block(b)[k]) == Block(b)[MirroredIndex(b, k)]
  {
    if b > 0 {
      OctantIsSymmetric(Taken(b - 1), k);
    } else {
      AxesAreSymmetric(k);
    }
  }

  lemma AxesAreSymmetric(k: nat)
    requires k < 8
    ensures QuarterTurn(AXES_AND_DIAGONALS[k]) == AXES_AND_DIAGONALS[TurnedIndex(0, k)]
    ensures Mirror(AXES_AND_DIAGONALS[k]) == AXES_AND_DIAGONALS[MirroredIndex(0, k)]
  {
  }

  lemma OctantIsSymmetric(c: Pair, k: nat)
    requires k < 8
    ensures QuarterTurn(Octant(c)[k]) == Octant(c)[TurnedIndex(1, k)]
    ensures Mirror(Octant(c)[k]) == Octant(c)[MirroredIndex(1, k)]
  {
  }

  lemma PushedIsListed(i: nat, total: nat)
    requires i < total
    ensures Pushed(i) in AllPushed(total)
  {
    assert AllPushed(total)[i] == Pushed(i);
  }

  lemma ImagesInWholeBlocks(b: nat, k: nat, blocks: nat)
    requires k < 8 && b < blocks
    ensures QuarterTurn(Block(b)[k]) in AllPushed(8 * blocks)
    ensures Mirror(Block(b)[k]) in AllPushed(8 * blocks)
  {
    BlockIsSymmetric(b, k);
    var turned, mirrored := 8 * b + TurnedIndex(b, k), 8 * b + MirroredIndex(b, k);
    PushedInBlock(b, TurnedIndex(b, k), turned);
    PushedInBlock(b, MirroredIndex(b, k), mirrored);
    PushedIsListed(turned, 8 * blocks);
    PushedIsListed(mirrored, 8 * blocks);
  }

  lemma WholeBlocksAreSymmetric(blocks: nat)
    ensures Symmetric(AllPushed(8 * blocks))
  {
    var all := AllPushed(8 * blocks);
    forall u | u in all
      ensures QuarterTurn(u) in all && Mirror(u) in all
    {
      var i :| 0 <= i < |all| && all[i] == u;
      assert u == Pushed(i);
      ImagesInWholeBlocks(i / 8, i % 8, blocks);
    }
  }

  lemma NotListed(i: nat, total: nat)
    requires i >= total
    ensures Pushed(i) !in AllPushed(total)
  {
    forall l | 0 <= l < total
      ensures Pushed(l) != Pushed(i)
    {
      PushedAnglesDiffer(i, l);
      SameAngleAsItself(Pushed(i));
    }
  }

  lemma PartOfABlockIsNotSymmetric(b: nat, first: nat, last: nat, total: nat)
    requires b >= 1 && first == 8 * b && last == 8 * b + 7 && first < total <= last
    ensures !Symmetric(AllPushed(total))
  {
    PushedInBlock(b, 0, first);
    PushedInBlock(b, 7, last);
    BlockIsSymmetric(b, 0);
    assert Mirror(Pushed(first)) == Pushed(last);
    PushedIsListed(first, total);
    NotListed(last, total);
  }

  lemma SameAngleAsItself(u: Direction)
    requires NonZero(u)
    ensures SameAngle(u, u)
  {
    CollinearVectors(u, u);
  }

  lemma SameElementsSameSymmetry(psi: seq<Direction>, all: seq<Direction>)
    requires multiset(psi) == multiset(all)
    ensures Symmetric(psi) <==> Symmetric(all)
  {
    forall u
      ensures u in psi <==> u in all
    {
      assert u in psi <==> u in multiset(psi);
      assert u in all <==> u in multiset(all);
    }
  }

  /** The directions form a symmetric set exactly when n asks for whole blocks of eight. */
  lemma SymmetricIffWholeBlocks(n: nat, psi: seq<Direction>)
    requires multiset(psi) == multiset(AllPushed(Count(n)))
    ensures Symmetric(psi) <==> n <= 8 || n % 8 == 0
  {
    var total := Count(n);
    var all := AllPushed(total);
    SameElementsSameSymmetry(psi, all);
    if n <= 8 || n % 8 == 0 {
      assert total == 8 * (total / 8);
      WholeBlocksAreSymmetric(total / 8);
    } else {
      PartOfABlockIsNotSymmetric(total / 8, 8 * (total / 8), 8 * (total / 8) + 7, total);
    }
  }

  // ----- Which directions they are -----

  lemma PushedIffEarly(n: nat, psi: seq<Direction>, i: nat)
    requires multiset(psi) == multiset(AllPushed(Count(n)))
    ensures Pushed(i) in psi <==> i < Count(n)
  {
    assert Pushed(i) in psi <==> Pushed(i) in multiset(psi);
    assert Pushed(i) in AllPushed(Count(n)) <==> Pushed(i) in multiset(AllPushed(Count(n)));
    if i < Count(n) {
      PushedIsListed(i, Count(n));
    } else {
      NotListed(i, Count(n));
    }
  }

  lemma PlaceOfPair(n: nat, psi: seq<Direction>, x: Pair, k: nat, b: nat, i: nat)
    requires multiset(psi) == multiset(AllPushed(Count(n)))
    requires k < 8 && b > 0 && x == Taken(b - 1) && i == 8 * b + k
    ensures Octant(x)[k] in psi <==> i < n
  {
    PushedInBlock(b, k, i);
    PushedIffEarly(n, psi, i);
  }

  /** A coprime pair gives eight directions, one after the other: those with coordinates p and m up to sign. */
  lemma DirectionsOfPair(n: nat, psi: seq<Direction>, x: Pair)
    requires multiset(psi) == multiset(AllPushed(Count(n))) && IsCoprimePair(x)
    ensures Direction(x.p, x.m) in psi <==> 8 * Turn(x) + 8 < n
    ensures Direction(x.m, x.p) in psi <==> 8 * Turn(x) + 9 < n
    ensures Direction(-x.p, x.m) in psi <==> 8 * Turn(x) + 10 < n
    ensures Direction(-x.m, x.p) in psi <==> 8 * Turn(x) + 11 < n
    ensures Direction(-x.m, -x.p) in psi <==> 8 * Turn(x) + 12 < n
    ensures Direction(-x.p, -x.m) in psi <==> 8 * Turn(x) + 13 < n
    ensures Direction(x.m, -x.p) in psi <==> 8 * Turn(x) + 14 < n
    ensures Direction(x.p, -x.m) in psi <==> 8 * Turn(x) + 15 < n
  {
    EveryCoprimePairIsTaken(x);
    DirectionsAtTurn(n, psi, x, Turn(x) + 1, 8 * Turn(x) + 8);
  }

  lemma DirectionsAtTurn(n: nat, psi: seq<Direction>, x: Pair, b: nat, i: nat)
    requires multiset(psi) == multiset(AllPushed(Count(n))) && b > 0 && x == Taken(b - 1) && i == 8 * b
    ensures Direction(x.p, x.m) in psi <==> i < n
    ensures Direction(x.m, x.p) in psi <==> i + 1 < n
    ensures Direction(-x.p, x.m) in psi <==> i + 2 < n
    ensures Direction(-x.m, x.p) in psi <==> i + 3 < n
    ensures Direction(-x.m, -x.p) in psi <==> i + 4 < n
    ensures Direction(-x.p, -x.m) in psi <==> i + 5 < n
    ensures Direction(x.m, -x.p) in psi <==> i + 6 < n
    ensures Direction(x.p, -x.m) in psi <==> i + 7 < n
  {
    PlaceOfPair(n, psi, x, 0, b, i);
    PlaceOfPair(n, psi, x, 1, b, i + 1);
    PlaceOfPair(n, psi, x, 2, b, i + 2);
    PlaceOfPair(n, psi, x, 3, b, i + 3);
    PlaceOfPair(n, psi, x, 4, b, i + 4);
    PlaceOfPair(n, psi, x, 5, b, i + 5);
    PlaceOfPair(n, psi, x, 6, b, i + 6);
    PlaceOfPair(n, psi, x, 7, b, i + 7);
  }

  function Abs(a: int): nat {
    if a < 0 then -a else a
  }

  /** The larger and the smaller coordinate of a direction, without their signs. */
  function PairOf(u: Direction): Pair {
    if Abs(u.x) < Abs(u.y) then Pair(Abs(u.y), Abs(u.x)) else Pair(Abs(u.x), Abs(u.y))
  }

  predicate IsAxisOrDiagonal(u: Direction) {
    NonZero(u) && -1 <= u.x <= 1 && -1 <= u.y <= 1
  }

  lemma AxesAndDiagonals(u: Direction)
    ensures u in AXES_AND_DIAGONALS <==> IsAxisOrDiagonal(u)
  {
    var all := AXES_AND_DIAGONALS;
    assert all[0] == Direction(1, 0) && all[1] == Direction(1, 1) && all[2] == Direction(0, 1);
    assert all[3] == Direction(-1, 1) && all[4] == Direction(-1, 0) && all[5] == Direction(-1, -1);
    assert all[6] == Direction(0, -1) && all[7] == Direction(1, -1);
  }

  lemma PairOfOctant(x: Pair, k: nat)
    requires x.m > x.p >= 1 && k < 8
    ensures PairOf(Octant(x)[k]) == x && !IsAxisOrDiagonal(Octant(x)[k])
  {
  }

  lemma DirectionOfBlock(b: nat, k: nat, u: Direction)
    requires k < 8 && u == Block(b)[k]
    ensures b == 0 ==> IsAxisOrDiagonal(u)
    ensures b > 0 ==> IsCoprimePair(PairOf(u)) && Turn(PairOf(u)) == b - 1
  {
    if b == 0 {
      AxesAndDiagonals(u);
    } else {
      TakenIsCoprimePair(b - 1);
      PairOfOctant(Taken(b - 1), k);
      TurnOfTaken(b - 1);
    }
  }

  lemma ListedDirection(n: nat, psi: seq<Direction>, u: Direction)
    requires multiset(psi) == multiset(AllPushed(Count(n))) && u in psi
    ensures IsAxisOrDiagonal(u) || (IsCoprimePair(PairOf(u)) && 8 * Turn(PairOf(u)) + 8 < n)
  {
    var all := AllPushed(Count(n));
    assert u in multiset(psi) && u in multiset(all);
    var i :| 0 <= i < |all| && all[i] == u;
    var b := i / 8;
    DirectionOfBlock(b, i % 8, u);
    assert b > 0 ==> 8 * (b - 1) + 8 <= i;
  }

  lemma AxisIsListed(n: nat, psi: seq<Direction>, u: Direction)
    requires multiset(psi) == multiset(AllPushed(Count(n))) && IsAxisOrDiagonal(u)
    ensures u in psi
  {
    AxesAndDiagonals(u);
    var k :| 0 <= k < 8 && AXES_AND_DIAGONALS[k] == u;
    PushedInBlock(0, k, k);
    PushedIffEarly(n, psi, k);
  }

  /** With whole blocks, the directions are those of the axes and diagonals and, of every coprime pair whose
      turn comes up, all eight with these coordinates up to sign and order. */
  lemma DirectionIff(n: nat, psi: seq<Direction>, u: Direction)
    requires multiset(psi) == multiset(AllPushed(Count(n))) && (n <= 8 || n % 8 == 0)
    ensures u in psi <==> IsAxisOrDiagonal(u) || (IsCoprimePair(PairOf(u)) && 8 * Turn(PairOf(u)) + 8 < n)
  {
    if u in psi {
      ListedDirection(n, psi, u);
    } else if IsAxisOrDiagonal(u) {
      AxisIsListed(n, psi, u);
    } else if IsCoprimePair(PairOf(u)) && 8 * Turn(PairOf(u)) + 8 < n {
      DirectionsOfPair(n, psi, PairOf(u));
    }
  }
}
