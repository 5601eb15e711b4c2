/** The distance table of levenshtein_distance and the choice made by closest_string.

    The first row and column of the table are left at zero, so the value is not the Levenshtein
    distance of the two strings: it is the least Levenshtein distance that can be had by first
    dropping, for free, some prefix of one of them. */
module EditDistance {
  import RowMajor

  function Min(a: nat, b: nat): nat {
    if a <= b then a else b
  }

  function Init(s: string): string
    requires s != ""
  {
    s[..|s| - 1]
  }

  function Last(s: string): char
    requires s != ""
  {
    s[|s| - 1]
  }

  /** The cell that the table holds for the prefixes s and t. */
  function Table(s: string, t: string): nat
    decreases |s| + |t|
  {
    if s == "" || t == "" then 0
    else if Last(s) == Last(t) then Table(Init(s), Init(t))
    else 1 + Min(Table(s, Init(t)), Min(Table(Init(s), t), Table(Init(s), Init(t))))
  }

  // ----- The table in place -----

  /** The cells already filled: whole rows below `row`, and columns below `column` of `row`; the first
      row and column hold zero throughout. */
  ghost predicate Filled(d: seq<nat>, s: string, t: string, row: nat, column: nat)
  {
    var n, m := |s| + 1, |t| + 1;
    && |d| == n * m
    && forall r, c :: 0 <= r < m && 0 <= c < n && (r < row || c == 0 || (r == row && c < column)) ==>
         CellHolds(d, s, t, r, c)
  }

  ghost predicate CellHolds(d: seq<nat>, s: string, t: string, r: nat, c: nat)
    requires r <= |t| && c <= |s|
  {
    var k := r * (|s| + 1) + c;
    k < |d| && d[k] == Table(s[..c], t[..r])
  }

  lemma FillCell(d: seq<nat>, s: string, t: string, row: nat, column: nat, k: nat, value: nat)
    requires 1 <= row <= |t| && 1 <= column <= |s|
    requires Filled(d, s, t, row, column)
    requires k == row * (|s| + 1) + column && k < |d|
    requires value == Table(s[..column], t[..row])
    ensures Filled(d[k := value], s, t, row, column + 1)
  {
    var n, m := |s| + 1, |t| + 1;
    var d' := d[k := value];
    forall r, c | 0 <= r < m && 0 <= c < n && (r < row || c == 0 || (r == row && c < column + 1))
      ensures CellHolds(d', s, t, r, c)
    {
      if r == row && c == column {
      } else {
        assert CellHolds(d, s, t, r, c);
        if r * n + c == k {
          RowMajor.Injective(n, r, c, row, column);
        }
      }
    }
  }

  /** The recurrence of the table, in terms of the cells above and to the left. */
  lemma NeighbouringCells(d: seq<nat>, s: string, t: string, i: nat, j: nat)
    requires 1 <= i <= |t| && 1 <= j <= |s|
    requires Filled(d, s, t, i, j)
    ensures var n := |s| + 1;
            && i * n + j < |d| && 0 <= (i - 1) * n + j < |d|
            && 0 <= i * n + (j - 1) < |d| && 0 <= (i - 1) * n + (j - 1) < |d|
            && Table(s[..j], t[..i]) ==
               if s[j - 1] == t[i - 1] then d[(i - 1) * n + (j - 1)]
               else Min(d[(i - 1) * n + j] + 1, Min(d[i * n + (j - 1)] + 1, d[(i - 1) * n + (j - 1)] + 1))
  {
    var n, m := |s| + 1, |t| + 1;
    RowMajor.InRange(n, m, i, j);
    RowMajor.InRange(n, m, i, j - 1);
    RowMajor.InRange(n, m, i - 1, j);
    RowMajor.InRange(n, m, i - 1, j - 1);
    assert CellHolds(d, s, t, i - 1, j - 1) && CellHolds(d, s, t, i - 1, j) && CellHolds(d, s, t, i, j - 1);
    assert Init(s[..j]) == s[..j - 1] && Init(t[..i]) == t[..i - 1];
  }

  lemma LastCell(d: seq<nat>, s: string, t: string)
    requires Filled(d, s, t, |t| + 1, 1)
    ensures |d| == (|s| + 1) * (|t| + 1) > 0 && d[|d| - 1] == Table(s, t)
  {
    var n, m := |s| + 1, |t| + 1;
    RowMajor.InRange(n, m, m - 1, n - 1);
    assert CellHolds(d, s, t, m - 1, n - 1);
    assert n * m - 1 == (m - 1) * n + (n - 1);
    assert s[..n - 1] == s && t[..m - 1] == t;
  }

  lemma ZeroTable(d: seq<nat>, s: string, t: string)
    requires |d| == (|s| + 1) * (|t| + 1) && forall k :: 0 <= k < |d| ==> d[k] == 0
    ensures Filled(d, s, t, 1, 1)
  {
    forall r, c | 0 <= r <= |t| && 0 <= c <= |s| && (r < 1 || c == 0)
      ensures CellHolds(d, s, t, r, c)
    {
      RowMajor.InRange(|s| + 1, |t| + 1, r, c);
    }
  }

  lemma NextRow(d: seq<nat>, s: string, t: string, row: nat)
    requires Filled(d, s, t, row, |s| + 1)
    ensures Filled(d, s, t, row + 1, 1)
  {
    forall r, c | 0 <= r <= |t| && 0 <= c <= |s| && (r < row + 1 || c == 0 || (r == row + 1 && c < 1))
      ensures CellHolds(d, s, t, r, c)
    {
      assert r < row || c == 0 || (r == row && c < |s| + 1);
    }
  }

  method LevenshteinDistance(s: string, t: string) returns (distance: nat)
    ensures distance == Table(s, t)
  {
    var n := |s| + 1;
    var m := |t| + 1;
    var d := new nat[n * m](_ => 0);
    ZeroTable(d[..], s, t);
    var i := 1;
    while i < m
      invariant 1 <= i <= m
      invariant Filled(d[..], s, t, i, 1)
    {
      var j := 1;
      while j < n
        invariant 1 <= j <= n
        invariant Filled(d[..], s, t, i, j)
      {
        NeighbouringCells(d[..], s, t, i, j);
        var value: nat;
        if s[j - 1] == t[i - 1] {
          value := d[(i - 1) * n + (j - 1)];
        } else {
          value := Min(d[(i - 1) * n + j] + 1, Min(d[i * n + (j - 1)] + 1, d[(i - 1) * n + (j - 1)] + 1));
        }
        FillCell(d[..], s, t, i, j, i * n + j, value);
        d[i * n + j] := value;
        j := j + 1;
      }
      NextRow(d[..], s, t, i);
      i := i + 1;
    }
    LastCell(d[..], s, t);
    distance := d[n * m - 1];
  }

  // ----- True Levenshtein distance -----

  datatype Edit = Insert(at: nat, c: char) | Delete(at: nat) | Replace(at: nat, c: char)

  predicate Applies(e: Edit, s: string) {
    if e.Insert? then e.at <= |s| else e.at < |s|
  }

  function Apply(e: Edit, s: string): string
    requires Applies(e, s)
  {
    match e
    case Insert(i, c) => s[..i] + [c] + s[i..]
    case Delete(i) => s[..i] + s[i + 1..]
    case Replace(i, c) => s[..i] + [c] + s[i + 1..]
  }

  /** The single-character edits of `script`, applied in turn, make t out of s. */
  predicate Turns(script: seq<Edit>, s: string, t: string) {
    if script == [] then s == t
    else Applies(script[0], s) && Turns(script[1..], Apply(script[0], s), t)
  }

  function Cost(c: char, d: char): nat {
    if c == d then 0 else 1
  }

  function Levenshtein(s: string, t: string): nat
    decreases |s| + |t|
  {
    if s == "" then |t|
    else if t == "" then |s|
    else Min(Levenshtein(Init(s), t) + 1,
             Min(Levenshtein(s, Init(t)) + 1, Levenshtein(Init(s), Init(t)) + Cost(Last(s), Last(t))))
  }

  lemma LevenshteinSteps(s: string, t: string)
    ensures s != "" ==> Levenshtein(s, t) <= Levenshtein(Init(s), t) + 1
    ensures t != "" ==> Levenshtein(s, t) <= Levenshtein(s, Init(t)) + 1
    ensures s != "" && t != "" ==>
              Levenshtein(s, t) <= Levenshtein(Init(s), Init(t)) + Cost(Last(s), Last(t))
  {
  }

  /** One edit changes the distance to any t by at most one: replacing x by y, each of at most one
      character, between u and w. */
  lemma {:induction false} OneEditApart(u: string, x: string, y: string, w: string, t: string)
    requires |x| <= 1 && |y| <= 1
    ensures Levenshtein(u + x + w, t) <= Levenshtein(u + y + w, t) + 1
    decreases |w| + |t|
  {
    var a, b := u + x + w, u + y + w;
    LevenshteinSteps(a, t);
    if t == "" || b == "" {
      LevenshteinOfEmpty(a);
      LevenshteinOfEmpty(b);
    } else if w != "" {
      var w' := Init(w);
      assert Init(a) == u + x + w' && Init(b) == u + y + w';
      OneEditApart(u, x, y, w', t);
      OneEditApart(u, x, y, w, Init(t));
      OneEditApart(u, x, y, w', Init(t));
    } else {
      OneEditApart(u, x, y, w, Init(t));
      assert a == u + x && b == u + y;
      if y != "" {
        assert Init(b) == u;
        if x != "" {
          assert Init(a) == u;
        } else {
          assert a == u;
        }
      } else if x != "" {
        assert Init(a) == u && b == u;
      } else {
        assert a == b;
      }
    }
  }

  lemma LevenshteinOfEmpty(s: string)
    ensures Levenshtein(s, "") == |s| && Levenshtein("", s) == |s|
  {
  }

  lemma EditChangesByOne(e: Edit, s: string, t: string)
    requires Applies(e, s)
    ensures Levenshtein(s, t) <= Levenshtein(Apply(e, s), t) + 1
  {
    match e
    case Insert(i, c) =>
      assert s == s[..i] + "" + s[i..];
      OneEditApart(s[..i], "", [c], s[i..], t);
    case Delete(i) =>
      assert s == s[..i] + [s[i]] + s[i + 1..] && Apply(e, s) == s[..i] + "" + s[i + 1..];
      OneEditApart(s[..i], [s[i]], "", s[i + 1..], t);
    case Replace(i, c) =>
      assert s == s[..i] + [s[i]] + s[i + 1..];
      OneEditApart(s[..i], [s[i]], [c], s[i + 1..], t);
  }

  lemma {:induction false} LevenshteinOfSame(s: string)
    ensures Levenshtein(s, s) == 0
    decreases |s|
  {
    if s != "" {
      LevenshteinOfSame(Init(s));
    }
  }

  /** No script is shorter than the Levenshtein distance. */
  lemma {:induction false} NoShorterScript(script: seq<Edit>, s: string, t: string)
    requires Turns(script, s, t)
    ensures Levenshtein(s, t) <= |script|
  {
    if script == [] {
      LevenshteinOfSame(s);
    } else {
      EditChangesByOne(script[0], s, t);
      NoShorterScript(script[1..], Apply(script[0], s), t);
    }
  }

  lemma {:induction false} AppendEdit(script: seq<Edit>, s: string, t: string, e: Edit)
    requires Turns(script, s, t) && Applies(e, t)
    ensures Turns(script + [e], s, Apply(e, t))
  {
    if script == [] {
      assert (script + [e])[1..] == [];
    } else {
      AppendEdit(script[1..], Apply(script[0], s), t, e);
      assert (script + [e])[1..] == script[1..] + [e];
    }
  }

  lemma EditUnderSuffix(e: Edit, s: string, c: char)
    requires Applies(e, s)
    ensures Applies(e, s + [c]) && Apply(e, s + [c]) == Apply(e, s) + [c]
  {
  }

  lemma {:induction false} ScriptUnderSuffix(script: seq<Edit>, s: string, t: string, c: char)
    requires Turns(script, s, t)
    ensures Turns(script, s + [c], t + [c])
  {
    if script != [] {
      EditUnderSuffix(script[0], s, c);
      ScriptUnderSuffix(script[1..], Apply(script[0], s), t, c);
    }
  }

  lemma DeleteLastThen(rest: seq<Edit>, s: string, t: string)
    requires s != "" && Turns(rest, Init(s), t)
    ensures Turns([Delete(|s| - 1)] + rest, s, t)
  {
    var script := [Delete(|s| - 1)] + rest;
    assert Apply(script[0], s) == Init(s) && script[1..] == rest;
  }

  lemma ThenInsertLast(rest: seq<Edit>, s: string, t: string)
    requires t != "" && Turns(rest, s, Init(t))
    ensures Turns(rest + [Insert(|t| - 1, Last(t))], s, t)
  {
    var e := Insert(|t| - 1, Last(t));
    assert Apply(e, Init(t)) == t;
    AppendEdit(rest, s, Init(t), e);
  }

  lemma ThenReplaceLast(rest: seq<Edit>, s: string, t: string)
    requires s != "" && t != "" && Turns(rest, Init(s), Init(t))
    ensures Last(s) == Last(t) ==> Turns(rest, s, t)
    ensures Turns(rest + [Replace(|t| - 1, Last(t))], s, t)
  {
    var u, e := Init(t) + [Last(s)], Replace(|t| - 1, Last(t));
    assert s == Init(s) + [Last(s)] && t == Init(t) + [Last(t)];
    ScriptUnderSuffix(rest, Init(s), Init(t), Last(s));
    assert Apply(e, u) == t;
    AppendEdit(rest, s, u, e);
  }

  /** Some script has exactly that length: Levenshtein is the fewest edits that turn s into t. */
  lemma {:induction false} ShortestScript(s: string, t: string) returns (script: seq<Edit>)
    ensures Turns(script, s, t) && |script| == Levenshtein(s, t)
    decreases |s| + |t|
  {
    if s == "" && t == "" {
      script := [];
    } else if s == "" || (t != "" && Levenshtein(s, t) == Levenshtein(s, Init(t)) + 1) {
      script := ShortestScript(s, Init(t));
      ThenInsertLast(script, s, t);
      script := script + [Insert(|t| - 1, Last(t))];
    } else if t == "" || Levenshtein(s, t) == Levenshtein(Init(s), t) + 1 {
      script := ShortestScript(Init(s), t);
      DeleteLastThen(script, s, t);
      script := [Delete(|s| - 1)] + script;
    } else {
      script := ShortestScript(Init(s), Init(t));
      ThenReplaceLast(script, s, t);
      if Last(s) != Last(t) {
        script := script + [Replace(|t| - 1, Last(t))];
      }
    }
  }

  lemma {:induction false} LevenshteinIsSymmetric(s: string, t: string)
    ensures Levenshtein(s, t) == Levenshtein(t, s)
    decreases |s| + |t|
  {
    if s != "" && t != "" {
      LevenshteinIsSymmetric(Init(s), t);
      LevenshteinIsSymmetric(s, Init(t));
      LevenshteinIsSymmetric(Init(s), Init(t));
    }
  }

  // ----- What the table computes -----

  lemma {:induction false} TableIsSymmetric(s: string, t: string)
    ensures Table(s, t) == Table(t, s)
    decreases |s| + |t|
  {
    if s != "" && t != "" {
      TableIsSymmetric(Init(s), t);
      TableIsSymmetric(s, Init(t));
      TableIsSymmetric(Init(s), Init(t));
    }
  }

  lemma {:induction false} TableIsSmall(s: string, t: string)
    ensures Table(s, t) <= |s| && Table(s, t) <= |t|
    decreases |s| + |t|
  {
    if s != "" && t != "" {
      TableIsSmall(Init(s), Init(t));
    }
  }

  /** Neighbouring cells differ by at most one. */
  lemma {:induction false} Neighbours(s: string, t: string)
    requires t != ""
    ensures Table(s, Init(t)) - 1 <= Table(s, t) <= Table(s, Init(t)) + 1
    decreases |s| + |t|
  {
    TableIsSmall(s, t);
    var t' := Init(t);
    if s != "" && t' != "" {
      var s' := Init(s);
      Neighbours(t', s);
      TableIsSymmetric(s, t');
      TableIsSymmetric(s', t');
      Neighbours(s', t);
    }
  }

  /** Dropping a prefix of s first, the true distance is never below the table's value. */
  lemma {:induction false} TableBelowDrop(s: string, t: string, k: nat)
    requires k <= |s|
    ensures Table(s, t) <= Levenshtein(s[k..], t)
    decreases |s| + |t|
  {
    if k == |s| || t == "" {
      TableIsSmall(s, t);
    } else {
      var s', t' := Init(s), Init(t);
      assert Init(s[k..]) == s'[k..];
      TableBelowDrop(s', t, k);
      TableBelowDrop(s, t', k);
      TableBelowDrop(s', t', k);
      if Last(s) == Last(t) {
        Neighbours(s', t);
        Neighbours(t', s);
        TableIsSymmetric(s, t');
        TableIsSymmetric(s', t');
      }
    }
  }

  /** i characters are dropped from the front of s and j from the front of t, not both. */
  predicate OneDrop(s: string, t: string, i: nat, j: nat) {
    i <= |s| && j <= |t| && (i == 0 || j == 0)
  }

  lemma TableIsLeast(s: string, t: string, i: nat, j: nat)
    requires OneDrop(s, t, i, j)
    ensures Table(s, t) <= Levenshtein(s[i..], t[j..])
  {
    if j == 0 {
      assert t[j..] == t;
      TableBelowDrop(s, t, i);
    } else {
      assert s[i..] == s;
      TableBelowDrop(t, s, j);
      TableIsSymmetric(s, t);
      LevenshteinIsSymmetric(s, t[j..]);
    }
  }

  /** A drop that is optimal for a neighbouring cell costs at most the step to that cell more. */
  lemma StepFromDrop(s: string, t: string, i: nat, j: nat)
    requires s != "" && t != ""
    ensures OneDrop(Init(s), t, i, j) ==>
              Levenshtein(s[i..], t[j..]) <= Levenshtein(Init(s)[i..], t[j..]) + 1
    ensures OneDrop(s, Init(t), i, j) ==>
              Levenshtein(s[i..], t[j..]) <= Levenshtein(s[i..], Init(t)[j..]) + 1
    ensures OneDrop(Init(s), Init(t), i, j) ==>
              Levenshtein(s[i..], t[j..]) <= Levenshtein(Init(s)[i..], Init(t)[j..]) + Cost(Last(s), Last(t))
  {
    if i < |s| {
      assert Init(s[i..]) == Init(s)[i..];
    }
    if j < |t| {
      assert Init(t[j..]) == Init(t)[j..];
    }
    if i <= |s| && j <= |t| {
      LevenshteinSteps(s[i..], t[j..]);
    }
  }

  /** Some drop from one of the strings reaches the table's value. */
  lemma {:induction false} TableIsReached(s: string, t: string) returns (i: nat, j: nat)
    ensures OneDrop(s, t, i, j)
    ensures Table(s, t) == Levenshtein(s[i..], t[j..])
    decreases |s| + |t|
  {
    if s == "" {
      i, j := 0, |t|;
    } else if t == "" {
      i, j := |s|, 0;
    } else {
      if Last(s) == Last(t) || Table(s, t) == 1 + Table(Init(s), Init(t)) {
        i, j := TableIsReached(Init(s), Init(t));
      } else if Table(s, t) == 1 + Table(s, Init(t)) {
        i, j := TableIsReached(s, Init(t));
      } else {
        i, j := TableIsReached(Init(s), t);
      }
      StepFromDrop(s, t, i, j);
      TableIsLeast(s, t, i, j);
    }
  }

  /** The table holds the true distance if and only if no drop from one of the strings is cheaper. */
  lemma TableIsTrueIff(s: string, t: string)
    ensures Table(s, t) == Levenshtein(s, t) <==>
            forall i: nat, j: nat :: OneDrop(s, t, i, j) ==> Levenshtein(s, t) <= Levenshtein(s[i..], t[j..])
  {
    if Table(s, t) == Levenshtein(s, t) {
      forall i: nat, j: nat | OneDrop(s, t, i, j) ensures Levenshtein(s, t) <= Levenshtein(s[i..], t[j..]) {
        TableIsLeast(s, t, i, j);
      }
    }
    var i, j := TableIsReached(s, t);
    TableIsLeast(s, t, 0, 0);
    assert s[0..] == s && t[0..] == t;
  }

  predicate IsSuffix(s: string, t: string) {
    |s| <= |t| && s == t[|t| - |s|..]
  }

  lemma {:induction false} LevenshteinZero(s: string, t: string)
    requires Levenshtein(s, t) == 0
    ensures s == t
    decreases |s|
  {
    if s != "" && t != "" {
      LevenshteinZero(Init(s), Init(t));
      assert s == Init(s) + [Last(s)] && t == Init(t) + [Last(t)];
    }
  }

  /** The value is zero exactly when one string is a suffix of the other. */
  lemma TableZeroIffSuffix(s: string, t: string)
    ensures Table(s, t) == 0 <==> IsSuffix(s, t) || IsSuffix(t, s)
  {
    var i, j := TableIsReached(s, t);
    if Table(s, t) == 0 {
      LevenshteinZero(s[i..], t[j..]);
      assert if i == 0 then IsSuffix(s, t) else IsSuffix(t, s);
    }
    if IsSuffix(s, t) {
      TableIsLeast(s, t, 0, |t| - |s|);
      LevenshteinOfSame(s);
    }
    if IsSuffix(t, s) {
      TableIsLeast(s, t, |s| - |t|, 0);
      LevenshteinOfSame(t);
    }
  }

  /** The table never exceeds the true distance, and can be far below it. */
  lemma TableIsNotLevenshtein(s: string, t: string, prefix: string)
    ensures Table(s, t) <= Levenshtein(s, t)
    ensures Table(s, prefix + s) == 0 && |prefix| <= Levenshtein(s, prefix + s)
  {
    assert s[0..] == s && t[0..] == t;
    TableIsLeast(s, t, 0, 0);
    assert (prefix + s)[|prefix|..] == s;
    TableZeroIffSuffix(s, prefix + s);
    LengthDifference(s, prefix + s);
  }

  lemma {:induction false} LengthDifference(s: string, t: string)
    ensures |t| - |s| <= Levenshtein(s, t)
    decreases |s| + |t|
  {
    if s != "" && t != "" {
      LengthDifference(Init(s), t);
      LengthDifference(s, Init(t));
      LengthDifference(Init(s), Init(t));
    }
  }

  // ----- Nearest name -----

  const INT_MAX := 0x7fff_ffff

  /** Distances from INT_MAX on never replace the first candidate. */
  function Capped(s: string, t: string): nat {
    Min(Table(s, t), INT_MAX)
  }

  ghost predicate IsFirstNearest(target: string, candidates: seq<string>, k: nat) {
    && k < |candidates|
    && (forall j :: 0 <= j < |candidates| ==> Capped(target, candidates[k]) <= Capped(target, candidates[j]))
    && (forall j :: 0 <= j < k ==> Capped(target, candidates[k]) < Capped(target, candidates[j]))
  }

  method ClosestString(target: string, candidates: seq<string>) returns (closest: string)
    ensures candidates == [] ==> closest == ""
    ensures candidates != [] ==> exists k: nat :: IsFirstNearest(target, candidates, k) && closest == candidates[k]
  {
    if candidates == [] {
      return "";
    }
    var minIdx := 0;
    var minDist := INT_MAX;
    var k := 0;
    while k < |candidates|
      invariant 0 <= k <= |candidates|
      invariant minIdx < |candidates| && (k == 0 ==> minIdx == 0) && minIdx <= k
      invariant k == 0 ==> minDist == INT_MAX
      invariant k > 0 ==> minIdx < k && minDist == Capped(target, candidates[minIdx])
      invariant forall j :: 0 <= j < k ==> minDist <= Capped(target, candidates[j])
      invariant forall j :: 0 <= j < minIdx ==> minDist < Capped(target, candidates[j])
    {
      var levenshtein := LevenshteinDistance(target, candidates[k]);
      if levenshtein < minDist {
        minIdx := k;
        minDist := levenshtein;
      }
      k := k + 1;
    }
    assert IsFirstNearest(target, candidates, minIdx);
    return candidates[minIdx];
  }

  /** For a name shorter than INT_MAX the cap plays no part. */
  lemma NearestWithoutCap(target: string, candidates: seq<string>, k: nat)
    requires |target| < INT_MAX && IsFirstNearest(target, candidates, k)
    ensures forall j :: 0 <= j < |candidates| ==> Table(target, candidates[k]) <= Table(target, candidates[j])
    ensures forall j :: 0 <= j < k ==> Table(target, candidates[k]) < Table(target, candidates[j])
  {
    forall j | 0 <= j < |candidates|
      ensures Capped(target, candidates[j]) == Table(target, candidates[j])
    {
      TableIsSmall(target, candidates[j]);
    }
  }

  /** A name that is among the candidates is the one returned if and only if no earlier candidate is
      a suffix of it or ends with it. */
  lemma ExactNameReturned(target: string, candidates: seq<string>, k: nat, exact: nat)
    requires IsFirstNearest(target, candidates, k)
    requires exact < |candidates| && candidates[exact] == target
    requires forall j :: 0 <= j < exact ==> candidates[j] != target
    ensures candidates[k] == target <==>
            forall j :: 0 <= j < exact ==> !IsSuffix(candidates[j], target) && !IsSuffix(target, candidates[j])
  {
    TableZeroIffSuffix(target, target);
    assert Capped(target, candidates[k]) <= Capped(target, candidates[exact]);
    TableZeroIffSuffix(target, candidates[k]);
    forall j | 0 <= j < exact
      ensures Capped(target, candidates[j]) == 0 <==> IsSuffix(candidates[j], target) || IsSuffix(target, candidates[j])
    {
      TableZeroIffSuffix(target, candidates[j]);
    }
    assert k <= exact;
  }

  /** Asked for "xy", which is listed, the choice is "y", which comes first. */
  lemma ListedNameMissed(k: nat)
    requires IsFirstNearest("xy", ["y", "xy"], k)
    ensures ["y", "xy"][k] == "y"
  {
    var candidates := ["y", "xy"];
    assert "xy"[1..] == "y";
    assert IsSuffix(candidates[0], "xy");
    ExactNameReturned("xy", candidates, k, 1);
  }
}
