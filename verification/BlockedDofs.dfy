/** Forced degrees of freedom of a body (BlockedDOF), built from the YAML tables. Interpolators are
    abstract: the value and the k-th derivative as functions of time. */
module BlockedDofs {
  import opened LinearAlgebra

  datatype State = X | Y | Z | U | V | W | P | Q | R | PHI | THETA | PSI

  datatype Interpolator = Interpolator(f: real -> real, df: (real, nat) -> real)

  /** A table of the YAML file, and the interpolator made of it, unless its construction throws. */
  datatype Table = Table(state: State, t: seq<real>, accepted: bool, interpolator: Interpolator, howApplied: Vector)

  datatype BlockedDof = BlockedDof(
    blocked: map<State, Interpolator>, bodyIdx: nat, tmin: map<State, real>, tmax: map<State, real>, tx: Matrix)

  datatype Built = Built(dof: BlockedDof) | DefinedTwice | InterpolatorRefused | PositionsAndVelocities

  const AXES := 6
  const STATES_PER_BODY := 13

  predicate IsPosition(s: State) {
    s in {X, Y, Z, PHI, THETA, PSI}
  }

  /** Row of the state in the six-component vectors of positions or of velocities. */
  function Axis(s: State): (axis: nat)
    ensures axis < AXES
  {
    match s
    case X => 0 case Y => 1 case Z => 2 case PHI => 3 case THETA => 4 case PSI => 5
    case U => 0 case V => 1 case W => 2 case P => 3 case Q => 4 case R => 5
  }

  function PositionOf(axis: nat): (s: State)
    requires axis < AXES
    ensures IsPosition(s) && Axis(s) == axis
  {
    [X, Y, Z, PHI, THETA, PSI][axis]
  }

  function VelocityOf(axis: nat): (s: State)
    requires axis < AXES
    ensures !IsPosition(s) && Axis(s) == axis
  {
    [U, V, W, P, Q, R][axis]
  }

  /** A state is known by its kind and its axis. */
  lemma AxisIsInjective(s: State, s': State)
    requires IsPosition(s) == IsPosition(s') && Axis(s) == Axis(s')
    ensures s == s'
  {
  }

  // ----- Construction -----

  predicate ValidTable(table: Table) {
    table.t != [] && |table.howApplied| == AXES
  }

  /** A table as read: no interpolator is made of no samples. */
  predicate Readable(table: Table) {
    |table.howApplied| == AXES && (table.accepted ==> table.t != [])
  }

  predicate AllAccepted(tables: seq<Table>) {
    forall i :: 0 <= i < |tables| ==> tables[i].accepted
  }

  predicate IsMin(m: real, ts: seq<real>) {
    m in ts && forall i :: 0 <= i < |ts| ==> m <= ts[i]
  }

  predicate IsMax(m: real, ts: seq<real>) {
    m in ts && forall i :: 0 <= i < |ts| ==> ts[i] <= m
  }

  method Extrema(ts: seq<real>) returns (low: real, high: real)
    requires ts != []
    ensures IsMin(low, ts) && IsMax(high, ts)
  {
    low, high := ts[0], ts[0];
    for i := 1 to |ts|
      invariant IsMin(low, ts[..i]) && IsMax(high, ts[..i])
    {
      assert ts[..i + 1] == ts[..i] + [ts[i]];
      if ts[i] < low {
        low := ts[i];
      }
      if high < ts[i] {
        high := ts[i];
      }
    }
    assert ts[..|ts|] == ts;
  }

  predicate StatesDiffer(tables: seq<Table>) {
    forall i, j :: 0 <= i < j < |tables| ==> tables[i].state != tables[j].state
  }

  /** The object agrees with one table. */
  ghost predicate Reflects(dof: BlockedDof, table: Table) {
    && table.state in dof.blocked && dof.blocked[table.state] == table.interpolator
    && table.state in dof.tmin && IsMin(dof.tmin[table.state], table.t)
    && table.state in dof.tmax && IsMax(dof.tmax[table.state], table.t)
    && IsMatrix(dof.tx, AXES, AXES)
    && (IsPosition(table.state) ==> Column(dof.tx, Axis(table.state)) == table.howApplied)
  }

  predicate States(tables: seq<Table>, s: State) {
    exists i :: 0 <= i < |tables| && tables[i].state == s
  }

  /** Agreement with all tables, and nothing else forced. */
  ghost predicate ReflectsAll(dof: BlockedDof, tables: seq<Table>) {
    && dof.tmin.Keys == dof.tmax.Keys == dof.blocked.Keys
    && (forall i :: 0 <= i < |tables| ==> Reflects(dof, tables[i]))
    && (forall s :: s in dof.blocked ==> States(tables, s))
    && IsMatrix(dof.tx, AXES, AXES)
    && (forall i, j :: 0 <= i < AXES && 0 <= j < AXES && PositionOf(j) !in dof.blocked ==> dof.tx[i][j] == 0.0)
  }

  predicate OnlyPositions(states: set<State>) {
    forall s :: s in states ==> IsPosition(s)
  }

  predicate OnlyVelocities(states: set<State>) {
    forall s :: s in states ==> !IsPosition(s)
  }

  predicate SomePosition(tables: seq<Table>) {
    exists i :: 0 <= i < |tables| && IsPosition(tables[i].state)
  }

  predicate SomeVelocity(tables: seq<Table>) {
    exists i :: 0 <= i < |tables| && !IsPosition(tables[i].state)
  }

  /** What the constructor guarantees of every object it returns. */
  predicate Valid(dof: BlockedDof) {
    && dof.tmin.Keys == dof.tmax.Keys == dof.blocked.Keys
    && IsMatrix(dof.tx, AXES, AXES)
    && (OnlyPositions(dof.blocked.Keys) || OnlyVelocities(dof.blocked.Keys))
  }

  method CheckNotDefinedTwice(tables: seq<Table>) returns (ok: bool)
    ensures ok <==> StatesDiffer(tables)
  {
    var defined: set<State> := {};
    for i := 0 to |tables|
      invariant StatesDiffer(tables[..i])
      invariant forall s :: s in defined <==> States(tables[..i], s)
    {
      assert tables[..i + 1] == tables[..i] + [tables[i]];
      if tables[i].state in defined {
        var j :| 0 <= j < i && tables[..i][j].state == tables[i].state;
        assert tables[j].state == tables[i].state;
        return false;
      }
      forall s
        ensures s in defined + {tables[i].state} <==> States(tables[..i + 1], s)
      {
        StatesOneMore(tables, i, s);
      }
      defined := defined + {tables[i].state};
    }
    assert tables[..|tables|] == tables;
    return true;
  }

  /** The maps that the tables are first gathered in. */
  datatype Gathered = Gathered(
    blocked: map<State, Interpolator>, tmin: map<State, real>, tmax: map<State, real>, howApplied: map<State, Vector>)

  ghost predicate Recorded(g: Gathered, table: Table) {
    && table.state in g.blocked && g.blocked[table.state] == table.interpolator
    && table.state in g.tmin && IsMin(g.tmin[table.state], table.t)
    && table.state in g.tmax && IsMax(g.tmax[table.state], table.t)
    && table.state in g.howApplied && g.howApplied[table.state] == table.howApplied
  }

  ghost predicate AllRecorded(g: Gathered, tables: seq<Table>) {
    forall i :: 0 <= i < |tables| ==> Recorded(g, tables[i])
  }

  ghost predicate OnlyRecorded(g: Gathered, tables: seq<Table>) {
    && g.blocked.Keys == g.tmin.Keys == g.tmax.Keys == g.howApplied.Keys
    && forall s :: s in g.blocked ==> States(tables, s) && |g.howApplied[s]| == AXES
  }

  ghost predicate RecordedAll(g: Gathered, tables: seq<Table>) {
    AllRecorded(g, tables) && OnlyRecorded(g, tables)
  }

  function Record(g: Gathered, table: Table, low: real, high: real): Gathered {
    Gathered(g.blocked[table.state := table.interpolator], g.tmin[table.state := low], g.tmax[table.state := high],
             g.howApplied[table.state := table.howApplied])
  }

  lemma StillRecorded(g: Gathered, table: Table, other: Table, low: real, high: real)
    requires Recorded(g, other) && other.state != table.state
    ensures Recorded(Record(g, table, low, high), other)
  {
  }

  lemma StatesOneMore(tables: seq<Table>, i: nat, s: State)
    requires i < |tables|
    ensures States(tables[..i + 1], s) <==> States(tables[..i], s) || s == tables[i].state
  {
    if States(tables[..i], s) {
      var j :| 0 <= j < i && tables[..i][j].state == s;
      assert tables[..i + 1][j].state == s;
    }
    if s == tables[i].state {
      assert tables[..i + 1][i].state == s;
    }
    if States(tables[..i + 1], s) && s != tables[i].state {
      var j :| 0 <= j < i + 1 && tables[..i + 1][j].state == s;
      assert tables[..i][j].state == s;
    }
  }

  lemma RecordOneMore(g: Gathered, tables: seq<Table>, i: nat, low: real, high: real)
    requires i < |tables| && StatesDiffer(tables) && AllRecorded(g, tables[..i])
    requires IsMin(low, tables[i].t) && IsMax(high, tables[i].t)
    ensures AllRecorded(Record(g, tables[i], low, high), tables[..i + 1])
  {
    var more := tables[..i + 1];
    forall j | 0 <= j < |more|
      ensures Recorded(Record(g, tables[i], low, high), more[j])
    {
      if j < i {
        assert Recorded(g, tables[..i][j]);
        StillRecorded(g, tables[i], tables[j], low, high);
      }
    }
  }

  lemma RecordNothingElse(g: Gathered, tables: seq<Table>, i: nat, low: real, high: real)
    requires i < |tables| && OnlyRecorded(g, tables[..i]) && ValidTable(tables[i])
    ensures OnlyRecorded(Record(g, tables[i], low, high), tables[..i + 1])
  {
    forall s | s in Record(g, tables[i], low, high).blocked
      ensures States(tables[..i + 1], s)
    {
      StatesOneMore(tables, i, s);
    }
  }

  method Gather(tables: seq<Table>) returns (g: Gathered)
    requires StatesDiffer(tables) && forall i :: 0 <= i < |tables| ==> ValidTable(tables[i])
    ensures RecordedAll(g, tables)
  {
    g := Gathered(map[], map[], map[], map[]);
    for i := 0 to |tables|
      invariant RecordedAll(g, tables[..i])
    {
      var low, high := Extrema(tables[i].t);
      RecordOneMore(g, tables, i, low, high);
      RecordNothingElse(g, tables, i, low, high);
      g := Record(g, tables[i], low, high);
    }
    assert tables[..|tables|] == tables;
  }

  function Total(counts: seq<nat>): nat
    requires |counts| == AXES
  {
    counts[0] + counts[1] + counts[2] + counts[3] + counts[4] + counts[5]
  }

  /** Each diagonal entry counts the states met so far that it stands for. */
  predicate CountsStates(positions: seq<nat>, velocities: seq<nat>, met: set<State>) {
    && |positions| == |velocities| == AXES
    && (forall j :: 0 <= j < AXES ==> positions[j] == if PositionOf(j) in met then 1 else 0)
    && (forall j :: 0 <= j < AXES ==> velocities[j] == if VelocityOf(j) in met then 1 else 0)
  }

  lemma CountPosition(positions: seq<nat>, velocities: seq<nat>, met: set<State>, s: State)
    requires CountsStates(positions, velocities, met) && s !in met && IsPosition(s)
    ensures CountsStates(positions[Axis(s) := positions[Axis(s)] + 1], velocities, met + {s})
  {
    AxisIsInjective(s, PositionOf(Axis(s)));
  }

  lemma CountVelocity(positions: seq<nat>, velocities: seq<nat>, met: set<State>, s: State)
    requires CountsStates(positions, velocities, met) && s !in met && !IsPosition(s)
    ensures CountsStates(positions, velocities[Axis(s) := velocities[Axis(s)] + 1], met + {s})
  {
    AxisIsInjective(s, VelocityOf(Axis(s)));
  }

  lemma TotalsTellKinds(positions: seq<nat>, velocities: seq<nat>, met: set<State>)
    requires CountsStates(positions, velocities, met)
    ensures Total(positions) == 0 <==> OnlyVelocities(met)
    ensures Total(velocities) == 0 <==> OnlyPositions(met)
  {
    forall s | s in met && IsPosition(s)
      ensures Total(positions) > 0
    {
      AxisIsInjective(s, PositionOf(Axis(s)));
    }
    forall s | s in met && !IsPosition(s)
      ensures Total(velocities) > 0
    {
      AxisIsInjective(s, VelocityOf(Axis(s)));
    }
  }

  /** Column j holds the forcing pattern of position j once that state has been met, else zeros. */
  ghost predicate PatternsOf(tx: Matrix, g: Gathered, met: set<State>) {
    && IsMatrix(tx, AXES, AXES)
    && forall j :: 0 <= j < AXES ==>
         if PositionOf(j) in met && PositionOf(j) in g.howApplied
         then Column(tx, j) == g.howApplied[PositionOf(j)]
         else Column(tx, j) == Zero(AXES)
  }

  /** The matrices that the constructor fills from the map of forced states: the diagonals of the two
      forcing matrices, and the forcing patterns. */
  method FillMatrices(g: Gathered) returns (deltaX: seq<nat>, deltaV: seq<nat>, tx: Matrix)
    requires g.blocked.Keys == g.howApplied.Keys && forall s :: s in g.blocked ==> |g.howApplied[s]| == AXES
    ensures CountsStates(deltaX, deltaV, g.blocked.Keys)
    ensures PatternsOf(tx, g, g.blocked.Keys)
  {
    deltaX, deltaV := [0, 0, 0, 0, 0, 0], [0, 0, 0, 0, 0, 0];
    tx := ZeroMatrix(AXES, AXES);
    NoPatterns(tx, g);
    var todo := g.blocked.Keys;
    while todo != {}
      invariant todo <= g.blocked.Keys
      invariant CountsStates(deltaX, deltaV, g.blocked.Keys - todo)
      invariant PatternsOf(tx, g, g.blocked.Keys - todo)
      decreases todo
    {
      var s :| s in todo;
      ghost var met := g.blocked.Keys - todo;
      assert g.blocked.Keys - (todo - {s}) == met + {s};
      if IsPosition(s) {
        CountPosition(deltaX, deltaV, met, s);
        OnePatternMore(tx, g, met, s);
        deltaX := deltaX[Axis(s) := deltaX[Axis(s)] + 1];
        tx := SetColumn(tx, AXES, Axis(s), g.howApplied[s]);
      } else {
        CountVelocity(deltaX, deltaV, met, s);
        NoPatternForVelocity(tx, g, met, s);
        deltaV := deltaV[Axis(s) := deltaV[Axis(s)] + 1];
      }
      todo := todo - {s};
    }
    assert g.blocked.Keys - todo == g.blocked.Keys;
  }

  lemma ProductIsZero(a: nat, b: nat)
    ensures a * b == 0 <==> a == 0 || b == 0
  {
  }

  method BuildInterpolators(tables: seq<Table>) returns (ok: bool)
    ensures ok <==> AllAccepted(tables)
  {
    for i := 0 to |tables|
      invariant AllAccepted(tables[..i])
    {
      if !tables[i].accepted {
        return false;
      }
    }
    return true;
  }

  /** Duplicate states are refused, then tables that make no interpolator, then positions together with
      velocities. */
  method Build(tables: seq<Table>, bodyIdx: nat) returns (r: Built)
    requires forall i :: 0 <= i < |tables| ==> Readable(tables[i])
    ensures r.DefinedTwice? <==> !StatesDiffer(tables)
    ensures r.InterpolatorRefused? <==> StatesDiffer(tables) && !AllAccepted(tables)
    ensures r.PositionsAndVelocities? <==>
            StatesDiffer(tables) && AllAccepted(tables) && SomePosition(tables) && SomeVelocity(tables)
    ensures r.Built? ==> r.dof.bodyIdx == bodyIdx && ReflectsAll(r.dof, tables) && Valid(r.dof)
  {
    var ok := CheckNotDefinedTwice(tables);
    if !ok {
      return DefinedTwice;
    }
    ok := BuildInterpolators(tables);
    if !ok {
      return InterpolatorRefused;
    }
    var g := Gather(tables);
    var deltaX, deltaV, tx := FillMatrices(g);
    TotalsTellKinds(deltaX, deltaV, g.blocked.Keys);
    KindsOfTables(g, tables);
    // The source also refuses a diagonal entry above one, which CountsStates rules out.
    ProductIsZero(Total(deltaX), Total(deltaV));
    if Total(deltaX) * Total(deltaV) != 0 {
      return PositionsAndVelocities;
    }
    var dof := BlockedDof(g.blocked, bodyIdx, g.tmin, g.tmax, tx);
    PatternsReflected(g, dof, tables);
    return Built(dof);
  }

  lemma NoPatterns(tx: Matrix, g: Gathered)
    requires tx == ZeroMatrix(AXES, AXES)
    ensures PatternsOf(tx, g, {})
  {
    forall j | 0 <= j < AXES
      ensures Column(tx, j) == Zero(AXES)
    {
    }
  }

  lemma OnePatternMore(tx: Matrix, g: Gathered, met: set<State>, s: State)
    requires PatternsOf(tx, g, met) && s in g.howApplied && IsPosition(s) && |g.howApplied[s]| == AXES
    ensures PatternsOf(SetColumn(tx, AXES, Axis(s), g.howApplied[s]), g, met + {s})
  {
    AxisIsInjective(s, PositionOf(Axis(s)));
  }

  lemma NoPatternForVelocity(tx: Matrix, g: Gathered, met: set<State>, s: State)
    requires PatternsOf(tx, g, met) && !IsPosition(s)
    ensures PatternsOf(tx, g, met + {s})
  {
  }

  lemma KindsOfTables(g: Gathered, tables: seq<Table>)
    requires RecordedAll(g, tables)
    ensures SomePosition(tables) <==> !OnlyVelocities(g.blocked.Keys)
    ensures SomeVelocity(tables) <==> !OnlyPositions(g.blocked.Keys)
  {
    forall i | 0 <= i < |tables|
      ensures tables[i].state in g.blocked
    {
      assert Recorded(g, tables[i]);
    }
  }

  lemma PatternsReflected(g: Gathered, dof: BlockedDof, tables: seq<Table>)
    requires RecordedAll(g, tables) && PatternsOf(dof.tx, g, g.blocked.Keys)
    requires dof.blocked == g.blocked && dof.tmin == g.tmin && dof.tmax == g.tmax
    ensures ReflectsAll(dof, tables)
    ensures OnlyPositions(g.blocked.Keys) || OnlyVelocities(g.blocked.Keys) ==> Valid(dof)
  {
    forall i | 0 <= i < |tables|
      ensures Reflects(dof, tables[i])
    {
      assert Recorded(g, tables[i]);
      if IsPosition(tables[i].state) {
        AxisIsInjective(tables[i].state, PositionOf(Axis(tables[i].state)));
      }
    }
    forall i, j | 0 <= i < AXES && 0 <= j < AXES && PositionOf(j) !in dof.blocked
      ensures dof.tx[i][j] == 0.0
    {
      assert Column(dof.tx, j)[i] == 0.0;
    }
  }

  // ----- What is forced when -----

  /** Closed window, used for states and for the forcing matrices. */
  predicate IsBlocked(dof: BlockedDof, s: State, t: real) {
    s in dof.tmin && s in dof.tmax && dof.tmin[s] <= t <= dof.tmax[s]
  }

  /** For derivatives the window is open at its end, where the motion may be discontinuous. */
  predicate IsBlockedAtOrder(dof: BlockedDof, s: State, t: real, k: nat) {
    s in dof.tmin && s in dof.tmax &&
    if k == 0 then dof.tmin[s] <= t <= dof.tmax[s] else dof.tmin[s] <= t < dof.tmax[s]
  }

  function ValueAtOrder(interpolator: Interpolator, t: real, k: nat): real {
    if k == 0 then interpolator.f(t) else interpolator.df(t, k)
  }

  /** The forcing matrix of a kind of states: 1 on the diagonal for each one forced at t. */
  function Delta(dof: BlockedDof, positions: bool, t: real): (m: Matrix)
    ensures IsMatrix(m, AXES, AXES)
  {
    seq(AXES, i requires 0 <= i < AXES =>
      if ForcedAxis(dof, positions, i, t) then Unit(AXES, i) else Zero(AXES))
  }

  predicate ForcedAxis(dof: BlockedDof, positions: bool, axis: nat, t: real)
    requires axis < AXES
  {
    var s := if positions then PositionOf(axis) else VelocityOf(axis);
    s in dof.blocked && IsBlocked(dof, s, t)
  }

  /** The states of a kind forced at t, among those met. */
  ghost predicate DeltaSoFar(m: Matrix, dof: BlockedDof, positions: bool, t: real, met: set<State>) {
    && IsMatrix(m, AXES, AXES)
    && forall i :: 0 <= i < AXES ==>
         var s := if positions then PositionOf(i) else VelocityOf(i);
         m[i] == if s in met && IsBlocked(dof, s, t) then Unit(AXES, i) else Zero(AXES)
  }

  lemma DeltaStep(m: Matrix, dof: BlockedDof, positions: bool, t: real, met: set<State>, s: State)
    requires DeltaSoFar(m, dof, positions, t, met) && s !in met
    ensures var i := Axis(s);
            DeltaSoFar(if IsBlocked(dof, s, t)
            && IsPosition(s) == positions then m[i := m[i][i := m[i][i] + 1.0]] else m,
                       dof, positions, t, met + {s})
  {
    AxisIsInjective(s, if IsPosition(s) then PositionOf(Axis(s)) else VelocityOf(Axis(s)));
  }

  /** get_delta_x and get_delta_v: both run over the map of forced states and add one to the entry of
      each state of their kind that is blocked. */
  method GetDelta(dof: BlockedDof, positions: bool, t: real) returns (m: Matrix)
    ensures m == Delta(dof, positions, t)
  {
    m := ZeroMatrix(AXES, AXES);
    var todo := dof.blocked.Keys;
    while todo != {}
      invariant todo <= dof.blocked.Keys
      invariant DeltaSoFar(m, dof, positions, t, dof.blocked.Keys - todo)
      decreases todo
    {
      var s :| s in todo;
      assert dof.blocked.Keys - (todo - {s}) == (dof.blocked.Keys - todo) + {s};
      DeltaStep(m, dof, positions, t, dof.blocked.Keys - todo, s);
      if IsBlocked(dof, s, t) && IsPosition(s) == positions {
        var i := Axis(s);
        m := m[i := m[i][i := m[i][i] + 1.0]];
      }
      todo := todo - {s};
    }
    assert dof.blocked.Keys - todo == dof.blocked.Keys;
  }

  /** The samples of a table, and all times between two of them, are the times at which its state is forced; for
      derivatives the last sample is left out. */
  lemma WindowIsSampled(dof: BlockedDof, table: Table, t: real)
    requires Reflects(dof, table)
    ensures IsBlocked(dof, table.state, t) <==>
            exists i, j :: 0 <= i < |table.t| && 0 <= j < |table.t| && table.t[i] <= t <= table.t[j]
    ensures forall k: nat :: k > 0 ==>
              (IsBlockedAtOrder(dof, table.state, t, k) <==>
               exists i, j :: 0 <= i < |table.t| && 0 <= j < |table.t| && table.t[i] <= t < table.t[j])
  {
    var first :| 0 <= first < |table.t| && table.t[first] == dof.tmin[table.state];
    var last :| 0 <= last < |table.t| && table.t[last] == dof.tmax[table.state];
    assert dof.tmin[table.state] <= t <= dof.tmax[table.state] ==> table.t[first] <= t <= table.t[last];
    assert dof.tmin[table.state] <= t < dof.tmax[table.state] ==> table.t[first] <= t < table.t[last];
  }

  /** The forcing matrices are diagonal with entries 0 and 1, one for each state in its order, and never both
      non-zero. */
  lemma ForcingMatrices(dof: BlockedDof, t: real)
    requires Valid(dof)
    ensures forall i :: 0 <= i < AXES ==>
              var (x, v) := ([X, Y, Z, PHI, THETA, PSI][i], [U, V, W, P, Q, R][i]);
              && (Delta(dof, true, t)[i][i] == 1.0 <==> x in dof.blocked && IsBlocked(dof, x, t))
              && (Delta(dof, false, t)[i][i] == 1.0 <==> v in dof.blocked && IsBlocked(dof, v, t))
    ensures forall p: bool, i, j :: 0 <= i < AXES && 0 <= j < AXES ==>
              Delta(dof, p, t)[i][j] == if i == j && ForcedAxis(dof, p, i, t) then 1.0 else 0.0
    ensures Delta(dof, true, t) == ZeroMatrix(AXES, AXES) || Delta(dof, false, t) == ZeroMatrix(AXES, AXES)
  {
    if OnlyPositions(dof.blocked.Keys) {
      assert forall i :: 0 <= i < AXES ==> !ForcedAxis(dof, false, i, t);
    } else {
      assert forall i :: 0 <= i < AXES ==> !ForcedAxis(dof, true, i, t);
    }
  }

  // ----- Forced values -----

  /** The vector with the components of the states of a kind forced at that order replaced. */
  function Overridden(dof: BlockedDof, positions: bool, t: real, k: nat, x: Vector): (v: Vector)
    requires |x| == AXES
    ensures |v| == AXES
  {
    seq(AXES, i requires 0 <= i < AXES =>
      var s := if positions then PositionOf(i) else VelocityOf(i);
      if s in dof.blocked && IsBlockedAtOrder(dof, s, t, k) then ValueAtOrder(dof.blocked[s], t, k) else x[i])
  }

  ghost predicate OverriddenSoFar(v: Vector, dof: BlockedDof, positions: bool, t: real, k: nat, x: Vector,
                                  met: set<State>)
    requires |x| == AXES
  {
    && |v| == AXES
    && forall i :: 0 <= i < AXES ==>
         var s := if positions then PositionOf(i) else VelocityOf(i);
         v[i] == if s in met && s in dof.blocked && IsBlockedAtOrder(dof, s, t, k)
                 then ValueAtOrder(dof.blocked[s], t, k) else x[i]
  }

  lemma OverrideStep(v: Vector, dof: BlockedDof, positions: bool, t: real, k: nat, x: Vector, met: set<State>, s: State)
    requires |x| == AXES && s in dof.blocked && s !in met
    requires OverriddenSoFar(v, dof, positions, t, k, x, met)
    ensures OverriddenSoFar(if IsBlockedAtOrder(dof, s, t, k) && IsPosition(s) == positions
                            then v[Axis(s) := ValueAtOrder(dof.blocked[s], t, k)] else v,
                            dof, positions, t, k, x, met + {s})
  {
    AxisIsInjective(s, if IsPosition(s) then PositionOf(Axis(s)) else VelocityOf(Axis(s)));
  }

  /** get_forced_x_k and get_forced_v_k. */
  method GetForced(dof: BlockedDof, positions: bool, t: real, x: Vector, k: nat) returns (v: Vector)
    requires |x| == AXES
    ensures v == Overridden(dof, positions, t, k, x)
  {
    v := x;
    var todo := dof.blocked.Keys;
    while todo != {}
      invariant todo <= dof.blocked.Keys
      invariant OverriddenSoFar(v, dof, positions, t, k, x, dof.blocked.Keys - todo)
      decreases todo
    {
      var s :| s in todo;
      assert dof.blocked.Keys - (todo - {s}) == (dof.blocked.Keys - todo) + {s};
      OverrideStep(v, dof, positions, t, k, x, dof.blocked.Keys - todo, s);
      if IsBlockedAtOrder(dof, s, t, k) && IsPosition(s) == positions {
        v := v[Axis(s) := ValueAtOrder(dof.blocked[s], t, k)];
      }
      todo := todo - {s};
    }
    assert dof.blocked.Keys - todo == dof.blocked.Keys;
  }

  /** Component by component: the table's value or k-th derivative from the first sample on, up to the last one, or
      just before it for a derivative. */
  lemma ForcedComponent(dof: BlockedDof, positions: bool, t: real, k: nat, x: Vector, i: nat, s: State)
    requires Valid(dof) && |x| == AXES && i < AXES
    requires s == (if positions then [X, Y, Z, PHI, THETA, PSI] else [U, V, W, P, Q, R])[i]
    ensures Overridden(dof, positions, t, k, x)[i] ==
            if s in dof.blocked && dof.tmin[s] <= t && (t < dof.tmax[s] || (k == 0 && t == dof.tmax[s]))
            then (if k == 0 then dof.blocked[s].f(t) else dof.blocked[s].df(t, k)) else x[i]
  {
  }

  /** Second derivatives taken from a zero vector: zero on every axis that is not forced, and zero as
      well on a forced axis at the very end of its window. */
  lemma SecondDerivatives(dof: BlockedDof, t: real, axis: nat)
    requires axis < AXES && Valid(dof)
    ensures var dd := Overridden(dof, true, t, 2, Zero(AXES))[axis];
            var s := PositionOf(axis);
            dd == if !ForcedAxis(dof, true, axis, t) || t == dof.tmax[s] then 0.0 else dof.blocked[s].df(t, 2)
  {
  }

  /** Slot of the state vector that holds s; roll, pitch and yaw go to the last three quaternion slots. */
  function StateIndex(s: State, bodyIdx: nat): nat {
    bodyIdx * STATES_PER_BODY +
    match s
    case X => 0 case Y => 1 case Z => 2 case U => 3 case V => 4 case W => 5
    case P => 6 case Q => 7 case R => 8 case PHI => 10 case THETA => 11 case PSI => 12
  }

  /** Distinct states have distinct slots, within a body and across bodies, and no state has the slot of
      the real part of the quaternion. */
  lemma StateIndexIsInjective(s: State, body: nat, s': State, body': nat)
    ensures StateIndex(s, body) == StateIndex(s', body') ==> s == s' && body == body'
    ensures StateIndex(s, body) != body' * STATES_PER_BODY + 9
    ensures body * STATES_PER_BODY <= StateIndex(s, body) < (body + 1) * STATES_PER_BODY
  {
  }

  predicate IsForcedSlot(dof: BlockedDof, t: real, slot: nat) {
    exists s :: s in dof.blocked && IsBlocked(dof, s, t) && StateIndex(s, dof.bodyIdx) == slot
  }

  /** `after` is `before` with the slot of every state forced at t, and no other, set to its value. */
  ghost predicate IsForced(dof: BlockedDof, t: real, before: seq<real>, after: seq<real>) {
    && |after| == |before| >= (dof.bodyIdx + 1) * STATES_PER_BODY
    && (forall s :: s in dof.blocked && IsBlocked(dof, s, t) ==>
          StateIndex(s, dof.bodyIdx) < |after| && after[StateIndex(s, dof.bodyIdx)] == dof.blocked[s].f(t))
    && (forall i :: 0 <= i < |after| && !IsForcedSlot(dof, t, i) ==> after[i] == before[i])
  }

  method ForceStates(dof: BlockedDof, x: array<real>, t: real)
    requires x.Length >= (dof.bodyIdx + 1) * STATES_PER_BODY
    modifies x
    ensures IsForced(dof, t, old(x[..]), x[..])
  {
    var todo := dof.blocked.Keys;
    while todo != {}
      invariant todo <= dof.blocked.Keys
      invariant forall s :: s in dof.blocked.Keys - todo && IsBlocked(dof, s, t) ==>
                  StateIndex(s, dof.bodyIdx) < x.Length && x[StateIndex(s, dof.bodyIdx)] == dof.blocked[s].f(t)
      invariant forall i :: 0 <= i < x.Length && !IsForcedSlot(dof, t, i) ==> x[i] == old(x[i])
      decreases todo
    {
      var s :| s in todo;
      if IsBlocked(dof, s, t) {
        var slot := StateIndex(s, dof.bodyIdx);
        StateIndexIsInjective(s, dof.bodyIdx, s, dof.bodyIdx);
        forall s' | s' in dof.blocked && s' != s
          ensures StateIndex(s', dof.bodyIdx) != slot
        {
          StateIndexIsInjective(s, dof.bodyIdx, s', dof.bodyIdx);
        }
        assert IsForcedSlot(dof, t, slot);
        x[slot] := dof.blocked[s].f(t);
      }
      todo := todo - {s};
    }
  }

  /** The outcome does not depend on the order in which the map is visited, and forcing twice is the
      same as forcing once. */
  lemma ForcingIsDeterminateAndIdempotent(dof: BlockedDof, t: real, x: seq<real>, y: seq<real>, z: seq<real>)
    requires IsForced(dof, t, x, y)
    ensures IsForced(dof, t, x, z) ==> y == z
    ensures IsForced(dof, t, y, z) ==> y == z
  {
    if IsForced(dof, t, x, z) || IsForced(dof, t, y, z) {
      forall i | 0 <= i < |y|
        ensures y[i] == z[i]
      {
        if IsForcedSlot(dof, t, i) {
          var s :| s in dof.blocked && IsBlocked(dof, s, t) && StateIndex(s, dof.bodyIdx) == i;
        }
      }
    }
  }

  /** The value of s forced at t, if it is forced. */
  function Chosen(dof: BlockedDof, s: State, t: real, free: real): real {
    if s in dof.blocked && IsBlocked(dof, s, t) then dof.blocked[s].f(t) else free
  }

  lemma ForcedSlot(dof: BlockedDof, t: real, before: seq<real>, after: seq<real>, s: State, slot: nat)
    requires IsForced(dof, t, before, after) && slot == StateIndex(s, dof.bodyIdx)
    ensures slot < |after| == |before| && after[slot] == Chosen(dof, s, t, before[slot])
  {
    StateIndexIsInjective(s, dof.bodyIdx, s, dof.bodyIdx);
    if !(s in dof.blocked && IsBlocked(dof, s, t)) && IsForcedSlot(dof, t, slot) {
      var s' :| s' in dof.blocked && IsBlocked(dof, s', t) && StateIndex(s', dof.bodyIdx) == slot;
      StateIndexIsInjective(s, dof.bodyIdx, s', dof.bodyIdx);
    }
  }

  ghost predicate HoldsChosen(dof: BlockedDof, t: real, before: seq<real>, after: seq<real>, first: nat,
                              states: seq<State>) {
    && |before| == |after| >= first + |states|
    && forall i :: 0 <= i < |states| ==> after[first + i] == Chosen(dof, states[i], t, before[first + i])
  }

  /** Slot by slot, from the first one of the body: position, velocity, rotation rate, real part of the
      quaternion, and the rest of it. */
  lemma ForcedSlots(dof: BlockedDof, t: real, before: seq<real>, after: seq<real>, first: nat)
    requires IsForced(dof, t, before, after) && first == 13 * dof.bodyIdx
    ensures HoldsChosen(dof, t, before, after, first, [X, Y, Z, U, V, W, P, Q, R])
    ensures |before| == |after| > first + 9 && after[first + 9] == before[first + 9]
    ensures HoldsChosen(dof, t, before, after, first + 10, [PHI, THETA, PSI])
  {
    forall i | 0 <= i < 9
      ensures after[first + i] == Chosen(dof, [X, Y, Z, U, V, W, P, Q, R][i], t, before[first + i])
    {
      ForcedSlot(dof, t, before, after, [X, Y, Z, U, V, W, P, Q, R][i], first + i);
    }
    forall i | 0 <= i < 3
      ensures after[first + 10 + i] == Chosen(dof, [PHI, THETA, PSI][i], t, before[first + 10 + i])
    {
      ForcedSlot(dof, t, before, after, [PHI, THETA, PSI][i], first + 10 + i);
    }
    assert !IsForcedSlot(dof, t, first + 9);
  }

  lemma OtherBodyIsNotForced(dof: BlockedDof, other: BlockedDof, t: real, slot: nat)
    requires dof.bodyIdx != other.bodyIdx && IsForcedSlot(dof, t, slot)
    ensures !IsForcedSlot(other, t, slot)
  {
    var s :| s in dof.blocked && IsBlocked(dof, s, t) && StateIndex(s, dof.bodyIdx) == slot;
    forall s' | s' in other.blocked
      ensures StateIndex(s', other.bodyIdx) != slot
    {
      StateIndexIsInjective(s, dof.bodyIdx, s', other.bodyIdx);
    }
  }

  /** Forcing acts on the slots of its own body only, and never on the real part of a quaternion. */
  lemma ForcingStaysInItsBody(dof: BlockedDof, t: real, x: seq<real>, y: seq<real>, i: nat)
    requires IsForced(dof, t, x, y) && i < |x|
    requires i < dof.bodyIdx * STATES_PER_BODY || (dof.bodyIdx + 1) * STATES_PER_BODY <= i
             || i == dof.bodyIdx * STATES_PER_BODY + 9
    ensures y[i] == x[i]
  {
    forall s
      ensures StateIndex(s, dof.bodyIdx) != i
    {
      StateIndexIsInjective(s, dof.bodyIdx, s, dof.bodyIdx);
    }
  }

  /** The states of two bodies can be forced in either order. */
  lemma ForcingBodiesCommutes(a: BlockedDof, b: BlockedDof, t: real, x: seq<real>,
                              xa: seq<real>, xab: seq<real>, xb: seq<real>, xba: seq<real>)
    requires a.bodyIdx != b.bodyIdx
    requires IsForced(a, t, x, xa) && IsForced(b, t, xa, xab)
    requires IsForced(b, t, x, xb) && IsForced(a, t, xb, xba)
    ensures xab == xba
  {
    forall i | 0 <= i < |x|
      ensures xab[i] == xba[i]
    {
      if IsForcedSlot(a, t, i) {
        OtherBodyIsNotForced(a, b, t, i);
        var s :| s in a.blocked && IsBlocked(a, s, t) && StateIndex(s, a.bodyIdx) == i;
        assert xa[i] == a.blocked[s].f(t) == xba[i];
      } else if IsForcedSlot(b, t, i) {
        var s :| s in b.blocked && IsBlocked(b, s, t) && StateIndex(s, b.bodyIdx) == i;
        assert xb[i] == b.blocked[s].f(t) == xab[i];
      }
    }
  }
}
