/**
  The optimisation problem handed to the genetic algorithm: twelve bounded
  parameters per candidate, five objectives, one constraint, and the batch
  evaluation that scores a population of candidates one at a time.

  The electromagnetic simulator (with the Touchstone export of its result)
  is a parameter of the model: a function from the cell and the project
  folder to either a failure or the magnitudes the objectives read.
*/
module Problem {
  import opened Wrappers
  import opened Decimal
  import CandidateKey
  import Cell
  import opened Sweep
  import opened Objectives

  /** Parameters per candidate: wg_length, t_length, nine upper-taper widths, coupler spacing. */
  const NVar: nat := 12

  const LowerBounds: seq<real> :=
    [0.18, 0.18, 0.38, 0.38, 0.38, 0.38, 0.38, 0.38, 0.38, 0.38, 0.38, 0.18]
  const UpperBounds: seq<real> :=
    [2.0, 6.0, 0.76, 0.76, 0.76, 0.76, 0.76, 0.76, 0.76, 0.76, 0.76, 0.6]

  /** The smallest admissible entry length, taper length and spacing, in thousandths (0.18). */
  const MinFeature: int := 180

  /** The worst-possible objective value every row starts with. */
  const SentinelValue: real := 10000000000.0

  /** The constraint value written for a candidate below the minimum feature size. */
  const BelowFloorValue: real := -1.0

  /** The fixed waveguide width and lower-taper width of every candidate. */
  const FixedWidth: real := 0.38

  /** Where the candidates' folders live: the data directory and the cell's data tag. */
  const DataRoot: string := "data/bdc_oband/"

  datatype Problem = Problem(wavelengths: Sweep, centerWavelength: real)

  /** The problem the optimizer builds by default. */
  const DefaultProblem: Problem := Problem(DefaultSweep, DefaultCenter)

  /**
    What the simulator gives back: it raised, or it produced the scattering
    matrix together with whether writing the Touchstone file succeeded.
  */
  datatype SimResult = SimulationRaised | Simulated(smatrix: SMatrix, touchstoneWritten: bool)

  type Simulator = (Cell.Coupler, string) -> SimResult

  /**
    One call of the simulator during a batch: the candidate's index and its
    rounded parameters, from which the call's cell (`CouplerFor`) and
    folder (`ProjectFolder`) are built.
  */
  datatype Call = Call(index: nat, params: seq<int>)

  /** What evaluating one candidate comes to. */
  datatype Outcome =
    | BelowFloor                   // failed the minimum-feature check; never simulated
    | Raised                       // something in the try block raised
    | Scored(objectives: seq<Score>)

  predicate WithinBounds(x: seq<real>)
  {
    |x| == NVar && forall i :: 0 <= i < NVar ==> LowerBounds[i] <= x[i] <= UpperBounds[i]
  }

  /** `np.round(params, 3)`, in thousandths. */
  function RoundParams(x: seq<real>): (m: seq<int>)
    ensures |m| == |x|
    ensures forall i :: 0 <= i < |x| ==> m[i] == Thousandths(x[i])
  {
    seq(|x|, i requires 0 <= i < |x| => Thousandths(x[i]))
  }

  /** The minimum-feature check on the rounded entry length, taper length and spacing. */
  predicate BelowMinFeature(m: seq<int>)
    requires |m| == NVar
  {
    m[0] < MinFeature || m[1] < MinFeature || m[11] < MinFeature
  }

  /**
    The cell a candidate describes: entry length, taper length and spacing
    from the parameters; upper widths 0.38, the nine parameter widths, 0.38;
    lower widths and waveguide width 0.38; every other field at its default.
  */
  function CouplerFor(m: seq<int>): Cell.Coupler
    requires |m| == NVar
  {
    Cell.Coupler(
      dataTag := Cell.DefaultDataTag,
      wgLength := Value(m[0]),
      wgWidth := FixedWidth,
      tLength := Value(m[1]),
      tWidthU := [FixedWidth] + seq(9, k requires 0 <= k < 9 => Value(m[k + 2])) + [FixedWidth],
      tWidthL := seq(11, _ => FixedWidth),
      couplerSpacing := Value(m[11]),
      claddingOffset := Cell.DefaultCladdingOffset,
      nPoints := Cell.DefaultNPoints)
  }

  /** The folder in which a candidate is simulated and its S-matrix stored. */
  function ProjectFolder(m: seq<int>): string
    requires |m| == NVar
  {
    DataRoot + CandidateKey.Key(m)
  }

  /**
    The try block: the objectives computed from the simulator's result, or
    nothing when a step raises (the simulation, the Touchstone write, the
    grid for a negative count, or an index beyond a magnitude sequence).
  */
  function TryBlock(p: Problem, result: SimResult): (r: Option<seq<Score>>)
    ensures r.Some? ==> |r.value| == Count
  {
    match result
    case SimulationRaised => None
    case Simulated(s, written) =>
      if !written then None
      else match CenterIndex(p.wavelengths, p.centerWavelength)
        case None => None
        case Some(index) => ObjectiveVector(s, index)
  }

  /** The outcome of evaluating one candidate x with the simulator. */
  function Evaluation(p: Problem, x: seq<real>, simulate: Simulator): (o: Outcome)
    requires |x| == NVar
    ensures o.BelowFloor? <==> BelowMinFeature(RoundParams(x))
    ensures o.Scored? ==> |o.objectives| == Count
  {
    var m := RoundParams(x);
    if BelowMinFeature(m) then BelowFloor
    else match TryBlock(p, simulate(CouplerFor(m), ProjectFolder(m)))
      case None => Raised
      case Some(objectives) => Scored(objectives)
  }

  /** The row of F an outcome leaves: the objectives if scored, else the sentinel. */
  function FRow(o: Outcome): (row: seq<Score>)
    requires o.Scored? ==> |o.objectives| == Count
    ensures |row| == Count
    ensures !o.Scored? ==> forall j :: 0 <= j < Count ==> row[j] == Finite(SentinelValue)
  {
    if o.Scored? then o.objectives else seq(Count, _ => Finite(SentinelValue))
  }

  /**
    The entry of G an outcome leaves: -1 below the minimum feature size, 0
    otherwise. Under the optimizer's convention (a constraint value <= 0 is
    feasible) every candidate therefore counts as feasible.
  */
  function GValue(o: Outcome): (g: real)
    ensures g <= 0.0
    ensures g == BelowFloorValue <==> o.BelowFloor?
    ensures g == 0.0 <==> !o.BelowFloor?
  {
    if o.BelowFloor? then BelowFloorValue else 0.0
  }

  // ---- the batch evaluation ----

  /** The rounded parameters of every candidate of a batch. */
  function RoundBatch(x: seq<seq<real>>): (ms: seq<seq<int>>)
    requires forall i :: 0 <= i < |x| ==> |x[i]| == NVar
    ensures |ms| == |x| && forall i :: 0 <= i < |x| ==> ms[i] == RoundParams(x[i]) && |ms[i]| == NVar
  {
    seq(|x|, i requires 0 <= i < |x| => RoundParams(x[i]))
  }

  /** Every entry of a batch of rounded candidates has twelve parameters. */
  predicate Candidates(ms: seq<seq<int>>)
  {
    forall i :: 0 <= i < |ms| ==> |ms[i]| == NVar
  }

  /**
    The simulator call the candidate at index i with rounded parameters m
    makes: none below the floor, otherwise one with m, that is, with the cell
    and folder built from m.
  */
  function CallOf(m: seq<int>, i: nat): (c: Option<Call>)
    requires |m| == NVar
    ensures c.Some? <==> !BelowMinFeature(m)
  {
    if BelowMinFeature(m) then None else Some(Call(i, m))
  }

  /** The simulator calls of the first n candidates of a rounded batch, in the order they are made. */
  function Calls(ms: seq<seq<int>>, n: nat): seq<Call>
    requires n <= |ms| && Candidates(ms)
  {
    if n == 0 then []
    else match CallOf(ms[n - 1], n - 1)
      case None => Calls(ms, n - 1)
      case Some(c) => Calls(ms, n - 1) + [c]
  }

  /** `f[i] = row`: overwrites row i of f and nothing else. */
  method WriteRow(f: array2<Score>, i: nat, row: seq<Score>)
    requires i < f.Length0 && f.Length1 == Count && |row| == Count
    modifies f
    ensures forall r, j :: 0 <= r < f.Length0 && 0 <= j < Count && r != i ==> f[r, j] == old(f[r, j])
    ensures forall j :: 0 <= j < Count ==> f[i, j] == row[j]
  {
    f[i, 0], f[i, 1], f[i, 2], f[i, 3], f[i, 4] := row[0], row[1], row[2], row[3], row[4];
  }

  /**
    One pass of the loop body for candidate i: writes row i of f and entry i
    of g and nothing else, and reports the simulator call it made, if any.
  */
  method EvaluateCandidate(p: Problem, x: seq<real>, simulate: Simulator,
                           f: array2<Score>, g: array<real>, i: nat)
    returns (call: Option<Call>)
    requires |x| == NVar
    requires i < f.Length0 && f.Length1 == Count && i < g.Length
    requires forall j :: 0 <= j < Count ==> f[i, j] == Finite(SentinelValue)
    requires g[i] == 0.0
    modifies f, g
    ensures forall r, j :: 0 <= r < f.Length0 && 0 <= j < Count && r != i ==> f[r, j] == old(f[r, j])
    ensures forall r :: 0 <= r < g.Length && r != i ==> g[r] == old(g[r])
    ensures forall j :: 0 <= j < Count ==> f[i, j] == FRow(Evaluation(p, x, simulate))[j]
    ensures g[i] == GValue(Evaluation(p, x, simulate))
    ensures call == CallOf(RoundParams(x), i)
  {
    var params := RoundParams(x);
    if BelowMinFeature(params) {
      assert Evaluation(p, x, simulate) == BelowFloor;
      g[i] := BelowFloorValue;
      return None;
    }
    var folder := ProjectFolder(params);
    var bdc := CouplerFor(params);
    call := Some(Call(i, params));
    var result := simulate(bdc, folder);
    var objectives := TryBlock(p, result);
    ghost var outcome := Evaluation(p, x, simulate);
    assert outcome == if objectives.Some? then Scored(objectives.value) else Raised;
    if objectives.Some? {
      WriteRow(f, i, objectives.value);
      g[i] := 0.0;
    }
  }

  /**
    `_evaluate`: scores every candidate of the batch x in order. F starts as
    the sentinel everywhere and G as zeros; afterwards row i of F and entry i
    of G are those of candidate i's outcome, and the simulator calls made are
    `Calls(RoundBatch(x), |x|)` (see `CallsMade`, `CallsOrdered` and
    `CallsComplete`).
  */
  method Evaluate(p: Problem, x: seq<seq<real>>, simulate: Simulator)
    returns (f: array2<Score>, g: array<real>, calls: seq<Call>)
    requires forall i :: 0 <= i < |x| ==> |x[i]| == NVar
    ensures fresh(f) && fresh(g)
    ensures f.Length0 == |x| && f.Length1 == Count && g.Length == |x|
    ensures forall i, j :: 0 <= i < |x| && 0 <= j < Count ==> f[i, j] == FRow(Evaluation(p, x[i], simulate))[j]
    ensures forall i :: 0 <= i < |x| ==> g[i] == GValue(Evaluation(p, x[i], simulate))
    ensures calls == Calls(RoundBatch(x), |x|)
  {
    f := new Score[|x|, Count]((_, _) => Finite(SentinelValue));
    g := new real[|x|](_ => 0.0);
    calls := [];
    ghost var outcomes := seq(|x|, r requires 0 <= r < |x| => Evaluation(p, x[r], simulate));
    ghost var ms := RoundBatch(x);
    for i := 0 to |x|
      invariant forall r, j :: 0 <= r < i && 0 <= j < Count ==> f[r, j] == FRow(outcomes[r])[j]
      invariant forall r, j :: i <= r < |x| && 0 <= j < Count ==> f[r, j] == Finite(SentinelValue)
      invariant forall r :: 0 <= r < i ==> g[r] == GValue(outcomes[r])
      invariant forall r :: i <= r < |x| ==> g[r] == 0.0
      invariant calls == Calls(ms, i)
    {
      var call := EvaluateCandidate(p, x[i], simulate, f, g, i);
      assert outcomes[i] == Evaluation(p, x[i], simulate);
      calls := Record(ms, i, calls, call);
    }
  }

  /** The calls of the first n candidates: those of the first n - 1, then candidate n - 1's own. */
  lemma CallsStep(ms: seq<seq<int>>, n: nat)
    requires 0 < n <= |ms| && Candidates(ms)
    ensures Calls(ms, n) == if CallOf(ms[n - 1], n - 1).Some? then Calls(ms, n - 1) + [CallOf(ms[n - 1], n - 1).value]
                            else Calls(ms, n - 1)
  {
  }

  /** Appends candidate i's call, if it made one, to the calls of the candidates before it. */
  method Record(ghost ms: seq<seq<int>>, i: nat, calls: seq<Call>, call: Option<Call>) returns (next: seq<Call>)
    requires i < |ms| && Candidates(ms)
    requires calls == Calls(ms, i) && call == CallOf(ms[i], i)
    ensures next == Calls(ms, i + 1)
  {
    CallsStep(ms, i + 1);
    next := if call.Some? then calls + [call.value] else calls;
  }

  /** A call made for candidate c.index of a rounded batch, with that candidate's parameters. */
  predicate CallFor(ms: seq<seq<int>>, c: Call)
    requires Candidates(ms)
  {
    c.index < |ms| && !BelowMinFeature(ms[c.index]) && c.params == ms[c.index]
  }

  /** The calls of the first n candidates extend those of the first n - 1. */
  lemma CallsExtend(ms: seq<seq<int>>, n: nat)
    requires 0 < n <= |ms| && Candidates(ms)
    ensures |Calls(ms, n - 1)| <= |Calls(ms, n)| <= |Calls(ms, n - 1)| + 1
    ensures Calls(ms, n)[..|Calls(ms, n - 1)|] == Calls(ms, n - 1)
    ensures |Calls(ms, n)| == |Calls(ms, n - 1)| + 1 <==> !BelowMinFeature(ms[n - 1])
    ensures |Calls(ms, n)| == |Calls(ms, n - 1)| + 1 ==> Calls(ms, n)[|Calls(ms, n - 1)|] == Call(n - 1, ms[n - 1])
  {
  }

  /**
    Every call the batch makes is for a candidate below n that passes the
    check, with that candidate's own rounded parameters.
  */
  lemma {:induction false} CallsMade(ms: seq<seq<int>>, n: nat)
    requires n <= |ms| && Candidates(ms)
    ensures forall k :: 0 <= k < |Calls(ms, n)| ==> CallFor(ms, Calls(ms, n)[k]) && Calls(ms, n)[k].index < n
  {
    if n > 0 {
      CallsMade(ms, n - 1);
      CallsExtend(ms, n);
      var prev, r := Calls(ms, n - 1), Calls(ms, n);
      forall k | 0 <= k < |r| ensures CallFor(ms, r[k]) && r[k].index < n {
        if k < |prev| {
          assert r[k] == r[..|prev|][k];
        }
      }
    }
  }

  /** The batch makes its calls in increasing candidate order. */
  lemma {:induction false} CallsOrdered(ms: seq<seq<int>>, n: nat)
    requires n <= |ms| && Candidates(ms)
    ensures forall k, l :: 0 <= k < l < |Calls(ms, n)| ==> Calls(ms, n)[k].index < Calls(ms, n)[l].index
  {
    if n > 0 {
      CallsOrdered(ms, n - 1);
      CallsMade(ms, n - 1);
      CallsExtend(ms, n);
      var prev, r := Calls(ms, n - 1), Calls(ms, n);
      forall k, l | 0 <= k < l < |r| ensures r[k].index < r[l].index {
        assert r[k] == r[..|prev|][k];
        if l < |prev| {
          assert r[l] == r[..|prev|][l];
        }
      }
    }
  }

  /** Every candidate among the first n that passes the check gets a call. */
  lemma {:induction false} CallsComplete(ms: seq<seq<int>>, n: nat)
    requires n <= |ms| && Candidates(ms)
    ensures forall r :: 0 <= r < n && !BelowMinFeature(ms[r]) ==>
      exists k :: 0 <= k < |Calls(ms, n)| && Calls(ms, n)[k].index == r
  {
    if n > 0 {
      CallsComplete(ms, n - 1);
      CallsExtend(ms, n);
      var prev, calls := Calls(ms, n - 1), Calls(ms, n);
      forall r | 0 <= r < n && !BelowMinFeature(ms[r])
        ensures exists k :: 0 <= k < |calls| && calls[k].index == r
      {
        if r == n - 1 {
          assert calls[|prev|].index == r;
        } else {
          var k :| 0 <= k < |prev| && prev[k].index == r;
          assert calls[k] == calls[..|prev|][k];
        }
      }
    }
  }

  // ---- properties of one candidate's evaluation ----

  /**
    A rounded parameter reaches the 0.18 floor exactly when the raw value is
    at least 0.1795: 0.1795 itself rounds half-to-even up to 0.180, so the
    floor is inclusive and a little below it still passes.
  */
  lemma FloorAfterRounding(v: real)
    ensures Thousandths(v) >= MinFeature <==> v >= 0.1795
  {
    var y := v * 1000.0;
    var k := Thousandths(v);
    if v >= 0.1795 {
      assert y >= 179.5;
    } else {
      assert y < 179.5;
    }
  }

  /** A candidate is simulated exactly when its three checked raw values are at least 0.1795. */
  lemma BelowFloorExactly(x: seq<real>)
    requires |x| == NVar
    ensures BelowMinFeature(RoundParams(x)) <==> x[0] < 0.1795 || x[1] < 0.1795 || x[11] < 0.1795
  {
    FloorAfterRounding(x[0]);
    FloorAfterRounding(x[1]);
    FloorAfterRounding(x[11]);
  }

  /** A candidate within the problem's bounds always passes the minimum-feature check. */
  lemma InBoundsNeverBelowFloor(x: seq<real>)
    requires WithinBounds(x)
    ensures !BelowMinFeature(RoundParams(x))
  {
    BelowFloorExactly(x);
    assert LowerBounds[0] == 0.18 && LowerBounds[1] == 0.18 && LowerBounds[11] == 0.18;
  }

  /**
    A candidate is scored exactly when it passes the check, the simulation and
    the Touchstone write succeed, the sweep count is not negative and the
    centre index falls inside all three magnitude sequences; otherwise it keeps
    the sentinel row. The constraint value is 0 in both of these cases.
  */
  lemma ScoredExactly(p: Problem, x: seq<real>, simulate: Simulator)
    requires |x| == NVar
    ensures var m := RoundParams(x);
      Evaluation(p, x, simulate).Scored? <==>
        && !BelowMinFeature(m)
        && simulate(CouplerFor(m), ProjectFolder(m)).Simulated?
        && simulate(CouplerFor(m), ProjectFolder(m)).touchstoneWritten
        && CenterIndex(p.wavelengths, p.centerWavelength).Some?
        && var s := simulate(CouplerFor(m), ProjectFolder(m)).smatrix;
           var index := CenterIndex(p.wavelengths, p.centerWavelength).value;
           index < |s.bar| && index < |s.cross| && index < |s.reflection|
  {
  }

  /**
    With the default sweep and centre, a candidate that passes the check is
    scored exactly when the simulation and the write succeed and the three
    magnitude sequences have more than 60 entries (the centre 1.31 um is grid
    point 60).
  */
  lemma DefaultProblemScoredExactly(x: seq<real>, simulate: Simulator)
    requires |x| == NVar && !BelowMinFeature(RoundParams(x))
    ensures var m := RoundParams(x);
      var r := simulate(CouplerFor(m), ProjectFolder(m));
      Evaluation(DefaultProblem, x, simulate).Scored? <==>
        r.Simulated? && r.touchstoneWritten
        && 60 < |r.smatrix.bar| && 60 < |r.smatrix.cross| && 60 < |r.smatrix.reflection|
  {
    DefaultCenterIndex();
  }

  /**
    The objectives of a scored candidate are not negative; the split
    imbalance is at most 0.5, and NaN exactly when bar and cross both carry no
    power at the centre.
  */
  lemma ScoredObjectivesInRange(p: Problem, x: seq<real>, simulate: Simulator)
    requires |x| == NVar && Evaluation(p, x, simulate).Scored?
    ensures var f := Evaluation(p, x, simulate).objectives;
      && (forall k :: 0 <= k < Count && f[k].Finite? ==> f[k].value >= 0.0)
      && (forall k :: 0 <= k < Count && k != 2 ==> f[k].Finite?)
      && (f[2].Finite? ==> f[2].value <= 0.5)
  {
    var m := RoundParams(x);
    var s := simulate(CouplerFor(m), ProjectFolder(m)).smatrix;
    ObjectivesNonNegative(s, CenterIndex(p.wavelengths, p.centerWavelength).value);
  }

  /**
    The cell built for a candidate: its upper widths are 0.38, the nine width
    parameters, 0.38; its lower widths are the cell's default for width 0.38;
    its width lists cover its eleven control points; and when the candidate
    passes the check its lengths and spacing are positive, as the layout
    framework demands.
  */
  lemma CouplerForShape(m: seq<int>)
    requires |m| == NVar
    ensures var c := CouplerFor(m);
      && |c.tWidthU| == 11 && c.tWidthU[0] == FixedWidth && c.tWidthU[10] == FixedWidth
      && (forall k :: 2 <= k <= 10 ==> c.tWidthU[k - 1] == Value(m[k]))
      && c.tWidthL == Cell.DefaultTWidthL(FixedWidth)
      && c.nPoints >= 2 && Cell.WidthsCoverPoints(c)
      && c.wgLength == Value(m[0]) && c.tLength == Value(m[1]) && c.couplerSpacing == Value(m[11])
      && (!BelowMinFeature(m) ==> Cell.PositiveFields(c))
  {
    var c := CouplerFor(m);
    assert c.tWidthL == Cell.DefaultTWidthL(FixedWidth);
  }

  /** Prefixing the data root keeps folder names as distinct as the keys. */
  lemma FolderIsKey(m1: seq<int>, m2: seq<int>)
    requires |m1| == NVar && |m2| == NVar
    ensures ProjectFolder(m1) == ProjectFolder(m2) <==> CandidateKey.Key(m1) == CandidateKey.Key(m2)
  {
    var k1, k2 := CandidateKey.Key(m1), CandidateKey.Key(m2);
    assert (DataRoot + k1)[|DataRoot|..] == k1;
    assert (DataRoot + k2)[|DataRoot|..] == k2;
  }

  /**
    Two candidates are simulated in the same folder exactly when their first
    eleven rounded parameters agree: candidates that differ only in the
    coupler spacing share a folder, and no other two do.
  */
  lemma SharedFolder(x1: seq<real>, x2: seq<real>)
    requires |x1| == NVar && |x2| == NVar
    ensures ProjectFolder(RoundParams(x1)) == ProjectFolder(RoundParams(x2))
      <==> forall k :: 0 <= k < 11 ==> Thousandths(x1[k]) == Thousandths(x2[k])
  {
    var m1, m2 := RoundParams(x1), RoundParams(x2);
    FolderIsKey(m1, m2);
    CandidateKey.KeyCollisions(m1, m2);
    assert m1[..11] == m2[..11] <==> forall k :: 0 <= k < 11 ==> m1[k] == m2[k] by {
      if forall k :: 0 <= k < 11 ==> m1[k] == m2[k] {
        assert forall k :: 0 <= k < 11 ==> m1[..11][k] == m2[..11][k];
      }
      if m1[..11] == m2[..11] {
        assert forall k :: 0 <= k < 11 ==> m1[k] == m1[..11][k] && m2[k] == m2[..11][k];
      }
    }
  }

  /**
    Rounding is the first thing the loop does, so a candidate and its
    already-rounded form are indistinguishable: the same rounded parameters,
    the same folder and the same outcome.
  */
  lemma EvaluationOfRounded(p: Problem, x: seq<real>, simulate: Simulator)
    requires |x| == NVar
    ensures var y := seq(|x|, i requires 0 <= i < |x| => Value(Thousandths(x[i])));
      && RoundParams(y) == RoundParams(x)
      && Evaluation(p, y, simulate) == Evaluation(p, x, simulate)
      && ProjectFolder(RoundParams(y)) == ProjectFolder(RoundParams(x))
  {
    var y := seq(|x|, i requires 0 <= i < |x| => Value(Thousandths(x[i])));
    forall i | 0 <= i < |x| ensures Thousandths(y[i]) == Thousandths(x[i]) {
      RoundingIdempotent(x[i]);
    }
    assert RoundParams(y) == RoundParams(x);
  }
}
