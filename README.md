# Broadband directional coupler: batch evaluation, ranking and cell geometry

This project models the core of a design flow for a silicon-photonics
broadband directional coupler (BDC). It has two parts.

- The multi-objective problem handed to NSGA2. It has 12 design variables:
  - entry/exit waveguide length;
  - taper length;
  - nine inner widths of the upper taper;
  - coupler spacing.

  It has 5 objectives and 1 constraint. The model covers:
  - the batch evaluation loop that fills the objective matrix F and the constraint vector G;
  - rounding each candidate to three decimals;
  - the minimum-feature check;
  - the per-candidate project folder key `lum_<p0>_..._<p10>`;
  - the mapping from parameters to a coupler cell;
  - the centre-wavelength index in the sweep (`linspace` followed by `searchsorted`);
  - the five objective formulas;
  - the final stable lexicographic ranking of the solutions and the `[:n_best]` report.
- The coupler parametric cell. The model covers:
  - its defaults, its default name (the upper-cased data tag) and its default taper width lists;
  - the loop that builds the taper's control points, with its two error paths (`ZeroDivisionError` for one control point, `IndexError` for width lists that are too short);
  - the entrance and exit waveguide paths and the inner taper edges;
  - the four optical ports.

Modules:

- `Wrappers` holds `Option`.
- `Decimal` does round-half-even to thousandths and Python's shortest float text for a thousandths value. It also parses that text back.
- `CandidateKey` builds the folder key and parses it back.
- `Sweep` covers the wavelength grid and numpy's bisect-left search.
- `Objectives` has the S-matrix magnitudes, the five objectives and NaN as a `Score`.
- `Problem` covers the bounds and the per-candidate outcome. It has the imperative `Evaluate`/`EvaluateCandidate` over an `array2` F and an `array` G.
- `Ranking` covers the lexsort and the report.
- `Cell` covers the coupler cell.

The FDTD simulator is a parameter of the model. It is a function from the cell and its project folder to either "raised" or an S-matrix plus a flag saying whether the Touchstone write succeeded.

Three behaviours of the code are worth noting. The model follows the code each time:

- A candidate below the minimum feature size gets `G = -1`, which the code comments as a constraint violation (bdc/bdc/optimization/opt_utils.py:40). Under the optimizer's convention (`G <= 0` is feasible) that value marks it feasible. It keeps the sentinel objectives 1e10. See `Problem.GValue`.
- The simulation and the Touchstone write `to_touchstone` sit inside one `try` (bdc/bdc/optimization/opt_utils.py:64-92). If the write fails, the objectives are discarded, not kept.
- `G` is 0 for a scored candidate (bdc/bdc/optimization/opt_utils.py:87). It also stays at its initial 0 when the `try` raises (bdc/bdc/optimization/opt_utils.py:91-92), so a failed simulation is not marked in G.

## Model

| member | source | states |
|---|---|---|
| Problem.Evaluate | bdc/bdc/optimization/opt_utils.py:30-95 | F is a fresh n×5 matrix and G a fresh n-vector. Row i of F and G[i] are exactly the outcome of candidate i: its five objectives when scored, otherwise the 1e10 sentinel row. G[i] is −1 when i is below the minimum feature and 0 otherwise. The simulator calls made are exactly `Calls` of the rounded batch: one per passing candidate, in loop order, each with that candidate's rounded parameters. |
| Problem.EvaluateCandidate | bdc/bdc/optimization/opt_utils.py:34-92 | One loop iteration writes only row i of F and entry i of G, and writes them from the candidate's outcome. It reports a simulator call iff the rounded candidate passes the minimum-feature check, and the call carries index i and the rounded parameters from which the cell and the folder are built. |
| Problem.WriteRow | bdc/bdc/optimization/opt_utils.py:80-86 | Assigning a row of F sets its five entries and leaves every other row unchanged. |
| Problem.CallOf | bdc/bdc/optimization/opt_utils.py:39-41 | A candidate leads to a simulator call iff its rounded parameters pass the minimum-feature check. |
| Problem.CallsExtend | bdc/bdc/optimization/opt_utils.py:34-65 | Each loop iteration appends at most one call and keeps the earlier ones. It appends one iff the candidate passes the check, and that call is for candidate n−1 with its rounded parameters. |
| Problem.CallsMade | bdc/bdc/optimization/opt_utils.py:34-65 | Every call made over the first n candidates is for one of them, that candidate passes the check, and the call carries its rounded parameters. |
| Problem.CallsOrdered | bdc/bdc/optimization/opt_utils.py:34 | Calls are made in strictly increasing candidate order, so no candidate is simulated twice. |
| Problem.CallsComplete | bdc/bdc/optimization/opt_utils.py:34-65 | Every candidate among the first n that passes the check is simulated. |
| Problem.RoundParams | bdc/bdc/optimization/opt_utils.py:35 | `np.round(params, 3)`: each parameter becomes its round-half-even count of thousandths, entry by entry, keeping the length. Its error bound and idempotence are `Decimal.RoundingError` and `Decimal.RoundingIdempotent`. |
| Problem.BelowMinFeature | bdc/bdc/optimization/opt_utils.py:39 | The skip test on the rounded p0, p1 and p11 against 0.18. `Problem.BelowFloorExactly` restates it on the raw values (below 0.1795). |
| Problem.CouplerFor | bdc/bdc/optimization/opt_utils.py:53-61 | The cell built from a rounded candidate. Its field mapping and the positivity of its fields are stated by `Problem.CouplerForShape`. |
| Problem.ProjectFolder | bdc/bdc/optimization/opt_utils.py:43-49 | The candidate's project folder: the data root followed by the `lum_` key. `Problem.FolderIsKey` and `Problem.SharedFolder` say when two folders coincide. |
| Problem.Evaluation | bdc/bdc/optimization/opt_utils.py:35-92 | The outcome is "below floor" iff the rounded candidate fails the check. A scored outcome has exactly five objectives. |
| Problem.TryBlock | bdc/bdc/optimization/opt_utils.py:64-92 | Any step of the try block that raises gives no objectives. When the block completes, it gives exactly five. |
| Problem.FRow | bdc/bdc/optimization/opt_utils.py:31 | A row has five entries. An unscored candidate keeps the initial 1e10 in every entry. |
| Problem.GValue | bdc/bdc/optimization/opt_utils.py:32-87 | G is never positive. G is −1 iff the candidate is below the floor, and 0 iff it is not (success or raised). |
| Problem.FloorAfterRounding | bdc/bdc/optimization/opt_utils.py:35-39 | After rounding to 3 decimals, a value is below 0.18 iff the raw value is below 0.1795. |
| Problem.BelowFloorExactly | bdc/bdc/optimization/opt_utils.py:35-41 | A candidate is skipped iff its raw entry length, taper length or spacing is below 0.1795. |
| Problem.InBoundsNeverBelowFloor | bdc/bdc/optimization/opt_utils.py:22-41 | A candidate within the bounds `xl`/`xu` always passes the check. |
| Problem.ScoredExactly | bdc/bdc/optimization/opt_utils.py:64-87 | A candidate is scored iff all of these hold: it passes the check; the simulation and the Touchstone write succeed; the sweep is valid; the centre index falls inside all three magnitude sequences. |
| Problem.DefaultProblemScoredExactly | bdc/bdc/optimization/opt_utils.py:112-113 | With the default sweep (1.25, 1.35, 101) and centre 1.31, a passing candidate is scored iff the simulation and write succeed and each magnitude sequence has more than 60 points. |
| Problem.ScoredObjectivesInRange | bdc/bdc/optimization/opt_utils.py:74-86 | Every objective of a scored candidate is non-negative. All objectives except the split ratio are finite. A finite split ratio is at most 0.5. |
| Problem.CouplerForShape | bdc/bdc/optimization/opt_utils.py:53-61 | The cell has entry length p0, taper length p1 and spacing p11. Its upper widths are [0.38, p2..p10, 0.38] and its lower widths are eleven copies of 0.38. Its widths cover its 11 control points. A passing candidate gives positive cell properties. |
| Problem.FolderIsKey | bdc/bdc/optimization/opt_utils.py:43-49 | Two candidates share a project folder iff they share a key. |
| Problem.SharedFolder | bdc/bdc/optimization/opt_utils.py:47-48 | Two candidates share a project folder iff their first eleven rounded parameters agree. Candidates that differ only in spacing collide. |
| Problem.EvaluationOfRounded | bdc/bdc/optimization/opt_utils.py:35-70 | A candidate and its already-rounded form have the same rounded parameters, the same project folder and the same outcome. |
| Decimal.Thousandths | bdc/bdc/optimization/opt_utils.py:35 | A value rounded to three decimals, as a count of thousandths (round half to even). Its properties are `Decimal.RoundingError`, `Decimal.RoundingIdempotent` and `Decimal.RoundingKeepsLowerBound`. |
| Decimal.RoundHalfEven | bdc/bdc/optimization/opt_utils.py:35 | The result is within 1/2 of the input. At an exact half it is the even neighbour. |
| Decimal.RoundHalfEvenUnique | bdc/bdc/optimization/opt_utils.py:35 | Any integer that is nearest with ties-to-even is the rounding result. |
| Decimal.RoundingError | bdc/bdc/optimization/opt_utils.py:35 | A rounded value differs from the raw value by at most 0.0005. |
| Decimal.RoundingIdempotent | bdc/bdc/optimization/opt_utils.py:35 | Rounding a value that is already rounded changes nothing. |
| Decimal.RoundingKeepsLowerBound | bdc/bdc/optimization/opt_utils.py:35 | A value at or above a thousandths bound rounds to at least that bound. |
| Decimal.NatToStringRoundTrip | bdc/bdc/optimization/opt_utils.py:48 | Decimal digits of a natural number parse back to the number. |
| Decimal.FractionRoundTrip | bdc/bdc/optimization/opt_utils.py:48 | The shortest fraction digits of a thousandths remainder parse back to it. |
| Decimal.FormatThousandths | bdc/bdc/optimization/opt_utils.py:48 | The float text of a rounded parameter never contains the key separator `_`. |
| Decimal.FormatRoundTrip | bdc/bdc/optimization/opt_utils.py:48 | Parsing the float text of a rounded parameter gives back the same thousandths. |
| Decimal.FormatInjective | bdc/bdc/optimization/opt_utils.py:48 | Two rounded parameters print the same iff they are equal. |
| CandidateKey.Key | bdc/bdc/optimization/opt_utils.py:47-48 | The folder name `lum_` followed by the float texts of p0..p10 joined by `_`. `CandidateKey.KeyRoundTrip` proves it reads back to those eleven values, and `CandidateKey.KeyCollisions` says when two keys coincide. |
| CandidateKey.SplitJoin | bdc/bdc/optimization/opt_utils.py:48 | Joining fields free of `_` with `_` and then splitting gives the fields back. |
| CandidateKey.KeyRoundTrip | bdc/bdc/optimization/opt_utils.py:47-48 | The folder key parses back to the first eleven rounded parameters. |
| CandidateKey.KeyCollisions | bdc/bdc/optimization/opt_utils.py:47-48 | Two keys are equal iff the first eleven rounded parameters are equal. |
| Sweep.Linspace | bdc/bdc/optimization/opt_utils.py:71 | `np.linspace(start, stop, count)`: count grid points, point k at start + k·(stop−start)/(count−1). `Sweep.LinspaceShape` and `Sweep.LinspaceSorted` give its ends, step and order. |
| Sweep.SearchSorted | bdc/bdc/optimization/opt_utils.py:71-72 | `np.searchsorted(grid, key)`: a position between 0 and the grid length. `Sweep.SearchSortedIsInsertionPoint` shows it is the leftmost insertion point. |
| Sweep.CenterIndex | bdc/bdc/optimization/opt_utils.py:71-72 | The centre index exists iff the point count is non-negative (numpy raises otherwise), and it is never beyond the count. `Sweep.CenterIndexInGrid` says when it falls inside the grid. |
| Sweep.LinspaceShape | bdc/bdc/optimization/opt_utils.py:71 | With at least two points, the grid starts at `start`, ends at `stop`, and steps by (stop−start)/(count−1). |
| Sweep.LinspaceSorted | bdc/bdc/optimization/opt_utils.py:71 | The grid of a sweep with start ≤ stop is non-decreasing, as `searchsorted` needs. |
| Sweep.BisectLeft | bdc/bdc/optimization/opt_utils.py:71-72 | The search result stays within the searched interval. |
| Sweep.BisectLeftPartition | bdc/bdc/optimization/opt_utils.py:71-72 | On a sorted array, everything before the result is smaller than the key and everything from it on is not. |
| Sweep.SearchSortedIsInsertionPoint | bdc/bdc/optimization/opt_utils.py:71-72 | `searchsorted` returns the leftmost insertion point. |
| Sweep.InsertionPointUnique | bdc/bdc/optimization/opt_utils.py:71-72 | A sorted array has exactly one leftmost insertion point for a key. |
| Sweep.CenterIndexInGrid | bdc/bdc/optimization/opt_utils.py:71-72 | The centre index is inside the grid iff the centre is at most `stop`. A centre beyond `stop` gives the index `count`. |
| Sweep.DefaultCenterIndex | bdc/bdc/optimization/opt_utils.py:112-113 | For the default sweep and centre 1.31 the index is 60. |
| Objectives.Max | bdc/bdc/optimization/opt_utils.py:76-77 | The result is an element of the magnitudes and bounds every element from above. |
| Objectives.Min | bdc/bdc/optimization/opt_utils.py:76-77 | The result is an element of the magnitudes and bounds every element from below. |
| Objectives.Flatness | bdc/bdc/optimization/opt_utils.py:76-77 | The max−min spread of a magnitude sequence is never negative. |
| Objectives.SignalPower | bdc/bdc/optimization/opt_utils.py:74-75 | A signal power is never negative. |
| Objectives.SplitImbalance | bdc/bdc/optimization/opt_utils.py:83 | `abs(bar / (cross + bar) − 0.5)`, NaN when both powers are zero. `Objectives.SplitImbalanceRange` gives its range and zeros. |
| Objectives.FlatnessZeroIffConstant | bdc/bdc/optimization/opt_utils.py:76-77 | The max−min spread is non-negative, and it is zero iff the magnitude is constant across the sweep. |
| Objectives.SplitImbalanceRange | bdc/bdc/optimization/opt_utils.py:83 | The split imbalance is NaN iff both powers are zero. Otherwise it lies in [0, 0.5], and it is 0 iff the bar and cross powers are equal. |
| Objectives.PowerZeroIffMagnitudeZero | bdc/bdc/optimization/opt_utils.py:74-75 | A signal power is zero iff its magnitude is zero. |
| Objectives.ObjectiveVector | bdc/bdc/optimization/opt_utils.py:71-86 | The objectives exist iff the index lies inside all three magnitude sequences (otherwise an IndexError is raised). When they exist there are five. |
| Objectives.ObjectivesNonNegative | bdc/bdc/optimization/opt_utils.py:74-86 | Every finite objective is non-negative. Only the split ratio can be NaN. |
| Objectives.EvenSplitScores | bdc/bdc/optimization/opt_utils.py:74-86 | Bar and cross magnitudes that are both the same constant a > 0, with no reflection at the centre, give objectives [0, 0, 0, abs(a²−0.5), 0]. |
| Ranking.RowLessTransitive | bdc/bdc/optimization/opt_utils.py:191 | The lexicographic row order (NaN last) is transitive. |
| Ranking.RowLessTotal | bdc/bdc/optimization/opt_utils.py:191 | Any two distinct rows are ordered one way or the other. |
| Ranking.RowLessIrreflexive | bdc/bdc/optimization/opt_utils.py:191 | No row is before itself. |
| Ranking.RowLessAsymmetric | bdc/bdc/optimization/opt_utils.py:191 | No two rows are each before the other. |
| Ranking.BeforeTransitive | bdc/bdc/optimization/opt_utils.py:191 | The tie-broken-by-index order is transitive. |
| Ranking.BeforeAsymmetric | bdc/bdc/optimization/opt_utils.py:191 | The tie-broken-by-index order is asymmetric. |
| Ranking.Insert | bdc/bdc/optimization/opt_utils.py:191 | Inserting an index adds exactly that index to the multiset. |
| Ranking.InsertIncreasing | bdc/bdc/optimization/opt_utils.py:191 | Insertion keeps the index list ordered. |
| Ranking.SortPrefixPermutation | bdc/bdc/optimization/opt_utils.py:191 | Sorting the first n indices gives a permutation of 0..n−1. |
| Ranking.SortPrefixIncreasing | bdc/bdc/optimization/opt_utils.py:191 | Sorting the first n indices gives them in order. |
| Ranking.LexSort | bdc/bdc/optimization/opt_utils.py:191 | `np.lexsort` with F's column 0 as primary key: one index per row, each a valid row index. `Ranking.LexSortSortedStable` and `Ranking.LexSortUnique` characterise the order. |
| Ranking.LexSortSortedStable | bdc/bdc/optimization/opt_utils.py:191 | `lexsort` returns a permutation of the row indices. Its rows are lexicographically non-decreasing (column 0 first, NaN last), and equal rows keep their original order. |
| Ranking.IncreasingUnique | bdc/bdc/optimization/opt_utils.py:191 | Two ordered index lists with the same multiset are equal. |
| Ranking.LexSortUnique | bdc/bdc/optimization/opt_utils.py:191 | The stable sorted order is the only one: any ordered permutation equals the lexsort. |
| Ranking.BestSolutions | bdc/bdc/optimization/opt_utils.py:191-195 | The report: rows of X and F at the first `[:n_best]` lexsort indices, with F split into its five columns. `Ranking.BestSolutionsAreBest` states its contents. |
| Ranking.BestSolutionsAreBest | bdc/bdc/optimization/opt_utils.py:191-195 | The report holds the first `[:n_best]` ranked solutions and each of their five objective columns. No solution left out has a strictly better row than one kept. |
| Ranking.LeftOutNotSmaller | bdc/bdc/optimization/opt_utils.py:191-195 | No index outside the first k of the lexsort order has a smaller row than an index inside them. |
| Ranking.SortPrefixBelow | bdc/bdc/optimization/opt_utils.py:191 | Sorting the first n indices only ever produces indices below n. |
| Cell.Default | bdc/bdc/cell.py:7-25 | The cell with every field at its default. It passes the framework's positivity checks, and its width lists cover its 11 control points. |
| Cell.DefaultTWidthL | bdc/bdc/cell.py:38-51 | The default lower widths are eleven copies of the waveguide width. |
| Cell.DefaultTWidthU | bdc/bdc/cell.py:53-66 | The default upper widths are eleven entries. Both ends equal the waveguide width, every entry lies in [w, w+0.18], and only index 7 reaches w+0.18. |
| Cell.Upper | bdc/bdc/cell.py:27-28 | Upper-casing keeps the length, maps each lower-case ASCII letter to its capital, and leaves other characters alone. |
| Cell.UpperIdempotent | bdc/bdc/cell.py:27-28 | Upper-casing twice is the same as once. |
| Cell.Name | bdc/bdc/cell.py:27-28 | The name is as long as the data tag and holds no lower-case ASCII letter. |
| Cell.DefaultName | bdc/bdc/cell.py:24-28 | The default cell is named `BDC_OBAND`. |
| Cell.ControlX | bdc/bdc/cell.py:86-92 | Control point i, for 0 ≤ i < n_points and a non-negative t_length, lies within [0, t_length] along x. `Cell.ControlXEnds` and `Cell.ControlXDecreasing` give its ends and order. |
| Cell.UpperY | bdc/bdc/cell.py:91-94 | The upper control point's y. `Cell.ControlYAroundGap` says it lies t_width_u[i] above the gap's upper edge. |
| Cell.LowerY | bdc/bdc/cell.py:87-90 | The lower control point's y. `Cell.ControlYAroundGap` says it lies t_width_l[i] below the gap's lower edge and mirrors the upper point for equal widths. |
| Cell.TaperControlPoints | bdc/bdc/cell.py:83-94 | One control point raises ZeroDivisionError. Widths too short for the points raise IndexError. Otherwise the lists have n_points entries, with point i at x = t_length/(n−1)·(n−1−i), y = t_width_u[i] + s/2 above and y = −t_width_l[i] − s/2 below. |
| Cell.ControlXEnds | bdc/bdc/cell.py:86-92 | The first control point sits at x = t_length and the last at x = 0. |
| Cell.ControlXDecreasing | bdc/bdc/cell.py:86-92 | Control points run strictly from the output end back to the input end. |
| Cell.ControlYAroundGap | bdc/bdc/cell.py:86-94 | Each upper point sits t_width_u[i] above the gap's upper edge and each lower point sits t_width_l[i] below its lower edge, so positive widths keep them outside the gap. Equal widths give mirror-image points. |
| Cell.UpperInnerEdge | bdc/bdc/cell.py:95 | The straight inner edge of the upper taper half, at y = s/2. `Cell.InnerEdgesCloseTaper` states its span and symmetry. |
| Cell.LowerInnerEdge | bdc/bdc/cell.py:106 | The straight inner edge of the lower taper half, at y = −s/2. `Cell.InnerEdgesCloseTaper` states its span and symmetry. |
| Cell.EntrancePaths | bdc/bdc/cell.py:75-80 | The two entrance waveguide paths from x = −wg_length to x = 0. `Cell.PortsOnWaveguides` and `Cell.WaveguidesMeetInnerEdges` state where they end and meet the taper. |
| Cell.ExitPaths | bdc/bdc/cell.py:116-121 | The two exit waveguide paths from x = t_length to x = t_length + wg_length. `Cell.PortsOnWaveguides` and `Cell.WaveguidesMeetInnerEdges` state where they start and end. |
| Cell.InnerEdgesCloseTaper | bdc/bdc/cell.py:95-106 | The straight inner edges run from the last control point's x to the first's. The lower edge mirrors the upper edge about y = 0, and the two lie s apart. |
| Cell.Ports | bdc/bdc/cell.py:128-139 | The ports are in1, in2, out1 and out2. The inputs sit at x = −wg_length facing 180° and the outputs at x = t_length + wg_length facing 0°. Ports 1 are at y = −(w+s)/2 and ports 2 at y = +(w+s)/2. |
| Cell.PortsOnWaveguides | bdc/bdc/cell.py:75-139 | Each port lies at the free end of its entrance or exit waveguide path. The other ends of the paths sit at the x ends of the taper's inner edges. |
| Cell.WaveguidesMeetInnerEdges | bdc/bdc/cell.py:75-95 | Each waveguide's inner sidewall sits on the inner edge of its taper half, so the paths and taper join without a gap. |

## Left out

- The pymoo machinery is not modelled: Latin hypercube sampling, SBX crossover, polynomial mutation, reference directions, non-dominated sorting and the `minimize` driver. It is library code. The ranking is modelled on whatever `res.X`/`res.F` it returns.
- The FDTD simulation and `to_touchstone` are not modelled. They are external. The simulator is a parameter, and the write is a success flag in its result.
- `i3.signal_power` is taken to be the squared magnitude. Its library is not part of this model.
- The S-matrix is taken as its magnitudes per port pair. Complex phases never reach an objective.
- Arithmetic is on exact reals, not binary floating point:
  - rounding and the 0.18 check use exact thousandths;
  - the grid is exact, so the default centre index is 60 as in exact arithmetic;
  - 0/0 becomes `NaN`;
  - infinities are not modelled.
- Decimal.FormatThousandths: always writes positional notation. Python uses exponent notation from 1e16 upward, far outside the bounds.
- Decimal.FormatThousandths: does not write `-0.0`. A negative value that rounds to zero prints as `0.0`, whereas Python prints `-0.0`. Such a value is below the floor for the three checked parameters, but it can appear in a key for p2–p10.
- The simulator is assumed to depend only on the cell and the project folder. The model does not capture any dependence on earlier runs, or on files an earlier candidate left in a shared folder, such as `smatrix.s4p` or the simulation project. `Problem.SharedFolder` shows that candidates which differ only in spacing share one folder.
- `os.makedirs` and the folder path are not modelled. The folder is the string `data/bdc_oband/` followed by the key. Directory creation and the building of the cell and its layout lie outside the `try`, so a failure there would abort the whole batch; the model assumes they succeed.
- The printing of each candidate and of each result is left out.
- `MyDisplay` (progress output), `MyCallback` and the objective-history plots are left out. They only report. `MyCallback` appends to dictionary keys it never creates.
- G is a one-dimensional array of n entries, not an n×1 matrix.
- The spline fit, the `Boundary` polygons, the trace template, the cladding rectangle built from the layout's bounding box, and the `Netlist` view are left out. They are layout-library geometry. The model keeps the control points, the straight edges, the waveguide paths and the ports.
- The cell's property validation (positive numbers, an integer point count) is not enforced. It is stated as `Cell.PositiveFields` and proved for every candidate that passes the check.
- Cell.Upper: upper-cases ASCII letters only. The data tags are ASCII.
- The older Nelder–Mead optimizer and the other scripts of the repository are not part of this model.
