/**
  The five objectives the optimizer minimises, computed from the
  simulator's scattering matrix: flatness of the bar and of the cross
  transmission over the sweep, imbalance of the power split, deviation of the
  bar power from one half, and reflection, the last three at the centre
  wavelength.
*/
module Objectives {
  import opened Wrappers

  /** A float as numpy computes it here: a real number, or NaN (from 0/0). */
  datatype Score = Finite(value: real) | NaN

  /** `np.abs` of a complex S-parameter. */
  type Magnitude = r: real | 0.0 <= r

  /**
    The magnitudes, over the sweep, of the S-parameters the objectives read:
    in1 to out1 (bar), in1 to out2 (cross) and in1 back to in1 (reflection).
  */
  datatype SMatrix = SMatrix(bar: seq<Magnitude>, cross: seq<Magnitude>, reflection: seq<Magnitude>)

  /** The number of objectives. */
  const Count: nat := 5

  function RealAbs(r: real): (a: real)
    ensures a >= 0.0 && (a == r || a == -r)
  {
    if r < 0.0 then -r else r
  }

  /** Python's `max` over a non-empty sequence. */
  function Max(s: seq<Magnitude>): (m: Magnitude)
    requires |s| > 0
    ensures m in s
    ensures forall i :: 0 <= i < |s| ==> s[i] <= m
  {
    if |s| == 1 then s[0]
    else
      var rest := Max(s[1..]);
      if s[0] >= rest then s[0] else rest
  }

  /** Python's `min` over a non-empty sequence. */
  function Min(s: seq<Magnitude>): (m: Magnitude)
    requires |s| > 0
    ensures m in s
    ensures forall i :: 0 <= i < |s| ==> m <= s[i]
  {
    if |s| == 1 then s[0]
    else
      var rest := Min(s[1..]);
      if s[0] <= rest then s[0] else rest
  }

  /** The spread max - min of a magnitude over the sweep. */
  function Flatness(s: seq<Magnitude>): (f: real)
    requires |s| > 0
    ensures f >= 0.0
  {
    Max(s) - Min(s)
  }

  /** A flatness is never negative, and is zero exactly when the magnitude is constant. */
  lemma FlatnessZeroIffConstant(s: seq<Magnitude>)
    requires |s| > 0
    ensures Flatness(s) >= 0.0
    ensures Flatness(s) == 0.0 <==> forall i :: 0 <= i < |s| ==> s[i] == s[0]
  {
    if forall i :: 0 <= i < |s| ==> s[i] == s[0] {
      assert Max(s) == s[0] && Min(s) == s[0];
    }
  }

  /** `i3.signal_power` of a magnitude: its square. */
  function SignalPower(m: Magnitude): (p: real)
    ensures p >= 0.0
  {
    m * m
  }

  /** `np.abs(bar / (cross + bar) - 0.5)` in numpy floats: 0/0 is NaN rather than an error. */
  function SplitImbalance(bar: real, cross: real): Score
  {
    if cross + bar == 0.0 then NaN else Finite(RealAbs(bar / (cross + bar) - 0.5))
  }

  /**
    For non-negative powers the split imbalance is NaN exactly when both are
    zero; otherwise it lies in [0, 0.5] and is zero exactly for an even split.
  */
  lemma SplitImbalanceRange(bar: real, cross: real)
    requires bar >= 0.0 && cross >= 0.0
    ensures SplitImbalance(bar, cross).NaN? <==> bar == 0.0 && cross == 0.0
    ensures SplitImbalance(bar, cross).Finite? ==> 0.0 <= SplitImbalance(bar, cross).value <= 0.5
    ensures SplitImbalance(bar, cross).Finite? ==> (SplitImbalance(bar, cross).value == 0.0 <==> bar == cross)
  {
    if cross + bar != 0.0 {
      var share := bar / (cross + bar);
      assert share * (cross + bar) == bar;
      assert 0.0 <= share <= 1.0;
      if share == 0.5 {
        assert bar == 0.5 * (cross + bar);
      }
      if bar == cross {
        assert share * (2.0 * bar) == bar;
      }
    }
  }

  /**
    The objective vector [bar flatness, cross flatness, split imbalance,
    |bar power - 0.5|, reflection power] at the centre index; nothing when the
    index lies beyond one of the three magnitude sequences (numpy raises).
  */
  function ObjectiveVector(s: SMatrix, index: nat): (r: Option<seq<Score>>)
    ensures r.Some? <==> index < |s.bar| && index < |s.cross| && index < |s.reflection|
    ensures r.Some? ==> |r.value| == Count
  {
    if index < |s.bar| && index < |s.cross| && index < |s.reflection| then
      var bar := SignalPower(s.bar[index]);
      var cross := SignalPower(s.cross[index]);
      var reflection := SignalPower(s.reflection[index]);
      Some([Finite(Flatness(s.bar)), Finite(Flatness(s.cross)),
            SplitImbalance(bar, cross), Finite(RealAbs(bar - 0.5)), Finite(reflection)])
    else None
  }

  lemma PositiveSquare(m: real)
    requires m > 0.0
    ensures m * m > 0.0
  {
  }

  /** A magnitude carries power exactly when it is not zero. */
  lemma PowerZeroIffMagnitudeZero(m: Magnitude)
    ensures SignalPower(m) == 0.0 <==> m == 0.0
  {
    if m > 0.0 {
      calc {
        SignalPower(m);
        m * m;
      > { PositiveSquare(m); }
        0.0;
      }
    }
  }

  /**
    Every computed objective is non-negative; the split imbalance is at most
    0.5 and is NaN only when neither bar nor cross carries power at the
    centre; the flatness objectives are zero exactly for constant transmission.
  */
  lemma ObjectivesNonNegative(s: SMatrix, index: nat)
    requires ObjectiveVector(s, index).Some?
    ensures forall k :: 0 <= k < Count && ObjectiveVector(s, index).value[k].Finite? ==>
      ObjectiveVector(s, index).value[k].value >= 0.0
    ensures ObjectiveVector(s, index).value[2].Finite? ==> ObjectiveVector(s, index).value[2].value <= 0.5
    ensures ObjectiveVector(s, index).value[2].NaN? <==> s.bar[index] == 0.0 && s.cross[index] == 0.0
    ensures forall k :: 0 <= k < Count && k != 2 ==> ObjectiveVector(s, index).value[k].Finite?
    ensures ObjectiveVector(s, index).value[0].value == 0.0 <==> forall i :: 0 <= i < |s.bar| ==> s.bar[i] == s.bar[0]
    ensures ObjectiveVector(s, index).value[1].value == 0.0 <==> forall i :: 0 <= i < |s.cross| ==> s.cross[i] == s.cross[0]
  {
    var bar := SignalPower(s.bar[index]);
    var cross := SignalPower(s.cross[index]);
    var reflection := SignalPower(s.reflection[index]);
    var v := ObjectiveVector(s, index).value;
    assert v == [Finite(Flatness(s.bar)), Finite(Flatness(s.cross)),
                 SplitImbalance(bar, cross), Finite(RealAbs(bar - 0.5)), Finite(reflection)];
    FlatnessZeroIffConstant(s.bar);
    FlatnessZeroIffConstant(s.cross);
    SplitImbalanceRange(bar, cross);
    PowerZeroIffMagnitudeZero(s.bar[index]);
    PowerZeroIffMagnitudeZero(s.cross[index]);
  }

  /**
    A coupler whose bar and cross magnitudes are one constant a > 0 over the
    whole sweep and which reflects nothing at the centre scores zero on every
    objective except the bar-power deviation |a^2 - 0.5|; at a^2 = 0.5 (an
    ideal 3 dB coupler) all five objectives are zero.
  */
  lemma EvenSplitScores(s: SMatrix, index: nat, a: Magnitude)
    requires a > 0.0 && index < |s.bar| && index < |s.cross| && index < |s.reflection|
    requires forall i :: 0 <= i < |s.bar| ==> s.bar[i] == a
    requires forall i :: 0 <= i < |s.cross| ==> s.cross[i] == a
    requires s.reflection[index] == 0.0
    ensures ObjectiveVector(s, index)
      == Some([Finite(0.0), Finite(0.0), Finite(0.0), Finite(RealAbs(a * a - 0.5)), Finite(0.0)])
  {
    FlatnessZeroIffConstant(s.bar);
    FlatnessZeroIffConstant(s.cross);
    var p := SignalPower(a);
    PowerZeroIffMagnitudeZero(a);
    SplitImbalanceRange(p, p);
    assert SplitImbalance(p, p) == Finite(0.0);
    assert SignalPower(s.reflection[index]) == 0.0;
  }
}
