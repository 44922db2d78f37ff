/**
  The broadband directional coupler cell: two waveguides that enter from the
  left, a tapered coupling section of length t_length whose upper and lower
  widths follow lists of control widths, and two waveguides that leave to the
  right. This module gives the cell's fields with their defaults and the
  coordinates the layout computes from them: the taper control points, the
  straight inner edges of the taper, the centre lines of the entry and exit
  waveguides, and the four optical ports.
*/
module Cell {

  /** The fields of a cell (a value: the layout framework fixes them at construction). */
  datatype Coupler = Coupler(
    dataTag: string,
    wgLength: real,        // how far the straight input and output arms extend
    wgWidth: real,         // core width of those straight arms
    tLength: real,         // extent of the coupling taper along x
    tWidthU: seq<real>,    // control widths of the upper taper
    tWidthL: seq<real>,    // control widths of the lower taper
    couplerSpacing: real,  // gap between the two inner sidewalls
    claddingOffset: real,  // margin the cladding box adds on each side
    nPoints: int           // number of taper control points
  )

  datatype Point = Point(x: real, y: real)

  const DefaultDataTag: string := "bdc_oband"
  const DefaultWgLength: real := 1.0
  const DefaultWgWidth: real := 0.38
  const DefaultTLength: real := 4.21
  const DefaultCouplerSpacing: real := 0.2
  const DefaultCladdingOffset: real := 1.0
  const DefaultNPoints: int := 11

  /** The number of entries of the default width lists. */
  const DefaultWidthCount: nat := 11

  /** The default lower-taper widths: eleven copies of the waveguide width. */
  function DefaultTWidthL(wgWidth: real): (ws: seq<real>)
    ensures |ws| == DefaultWidthCount
    ensures forall i :: 0 <= i < |ws| ==> ws[i] == wgWidth
  {
    [wgWidth, wgWidth, wgWidth, wgWidth, wgWidth, wgWidth, wgWidth, wgWidth, wgWidth, wgWidth, wgWidth]
  }

  /**
    The default upper-taper widths: eleven entries that begin and end at the
    waveguide width, never fall below it, and widen by at most 0.18, which is
    reached at index 7 only.
  */
  function DefaultTWidthU(wgWidth: real): (ws: seq<real>)
    ensures |ws| == DefaultWidthCount
    ensures ws[0] == wgWidth && ws[|ws| - 1] == wgWidth
    ensures forall i :: 0 <= i < |ws| ==> wgWidth <= ws[i] <= wgWidth + 0.18
    ensures forall i :: 0 <= i < |ws| ==> (ws[i] == wgWidth + 0.18 <==> i == 7)
  {
    [wgWidth, wgWidth, wgWidth + 0.1, wgWidth, wgWidth, wgWidth + 0.1,
     wgWidth + 0.15, wgWidth + 0.18, wgWidth + 0.15, wgWidth + 0.1, wgWidth]
  }

  /** A cell with every field at its default. */
  function Default(): (c: Coupler)
    ensures PositiveFields(c) && WidthsCoverPoints(c)
  {
    Coupler(DefaultDataTag, DefaultWgLength, DefaultWgWidth, DefaultTLength,
            DefaultTWidthU(DefaultWgWidth), DefaultTWidthL(DefaultWgWidth),
            DefaultCouplerSpacing, DefaultCladdingOffset, DefaultNPoints)
  }

  // ---- the default name ----

  function UpperChar(c: char): char
  {
    if 'a' <= c <= 'z' then (c as int - 'a' as int + 'A' as int) as char else c
  }

  /** `s.upper()` for ASCII text. */
  function Upper(s: string): (u: string)
    ensures |u| == |s|
    ensures forall i :: 0 <= i < |s| ==> !('a' <= u[i] <= 'z')
    ensures forall i :: 0 <= i < |s| ==> (s[i] == u[i] <==> !('a' <= s[i] <= 'z'))
    ensures forall i :: 0 <= i < |s| ==> ('a' <= s[i] <= 'z' ==> u[i] as int == s[i] as int - 32)
  {
    if s == [] then [] else [UpperChar(s[0])] + Upper(s[1..])
  }

  /** Upper-casing twice is upper-casing once. */
  lemma {:induction false} UpperIdempotent(s: string)
    ensures Upper(Upper(s)) == Upper(s)
  {
    if s != [] {
      UpperIdempotent(s[1..]);
      assert Upper(s)[1..] == Upper(s[1..]);
    }
  }

  /** The cell's default name: its data tag in upper case. */
  function Name(c: Coupler): (n: string)
    ensures |n| == |c.dataTag|
    ensures forall i :: 0 <= i < |n| ==> !('a' <= n[i] <= 'z')
  {
    Upper(c.dataTag)
  }

  lemma DefaultName()
    ensures Name(Default()) == "BDC_OBAND"
  {
  }

  /** The layout framework's field checks: the lengths, widths and offsets must be positive. */
  predicate PositiveFields(c: Coupler)
  {
    c.wgLength > 0.0 && c.wgWidth > 0.0 && c.tLength > 0.0
    && c.couplerSpacing > 0.0 && c.claddingOffset > 0.0
  }

  // ---- taper control points ----

  /** The x-coordinate of control point i: the points run from x = t_length down to x = 0. */
  function ControlX(c: Coupler, i: int): (x: real)
    requires c.nPoints >= 2
    ensures 0 <= i < c.nPoints && c.tLength >= 0.0 ==> 0.0 <= x <= c.tLength
  {
    var nSegments := c.nPoints - 1;
    FractionOfLength(c.tLength, nSegments, nSegments - i);
    c.tLength / nSegments as real * (nSegments - i) as real
  }

  /** k of n equal segments of a non-negative length t lie within [0, t]. */
  lemma FractionOfLength(t: real, n: nat, k: int)
    requires n > 0
    ensures 0 <= k <= n && t >= 0.0 ==> 0.0 <= t / n as real * k as real <= t
  {
    if 0 <= k <= n && t >= 0.0 {
      var segment := t / n as real;
      assert segment >= 0.0 && segment * n as real == t;
      assert segment * k as real <= segment * n as real;
    }
  }

  /** The y-coordinate of upper control point i: the width above the upper inner edge. */
  function UpperY(c: Coupler, i: nat): real
    requires i < |c.tWidthU|
  {
    c.tWidthU[i] + c.couplerSpacing / 2.0
  }

  /** The y-coordinate of lower control point i: the width below the lower inner edge. */
  function LowerY(c: Coupler, i: nat): real
    requires i < |c.tWidthL|
  {
    -c.tWidthL[i] - c.couplerSpacing / 2.0
  }

  /** Both width lists cover every control point. */
  predicate WidthsCoverPoints(c: Coupler)
  {
    c.nPoints <= |c.tWidthU| && c.nPoints <= |c.tWidthL|
  }

  /** What the layout raises while it lists the control points. */
  datatype LayoutError = ZeroDivisionError | IndexError

  datatype ControlPoints =
    | Listed(lower: seq<Point>, upper: seq<Point>)
    | Raised(error: LayoutError)

  /**
    Lists the lower and upper control points of the taper, one of each per
    index below n_points. With n_points = 1 the segment length divides by
    zero; a width list shorter than n_points is indexed out of range; with
    n_points <= 0 both lists are empty.
  */
  method TaperControlPoints(c: Coupler) returns (r: ControlPoints)
    ensures r == Raised(ZeroDivisionError) <==> c.nPoints == 1
    ensures r == Raised(IndexError) <==> c.nPoints >= 2 && !WidthsCoverPoints(c)
    ensures r.Listed? ==> c.nPoints <= 0 ==> r.lower == [] && r.upper == []
    ensures r.Listed? && c.nPoints >= 2 ==>
      && |r.lower| == c.nPoints && |r.upper| == c.nPoints
      && WidthsCoverPoints(c)
      && (forall i :: 0 <= i < c.nPoints ==> r.lower[i] == Point(ControlX(c, i), LowerY(c, i)))
      && (forall i :: 0 <= i < c.nPoints ==> r.upper[i] == Point(ControlX(c, i), UpperY(c, i)))
  {
    var nSegments := c.nPoints - 1;
    var lower: seq<Point> := [];
    var upper: seq<Point> := [];
    var i := 0;
    while i < c.nPoints
      invariant 0 <= i && (c.nPoints >= 0 ==> i <= c.nPoints)
      invariant i > 0 ==> c.nPoints >= 2
      invariant i <= |c.tWidthU| && i <= |c.tWidthL|
      invariant |lower| == i && |upper| == i
      invariant forall k :: 0 <= k < i ==> lower[k] == Point(ControlX(c, k), LowerY(c, k))
      invariant forall k :: 0 <= k < i ==> upper[k] == Point(ControlX(c, k), UpperY(c, k))
    {
      if nSegments == 0 {
        return Raised(ZeroDivisionError);
      }
      if i >= |c.tWidthL| {
        return Raised(IndexError);
      }
      lower := lower + [Point(c.tLength / nSegments as real * (nSegments - i) as real,
                              -c.tWidthL[i] - c.couplerSpacing / 2.0)];
      if i >= |c.tWidthU| {
        return Raised(IndexError);
      }
      upper := upper + [Point(c.tLength / nSegments as real * (nSegments - i) as real,
                              c.tWidthU[i] + c.couplerSpacing / 2.0)];
      i := i + 1;
    }
    r := Listed(lower, upper);
  }

  /** The first control point sits at x = t_length, the last at x = 0, evenly spaced between. */
  lemma ControlXEnds(c: Coupler, i: int)
    requires c.nPoints >= 2
    ensures ControlX(c, 0) == c.tLength
    ensures ControlX(c, c.nPoints - 1) == 0.0
    ensures ControlX(c, i) - ControlX(c, i + 1) == c.tLength / (c.nPoints - 1) as real
  {
    var n := (c.nPoints - 1) as real;
    var step := c.tLength / n;
    assert step * n == c.tLength;
    assert step * (n - i as real) - step * (n - i as real - 1.0) == step;
  }

  /** With a positive taper length the control points move strictly leftwards. */
  lemma ControlXDecreasing(c: Coupler, i: int, j: int)
    requires c.nPoints >= 2 && c.tLength > 0.0
    requires i < j
    ensures ControlX(c, i) > ControlX(c, j)
  {
    var n := (c.nPoints - 1) as real;
    var step := c.tLength / n;
    assert step > 0.0;
    assert step * (n - i as real) - step * (n - j as real) == step * (j - i) as real;
    assert step * (j - i) as real > 0.0;
  }

  /**
    Upper control points lie above the upper inner edge at +spacing/2 and
    lower ones below the lower inner edge at -spacing/2 by their widths; equal
    width lists place them as mirror images about y = 0.
  */
  lemma ControlYAroundGap(c: Coupler, i: nat)
    requires i < |c.tWidthU| && i < |c.tWidthL|
    ensures UpperY(c, i) - c.couplerSpacing / 2.0 == c.tWidthU[i]
    ensures -c.couplerSpacing / 2.0 - LowerY(c, i) == c.tWidthL[i]
    ensures c.tWidthU[i] > 0.0 ==> UpperY(c, i) > c.couplerSpacing / 2.0
    ensures c.tWidthL[i] > 0.0 ==> LowerY(c, i) < -c.couplerSpacing / 2.0
    ensures c.tWidthU[i] == c.tWidthL[i] ==> UpperY(c, i) == -LowerY(c, i)
  {
  }

  // ---- straight parts of the layout ----

  /** The straight inner edge of the upper taper boundary. */
  function UpperInnerEdge(c: Coupler): seq<Point>
  {
    [Point(0.0, c.couplerSpacing / 2.0), Point(c.tLength, c.couplerSpacing / 2.0)]
  }

  /** The straight inner edge of the lower taper boundary. */
  function LowerInnerEdge(c: Coupler): seq<Point>
  {
    [Point(0.0, -c.couplerSpacing / 2.0), Point(c.tLength, -c.couplerSpacing / 2.0)]
  }

  /**
    Each inner edge spans the x-range of the control points (from the last
    control point at x = 0 to the first at x = t_length), so that together
    with the spline through the control points it closes the boundary; the two
    edges are mirror images about y = 0, a gap of one coupler spacing apart.
  */
  lemma InnerEdgesCloseTaper(c: Coupler)
    requires c.nPoints >= 2
    ensures UpperInnerEdge(c)[0].x == ControlX(c, c.nPoints - 1)
    ensures UpperInnerEdge(c)[1].x == ControlX(c, 0)
    ensures LowerInnerEdge(c)[0].x == ControlX(c, c.nPoints - 1)
    ensures LowerInnerEdge(c)[1].x == ControlX(c, 0)
    ensures forall k :: 0 <= k < 2 ==>
      LowerInnerEdge(c)[k] == Point(UpperInnerEdge(c)[k].x, -UpperInnerEdge(c)[k].y)
    ensures UpperInnerEdge(c)[0].y - LowerInnerEdge(c)[0].y == c.couplerSpacing
  {
    ControlXEnds(c, 0);
  }

  /** The centre line of the upper waveguide, above the gap by half a waveguide width. */
  function UpperCentreY(c: Coupler): real
  {
    c.wgWidth / 2.0 + c.couplerSpacing / 2.0
  }

  /** The centre line of the lower waveguide. */
  function LowerCentreY(c: Coupler): real
  {
    -c.wgWidth / 2.0 - c.couplerSpacing / 2.0
  }

  /** The upper and lower entrance waveguide paths, from x = -wg_length to x = 0. */
  function EntrancePaths(c: Coupler): (seq<Point>, seq<Point>)
  {
    ([Point(-c.wgLength, UpperCentreY(c)), Point(0.0, UpperCentreY(c))],
     [Point(-c.wgLength, LowerCentreY(c)), Point(0.0, LowerCentreY(c))])
  }

  /** The upper and lower exit waveguide paths, from x = t_length to x = t_length + wg_length. */
  function ExitPaths(c: Coupler): (seq<Point>, seq<Point>)
  {
    ([Point(c.tLength, UpperCentreY(c)), Point(c.tLength + c.wgLength, UpperCentreY(c))],
     [Point(c.tLength, LowerCentreY(c)), Point(c.tLength + c.wgLength, LowerCentreY(c))])
  }

  // ---- ports ----

  datatype Port = Port(name: string, position: Point, angle: real)

  /**
    The four optical ports: in1 and in2 face left (angle 180) at the start of
    the entry waveguides, out1 and out2 face right (angle 0) at the end of the
    exit waveguides; in1/out1 lie on the lower waveguide, in2/out2 on the
    upper, at a distance (wg_width + spacing)/2 from y = 0.
  */
  function Ports(c: Coupler): (ps: seq<Port>)
    ensures |ps| == 4
    ensures ps[0].name == "in1" && ps[1].name == "in2" && ps[2].name == "out1" && ps[3].name == "out2"
    ensures ps[0].angle == 180.0 && ps[1].angle == 180.0 && ps[2].angle == 0.0 && ps[3].angle == 0.0
    ensures ps[0].position.x == ps[1].position.x == -c.wgLength
    ensures ps[2].position.x == ps[3].position.x == c.tLength + c.wgLength
    ensures ps[0].position.y == ps[2].position.y == -(c.wgWidth + c.couplerSpacing) / 2.0
    ensures ps[1].position.y == ps[3].position.y == (c.wgWidth + c.couplerSpacing) / 2.0
  {
    var x1 := -c.wgLength;
    var y1 := -c.wgWidth / 2.0 - c.couplerSpacing / 2.0;
    var y2 := c.wgWidth / 2.0 + c.couplerSpacing / 2.0;
    var x2 := c.tLength + c.wgLength;
    [Port("in1", Point(x1, y1), 180.0), Port("in2", Point(x1, y2), 180.0),
     Port("out1", Point(x2, y1), 0.0), Port("out2", Point(x2, y2), 0.0)]
  }

  /**
    Each port sits on the centre line of its waveguide: in1/in2 at the outer
    end of the lower/upper entrance path, out1/out2 at the outer end of the
    lower/upper exit path; the entrance paths end where the taper begins
    (x = 0) and the exit paths begin where it ends (x = t_length).
  */
  lemma PortsOnWaveguides(c: Coupler)
    ensures Ports(c)[0].position == EntrancePaths(c).1[0]
    ensures Ports(c)[1].position == EntrancePaths(c).0[0]
    ensures Ports(c)[2].position == ExitPaths(c).1[1]
    ensures Ports(c)[3].position == ExitPaths(c).0[1]
    ensures EntrancePaths(c).0[1].x == EntrancePaths(c).1[1].x == UpperInnerEdge(c)[0].x
    ensures ExitPaths(c).0[0].x == ExitPaths(c).1[0].x == UpperInnerEdge(c)[1].x
  {
  }

  /**
    The inner sidewalls of the two waveguides (centre line minus half the
    waveguide width) meet the taper's inner edges, so the gap keeps the
    coupler spacing along the whole device.
  */
  lemma WaveguidesMeetInnerEdges(c: Coupler)
    ensures UpperCentreY(c) - c.wgWidth / 2.0 == UpperInnerEdge(c)[0].y
    ensures LowerCentreY(c) + c.wgWidth / 2.0 == LowerInnerEdge(c)[0].y
  {
  }
}
