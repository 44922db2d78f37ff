/**
  The wavelength sweep (start, stop, count) as numpy's uniform grid
  `linspace(start, stop, count)`, and the centre-wavelength index that
  `searchsorted` finds in it: numpy's bisection for the leftmost insertion
  point.
*/
module Sweep {
  import opened Wrappers

  datatype Sweep = Sweep(start: real, stop: real, count: int)

  /** The run's default sweep, in micrometres, and its centre wavelength. */
  const DefaultSweep: Sweep := Sweep(1.25, 1.35, 101)
  const DefaultCenter: real := 1.31

  /** The k-th of count evenly spaced points from start to stop, both included. */
  function GridPoint(start: real, stop: real, count: nat, k: int): real
  {
    if count == 1 then start
    else start + k as real * ((stop - start) / (count - 1) as real)
  }

  /** `linspace(start, stop, count)`; numpy refuses a negative count, see CenterIndex. */
  function Linspace(start: real, stop: real, count: nat): (grid: seq<real>)
    ensures |grid| == count
    ensures forall k :: 0 <= k < count ==> grid[k] == GridPoint(start, stop, count, k)
  {
    seq(count, k => GridPoint(start, stop, count, k))
  }

  /** The grid starts at start, ends at stop, and its neighbours are one step apart. */
  lemma LinspaceShape(start: real, stop: real, count: nat, k: nat)
    requires count >= 2 && k + 1 < count
    ensures Linspace(start, stop, count)[0] == start
    ensures Linspace(start, stop, count)[count - 1] == stop
    ensures Linspace(start, stop, count)[k + 1] - Linspace(start, stop, count)[k]
            == (stop - start) / (count - 1) as real
  {
    var step := (stop - start) / (count - 1) as real;
    assert (count - 1) as real * step == stop - start;
    assert (k + 1) as real * step - k as real * step == step;
  }

  ghost predicate Sorted(a: seq<real>)
  {
    forall i, j :: 0 <= i < j < |a| ==> a[i] <= a[j]
  }

  /** A grid that runs from a start to a stop not below it is sorted. */
  lemma LinspaceSorted(start: real, stop: real, count: nat)
    requires start <= stop
    ensures Sorted(Linspace(start, stop, count))
  {
    var grid := Linspace(start, stop, count);
    if count >= 2 {
      var step := (stop - start) / (count - 1) as real;
      assert step >= 0.0;
      forall i, j | 0 <= i < j < count ensures grid[i] <= grid[j] {
        assert j as real * step - i as real * step == (j - i) as real * step;
        assert (j - i) as real * step >= 0.0;
      }
    }
  }

  /** numpy's bisection between lo and hi for the first point not below key. */
  function BisectLeft(a: seq<real>, key: real, lo: int, hi: int): (r: int)
    requires 0 <= lo <= hi <= |a|
    ensures lo <= r <= hi
    decreases hi - lo
  {
    if lo < hi then
      var mid := lo + (hi - lo) / 2;
      if a[mid] < key then BisectLeft(a, key, mid + 1, hi) else BisectLeft(a, key, lo, mid)
    else lo
  }

  /** `np.searchsorted(a, key)`: always an index in [0, |a|]. */
  function SearchSorted(a: seq<real>, key: real): (r: nat)
    ensures r <= |a|
  {
    BisectLeft(a, key, 0, |a|)
  }

  lemma {:induction false} BisectLeftPartition(a: seq<real>, key: real, lo: int, hi: int)
    requires 0 <= lo <= hi <= |a|
    requires Sorted(a)
    requires forall j :: 0 <= j < lo ==> a[j] < key
    requires forall j :: hi <= j < |a| ==> key <= a[j]
    ensures forall j :: 0 <= j < BisectLeft(a, key, lo, hi) ==> a[j] < key
    ensures forall j :: BisectLeft(a, key, lo, hi) <= j < |a| ==> key <= a[j]
    decreases hi - lo
  {
    if lo < hi {
      var mid := lo + (hi - lo) / 2;
      if a[mid] < key {
        BisectLeftPartition(a, key, mid + 1, hi);
      } else {
        BisectLeftPartition(a, key, lo, mid);
      }
    }
  }

  /**
    On a sorted grid the search result is the leftmost insertion point: every
    point before it lies below key, every point from it on is at or above key.
  */
  lemma SearchSortedIsInsertionPoint(a: seq<real>, key: real)
    requires Sorted(a)
    ensures forall j :: 0 <= j < SearchSorted(a, key) ==> a[j] < key
    ensures forall j :: SearchSorted(a, key) <= j < |a| ==> key <= a[j]
  {
    BisectLeftPartition(a, key, 0, |a|);
  }

  /** No other index splits a sorted grid that way. */
  lemma InsertionPointUnique(a: seq<real>, key: real, p: int)
    requires Sorted(a)
    requires 0 <= p <= |a|
    requires forall j :: 0 <= j < p ==> a[j] < key
    requires forall j :: p <= j < |a| ==> key <= a[j]
    ensures p == SearchSorted(a, key)
  {
    SearchSortedIsInsertionPoint(a, key);
    var r := SearchSorted(a, key);
    assert p < |a| ==> key <= a[p];
    assert r < |a| ==> key <= a[r];
  }

  /** The centre-wavelength index of a sweep; numpy refuses a negative count. */
  function CenterIndex(w: Sweep, center: real): (r: Option<nat>)
    ensures r.Some? <==> w.count >= 0
    ensures r.Some? ==> r.value <= w.count
  {
    if w.count < 0 then None else Some(SearchSorted(Linspace(w.start, w.stop, w.count), center))
  }

  /**
    On an ascending sweep of at least two points, the centre index lies
    inside the grid exactly when the centre wavelength does not exceed the
    stop wavelength; a centre beyond stop gives the index count, one past the
    last grid point.
  */
  lemma CenterIndexInGrid(w: Sweep, center: real)
    requires w.start <= w.stop && w.count >= 2
    ensures CenterIndex(w, center).Some?
    ensures CenterIndex(w, center).value < w.count <==> center <= w.stop
    ensures center > w.stop ==> CenterIndex(w, center).value == w.count
  {
    var grid := Linspace(w.start, w.stop, w.count);
    LinspaceSorted(w.start, w.stop, w.count);
    LinspaceShape(w.start, w.stop, w.count, 0);
    SearchSortedIsInsertionPoint(grid, center);
    if center > w.stop {
      assert forall j :: 0 <= j < w.count ==> grid[j] <= grid[w.count - 1];
      InsertionPointUnique(grid, center, w.count);
    }
  }

  /** With the default sweep (1.25 to 1.35 in 101 points) the centre 1.31 is grid point 60. */
  lemma DefaultCenterIndex()
    ensures CenterIndex(DefaultSweep, DefaultCenter) == Some(60)
  {
    var grid := Linspace(1.25, 1.35, 101);
    LinspaceSorted(1.25, 1.35, 101);
    assert grid[59] < 1.31 && grid[60] == 1.31;
    InsertionPointUnique(grid, 1.31, 60);
  }
}
