/** The suppression of non-local minima in `blur_region_and_labelize`
    (DOMLinesExtractor.cpp): every row of the closed, blurred region is
    scanned for runs of dark values, and each run leaves one marker at its
    leftmost minimum in an image that is otherwise white (255). The blur, the
    closings and the reconstruction around the scan are image morphology and
    are not part of this model; the scan reads their output as an input. */
module Markers {

  /** kWhiteLevelForLineSplit: values at or below it are dark. */
  const WhiteLevelForLineSplit: int := 230

  /** The value the marker image starts with and keeps where there is no marker. */
  const NoMarker: int := 255

  predicate Dark(v: int) { v <= WhiteLevelForLineSplit }

  /** Every value of `line[a..b]` is dark. */
  predicate AllDark(line: seq<int>, a: int, b: int)
    requires 0 <= a <= b <= |line|
  {
    forall t :: a <= t < b ==> Dark(line[t])
  }

  /** `line[s..e]` is a maximal run of dark values: non-empty, all dark, and
      bounded by the row's ends or by values that are not dark. */
  predicate MaximalRun(line: seq<int>, s: int, e: int)
  {
    && 0 <= s < e <= |line|
    && AllDark(line, s, e)
    && (s == 0 || !Dark(line[s - 1]))
    && (e == |line| || !Dark(line[e]))
  }

  /** Position `i` is dark and holds the leftmost minimum of the run it lies
      in: every value before it in the run is greater, every value after it in
      the run is at least as large. */
  predicate LeftmostMin(line: seq<int>, i: int)
    requires 0 <= i < |line|
  {
    && Dark(line[i])
    && (forall j :: 0 <= j < i && AllDark(line, j, i) ==> line[j] > line[i])
    && (forall j :: i < j < |line| && AllDark(line, i, j + 1) ==> line[j] >= line[i])
  }

  /** The value the marker image holds at position `i` of a row. */
  function MarkerAt(line: seq<int>, i: int): int
    requires 0 <= i < |line|
  {
    if LeftmostMin(line, i) then line[i] else NoMarker
  }

  /** `k` is the leftmost minimum of `line[s..e]` when only that slice is looked at. */
  predicate MinOfSlice(line: seq<int>, s: int, e: int, k: int)
    requires 0 <= s <= k < e <= |line|
  {
    && (forall j :: s <= j < k ==> line[j] > line[k])
    && (forall j :: k < j < e ==> line[j] >= line[k])
  }

  /** Inside a maximal run, the leftmost minimum of the slice is the one and
      only position that `LeftmostMin` accepts. */
  lemma RunMarkers(line: seq<int>, s: int, e: int, k: int)
    requires MaximalRun(line, s, e)
    requires s <= k < e && MinOfSlice(line, s, e, k)
    ensures forall i :: s <= i < e ==> (LeftmostMin(line, i) <==> i == k)
  {
    forall j | 0 <= j < k && AllDark(line, j, k)
      ensures line[j] > line[k]
    {
      assert j >= s;
    }
    forall j | k < j < |line| && AllDark(line, k, j + 1)
      ensures line[j] >= line[k]
    {
      assert j < e;
    }
    assert LeftmostMin(line, k);
    forall i | s <= i < e && i != k
      ensures !LeftmostMin(line, i)
    {
      if i < k {
        assert AllDark(line, i, k + 1);
      } else {
        assert AllDark(line, k, i);
      }
    }
  }

  /** The leftmost minimum of `line[s..e]`, found as the scan finds it: a later
      value replaces the current one only when it is strictly smaller. */
  function SliceMin(line: seq<int>, s: int, e: int): (k: int)
    requires 0 <= s < e <= |line|
    ensures s <= k < e && MinOfSlice(line, s, e, k)
    decreases e
  {
    if e == s + 1 then s
    else
      var k := SliceMin(line, s, e - 1);
      if line[e - 1] < line[k] then e - 1 else k
  }

  /** Each maximal run of dark values holds exactly one leftmost minimum, so
      exactly one marker. */
  lemma RunHasOneMarker(line: seq<int>, s: int, e: int)
    requires MaximalRun(line, s, e)
    ensures exists k :: s <= k < e && LeftmostMin(line, k)
    ensures forall i, j :: s <= i < e && s <= j < e && LeftmostMin(line, i) && LeftmostMin(line, j) ==> i == j
  {
    var k := SliceMin(line, s, e);
    RunMarkers(line, s, e, k);
    assert LeftmostMin(line, k);
  }

  /** The scan of one row (`lineptr[0..width]`), with the loops of the source:
      skip the values above the white level, then walk the dark run keeping
      the first position of its smallest value, and write that value there. */
  method RowMarkers(line: seq<int>) returns (m: seq<int>)
    ensures |m| == |line|
    ensures forall i :: 0 <= i < |line| ==> m[i] == MarkerAt(line, i)
  {
    var w := |line|;
    m := seq(w, _ => NoMarker);
    var x := 0;
    while x < w
      invariant 0 <= x <= w && |m| == w
      invariant x == 0 || x == w || !Dark(line[x])
      invariant forall i :: 0 <= i < x ==> m[i] == MarkerAt(line, i)
      invariant forall i :: x <= i < w ==> m[i] == NoMarker
      decreases w - x
    {
      var x0 := x;
      while x < w && !Dark(line[x])
        invariant x0 <= x <= w
        invariant forall i :: x0 <= i < x ==> !Dark(line[i])
      {
        x := x + 1;
      }
      var s := x;
      var xmin := x;
      while x < w && Dark(line[x])
        invariant s <= xmin <= x <= w
        invariant xmin == x ==> x == s
        invariant AllDark(line, s, x)
        invariant xmin < x ==> MinOfSlice(line, s, x, xmin)
      {
        if line[x] < line[xmin] {
          xmin := x;
        }
        x := x + 1;
      }
      if xmin < w {
        RunMarkers(line, s, x, xmin);
        m := m[xmin := line[xmin]];
      }
    }
  }

  /** The marker image of a region: one scanned row per row of the region,
      relative to the region's corner. */
  method MarkerImage(rows: seq<seq<int>>) returns (markers: seq<seq<int>>)
    ensures |markers| == |rows|
    ensures forall y :: 0 <= y < |rows| ==> |markers[y]| == |rows[y]|
    ensures forall y, x :: 0 <= y < |rows| && 0 <= x < |rows[y]| ==> markers[y][x] == MarkerAt(rows[y], x)
  {
    markers := [];
    var y := 0;
    while y < |rows|
      invariant 0 <= y <= |rows| && |markers| == y
      invariant forall v :: 0 <= v < y ==> |markers[v]| == |rows[v]|
      invariant forall v, x :: 0 <= v < y && 0 <= x < |rows[v]| ==> markers[v][x] == MarkerAt(rows[v], x)
    {
      var row := RowMarkers(rows[y]);
      markers := markers + [row];
      y := y + 1;
    }
  }
}
