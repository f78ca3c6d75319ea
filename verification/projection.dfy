/** The ink-count projection `is_number_of_black_pixels_less_than` (signal.cpp):
    one flag per line of the image telling whether the line holds fewer than
    `threshold` dark pixels. */
module Projection {
  import opened Geometry
  import opened Raster
  import opened Numeric

  /** Axis::X gives one value per row, Axis::Y one value per column. */
  datatype Axis = AxisX | AxisY

  /** The number of values of `line` below `white`. */
  function CountBelow(line: seq<int>, white: int): (n: nat)
    ensures n <= |line|
  {
    if |line| == 0 then 0
    else CountBelow(line[..|line| - 1], white) + (if line[|line| - 1] < white then 1 else 0)
  }

  /** The positions of `line` whose value is below `white`. */
  function DarkPositions(line: seq<int>, white: int): set<int>
  {
    set k | 0 <= k < |line| && line[k] < white
  }

  /** The count is the number of dark positions. */
  lemma {:induction false} CountBelowIsCardinality(line: seq<int>, white: int)
    ensures CountBelow(line, white) == |DarkPositions(line, white)|
  {
    if |line| > 0 {
      var init := line[..|line| - 1];
      CountBelowIsCardinality(init, white);
      var last := |line| - 1;
      if line[last] < white {
        assert DarkPositions(line, white) == DarkPositions(init, white) + {last};
      } else {
        assert DarkPositions(line, white) == DarkPositions(init, white);
      }
    }
  }

  /** The line with index k along `axis`: row k for Axis::X, column k for Axis::Y. */
  function Line(img: Image, axis: Axis, k: int): seq<int>
    requires WellFormed(img) && 0 <= k < LineCount(img, axis)
  {
    if axis == AxisX then RowAt(img, k) else ColumnAt(img, k)
  }

  function LineCount(img: Image, axis: Axis): nat
    requires WellFormed(img)
  {
    if axis == AxisX then img.dom.height else img.dom.width
  }

  /** is_number_of_black_pixels_less_than(input, white_level, threshold, axis, out):
      out[k] is 1 when line k holds fewer than `threshold` pixels below `white`,
      0 otherwise. */
  function BlankLines(img: Image, white: int, threshold: int, axis: Axis): (out: seq<int>)
    requires WellFormed(img)
    ensures |out| == LineCount(img, axis)
    ensures forall k :: 0 <= k < |out| ==> out[k] == 0 || out[k] == 1
    ensures forall k :: 0 <= k < |out| ==>
      (out[k] == 1 <==> |DarkPositions(Line(img, axis, k), white)| < threshold)
  {
    seq(LineCount(img, axis), k requires 0 <= k < LineCount(img, axis) => LineFlag(Line(img, axis, k), white, threshold))
  }

  /** The comparison of one line's count against the threshold, as a byte. */
  function LineFlag(line: seq<int>, white: int, threshold: int): (f: int)
    ensures f == 0 || f == 1
    ensures f == 1 <==> |DarkPositions(line, white)| < threshold
  {
    CountBelowIsCardinality(line, white);
    if CountBelow(line, white) < threshold then 1 else 0
  }

  /** The float overload: the threshold is the fraction `percentile` of the pixels
      of a line, truncated. */
  function BlankLinesPercentile(img: Image, white: int, percentile: real, axis: Axis): (out: seq<int>)
    requires WellFormed(img)
    ensures |out| == LineCount(img, axis)
    ensures forall k :: 0 <= k < |out| ==>
      (out[k] == 1 <==> |DarkPositions(Line(img, axis, k), white)| < PercentileThreshold(img, percentile, axis))
  {
    BlankLines(img, white, PercentileThreshold(img, percentile, axis), axis)
  }

  /** int(percentile * n) with n the length of a line along `axis`. */
  function PercentileThreshold(img: Image, percentile: real, axis: Axis): int
    requires WellFormed(img)
  {
    var n := if axis == AxisY then img.dom.height else img.dom.width;
    Trunc(percentile * n as real)
  }

  /** A line without any dark pixel is blank as soon as the threshold is positive;
      a threshold of 0 or below marks no line blank. */
  lemma BlankLinesExtremes(img: Image, white: int, threshold: int, axis: Axis, k: int)
    requires WellFormed(img) && 0 <= k < LineCount(img, axis)
    ensures threshold <= 0 ==> BlankLines(img, white, threshold, axis)[k] == 0
    ensures threshold > 0 && DarkPositions(Line(img, axis, k), white) == {} ==>
      BlankLines(img, white, threshold, axis)[k] == 1
  {
  }

  /** A larger threshold marks at least the same lines blank. */
  lemma BlankLinesMonotonic(img: Image, white: int, t1: int, t2: int, axis: Axis, k: int)
    requires WellFormed(img) && 0 <= k < LineCount(img, axis) && t1 <= t2
    ensures BlankLines(img, white, t1, axis)[k] <= BlankLines(img, white, t2, axis)[k]
  {
  }
}
