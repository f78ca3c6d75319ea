/** The XY-cut layout extraction (XYCutLayoutExtraction.cpp): the page is cut
    alternately along y (vsplit: sections and titles) and along x (hsplit:
    columns), every region is appended to one flat arena and points to its
    parent by index. */
module XYCut {
  import opened Wrappers
  import opened Geometry
  import opened Intervals
  import opened Raster
  import opened Projection
  import opened Signal
  import opened Config
  import opened Layout

  /** Grey level under which a pixel of the block image counts as ink in vsplit. */
  const kWhiteThreshold: int := 200
  /** Margin added around every detected block. */
  const kExtraMargin: int := 2
  /** A vertical separator prevents a cut only when it lies this far inside the region. */
  const kInnerRegion: int := 10

  /** The `runtime_error("Invalid document layout.")` thrown on an unexpected parent. */
  datatype XYCutError = InvalidLayout(parent: DOMCategory)

  // ----- detect_border ------------------------------------------------------

  /** `while (l > 0 && !is_white[l]) l--;` */
  function BackOverInk(white: seq<bool>, l: int): (i: int)
    requires 0 <= l < |white|
    ensures 0 <= i <= l
    ensures forall k :: i < k <= l ==> !white[k]
    ensures i == 0 || white[i]
    decreases l
  {
    if l > 0 && !white[l] then BackOverInk(white, l - 1) else l
  }

  /** `while (l < r && is_white[l]) l++;` */
  function SkipWhiteRight(white: seq<bool>, l: int, r: int): (i: int)
    requires 0 <= l <= r < |white|
    ensures l <= i <= r
    ensures forall k :: l <= k < i ==> white[k]
    ensures i == r || !white[i]
    decreases r - l
  {
    if l < r && white[l] then SkipWhiteRight(white, l + 1, r) else l
  }

  /** `while (r < n - 1 && !is_white[r]) r++;` */
  function ForwardOverInk(white: seq<bool>, r: int): (i: int)
    requires 0 <= r < |white|
    ensures r <= i < |white|
    ensures forall k :: r <= k < i ==> !white[k]
    ensures i == |white| - 1 || white[i]
    decreases |white| - r
  {
    if r < |white| - 1 && !white[r] then ForwardOverInk(white, r + 1) else r
  }

  /** `while (r > l && is_white[r]) r--;` */
  function SkipWhiteLeft(white: seq<bool>, l: int, r: int): (i: int)
    requires 0 <= l <= r < |white|
    ensures l <= i <= r
    ensures forall k :: i < k <= r ==> white[k]
    ensures i == l || !white[i]
    decreases r
  {
    if r > l && white[r] then SkipWhiteLeft(white, l, r - 1) else r
  }

  /** detect_border from the start points l0 and r0 (the source computes them as
      int(kLayoutPageMargin * n) and int((1 - kLayoutPageMargin) * n) in single
      precision): the half-open range [l, r) of the page along one axis. Both ends
      are ink unless the range shrank to a single position, and the white run
      that was skipped on each side is reported too. */
  function DetectBorderFrom(white: seq<bool>, l0: int, r0: int): (b: (int, int))
    requires (|white| == 0 && l0 == 0 && r0 == 0) || 0 <= l0 <= r0 < |white|
    ensures |white| == 0 ==> b == (0, 1)
    ensures |white| > 0 ==> 0 <= b.0 < b.1 <= |white| && b.0 <= r0
    ensures |white| > 0 ==> (!white[b.0] || b.0 == b.1 - 1) && (!white[b.1 - 1] || b.1 - 1 == b.0)
    ensures |white| > 0 && !white[l0] ==> forall k :: b.0 <= k <= l0 ==> !white[k]
    ensures |white| > 0 && !white[r0] ==> r0 < b.1
  {
    if |white| == 0 then (0, 1)
    else
      var l1 := BackOverInk(white, l0);
      var l := SkipWhiteRight(white, l1, r0);
      var r1 := ForwardOverInk(white, r0);
      var r := SkipWhiteLeft(white, l, r1);
      (l, r + 1)
  }

  /** detect_border with the start points computed exactly. */
  function DetectBorder(white: seq<bool>): (b: (int, int))
    ensures |white| > 0 ==> 0 <= b.0 < b.1 <= |white|
  {
    var n := |white| as real;
    var l0 := Numeric.Trunc(kLayoutPageMargin * n);
    var r0 := Numeric.Trunc((1.0 - kLayoutPageMargin) * n);
    if |white| > 0 then
      assert 0 <= l0 <= r0 < |white| by { Numeric.TruncMonotonic(kLayoutPageMargin * n, (1.0 - kLayoutPageMargin) * n); }
      DetectBorderFrom(white, l0, r0)
    else DetectBorderFrom(white, 0, 0)
  }

  /** A line of ink keeps the whole range: nothing is white, so nothing is cropped. */
  lemma DetectBorderAllInk(white: seq<bool>, l0: int, r0: int)
    requires 0 <= l0 <= r0 < |white|
    requires forall k :: 0 <= k < |white| ==> !white[k]
    ensures DetectBorderFrom(white, l0, r0) == (0, |white|)
  {
  }

  /** An all-white line collapses to the single position r0. */
  lemma DetectBorderAllWhite(white: seq<bool>, l0: int, r0: int)
    requires 0 <= l0 <= r0 < |white|
    requires forall k :: 0 <= k < |white| ==> white[k]
    ensures DetectBorderFrom(white, l0, r0) == (r0, r0 + 1)
  {
  }

  // ----- Segment selection --------------------------------------------------

  /** The segments of `s` satisfying `f`, in order. */
  function Filter(f: Segment -> bool, s: seq<Segment>): (r: seq<Segment>)
    ensures |r| <= |s|
    ensures forall x :: x in r <==> x in s && f(x)
  {
    if |s| == 0 then [] else (if f(s[0]) then [s[0]] else []) + Filter(f, s[1..])
  }

  /** Every segment runs downwards (start.y <= end.y), as the detector promises. */
  predicate AllTopDown(segs: seq<Segment>)
  {
    forall s :: s in segs ==> s.TopDown()
  }

  /** The segments with both end-points in the region. */
  function RegionSegments(segs: seq<Segment>, region: Box): seq<Segment>
  {
    Filter((s: Segment) => HasSegment(region, s), segs)
  }

  /** vsplit: the horizontal segments of the region. */
  function HorizontalSegments(segs: seq<Segment>, region: Box): seq<Segment>
  {
    Filter((s: Segment) => IsHorizontal(s, kAngleTolerance) && HasSegment(region, s), segs)
  }

  /** vsplit: a segment that is not one of the horizontal ones, is vertical, and lies
      in the region shrunk by kInnerRegion prevents cutting across its span. */
  predicate PreventsCut(s: Segment, region: Box)
  {
    && !(IsHorizontal(s, kAngleTolerance) && HasSegment(region, s))
    && IsVertical(s, kAngleTolerance)
    && HasSegment(Inflate(region, -kInnerRegion), s)
  }

  /** The preventing segments, in order. */
  function PreventingSegments(segs: seq<Segment>, region: Box): seq<Segment>
  {
    Filter((s: Segment) => PreventsCut(s, region), segs)
  }

  /** The closed y-spans [start.y, end.y] of segments. */
  function Spans(seps: seq<Segment>): (r: seq<Interval>)
    requires AllTopDown(seps)
    ensures |r| == |seps|
    ensures forall k :: 0 <= k < |r| ==> r[k] == Interval(seps[k].start.y, seps[k].end.y) && r[k].a <= r[k].b
  {
    assert forall k :: 0 <= k < |seps| ==> seps[k] in seps;
    seq(|seps|, k requires 0 <= k < |seps| => Interval(seps[k].start.y, seps[k].end.y))
  }

  /** The IntervalSet `ver_segments` of vsplit: the spans of the preventing
      segments, inserted in order. */
  function PreventedSpans(segs: seq<Segment>, region: Box): (r: seq<Interval>)
    requires AllTopDown(segs)
    ensures Valid(r)
    ensures forall v :: Covers(r, v) <==> Covers(Spans(PreventingSegments(segs, region)), v)
  {
    var seps := PreventingSegments(segs, region);
    InsertAllCorrect([], Spans(seps));
    InsertAll([], Spans(seps))
  }

  // ----- Overwriting bands of a signal ----------------------------------------

  /** Position k lies in one of the half-open bands [lo, hi). */
  predicate InBands(bands: seq<(int, int)>, k: int)
  {
    exists j :: 0 <= j < |bands| && bands[j].0 <= k < bands[j].1
  }

  /** `for (y = lo; y < hi; ++y) s[y] = v` (or `std::fill`). */
  function FillBand(s: seq<int>, band: (int, int), v: int): (r: seq<int>)
    ensures |r| == |s|
    ensures forall k :: 0 <= k < |s| ==> r[k] == if band.0 <= k < band.1 then v else s[k]
  {
    seq(|s|, k requires 0 <= k < |s| => if band.0 <= k < band.1 then v else s[k])
  }

  /** Filling the bands one after the other sets exactly the positions of their
      union to v and keeps every other position. */
  function FillBands(s: seq<int>, bands: seq<(int, int)>, v: int): (r: seq<int>)
    ensures |r| == |s|
    ensures forall k :: 0 <= k < |s| ==> r[k] == if InBands(bands, k) then v else s[k]
    decreases |bands|
  {
    if |bands| == 0 then s
    else
      var r := FillBands(FillBand(s, bands[0], v), bands[1..], v);
      assert forall k :: InBands(bands, k) <==> (bands[0].0 <= k < bands[0].1 || InBands(bands[1..], k)) by {
        forall k
          ensures InBands(bands, k) <==> (bands[0].0 <= k < bands[0].1 || InBands(bands[1..], k))
        {
          if InBands(bands[1..], k) {
            var j :| 0 <= j < |bands[1..]| && bands[1..][j].0 <= k < bands[1..][j].1;
            assert bands[j + 1] == bands[1..][j];
          }
          if InBands(bands, k) {
            var j :| 0 <= j < |bands| && bands[j].0 <= k < bands[j].1;
            if j > 0 { assert bands[1..][j - 1] == bands[j]; }
          }
        }
      }
      r
  }

  // ----- vsplit: the row signal --------------------------------------------------

  /** The three strips whose blank rows are combined: the first quarter, then the
      second and the last third of the region (columns [w/4, w/3) are not read). */
  function Strips(region: Box): (r: seq<Box>)
    requires region.width >= 0 && region.height >= 0
    ensures |r| == 3
    ensures forall i :: 0 <= i < 3 ==>
      Contains(region, r[i]) && r[i].width >= 0 && r[i].y == region.y && r[i].height == region.height
    ensures r[0].x == region.x && r[0].X1() <= r[1].x
    ensures r[1].X1() == r[2].x && r[2].X1() == region.X1()
  {
    var w := region.width;
    [ Box(region.x, region.y, w / 4, region.height),
      Box(region.x + w / 3, region.y, 2 * (w / 3) - w / 3, region.height),
      Box(region.x + 2 * (w / 3), region.y, w - 2 * (w / 3), region.height) ]
  }

  /** The requirement of every split: a region of non-negative size inside the image. */
  predicate InImage(input: Image, region: Box)
  {
    WellFormed(input) && region.width >= 0 && region.height >= 0 && Contains(input.dom, region)
  }

  /** Row k of strip i. */
  function StripRow(input: Image, region: Box, i: int, k: int): seq<int>
    requires InImage(input, region) && 0 <= i < 3 && 0 <= k < region.height
  {
    RowAt(Clip(input, Strips(region)[i]), k)
  }

  /** The blank-row flags of one strip. */
  function StripFlags(input: Image, region: Box, config: KConfig, i: int): (f: seq<int>)
    requires InImage(input, region) && 0 <= i < 3
    ensures |f| == region.height
    ensures forall k :: 0 <= k < |f| ==> f[k] == 0 || f[k] == 1
    ensures forall k :: 0 <= k < |f| ==>
      (f[k] == 1 <==> |DarkPositions(StripRow(input, region, i, k), kWhiteThreshold)| < config.kCountEmptyLine)
  {
    BlankLines(Clip(input, Strips(region)[i]), kWhiteThreshold, config.kCountEmptyLine, AxisX)
  }

  /** Row k is blank in every strip. */
  predicate BlankInStrips(input: Image, region: Box, config: KConfig, k: int)
    requires InImage(input, region) && 0 <= k < region.height
  {
    forall i :: 0 <= i < 3 ==> |DarkPositions(StripRow(input, region, i, k), kWhiteThreshold)| < config.kCountEmptyLine
  }

  /** `min(ysum[i], ysum[i + h], ysum[i + 2h])` for one row: the minimum of three
      0/1 flags is their conjunction. */
  function RowFlag(input: Image, region: Box, config: KConfig, k: int): (f: int)
    requires InImage(input, region) && 0 <= k < region.height
    ensures f == 0 || f == 1
    ensures f == 1 <==> BlankInStrips(input, region, config, k)
  {
    var f0 := StripFlags(input, region, config, 0)[k];
    var f1 := StripFlags(input, region, config, 1)[k];
    var f2 := StripFlags(input, region, config, 2)[k];
    assert BlankInStrips(input, region, config, k) <==> f0 == 1 && f1 == 1 && f2 == 1 by {
      if f0 == 1 && f1 == 1 && f2 == 1 {
        forall i | 0 <= i < 3
          ensures |DarkPositions(StripRow(input, region, i, k), kWhiteThreshold)| < config.kCountEmptyLine
        {
          if i == 0 {} else if i == 1 {} else {}
        }
      }
    }
    Min(Min(f0, f1), f2)
  }

  /** The combined row flags of vsplit: a row is blank when it is blank in all three strips. */
  function BlankRows(input: Image, region: Box, config: KConfig): (s: seq<int>)
    requires InImage(input, region)
    ensures |s| == region.height
    ensures forall k :: 0 <= k < |s| ==> s[k] == 0 || s[k] == 1
    ensures forall k :: 0 <= k < |s| ==> (s[k] == 1 <==> BlankInStrips(input, region, config, k))
  {
    seq(region.height, k requires 0 <= k < region.height => RowFlag(input, region, config, k))
  }

  /** A long horizontal segment whites out its rows, with a margin of 3 pixels. */
  function ForcedBand(s: Segment, region: Box): (int, int)
  {
    (Max(0, s.start.y - region.y - 3), Min(s.end.y + 3, region.Y1()) - region.y)
  }

  /** A horizontal segment forces a cut when it spans a quarter of the region width. */
  predicate LongEnough(s: Segment, region: Box)
  {
    !(s.length < 0.25 * region.width as real)
  }

  /** The horizontal segments of the region that force a cut. */
  function ForcingSegments(segs: seq<Segment>, region: Box): seq<Segment>
  {
    Filter((s: Segment) => LongEnough(s, region), HorizontalSegments(segs, region))
  }

  function ForcedBands(segs: seq<Segment>, region: Box): seq<(int, int)>
  {
    var long := ForcingSegments(segs, region);
    seq(|long|, k requires 0 <= k < |long| => ForcedBand(long[k], region))
  }

  /** A stored span [a, b] of the IntervalSet clears the rows [a, b) of the region. */
  function PreventedBand(iv: Interval, region: Box): (int, int)
  {
    (Max(0, iv.a - region.y), Min(region.Y1(), iv.b) - region.y)
  }

  function PreventedBands(segs: seq<Segment>, region: Box): seq<(int, int)>
    requires AllTopDown(segs)
  {
    var spans := PreventedSpans(segs, region);
    seq(|spans|, k requires 0 <= k < |spans| => PreventedBand(spans[k], region))
  }

  /** The signal vsplit partitions: each row of the region is 0 where a vertical
      separator prevents the cut, else 255 where a long horizontal separator forces
      it, else its blank flag. */
  function RowSignal(input: Image, segs: seq<Segment>, config: KConfig, region: Box): (s: seq<int>)
    requires InImage(input, region) && AllTopDown(segs)
    ensures |s| == region.height
    ensures forall k :: 0 <= k < |s| ==>
      s[k] == (if InBands(PreventedBands(segs, region), k) then 0
               else if InBands(ForcedBands(segs, region), k) then UINT8_MAX
               else BlankRows(input, region, config)[k])
  {
    var blank := BlankRows(input, region, config);
    var forced := FillBands(blank, ForcedBands(segs, region), UINT8_MAX);
    FillBands(forced, PreventedBands(segs, region), 0)
  }

  /** The sections vsplit finds in a region. */
  function RowSections(input: Image, segs: seq<Segment>, config: KConfig, region: Box): (r: seq<(int, int)>)
    requires InImage(input, region) && AllTopDown(segs)
    ensures forall m :: 0 <= m < |r| ==> 0 <= r[m].0 < r[m].1 <= region.height
  {
    Partitions(RowSignal(input, segs, config, region), config.kSectionMinSpacing, config.kSectionMinSize)
  }

  /** A row spanned by a preventing vertical separator is cleared, so no cut
      falls on it. */
  lemma SeparatorPreventsCut(input: Image, segs: seq<Segment>, config: KConfig, region: Box, s: Segment, k: int)
    requires InImage(input, region) && AllTopDown(segs)
    requires s in segs && PreventsCut(s, region)
    requires 0 <= k < region.height && s.start.y <= region.y + k < s.end.y
    ensures RowSignal(input, segs, config, region)[k] == 0
    ensures !Cut(Bytes, RowSignal(input, segs, config, region), config.kSectionMinSpacing, k)
  {
    SeparatorClearsRow(input, segs, config, region, s, k);
  }

  lemma SeparatorClearsRow(input: Image, segs: seq<Segment>, config: KConfig, region: Box, s: Segment, k: int)
    requires InImage(input, region) && AllTopDown(segs)
    requires s in segs && PreventsCut(s, region)
    requires 0 <= k < region.height && s.start.y <= region.y + k < s.end.y
    ensures InBands(PreventedBands(segs, region), k)
  {
    SeparatorSpanHeld(segs, region, s);
    var spans := PreventedSpans(segs, region);
    var i :| 0 <= i < |spans| && spans[i].a <= s.start.y && s.end.y <= spans[i].b;
    var bands := PreventedBands(segs, region);
    assert bands[i] == PreventedBand(spans[i], region);
    assert bands[i].0 <= k < bands[i].1;
  }

  /** The span of a preventing separator is held by the IntervalSet. */
  lemma SeparatorSpanHeld(segs: seq<Segment>, region: Box, s: Segment)
    requires AllTopDown(segs)
    requires s in segs && PreventsCut(s, region)
    ensures Holds(PreventedSpans(segs, region), s.start.y, s.end.y)
  {
    var seps := PreventingSegments(segs, region);
    var j :| 0 <= j < |seps| && seps[j] == s;
    assert PreventedSpans(segs, region) == InsertAll([], Spans(seps));
    InsertAllHolds([], Spans(seps), j);
  }

  /** Conversely, a cleared row lies on the closed span of a preventing separator. */
  lemma PreventedRowIsSpanned(segs: seq<Segment>, region: Box, k: int)
    requires AllTopDown(segs)
    requires InBands(PreventedBands(segs, region), k)
    ensures exists s :: s in segs && PreventsCut(s, region) && s.start.y <= region.y + k <= s.end.y
  {
    var seps := PreventingSegments(segs, region);
    var spans := PreventedSpans(segs, region);
    var j :| 0 <= j < |spans| && PreventedBands(segs, region)[j].0 <= k < PreventedBands(segs, region)[j].1;
    assert PreventedBands(segs, region)[j] == PreventedBand(spans[j], region);
    assert HasValue(spans[j], region.y + k);
    assert Covers(Spans(seps), region.y + k);
    var i :| 0 <= i < |Spans(seps)| && HasValue(Spans(seps)[i], region.y + k);
    assert seps[i] in seps;
  }

  /** A long horizontal separator of the region forces a cut on every row within
      3 pixels of it that no vertical separator protects, so no section holds it. */
  lemma LongSeparatorForcesCut(input: Image, segs: seq<Segment>, config: KConfig, region: Box, s: Segment, k: int)
    requires InImage(input, region) && AllTopDown(segs)
    requires s in segs && IsHorizontal(s, kAngleTolerance) && HasSegment(region, s) && LongEnough(s, region)
    requires 0 <= k < region.height && s.start.y - 3 <= region.y + k < s.end.y + 3
    requires !InBands(PreventedBands(segs, region), k)
    ensures RowSignal(input, segs, config, region)[k] == UINT8_MAX
    ensures forall m :: 0 <= m < |RowSections(input, segs, config, region)| ==>
      !(RowSections(input, segs, config, region)[m].0 <= k < RowSections(input, segs, config, region)[m].1)
  {
    var hor := HorizontalSegments(segs, region);
    var long := ForcingSegments(segs, region);
    assert s in hor;
    assert s in long;
    var j :| 0 <= j < |long| && long[j] == s;
    assert ForcedBands(segs, region)[j] == ForcedBand(s, region);
    var data := RowSignal(input, segs, config, region);
    var secs := RowSections(input, segs, config, region);
    forall m | 0 <= m < |secs|
      ensures !(secs[m].0 <= k < secs[m].1)
    {
      assert Reported(Bytes, data, config.kSectionMinSpacing, config.kSectionMinSize, secs[m].0, secs[m].1);
      SectionShape(Bytes, data, config.kSectionMinSpacing, secs[m].0, secs[m].1);
    }
  }

  // ----- hsplit: the column signal -------------------------------------------

  /** hsplit: the vertical segments of the region. */
  function VerticalSegments(segs: seq<Segment>, region: Box): seq<Segment>
  {
    Filter((s: Segment) => HasSegment(region, s) && IsVertical(s, kAngleTolerance), segs)
  }

  /** A vertical segment whites out the columns within 3 * kExtraMargin of its mean
      abscissa m / 2 (relative to the region); the float bounds max(0, m/2 - 6) and
      min(width, m/2 + 6) are truncated towards zero. */
  function WhitenedBand(s: Segment, region: Box): (int, int)
  {
    var m := s.start.x + s.end.x - 2 * region.x;
    (Max(0, (m - 2 * 3 * kExtraMargin) / 2), Min(region.width, (m + 2 * 3 * kExtraMargin) / 2))
  }

  function WhitenedBands(segs: seq<Segment>, region: Box): seq<(int, int)>
  {
    var ver := VerticalSegments(segs, region);
    seq(|ver|, k requires 0 <= k < |ver| => WhitenedBand(ver[k], region))
  }

  /** The ink threshold of a column: 1% of the region height, truncated. */
  function ColumnThreshold(region: Box): int
  {
    Numeric.Trunc(0.01 * region.height as real)
  }

  /** The signal hsplit partitions: 255 on the columns next to a vertical separator,
      otherwise 1 when the column of the region holds fewer than ColumnThreshold
      pixels below kLayoutWhiteLevel and 0 when it does not. */
  function ColumnSignal(input: Image, segs: seq<Segment>, region: Box): (s: seq<int>)
    requires InImage(input, region)
    ensures |s| == region.width
    ensures forall k :: 0 <= k < |s| ==>
      s[k] == (if InBands(WhitenedBands(segs, region), k) then UINT8_MAX
               else if |DarkPositions(ColumnAt(Clip(input, region), k), kLayoutWhiteLevel)| < ColumnThreshold(region) then 1
               else 0)
  {
    var img := Clip(input, region);
    var rnks := BlankLinesPercentile(img, kLayoutWhiteLevel, 0.01, AxisY);
    assert PercentileThreshold(img, 0.01, AxisY) == ColumnThreshold(region);
    FillBands(rnks, WhitenedBands(segs, region), UINT8_MAX)
  }

  /** The columns hsplit finds in a region (`partitions(rnks, kColumnMinSpacing)`,
      whose minimum section size defaults to 0). */
  function ColumnSections(input: Image, segs: seq<Segment>, config: KConfig, region: Box): (r: seq<(int, int)>)
    requires InImage(input, region)
    ensures forall m :: 0 <= m < |r| ==> 0 <= r[m].0 < r[m].1 <= region.width
  {
    Partitions(ColumnSignal(input, segs, region), config.kColumnMinSpacing, 0)
  }

  /** Every column within 5 pixels of a vertical separator's mean abscissa is
      whited out, so no column of the region straddles the separator. */
  lemma VerticalSeparatorForcesCut(input: Image, segs: seq<Segment>, config: KConfig, region: Box, s: Segment, k: int)
    requires InImage(input, region)
    requires s in segs && HasSegment(region, s) && IsVertical(s, kAngleTolerance)
    requires 0 <= k < region.width
    requires var m := s.start.x + s.end.x - 2 * region.x; m - 10 <= 2 * k <= m + 10
    ensures ColumnSignal(input, segs, region)[k] == UINT8_MAX
    ensures forall j :: 0 <= j < |ColumnSections(input, segs, config, region)| ==>
      !(ColumnSections(input, segs, config, region)[j].0 <= k < ColumnSections(input, segs, config, region)[j].1)
  {
    VerticalSeparatorWhitens(input, segs, region, s, k);
    var data := ColumnSignal(input, segs, region);
    var cols := ColumnSections(input, segs, config, region);
    forall j | 0 <= j < |cols|
      ensures !(cols[j].0 <= k < cols[j].1)
    {
      assert Reported(Bytes, data, config.kColumnMinSpacing, 0, cols[j].0, cols[j].1);
      SectionShape(Bytes, data, config.kColumnMinSpacing, cols[j].0, cols[j].1);
    }
  }

  lemma VerticalSeparatorWhitens(input: Image, segs: seq<Segment>, region: Box, s: Segment, k: int)
    requires InImage(input, region)
    requires s in segs && HasSegment(region, s) && IsVertical(s, kAngleTolerance)
    requires 0 <= k < region.width
    requires var m := s.start.x + s.end.x - 2 * region.x; m - 10 <= 2 * k <= m + 10
    ensures ColumnSignal(input, segs, region)[k] == UINT8_MAX
  {
    var ver := VerticalSegments(segs, region);
    assert s in ver;
    var i :| 0 <= i < |ver| && ver[i] == s;
    var bands := WhitenedBands(segs, region);
    assert bands[i] == WhitenedBand(s, region);
    assert InBands(bands, k);
  }

  // ----- The region arena -------------------------------------------------------

  /** The category table of the XY-cut: the page holds level-1 titles and sections,
      a level-1 section holds level-1 columns, a level-1 column holds level-2 titles
      and sections, and a level-2 section holds level-2 columns. */
  predicate ParentOf(parent: DOMCategory, child: DOMCategory)
  {
    || (parent == PAGE && (child == TITLE_LEVEL_1 || child == SECTION_LEVEL_1))
    || (parent == SECTION_LEVEL_1 && child == COLUMN_LEVEL_1)
    || (parent == COLUMN_LEVEL_1 && (child == TITLE_LEVEL_2 || child == SECTION_LEVEL_2))
    || (parent == SECTION_LEVEL_2 && child == COLUMN_LEVEL_2)
  }

  /** The depth left below a category; it drops from parent to child. */
  function CatRank(c: DOMCategory): nat
  {
    match c
    case PAGE => 4
    case SECTION_LEVEL_1 => 3
    case COLUMN_LEVEL_1 => 2
    case SECTION_LEVEL_2 => 1
    case _ => 0
  }

  lemma ParentOfLowersRank(parent: DOMCategory, child: DOMCategory)
    requires ParentOf(parent, child)
    ensures CatRank(child) < CatRank(parent)
    ensures child != PAGE
  {}

  /** Region k > 0 of the arena points to an earlier region of the parent category,
      lies inside it and inside the page, is at least one row high (and one column
      wide unless its parent has no width), and is no line. */
  predicate Nested(page: Box, arena: seq<LayoutRegion>, k: int)
    requires 0 < k < |arena|
  {
    var r := arena[k];
    && 0 <= r.parentId < k
    && ParentOf(arena[r.parentId].category, r.category)
    && Contains(arena[r.parentId].bbox, r.bbox)
    && Contains(page, r.bbox)
    && r.bbox.width >= 0 && r.bbox.height >= 1
    && (arena[r.parentId].bbox.width >= 1 ==> r.bbox.width >= 1)
    && r.maskInstanceId == -1
  }

  /** The arena invariant: the page comes first, every other region is nested. */
  predicate ArenaOk(page: Box, arena: seq<LayoutRegion>)
  {
    && |arena| >= 1
    && arena[0] == LayoutRegion(page, PAGE, -1, -1)
    && page.width >= 0 && page.height >= 0
    && forall k :: 0 < k < |arena| ==> Nested(page, arena, k)
  }

  /** `b` is `a` with regions appended. */
  predicate Extends(a: seq<LayoutRegion>, b: seq<LayoutRegion>)
  {
    |a| <= |b| && forall k :: 0 <= k < |a| ==> b[k] == a[k]
  }

  /** Every region appended after `a` is a child of `pid` or hangs under another
      appended region: the appended regions are the new subtree of `pid`. */
  predicate Descends(a: seq<LayoutRegion>, b: seq<LayoutRegion>, pid: int)
    requires |a| <= |b|
  {
    forall j :: |a| <= j < |b| ==> b[j].parentId == pid || |a| <= b[j].parentId
  }

  /** Every region of the arena lies in the page and has a non-negative size. */
  lemma RegionInPage(page: Box, arena: seq<LayoutRegion>, k: int)
    requires ArenaOk(page, arena) && 0 <= k < |arena|
    ensures Contains(page, arena[k].bbox) && arena[k].bbox.width >= 0 && arena[k].bbox.height >= 0
    ensures arena[k].category == PAGE <==> k == 0
  {
    if k > 0 {
      assert Nested(page, arena, k);
      ParentOfLowersRank(arena[arena[k].parentId].category, arena[k].category);
    }
  }

  /** Appending a region that is nested in its parent keeps the invariant. */
  lemma AppendOk(page: Box, arena: seq<LayoutRegion>, c: LayoutRegion)
    requires ArenaOk(page, arena)
    requires 0 <= c.parentId < |arena|
    requires ParentOf(arena[c.parentId].category, c.category)
    requires Contains(arena[c.parentId].bbox, c.bbox)
    requires c.bbox.width >= 0 && c.bbox.height >= 1
    requires arena[c.parentId].bbox.width >= 1 ==> c.bbox.width >= 1
    requires c.maskInstanceId == -1
    ensures ArenaOk(page, arena + [c]) && Extends(arena, arena + [c])
  {
    RegionInPage(page, arena, c.parentId);
    var a := arena + [c];
    forall k | 0 < k < |a|
      ensures Nested(page, a, k)
    {
      if k < |arena| {
        assert Nested(page, arena, k);
        assert a[k] == arena[k] && a[arena[k].parentId] == arena[arena[k].parentId];
      }
    }
  }

  // ----- vsplit children --------------------------------------------------------

  /** A section shorter than 3 * (kLineHeight / 2) once widened by the margins is a title. */
  predicate IsTitle(sec: (int, int), config: KConfig)
  {
    ((sec.1 - sec.0 + 2 * kExtraMargin) as real) < 3.0 * (config.kLineHeight / 2.0)
  }

  /** The box of section [l, r) of a region: the rows shifted to image coordinates,
      widened by kExtraMargin and clamped to the region. */
  function SectionBox(region: Box, sec: (int, int)): (b: Box)
    requires 0 <= sec.0 < sec.1 <= region.height && region.width >= 0
    ensures Contains(region, b) && b.height >= 1 && b.width == region.width
    ensures forall p :: Has(b, p) <==>
      Has(region, p) && region.y + sec.0 - kExtraMargin <= p.y < region.y + sec.1 + kExtraMargin
  {
    var y0 := Max(region.y, sec.0 + region.y - kExtraMargin);
    var y1 := Min(region.Y1(), sec.1 + region.y + kExtraMargin);
    Box(region.x, y0, region.width, y1 - y0)
  }

  /** The region vsplit appends for one section; only a page or a level-1 column may
      be cut along y. */
  function SectionRegion(parent: LayoutRegion, pid: int, sec: (int, int), config: KConfig): (r: Result<LayoutRegion, XYCutError>)
    requires 0 <= sec.0 < sec.1 <= parent.bbox.height && parent.bbox.width >= 0
    ensures r.Ok? <==> parent.category == PAGE || parent.category == COLUMN_LEVEL_1
    ensures r.Err? ==> r.error == InvalidLayout(parent.category)
    ensures r.Ok? ==> && ParentOf(parent.category, r.value.category)
                      && (r.value.category == TITLE_LEVEL_1 || r.value.category == TITLE_LEVEL_2 <==> IsTitle(sec, config))
                      && r.value.bbox == SectionBox(parent.bbox, sec)
                      && r.value.parentId == pid && r.value.maskInstanceId == -1
  {
    var title := IsTitle(sec, config);
    if parent.category == PAGE then
      Ok(LayoutRegion(SectionBox(parent.bbox, sec), if title then TITLE_LEVEL_1 else SECTION_LEVEL_1, pid, -1))
    else if parent.category == COLUMN_LEVEL_1 then
      Ok(LayoutRegion(SectionBox(parent.bbox, sec), if title then TITLE_LEVEL_2 else SECTION_LEVEL_2, pid, -1))
    else Err(InvalidLayout(parent.category))
  }

  /** The box of column [l, r) of a region: the columns shifted to image coordinates,
      widened by 3 * kExtraMargin and clamped to the region. */
  function ColumnBox(region: Box, col: (int, int)): (b: Box)
    requires 0 <= col.0 < col.1 <= region.width && region.height >= 0
    ensures Contains(region, b) && b.width >= 1 && b.height == region.height
    ensures forall p :: Has(b, p) <==>
      Has(region, p) && region.x + col.0 - 3 * kExtraMargin <= p.x < region.x + col.1 + 3 * kExtraMargin
  {
    var x0 := Max(region.x, region.x + col.0 - 3 * kExtraMargin);
    var x1 := Min(region.X1(), region.x + col.1 + 3 * kExtraMargin);
    Box(x0, region.y, x1 - x0, region.height)
  }

  /** The region hsplit appends for one column; only sections may be cut along x. */
  function ColumnRegion(parent: LayoutRegion, pid: int, col: (int, int)): (r: Result<LayoutRegion, XYCutError>)
    requires 0 <= col.0 < col.1 <= parent.bbox.width && parent.bbox.height >= 0
    ensures r.Ok? <==> parent.category == SECTION_LEVEL_1 || parent.category == SECTION_LEVEL_2
    ensures r.Err? ==> r.error == InvalidLayout(parent.category)
    ensures r.Ok? ==> && ParentOf(parent.category, r.value.category)
                      && r.value.bbox == ColumnBox(parent.bbox, col)
                      && r.value.parentId == pid && r.value.maskInstanceId == -1
  {
    if parent.category == SECTION_LEVEL_1 then
      Ok(LayoutRegion(ColumnBox(parent.bbox, col), COLUMN_LEVEL_1, pid, -1))
    else if parent.category == SECTION_LEVEL_2 then
      Ok(LayoutRegion(ColumnBox(parent.bbox, col), COLUMN_LEVEL_2, pid, -1))
    else Err(InvalidLayout(parent.category))
  }

  // ----- vsplit / hsplit ------------------------------------------------------

  /** Between an appended region that is not a child of `pid` and its parent no
      child of `pid` was appended: each child's subtree follows it directly. */
  predicate DepthFirst(a: seq<LayoutRegion>, b: seq<LayoutRegion>, pid: int)
    requires |a| <= |b|
  {
    forall j :: |a| <= j < |b| && b[j].parentId != pid ==>
      forall i :: 0 <= i <= j && b[j].parentId < i ==> b[i].parentId != pid
  }

  /** The loop of vsplit appending one region per section, from section m on. */
  function AppendSections(page: Box, arena: seq<LayoutRegion>, pid: int, secs: seq<(int, int)>, config: KConfig, m: int)
    : (r: Result<seq<LayoutRegion>, XYCutError>)
    requires ArenaOk(page, arena) && 0 <= pid < |arena| && arena[pid].bbox.width >= 0
    requires forall j :: 0 <= j < |secs| ==> 0 <= secs[j].0 < secs[j].1 <= arena[pid].bbox.height
    requires 0 <= m <= |secs|
    ensures r.Ok? <==> m == |secs| || arena[pid].category == PAGE || arena[pid].category == COLUMN_LEVEL_1
    ensures r.Err? ==> r.error == InvalidLayout(arena[pid].category)
    ensures r.Ok? ==> ArenaOk(page, r.value) && Extends(arena, r.value) && |r.value| == |arena| + |secs| - m
    ensures r.Ok? ==> forall j :: |arena| <= j < |r.value| ==>
      SectionRegion(arena[pid], pid, secs[m + j - |arena|], config) == Ok(r.value[j])
    decreases |secs| - m
  {
    if m == |secs| then Ok(arena)
    else match SectionRegion(arena[pid], pid, secs[m], config)
      case Err(e) => Err(e)
      case Ok(c) =>
        AppendOk(page, arena, c);
        AppendSections(page, arena + [c], pid, secs, config, m + 1)
  }

  /** vsplit(parent_id): cut region `pid` along y, append one region per section,
      then cut every appended section along x. Only a page or a level-1 column can
      be cut along y; any other parent with a section throws. */
  function VSplit(input: Image, segs: seq<Segment>, config: KConfig, arena: seq<LayoutRegion>, pid: int)
    : (r: Result<seq<LayoutRegion>, XYCutError>)
    requires WellFormed(input) && AllTopDown(segs) && ArenaOk(input.dom, arena) && 0 <= pid < |arena|
    requires InImage(input, arena[pid].bbox)
    ensures arena[pid].category == PAGE || arena[pid].category == COLUMN_LEVEL_1 ==> r.Ok?
    ensures r.Ok? ==> ArenaOk(input.dom, r.value) && Extends(arena, r.value) && Descends(arena, r.value, pid)
    ensures r.Ok? ==>
      var secs := RowSections(input, segs, config, arena[pid].bbox);
      && |arena| + |secs| <= |r.value|
      && (forall m :: 0 <= m < |secs| ==> SectionRegion(arena[pid], pid, secs[m], config) == Ok(r.value[|arena| + m]))
      && (forall j :: |arena| + |secs| <= j < |r.value| ==> r.value[j].parentId != pid)
    decreases CatRank(arena[pid].category), 2, 0
  {
    var region := arena[pid].bbox;
    var secs := RowSections(input, segs, config, region);
    match AppendSections(input.dom, arena, pid, secs, config, 0)
    case Err(e) => Err(e)
    case Ok(a1) =>
      ChildrenRank(arena, a1, pid, secs, config);
      var b := SplitChildren(input, RegionSegments(segs, region), config, a1, CatRank(arena[pid].category), |arena|, |arena|, |a1|);
      ChildrenFirst(arena, a1, b, pid, secs, config);
      Ok(b)
  }

  /** The sections vsplit appends rank below their parent. */
  lemma ChildrenRank(arena: seq<LayoutRegion>, a1: seq<LayoutRegion>, pid: int, secs: seq<(int, int)>, config: KConfig)
    requires 0 <= pid < |arena| && arena[pid].bbox.width >= 0
    requires forall j :: 0 <= j < |secs| ==> 0 <= secs[j].0 < secs[j].1 <= arena[pid].bbox.height
    requires |a1| == |arena| + |secs|
    requires forall j :: |arena| <= j < |a1| ==> SectionRegion(arena[pid], pid, secs[j - |arena|], config) == Ok(a1[j])
    ensures forall k :: |arena| <= k < |a1| ==> CatRank(a1[k].category) < CatRank(arena[pid].category)
  {
    forall k | |arena| <= k < |a1|
      ensures CatRank(a1[k].category) < CatRank(arena[pid].category)
    {
      assert SectionRegion(arena[pid], pid, secs[k - |arena|], config) == Ok(a1[k]);
      ParentOfLowersRank(arena[pid].category, a1[k].category);
    }
  }

  /** vsplit appends all its sections before any of their descendants. */
  lemma ChildrenFirst(arena: seq<LayoutRegion>, a1: seq<LayoutRegion>, b: seq<LayoutRegion>, pid: int,
                      secs: seq<(int, int)>, config: KConfig)
    requires 0 <= pid < |arena| && arena[pid].bbox.width >= 0
    requires forall j :: 0 <= j < |secs| ==> 0 <= secs[j].0 < secs[j].1 <= arena[pid].bbox.height
    requires Extends(arena, a1) && |a1| == |arena| + |secs|
    requires forall j :: |arena| <= j < |a1| ==> SectionRegion(arena[pid], pid, secs[j - |arena|], config) == Ok(a1[j])
    requires Extends(a1, b) && forall j :: |a1| <= j < |b| ==> |arena| <= b[j].parentId
    ensures Extends(arena, b) && Descends(arena, b, pid)
    ensures forall m :: 0 <= m < |secs| ==> SectionRegion(arena[pid], pid, secs[m], config) == Ok(b[|arena| + m])
    ensures forall j :: |arena| + |secs| <= j < |b| ==> b[j].parentId != pid
  {
    forall m | 0 <= m < |secs|
      ensures SectionRegion(arena[pid], pid, secs[m], config) == Ok(b[|arena| + m])
    {
      assert SectionRegion(arena[pid], pid, secs[|arena| + m - |arena|], config) == Ok(a1[|arena| + m]);
    }
    forall j | |arena| <= j < |b|
      ensures b[j].parentId == pid || |arena| <= b[j].parentId
    {
      if j < |a1| {
        assert SectionRegion(arena[pid], pid, secs[j - |arena|], config) == Ok(a1[j]);
      }
    }
  }

  /** The second loop of vsplit: cut the appended sections [i, end) along x. */
  function SplitChildren(input: Image, segs: seq<Segment>, config: KConfig, arena: seq<LayoutRegion>,
                         rank: nat, lo: int, i: int, end: int): (r: seq<LayoutRegion>)
    requires WellFormed(input) && AllTopDown(segs) && ArenaOk(input.dom, arena)
    requires 0 <= lo <= i <= end <= |arena|
    requires forall k :: i <= k < end ==> CatRank(arena[k].category) < rank
    ensures ArenaOk(input.dom, r) && Extends(arena, r)
    ensures forall j :: |arena| <= j < |r| ==> lo <= r[j].parentId
    decreases rank, 1, end - i
  {
    if i == end then arena
    else if arena[i].category == SECTION_LEVEL_1 || arena[i].category == SECTION_LEVEL_2 then
      RegionInPage(input.dom, arena, i);
      var a2 := HSplit(input, segs, config, arena, i).value;
      SplitChildren(input, segs, config, a2, rank, lo, i + 1, end)
    else SplitChildren(input, segs, config, arena, rank, lo, i + 1, end)
  }

  /** hsplit(parent_id): cut region `pid` along x and append one region per column,
      cutting each level-1 column along y right after appending it. Only a section
      can be cut along x; any other parent with a column throws. */
  function HSplit(input: Image, segs: seq<Segment>, config: KConfig, arena: seq<LayoutRegion>, pid: int)
    : (r: Result<seq<LayoutRegion>, XYCutError>)
    requires WellFormed(input) && AllTopDown(segs) && ArenaOk(input.dom, arena) && 0 <= pid < |arena|
    requires InImage(input, arena[pid].bbox)
    ensures arena[pid].category == SECTION_LEVEL_1 || arena[pid].category == SECTION_LEVEL_2 ==> r.Ok?
    ensures r.Ok? ==> ArenaOk(input.dom, r.value) && Extends(arena, r.value) && Descends(arena, r.value, pid)
    ensures r.Ok? ==> DepthFirst(arena, r.value, pid)
    decreases CatRank(arena[pid].category), 2, 0
  {
    var region := arena[pid].bbox;
    var cols := ColumnSections(input, segs, config, region);
    AppendColumns(input, RegionSegments(segs, region), config, arena, pid, cols, 0)
  }

  /** The loop of hsplit, from column m on. */
  function AppendColumns(input: Image, segs: seq<Segment>, config: KConfig, arena: seq<LayoutRegion>, pid: int,
                         cols: seq<(int, int)>, m: int): (r: Result<seq<LayoutRegion>, XYCutError>)
    requires WellFormed(input) && AllTopDown(segs) && ArenaOk(input.dom, arena) && 0 <= pid < |arena|
    requires forall j :: 0 <= j < |cols| ==> 0 <= cols[j].0 < cols[j].1 <= arena[pid].bbox.width
    requires 0 <= m <= |cols|
    ensures r.Ok? <==> m == |cols| || arena[pid].category == SECTION_LEVEL_1 || arena[pid].category == SECTION_LEVEL_2
    ensures r.Err? ==> r.error == InvalidLayout(arena[pid].category)
    ensures r.Ok? ==> ArenaOk(input.dom, r.value) && Extends(arena, r.value) && Descends(arena, r.value, pid)
    ensures r.Ok? ==> DepthFirst(arena, r.value, pid)
    decreases CatRank(arena[pid].category), 1, |cols| - m
  {
    if m == |cols| then Ok(arena)
    else
      RegionInPage(input.dom, arena, pid);
      match ColumnRegion(arena[pid], pid, cols[m])
      case Err(e) => Err(e)
      case Ok(c) =>
        assert pid > 0 && Nested(input.dom, arena, pid);
        AppendOk(input.dom, arena, c);
        var a1 := arena + [c];
        if c.category == COLUMN_LEVEL_1 then
          RegionInPage(input.dom, a1, |arena|);
          var a2 := VSplit(input, segs, config, a1, |arena|).value;
          var rest := AppendColumns(input, segs, config, a2, pid, cols, m + 1);
          ColumnComposes(arena, c, a2, rest, pid);
          rest
        else
          var rest := AppendColumns(input, segs, config, a1, pid, cols, m + 1);
          ColumnComposes(arena, c, a1, rest, pid);
          rest
  }

  /** A column appended under `pid`, then the subtree vsplit grows under the column,
      then the remaining columns: the whole is a depth-first subtree of `pid`. */
  lemma ColumnComposes(arena: seq<LayoutRegion>, c: LayoutRegion, a2: seq<LayoutRegion>,
                       rest: Result<seq<LayoutRegion>, XYCutError>, pid: int)
    requires 0 <= pid < |arena| && c.parentId == pid
    requires Extends(arena + [c], a2) && Descends(arena + [c], a2, |arena|)
    requires rest.Ok? ==> Extends(a2, rest.value) && Descends(a2, rest.value, pid) && DepthFirst(a2, rest.value, pid)
    ensures rest.Ok? ==> Extends(arena, rest.value) && Descends(arena, rest.value, pid) && DepthFirst(arena, rest.value, pid)
  {
    if rest.Ok? {
      var a1 := arena + [c];
      var b := rest.value;
      assert b[|arena|] == a2[|arena|] == c;
      forall j | |arena| <= j < |b|
        ensures b[j].parentId == pid || |arena| <= b[j].parentId
      {
        if j < |a2| {
          assert b[j] == a2[j];
        }
      }
      forall j, i | |arena| <= j < |b| && b[j].parentId != pid && 0 <= i <= j && b[j].parentId < i
        ensures b[i].parentId != pid
      {
        if j < |a2| {
          assert b[j] == a2[j] && b[i] == a2[i];
        }
      }
    }
  }

  /** XYCutLayoutExtraction on the block image, whose domain is the page: the arena
      starts with the page and vsplit cuts it. No layout error escapes: vsplit is
      only ever applied to the page and to level-1 columns, hsplit only to sections. */
  function XYCutLayout(input: Image, segs: seq<Segment>, config: KConfig): (r: Result<seq<LayoutRegion>, XYCutError>)
    requires WellFormed(input) && AllTopDown(segs)
    ensures r.Ok? && ArenaOk(input.dom, r.value)
    ensures r.Ok? ==>
      var page := LayoutRegion(input.dom, PAGE, -1, -1);
      var secs := RowSections(input, segs, config, input.dom);
      && 1 + |secs| <= |r.value|
      && forall m :: 0 <= m < |secs| ==> SectionRegion(page, 0, secs[m], config) == Ok(r.value[1 + m])
  {
    var page := LayoutRegion(input.dom, PAGE, -1, -1);
    var arena := [page];
    assert ArenaOk(input.dom, arena) && arena[0] == page;
    var r := VSplit(input, segs, config, arena, 0);
    assert r.Ok?;
    r
  }
}
